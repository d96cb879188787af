/** The ACL evaluator (crates/authz) and the UI capabilities derived from the same entries
    (crates/admin-ui/src/permissions.rs). */
module Acl {
  import opened Bytes
  import opened Bits

  type Text = bytes

  datatype ResourceType = Topic | Group | Cluster | TransactionalId | DelegationToken

  datatype PatternType = Literal | Prefixed

  datatype PermissionType = Allow | Deny

  datatype AclOperation =
    | All | Read | Write | Create | Delete | Alter | Describe | ClusterAction | DescribeConfigs | AlterConfigs
    | IdempotentWrite | TwoPhaseCommit

  datatype AclEntry = AclEntry(resourceType: ResourceType, resourceName: Text, patternType: PatternType,
                               principal: Text, host: Text, operation: AclOperation, permissionType: PermissionType)

  const ANY: Text := Ascii("*")
  const ANY_USER: Text := Ascii("User:*")

  predicate Implies(stored: AclOperation, requested: AclOperation)
  {
    || ((stored.Read? || stored.Write? || stored.Delete? || stored.Alter?) && requested.Describe?)
    || (stored.AlterConfigs? && requested.DescribeConfigs?)
  }

  predicate MatchesOperation(stored: AclOperation, requested: AclOperation)
  {
    stored == requested || stored.All? || Implies(stored, requested)
  }

  // ---- The evaluator ----

  /** `host` is the textual address of the peer. */
  datatype Request = Request(user: Text, host: Text, resourceType: ResourceType, resourceName: Text, operation: AclOperation)

  function UserPattern(user: Text): Text { Ascii("User:") + user }

  predicate MatchesResource(e: AclEntry, rt: ResourceType, name: Text)
  {
    && e.resourceType == rt
    && match e.patternType
       case Literal => e.resourceName == name || e.resourceName == ANY
       case Prefixed => e.resourceName <= name
  }

  predicate Applies(e: AclEntry, r: Request)
  {
    && MatchesResource(e, r.resourceType, r.resourceName)
    && (e.principal == ANY_USER || e.principal == UserPattern(r.user))
    && (e.host == ANY || e.host == r.host)
    && MatchesOperation(e.operation, r.operation)
  }

  ghost predicate HasApplying(entries: seq<AclEntry>, r: Request, permission: PermissionType)
  {
    exists e :: e in entries && Applies(e, r) && e.permissionType == permission
  }

  ghost predicate Denied(entries: seq<AclEntry>, r: Request) { HasApplying(entries, r, Deny) }

  ghost predicate Granted(entries: seq<AclEntry>, r: Request) { HasApplying(entries, r, Allow) }

  /** The rule: super users may, and anyone else with a grant and no denial. */
  ghost predicate MayAccess(superUsers: set<Text>, entries: seq<AclEntry>, r: Request)
  {
    r.user in superUsers || (Granted(entries, r) && !Denied(entries, r))
  }

  /** The entries that match the resource, in order and as often as they stand. */
  function Matching(entries: seq<AclEntry>, rt: ResourceType, name: Text): (matching: seq<AclEntry>)
    ensures forall e :: e in matching <==> e in entries && MatchesResource(e, rt, name)
  {
    if entries == [] then []
    else
      var last := entries[|entries| - 1];
      Matching(entries[..|entries| - 1], rt, name) + (if MatchesResource(last, rt, name) then [last] else [])
  }

  method MatchingAcls(entries: seq<AclEntry>, rt: ResourceType, name: Text) returns (matching: seq<AclEntry>)
    ensures matching == Matching(entries, rt, name)
  {
    matching := [];
    for i := 0 to |entries|
      invariant matching == Matching(entries[..i], rt, name)
    {
      assert entries[..i + 1][..i] == entries[..i];
      if MatchesResource(entries[i], rt, name) {
        matching := matching + [entries[i]];
      }
    }
    assert entries[..|entries|] == entries;
  }

  /** Stopping at the first denial decides as the rule does. */
  method Authorize(superUsers: set<Text>, entries: seq<AclEntry>, r: Request) returns (result: PermissionType)
    ensures result == Allow <==> MayAccess(superUsers, entries, r)
  {
    if r.user in superUsers {
      return Allow;
    }
    var userPattern, sawAllow := UserPattern(r.user), false;
    var matching := MatchingAcls(entries, r.resourceType, r.resourceName);
    for i := 0 to |matching|
      invariant sawAllow <==> Granted(matching[..i], r)
      invariant !Denied(matching[..i], r)
    {
      var e := matching[i];
      assert matching[..i + 1] == matching[..i] + [e];
      assert e in matching;
      if !(e.principal == ANY_USER || e.principal == userPattern) || !(e.host == ANY || e.host == r.host)
         || !MatchesOperation(e.operation, r.operation)
      {
        continue;
      }
      if e.permissionType == Deny {
        return Deny;
      }
      sawAllow := true;
    }
    assert matching[..|matching|] == matching;
    result := if sawAllow then Allow else Deny;
  }

  /** Only which entries there are matters, not their order or number. */
  lemma OrderAndRepetitionDoNotMatter(superUsers: set<Text>, a: seq<AclEntry>, b: seq<AclEntry>, r: Request)
    requires forall e :: e in a <==> e in b
    ensures MayAccess(superUsers, a, r) <==> MayAccess(superUsers, b, r)
  {
  }

  /** More grants never take access away, and more denials never give it. */
  lemma GrantsAndDenialsAreMonotone(superUsers: set<Text>, entries: seq<AclEntry>, more: seq<AclEntry>, r: Request)
    ensures (forall e :: e in more ==> e.permissionType == Allow) && MayAccess(superUsers, entries, r) ==>
              MayAccess(superUsers, entries + more, r)
    ensures (forall e :: e in more ==> e.permissionType == Deny) && MayAccess(superUsers, entries + more, r) ==>
              MayAccess(superUsers, entries, r)
  {
    if Granted(entries, r) {
      var e :| e in entries && Applies(e, r) && e.permissionType == Allow;
      assert e in entries + more;
    }
    if Denied(entries, r) {
      var e :| e in entries && Applies(e, r) && e.permissionType == Deny;
      assert e in entries + more;
    }
  }

  // ---- The UI ----

  /** An entry the UI counts: any resource of the type, the principal, and a host that is `*` or the
      peer's if known. */
  predicate Counts(e: AclEntry, principal: Text, host: Option<Text>, rt: ResourceType, operation: AclOperation)
  {
    && e.resourceType == rt && (e.principal == principal || e.principal == ANY_USER)
    && (e.host == ANY || (host.Some? && e.host == host.value)) && MatchesOperation(e.operation, operation)
  }

  ghost predicate Any<T(!new)>(s: seq<T>, p: T -> bool)
  {
    exists x :: x in s && p(x)
  }

  lemma AnySnoc<T(!new)>(s: seq<T>, p: T -> bool, i: nat)
    requires i < |s|
    ensures Any(s[..i + 1], p) <==> Any(s[..i], p) || p(s[i])
    ensures p(s[i]) ==> Any(s, p)
    ensures s[..|s|] == s
  {
    assert s[..i + 1] == s[..i] + [s[i]];
    assert s[i] in s;
  }

  function CountsAs(principal: Text, host: Option<Text>, rt: ResourceType, operation: AclOperation,
                    permission: PermissionType): AclEntry -> bool
  {
    (e: AclEntry) => Counts(e, principal, host, rt, operation) && e.permissionType == permission
  }

  /** Some entry allows and none denies. */
  ghost predicate Effective(principal: Text, host: Option<Text>, entries: seq<AclEntry>, rt: ResourceType, operation: AclOperation)
  {
    && Any(entries, CountsAs(principal, host, rt, operation, Allow))
    && !Any(entries, CountsAs(principal, host, rt, operation, Deny))
  }

  /** A scan that stops at the first denial. */
  method DenyWins<T(!new)>(entries: seq<T>, allows: T -> bool, denies: T -> bool) returns (r: bool)
    ensures r <==> Any(entries, allows) && !Any(entries, denies)
  {
    var sawAllow := false;
    for i := 0 to |entries|
      invariant sawAllow == Any(entries[..i], allows) && !Any(entries[..i], denies)
    {
      AnySnoc(entries, allows, i);
      AnySnoc(entries, denies, i);
      if denies(entries[i]) {
        return false;
      }
      if allows(entries[i]) {
        sawAllow := true;
      }
    }
    assert entries[..|entries|] == entries;
    return sawAllow;
  }

  method HasEffectivePermission(principal: Text, host: Option<Text>, entries: seq<AclEntry>, rt: ResourceType,
                                operation: AclOperation) returns (r: bool)
    ensures r <==> Effective(principal, host, entries, rt, operation)
  {
    r := DenyWins(entries, CountsAs(principal, host, rt, operation, Allow), CountsAs(principal, host, rt, operation, Deny));
  }

  lemma CountsIsApplies(e: AclEntry, user: Text, host: Text, rt: ResourceType, name: Text, operation: AclOperation)
    ensures Applies(e, Request(user, host, rt, name, operation)) <==>
            Counts(e, UserPattern(user), Some(host), rt, operation) && MatchesResource(e, rt, name)
    ensures e.resourceType == rt ==> MatchesResource(e, rt, e.resourceName)
  {
  }

  lemma CountedApplies(user: Text, host: Text, entries: seq<AclEntry>, rt: ResourceType, operation: AclOperation,
                       permission: PermissionType, e: AclEntry)
    requires e in entries && Counts(e, UserPattern(user), Some(host), rt, operation) && e.permissionType == permission
    ensures HasApplying(entries, Request(user, host, rt, e.resourceName, operation), permission)
  {
    CountsIsApplies(e, user, host, rt, e.resourceName, operation);
  }

  lemma ApplyingCounts(user: Text, host: Text, entries: seq<AclEntry>, rt: ResourceType, operation: AclOperation,
                       permission: PermissionType, name: Text)
    requires HasApplying(entries, Request(user, host, rt, name, operation), permission)
    ensures Any(entries, CountsAs(UserPattern(user), Some(host), rt, operation, permission))
  {
    var e :| e in entries && Applies(e, Request(user, host, rt, name, operation)) && e.permissionType == permission;
    CountsIsApplies(e, user, host, rt, name, operation);
    assert CountsAs(UserPattern(user), Some(host), rt, operation, permission)(e);
  }

  lemma CountsOnSome(user: Text, host: Text, entries: seq<AclEntry>, rt: ResourceType, operation: AclOperation,
                     permission: PermissionType)
    ensures Any(entries, CountsAs(UserPattern(user), Some(host), rt, operation, permission)) <==>
            exists name :: HasApplying(entries, Request(user, host, rt, name, operation), permission)
  {
    var p := CountsAs(UserPattern(user), Some(host), rt, operation, permission);
    if Any(entries, p) {
      var e :| e in entries && p(e);
      CountedApplies(user, host, entries, rt, operation, permission, e);
    }
    if name :| HasApplying(entries, Request(user, host, rt, name, operation), permission) {
      ApplyingCounts(user, host, entries, rt, operation, permission, name);
    }
  }

  /** What the UI grants a user at a host is exactly what the evaluator grants on some resource of the
      type and denies explicitly on none. */
  lemma UiAgreesWithEvaluator(user: Text, host: Text, entries: seq<AclEntry>, rt: ResourceType, operation: AclOperation)
    ensures Effective(UserPattern(user), Some(host), entries, rt, operation) <==>
            && (exists name :: MayAccess({}, entries, Request(user, host, rt, name, operation)))
            && (forall name :: !Denied(entries, Request(user, host, rt, name, operation)))
  {
    CountsOnSome(user, host, entries, rt, operation, Allow);
    CountsOnSome(user, host, entries, rt, operation, Deny);
    if (exists name :: HasApplying(entries, Request(user, host, rt, name, operation), Allow))
       && forall name :: !Denied(entries, Request(user, host, rt, name, operation)) {
      var name :| HasApplying(entries, Request(user, host, rt, name, operation), Allow);
      assert MayAccess({}, entries, Request(user, host, rt, name, operation));
    }
  }

  lemma AnyAgrees<T(!new)>(s: seq<T>, p: T -> bool, q: T -> bool)
    requires forall x :: x in s ==> p(x) == q(x)
    ensures Any(s, p) <==> Any(s, q)
  {
  }

  lemma CountUnnamed(principal: Text, host: Text, entries: seq<AclEntry>, rt: ResourceType, operation: AclOperation,
                     permission: PermissionType)
    requires forall e :: e in entries ==> e.host != host
    ensures Any(entries, CountsAs(principal, None, rt, operation, permission)) <==>
            Any(entries, CountsAs(principal, Some(host), rt, operation, permission))
  {
    var p, q := CountsAs(principal, None, rt, operation, permission), CountsAs(principal, Some(host), rt, operation, permission);
    forall e | e in entries ensures p(e) == q(e) {
      assert p(e) == (Counts(e, principal, None, rt, operation) && e.permissionType == permission);
    }
    AnyAgrees(entries, p, q);
  }

  /** An unknown host is judged like any host that no entry names. */
  lemma UnknownHostIsUnnamedHost(principal: Text, host: Text, entries: seq<AclEntry>, rt: ResourceType, operation: AclOperation)
    requires forall e :: e in entries ==> e.host != host
    ensures Effective(principal, None, entries, rt, operation) <==> Effective(principal, Some(host), entries, rt, operation)
  {
    CountUnnamed(principal, host, entries, rt, operation, Allow);
    CountUnnamed(principal, host, entries, rt, operation, Deny);
  }

  // ---- Capabilities ----

  datatype Capability =
    | ViewTopics | CreateTopics | AlterTopics | DeleteTopics | ViewGroups | ViewAcls | AlterAcls | AlterUsers
    | ViewQuotas | AlterQuotas | ViewLogDirs

  /** The bit number of a capability. */
  function Place(c: Capability): nat
  {
    match c
    case ViewTopics => 0
    case CreateTopics => 1
    case AlterTopics => 2
    case DeleteTopics => 3
    case ViewGroups => 4
    case ViewAcls => 5
    case AlterAcls => 6
    case AlterUsers => 7
    case ViewQuotas => 8
    case AlterQuotas => 9
    case ViewLogDirs => 10
  }

  predicate Contains(bits: nat, c: Capability) { And(bits, Bit(Place(c))) != 0 }

  /** The effective permissions that capabilities are granted from. */
  datatype Flags = Flags(describeTopic: bool, create: bool, alterTopic: bool, alterTopicConfigs: bool, delete: bool,
                         describeGroup: bool, describeCluster: bool, alterCluster: bool)

  ghost predicate AreEffective(principal: Text, host: Option<Text>, entries: seq<AclEntry>, f: Flags)
  {
    && (f.describeTopic <==> Effective(principal, host, entries, Topic, Describe))
    && (f.create <==> Effective(principal, host, entries, Cluster, Create))
    && (f.alterTopic <==> Effective(principal, host, entries, Topic, Alter))
    && (f.alterTopicConfigs <==> Effective(principal, host, entries, Topic, AlterConfigs))
    && (f.delete <==> Effective(principal, host, entries, Topic, Delete))
    && (f.describeGroup <==> Effective(principal, host, entries, Group, Describe))
    && (f.describeCluster <==> Effective(principal, host, entries, Cluster, Describe))
    && (f.alterCluster <==> Effective(principal, host, entries, Cluster, Alter))
  }

  method EffectiveFlags(principal: Text, host: Option<Text>, entries: seq<AclEntry>) returns (f: Flags)
    ensures AreEffective(principal, host, entries, f)
  {
    var describeTopic := HasEffectivePermission(principal, host, entries, Topic, Describe);
    var create := HasEffectivePermission(principal, host, entries, Cluster, Create);
    var alterTopic := HasEffectivePermission(principal, host, entries, Topic, Alter);
    var alterTopicConfigs := HasEffectivePermission(principal, host, entries, Topic, AlterConfigs);
    var delete := HasEffectivePermission(principal, host, entries, Topic, Delete);
    var describeGroup := HasEffectivePermission(principal, host, entries, Group, Describe);
    var describeCluster := HasEffectivePermission(principal, host, entries, Cluster, Describe);
    var alterCluster := HasEffectivePermission(principal, host, entries, Cluster, Alter);
    f := Flags(describeTopic, create, alterTopic, alterTopicConfigs, delete, describeGroup, describeCluster, alterCluster);
  }

  predicate Earns(f: Flags, c: Capability)
  {
    match c
    case ViewTopics => f.describeTopic
    case CreateTopics => f.create
    case AlterTopics => f.alterTopic || f.alterTopicConfigs
    case DeleteTopics => f.delete
    case ViewGroups => f.describeGroup
    case ViewAcls => f.describeCluster
    case AlterAcls => f.alterCluster
    case AlterUsers => f.alterCluster
    case ViewQuotas => f.describeCluster
    case AlterQuotas => f.alterCluster
    case ViewLogDirs => f.describeCluster
  }

  lemma PlacesDiffer(c: Capability, d: Capability)
    ensures Place(c) == Place(d) ==> c == d
  {
  }

  lemma {:induction false} GrantSets(bits: nat, c: Capability, d: Capability)
    ensures Contains(Or(bits, Bit(Place(c))), d) <==> Contains(bits, d) || d == c
  {
    SetBit(bits, Place(c), Place(d));
    PlacesDiffer(c, d);
  }

  /** The bits below `n` are set as the flags earn, and no others. */
  ghost predicate PackedUpTo(bits: nat, f: Flags, n: nat)
  {
    forall c :: Contains(bits, c) <==> Place(c) < n && Earns(f, c)
  }

  method Grant(bits: nat, c: Capability, granted: bool, ghost f: Flags) returns (after: nat)
    requires PackedUpTo(bits, f, Place(c)) && granted == Earns(f, c)
    ensures PackedUpTo(after, f, Place(c) + 1)
  {
    after := if granted then Or(bits, Bit(Place(c))) else bits;
    forall d ensures Contains(after, d) <==> Place(d) < Place(c) + 1 && Earns(f, d) {
      GrantSets(bits, c, d);
      PlacesDiffer(c, d);
    }
  }

  method GrantAll(f: Flags) returns (bits: nat)
    ensures PackedUpTo(bits, f, 11)
  {
    bits := Grant(0, ViewTopics, f.describeTopic, f);
    bits := Grant(bits, CreateTopics, f.create, f);
    bits := Grant(bits, AlterTopics, f.alterTopic || f.alterTopicConfigs, f);
    bits := Grant(bits, DeleteTopics, f.delete, f);
    bits := Grant(bits, ViewGroups, f.describeGroup, f);
    bits := Grant(bits, ViewAcls, f.describeCluster, f);
    bits := Grant(bits, AlterAcls, f.alterCluster, f);
    bits := Grant(bits, AlterUsers, f.alterCluster, f);
    bits := Grant(bits, ViewQuotas, f.describeCluster, f);
    bits := Grant(bits, AlterQuotas, f.alterCluster, f);
    bits := Grant(bits, ViewLogDirs, f.describeCluster, f);
  }

  /** The permission, on some resource of a type, that a capability stands for. */
  ghost predicate Earned(principal: Text, host: Option<Text>, entries: seq<AclEntry>, c: Capability)
  {
    match c
    case ViewTopics => Effective(principal, host, entries, Topic, Describe)
    case CreateTopics => Effective(principal, host, entries, Cluster, Create)
    case AlterTopics =>
      Effective(principal, host, entries, Topic, Alter) || Effective(principal, host, entries, Topic, AlterConfigs)
    case DeleteTopics => Effective(principal, host, entries, Topic, Delete)
    case ViewGroups => Effective(principal, host, entries, Group, Describe)
    case ViewAcls => Effective(principal, host, entries, Cluster, Describe)
    case AlterAcls => Effective(principal, host, entries, Cluster, Alter)
    case AlterUsers => Effective(principal, host, entries, Cluster, Alter)
    case ViewQuotas => Effective(principal, host, entries, Cluster, Describe)
    case AlterQuotas => Effective(principal, host, entries, Cluster, Alter)
    case ViewLogDirs => Effective(principal, host, entries, Cluster, Describe)
  }

  lemma EarnsIffEarned(principal: Text, host: Option<Text>, entries: seq<AclEntry>, f: Flags, bits: nat, c: Capability)
    requires AreEffective(principal, host, entries, f) && PackedUpTo(bits, f, 11)
    ensures Contains(bits, c) <==> Earned(principal, host, entries, c)
  {
    assert Place(c) < 11;
  }

  /** Each capability bit is set exactly when its permission is effective. */
  method DeriveCapabilities(principal: Text, host: Option<Text>, entries: seq<AclEntry>) returns (bits: nat)
    ensures forall c :: Contains(bits, c) <==> Earned(principal, host, entries, c)
  {
    var f := EffectiveFlags(principal, host, entries);
    bits := GrantAll(f);
    forall c ensures Contains(bits, c) <==> Earned(principal, host, entries, c) {
      EarnsIffEarned(principal, host, entries, f, bits, c);
    }
  }
}
