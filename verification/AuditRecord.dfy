/** Audit events and sink-ready records (crates/audit/src/event.rs, crates/audit/src/sink.rs).
    The OCSF JSON text of an event is an opaque byte string carried by the event. */
module AuditRecords {
  import opened Bytes
  import opened AuditChain

  datatype EventClass = Authentication | Authorization | ApiActivity | ApplicationLifecycle | Checkpoint

  const HEADER_EVENT_CLASS: bytes := Ascii("event_class")
  const HEADER_PRINCIPAL: bytes := Ascii("principal")
  const HEADER_STATUS: bytes := Ascii("status")
  const HEADER_SEQ: bytes := Ascii("seq")
  const HEADER_PREV_HASH: bytes := Ascii("prev_hash")

  const CLASS_CHECKPOINT: bytes := Ascii("checkpoint")

  function ClassHeader(c: EventClass): bytes
  {
    match c
    case Authentication => Ascii("authentication")
    case Authorization => Ascii("authorization")
    case ApiActivity => Ascii("api_activity")
    case ApplicationLifecycle => Ascii("application_lifecycle")
    case Checkpoint => CLASS_CHECKPOINT
  }

  function ClassTag(c: EventClass): byte
  {
    match c
    case Authentication => 0
    case Authorization => 1
    case ApiActivity => 2
    case ApplicationLifecycle => 3
    case Checkpoint => 4
  }

  function ClassFromTag(tag: byte): Option<EventClass>
  {
    match tag
    case 0 => Some(Authentication)
    case 1 => Some(Authorization)
    case 2 => Some(ApiActivity)
    case 3 => Some(ApplicationLifecycle)
    case 4 => Some(Checkpoint)
    case _ => None
  }

  type Headers = seq<(bytes, bytes)>

  datatype AuditRecord = AuditRecord(kind: EventClass, value: bytes, headers: Headers) {
    predicate IsChained() { kind != Checkpoint }
  }

  /** `ocsf` is the serialized event; `principal` and `success` feed the SIEM headers. */
  datatype AuditEvent =
    | AuthenticationEvent(ocsf: bytes, principal: bytes, success: bool)
    | AuthorizationDenied(ocsf: bytes, principal: bytes)
    | AdminOperation(ocsf: bytes, principal: bytes, success: bool)
    | Lifecycle(ocsf: bytes)

  function EventClassOf(e: AuditEvent): EventClass
  {
    match e
    case AuthenticationEvent(_, _, _) => Authentication
    case AuthorizationDenied(_, _) => Authorization
    case AdminOperation(_, _, _) => ApiActivity
    case Lifecycle(_) => ApplicationLifecycle
  }

  function StatusOf(e: AuditEvent): bytes
    requires !e.Lifecycle?
  {
    if e.AuthorizationDenied? then Ascii("denied")
    else if e.success then Ascii("success") else Ascii("failure")
  }

  function FromEvent(e: AuditEvent): AuditRecord
  {
    var classHeader := (HEADER_EVENT_CLASS, ClassHeader(EventClassOf(e)));
    AuditRecord(EventClassOf(e), e.ocsf,
                if e.Lifecycle? then [classHeader]
                else [classHeader, (HEADER_PRINCIPAL, e.principal), (HEADER_STATUS, StatusOf(e))])
  }

  function PushChainHeaders(r: AuditRecord, seqNo: nat, prev: Head): AuditRecord
  {
    r.(headers := r.headers + [(HEADER_SEQ, Decimal(seqNo)), (HEADER_PREV_HASH, Hex(prev))])
  }

  /** The chained record the writer makes of `e` at chain position `c`. */
  function Stamp(e: AuditEvent, c: Chain): (r: AuditRecord)
    ensures r.IsChained() && r.value == e.ocsf
  {
    PushChainHeaders(FromEvent(e), c.nextSeq, c.head)
  }

  // ---- The values a record list chains ----

  function ChainedValues(rs: seq<AuditRecord>): seq<bytes>
  {
    if rs == [] then []
    else
      var last := rs[|rs| - 1];
      ChainedValues(rs[..|rs| - 1]) + (if last.IsChained() then [last.value] else [])
  }

  function ChainedCount(rs: seq<AuditRecord>): nat { |ChainedValues(rs)| }

  /** The chain position after the records of `rs`, starting at `c`. */
  function ChainAfter(sha: Sha256, c: Chain, rs: seq<AuditRecord>): Chain
  {
    Fold(sha, c, ChainedValues(rs))
  }

  lemma ChainedValuesSnoc(rs: seq<AuditRecord>, r: AuditRecord)
    ensures ChainedValues(rs + [r]) == ChainedValues(rs) + (if r.IsChained() then [r.value] else [])
  {
    assert (rs + [r])[..|rs|] == rs;
  }

  lemma {:induction false} ChainedValuesConcat(a: seq<AuditRecord>, b: seq<AuditRecord>)
    ensures ChainedValues(a + b) == ChainedValues(a) + ChainedValues(b)
  {
    if b == [] {
      assert a + b == a;
    } else {
      var n := |b| - 1;
      ChainedValuesConcat(a, b[..n]);
      assert a + b == (a + b[..n]) + [b[n]] && b == b[..n] + [b[n]];
      ChainedValuesSnoc(a + b[..n], b[n]);
    }
  }

  lemma ChainAfterSnoc(sha: Sha256, c: Chain, rs: seq<AuditRecord>, r: AuditRecord)
    ensures ChainAfter(sha, c, rs + [r]) ==
            if r.IsChained() then Extend(sha, ChainAfter(sha, c, rs), r.value) else ChainAfter(sha, c, rs)
  {
    ChainedValuesSnoc(rs, r);
    var vs := ChainedValues(rs);
    assert (vs + [r.value])[..|vs|] == vs;
    assert vs + [] == vs;
  }

  lemma {:induction false} FoldConcat(sha: Sha256, c: Chain, u: seq<bytes>, v: seq<bytes>)
    ensures Fold(sha, c, u + v) == Fold(sha, Fold(sha, c, u), v)
  {
    if v == [] {
      assert u + v == u;
    } else {
      FoldConcat(sha, c, u, v[..|v| - 1]);
      assert (u + v)[..|u + v| - 1] == u + v[..|v| - 1];
    }
  }

  lemma ChainAfterConcat(sha: Sha256, c: Chain, a: seq<AuditRecord>, b: seq<AuditRecord>)
    ensures ChainAfter(sha, c, a + b) == ChainAfter(sha, ChainAfter(sha, c, a), b)
  {
    ChainedValuesConcat(a, b);
    FoldConcat(sha, c, ChainedValues(a), ChainedValues(b));
  }

  // ---- Reading the chain position back from the headers ----

  /** The first header named `key`. */
  function FirstHeader(hs: Headers, key: bytes): Option<bytes>
  {
    if hs == [] then None else if hs[0].0 == key then Some(hs[0].1) else FirstHeader(hs[1..], key)
  }

  /** The last header named `key`. */
  function LastHeader(hs: Headers, key: bytes): Option<bytes>
  {
    if hs == [] then None
    else if hs[|hs| - 1].0 == key then Some(hs[|hs| - 1].1)
    else LastHeader(hs[..|hs| - 1], key)
  }

  function ParseSeq(v: Option<bytes>): Option<nat>
  {
    if v.None? then None else ParseU64(v.value)
  }

  function ParsePrev(v: Option<bytes>): Option<Head>
  {
    if v.None? || !ValidUtf8(v.value) then None else FromHex32(v.value)
  }

  lemma ClassHeaderSeparates(c: EventClass)
    ensures ClassHeader(c) == CLASS_CHECKPOINT <==> c == Checkpoint
  {
    assert c == Checkpoint || |ClassHeader(c)| != |CLASS_CHECKPOINT|;
  }

  lemma HeaderNamesDiffer()
    ensures HEADER_EVENT_CLASS != HEADER_SEQ && HEADER_EVENT_CLASS != HEADER_PREV_HASH
    ensures HEADER_PRINCIPAL != HEADER_SEQ && HEADER_PRINCIPAL != HEADER_PREV_HASH
    ensures HEADER_STATUS != HEADER_SEQ && HEADER_STATUS != HEADER_PREV_HASH
    ensures HEADER_SEQ != HEADER_PREV_HASH
    ensures HEADER_EVENT_CLASS != HEADER_PRINCIPAL && HEADER_EVENT_CLASS != HEADER_STATUS
    ensures HEADER_PRINCIPAL != HEADER_STATUS
  {
    assert HEADER_PRINCIPAL[2] != HEADER_PREV_HASH[2];
  }

  lemma StampLayout(e: AuditEvent, c: Chain)
    ensures var hs, n := Stamp(e, c).headers, |FromEvent(e).headers|;
            && |hs| == n + 2 && hs[..n] == FromEvent(e).headers
            && hs[n] == (HEADER_SEQ, Decimal(c.nextSeq)) && hs[n + 1] == (HEADER_PREV_HASH, Hex(c.head))
  {
  }

  lemma EventHeaders(e: AuditEvent)
    ensures var hs := FromEvent(e).headers;
            && hs != [] && hs[0] == (HEADER_EVENT_CLASS, ClassHeader(EventClassOf(e)))
            && forall i :: 0 <= i < |hs| ==> hs[i].0 != HEADER_SEQ && hs[i].0 != HEADER_PREV_HASH
  {
    HeaderNamesDiffer();
  }

  /** Headers that end in a position, which no earlier header names. */
  lemma PositionReadsBack(hs: Headers, n: nat, c: Chain)
    requires |hs| == n + 2 && c.nextSeq < U64_LIMIT
    requires hs[n] == (HEADER_SEQ, Decimal(c.nextSeq)) && hs[n + 1] == (HEADER_PREV_HASH, Hex(c.head))
    requires forall i :: 0 <= i < n ==> hs[i].0 != HEADER_SEQ && hs[i].0 != HEADER_PREV_HASH
    ensures FirstHeader(hs, HEADER_SEQ) == LastHeader(hs, HEADER_SEQ) == Some(Decimal(c.nextSeq))
    ensures FirstHeader(hs, HEADER_PREV_HASH) == LastHeader(hs, HEADER_PREV_HASH) == Some(Hex(c.head))
  {
    HeaderNamesDiffer();
    assert hs[..n + 1][n] == hs[n];
    SkipHeaders(hs, n, HEADER_SEQ);
    SkipHeaders(hs, n, HEADER_PREV_HASH);
    assert hs[n..][1..] == hs[n + 1..];
  }

  /** Whichever occurrence a reader takes, a stamped record yields exactly the position it was
      stamped with, through decimal and hex text. */
  lemma StampReadsBack(e: AuditEvent, c: Chain)
    requires c.nextSeq < U64_LIMIT
    ensures FirstHeader(Stamp(e, c).headers, HEADER_EVENT_CLASS) == Some(ClassHeader(EventClassOf(e)))
    ensures ParseSeq(FirstHeader(Stamp(e, c).headers, HEADER_SEQ)) == Some(c.nextSeq)
    ensures ParsePrev(FirstHeader(Stamp(e, c).headers, HEADER_PREV_HASH)) == Some(c.head)
    ensures ParseSeq(LastHeader(Stamp(e, c).headers, HEADER_SEQ)) == Some(c.nextSeq)
    ensures ParsePrev(LastHeader(Stamp(e, c).headers, HEADER_PREV_HASH)) == Some(c.head)
  {
    var hs, base := Stamp(e, c).headers, FromEvent(e).headers;
    StampLayout(e, c);
    EventHeaders(e);
    assert forall i :: 0 <= i < |base| ==> hs[i] == hs[..|base|][i];
    PositionReadsBack(hs, |base|, c);
    ParseU64Decimal(c.nextSeq);
    FromHex32Hex(c.head);
  }

  /** The headers a SIEM filters on read back as the event's class, principal and outcome; a
      lifecycle event has neither principal nor outcome. */
  lemma FiltersReadBack(e: AuditEvent, c: Chain)
    ensures FirstHeader(Stamp(e, c).headers, HEADER_EVENT_CLASS) == Some(ClassHeader(EventClassOf(e)))
    ensures FirstHeader(Stamp(e, c).headers, HEADER_PRINCIPAL) == if e.Lifecycle? then None else Some(e.principal)
    ensures FirstHeader(Stamp(e, c).headers, HEADER_STATUS) ==
            match e
            case Lifecycle(_) => None
            case AuthorizationDenied(_, _) => Some(Ascii("denied"))
            case AuthenticationEvent(_, _, success) => Some(if success then Ascii("success") else Ascii("failure"))
            case AdminOperation(_, _, success) => Some(if success then Ascii("success") else Ascii("failure"))
  {
    HeaderNamesDiffer();
    var hs := Stamp(e, c).headers;
    SkipHeaders(hs, 1, HEADER_PRINCIPAL);
    SkipHeaders(hs, if e.Lifecycle? then 1 else 2, HEADER_STATUS);
    if e.Lifecycle? {
      SkipHeaders(hs, 3, HEADER_PRINCIPAL);
      SkipHeaders(hs, 3, HEADER_STATUS);
    }
  }

  lemma {:induction false} SkipHeaders(hs: Headers, n: nat, key: bytes)
    requires n <= |hs|
    requires forall i :: 0 <= i < n ==> hs[i].0 != key
    ensures FirstHeader(hs, key) == FirstHeader(hs[n..], key)
  {
    if n == 0 {
      assert hs[0..] == hs;
    } else {
      SkipHeaders(hs[1..], n - 1, key);
      assert hs[1..][n - 1..] == hs[n..];
    }
  }
}
