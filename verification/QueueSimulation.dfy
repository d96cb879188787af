/** The two SDK stores simulate each other. A script names its sessions by order of creation; each
    store is given its own spelling of them, and of the coordinates it acknowledges. */
module QueueSimulation {
  import opened QueueModel
  import opened QueueRuns
  import opened MessageIds
  import QueueRust
  import QueueGo

  datatype StoreReply<M, V> =
    | ReplyPublish(offset: Outcome<nat>)
    | ReplyAcquire(result: Outcome<Acquisition<M>>)
    | ReplyAcknowledge(verdicts: Outcome<seq<V>>)
    | ReplyRenew(verdicts: Outcome<seq<V>>)

  type RustReply = StoreReply<QueueRust.QueueMessage, EntryResult>
  type GoReply = StoreReply<QueueGo.QueueMessage, QueueGo.IdResult>

  // ---- Spelling sessions ----

  function TextOf(idOf: nat -> Text, s: SessionRef, foreign: Text): Text
  {
    match s
    case NewSession => []
    case Existing(n) => idOf(n)
    case Unknown => foreign
  }

  /** Session ids are distinct and non-empty, and `foreign` is none of them. */
  ghost predicate Spells(idOf: nat -> Text, foreign: Text)
  {
    Injective(idOf) && foreign != [] && forall n: nat :: idOf(n) != [] && idOf(n) != foreign
  }

  lemma NamedText(idOf: nat -> Text, n: nat, s: SessionRef, foreign: Text)
    requires Spells(idOf, foreign)
    ensures NamedSession(idOf, n, TextOf(idOf, s, foreign)) == if s.Existing? && s.number < n then s else Unknown
  {
    NamedSessionMeans(idOf, n, TextOf(idOf, s, foreign));
  }

  /** Asking for a session by its spelling is asking for it. */
  lemma AcquireByText(idOf: nat -> Text, q: Queue, s: SessionRef, foreign: Text, topic: Text, group: Text, max: nat)
    requires Spells(idOf, foreign)
    ensures Acquire(q, RefOf(idOf, |q.sessions|, TextOf(idOf, s, foreign)), topic, group, max) == Acquire(q, s, topic, group, max)
  {
    NamedText(idOf, |q.sessions|, s, foreign);
  }

  lemma RustSpells(foreign: Text)
    requires foreign != [] && forall n: nat :: QueueRust.SessionId(n) != foreign
    ensures Spells(QueueRust.SessionId, foreign)
  {
    QueueRust.SessionIdsDiffer();
  }

  lemma GoSpells(foreign: Text)
    requires foreign != [] && forall n: nat :: QueueGo.SessionId(n) != foreign
    ensures Spells(QueueGo.SessionId, foreign)
  {
    QueueGo.SessionIdsDiffer();
  }

  // ---- One operation on each store ----

  function RustView(r: Reply): RustReply
  {
    match r
    case Published(offset) => ReplyPublish(offset)
    case Delivered(result) => ReplyAcquire(Spelled(QueueRust.SessionId, QueueRust.Show, result))
    case Acknowledged(results) => ReplyAcknowledge(results)
    case Renewed(results) => ReplyRenew(results)
  }

  method RustPerform(store: QueueRust.Store, op: Op, foreign: Text) returns (r: RustReply)
    requires store.Valid() && Spells(QueueRust.SessionId, foreign)
    modifies store
    ensures store.Valid() && store.queue == Apply(old(store.queue), op).0 && r == RustView(Apply(old(store.queue), op).1)
  {
    ghost var q := store.queue;
    match op
    case OpPublish(topic, payload) =>
      var offset := store.Publish(topic, payload);
      return ReplyPublish(offset);
    case OpAcquire(s, topic, group, max) =>
      AcquireByText(QueueRust.SessionId, q, s, foreign, topic, group, max);
      var result := store.Acquire(topic, group, max, TextOf(QueueRust.SessionId, s, foreign));
      return ReplyAcquire(result);
    case OpAcknowledge(s, entries) =>
      NamedText(QueueRust.SessionId, |q.sessions|, s, foreign);
      var results := store.Acknowledge(TextOf(QueueRust.SessionId, s, foreign), entries);
      return ReplyAcknowledge(results);
    case OpRenew(s, ats) =>
      NamedText(QueueRust.SessionId, |q.sessions|, s, foreign);
      var results := store.Renew(TextOf(QueueRust.SessionId, s, foreign), ats);
      return ReplyRenew(results);
  }

  function Printed(ats: seq<Coordinate>): (ids: seq<Text>)
    ensures |ids| == |ats| && forall i :: 0 <= i < |ids| ==> ids[i] == MessageId(ats[i])
  {
    seq(|ats|, i requires 0 <= i < |ats| => MessageId(ats[i]))
  }

  function PrintedEntries(es: seq<AckEntry>): (entries: seq<QueueGo.AckById>)
    ensures |entries| == |es| && forall i :: 0 <= i < |es| ==> entries[i] == QueueGo.AckById(MessageId(es[i].at), es[i].ack)
  {
    seq(|es|, i requires 0 <= i < |es| => QueueGo.AckById(MessageId(es[i].at), es[i].ack))
  }

  function Spots(es: seq<AckEntry>): (ats: seq<Coordinate>)
    ensures |ats| == |es| && forall i :: 0 <= i < |es| ==> ats[i] == es[i].at
  {
    seq(|es|, i requires 0 <= i < |es| => es[i].at)
  }

  lemma PrintedEntriesName(es: seq<AckEntry>)
    ensures QueueGo.Coordinates(PrintedEntries(es)) == es
    ensures QueueGo.IdsOf(PrintedEntries(es)) == Printed(Spots(es))
  {
    forall i | 0 <= i < |es| ensures QueueGo.Coordinates(PrintedEntries(es))[i] == es[i] {
      NamedMessageId(es[i].at);
    }
  }

  lemma PrintedName(ats: seq<Coordinate>)
    ensures QueueGo.NamedAll(Printed(ats)) == ats
  {
    forall i | 0 <= i < |ats| ensures QueueGo.NamedAll(Printed(ats))[i] == ats[i] {
      NamedMessageId(ats[i]);
    }
  }

  ghost predicate GoViews(op: Op, r: Reply, g: GoReply)
  {
    match r
    case Published(offset) => g == ReplyPublish(offset)
    case Delivered(result) => g == ReplyAcquire(Spelled(QueueGo.SessionId, QueueGo.Show, result))
    case Acknowledged(results) =>
      op.OpAcknowledge? && g.ReplyAcknowledge? && QueueGo.Verdicts(Printed(Spots(op.entries)), g.verdicts, results)
    case Renewed(results) =>
      op.OpRenew? && g.ReplyRenew? && QueueGo.Verdicts(Printed(op.at), g.verdicts, results)
  }

  method GoPerform(store: QueueGo.Store, op: Op, foreign: Text) returns (g: GoReply)
    requires store.Valid() && Spells(QueueGo.SessionId, foreign)
    modifies store
    ensures store.Valid() && store.queue == Apply(old(store.queue), op).0 && GoViews(op, Apply(old(store.queue), op).1, g)
  {
    ghost var q := store.queue;
    match op
    case OpPublish(topic, payload) =>
      var offset := store.Publish(topic, payload);
      return ReplyPublish(offset);
    case OpAcquire(s, topic, group, max) =>
      AcquireByText(QueueGo.SessionId, q, s, foreign, topic, group, max);
      var result := store.Acquire(topic, group, max, TextOf(QueueGo.SessionId, s, foreign));
      return ReplyAcquire(result);
    case OpAcknowledge(s, entries) =>
      NamedText(QueueGo.SessionId, |q.sessions|, s, foreign);
      PrintedEntriesName(entries);
      var results := store.Acknowledge(TextOf(QueueGo.SessionId, s, foreign), PrintedEntries(entries));
      return ReplyAcknowledge(results);
    case OpRenew(s, ats) =>
      NamedText(QueueGo.SessionId, |q.sessions|, s, foreign);
      PrintedName(ats);
      var results := store.Renew(TextOf(QueueGo.SessionId, s, foreign), Printed(ats));
      return ReplyRenew(results);
  }

  // ---- What a client can compare ----

  /** The counters agree up to i32::MAX; beyond it the Rust counter stays there and the Go counter
      wraps, so they meet again only when it comes round. */
  lemma CountsAgreeIff(n: nat)
    ensures QueueRust.Saturate(n) == QueueGo.Wrap(n) <==>
            n <= QueueRust.I32_MAX || n % 0x1_0000_0000 == QueueRust.I32_MAX
  {
  }

  ghost predicate SameMessage(r: QueueRust.QueueMessage, g: QueueGo.QueueMessage)
  {
    && r.at == g.at && r.payload == g.payload && g.id == MessageId(g.at)
    && (r.count < QueueRust.I32_MAX ==> g.count == r.count)
  }

  ghost predicate SameVerdicts(r: Outcome<seq<EntryResult>>, g: Outcome<seq<QueueGo.IdResult>>)
  {
    match r
    case Failed(e) => g == Failed(e)
    case Done(rs) =>
      && g.Done? && |g.value| == |rs|
      && forall i :: 0 <= i < |rs| ==> g.value[i].ok == rs[i].ok && g.value[i].id == MessageId(rs[i].at)
  }

  /** The same answer, up to the spelling of session and message ids. */
  ghost predicate SameReply(r: RustReply, g: GoReply)
  {
    match r
    case ReplyPublish(offset) => g == ReplyPublish(offset)
    case ReplyAcquire(Failed(e)) => g == ReplyAcquire(Failed(e))
    case ReplyAcquire(Done(a)) =>
      && g.ReplyAcquire? && g.result.Done? && |g.result.value.messages| == |a.messages|
      && (exists n :: a.session == QueueRust.SessionId(n) && g.result.value.session == QueueGo.SessionId(n))
      && forall i :: 0 <= i < |a.messages| ==> SameMessage(a.messages[i], g.result.value.messages[i])
    case ReplyAcknowledge(verdicts) => g.ReplyAcknowledge? && SameVerdicts(verdicts, g.verdicts)
    case ReplyRenew(verdicts) => g.ReplyRenew? && SameVerdicts(verdicts, g.verdicts)
  }

  lemma {:induction false} ShownAt<M>(show: Delivery -> M, ds: seq<Delivery>, i: nat)
    requires i < |ds|
    ensures Shown(show, ds)[i] == show(ds[i])
  {
    if i < |ds| - 1 {
      ShownAt(show, ds[..|ds| - 1], i);
    }
  }

  lemma {:induction false} AcquisitionsAgree(a: AcquireResult)
    ensures SameReply(ReplyAcquire(Spelled(QueueRust.SessionId, QueueRust.Show, Done(a))),
                      ReplyAcquire(Spelled(QueueGo.SessionId, QueueGo.Show, Done(a))))
  {
    var rs, gs := Shown(QueueRust.Show, a.deliveries), Shown(QueueGo.Show, a.deliveries);
    forall i | 0 <= i < |rs| ensures SameMessage(rs[i], gs[i]) {
      ShownAt(QueueRust.Show, a.deliveries, i);
      ShownAt(QueueGo.Show, a.deliveries, i);
    }
  }

  lemma AckAts(q: Queue, session: nat, es: seq<AckEntry>)
    requires session < |q.sessions|
    ensures |AckAll(q, session, es).1| == |es|
    ensures forall i :: 0 <= i < |es| ==> AckAll(q, session, es).1[i].at == es[i].at
  {
    AckLength(q, session, es);
    forall i | 0 <= i < |es| ensures AckAll(q, session, es).1[i].at == es[i].at {
      AckVerdict(q, session, es, i);
    }
  }

  /** Two stores answering one operation from one abstract state answer alike. */
  lemma ViewsAgree(q: Queue, op: Op, g: GoReply)
    requires GoViews(op, Apply(q, op).1, g)
    ensures SameReply(RustView(Apply(q, op).1), g)
  {
    match op
    case OpPublish(_, _) =>
    case OpAcquire(s, topic, group, max) =>
      var result := Acquire(q, s, topic, group, max).1;
      if result.Done? {
        AcquisitionsAgree(result.value);
      }
    case OpAcknowledge(s, es) =>
      if s.Existing? && s.number < |q.sessions| {
        AckAts(q, s.number, es);
      }
    case OpRenew(s, ats) =>
  }

  method BothPerform(rustStore: QueueRust.Store, goStore: QueueGo.Store, op: Op, foreign: Text)
    returns (r: RustReply, g: GoReply)
    requires rustStore.Valid() && goStore.Valid() && rustStore.queue == goStore.queue
    requires Spells(QueueRust.SessionId, foreign) && Spells(QueueGo.SessionId, foreign)
    modifies rustStore, goStore
    ensures rustStore.Valid() && goStore.Valid() && rustStore.queue == goStore.queue == Apply(old(rustStore.queue), op).0
    ensures Answers(op, Apply(old(rustStore.queue), op).1, r, g)
  {
    ghost var q := rustStore.queue;
    r := RustPerform(rustStore, op, foreign);
    g := GoPerform(goStore, op, foreign);
    ViewsAgree(q, op, g);
  }

  /** Both stores answer an operation as the abstract queue does, and alike. */
  ghost predicate Answers(op: Op, reply: Reply, r: RustReply, g: GoReply)
  {
    r == RustView(reply) && GoViews(op, reply, g) && SameReply(r, g)
  }

  ghost predicate AllAnswer(ops: seq<Op>, replies: seq<Reply>, rust: seq<RustReply>, go: seq<GoReply>)
  {
    && |ops| == |replies| == |rust| == |go|
    && forall i :: 0 <= i < |ops| ==> Answers(ops[i], replies[i], rust[i], go[i])
  }

  lemma OneMoreAnswers(ops: seq<Op>, replies: seq<Reply>, rust: seq<RustReply>, go: seq<GoReply>,
                       op: Op, reply: Reply, r: RustReply, g: GoReply)
    requires AllAnswer(ops, replies, rust, go) && Answers(op, reply, r, g)
    ensures AllAnswer(ops + [op], replies + [reply], rust + [r], go + [g])
  {
  }

  lemma RunOneMore(ops: seq<Op>, i: nat)
    requires i < |ops|
    ensures ops[..i + 1] == ops[..i] + [ops[i]]
    ensures var (q, replies) := RunAll(EMPTY, ops[..i]);
            RunAll(EMPTY, ops[..i + 1]) == (Apply(q, ops[i]).0, replies + [Apply(q, ops[i]).1])
  {
    assert ops[..i + 1][..i] == ops[..i];
  }

  /** Over every script, the two stores started empty give the same answers, and each answers as the
      abstract queue does. */
  method RunBoth(ops: seq<Op>, foreign: Text) returns (rust: seq<RustReply>, go: seq<GoReply>)
    requires foreign != [] && forall n: nat :: QueueRust.SessionId(n) != foreign && QueueGo.SessionId(n) != foreign
    ensures AllAnswer(ops, RunAll(EMPTY, ops).1, rust, go)
  {
    RustSpells(foreign);
    GoSpells(foreign);
    var rustStore := new QueueRust.Store();
    var goStore := new QueueGo.Store();
    rust, go := [], [];
    for i := 0 to |ops|
      invariant rustStore.Valid() && goStore.Valid() && fresh(rustStore) && fresh(goStore)
      invariant rustStore.queue == goStore.queue == RunAll(EMPTY, ops[..i]).0
      invariant AllAnswer(ops[..i], RunAll(EMPTY, ops[..i]).1, rust, go)
    {
      ghost var q := rustStore.queue;
      RunOneMore(ops, i);
      var r, g := BothPerform(rustStore, goStore, ops[i], foreign);
      OneMoreAnswers(ops[..i], RunAll(EMPTY, ops[..i]).1, rust, go, ops[i], Apply(q, ops[i]).1, r, g);
      rust, go := rust + [r], go + [g];
    }
    assert ops[..|ops|] == ops;
  }
}
