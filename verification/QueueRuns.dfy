/** Ownership and delivery over every run of the queue. */
module QueueRuns {
  import opened Bytes
  import opened QueueModel

  // ---- What acquire selects ----

  /** Acquire takes exactly the first available messages of the topic in publish order, as many as
      there are up to the requested maximum clamped to 1..500, and none twice. */
  lemma AcquireTakesFirst(q: Queue, topic: Text, group: Text, max: nat)
    ensures var avail, idx := AvailableIndices(q, topic, group), Selected(q, topic, group, max);
            && |idx| == (if |avail| < Clamp(max) then |avail| else Clamp(max))
            && 1 <= Clamp(max) <= 500 && (1 <= max <= 500 ==> Clamp(max) == max) && (max > 500 ==> Clamp(max) == 500)
            && (forall i :: 0 <= i < |idx| ==> idx[i] < |q.messages| && IsAvailable(q, topic, group, q.messages[idx[i]]))
            && (forall i, j :: 0 <= i < j < |idx| ==> idx[i] < idx[j])
            && (forall k :: 0 <= k < |q.messages| && IsAvailable(q, topic, group, q.messages[k]) && k !in idx ==>
                  |idx| == Clamp(max) && forall i :: 0 <= i < |idx| ==> idx[i] < k)
  {
    SelectedInRange(q, topic, group, |q.messages|);
    var avail, idx := AvailableIndices(q, topic, group), Selected(q, topic, group, max);
    forall i | 0 <= i < |idx| ensures idx[i] == avail[i] && IsAvailable(q, topic, group, q.messages[idx[i]]) {
      assert avail[i] in avail;
    }
    forall k | 0 <= k < |q.messages| && IsAvailable(q, topic, group, q.messages[k]) && k !in idx
      ensures |idx| == Clamp(max) && forall i :: 0 <= i < |idx| ==> idx[i] < k
    {
      var p :| 0 <= p < |avail| && avail[p] == k;
      assert p >= |idx|;
    }
  }

  ghost predicate DistinctKeys(group: Text, ms: seq<Message>)
  {
    forall i, j :: 0 <= i < j < |ms| ==> KeyOf(group, ms[i]) != KeyOf(group, ms[j])
  }

  lemma SelectedAreDistinct(q: Queue, topic: Text, group: Text, max: nat)
    requires Dense(q.messages)
    ensures var ms := SelectedMessages(q, topic, group, max);
            && DistinctKeys(group, ms)
            && (forall i :: 0 <= i < |ms| ==> IsAvailable(q, topic, group, ms[i]))
  {
    AcquireTakesFirst(q, topic, group, max);
    SelectedInRange(q, topic, group, |q.messages|);
    var idx, ms := Selected(q, topic, group, max), SelectedMessages(q, topic, group, max);
    forall i, j | 0 <= i < j < |ms| ensures KeyOf(group, ms[i]) != KeyOf(group, ms[j]) {
      OffsetsAreUnique(q.messages, idx[i], idx[j]);
    }
  }

  // ---- What each operation does to one cell ----

  predicate IsAmong(group: Text, ms: seq<Message>, k: Key)
  {
    exists i :: 0 <= i < |ms| && KeyOf(group, ms[i]) == k
  }

  lemma IsAmongSnoc(group: Text, ms: seq<Message>, m: Message, k: Key)
    ensures IsAmong(group, ms + [m], k) <==> IsAmong(group, ms, k) || KeyOf(group, m) == k
  {
    if IsAmong(group, ms, k) {
      var i :| 0 <= i < |ms| && KeyOf(group, ms[i]) == k;
      assert (ms + [m])[i] == ms[i];
    }
    assert (ms + [m])[|ms|] == m;
  }

  lemma {:induction false} DeliverAllCell(q: Queue, group: Text, session: nat, ms: seq<Message>, k: Key)
    requires DistinctKeys(group, ms)
    ensures CellOf(DeliverAll(q, group, session, ms), k) ==
            if IsAmong(group, ms, k) then Cell(Acquired(session), CellOf(q, k).deliveries + 1) else CellOf(q, k)
    ensures DeliverAll(q, group, session, ms).messages == q.messages
    ensures DeliverAll(q, group, session, ms).sessions == q.sessions
  {
    if ms != [] {
      var n := |ms| - 1;
      DeliverAllCell(q, group, session, ms[..n], k);
      assert ms == ms[..n] + [ms[n]];
      IsAmongSnoc(group, ms[..n], ms[n], k);
    }
  }

  /** One more delivery of a selection finds its cell untouched. */
  lemma DeliverNext(q: Queue, group: Text, session: nat, ms: seq<Message>, j: nat)
    requires DistinctKeys(group, ms) && j < |ms|
    ensures var now := DeliverAll(q, group, session, ms[..j]);
            && DeliverAll(q, group, session, ms[..j + 1]) == Deliver(now, group, session, ms[j])
            && Deliveries(q, group, ms)[j] == Delivery(ms[j], CellOf(now, KeyOf(group, ms[j])).deliveries + 1)
  {
    var done := ms[..j];
    assert ms[..j + 1][..j] == done;
    assert !IsAmong(group, done, KeyOf(group, ms[j]));
    DeliverAllCell(q, group, session, done, KeyOf(group, ms[j]));
    DeliveryAt(q, group, ms, j);
  }

  function Spot(k: Key): Coordinate { Coordinate(k.topic, 0, k.offset) }

  /** The first acknowledgement for a coordinate in a batch. */
  function FirstAck(es: seq<AckEntry>, at: Coordinate): Option<AckType>
  {
    if es == [] then None
    else
      var before, e := FirstAck(es[..|es| - 1], at), es[|es| - 1];
      if before.Some? then before else if e.at == at then Some(e.ack) else None
  }

  /** A batch settles a cell exactly when its session owns the cell and an entry names it, by the
      first such entry. */
  lemma {:induction false} AckAllCell(q: Queue, session: nat, es: seq<AckEntry>, k: Key)
    requires session < |q.sessions|
    ensures var cell, first := CellOf(q, k), FirstAck(es, Spot(k));
            CellOf(AckAll(q, session, es).0, k) ==
            if k.group == q.sessions[session].group && cell.disposition == Acquired(session) && first.Some?
            then cell.(disposition := Settled(first.value)) else cell
  {
    if es != [] {
      AckAllCell(q, session, es[..|es| - 1], k);
    }
  }

  /** The verdict on an entry: its session owned the message and no earlier entry settled it. */
  lemma {:induction false} AckVerdict(q: Queue, session: nat, es: seq<AckEntry>, i: nat)
    requires session < |q.sessions| && i < |es|
    ensures |AckAll(q, session, es).1| == |es|
    ensures AckAll(q, session, es).1[i] ==
            EntryResult(es[i].at, Owns(q, session, es[i].at) && FirstAck(es[..i], es[i].at).None?)
  {
    var n := |es| - 1;
    if i < n {
      AckVerdict(q, session, es[..n], i);
      assert es[..n][..i] == es[..i];
    } else {
      AckLength(q, session, es[..n]);
      var at := es[i].at;
      if at.partition == 0 && at.offset >= 0 {
        AckAllCell(q, session, es[..n], Key(q.sessions[session].group, at.topic, at.offset));
      }
    }
  }

  /** The entry at `j` is judged in the state its predecessors leave. */
  lemma {:induction false} AckNext(q: Queue, session: nat, es: seq<AckEntry>, j: nat)
    requires session < |q.sessions| && j < |es|
    ensures |AckAll(q, session, es).1| == |es|
    ensures AckAll(q, session, es[..j + 1]).0 == AckOne(AckAll(q, session, es[..j]).0, session, es[j])
    ensures AckAll(q, session, es).1[j] == EntryResult(es[j].at, Owns(AckAll(q, session, es[..j]).0, session, es[j].at))
  {
    var n := |es| - 1;
    AckLength(q, session, es[..n]);
    if j < n {
      AckNext(q, session, es[..n], j);
      assert es[..n][..j] == es[..j] && es[..n][..j + 1] == es[..j + 1];
    } else {
      assert es[..j + 1] == es;
    }
  }

  lemma {:induction false} AckLength(q: Queue, session: nat, es: seq<AckEntry>)
    requires session < |q.sessions|
    ensures |AckAll(q, session, es).1| == |es|
  {
    if es != [] {
      AckLength(q, session, es[..|es| - 1]);
    }
  }

  // ---- Every step moves a cell lawfully ----

  predicate IsDelivered(q: Queue, op: Op, k: Key)
  {
    && op.OpAcquire? && ResolveSession(q, op.session, op.topic, op.group, op.max).Done?
    && op.group == k.group && IsAmong(op.group, SelectedMessages(q, op.topic, op.group, op.max), k)
  }

  /** The owning session acknowledges the message at `k`. */
  predicate IsSettled(q: Queue, op: Op, k: Key)
  {
    && op.OpAcknowledge? && op.session.Existing? && op.session.number < |q.sessions|
    && q.sessions[op.session.number].group == k.group
    && CellOf(q, k).disposition == Acquired(op.session.number) && FirstAck(op.entries, Spot(k)).Some?
  }

  lemma SelectedKeyIsAvailable(q: Queue, topic: Text, group: Text, max: nat, k: Key)
    requires Dense(q.messages) && IsAmong(group, SelectedMessages(q, topic, group, max), k)
    ensures k.group == group && k.topic == topic && CellOf(q, k).disposition == Available
  {
    SelectedAreDistinct(q, topic, group, max);
    var ms := SelectedMessages(q, topic, group, max);
    var i :| 0 <= i < |ms| && KeyOf(group, ms[i]) == k;
    assert IsAvailable(q, topic, group, ms[i]);
  }

  lemma AcquireMovesCell(q: Queue, s: SessionRef, topic: Text, group: Text, max: nat, k: Key)
    requires Dense(q.messages) && ResolveSession(q, s, topic, group, max).Done?
    ensures CellOf(Acquire(q, s, topic, group, max).0, k) ==
            if IsAmong(group, SelectedMessages(q, topic, group, max), k)
            then Cell(Acquired(Acquire(q, s, topic, group, max).1.value.session), CellOf(q, k).deliveries + 1)
            else CellOf(q, k)
  {
    SelectedAreDistinct(q, topic, group, max);
    var i := ResolveSession(q, s, topic, group, max).value;
    var ready := Ready(q, s, topic, group, max);
    DeliverAllCell(ready, group, i, SelectedMessages(q, topic, group, max), k);
  }

  /** A cell changes in two ways only. An available message is delivered to a session, which then
      owns it and raises the count by one; an owned message is settled by its owner, count
      unchanged. Accepted and rejected are final, and other groups' operations change nothing. */
  lemma StepMovesCell(q: Queue, op: Op, k: Key)
    requires Dense(q.messages)
    ensures var cell, cell' := CellOf(q, k), CellOf(Apply(q, op).0, k);
            && (IsDelivered(q, op, k) ==>
                  && cell.disposition == Available && Apply(q, op).1.result.Done?
                  && cell' == Cell(Acquired(Apply(q, op).1.result.value.session), cell.deliveries + 1))
            && (IsSettled(q, op, k) ==>
                  cell' == cell.(disposition := Settled(FirstAck(op.entries, Spot(k)).value)))
            && (!IsDelivered(q, op, k) && !IsSettled(q, op, k) ==> cell' == cell)
  {
    match op
    case OpAcquire(s, topic, group, max) =>
      if ResolveSession(q, s, topic, group, max).Done? {
        AcquireMovesCell(q, s, topic, group, max, k);
        if IsAmong(group, SelectedMessages(q, topic, group, max), k) {
          SelectedKeyIsAvailable(q, topic, group, max, k);
        }
      }
    case OpAcknowledge(s, es) =>
      if s.Existing? && s.number < |q.sessions| {
        AckAllCell(q, s.number, es, k);
      }
    case _ =>
  }

  // ---- Ownership over runs ----

  /** Offsets are dense, and an acquired message belongs to one existing session, of the same group
      and topic. */
  ghost predicate Owned(q: Queue)
  {
    && Dense(q.messages)
    && forall k {:trigger CellOf(q, k)} :: CellOf(q, k).disposition.Acquired? ==>
         var s := CellOf(q, k).disposition.session;
         s < |q.sessions| && q.sessions[s].group == k.group && q.sessions[s].topic == k.topic
  }

  lemma StepFrame(q: Queue, op: Op)
    ensures var q' := Apply(q, op).0;
            && |q.sessions| <= |q'.sessions| && q'.sessions[..|q.sessions|] == q.sessions
            && (op.OpPublish? || q'.messages == q.messages)
  {
    match op
    case OpAcquire(s, topic, group, max) =>
      if ResolveSession(q, s, topic, group, max).Done? {
        var ready := Ready(q, s, topic, group, max);
        DeliverFrame(ready, group, ResolveSession(q, s, topic, group, max).value, SelectedMessages(q, topic, group, max));
      }
    case _ =>
  }

  lemma {:induction false} DeliverFrame(q: Queue, group: Text, session: nat, ms: seq<Message>)
    ensures DeliverAll(q, group, session, ms).messages == q.messages
    ensures DeliverAll(q, group, session, ms).sessions == q.sessions
  {
    if ms != [] {
      DeliverFrame(q, group, session, ms[..|ms| - 1]);
    }
  }

  lemma DeliveredIsOwned(q: Queue, op: Op, k: Key)
    requires Dense(q.messages) && IsDelivered(q, op, k)
    ensures var q', s := Apply(q, op).0, Apply(q, op).1.result.value.session;
            s < |q'.sessions| && q'.sessions[s].group == k.group && q'.sessions[s].topic == k.topic
  {
    StepFrame(q, op);
    SelectedAreDistinct(q, op.topic, op.group, op.max);
    var ms := SelectedMessages(q, op.topic, op.group, op.max);
    var i :| 0 <= i < |ms| && KeyOf(op.group, ms[i]) == k;
    if op.session == NewSession {
      var ready := q.(sessions := q.sessions + [Session(op.topic, op.group, Clamp(op.max))]);
      DeliverFrame(ready, op.group, |q.sessions|, ms);
    }
  }

  lemma ReadyIsOwned(q: Queue, s: SessionRef, topic: Text, group: Text, max: nat)
    requires Owned(q)
    ensures Owned(Ready(q, s, topic, group, max))
  {
    var ready := Ready(q, s, topic, group, max);
    forall k {:trigger CellOf(ready, k)} | CellOf(ready, k).disposition.Acquired?
      ensures var i := CellOf(ready, k).disposition.session;
              i < |ready.sessions| && ready.sessions[i].group == k.group && ready.sessions[i].topic == k.topic
    {
      assert CellOf(ready, k) == CellOf(q, k);
    }
  }

  lemma StepKeepsOwned(q: Queue, op: Op)
    requires Owned(q)
    ensures Owned(Apply(q, op).0)
  {
    var q' := Apply(q, op).0;
    StepFrame(q, op);
    if op.OpPublish? {
      PublishKeepsDense(q, op.topic, op.payload);
    }
    forall k {:trigger CellOf(q', k)} | CellOf(q', k).disposition.Acquired?
      ensures var s := CellOf(q', k).disposition.session;
              s < |q'.sessions| && q'.sessions[s].group == k.group && q'.sessions[s].topic == k.topic
    {
      StepMovesCell(q, op, k);
      if IsDelivered(q, op, k) {
        DeliveredIsOwned(q, op, k);
      } else if !IsSettled(q, op, k) {
        var s := CellOf(q, k).disposition.session;
        assert q'.sessions[..|q.sessions|][s] == q.sessions[s];
      }
    }
  }

  /** An acquire that resolves its session delivers from the queue with that session in place. */
  lemma AcquireInSteps(q: Queue, s: SessionRef, topic: Text, group: Text, max: nat)
    requires Owned(q) && ResolveSession(q, s, topic, group, max).Done?
    ensures var ready, n := Ready(q, s, topic, group, max), ResolveSession(q, s, topic, group, max).value;
            var ms := SelectedMessages(ready, topic, group, max);
            var after := DeliverAll(ready, group, n, ms);
            && Owned(ready) && Owned(after) && after.messages == ready.messages && after.sessions == ready.sessions
            && Acquire(q, s, topic, group, max) == (after, Done(AcquireResult(n, Deliveries(ready, group, ms))))
  {
    AcquireFromReady(q, s, topic, group, max);
    StepKeepsOwned(q, OpAcquire(s, topic, group, max));
    ReadyIsOwned(q, s, topic, group, max);
    var ready := Ready(q, s, topic, group, max);
    DeliverFrame(ready, group, ResolveSession(q, s, topic, group, max).value, SelectedMessages(ready, topic, group, max));
  }

  /** In every state a run reaches, each message has at most one owner per group, and the owner
      belongs to that group and topic. */
  lemma {:induction false} RunKeepsOwned(ops: seq<Op>)
    ensures Owned(RunAll(EMPTY, ops).0)
  {
    if ops != [] {
      var n := |ops| - 1;
      RunKeepsOwned(ops[..n]);
      StepKeepsOwned(RunAll(EMPTY, ops[..n]).0, ops[n]);
    }
  }

  // ---- Delivery counts ----

  /** How often `k` appears in the deliveries of one reply to an operation of its group. */
  function TimesIn(group: Text, ds: seq<Delivery>, k: Key): nat
  {
    if ds == [] then 0
    else TimesIn(group, ds[..|ds| - 1], k) + (if KeyOf(group, ds[|ds| - 1].message) == k then 1 else 0)
  }

  function TimesDelivered(op: Op, reply: Reply, k: Key): nat
  {
    if op.OpAcquire? && reply.Delivered? && reply.result.Done? then TimesIn(op.group, reply.result.value.deliveries, k)
    else 0
  }

  function TotalDelivered(ops: seq<Op>, replies: seq<Reply>, k: Key): nat
    requires |ops| == |replies|
  {
    if ops == [] then 0
    else TotalDelivered(ops[..|ops| - 1], replies[..|ops| - 1], k) + TimesDelivered(ops[|ops| - 1], replies[|ops| - 1], k)
  }

  /** Each delivery reports the count its cell has after it. */
  lemma {:induction false} DeliveryAt(q: Queue, group: Text, ms: seq<Message>, i: nat)
    requires i < |ms|
    ensures Deliveries(q, group, ms)[i] == Delivery(ms[i], CellOf(q, KeyOf(group, ms[i])).deliveries + 1)
  {
    if i < |ms| - 1 {
      DeliveryAt(q, group, ms[..|ms| - 1], i);
    }
  }

  lemma {:induction false} DeliveriesCount(q: Queue, group: Text, ms: seq<Message>, k: Key)
    requires DistinctKeys(group, ms)
    ensures TimesIn(group, Deliveries(q, group, ms), k) == if IsAmong(group, ms, k) then 1 else 0
  {
    if ms != [] {
      var n := |ms| - 1;
      DeliveriesCount(q, group, ms[..n], k);
      assert ms == ms[..n] + [ms[n]];
      IsAmongSnoc(group, ms[..n], ms[n], k);
      var ds := Deliveries(q, group, ms);
      assert ds[..n] == Deliveries(q, group, ms[..n]);
      DeliveryAt(q, group, ms, n);
      if IsAmong(group, ms[..n], k) {
        var i :| 0 <= i < n && KeyOf(group, ms[..n][i]) == k;
        assert KeyOf(group, ms[i]) != KeyOf(group, ms[n]);
      }
    }
  }

  lemma {:induction false} TimesInGroup(group: Text, ds: seq<Delivery>, k: Key)
    requires k.group != group
    ensures TimesIn(group, ds, k) == 0
  {
    if ds != [] {
      TimesInGroup(group, ds[..|ds| - 1], k);
    }
  }

  lemma StepCounts(q: Queue, op: Op, k: Key)
    requires Dense(q.messages)
    ensures CellOf(Apply(q, op).0, k).deliveries == CellOf(q, k).deliveries + TimesDelivered(op, Apply(q, op).1, k)
  {
    StepMovesCell(q, op, k);
    if op.OpAcquire? && ResolveSession(q, op.session, op.topic, op.group, op.max).Done? {
      var ms := SelectedMessages(q, op.topic, op.group, op.max);
      SelectedAreDistinct(q, op.topic, op.group, op.max);
      if op.group == k.group {
        DeliveriesCount(q, op.group, ms, k);
      } else {
        TimesInGroup(op.group, Deliveries(q, op.group, ms), k);
      }
    }
  }

  /** The delivery count of a message in a group is the number of times it was delivered to it. */
  lemma {:induction false} CountIsDeliveries(ops: seq<Op>, k: Key)
    ensures CellOf(RunAll(EMPTY, ops).0, k).deliveries == TotalDelivered(ops, RunAll(EMPTY, ops).1, k)
  {
    if ops != [] {
      var n := |ops| - 1;
      CountIsDeliveries(ops[..n], k);
      RunKeepsOwned(ops[..n]);
      StepCounts(RunAll(EMPTY, ops[..n]).0, ops[n], k);
      assert RunAll(EMPTY, ops).1[..n] == RunAll(EMPTY, ops[..n]).1;
    }
  }

  // ---- Finality over runs ----

  /** Once accepted or rejected in a group, a message never changes there again and is never
      delivered to it again, whatever operations follow. */
  lemma {:induction false} SettledIsFinal(q: Queue, ops: seq<Op>, k: Key)
    requires Owned(q) && (CellOf(q, k).disposition.Accepted? || CellOf(q, k).disposition.Rejected?)
    ensures Owned(RunAll(q, ops).0) && CellOf(RunAll(q, ops).0, k) == CellOf(q, k)
    ensures TotalDelivered(ops, RunAll(q, ops).1, k) == 0
  {
    if ops != [] {
      var n := |ops| - 1;
      SettledIsFinal(q, ops[..n], k);
      var before := RunAll(q, ops[..n]).0;
      StepKeepsOwned(before, ops[n]);
      StepMovesCell(before, ops[n], k);
      StepCounts(before, ops[n], k);
      assert RunAll(q, ops).1[..n] == RunAll(q, ops[..n]).1;
    }
  }

  /** While a session owns a message, it stays owned and is delivered to nobody in the group until
      that session acknowledges it. */
  lemma {:induction false} OwnedUntilSettled(q: Queue, ops: seq<Op>, k: Key)
    requires Owned(q) && CellOf(q, k).disposition.Acquired?
    requires forall i :: 0 <= i < |ops| ==>
      !(ops[i].OpAcknowledge? && ops[i].session == Existing(CellOf(q, k).disposition.session))
    ensures Owned(RunAll(q, ops).0) && CellOf(RunAll(q, ops).0, k) == CellOf(q, k)
    ensures TotalDelivered(ops, RunAll(q, ops).1, k) == 0
  {
    if ops != [] {
      var n := |ops| - 1;
      OwnedUntilSettled(q, ops[..n], k);
      var before := RunAll(q, ops[..n]).0;
      StepKeepsOwned(before, ops[n]);
      StepMovesCell(before, ops[n], k);
      StepCounts(before, ops[n], k);
      assert RunAll(q, ops).1[..n] == RunAll(q, ops[..n]).1;
    }
  }

  /** The session acknowledges the message at `k`, first with `a`. */
  predicate Acks(op: Op, session: nat, k: Key, a: AckType)
  {
    op.OpAcknowledge? && op.session == Existing(session) && FirstAck(op.entries, Spot(k)) == Some(a)
  }

  /** What becomes of an owned message, as long as nobody else gets it: it stays owned, or stands as
      its owner settled it. */
  lemma {:induction false} OwnerDecides(q: Queue, ops: seq<Op>, k: Key)
    requires Owned(q) && CellOf(q, k).disposition.Acquired?
    requires TotalDelivered(ops, RunAll(q, ops).1, k) == 0
    ensures Owned(RunAll(q, ops).0)
    ensures var d, d' := CellOf(q, k).disposition, CellOf(RunAll(q, ops).0, k).disposition;
            d' == d || exists i, a :: 0 <= i < |ops| && Acks(ops[i], d.session, k, a) && d' == Settled(a)
  {
    if ops != [] {
      var n := |ops| - 1;
      var init, before := ops[..n], RunAll(q, ops[..n]).0;
      assert RunAll(q, ops).1[..n] == RunAll(q, init).1;
      OwnerDecides(q, init, k);
      StepKeepsOwned(before, ops[n]);
      StepMovesCell(before, ops[n], k);
      StepCounts(before, ops[n], k);
      var d := CellOf(q, k).disposition;
      if IsSettled(before, ops[n], k) {
        var a := FirstAck(ops[n].entries, Spot(k)).value;
        assert Acks(ops[n], CellOf(before, k).disposition.session, k, a);
      } else if CellOf(before, k).disposition != d {
        var i, a :| 0 <= i < |init| && Acks(init[i], d.session, k, a) && CellOf(before, k).disposition == Settled(a);
        assert Acks(ops[i], d.session, k, a);
      }
    }
  }

  /** A message in some session's hands is delivered to its group again only after that session
      released it. */
  lemma {:induction false} RedeliveryNeedsRelease(q: Queue, ops: seq<Op>, k: Key)
    requires Owned(q) && CellOf(q, k).disposition.Acquired?
    requires TotalDelivered(ops, RunAll(q, ops).1, k) > 0
    ensures exists i :: 0 <= i < |ops| && Acks(ops[i], CellOf(q, k).disposition.session, k, Release)
  {
    var n := |ops| - 1;
    var init, before, s := ops[..n], RunAll(q, ops[..n]).0, CellOf(q, k).disposition.session;
    assert RunAll(q, ops).1[..n] == RunAll(q, init).1;
    if TotalDelivered(init, RunAll(q, init).1, k) > 0 {
      RedeliveryNeedsRelease(q, init, k);
      var i :| 0 <= i < |init| && Acks(init[i], s, k, Release);
      assert Acks(ops[i], s, k, Release);
    } else {
      OwnerDecides(q, init, k);
      StepMovesCell(before, ops[n], k);
      StepCounts(before, ops[n], k);
      var i, a :| 0 <= i < |init| && Acks(init[i], s, k, a) && CellOf(before, k).disposition == Settled(a);
      assert Acks(ops[i], s, k, Release);
    }
  }

  /** The owner's first acknowledgement of a message is answered ok and settles it: accepting and
      rejecting take it from the group, releasing makes it available again; its count is kept. */
  lemma OwnerSettles(q: Queue, s: nat, es: seq<AckEntry>, i: nat, offset: nat)
    requires s < |q.sessions| && i < |es| && es[i].at == Coordinate(es[i].at.topic, 0, offset)
    requires Owns(q, s, es[i].at) && FirstAck(es[..i], es[i].at).None?
    ensures var (q', r) := Acknowledge(q, Existing(s), es);
            var k := Key(q.sessions[s].group, es[i].at.topic, offset);
            && r.Done? && |r.value| == |es| && r.value[i] == EntryResult(es[i].at, true)
            && CellOf(q', k).deliveries == CellOf(q, k).deliveries
            && CellOf(q', k).disposition == match es[i].ack
                                            case Accept => Accepted
                                            case Release => Available
                                            case Reject => Rejected
  {
    AckVerdict(q, s, es, i);
    var k := Key(q.sessions[s].group, es[i].at.topic, offset);
    AckAllCell(q, s, es, k);
    FirstAckIs(es, i);
  }

  lemma {:induction false} FirstAckIs(es: seq<AckEntry>, i: nat)
    requires i < |es| && FirstAck(es[..i], es[i].at).None?
    ensures FirstAck(es, es[i].at) == Some(es[i].ack)
  {
    var n := |es| - 1;
    if i < n {
      assert es[..n][..i] == es[..i];
      FirstAckIs(es[..n], i);
    }
  }

  // ---- From publish to delivery ----

  predicate Publishes(op: Op) { op.OpPublish? && op.topic != [] && op.topic != MISSING_TOPIC }

  /** The publishes of a run that the queue takes, in order. */
  function Publications(ops: seq<Op>): seq<(Text, bytes)>
  {
    if ops == [] then []
    else
      var op := ops[|ops| - 1];
      Publications(ops[..|ops| - 1]) + (if Publishes(op) then [(op.topic, op.payload)] else [])
  }

  function PublishedTo(ops: seq<Op>, topic: Text): nat
  {
    if ops == [] then 0
    else
      var op := ops[|ops| - 1];
      PublishedTo(ops[..|ops| - 1], topic) + (if Publishes(op) && op.topic == topic then 1 else 0)
  }

  ghost predicate Holds(messages: seq<Message>, pubs: seq<(Text, bytes)>)
  {
    |messages| == |pubs| && forall i :: 0 <= i < |pubs| ==> (messages[i].topic, messages[i].payload) == pubs[i]
  }

  lemma StepPublishes(q: Queue, op: Op, topic: Text)
    ensures var q' := Apply(q, op).0;
            && (!Publishes(op) ==> q'.messages == q.messages)
            && (Publishes(op) ==>
                  q'.messages == q.messages + [Message(op.topic, CountTopic(q.messages, op.topic), op.payload)])
            && CountTopic(q'.messages, topic) ==
               CountTopic(q.messages, topic) + (if Publishes(op) && op.topic == topic then 1 else 0)
  {
    StepFrame(q, op);
    var messages := Apply(q, op).0.messages;
    if Publishes(op) {
      assert messages[..|messages| - 1] == q.messages;
    }
  }

  /** After any run the queue holds exactly the messages published to it, in order. */
  lemma {:induction false} RunPublishes(ops: seq<Op>, topic: Text)
    ensures Holds(RunAll(EMPTY, ops).0.messages, Publications(ops))
    ensures CountTopic(RunAll(EMPTY, ops).0.messages, topic) == PublishedTo(ops, topic)
  {
    if ops != [] {
      var n := |ops| - 1;
      RunPublishes(ops[..n], topic);
      StepPublishes(RunAll(EMPTY, ops[..n]).0, ops[n], topic);
    }
  }

  lemma LastReply(q: Queue, ops: seq<Op>)
    requires ops != []
    ensures var n := |ops| - 1;
            RunAll(q, ops).1 == RunAll(q, ops[..n]).1 + [Apply(RunAll(q, ops[..n]).0, ops[n]).1]
  {
  }

  /** Every reply is the answer to its operation in the state that the operations before it leave. */
  lemma {:induction false} ReplyAt(q: Queue, ops: seq<Op>, j: nat)
    requires j < |ops|
    ensures RunAll(q, ops).1[j] == Apply(RunAll(q, ops[..j]).0, ops[j]).1
  {
    var n := |ops| - 1;
    LastReply(q, ops);
    if j < n {
      ReplyAt(q, ops[..n], j);
      assert ops[..n][..j] == ops[..j] && ops[..n][j] == ops[j];
    }
  }

  /** A publish is refused exactly for the empty and the missing topic; otherwise it is answered with
      the number of messages published to its topic before it. */
  lemma PublishAnswers(ops: seq<Op>, j: nat)
    requires j < |ops| && ops[j].OpPublish?
    ensures RunAll(EMPTY, ops).1[j] ==
            Published(if ops[j].topic == [] then Failed(TopicRequired)
                      else if ops[j].topic == MISSING_TOPIC then Failed(TopicNotFound)
                      else Done(PublishedTo(ops[..j], ops[j].topic)))
  {
    ReplyAt(EMPTY, ops, j);
    RunPublishes(ops[..j], ops[j].topic);
  }

  lemma {:induction false} MessageWasPublished(ops: seq<Op>, i: nat) returns (p: nat)
    requires i < |RunAll(EMPTY, ops).0.messages|
    ensures var m := RunAll(EMPTY, ops).0.messages[i];
            p < |ops| && ops[p] == OpPublish(m.topic, m.payload) && RunAll(EMPTY, ops).1[p] == Published(Done(m.offset))
  {
    assert ops != [];
    var n := |ops| - 1;
    var before := RunAll(EMPTY, ops[..n]).0;
    StepPublishes(before, ops[n], []);
    if i < |before.messages| {
      p := MessageWasPublished(ops[..n], i);
    } else {
      p := n;
    }
  }

  /** Whatever a run delivers was published earlier in it: same topic and payload, with the offset
      that publish was answered. */
  lemma DeliveredWasPublished(ops: seq<Op>, j: nat, i: nat) returns (p: nat)
    requires j < |ops| && RunAll(EMPTY, ops).1[j].Delivered? && RunAll(EMPTY, ops).1[j].result.Done?
    requires i < |RunAll(EMPTY, ops).1[j].result.value.deliveries|
    ensures var m := RunAll(EMPTY, ops).1[j].result.value.deliveries[i].message;
            && p < j && ops[p] == OpPublish(m.topic, m.payload) && RunAll(EMPTY, ops).1[p] == Published(Done(m.offset))
            && ops[j].OpAcquire? && m.topic == ops[j].topic
  {
    ReplyAt(EMPTY, ops, j);
    var q, op := RunAll(EMPTY, ops[..j]).0, ops[j];
    AcquireTakesFirst(q, op.topic, op.group, op.max);
    SelectedAt(q, op.topic, op.group, op.max);
    DeliveryAt(q, op.group, SelectedMessages(q, op.topic, op.group, op.max), i);
    p := MessageWasPublished(ops[..j], Selected(q, op.topic, op.group, op.max)[i]);
    ReplyAt(EMPTY, ops, p);
    ReplyAt(EMPTY, ops[..j], p);
    assert ops[..j][..p] == ops[..p];
  }

  ghost predicate HandsOut(q: Queue, q': Queue, topic: Text, group: Text, max: nat, a: AcquireResult)
  {
    var idx := Selected(q, topic, group, max);
    && |a.deliveries| == |idx|
    && forall i :: 0 <= i < |idx| ==>
         && idx[i] < |q.messages| && a.deliveries[i].message == q.messages[idx[i]]
         && CellOf(q', KeyOf(group, q.messages[idx[i]])) == Cell(Acquired(a.session), a.deliveries[i].count)
  }

  lemma DeliveredOne(q: Queue, ready: Queue, group: Text, n: nat, ms: seq<Message>, i: nat)
    requires DistinctKeys(group, ms) && i < |ms| && ready.cells == q.cells
    ensures Deliveries(q, group, ms)[i].message == ms[i]
    ensures CellOf(DeliverAll(ready, group, n, ms), KeyOf(group, ms[i])) ==
            Cell(Acquired(n), Deliveries(q, group, ms)[i].count)
  {
    DeliveryAt(q, group, ms, i);
    DeliverAllCell(ready, group, n, ms, KeyOf(group, ms[i]));
  }

  lemma AcquireHandsOut(q: Queue, s: SessionRef, topic: Text, group: Text, max: nat)
    requires Dense(q.messages) && ResolveSession(q, s, topic, group, max).Done?
    ensures var (q', r) := Acquire(q, s, topic, group, max);
            r.Done? && q'.sessions == Ready(q, s, topic, group, max).sessions && HandsOut(q, q', topic, group, max, r.value)
  {
    var ms, ready := SelectedMessages(q, topic, group, max), Ready(q, s, topic, group, max);
    var n := ResolveSession(q, s, topic, group, max).value;
    DeliverFrame(ready, group, n, ms);
    SelectedAreDistinct(q, topic, group, max);
    SelectedAt(q, topic, group, max);
    forall i | 0 <= i < |ms|
      ensures Deliveries(q, group, ms)[i].message == ms[i]
      ensures CellOf(DeliverAll(ready, group, n, ms), KeyOf(group, ms[i])) ==
              Cell(Acquired(n), Deliveries(q, group, ms)[i].count)
    {
      DeliveredOne(q, ready, group, n, ms, i);
    }
  }

  /** When an acquire fails, and what one that succeeds hands out: the selected messages in publish
      order, each now owned by the session of the reply and shown with its count. */
  lemma AcquireAnswers(q: Queue, s: SessionRef, topic: Text, group: Text, max: nat)
    requires Dense(q.messages)
    ensures var (q', r) := Acquire(q, s, topic, group, max);
            var known := s.Existing? && s.number < |q.sessions|;
            var fixed := known && q.sessions[s.number].topic == topic && q.sessions[s.number].group == group;
            && (r == Failed(SessionExpired) <==> s != NewSession && !known)
            && (r == Failed(GroupAndTopicFixed) <==> known && !fixed)
            && (r == Failed(MaxFixed) <==> fixed && max != 0 && Clamp(max) != q.sessions[s.number].max)
            && (r.Failed? ==> q' == q)
            && (r.Done? ==>
                  && r.value.session == (if known then s.number else |q.sessions|)
                  && q'.sessions == (if known then q.sessions else q.sessions + [Session(topic, group, Clamp(max))])
                  && HandsOut(q, q', topic, group, max, r.value))
  {
    if ResolveSession(q, s, topic, group, max).Done? {
      AcquireHandsOut(q, s, topic, group, max);
    }
  }

  /** A session keeps its number, topic, group and maximum for the rest of the run. */
  lemma {:induction false} SessionsAreFixed(q: Queue, ops: seq<Op>)
    ensures q.sessions <= RunAll(q, ops).0.sessions
  {
    if ops != [] {
      var n := |ops| - 1;
      SessionsAreFixed(q, ops[..n]);
      StepFrame(RunAll(q, ops[..n]).0, ops[n]);
    }
  }
}
