/** The queue that both SDK mocks implement: one abstract store, and what holds of every run of
    it. Sessions are numbered in order of creation. */
module QueueModel {
  import opened Bytes

  type Text = bytes

  /** `payload` stands for the record value and headers. */
  datatype Message = Message(topic: Text, offset: nat, payload: bytes)

  datatype Session = Session(topic: Text, group: Text, max: nat)

  datatype Disposition = Available | Acquired(session: nat) | Accepted | Rejected

  /** A message's state within one group; `deliveries` counts without bound. */
  datatype Cell = Cell(disposition: Disposition, deliveries: nat)

  const UNSEEN: Cell := Cell(Available, 0)

  datatype Key = Key(group: Text, topic: Text, offset: nat)

  datatype Queue = Queue(messages: seq<Message>, sessions: seq<Session>, cells: map<Key, Cell>)

  const EMPTY: Queue := Queue([], [], map[])

  datatype QueueError = TopicRequired | TopicNotFound | SessionExpired | GroupAndTopicFixed | MaxFixed

  datatype Outcome<T> = Done(value: T) | Failed(error: QueueError)

  function CellOf(q: Queue, k: Key): Cell { if k in q.cells then q.cells[k] else UNSEEN }

  function KeyOf(group: Text, m: Message): Key { Key(group, m.topic, m.offset) }

  // ---- Publish ----

  function CountTopic(messages: seq<Message>, topic: Text): (n: nat)
    ensures n <= |messages|
  {
    if messages == [] then 0
    else CountTopic(messages[..|messages| - 1], topic) + (if messages[|messages| - 1].topic == topic then 1 else 0)
  }

  const MISSING_TOPIC: Text := Ascii("__missing_topic")

  function Publish(q: Queue, topic: Text, payload: bytes): (Queue, Outcome<nat>)
  {
    if topic == [] then (q, Failed(TopicRequired))
    else if topic == MISSING_TOPIC then (q, Failed(TopicNotFound))
    else
      var offset := CountTopic(q.messages, topic);
      (q.(messages := q.messages + [Message(topic, offset, payload)]), Done(offset))
  }

  /** Offsets are dense: each message carries the number of earlier messages of its topic. */
  ghost predicate Dense(messages: seq<Message>)
  {
    forall i :: 0 <= i < |messages| ==> messages[i].offset == CountTopic(messages[..i], messages[i].topic)
  }

  lemma {:induction false} CountTopicGrows(messages: seq<Message>, topic: Text, i: nat)
    requires i <= |messages|
    ensures CountTopic(messages[..i], topic) <= CountTopic(messages, topic)
    ensures i < |messages| && messages[i].topic == topic ==> CountTopic(messages[..i], topic) < CountTopic(messages, topic)
  {
    if i < |messages| {
      var n := |messages| - 1;
      if i < n {
        CountTopicGrows(messages[..n], topic, i);
        assert messages[..n][..i] == messages[..i];
      }
    } else {
      assert messages[..i] == messages;
    }
  }

  /** No two messages share topic and offset. */
  lemma OffsetsAreUnique(messages: seq<Message>, i: nat, j: nat)
    requires Dense(messages) && i < j < |messages| && messages[i].topic == messages[j].topic
    ensures messages[i].offset < messages[j].offset
  {
    CountTopicGrows(messages[..j], messages[i].topic, i);
    assert messages[..j][..i] == messages[..i];
  }

  lemma PublishKeepsDense(q: Queue, topic: Text, payload: bytes)
    requires Dense(q.messages)
    ensures Dense(Publish(q, topic, payload).0.messages)
  {
    var after := Publish(q, topic, payload).0.messages;
    forall i | 0 <= i < |after| ensures after[i].offset == CountTopic(after[..i], after[i].topic) {
      assert i < |q.messages| ==> after[..i] == q.messages[..i];
      assert i == |q.messages| ==> after[..i] == q.messages;
    }
  }

  // ---- Acquire ----

  predicate IsAvailable(q: Queue, topic: Text, group: Text, m: Message)
  {
    m.topic == topic && CellOf(q, KeyOf(group, m)).disposition == Available
  }

  /** The indices of the available messages among the first `n`, in publish order. */
  function AvailableUpTo(q: Queue, topic: Text, group: Text, n: nat): (idx: seq<nat>)
    requires n <= |q.messages|
    ensures |idx| <= n && forall i :: 0 <= i < |idx| ==> idx[i] < n
  {
    if n == 0 then []
    else AvailableUpTo(q, topic, group, n - 1) + (if IsAvailable(q, topic, group, q.messages[n - 1]) then [n - 1] else [])
  }

  function AvailableIndices(q: Queue, topic: Text, group: Text): seq<nat>
  {
    AvailableUpTo(q, topic, group, |q.messages|)
  }

  function Clamp(max: nat): nat { if max == 0 then 1 else if max > 500 then 500 else max }

  function Take<T>(s: seq<T>, k: nat): seq<T> { if |s| <= k then s else s[..k] }

  function Selected(q: Queue, topic: Text, group: Text, max: nat): seq<nat>
  {
    Take(AvailableIndices(q, topic, group), Clamp(max))
  }

  function Deliver(q: Queue, group: Text, session: nat, m: Message): Queue
  {
    var k := KeyOf(group, m);
    q.(cells := q.cells[k := Cell(Acquired(session), CellOf(q, k).deliveries + 1)])
  }

  function DeliverAll(q: Queue, group: Text, session: nat, ms: seq<Message>): Queue
  {
    if ms == [] then q
    else Deliver(DeliverAll(q, group, session, ms[..|ms| - 1]), group, session, ms[|ms| - 1])
  }

  datatype Delivery = Delivery(message: Message, count: nat)

  /** The deliveries of `ms`, each with its group's delivery count after this one. */
  function Deliveries(q: Queue, group: Text, ms: seq<Message>): (ds: seq<Delivery>)
    ensures |ds| == |ms|
  {
    if ms == [] then []
    else
      var m := ms[|ms| - 1];
      Deliveries(q, group, ms[..|ms| - 1]) + [Delivery(m, CellOf(q, KeyOf(group, m)).deliveries + 1)]
  }

  function At(q: Queue, idx: seq<nat>): (ms: seq<Message>)
    requires forall i :: 0 <= i < |idx| ==> idx[i] < |q.messages|
    ensures |ms| == |idx| && forall i :: 0 <= i < |idx| ==> ms[i] == q.messages[idx[i]]
  {
    if idx == [] then [] else At(q, idx[..|idx| - 1]) + [q.messages[idx[|idx| - 1]]]
  }

  /** What a caller passes as the session: nothing, a session it was given, or some other text. */
  datatype SessionRef = NewSession | Existing(number: nat) | Unknown

  datatype AcquireResult = AcquireResult(session: nat, deliveries: seq<Delivery>)

  /** The session an acquire runs in, and the sessions after it is resolved. */
  function ResolveSession(q: Queue, s: SessionRef, topic: Text, group: Text, max: nat): (r: Outcome<nat>)
  {
    match s
    case NewSession => Done(|q.sessions|)
    case Unknown => Failed(SessionExpired)
    case Existing(i) =>
      if i >= |q.sessions| then Failed(SessionExpired)
      else if q.sessions[i].topic != topic || q.sessions[i].group != group then Failed(GroupAndTopicFixed)
      else if max != 0 && Clamp(max) != q.sessions[i].max then Failed(MaxFixed)
      else Done(i)
  }

  function SelectedMessages(q: Queue, topic: Text, group: Text, max: nat): seq<Message>
  {
    At(q, Selected(q, topic, group, max))
  }

  function Acquire(q: Queue, s: SessionRef, topic: Text, group: Text, max: nat): (Queue, Outcome<AcquireResult>)
  {
    match ResolveSession(q, s, topic, group, max)
    case Failed(e) => (q, Failed(e))
    case Done(i) =>
      var ms := SelectedMessages(q, topic, group, max);
      (DeliverAll(Ready(q, s, topic, group, max), group, i, ms), Done(AcquireResult(i, Deliveries(q, group, ms))))
  }

  /** The available indices are exactly the available messages, strictly increasing. */
  lemma {:induction false} SelectedInRange(q: Queue, topic: Text, group: Text, n: nat)
    requires n <= |q.messages|
    ensures var idx := AvailableUpTo(q, topic, group, n);
            && (forall i :: 0 <= i < |idx| ==> idx[i] < n)
            && (forall i, j :: 0 <= i < j < |idx| ==> idx[i] < idx[j])
            && (forall k :: 0 <= k < n ==> (k in idx <==> IsAvailable(q, topic, group, q.messages[k])))
  {
    if n > 0 {
      SelectedInRange(q, topic, group, n - 1);
    }
  }

  // ---- Acknowledge and renew ----

  datatype AckType = Accept | Release | Reject

  datatype Coordinate = Coordinate(topic: Text, partition: int, offset: int)

  datatype AckEntry = AckEntry(at: Coordinate, ack: AckType)

  datatype EntryResult = EntryResult(at: Coordinate, ok: bool)

  function Settled(a: AckType): Disposition
  {
    match a case Accept => Accepted case Release => Available case Reject => Rejected
  }

  /** The session owns the message at `at`: it lies on partition 0 and was acquired by it. */
  predicate Owns(q: Queue, session: nat, at: Coordinate)
    requires session < |q.sessions|
  {
    && at.partition == 0 && at.offset >= 0
    && CellOf(q, Key(q.sessions[session].group, at.topic, at.offset)).disposition == Acquired(session)
  }

  function AckOne(q: Queue, session: nat, e: AckEntry): (r: Queue)
    requires session < |q.sessions|
    ensures r.sessions == q.sessions && r.messages == q.messages
  {
    if !Owns(q, session, e.at) then q
    else
      var k := Key(q.sessions[session].group, e.at.topic, e.at.offset);
      q.(cells := q.cells[k := q.cells[k].(disposition := Settled(e.ack))])
  }

  function AckAll(q: Queue, session: nat, es: seq<AckEntry>): (r: (Queue, seq<EntryResult>))
    requires session < |q.sessions|
    ensures r.0.sessions == q.sessions && r.0.messages == q.messages
  {
    if es == [] then (q, [])
    else
      var (before, results) := AckAll(q, session, es[..|es| - 1]);
      var e := es[|es| - 1];
      (AckOne(before, session, e), results + [EntryResult(e.at, Owns(before, session, e.at))])
  }

  function Acknowledge(q: Queue, s: SessionRef, es: seq<AckEntry>): (Queue, Outcome<seq<EntryResult>>)
  {
    if !s.Existing? || s.number >= |q.sessions| then (q, Failed(SessionExpired))
    else
      var (after, results) := AckAll(q, s.number, es);
      (after, Done(results))
  }

  function RenewAll(q: Queue, session: nat, ats: seq<Coordinate>): (rs: seq<EntryResult>)
    requires session < |q.sessions|
    ensures |rs| == |ats|
    ensures forall i :: 0 <= i < |ats| ==> rs[i] == EntryResult(ats[i], Owns(q, session, ats[i]))
  {
    if ats == [] then []
    else RenewAll(q, session, ats[..|ats| - 1]) + [EntryResult(ats[|ats| - 1], Owns(q, session, ats[|ats| - 1]))]
  }

  function Renew(q: Queue, s: SessionRef, ats: seq<Coordinate>): Outcome<seq<EntryResult>>
  {
    if !s.Existing? || s.number >= |q.sessions| then Failed(SessionExpired)
    else Done(RenewAll(q, s.number, ats))
  }

  // ---- Runs ----

  datatype Op =
    | OpPublish(topic: Text, payload: bytes)
    | OpAcquire(session: SessionRef, topic: Text, group: Text, max: nat)
    | OpAcknowledge(session: SessionRef, entries: seq<AckEntry>)
    | OpRenew(session: SessionRef, at: seq<Coordinate>)

  datatype Reply =
    | Published(offset: Outcome<nat>)
    | Delivered(result: Outcome<AcquireResult>)
    | Acknowledged(results: Outcome<seq<EntryResult>>)
    | Renewed(results: Outcome<seq<EntryResult>>)

  function Apply(q: Queue, op: Op): (Queue, Reply)
  {
    match op
    case OpPublish(topic, payload) => var (q', r) := Publish(q, topic, payload); (q', Published(r))
    case OpAcquire(s, topic, group, max) => var (q', r) := Acquire(q, s, topic, group, max); (q', Delivered(r))
    case OpAcknowledge(s, es) => var (q', r) := Acknowledge(q, s, es); (q', Acknowledged(r))
    case OpRenew(s, ats) => (q, Renewed(Renew(q, s, ats)))
  }

  function RunAll(q: Queue, ops: seq<Op>): (r: (Queue, seq<Reply>))
    ensures |r.1| == |ops|
  {
    if ops == [] then (q, [])
    else
      var (before, replies) := RunAll(q, ops[..|ops| - 1]);
      var (after, reply) := Apply(before, ops[|ops| - 1]);
      (after, replies + [reply])
  }

  // ---- What a store shows its caller ----

  datatype Acquisition<M> = Acquisition(session: Text, messages: seq<M>)

  /** Deliveries as a store shows them, each through `show`. */
  function Shown<M>(show: Delivery -> M, ds: seq<Delivery>): (ms: seq<M>)
    ensures |ms| == |ds|
  {
    if ds == [] then [] else Shown(show, ds[..|ds| - 1]) + [show(ds[|ds| - 1])]
  }

  /** How a store spells an abstract result: its session ids and its messages. */
  function Spelled<M>(idOf: nat -> Text, show: Delivery -> M, r: Outcome<AcquireResult>): Outcome<Acquisition<M>>
  {
    match r
    case Failed(e) => Failed(e)
    case Done(a) => Done(Acquisition(idOf(a.session), Shown(show, a.deliveries)))
  }

  /** The session a text names, when `n` sessions exist. */
  function NamedSession(idOf: nat -> Text, n: nat, id: Text): SessionRef
  {
    if n == 0 then Unknown else if idOf(n - 1) == id then Existing(n - 1) else NamedSession(idOf, n - 1, id)
  }

  function RefOf(idOf: nat -> Text, n: nat, id: Text): SessionRef
  {
    if id == [] then NewSession else NamedSession(idOf, n, id)
  }

  ghost predicate Injective(idOf: nat -> Text)
  {
    forall i: nat, j: nat :: idOf(i) == idOf(j) ==> i == j
  }

  /** Ids made of one prefix and a decimal number are distinct. */
  lemma NumberedIdsDiffer(prefix: Text, idOf: nat -> Text)
    requires forall n: nat :: idOf(n) == prefix + Decimal(n + 1)
    ensures Injective(idOf)
  {
    forall i: nat, j: nat | idOf(i) == idOf(j) ensures i == j {
      assert idOf(i)[|prefix|..] == Decimal(i + 1) && idOf(j)[|prefix|..] == Decimal(j + 1);
      DecimalInjective(i + 1, j + 1);
    }
  }

  lemma {:induction false} NamedSessionMeans(idOf: nat -> Text, n: nat, id: Text)
    ensures NamedSession(idOf, n, id).Existing? ==>
              NamedSession(idOf, n, id).number < n && idOf(NamedSession(idOf, n, id).number) == id
    ensures !NamedSession(idOf, n, id).NewSession?
    ensures NamedSession(idOf, n, id).Unknown? <==> forall i: nat :: i < n ==> idOf(i) != id
  {
    if n > 0 {
      NamedSessionMeans(idOf, n - 1, id);
    }
  }

  lemma PrefixOfTake<T>(a: seq<T>, b: seq<T>, k: nat)
    requires a <= b && |a| <= k
    ensures a <= Take(b, k)
  {
  }

  lemma SelectedAt(q: Queue, topic: Text, group: Text, max: nat)
    ensures var idx, ms := Selected(q, topic, group, max), SelectedMessages(q, topic, group, max);
            |ms| == |idx| && forall j :: 0 <= j < |idx| ==> idx[j] < |q.messages| && ms[j] == q.messages[idx[j]]
  {
  }

  /** Selecting from a longer prefix only appends. */
  lemma {:induction false} AvailableGrows(q: Queue, topic: Text, group: Text, i: nat, n: nat)
    requires i <= n <= |q.messages|
    ensures AvailableUpTo(q, topic, group, i) <= AvailableUpTo(q, topic, group, n)
    decreases n
  {
    if i < n {
      AvailableGrows(q, topic, group, i, n - 1);
    }
  }

  /** A scan may stop at the end or as soon as it has enough. */
  lemma SelectedByPrefix(q: Queue, topic: Text, group: Text, max: nat, i: nat)
    requires i <= |q.messages|
    requires var idx := AvailableUpTo(q, topic, group, i);
             |idx| <= Clamp(max) && (i == |q.messages| || |idx| == Clamp(max))
    ensures var idx, ms := AvailableUpTo(q, topic, group, i), SelectedMessages(q, topic, group, max);
            && Selected(q, topic, group, max) == idx && |ms| == |idx|
            && forall j :: 0 <= j < |idx| ==> idx[j] < |q.messages| && ms[j] == q.messages[idx[j]]
  {
    AvailableGrows(q, topic, group, i, |q.messages|);
    SelectedAt(q, topic, group, max);
    assert Selected(q, topic, group, max) == AvailableUpTo(q, topic, group, i);
  }

  lemma {:induction false} AvailabilityIgnoresSessions(q: Queue, sessions: seq<Session>, topic: Text, group: Text, n: nat)
    requires n <= |q.messages|
    ensures AvailableUpTo(q.(sessions := sessions), topic, group, n) == AvailableUpTo(q, topic, group, n)
  {
    if n > 0 {
      AvailabilityIgnoresSessions(q, sessions, topic, group, n - 1);
    }
  }

  lemma SelectionIgnoresSessions(q: Queue, sessions: seq<Session>, topic: Text, group: Text, max: nat)
    ensures SelectedMessages(q.(sessions := sessions), topic, group, max) == SelectedMessages(q, topic, group, max)
  {
    AvailabilityIgnoresSessions(q, sessions, topic, group, |q.messages|);
    SelectedInRange(q, topic, group, |q.messages|);
    SelectedInRange(q.(sessions := sessions), topic, group, |q.messages|);
    var a, b := SelectedMessages(q, topic, group, max), SelectedMessages(q.(sessions := sessions), topic, group, max);
    assert |a| == |b| && forall j :: 0 <= j < |a| ==> a[j] == b[j];
  }

  lemma {:induction false} DeliveriesIgnoreSessions(q: Queue, sessions: seq<Session>, group: Text, ms: seq<Message>)
    ensures Deliveries(q.(sessions := sessions), group, ms) == Deliveries(q, group, ms)
  {
    if ms != [] {
      DeliveriesIgnoreSessions(q, sessions, group, ms[..|ms| - 1]);
    }
  }

  /** The queue with its sessions as they are when delivery begins. */
  function Ready(q: Queue, s: SessionRef, topic: Text, group: Text, max: nat): Queue
  {
    if s == NewSession then q.(sessions := q.sessions + [Session(topic, group, Clamp(max))]) else q
  }

  /** Selecting and counting from the queue with the new session already in place is the same. */
  lemma AcquireFromReady(q: Queue, s: SessionRef, topic: Text, group: Text, max: nat)
    requires ResolveSession(q, s, topic, group, max).Done?
    ensures var ready, n := Ready(q, s, topic, group, max), ResolveSession(q, s, topic, group, max).value;
            var ms := SelectedMessages(ready, topic, group, max);
            Acquire(q, s, topic, group, max) ==
            (DeliverAll(ready, group, n, ms), Done(AcquireResult(n, Deliveries(ready, group, ms))))
  {
    var ready := Ready(q, s, topic, group, max);
    SelectionIgnoresSessions(q, ready.sessions, topic, group, max);
    DeliveriesIgnoreSessions(q, ready.sessions, group, SelectedMessages(q, topic, group, max));
    assert ready == q.(sessions := ready.sessions);
  }
}
