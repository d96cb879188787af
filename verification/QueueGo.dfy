/** The Go SDK's in-memory queue (sdks/go/mock.go, the `mockStore` methods of sdks/go/queues.go):
    each message carries a map from group to delivery record, and is found by its printed id. */
module QueueGo {
  import opened Bytes
  import opened QueueModel
  import opened QueueRuns
  import opened MessageIds

  const TWO_31: int := 0x8000_0000
  const TWO_32: int := 0x1_0000_0000

  /** An `int32` counter that started at zero after `n` increments: it wraps. */
  function Wrap(n: nat): int { (n + TWO_31) % TWO_32 - TWO_31 }

  lemma WrapNext(n: nat)
    ensures Wrap(n + 1) == if Wrap(n) == TWO_31 - 1 then 0 - TWO_31 else Wrap(n) + 1
  {
  }

  function SessionId(number: nat): Text { Ascii("queue-session-") + Decimal(number + 1) }

  lemma SessionIdsDiffer()
    ensures Injective(SessionId)
  {
    NumberedIdsDiffer(Ascii("queue-session-"), SessionId);
  }

  datatype DeliveryState = StateAvailable | StateAcquired | StateAccepted | StateRejected

  datatype DeliveryRecord = DeliveryRecord(state: DeliveryState, sessionId: Text, count: int)

  datatype GoMessage = GoMessage(topic: Text, partition: int, offset: int, payload: bytes,
                                 deliveries: map<Text, DeliveryRecord>)

  datatype GoSession = GoSession(topic: Text, group: Text, max: nat)

  datatype QueueMessage = QueueMessage(id: Text, at: Coordinate, payload: bytes, count: int)

  datatype AckById = AckById(id: Text, ack: AckType)

  datatype IdResult = IdResult(id: Text, ok: bool)

  function Show(d: Delivery): QueueMessage
  {
    var at := Coordinate(d.message.topic, 0, d.message.offset);
    QueueMessage(MessageId(at), at, d.message.payload, Wrap(d.count))
  }

  predicate Printing(d: Delivery) { true }

  /** `m` shows `d`, sealed like `SpoolFiles.Holds`; `ShowsMeans` opens it. */
  ghost predicate Shows(m: QueueMessage, d: Delivery)
  {
    forall x {:trigger Printing(x)} :: x == d ==> m == Show(x)
  }

  lemma ShowsMeans(m: QueueMessage, d: Delivery)
    ensures Shows(m, d) <==> m == Show(d)
  {
    assert Printing(d);
  }

  ghost predicate ShowsFirst(out: seq<QueueMessage>, ds: seq<Delivery>)
  {
    |out| <= |ds| && forall i :: 0 <= i < |out| ==> Shows(out[i], ds[i])
  }

  lemma ShowsOneMore(out: seq<QueueMessage>, ds: seq<Delivery>, m: QueueMessage)
    requires ShowsFirst(out, ds) && |out| < |ds| && Shows(m, ds[|out|])
    ensures ShowsFirst(out + [m], ds)
  {
  }

  lemma {:induction false} AllShown(out: seq<QueueMessage>, ds: seq<Delivery>)
    requires |out| == |ds| && ShowsFirst(out, ds)
    ensures out == Shown(Show, ds)
  {
    if out != [] {
      var n := |out| - 1;
      AllShown(out[..n], ds[..n]);
      ShowsMeans(out[n], ds[n]);
      assert out == out[..n] + [out[n]];
    }
  }

  // ---- Every cell belongs to a message ----

  ghost predicate HasMessage(messages: seq<Message>, k: Key)
  {
    exists i :: 0 <= i < |messages| && messages[i].topic == k.topic && messages[i].offset == k.offset
  }

  ghost predicate Backed(messages: seq<Message>, cells: map<Key, Cell>)
  {
    forall k :: k in cells ==> HasMessage(messages, k)
  }

  lemma BackedPush(messages: seq<Message>, cells: map<Key, Cell>, m: Message)
    requires Backed(messages, cells)
    ensures Backed(messages + [m], cells)
  {
    forall k | k in cells ensures HasMessage(messages + [m], k) {
      var i :| 0 <= i < |messages| && messages[i].topic == k.topic && messages[i].offset == k.offset;
      assert (messages + [m])[i] == messages[i];
    }
  }

  lemma NextIsUnseen(messages: seq<Message>, cells: map<Key, Cell>, m: Message)
    requires Backed(messages, cells) && Dense(messages) && m.offset == CountTopic(messages, m.topic)
    ensures forall group :: KeyOf(group, m) !in cells
  {
    forall group ensures KeyOf(group, m) !in cells {
      if KeyOf(group, m) in cells {
        var i :| 0 <= i < |messages| && messages[i].topic == m.topic && messages[i].offset == m.offset;
        CountTopicGrows(messages, m.topic, i);
      }
    }
  }

  // ---- How the messages represent the queue ----

  function RecordOf(c: Cell): DeliveryRecord
  {
    var state := match c.disposition
      case Available => StateAvailable
      case Acquired(_) => StateAcquired
      case Accepted => StateAccepted
      case Rejected => StateRejected;
    DeliveryRecord(state, if c.disposition.Acquired? then SessionId(c.disposition.session) else [], Wrap(c.deliveries))
  }

  function CellIn(cells: map<Key, Cell>, k: Key): Cell { if k in cells then cells[k] else UNSEEN }

  ghost predicate CarriesOne(g: GoMessage, m: Message, cells: map<Key, Cell>)
  {
    && g.topic == m.topic && g.partition == 0 && g.offset == m.offset && g.payload == m.payload
    && (forall group :: group in g.deliveries ==> g.deliveries[group] == RecordOf(CellIn(cells, KeyOf(group, m))))
    && (forall group :: KeyOf(group, m) in cells ==> group in g.deliveries)
  }

  ghost predicate Carries(mock: seq<GoMessage>, messages: seq<Message>, cells: map<Key, Cell>)
  {
    && |mock| == |messages| && Backed(messages, cells)
    && forall i :: 0 <= i < |mock| ==> CarriesOne(mock[i], messages[i], cells)
  }

  /** `Carries`, sealed like `SpoolFiles.Holds`; `CarryingMeans` opens it. */
  ghost predicate Carrying(mock: seq<GoMessage>, messages: seq<Message>, cells: map<Key, Cell>)
  {
    forall g {:trigger Carries(g, messages, cells)} :: g == mock ==> Carries(g, messages, cells)
  }

  lemma CarryingMeans(mock: seq<GoMessage>, messages: seq<Message>, cells: map<Key, Cell>)
    ensures Carrying(mock, messages, cells) <==> Carries(mock, messages, cells)
  {
  }

  /** A delivery record created on first sight represents a cell nobody has seen. */
  lemma CarryTouch(mock: seq<GoMessage>, messages: seq<Message>, cells: map<Key, Cell>, i: nat, group: Text)
    requires Carrying(mock, messages, cells) && i < |mock| && group !in mock[i].deliveries
    ensures Carrying(mock[i := mock[i].(deliveries := mock[i].deliveries[group := RecordOf(UNSEEN)])], messages, cells)
  {
    CarryingMeans(mock, messages, cells);
    var touched := mock[i].(deliveries := mock[i].deliveries[group := RecordOf(UNSEEN)]);
    assert CarriesOne(touched, messages[i], cells);
    CarryingMeans(mock[i := touched], messages, cells);
  }

  lemma CarriesOther(g: GoMessage, m: Message, cells: map<Key, Cell>, k: Key, c: Cell)
    requires CarriesOne(g, m, cells) && (m.topic != k.topic || m.offset != k.offset)
    ensures CarriesOne(g, m, cells[k := c])
  {
  }

  lemma CarriesSame(g: GoMessage, m: Message, cells: map<Key, Cell>, group: Text, c: Cell)
    requires CarriesOne(g, m, cells)
    ensures CarriesOne(g.(deliveries := g.deliveries[group := RecordOf(c)]), m, cells[KeyOf(group, m) := c])
  {
  }

  lemma BackedSet(messages: seq<Message>, cells: map<Key, Cell>, i: nat, group: Text, c: Cell)
    requires Backed(messages, cells) && i < |messages|
    ensures Backed(messages, cells[KeyOf(group, messages[i]) := c])
  {
    assert HasMessage(messages, KeyOf(group, messages[i]));
  }

  lemma CarrySet(mock: seq<GoMessage>, messages: seq<Message>, cells: map<Key, Cell>, i: nat, group: Text, c: Cell)
    requires Dense(messages) && Carrying(mock, messages, cells) && i < |mock| == |messages|
    ensures Carrying(mock[i := mock[i].(deliveries := mock[i].deliveries[group := RecordOf(c)])], messages,
                     cells[KeyOf(group, messages[i]) := c])
  {
    CarryingMeans(mock, messages, cells);
    var k := KeyOf(group, messages[i]);
    var after := mock[i := mock[i].(deliveries := mock[i].deliveries[group := RecordOf(c)])];
    forall j | 0 <= j < |after| ensures CarriesOne(after[j], messages[j], cells[k := c]) {
      if j == i {
        CarriesSame(mock[i], messages[i], cells, group, c);
      } else {
        if messages[i].topic == messages[j].topic {
          OffsetsAreUnique(messages, if i < j then i else j, if i < j then j else i);
        }
        CarriesOther(mock[j], messages[j], cells, k, c);
      }
    }
    BackedSet(messages, cells, i, group, c);
    CarryingMeans(after, messages, cells[k := c]);
  }

  lemma CarryPush(mock: seq<GoMessage>, messages: seq<Message>, cells: map<Key, Cell>, m: Message)
    requires Carrying(mock, messages, cells) && Dense(messages) && m.offset == CountTopic(messages, m.topic)
    ensures Carrying(mock + [GoMessage(m.topic, 0, m.offset, m.payload, map[])], messages + [m], cells)
  {
    CarryingMeans(mock, messages, cells);
    NextIsUnseen(messages, cells, m);
    BackedPush(messages, cells, m);
    CarryingMeans(mock + [GoMessage(m.topic, 0, m.offset, m.payload, map[])], messages + [m], cells);
  }

  lemma CarryAt(mock: seq<GoMessage>, messages: seq<Message>, cells: map<Key, Cell>, i: nat)
    requires Carrying(mock, messages, cells) && i < |mock|
    ensures |mock| == |messages|
    ensures var g, m := mock[i], messages[i];
            g.topic == m.topic && g.partition == 0 && g.offset == m.offset && g.payload == m.payload
  {
    CarryingMeans(mock, messages, cells);
    assert CarriesOne(mock[i], messages[i], cells);
  }

  lemma CarryDeliver(mock: seq<GoMessage>, q: Queue, i: nat, group: Text, session: nat)
    requires Dense(q.messages) && Carrying(mock, q.messages, q.cells) && i < |mock| == |q.messages|
    ensures var q' := Deliver(q, group, session, q.messages[i]);
            var count := Wrap(CellOf(q, KeyOf(group, q.messages[i])).deliveries + 1);
            var record := DeliveryRecord(StateAcquired, SessionId(session), count);
            Carrying(mock[i := mock[i].(deliveries := mock[i].deliveries[group := record])], q'.messages, q'.cells)
  {
    CarrySet(mock, q.messages, q.cells, i, group,
             Cell(Acquired(session), CellOf(q, KeyOf(group, q.messages[i])).deliveries + 1));
  }

  // ---- Sessions ----

  ghost predicate SessionsMatch(mock: map<Text, GoSession>, next: int, sessions: seq<Session>)
  {
    && next == |sessions| + 1
    && forall id :: var s := NamedSession(SessionId, |sessions|, id);
         && (id in mock <==> s.Existing?)
         && (s.Existing? && s.number < |sessions| ==>
               mock[id] == GoSession(sessions[s.number].topic, sessions[s.number].group, sessions[s.number].max))
  }

  lemma SessionsPush(mock: map<Text, GoSession>, sessions: seq<Session>, s: Session)
    requires SessionsMatch(mock, |sessions| + 1, sessions)
    ensures SessionsMatch(mock[SessionId(|sessions|) := GoSession(s.topic, s.group, s.max)], |sessions| + 2, sessions + [s])
  {
    var n := |sessions|;
    var mock', sessions' := mock[SessionId(n) := GoSession(s.topic, s.group, s.max)], sessions + [s];
    forall id ensures var r := NamedSession(SessionId, n + 1, id);
                      && (id in mock' <==> r.Existing?)
                      && (r.Existing? && r.number < n + 1 ==>
                            mock'[id] == GoSession(sessions'[r.number].topic, sessions'[r.number].group, sessions'[r.number].max))
    {
      NamedSessionMeans(SessionId, n, id);
      assert id != SessionId(n) ==> NamedSession(SessionId, n + 1, id) == NamedSession(SessionId, n, id);
    }
  }

  // ---- Finding an acquired message ----

  predicate IsOwnedBy(g: GoMessage, group: Text, sessionId: Text, messageId: Text)
  {
    && group in g.deliveries && g.deliveries[group].state == StateAcquired
    && g.deliveries[group].sessionId == sessionId
    && MessageId(Coordinate(g.topic, g.partition, g.offset)) == messageId
  }

  method FirstOwnedBy(messages: seq<GoMessage>, group: Text, sessionId: Text, messageId: Text) returns (i: nat)
    ensures i <= |messages| && forall j :: 0 <= j < i ==> !IsOwnedBy(messages[j], group, sessionId, messageId)
    ensures i < |messages| ==> IsOwnedBy(messages[i], group, sessionId, messageId)
  {
    i := 0;
    while i < |messages| && !IsOwnedBy(messages[i], group, sessionId, messageId)
      invariant 0 <= i <= |messages|
      invariant forall j :: 0 <= j < i ==> !IsOwnedBy(messages[j], group, sessionId, messageId)
    {
      i := i + 1;
    }
  }

  lemma OwnedByMeans(mock: seq<GoMessage>, q: Queue, session: nat, messageId: Text, i: nat)
    requires Carrying(mock, q.messages, q.cells) && session < |q.sessions| && i < |mock|
    requires IsOwnedBy(mock[i], q.sessions[session].group, SessionId(session), messageId)
    ensures |mock| == |q.messages| && Owns(q, session, Named(messageId))
    ensures Named(messageId) == Coordinate(q.messages[i].topic, 0, q.messages[i].offset)
  {
    CarryingMeans(mock, q.messages, q.cells);
    assert CarriesOne(mock[i], q.messages[i], q.cells);
    NamedMessageId(Coordinate(mock[i].topic, 0, mock[i].offset));
    SessionIdsDiffer();
  }

  lemma OwnedIsFound(mock: seq<GoMessage>, q: Queue, session: nat, messageId: Text) returns (i: nat)
    requires Carrying(mock, q.messages, q.cells) && session < |q.sessions|
    requires Owns(q, session, Named(messageId))
    ensures i < |mock| && IsOwnedBy(mock[i], q.sessions[session].group, SessionId(session), messageId)
  {
    CarryingMeans(mock, q.messages, q.cells);
    var at := Named(messageId);
    var k := Key(q.sessions[session].group, at.topic, at.offset);
    assert HasMessage(q.messages, k);
    i :| 0 <= i < |q.messages| && q.messages[i].topic == k.topic && q.messages[i].offset == k.offset;
    assert CarriesOne(mock[i], q.messages[i], q.cells) && KeyOf(k.group, q.messages[i]) == k;
    NamedMeans(messageId);
  }

  lemma NotFoundIsNotOwned(mock: seq<GoMessage>, q: Queue, session: nat, messageId: Text)
    requires Carrying(mock, q.messages, q.cells) && session < |q.sessions|
    requires forall i :: 0 <= i < |mock| ==> !IsOwnedBy(mock[i], q.sessions[session].group, SessionId(session), messageId)
    ensures !Owns(q, session, Named(messageId))
  {
    if Owns(q, session, Named(messageId)) {
      var i := OwnedIsFound(mock, q, session, messageId);
    }
  }

  /** Settling an owned message keeps its count and clears its session. */
  lemma {:induction false} CarryAck(mock: seq<GoMessage>, q: Queue, session: nat, i: nat, ack: AckType)
    requires Carrying(mock, q.messages, q.cells) && Dense(q.messages) && i < |mock| == |q.messages|
    requires session < |q.sessions| && q.sessions[session].group in mock[i].deliveries
    requires Owns(q, session, Coordinate(q.messages[i].topic, 0, q.messages[i].offset))
    ensures var group := q.sessions[session].group;
            var q' := AckOne(q, session, AckEntry(Coordinate(q.messages[i].topic, 0, q.messages[i].offset), ack));
            var state := match ack
              case Release => StateAvailable
              case Reject => StateRejected
              case Accept => StateAccepted;
            var record := mock[i].deliveries[group].(state := state, sessionId := []);
            Carrying(mock[i := mock[i].(deliveries := mock[i].deliveries[group := record])], q'.messages, q'.cells)
  {
    CarryingMeans(mock, q.messages, q.cells);
    assert CarriesOne(mock[i], q.messages[i], q.cells);
    var k := KeyOf(q.sessions[session].group, q.messages[i]);
    CarrySet(mock, q.messages, q.cells, i, k.group, q.cells[k].(disposition := Settled(ack)));
  }

  // ---- One scan that selects and delivers ----

  lemma SelectedSoFar(q: Queue, topic: Text, group: Text, max: nat, i: nat)
    requires i < |q.messages| && |AvailableUpTo(q, topic, group, i)| < Clamp(max)
    ensures var ms, idx := SelectedMessages(q, topic, group, max), AvailableUpTo(q, topic, group, i);
            && |idx| <= |ms|
            && (forall j :: 0 <= j < |idx| ==> idx[j] < i && ms[j] == q.messages[idx[j]])
            && (IsAvailable(q, topic, group, q.messages[i]) ==> |idx| < |ms| && ms[|idx|] == q.messages[i])
  {
    AvailableGrows(q, topic, group, i + 1, |q.messages|);
    PrefixOfTake(AvailableUpTo(q, topic, group, i + 1), AvailableIndices(q, topic, group), Clamp(max));
    SelectedAt(q, topic, group, max);
  }

  /** Before the scan looks at message `i`, exactly the earlier available messages have been
      delivered, and its own state is as it was. */
  lemma ScanLeavesNext(q: Queue, topic: Text, group: Text, max: nat, session: nat, i: nat)
    requires Dense(q.messages) && i < |q.messages| && |AvailableUpTo(q, topic, group, i)| < Clamp(max)
    requires |AvailableUpTo(q, topic, group, i)| <= |SelectedMessages(q, topic, group, max)|
    ensures var done := SelectedMessages(q, topic, group, max)[..|AvailableUpTo(q, topic, group, i)|];
            CellOf(DeliverAll(q, group, session, done), KeyOf(group, q.messages[i])) == CellOf(q, KeyOf(group, q.messages[i]))
  {
    SelectedSoFar(q, topic, group, max, i);
    SelectedAreDistinct(q, topic, group, max);
    var idx := AvailableUpTo(q, topic, group, i);
    var done := SelectedMessages(q, topic, group, max)[..|idx|];
    forall j | 0 <= j < |idx| ensures KeyOf(group, done[j]) != KeyOf(group, q.messages[i]) {
      if q.messages[idx[j]].topic == q.messages[i].topic {
        OffsetsAreUnique(q.messages, idx[j], i);
      }
    }
    DeliverAllCell(q, group, session, done, KeyOf(group, q.messages[i]));
  }

  /** The scan has looked at `i` messages and delivered `j`, which took the queue to `now`. */
  ghost predicate ScanAt(q: Queue, topic: Text, group: Text, max: nat, session: nat, i: nat, j: nat, now: Queue)
  {
    && i <= |q.messages| && j == |AvailableUpTo(q, topic, group, i)| <= Clamp(max)
    && j <= |SelectedMessages(q, topic, group, max)|
    && now == DeliverAll(q, group, session, SelectedMessages(q, topic, group, max)[..j])
  }

  /** `ScanAt`, sealed like `SpoolFiles.Holds`; `ScannedMeans` opens it. */
  ghost predicate Scanned(q: Queue, topic: Text, group: Text, max: nat, session: nat, i: nat, j: nat, now: Queue)
  {
    forall k: nat {:trigger ScanAt(q, topic, group, max, session, k, j, now)} ::
      k == i ==> ScanAt(q, topic, group, max, session, k, j, now)
  }

  lemma ScannedMeans(q: Queue, topic: Text, group: Text, max: nat, session: nat, i: nat, j: nat, now: Queue)
    ensures Scanned(q, topic, group, max, session, i, j, now) <==> ScanAt(q, topic, group, max, session, i, j, now)
  {
  }

  lemma ScanStart(q: Queue, topic: Text, group: Text, max: nat, session: nat)
    ensures Scanned(q, topic, group, max, session, 0, 0, q)
  {
    ScannedMeans(q, topic, group, max, session, 0, 0, q);
  }

  lemma SelectedNext(q: Queue, topic: Text, group: Text, max: nat, session: nat, j: nat)
    requires Dense(q.messages) && j < |SelectedMessages(q, topic, group, max)|
    ensures var ms := SelectedMessages(q, topic, group, max);
            var now := DeliverAll(q, group, session, ms[..j]);
            && DeliverAll(q, group, session, ms[..j + 1]) == Deliver(now, group, session, ms[j])
            && Deliveries(q, group, ms)[j] == Delivery(ms[j], CellOf(now, KeyOf(group, ms[j])).deliveries + 1)
  {
    SelectedAreDistinct(q, topic, group, max);
    DeliverNext(q, group, session, SelectedMessages(q, topic, group, max), j);
  }

  lemma ScanSees(q: Queue, topic: Text, group: Text, max: nat, session: nat, i: nat, j: nat, now: Queue)
    requires Dense(q.messages) && i < |q.messages| && j < Clamp(max) && ScanAt(q, topic, group, max, session, i, j, now)
    ensures var ms, m := SelectedMessages(q, topic, group, max), q.messages[i];
            if IsAvailable(now, topic, group, m)
            then j + 1 == |AvailableUpTo(q, topic, group, i + 1)| && j < |ms| && ms[j] == m
            else j == |AvailableUpTo(q, topic, group, i + 1)|
  {
    SelectedSoFar(q, topic, group, max, i);
    ScanLeavesNext(q, topic, group, max, session, i);
  }

  /** One look of the scan at message `i`. */
  lemma ScanStep(q: Queue, topic: Text, group: Text, max: nat, session: nat, i: nat, j: nat, now: Queue)
    requires Dense(q.messages) && i < |q.messages| && j < Clamp(max)
    requires Scanned(q, topic, group, max, session, i, j, now)
    ensures var ds, m := Deliveries(q, group, SelectedMessages(q, topic, group, max)), q.messages[i];
            if IsAvailable(now, topic, group, m) then
              && j < |ds| && ds[j] == Delivery(m, CellOf(now, KeyOf(group, m)).deliveries + 1)
              && Scanned(q, topic, group, max, session, i + 1, j + 1, Deliver(now, group, session, m))
            else Scanned(q, topic, group, max, session, i + 1, j, now)
  {
    ScannedMeans(q, topic, group, max, session, i, j, now);
    ScanSees(q, topic, group, max, session, i, j, now);
    if IsAvailable(now, topic, group, q.messages[i]) {
      SelectedNext(q, topic, group, max, session, j);
      ScannedMeans(q, topic, group, max, session, i + 1, j + 1, Deliver(now, group, session, q.messages[i]));
    } else {
      ScannedMeans(q, topic, group, max, session, i + 1, j, now);
    }
  }

  lemma ScanEnd(q: Queue, topic: Text, group: Text, max: nat, session: nat, i: nat, j: nat, now: Queue)
    requires Scanned(q, topic, group, max, session, i, j, now) && (i == |q.messages| || j == Clamp(max))
    ensures var ms := SelectedMessages(q, topic, group, max); |ms| == j && now == DeliverAll(q, group, session, ms)
  {
    ScannedMeans(q, topic, group, max, session, i, j, now);
    SelectedByPrefix(q, topic, group, max, i);
    var ms := SelectedMessages(q, topic, group, max);
    assert ms[..j] == ms;
  }

  // ---- The store ----

  ghost function Coordinates(entries: seq<AckById>): (es: seq<AckEntry>)
    ensures |es| == |entries|
    ensures forall i :: 0 <= i < |es| ==> es[i] == AckEntry(Named(entries[i].id), entries[i].ack)
  {
    if entries == [] then []
    else
      var e := entries[|entries| - 1];
      Coordinates(entries[..|entries| - 1]) + [AckEntry(Named(e.id), e.ack)]
  }

  ghost function NamedAll(ids: seq<Text>): (ats: seq<Coordinate>)
    ensures |ats| == |ids| && forall i :: 0 <= i < |ats| ==> ats[i] == Named(ids[i])
  {
    if ids == [] then [] else NamedAll(ids[..|ids| - 1]) + [Named(ids[|ids| - 1])]
  }

  ghost predicate VerdictsFirst(ids: seq<Text>, out: seq<IdResult>, rs: seq<EntryResult>)
  {
    |out| <= |ids| == |rs| && forall i :: 0 <= i < |out| ==> out[i] == IdResult(ids[i], rs[i].ok)
  }

  lemma VerdictsOneMore(ids: seq<Text>, out: seq<IdResult>, rs: seq<EntryResult>, r: IdResult)
    requires VerdictsFirst(ids, out, rs) && |out| < |ids| && r == IdResult(ids[|out|], rs[|out|].ok)
    ensures VerdictsFirst(ids, out + [r], rs)
  {
  }

  /** The verdicts on entries given by id. */
  ghost predicate Verdicts(ids: seq<Text>, out: Outcome<seq<IdResult>>, r: Outcome<seq<EntryResult>>)
  {
    match r
    case Failed(e) => out == Failed(e)
    case Done(rs) => out.Done? && |out.value| == |ids| && VerdictsFirst(ids, out.value, rs)
  }

  function IdsOf(entries: seq<AckById>): (ids: seq<Text>)
    ensures |ids| == |entries| && forall i :: 0 <= i < |ids| ==> ids[i] == entries[i].id
  {
    seq(|entries|, i requires 0 <= i < |entries| => entries[i].id)
  }

  class Store {
    var messages: seq<GoMessage>
    var nextSessionId: int
    var sessions: map<Text, GoSession>
    ghost var queue: Queue

    ghost predicate Valid() reads this
    {
      && Owned(queue) && |messages| == |queue.messages|
      && Carrying(messages, queue.messages, queue.cells) && SessionsMatch(sessions, nextSessionId, queue.sessions)
    }

    constructor ()
      ensures Valid() && queue == EMPTY
    {
      messages, nextSessionId, sessions, queue := [], 1, map[], EMPTY;
    }

    method Publish(topic: Text, payload: bytes) returns (r: Outcome<nat>)
      requires Valid()
      modifies this
      ensures Valid() && (queue, r) == QueueModel.Publish(old(queue), topic, payload)
    {
      if topic == [] {
        return Failed(TopicRequired);
      }
      if topic == MISSING_TOPIC {
        return Failed(TopicNotFound);
      }
      var offset := CountMessages(topic);
      ghost var m := Message(topic, offset, payload);
      CarryPush(messages, queue.messages, queue.cells, m);
      StepKeepsOwned(queue, OpPublish(topic, payload));
      messages := messages + [GoMessage(topic, 0, offset, payload, map[])];
      queue := QueueModel.Publish(queue, topic, payload).0;
      return Done(offset);
    }

    method CountMessages(topic: Text) returns (n: nat)
      requires Carrying(messages, queue.messages, queue.cells)
      ensures n == CountTopic(queue.messages, topic)
    {
      CarryingMeans(messages, queue.messages, queue.cells);
      n := 0;
      for i := 0 to |messages|
        invariant n == CountTopic(queue.messages[..i], topic)
      {
        assert queue.messages[..i + 1][..i] == queue.messages[..i];
        assert CarriesOne(messages[i], queue.messages[i], queue.cells);
        if messages[i].topic == topic {
          n := n + 1;
        }
      }
      assert queue.messages[..|messages|] == queue.messages;
    }

    /** The group's delivery record of message `i`, created when first looked at. */
    method QueueDelivery(i: nat, group: Text)
      requires i < |messages| == |queue.messages| && Carrying(messages, queue.messages, queue.cells)
      modifies this`messages
      ensures |messages| == |queue.messages| && Carrying(messages, queue.messages, queue.cells)
      ensures group in messages[i].deliveries
      ensures messages[i].deliveries[group] == RecordOf(CellOf(queue, KeyOf(group, queue.messages[i])))
    {
      CarryingMeans(messages, queue.messages, queue.cells);
      assert CarriesOne(messages[i], queue.messages[i], queue.cells);
      if group !in messages[i].deliveries {
        CarryTouch(messages, queue.messages, queue.cells, i, group);
        var created := DeliveryRecord(StateAvailable, [], 0);
        messages := messages[i := messages[i].(deliveries := messages[i].deliveries[group := created])];
      }
    }

    /** The scan's test; looking creates the group's record on a message of the topic. */
    method IsDeliverable(i: nat, topic: Text, group: Text) returns (b: bool)
      requires i < |messages| == |queue.messages| && Carrying(messages, queue.messages, queue.cells)
      modifies this`messages
      ensures |messages| == |queue.messages| && Carrying(messages, queue.messages, queue.cells)
      ensures b <==> IsAvailable(queue, topic, group, queue.messages[i])
    {
      CarryAt(messages, queue.messages, queue.cells, i);
      if messages[i].topic != topic {
        return false;
      }
      QueueDelivery(i, group);
      return messages[i].deliveries[group].state == StateAvailable;
    }

    method AcquireMessage(i: nat, group: Text, id: Text, ghost session: nat) returns (m: QueueMessage)
      requires i < |messages| == |queue.messages| && Carrying(messages, queue.messages, queue.cells)
      requires Dense(queue.messages) && id == SessionId(session)
      modifies this`messages, this`queue
      ensures |messages| == |queue.messages| && Carrying(messages, queue.messages, queue.cells)
      ensures var original := old(queue).messages[i];
              && queue == Deliver(old(queue), group, session, original)
              && Shows(m, Delivery(original, CellOf(old(queue), KeyOf(group, original)).deliveries + 1))
    {
      ghost var d := Delivery(queue.messages[i], CellOf(queue, KeyOf(group, queue.messages[i])).deliveries + 1);
      QueueDelivery(i, group);
      CarryAt(messages, queue.messages, queue.cells, i);
      WrapNext(CellOf(queue, KeyOf(group, queue.messages[i])).deliveries);
      CarryDeliver(messages, queue, i, group, session);
      var g := messages[i];
      var count := if g.deliveries[group].count == TWO_31 - 1 then 0 - TWO_31 else g.deliveries[group].count + 1;
      messages := messages[i := g.(deliveries := g.deliveries[group := DeliveryRecord(StateAcquired, id, count)])];
      queue := Deliver(queue, group, session, queue.messages[i]);
      var at := Coordinate(g.topic, g.partition, g.offset);
      m := QueueMessage(MessageId(at), at, g.payload, count);
      ShowsMeans(m, d);
    }

    /** One pass that looks at each message and delivers it at once if it is available. */
    method ScanAndAcquire(topic: Text, group: Text, max: nat, id: Text, ghost session: nat)
      returns (out: seq<QueueMessage>)
      requires |messages| == |queue.messages| && Carrying(messages, queue.messages, queue.cells)
      requires Dense(queue.messages) && id == SessionId(session)
      modifies this`messages, this`queue
      ensures |messages| == |queue.messages| && Carrying(messages, queue.messages, queue.cells)
      ensures var ms := SelectedMessages(old(queue), topic, group, max);
              && queue == DeliverAll(old(queue), group, session, ms)
              && out == Shown(Show, Deliveries(old(queue), group, ms))
    {
      ghost var before, ms := queue, SelectedMessages(queue, topic, group, max);
      ghost var ds := Deliveries(before, group, ms);
      ScanStart(before, topic, group, max, session);
      out := [];
      var i := 0;
      while i < |messages| && |out| < Clamp(max)
        invariant 0 <= i <= |messages| == |queue.messages| && queue.messages == before.messages && |out| <= Clamp(max)
        invariant Carrying(messages, queue.messages, queue.cells)
        invariant Scanned(before, topic, group, max, session, i, |out|, queue) && ShowsFirst(out, ds)
      {
        ScanStep(before, topic, group, max, session, i, |out|, queue);
        var deliverable := IsDeliverable(i, topic, group);
        if deliverable {
          assert ds[|out|] == Delivery(queue.messages[i], CellOf(queue, KeyOf(group, queue.messages[i])).deliveries + 1);
          var m := AcquireMessage(i, group, id, session);
          ShowsOneMore(out, ds, m);
          out := out + [m];
        }
        i := i + 1;
      }
      ScanEnd(before, topic, group, max, session, i, |out|, queue);
      AllShown(out, ds);
    }

    /** The session for an acquire: the one asked for, or a new one. */
    method SessionFor(requested: Text, topic: Text, group: Text, max: nat) returns (r: Outcome<Text>)
      requires SessionsMatch(sessions, nextSessionId, queue.sessions)
      modifies this`sessions, this`nextSessionId
      ensures var ref := RefOf(SessionId, |queue.sessions|, requested);
              match ResolveSession(queue, ref, topic, group, max)
              case Failed(e) => r == Failed(e) && sessions == old(sessions) && nextSessionId == old(nextSessionId)
              case Done(n) =>
                && r == Done(SessionId(n))
                && SessionsMatch(sessions, nextSessionId, Ready(queue, ref, topic, group, max).sessions)
    {
      if requested == [] {
        var id := Ascii("queue-session-") + Decimal(nextSessionId);
        SessionsPush(sessions, queue.sessions, Session(topic, group, Clamp(max)));
        nextSessionId := nextSessionId + 1;
        sessions := sessions[id := GoSession(topic, group, Clamp(max))];
        return Done(id);
      }
      NamedSessionMeans(SessionId, |queue.sessions|, requested);
      if requested !in sessions {
        return Failed(SessionExpired);
      }
      var session := sessions[requested];
      if session.topic != topic || session.group != group {
        return Failed(GroupAndTopicFixed);
      }
      if max != 0 && Clamp(max) != session.max {
        return Failed(MaxFixed);
      }
      return Done(requested);
    }

    method Acquire(topic: Text, group: Text, max: nat, requested: Text) returns (r: Outcome<Acquisition<QueueMessage>>)
      requires Valid()
      modifies this
      ensures Valid()
      ensures var (q, result) := QueueModel.Acquire(old(queue), RefOf(SessionId, |old(queue).sessions|, requested),
                                                    topic, group, max);
              queue == q && r == Spelled(SessionId, Show, result)
    {
      ghost var before, ref := queue, RefOf(SessionId, |queue.sessions|, requested);
      var session := SessionFor(requested, topic, group, max);
      if session.Failed? {
        return Failed(session.error);
      }
      AcquireInSteps(before, ref, topic, group, max);
      queue := Ready(before, ref, topic, group, max);
      ghost var n := ResolveSession(before, ref, topic, group, max).value;
      var out := ScanAndAcquire(topic, group, max, session.value, n);
      return Done(Acquisition(session.value, out));
    }

    /** The first message the session owns under the printed id, or the length. */
    method FindAcquired(id: Text, messageId: Text, ghost session: nat) returns (i: nat)
      requires Carrying(messages, queue.messages, queue.cells) && |messages| == |queue.messages|
      requires SessionsMatch(sessions, nextSessionId, queue.sessions)
      requires session < |queue.sessions| && NamedSession(SessionId, |queue.sessions|, id) == Existing(session)
      ensures i <= |messages|
      ensures i < |messages| <==> Owns(queue, session, Named(messageId))
      ensures i < |messages| ==>
                && IsOwnedBy(messages[i], queue.sessions[session].group, id, messageId)
                && Named(messageId) == Coordinate(queue.messages[i].topic, 0, queue.messages[i].offset)
    {
      NamedSessionMeans(SessionId, |queue.sessions|, id);
      i := FirstOwnedBy(messages, sessions[id].group, id, messageId);
      if i < |messages| {
        OwnedByMeans(messages, queue, session, messageId, i);
      } else {
        NotFoundIsNotOwned(messages, queue, session, messageId);
      }
    }

    method AcknowledgeOne(id: Text, e: AckById, ghost session: nat) returns (r: IdResult)
      requires Carrying(messages, queue.messages, queue.cells) && |messages| == |queue.messages|
      requires Dense(queue.messages) && SessionsMatch(sessions, nextSessionId, queue.sessions)
      requires session < |queue.sessions| && NamedSession(SessionId, |queue.sessions|, id) == Existing(session)
      modifies this`messages, this`queue
      ensures Carrying(messages, queue.messages, queue.cells) && |messages| == |queue.messages|
      ensures queue == AckOne(old(queue), session, AckEntry(Named(e.id), e.ack))
      ensures r == IdResult(e.id, Owns(old(queue), session, Named(e.id)))
    {
      var i := FindAcquired(id, e.id, session);
      r := IdResult(e.id, i < |messages|);
      if i < |messages| {
        var group := sessions[id].group;
        CarryAck(messages, queue, session, i, e.ack);
        var state := match e.ack
          case Release => StateAvailable
          case Reject => StateRejected
          case Accept => StateAccepted;
        var g := messages[i];
        var record := g.deliveries[group].(state := state, sessionId := []);
        messages := messages[i := g.(deliveries := g.deliveries[group := record])];
      }
      queue := AckOne(queue, session, AckEntry(Named(e.id), e.ack));
    }

    method AcknowledgeAll(id: Text, entries: seq<AckById>, ghost session: nat) returns (results: seq<IdResult>)
      requires Carrying(messages, queue.messages, queue.cells) && |messages| == |queue.messages|
      requires Dense(queue.messages) && SessionsMatch(sessions, nextSessionId, queue.sessions)
      requires session < |queue.sessions| && NamedSession(SessionId, |queue.sessions|, id) == Existing(session)
      modifies this`messages, this`queue
      ensures Carrying(messages, queue.messages, queue.cells) && |messages| == |queue.messages|
      ensures var (q, rs) := AckAll(old(queue), session, Coordinates(entries));
              queue == q && |results| == |entries| && VerdictsFirst(IdsOf(entries), results, rs)
    {
      ghost var before, es := queue, Coordinates(entries);
      ghost var rs := AckAll(before, session, es).1;
      AckLength(before, session, es);
      results := [];
      for j := 0 to |entries|
        invariant Carrying(messages, queue.messages, queue.cells) && |messages| == |queue.messages|
        invariant queue == AckAll(before, session, es[..j]).0
        invariant |results| == j && VerdictsFirst(IdsOf(entries), results, rs)
      {
        AckNext(before, session, es, j);
        assert es[j] == AckEntry(Named(entries[j].id), entries[j].ack);
        var result := AcknowledgeOne(id, entries[j], session);
        VerdictsOneMore(IdsOf(entries), results, rs, result);
        results := results + [result];
      }
      assert es[..|entries|] == es;
    }

    method Acknowledge(id: Text, entries: seq<AckById>) returns (r: Outcome<seq<IdResult>>)
      requires Valid()
      modifies this
      ensures Valid()
      ensures var (q, result) := QueueModel.Acknowledge(old(queue), NamedSession(SessionId, |old(queue).sessions|, id),
                                                        Coordinates(entries));
              queue == q && Verdicts(IdsOf(entries), r, result)
    {
      ghost var ref := NamedSession(SessionId, |queue.sessions|, id);
      NamedSessionMeans(SessionId, |queue.sessions|, id);
      StepKeepsOwned(queue, OpAcknowledge(ref, Coordinates(entries)));
      if id !in sessions {
        return Failed(SessionExpired);
      }
      var results := AcknowledgeAll(id, entries, ref.number);
      return Done(results);
    }

    method Renew(id: Text, ids: seq<Text>) returns (r: Outcome<seq<IdResult>>)
      requires Valid()
      ensures Verdicts(ids, r, QueueModel.Renew(queue, NamedSession(SessionId, |queue.sessions|, id), NamedAll(ids)))
    {
      ghost var ref := NamedSession(SessionId, |queue.sessions|, id);
      NamedSessionMeans(SessionId, |queue.sessions|, id);
      if id !in sessions {
        return Failed(SessionExpired);
      }
      ghost var ats, n := NamedAll(ids), ref.number;
      ghost var rs := RenewAll(queue, n, ats);
      var results := [];
      for j := 0 to |ids|
        invariant |results| == j && VerdictsFirst(ids, results, rs)
      {
        assert rs[j] == EntryResult(ats[j], Owns(queue, n, ats[j])) && ats[j] == Named(ids[j]);
        var i := FindAcquired(id, ids[j], n);
        VerdictsOneMore(ids, results, rs, IdResult(ids[j], i < |messages|));
        results := results + [IdResult(ids[j], i < |messages|)];
      }
      return Done(results);
    }
  }
}
