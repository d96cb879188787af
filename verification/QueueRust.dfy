/** The Rust SDK's in-memory queue (crates/app-sdk/src/stubs.rs, `publish_mock` of
    crates/app-sdk/src/messaging.rs): flat vectors of sessions and per-group states. */
module QueueRust {
  import opened Bytes
  import opened QueueModel
  import opened QueueRuns

  const I32_MAX: nat := 0x7FFF_FFFF

  /** `saturating_add` on an `i32` counter that started at zero. */
  function Saturate(n: nat): int { if n <= I32_MAX then n else I32_MAX }

  function SessionId(number: nat): Text { Ascii("mock-queue-session-") + Decimal(number + 1) }

  lemma SessionIdsDiffer()
    ensures Injective(SessionId)
  {
    NumberedIdsDiffer(Ascii("mock-queue-session-"), SessionId);
  }

  datatype QueueMessage = QueueMessage(at: Coordinate, payload: bytes, count: int)

  function Show(d: Delivery): QueueMessage
  {
    QueueMessage(Coordinate(d.message.topic, 0, d.message.offset), d.message.payload, Saturate(d.count))
  }

  ghost predicate ShowsFirst(out: seq<QueueMessage>, ds: seq<Delivery>)
  {
    |out| <= |ds| && forall i :: 0 <= i < |out| ==> out[i] == Show(ds[i])
  }

  lemma ShowsOneMore(out: seq<QueueMessage>, ds: seq<Delivery>, m: QueueMessage)
    requires ShowsFirst(out, ds) && |out| < |ds| && m == Show(ds[|out|])
    ensures ShowsFirst(out + [m], ds)
  {
  }

  lemma {:induction false} AllShown(out: seq<QueueMessage>, ds: seq<Delivery>)
    requires |out| == |ds| && ShowsFirst(out, ds)
    ensures out == Shown(Show, ds)
  {
    if out != [] {
      var n := |out| - 1;
      AllShown(out[..n], ds[..n]);
      assert out == out[..n] + [out[n]];
    }
  }

  datatype MockMessage = MockMessage(topic: Text, partition: int, offset: int, payload: bytes)

  datatype MockSession = MockSession(id: Text, topic: Text, group: Text, maxMessages: nat)

  datatype MockDisposition = MockAvailable | MockAcquired(owner: Text) | MockAccepted | MockRejected

  datatype MockState = MockState(group: Text, delivery: Coordinate, disposition: MockDisposition, count: int)

  // ---- How the vectors represent the queue ----

  function DispositionOf(d: Disposition): MockDisposition
  {
    match d
    case Available => MockAvailable
    case Acquired(s) => MockAcquired(SessionId(s))
    case Accepted => MockAccepted
    case Rejected => MockRejected
  }

  function StateOf(k: Key, c: Cell): MockState
  {
    MockState(k.group, Spot(k), DispositionOf(c.disposition), Saturate(c.deliveries))
  }

  function MessageOf(m: Message): MockMessage { MockMessage(m.topic, 0, m.offset, m.payload) }

  function SessionOf(i: nat, s: Session): MockSession { MockSession(SessionId(i), s.topic, s.group, s.max) }

  ghost predicate MessagesMatch(mock: seq<MockMessage>, messages: seq<Message>)
  {
    |mock| == |messages| && forall i :: 0 <= i < |mock| ==> mock[i] == MessageOf(messages[i])
  }

  ghost predicate SessionsMatch(mock: seq<MockSession>, sessions: seq<Session>)
  {
    |mock| == |sessions| && forall i :: 0 <= i < |mock| ==> mock[i] == SessionOf(i, sessions[i])
  }

  /** One state entry for every cell, at the places listed by `order`. */
  ghost predicate Lists(states: seq<MockState>, order: seq<Key>, cells: map<Key, Cell>)
  {
    && |order| == |states|
    && (forall i, j :: 0 <= i < j < |order| ==> order[i] != order[j])
    && (forall k :: k in order <==> k in cells)
    && (forall i :: 0 <= i < |states| ==> order[i] in cells && states[i] == StateOf(order[i], cells[order[i]]))
  }

  /** `Lists`, sealed like `SpoolFiles.Holds`; `ListingMeans` opens it. */
  ghost predicate Listing(states: seq<MockState>, order: seq<Key>, cells: map<Key, Cell>)
  {
    forall s {:trigger Lists(s, order, cells)} :: s == states ==> Lists(s, order, cells)
  }

  lemma ListingMeans(states: seq<MockState>, order: seq<Key>, cells: map<Key, Cell>)
    ensures Listing(states, order, cells) <==> Lists(states, order, cells)
  {
  }

  lemma ListingSet(states: seq<MockState>, order: seq<Key>, cells: map<Key, Cell>, i: nat, k: Key, c: Cell)
    requires Listing(states, order, cells) && i < |states| == |order| && order[i] == k
    ensures Listing(states[i := StateOf(k, c)], order, cells[k := c])
  {
    ListingMeans(states, order, cells);
    ListingMeans(states[i := StateOf(k, c)], order, cells[k := c]);
  }

  lemma ListingPush(states: seq<MockState>, order: seq<Key>, cells: map<Key, Cell>, k: Key, c: Cell)
    requires Listing(states, order, cells) && k !in cells
    ensures Listing(states + [StateOf(k, c)], order + [k], cells[k := c])
  {
    ListingMeans(states, order, cells);
    ListingMeans(states + [StateOf(k, c)], order + [k], cells[k := c]);
  }

  class Store {
    var messages: seq<MockMessage>
    var sessions: seq<MockSession>
    var states: seq<MockState>
    ghost var order: seq<Key>
    ghost var queue: Queue

    ghost predicate Valid() reads this
    {
      && Owned(queue) && MessagesMatch(messages, queue.messages) && SessionsMatch(sessions, queue.sessions)
      && Listing(states, order, queue.cells)
    }

    constructor ()
      ensures Valid() && queue == EMPTY
    {
      messages, sessions, states, order, queue := [], [], [], [], EMPTY;
    }

    method Publish(topic: Text, payload: bytes) returns (r: Outcome<nat>)
      requires Valid()
      modifies this
      ensures Valid() && (queue, r) == QueueModel.Publish(old(queue), topic, payload)
    {
      if topic == [] {
        return Failed(TopicRequired);
      }
      if topic == MISSING_TOPIC {
        return Failed(TopicNotFound);
      }
      var offset := CountMessages(topic);
      messages := messages + [MockMessage(topic, 0, offset, payload)];
      StepKeepsOwned(queue, OpPublish(topic, payload));
      queue := QueueModel.Publish(queue, topic, payload).0;
      return Done(offset);
    }

    method CountMessages(topic: Text) returns (n: nat)
      requires MessagesMatch(messages, queue.messages)
      ensures n == CountTopic(queue.messages, topic)
    {
      n := 0;
      for i := 0 to |messages|
        invariant n == CountTopic(queue.messages[..i], topic)
      {
        assert queue.messages[..i + 1][..i] == queue.messages[..i];
        if messages[i].topic == topic {
          n := n + 1;
        }
      }
      assert queue.messages[..|messages|] == queue.messages;
    }

    /** `position` of the first state for the group and delivery, or the length. */
    method FindState(group: Text, at: Coordinate) returns (i: nat)
      requires Listing(states, order, queue.cells)
      ensures i <= |states| == |order|
      ensures i < |states| ==>
                && at.partition == 0 && at.offset >= 0 && order[i] == Key(group, at.topic, at.offset)
                && order[i] in queue.cells && states[i] == StateOf(order[i], queue.cells[order[i]])
      ensures i == |states| && at.partition == 0 && at.offset >= 0 ==> Key(group, at.topic, at.offset) !in queue.cells
    {
      ListingMeans(states, order, queue.cells);
      i := 0;
      while i < |states| && (states[i].group != group || states[i].delivery != at)
        invariant 0 <= i <= |states|
        invariant forall j :: 0 <= j < i ==> states[j].group != group || states[j].delivery != at
      {
        i := i + 1;
      }
    }

    method MessageIsAvailable(group: Text, m: MockMessage) returns (b: bool)
      requires Listing(states, order, queue.cells) && m.partition == 0 && m.offset >= 0
      ensures b <==> CellOf(queue, Key(group, m.topic, m.offset)).disposition == Available
    {
      var i := FindState(group, Coordinate(m.topic, m.partition, m.offset));
      b := i == |states| || states[i].disposition == MockAvailable;
    }

    /** The session for an acquire: the one asked for, or a new one. */
    method SessionFor(requested: Text, topic: Text, group: Text, max: nat) returns (r: Outcome<Text>)
      requires Valid()
      modifies this`sessions
      ensures var ref := RefOf(SessionId, |queue.sessions|, requested);
              var resolved := ResolveSession(queue, ref, topic, group, max);
              match resolved
              case Failed(e) => r == Failed(e) && sessions == old(sessions)
              case Done(n) =>
                && r == Done(SessionId(n))
                && SessionsMatch(sessions, Ready(queue, ref, topic, group, max).sessions)
    {
      if requested != [] {
        var i := FindSession(requested);
        NamedSessionMeans(SessionId, |sessions|, requested);
        SessionIdsDiffer();
        if i == |sessions| {
          return Failed(SessionExpired);
        }
        if sessions[i].topic != topic || sessions[i].group != group {
          return Failed(GroupAndTopicFixed);
        }
        if max != 0 && Clamp(max) != sessions[i].maxMessages {
          return Failed(MaxFixed);
        }
        return Done(requested);
      }
      var id := SessionId(|sessions|);
      sessions := sessions + [MockSession(id, topic, group, Clamp(max))];
      return Done(id);
    }

    method FindSession(id: Text) returns (i: nat)
      requires Valid()
      ensures i <= |sessions|
      ensures i < |sessions| ==> NamedSession(SessionId, |sessions|, id) == Existing(i) && sessions[i].id == id
      ensures i == |sessions| ==> NamedSession(SessionId, |sessions|, id) == Unknown
    {
      SessionIdsDiffer();
      NamedSessionMeans(SessionId, |sessions|, id);
      i := 0;
      while i < |sessions| && sessions[i].id != id
        invariant 0 <= i <= |sessions|
        invariant forall j :: 0 <= j < i ==> SessionId(j) != id
      {
        assert sessions[i].id == SessionId(i);
        i := i + 1;
      }
      if i < |sessions| {
        assert sessions[i].id == SessionId(i);
      }
    }

    /** The read-only pass: which messages will be delivered. */
    method SelectMessages(topic: Text, group: Text, max: nat) returns (picked: seq<MockMessage>)
      requires MessagesMatch(messages, queue.messages) && Listing(states, order, queue.cells)
      ensures var ms := SelectedMessages(queue, topic, group, max);
              |picked| == |ms| && forall i :: 0 <= i < |ms| ==> picked[i] == MessageOf(ms[i])
    {
      picked := [];
      var i := 0;
      ghost var idx := [];
      while i < |messages| && |picked| < Clamp(max)
        invariant 0 <= i <= |messages|
        invariant idx == AvailableUpTo(queue, topic, group, i) && |idx| == |picked| <= Clamp(max)
        invariant forall j :: 0 <= j < |idx| ==> idx[j] < i && picked[j] == MessageOf(queue.messages[idx[j]])
      {
        assert messages[i] == MessageOf(queue.messages[i]);
        var available := false;
        if messages[i].topic == topic {
          available := MessageIsAvailable(group, messages[i]);
        }
        if available {
          picked := picked + [messages[i]];
          idx := idx + [i];
        }
        i := i + 1;
      }
      SelectedByPrefix(queue, topic, group, max, i);
    }

    /** Marks one message acquired and counts the delivery. */
    method DeliverOne(group: Text, id: Text, m: MockMessage, ghost session: nat, ghost original: Message)
      returns (count: int)
      requires Listing(states, order, queue.cells) && id == SessionId(session) && m == MessageOf(original)
      modifies this`states, this`order, this`queue
      ensures Listing(states, order, queue.cells) && queue == Deliver(old(queue), group, session, original)
      ensures count == Saturate(CellOf(old(queue), KeyOf(group, original)).deliveries + 1)
    {
      var at := Coordinate(m.topic, m.partition, m.offset);
      ghost var k := KeyOf(group, original);
      ghost var cell := Cell(Acquired(session), CellOf(queue, k).deliveries + 1);
      var i := FindState(group, at);
      if i < |states| {
        count := if states[i].count < I32_MAX then states[i].count + 1 else I32_MAX;
        ListingSet(states, order, queue.cells, i, k, cell);
        states := states[i := states[i].(disposition := MockAcquired(id), count := count)];
      } else {
        count := 1;
        ListingPush(states, order, queue.cells, k, cell);
        states := states + [MockState(group, at, MockAcquired(id), count)];
        order := order + [k];
      }
      queue := Deliver(queue, group, session, original);
    }

    /** The mutating pass over the selected messages. */
    method DeliverSelected(topic: Text, group: Text, max: nat, id: Text, ghost session: nat)
      returns (out: seq<QueueMessage>)
      requires Dense(queue.messages) && MessagesMatch(messages, queue.messages)
      requires Listing(states, order, queue.cells) && id == SessionId(session)
      modifies this`states, this`order, this`queue
      ensures var ms := SelectedMessages(old(queue), topic, group, max);
              && queue == DeliverAll(old(queue), group, session, ms)
              && out == Shown(Show, Deliveries(old(queue), group, ms))
      ensures Listing(states, order, queue.cells)
    {
      ghost var before, ms := queue, SelectedMessages(queue, topic, group, max);
      ghost var ds := Deliveries(before, group, ms);
      var picked := SelectMessages(topic, group, max);
      SelectedAreDistinct(before, topic, group, max);
      out := [];
      for j := 0 to |picked|
        invariant queue == DeliverAll(before, group, session, ms[..j]) && Listing(states, order, queue.cells)
        invariant |out| == j && ShowsFirst(out, ds)
      {
        DeliverNext(before, group, session, ms, j);
        assert ds[j] == Delivery(ms[j], CellOf(queue, KeyOf(group, ms[j])).deliveries + 1);
        var count := DeliverOne(group, id, picked[j], session, ms[j]);
        var m := QueueMessage(Coordinate(picked[j].topic, picked[j].partition, picked[j].offset), picked[j].payload, count);
        ShowsOneMore(out, ds, m);
        out := out + [m];
      }
      assert ms[..|picked|] == ms;
      AllShown(out, ds);
    }

    /** An acquire whose session is settled. */
    method AcquireFor(topic: Text, group: Text, max: nat, id: Text, ghost ref: SessionRef) returns (out: seq<QueueMessage>)
      requires Owned(queue) && MessagesMatch(messages, queue.messages) && Listing(states, order, queue.cells)
      requires var resolved := ResolveSession(queue, ref, topic, group, max);
               && resolved.Done? && id == SessionId(resolved.value)
               && SessionsMatch(sessions, Ready(queue, ref, topic, group, max).sessions)
      modifies this`states, this`order, this`queue
      ensures Valid()
      ensures var (q, result) := QueueModel.Acquire(old(queue), ref, topic, group, max);
              queue == q && Done(Acquisition(id, out)) == Spelled(SessionId, Show, result)
    {
      ghost var n := ResolveSession(queue, ref, topic, group, max).value;
      AcquireInSteps(queue, ref, topic, group, max);
      queue := Ready(queue, ref, topic, group, max);
      out := DeliverSelected(topic, group, max, id, n);
    }

    method Acquire(topic: Text, group: Text, max: nat, requested: Text) returns (r: Outcome<Acquisition<QueueMessage>>)
      requires Valid()
      modifies this
      ensures Valid()
      ensures var (q, result) := QueueModel.Acquire(old(queue), RefOf(SessionId, |old(queue).sessions|, requested),
                                                    topic, group, max);
              queue == q && r == Spelled(SessionId, Show, result)
    {
      ghost var ref := RefOf(SessionId, |queue.sessions|, requested);
      var session := SessionFor(requested, topic, group, max);
      if session.Failed? {
        return Failed(session.error);
      }
      var out := AcquireFor(topic, group, max, session.value, ref);
      return Done(Acquisition(session.value, out));
    }

    /** The index of the state the session owns at `at`, or the length. */
    method FindOwned(group: Text, at: Coordinate, id: Text, ghost session: nat) returns (i: nat)
      requires Listing(states, order, queue.cells) && id == SessionId(session)
      requires session < |queue.sessions| && queue.sessions[session].group == group
      ensures i <= |states| == |order|
      ensures i < |states| <==> Owns(queue, session, at)
      ensures i < |states| ==>
                && order[i] == Key(group, at.topic, at.offset) && order[i] in queue.cells
                && states[i] == StateOf(order[i], queue.cells[order[i]])
    {
      ListingMeans(states, order, queue.cells);
      SessionIdsDiffer();
      i := 0;
      while i < |states|
            && !(states[i].group == group && states[i].delivery == at && states[i].disposition == MockAcquired(id))
        invariant 0 <= i <= |states|
        invariant forall j :: 0 <= j < i ==>
          !(states[j].group == group && states[j].delivery == at && states[j].disposition == MockAcquired(id))
      {
        i := i + 1;
      }
    }

    method AcknowledgeOne(group: Text, id: Text, e: AckEntry, ghost session: nat) returns (ok: bool)
      requires Listing(states, order, queue.cells) && id == SessionId(session)
      requires session < |queue.sessions| && queue.sessions[session].group == group
      modifies this`states, this`queue
      ensures Listing(states, order, queue.cells) && queue == AckOne(old(queue), session, e)
      ensures ok == Owns(old(queue), session, e.at)
    {
      var i := FindOwned(group, e.at, id, session);
      ok := i < |states|;
      if ok {
        ghost var k := order[i];
        ListingSet(states, order, queue.cells, i, k, queue.cells[k].(disposition := Settled(e.ack)));
        var settled := match e.ack
          case Accept => MockAccepted
          case Release => MockAvailable
          case Reject => MockRejected;
        states := states[i := states[i].(disposition := settled)];
      }
      queue := AckOne(queue, session, e);
    }

    method Acknowledge(id: Text, entries: seq<AckEntry>) returns (r: Outcome<seq<EntryResult>>)
      requires Valid()
      modifies this
      ensures Valid()
      ensures (queue, r) == QueueModel.Acknowledge(old(queue), NamedSession(SessionId, |old(queue).sessions|, id), entries)
    {
      ghost var before, ref := queue, NamedSession(SessionId, |queue.sessions|, id);
      StepKeepsOwned(before, OpAcknowledge(ref, entries));
      var s := FindSession(id);
      if s == |sessions| {
        return Failed(SessionExpired);
      }
      var results := [];
      for j := 0 to |entries|
        invariant AckAll(before, s, entries[..j]) == (queue, results)
        invariant Listing(states, order, queue.cells)
        invariant messages == old(messages) && sessions == old(sessions)
      {
        assert entries[..j + 1][..j] == entries[..j];
        var ok := AcknowledgeOne(sessions[s].group, id, entries[j], s);
        results := results + [EntryResult(entries[j].at, ok)];
      }
      assert entries[..|entries|] == entries;
      return Done(results);
    }

    method Renew(id: Text, ats: seq<Coordinate>) returns (r: Outcome<seq<EntryResult>>)
      requires Valid()
      ensures r == QueueModel.Renew(queue, NamedSession(SessionId, |queue.sessions|, id), ats)
    {
      var s := FindSession(id);
      if s == |sessions| {
        return Failed(SessionExpired);
      }
      var results := [];
      for j := 0 to |ats|
        invariant results == RenewAll(queue, s, ats[..j])
      {
        assert ats[..j + 1][..j] == ats[..j];
        var i := FindOwned(sessions[s].group, ats[j], id, s);
        results := results + [EntryResult(ats[j], i < |states|)];
      }
      assert ats[..|ats|] == ats;
      return Done(results);
    }
  }
}
