/** Crashes and restarts. A new life of the writer takes its chain position from the spool
    (`Spool::resume_point`), else from the tail of the partition
    (crates/broker/src/audit_recovery.rs), else from genesis (crates/broker/src/broker.rs). */
module AuditRestart {
  import opened Bytes
  import opened AuditChain
  import opened AuditRecords
  import opened AuditCheckpoints
  import opened SpoolFiles
  import opened AuditSpool
  import opened AuditVerify
  import opened AuditWriters
  import opened AuditRuns
  import opened AuditEndToEnd
  import opened LogRead

  // ---- Reading the position back ----

  function TailPosition(sha: Sha256, r: LogRecord): Option<Chain>
  {
    if IsCheckpoint(r) then None
    else match (SeqHeader(r), PrevHeader(r))
      case (Some(seqNo), Some(prev)) => Some(Extend(sha, Chain(seqNo, prev), ValueOf(r)))
      case _ => None
  }

  /** The position after the last chained record of the log tail that was read. */
  function RecoverFromTail(sha: Sha256, tail: seq<LogRecord>): Option<Chain>
  {
    LastPosition(r => TailPosition(sha, r), tail)
  }

  method ReadTail(sha: Sha256, tail: seq<LogRecord>) returns (last: Option<Chain>)
    ensures last == RecoverFromTail(sha, tail)
  {
    last := None;
    for i := 0 to |tail|
      invariant last == RecoverFromTail(sha, tail[..i])
    {
      assert tail[..i + 1][..i] == tail[..i];
      var c := TailPosition(sha, tail[i]);
      if c.Some? {
        last := c;
      }
    }
    assert tail[..|tail|] == tail;
  }

  /** The elements that were read, `read` being their offsets. */
  function Selected<T>(log: seq<T>, read: seq<nat>): (tail: seq<T>)
    requires forall q :: 0 <= q < |read| ==> read[q] < |log|
    ensures |tail| == |read| && forall q :: 0 <= q < |read| ==> tail[q] == log[read[q]]
  {
    seq(|read|, q requires 0 <= q < |read| => log[read[q]])
  }

  /** Where a restarted writer resumes when the tail read returned the records at the offsets `read`,
      in order and possibly with gaps. A failed read returns none. */
  function RestartChain(sha: Sha256, sink: seq<AuditRecord>, spool: seq<AuditRecord>, read: seq<nat>): Chain
    requires Increasing(read, |sink|)
  {
    match ResumePointOf(sha, spool)
    case Some(c) => c
    case None =>
      match RecoverFromTail(sha, Selected(Published(sink), read))
      case Some(c) => c
      case None => GENESIS
  }

  lemma {:induction false} CheckpointsChainNothing(rs: seq<AuditRecord>, k: nat)
    requires k <= |rs| && forall i :: k <= i < |rs| ==> !rs[i].IsChained()
    ensures ChainedValues(rs) == ChainedValues(rs[..k])
  {
    if k < |rs| {
      CheckpointsChainNothing(rs[..|rs| - 1], k);
      assert rs[..|rs| - 1][..k] == rs[..k];
      assert ChainedValues(rs) == ChainedValues(rs[..|rs| - 1]) + [];
    } else {
      assert rs[..k] == rs;
    }
  }

  ghost predicate LastChainedAt(rs: seq<AuditRecord>, t: nat)
  {
    t < |rs| && rs[t].IsChained() && forall i :: t < i < |rs| ==> !rs[i].IsChained()
  }

  lemma {:induction false} LastChained(rs: seq<AuditRecord>) returns (t: nat)
    ensures ChainedCount(rs) > 0 ==> LastChainedAt(rs, t)
    ensures ChainedCount(rs) == 0 ==> forall i :: 0 <= i < |rs| ==> !rs[i].IsChained()
  {
    t := 0;
    if rs != [] {
      t := LastChained(rs[..|rs| - 1]);
      if rs[|rs| - 1].IsChained() {
        t := |rs| - 1;
      }
    }
  }

  /** A line of records that are right from genesis on, whatever its checkpoints attest. */
  ghost predicate RightLine(sha: Sha256, rs: seq<AuditRecord>) { GoodFrom(sha, RightPlace(sha), GENESIS, rs) }

  lemma LineIsRight(env: Env, trusted: TrustedKeys, rs: seq<AuditRecord>)
    requires GoodLine(env, trusted, rs)
    ensures RightLine(env.sha, rs)
  {
    GoodLineMeans(env, trusted, rs);
    GoodIsRight(env, trusted, GENESIS, rs);
  }

  /** The chain after a right line is the position that its last chained record resumes to. */
  lemma RightAtLast(sha: Sha256, c: Chain, rs: seq<AuditRecord>, t: nat)
    requires GoodFrom(sha, RightPlace(sha), c, rs) && LastChainedAt(rs, t)
    ensures RightRecord(sha, rs[t], ChainAfter(sha, c, rs[..t]))
    ensures ChainAfter(sha, c, rs) == Extend(sha, ChainAfter(sha, c, rs[..t]), rs[t].value)
  {
    assert RightPlace(sha)(rs[t], ChainAfter(sha, c, rs[..t]));
    PrefixSnoc(rs, t);
    ChainAfterSnoc(sha, c, rs[..t], rs[t]);
    CheckpointsChainNothing(rs, t + 1);
  }

  lemma PrefixSnoc(rs: seq<AuditRecord>, t: nat)
    requires t < |rs|
    ensures rs[..t + 1] == rs[..t] + [rs[t]]
  {
  }

  lemma ResumeOfRight(sha: Sha256, c: Chain, rs: seq<AuditRecord>)
    requires GoodFrom(sha, RightPlace(sha), c, rs)
    ensures ResumePointOf(sha, rs) == if ChainedCount(rs) == 0 then None else Some(ChainAfter(sha, c, rs))
  {
    var f := (r: AuditRecord) => ResumeFromRecord(sha, r);
    var t := LastChained(rs);
    if ChainedCount(rs) == 0 {
      LastPositionNone(f, rs);
    } else {
      RightAtLast(sha, c, rs, t);
      LastPositionAt(f, rs, t);
    }
  }

  lemma PublishedPosition(sha: Sha256, rs: seq<AuditRecord>, i: nat)
    requires RightLine(sha, rs) && i < |rs|
    ensures TailPosition(sha, Published(rs)[i]) ==
            if rs[i].IsChained() then Some(Extend(sha, ChainAfter(sha, GENESIS, rs[..i]), rs[i].value)) else None
  {
    assert RightPlace(sha)(rs[i], ChainAfter(sha, GENESIS, rs[..i]));
  }

  /** The sink has no chained record, or the last one was read. */
  ghost predicate TailReaches(sink: seq<AuditRecord>, read: seq<nat>)
  {
    ChainedCount(sink) == 0 || exists q :: 0 <= q < |read| && LastChainedAt(sink, read[q])
  }

  /** The last chained record that was read, as number `q` of those read. */
  ghost predicate LastReadAt(sink: seq<AuditRecord>, read: seq<nat>, q: nat)
    requires Increasing(read, |sink|)
  {
    q < |read| && LastChainedAt(Selected(sink, read), q)
  }

  lemma {:induction false} LastRead(sink: seq<AuditRecord>, read: seq<nat>) returns (q: nat)
    requires Increasing(read, |sink|)
    ensures LastReadAt(sink, read, q) || forall i :: 0 <= i < |read| ==> !sink[read[i]].IsChained()
  {
    var tail := Selected(sink, read);
    q := LastChained(tail);
    if ChainedCount(tail) == 0 {
      forall i | 0 <= i < |read| ensures !sink[read[i]].IsChained() {
        assert tail[i] == sink[read[i]];
      }
    }
  }

  lemma {:induction false} PositionsRead(sha: Sha256, sink: seq<AuditRecord>, read: seq<nat>, q: nat)
    requires RightLine(sha, sink) && Increasing(read, |sink|) && q < |read|
    ensures TailPosition(sha, Selected(Published(sink), read)[q]) ==
            if sink[read[q]].IsChained()
            then Some(Extend(sha, ChainAfter(sha, GENESIS, sink[..read[q]]), sink[read[q]].value)) else None
  {
    PublishedPosition(sha, sink, read[q]);
  }

  /** What the tail read finds: the position after the last chained record that was read. */
  lemma {:induction false} RecoverOfRead(sha: Sha256, sink: seq<AuditRecord>, read: seq<nat>) returns (q: nat)
    requires RightLine(sha, sink) && Increasing(read, |sink|)
    ensures var found := RecoverFromTail(sha, Selected(Published(sink), read));
            if found.Some? then
              && LastReadAt(sink, read, q)
              && found.value == Extend(sha, ChainAfter(sha, GENESIS, sink[..read[q]]), sink[read[q]].value)
            else forall i :: 0 <= i < |read| ==> !sink[read[i]].IsChained()
  {
    var f, tail := (r: LogRecord) => TailPosition(sha, r), Selected(Published(sink), read);
    forall i | 0 <= i < |read| ensures f(tail[i]).Some? <==> sink[read[i]].IsChained() {
      PositionsRead(sha, sink, read, i);
    }
    q := LastRead(sink, read);
    if LastReadAt(sink, read, q) {
      forall i | q < i < |tail| ensures f(tail[i]).None? {
        assert !Selected(sink, read)[i].IsChained();
      }
      assert Selected(sink, read)[q].IsChained();
      PositionsRead(sha, sink, read, q);
      LastPositionAt(f, tail, q);
    } else {
      LastPositionNone(f, tail);
    }
  }

  lemma ChainCounts(sha: Sha256, rs: seq<AuditRecord>)
    ensures ChainAfter(sha, GENESIS, rs).nextSeq == ChainedCount(rs)
    ensures ChainedCount(rs) == 0 ==> ChainAfter(sha, GENESIS, rs) == GENESIS
  {
    FoldCounts(sha, GENESIS, ChainedValues(rs));
  }

  /** The chain after chained record `t` is the chain after everything exactly when `t` is the last. */
  lemma {:induction false} BehindUnlessLast(sha: Sha256, rs: seq<AuditRecord>, t: nat)
    requires t < |rs| && rs[t].IsChained()
    ensures var c, end := Extend(sha, ChainAfter(sha, GENESIS, rs[..t]), rs[t].value), ChainAfter(sha, GENESIS, rs);
            if LastChainedAt(rs, t) then c == end else c.nextSeq < end.nextSeq
  {
    PrefixSnoc(rs, t);
    ChainAfterSnoc(sha, GENESIS, rs[..t], rs[t]);
    if LastChainedAt(rs, t) {
      CheckpointsChainNothing(rs, t + 1);
    } else {
      var j :| t < j < |rs| && rs[j].IsChained();
      CountGrows(rs, t + 1, j);
      ChainCounts(sha, rs);
      ChainCounts(sha, rs[..t + 1]);
    }
  }

  lemma {:induction false} CountGrows(rs: seq<AuditRecord>, k: nat, j: nat)
    requires k <= j < |rs| && rs[j].IsChained()
    ensures ChainedCount(rs[..k]) < ChainedCount(rs)
  {
    assert rs == rs[..j] + [rs[j]] + rs[j + 1..] && rs[..j] == rs[..k] + rs[k..j];
    ChainedValuesConcat(rs[..k], rs[k..j]);
    ChainedValuesConcat(rs[..j] + [rs[j]], rs[j + 1..]);
    ChainedValuesSnoc(rs[..j], rs[j]);
  }

  /** When the last chained record that was read is the last of the sink. */
  lemma {:induction false} ReachesIff(sink: seq<AuditRecord>, read: seq<nat>, q: nat)
    requires Increasing(read, |sink|) && LastReadAt(sink, read, q)
    ensures sink[read[q]].IsChained() && (TailReaches(sink, read) <==> LastChainedAt(sink, read[q]))
  {
    assert Selected(sink, read)[q] == sink[read[q]];
    CountGrows(sink, read[q], read[q]);
    if i :| 0 <= i < |read| && LastChainedAt(sink, read[i]) {
      assert Selected(sink, read)[i] == sink[read[i]];
    }
  }

  /** What the tail read finds, and when it is the chain after the sink. */
  lemma {:induction false} TailReadIff(sha: Sha256, sink: seq<AuditRecord>, read: seq<nat>)
    requires RightLine(sha, sink) && Increasing(read, |sink|)
    ensures var found := RecoverFromTail(sha, Selected(Published(sink), read));
            var c, end := (if found.Some? then found.value else GENESIS), ChainAfter(sha, GENESIS, sink);
            && (c == end <==> TailReaches(sink, read))
            && (c != end ==> c.nextSeq < end.nextSeq)
  {
    var q := RecoverOfRead(sha, sink, read);
    ChainCounts(sha, sink);
    if RecoverFromTail(sha, Selected(Published(sink), read)).Some? {
      ReachesIff(sink, read, q);
      BehindUnlessLast(sha, sink, read[q]);
    }
  }

  /** A restart finds the chain position after everything that survived if and only if the spool
      holds a chained record or the tail read returned the last one in the sink. Otherwise it
      resumes at a sequence number that was already used. */
  lemma {:induction false} RestartFindsChainIff(sha: Sha256, sink: seq<AuditRecord>, spool: seq<AuditRecord>,
                                                read: seq<nat>)
    requires RightLine(sha, sink + spool) && Increasing(read, |sink|)
    ensures var c, end := RestartChain(sha, sink, spool, read), ChainAfter(sha, GENESIS, sink + spool);
            && (c == end <==> ChainedCount(spool) > 0 || TailReaches(sink, read))
            && (c != end ==> c.nextSeq < end.nextSeq)
  {
    GoodConcat(sha, RightPlace(sha), GENESIS, sink, spool);
    ResumeOfRight(sha, ChainAfter(sha, GENESIS, sink), spool);
    ChainAfterConcat(sha, GENESIS, sink, spool);
    if ChainedCount(spool) == 0 {
      assert ChainedValues(spool) == [];
      TailReadIff(sha, sink, read);
    }
  }

  // ---- The configured tail read ----

  /** `tail_window_start`. */
  function TailStart(end: nat, window: int): (start: nat)
    ensures start <= end
  {
    if end - window < 0 then 0 else if window < 0 then end else end - window
  }

  /** The partition log holds the sink's records at their offsets. */
  predicate LogHolds(log: Log, sink: seq<AuditRecord>) { Adjoining(0, log.Segments()) && EndOf(0,
                     log.Segments()) == |sink| }

  /** The offsets that the configured tail read returns. */
  ghost function TailRead(log: Log, sink: seq<AuditRecord>, window: int, budget: nat): (read: seq<nat>)
    requires LogHolds(log, sink)
    ensures Increasing(read, |sink|)
  {
    ReadOrdered(0, log.Segments(), TailStart(|sink|, window), budget);
    OffsetsIncrease(ReadFrom(log.Segments(), TailStart(|sink|, window), budget), 0, |sink|);
    Offsets(ReadFrom(log.Segments(), TailStart(|sink|, window), budget))
  }

  /** Recovery over the batches of the log, as the program runs it. */
  method RecoverFromLog(sha: Sha256, log: Log, sink: seq<AuditRecord>, window: int, budget: nat) returns (last: Option<Chain>)
    requires LogHolds(log, sink)
    ensures last == RecoverFromTail(sha, Selected(Published(sink), TailRead(log, sink, window, budget)))
  {
    if |sink| == 0 {
      AdjoiningValid(0, log.Segments());
      ReadNothing(log.Segments(), TailStart(0, window), budget);
      return None;
    }
    var batches := Read(log, TailStart(|sink|, window), budget);
    var offsets := Offsets(batches);
    assert offsets == TailRead(log, sink, window, budget);
    last := ReadTail(sha, Selected(Published(sink), offsets));
  }

  /** With the configured window and byte budget: the restart finds the chain exactly when the spool
      holds a chained record or the read returned the last one. For that it is enough that the window
      holds a chained record and `Fits`: the window, and in its first segment also what the sparse
      index adds before it, stay within the budget. */
  lemma {:induction false} RestartWithinBudget(sha: Sha256, log: Log, sink: seq<AuditRecord>, spool: seq<AuditRecord>,
                                               window: int, budget: nat)
    requires RightLine(sha, sink + spool) && LogHolds(log, sink)
    ensures var from, read := TailStart(|sink|, window), TailRead(log, sink, window, budget);
            && (RestartChain(sha, sink, spool, read) == ChainAfter(sha, GENESIS, sink + spool) <==>
                  ChainedCount(spool) > 0 || TailReaches(sink, read))
            && AllValid(log.Segments())
            && (Fits(log.Segments(), from, budget) && ChainedCount(sink[from..]) > 0 ==> TailReaches(sink, read))
  {
    var from, read := TailStart(|sink|, window), TailRead(log, sink, window, budget);
    RestartFindsChainIff(sha, sink, spool, read);
    AdjoiningValid(0, log.Segments());
    if Fits(log.Segments(), from, budget) && ChainedCount(sink[from..]) > 0 {
      var t := LastInWindow(sink, from);
      ReadsAllIff(log.Segments(), 0, from, budget);
      assert Covers(ReadFrom(log.Segments(), from, budget), t);
      OffsetsAreCovered(ReadFrom(log.Segments(), from, budget), t);
      var q :| 0 <= q < |read| && read[q] == t;
    }
  }

  lemma {:induction false} LastInWindow(sink: seq<AuditRecord>, from: nat) returns (t: nat)
    requires from <= |sink| && ChainedCount(sink[from..]) > 0
    ensures from <= t && LastChainedAt(sink, t)
  {
    var k := LastChained(sink[from..]);
    t := from + k;
    forall i | t < i < |sink| ensures !sink[i].IsChained() {
      assert sink[from..][i - from] == sink[i];
    }
  }

  // ---- Resuming from the spool alone, drops included ----

  /** The last chained record emitted is kept as number `q` and is still in the spool. */
  ghost predicate LastChainedIsSpooled(line0: seq<AuditRecord>, w: Writer, q: nat)
  {
    q < |w.kept| && |line0| + q >= |w.sink| && LastChainedAt(w.emitted, w.kept[q])
  }

  lemma SpooledAt(cfg: Config, sink0: seq<AuditRecord>, spool0: seq<AuditRecord>, w: Writer, q: nat)
    requires Delivered(cfg, sink0, spool0, w) && q < |w.kept| && |sink0 + spool0| + q >= |w.sink|
    ensures var t := |sink0 + spool0| + q - |w.sink|;
            t < |w.spool| && w.spool[t] == w.emitted[w.kept[q]]
  {
    var line, t := sink0 + spool0 + Pick(w.emitted, w.kept), |sink0 + spool0| + q - |w.sink|;
    assert line[|sink0 + spool0| + q] == Pick(w.emitted, w.kept)[q];
    assert (w.sink + w.spool)[|w.sink| + t] == w.spool[t];
  }

  lemma SpoolEndsLikeLog(cfg: Config, sink0: seq<AuditRecord>, spool0: seq<AuditRecord>, w: Writer, q: nat)
    requires Delivered(cfg, sink0, spool0, w) && LastChainedIsSpooled(sink0 + spool0, w, q)
    ensures LastChainedAt(w.spool, |sink0 + spool0| + q - |w.sink|)
  {
    var base := |sink0 + spool0|;
    SpooledAt(cfg, sink0, spool0, w, q);
    var t := base + q - |w.sink|;
    forall i | t < i < |w.spool| ensures !w.spool[i].IsChained() {
      assert |w.sink + w.spool| == base + |w.kept|;
      SpooledAt(cfg, sink0, spool0, w, q + (i - t));
    }
  }

  lemma ResumePointOfDelivered(cfg: Config, c: Chain, sink0: seq<AuditRecord>, spool0: seq<AuditRecord>, w: Writer,
                               q: nat)
    requires Delivered(cfg, sink0, spool0, w) && Stamped(cfg, RightPlace(cfg.env.sha), c, w)
    requires LastChainedIsSpooled(sink0 + spool0, w, q)
    ensures ResumePointOf(cfg.env.sha, w.spool) == Some(w.chain)
  {
    SpooledAt(cfg, sink0, spool0, w, q);
    SpoolEndsLikeLog(cfg, sink0, spool0, w, q);
    RightAtLast(cfg.env.sha, c, w.emitted, w.kept[q]);
    LastPositionAt(r => ResumeFromRecord(cfg.env.sha, r), w.spool, |sink0 + spool0| + q - |w.sink|);
  }

  /** Whenever the last chained record a run emitted is in the spool, the resume point is the writer's
      own next sequence number and head, through decimal and hex text, even after drops and whoever
      signs. */
  lemma ResumePointIsChain(cfg: Config, c: Chain, sink0: seq<AuditRecord>, spool0: seq<AuditRecord>, bytes0: nat,
                           actions: seq<Action>, q: nat)
    requires (cfg.spoolCap.None? ==> spool0 == []) && c.nextSeq + |actions| <= U64_LIMIT
    requires LastChainedIsSpooled(sink0 + spool0, Run(cfg, Start(c, sink0, spool0, bytes0), actions), q)
    ensures var w := Run(cfg, Start(c, sink0, spool0, bytes0), actions);
            ResumePointOf(cfg.env.sha, w.spool) == Some(w.chain)
  {
    RunDelivers(cfg, c, sink0, spool0, bytes0, actions);
    WriterStampsRight(cfg);
    RunStamps(cfg, RightPlace(cfg.env.sha), Start(c, sink0, spool0, bytes0), actions);
    ResumePointOfDelivered(cfg, c, sink0, spool0, Run(cfg, Start(c, sink0, spool0, bytes0), actions), q);
  }

  // ---- The continuation is determined by the position ----

  function ChainedRecords(rs: seq<AuditRecord>): seq<AuditRecord>
  {
    if rs == [] then []
    else ChainedRecords(rs[..|rs| - 1]) + (if rs[|rs| - 1].IsChained() then [rs[|rs| - 1]] else [])
  }

  function EventsOf(actions: seq<Action>): seq<AuditEvent>
  {
    if actions == [] then []
    else
      var a := actions[|actions| - 1];
      EventsOf(actions[..|actions| - 1]) + (if a.Receive? then [a.event] else [])
  }

  /** The records for `events` stamped one after another from `c`. */
  function StampAll(sha: Sha256, c: Chain, events: seq<AuditEvent>): (seq<AuditRecord>, Chain)
  {
    if events == [] then ([], c)
    else
      var (rs, d) := StampAll(sha, c, events[..|events| - 1]);
      var e := events[|events| - 1];
      (rs + [Stamp(e, d)], Extend(sha, d, e.ocsf))
  }

  lemma ChainedRecordsSnoc(rs: seq<AuditRecord>, r: AuditRecord)
    ensures ChainedRecords(rs + [r]) == if r.IsChained() then ChainedRecords(rs) + [r] else ChainedRecords(rs)
  {
    assert (rs + [r])[..|rs|] == rs;
    assert ChainedRecords(rs) + [] == ChainedRecords(rs);
  }

  lemma StampAllSnoc(sha: Sha256, c: Chain, events: seq<AuditEvent>, e: AuditEvent)
    ensures StampAll(sha, c, events + [e]) ==
            (StampAll(sha, c, events).0 + [Stamp(e, StampAll(sha, c, events).1)],
             Extend(sha, StampAll(sha, c, events).1, e.ocsf))
  {
    assert (events + [e])[..|events|] == events;
  }

  /** `w` has emitted exactly the stamped records for `events`, from position `c`. */
  ghost predicate Determined(sha: Sha256, c: Chain, events: seq<AuditEvent>, w: Writer)
  {
    ChainedRecords(w.emitted) == StampAll(sha, c, events).0 && w.chain == StampAll(sha, c, events).1
  }

  lemma WriteEventDetermined(cfg: Config, c: Chain, events: seq<AuditEvent>, w: Writer, e: AuditEvent)
    requires Determined(cfg.env.sha, c, events, w)
    ensures Determined(cfg.env.sha, c, events + [e], WriteChained(cfg, w, e))
  {
    ChainedRecordsSnoc(w.emitted, Stamp(e, w.chain));
    StampAllSnoc(cfg.env.sha, c, events, e);
  }

  lemma WriteCheckpointDetermined(cfg: Config, c: Chain, events: seq<AuditEvent>, w: Writer, now: Millis)
    requires Determined(cfg.env.sha, c, events, w)
    ensures Determined(cfg.env.sha, c, events, EmitCheckpoint(cfg, w, now))
  {
    if cfg.signer.Some? {
      ChainedRecordsSnoc(w.emitted, NextCheckpoint(cfg, w.chain, now));
    }
  }

  lemma ActDetermined(cfg: Config, c: Chain, events: seq<AuditEvent>, w: Writer, a: Action)
    requires Determined(cfg.env.sha, c, events, w)
    ensures Determined(cfg.env.sha, c, if a.Receive? then events + [a.event] else events, Act(cfg, w, a))
  {
    match a
    case Receive(e, now) =>
      WriteEventDetermined(cfg, c, events, w, e);
      WriteCheckpointDetermined(cfg, c, events + [e], WriteChained(cfg, w, e), now);
    case CheckpointTick(now) =>
      WriteCheckpointDetermined(cfg, c, events, w, now);
    case ReplayTick =>
  }

  lemma EventsSnoc(actions: seq<Action>)
    requires actions != []
    ensures var n := |actions| - 1; var events := EventsOf(actions[..n]);
            EventsOf(actions) == if actions[n].Receive? then events + [actions[n].event] else events
  {
  }

  /** Which chained records a run emits depends only on the chain position it starts from and the
      events it receives: not on the sink, the spool, ticks, failures or checkpoints. */
  lemma {:induction false} EmissionIsDetermined(cfg: Config, w0: Writer, actions: seq<Action>)
    requires w0.emitted == []
    ensures Determined(cfg.env.sha, w0.chain, EventsOf(actions), Run(cfg, w0, actions))
  {
    if actions != [] {
      var n := |actions| - 1;
      EmissionIsDetermined(cfg, w0, actions[..n]);
      ActDetermined(cfg, w0.chain, EventsOf(actions[..n]), Run(cfg, w0, actions[..n]), actions[n]);
      EventsSnoc(actions);
    }
  }

  lemma Regroup<T>(a: seq<T>, b: seq<T>, x: T)
    ensures (a + b) + [x] == a + (b + [x])
  {
  }

  /** Stamping `u` and then `v` is stamping `u + v`. */
  ghost predicate StampsSplit(sha: Sha256, c: Chain, u: seq<AuditEvent>, v: seq<AuditEvent>)
  {
    var d := StampAll(sha, c, u).1;
    && StampAll(sha, c, u + v).0 == StampAll(sha, c, u).0 + StampAll(sha, d, v).0
    && StampAll(sha, c, u + v).1 == StampAll(sha, d, v).1
  }

  lemma {:induction false} StampsSplitSnoc(sha: Sha256, c: Chain, u: seq<AuditEvent>, v: seq<AuditEvent>, e: AuditEvent)
    requires StampsSplit(sha, c, u, v)
    ensures StampsSplit(sha, c, u, v + [e])
  {
    var d := StampAll(sha, c, u).1;
    StampAllSnoc(sha, c, u + v, e);
    StampAllSnoc(sha, d, v, e);
    Regroup(u, v, e);
    Regroup(StampAll(sha, c, u).0, StampAll(sha, d, v).0, Stamp(e, StampAll(sha, d, v).1));
  }

  lemma {:induction false} StampsSplitNil(sha: Sha256, c: Chain, u: seq<AuditEvent>)
    ensures StampsSplit(sha, c, u, [])
  {
    assert u + [] == u && StampAll(sha, c, u).0 + [] == StampAll(sha, c, u).0;
  }

  lemma {:induction false} StampAllConcat(sha: Sha256, c: Chain, u: seq<AuditEvent>, v: seq<AuditEvent>)
    ensures StampsSplit(sha, c, u, v)
  {
    if v == [] {
      StampsSplitNil(sha, c, u);
    } else {
      var n := |v| - 1;
      assert v[..n] + [v[n]] == v;
      StampAllConcat(sha, c, u, v[..n]);
      StampsSplitSnoc(sha, c, u, v[..n], v[n]);
    }
  }

  lemma {:induction false} EventsConcat(a: seq<Action>, b: seq<Action>)
    ensures EventsOf(a + b) == EventsOf(a) + EventsOf(b)
  {
    if b == [] {
      assert a + b == a && EventsOf(a) + [] == EventsOf(a);
    } else {
      var n := |b| - 1;
      EventsConcat(a, b[..n]);
      assert (a + b)[..|a + b| - 1] == a + b[..n];
      EventsSnoc(a + b);
      EventsSnoc(b);
    }
  }

  /** A writer resumed from the spool stamps the same continuation as one that never stopped: for
      every run `before` whose last chained record is in the spool and every `after`, the chained
      records of `before` followed by those of the resumed run are those of the whole run, and both
      end at the same position. The resumed writer may be configured differently. */
  lemma ResumedContinuation(cfg: Config, c: Chain, sink0: seq<AuditRecord>, spool0: seq<AuditRecord>, bytes0: nat,
                            before: seq<Action>, q: nat, cfg': Config, resumed: Writer, after: seq<Action>)
    requires (cfg.spoolCap.None? ==> spool0 == []) && c.nextSeq + |before| <= U64_LIMIT && cfg'.env.sha == cfg.env.sha
    requires var w := Run(cfg, Start(c, sink0, spool0, bytes0), before);
             && LastChainedIsSpooled(sink0 + spool0, w, q)
             && resumed.emitted == [] && ResumePointOf(cfg.env.sha, w.spool) == Some(resumed.chain)
    ensures var w0 := Start(c, sink0, spool0, bytes0);
            var w, whole, rest := Run(cfg, w0, before), Run(cfg, w0, before + after), Run(cfg', resumed, after);
            && ChainedRecords(whole.emitted) == ChainedRecords(w.emitted) + ChainedRecords(rest.emitted)
            && whole.chain == rest.chain
  {
    var w0 := Start(c, sink0, spool0, bytes0);
    ResumePointIsChain(cfg, c, sink0, spool0, bytes0, before, q);
    EmissionIsDetermined(cfg, w0, before);
    EmissionIsDetermined(cfg, w0, before + after);
    EmissionIsDetermined(cfg', resumed, after);
    EventsConcat(before, after);
    StampAllConcat(cfg.env.sha, c, EventsOf(before), EventsOf(after));
  }

  // ---- A crash during replay ----

  lemma {:induction false} FirstChained(rs: seq<AuditRecord>) returns (i: nat)
    requires ChainedCount(rs) > 0
    ensures i < |rs| && rs[i].IsChained() && ChainedCount(rs[..i]) == 0
  {
    var n := |rs| - 1;
    if ChainedCount(rs[..n]) > 0 {
      i := FirstChained(rs[..n]);
      assert rs[..n][..i] == rs[..i];
    } else {
      i := n;
    }
  }

  /** The chain seen by the second copy of record `i`, after `extra` more chained records. */
  lemma RepeatedPosition(sha: Sha256, sink: seq<AuditRecord>, again: seq<AuditRecord>, before: seq<AuditRecord>)
    requires ChainedCount(before) == 0
    ensures ChainAfter(sha, GENESIS, sink + before).nextSeq == ChainedCount(sink)
    ensures ChainAfter(sha, GENESIS, sink + again + before).nextSeq == ChainedCount(sink) + ChainedCount(again)
  {
    ChainedValuesConcat(sink, before);
    ChainedValuesConcat(sink, again);
    ChainedValuesConcat(sink + again, before);
    FoldCounts(sha, GENESIS, ChainedValues(sink + before));
    FoldCounts(sha, GENESIS, ChainedValues(sink + again + before));
  }

  /** The line after a crash inside replay: `spool[..j]` has reached the sink and is still in the spool. */
  function Twice(sent: seq<AuditRecord>, spool: seq<AuditRecord>, j: nat): seq<AuditRecord>
    requires j <= |spool|
  {
    sent + spool[..j] + spool
  }

  function Front<T>(s: seq<T>, k: nat): seq<T> { if k < |s| then s[..k] else s }

  /** The one repetition a checkpoint cannot show: nothing chained was sent, one chained record is sent
      again, and its hash is the genesis head. */
  predicate BlindRepeat(sha: Sha256, sent: seq<AuditRecord>, again: seq<AuditRecord>)
  {
    && ChainedCount(sent) == 0 && ChainedCount(again) == 1
    && ChainHash(sha, GENESIS_HEAD, 0, ChainedValues(again)[0]) == GENESIS_HEAD
  }

  /** The first `n` records of the line show that a chained record was sent twice. */
  predicate RepeatShows(sha: Sha256, sent: seq<AuditRecord>, spool: seq<AuditRecord>, j: nat, n: nat)
    requires j <= |spool|
  {
    && n > |sent| + j && ChainedCount(spool[..j]) > 0
    && !(BlindRepeat(sha, sent, spool[..j]) && ChainedCount(Front(spool, n - |sent| - j)) == 0)
  }

  /** How much of the line without the repetition the first `n` records with it hold. */
  function Unrepeated(sent: nat, j: nat, n: nat): nat
  {
    if n <= sent + j then n else if n < sent + j + j then sent + j else n - j
  }

  lemma {:induction false} BlindIff(sha: Sha256, sent: seq<AuditRecord>, again: seq<AuditRecord>)
    requires ChainedCount(again) > 0
    ensures LooksAlike(ChainAfter(sha, GENESIS, sent + again), ChainAfter(sha, GENESIS, sent)) <==> BlindRepeat(sha, sent, again)
  {
    ChainedValuesConcat(sent, again);
    ChainCounts(sha, sent);
    ChainCounts(sha, sent + again);
    if ChainedCount(sent) == 0 && ChainedCount(again) == 1 {
      assert ChainedValues(sent + again) == ChainedValues(again);
      OneRecordHead(sha, GENESIS, ChainedValues(again));
    }
  }

  lemma {:induction false} GoodPrefix(sha: Sha256, good: Place, c: Chain, rs: seq<AuditRecord>, k: nat)
    requires GoodFrom(sha, good, c, rs) && k <= |rs|
    ensures GoodFrom(sha, good, c, rs[..k])
  {
    Halves(rs, k);
    GoodConcat(sha, good, c, rs[..k], rs[k..]);
  }

  lemma Halves<T>(s: seq<T>, k: nat)
    requires k <= |s|
    ensures s[..k] + s[k..] == s
  {
  }

  lemma TwiceShort(sent: seq<AuditRecord>, spool: seq<AuditRecord>, j: nat, n: nat)
    requires j <= |spool| && n <= |sent| + j
    ensures Twice(sent, spool, j)[..n] == (sent + spool)[..n]
  {
  }

  lemma TwiceLong(sent: seq<AuditRecord>, spool: seq<AuditRecord>, j: nat, k: nat)
    requires j <= |spool| && k <= |spool|
    ensures Twice(sent, spool, j)[..|sent| + j + k] == sent + spool[..j] + spool[..k]
  {
  }

  lemma LinePrefix<T>(sent: seq<T>, spool: seq<T>, k: nat)
    requires k <= |spool|
    ensures (sent + spool)[..|sent| + k] == sent + spool[..k]
  {
  }

  /** Repeated checkpoints change nothing. */
  lemma {:induction false} CheckpointsAgain(env: Env, trusted: TrustedKeys, sent: seq<AuditRecord>,
                                            again: seq<AuditRecord>,
                                            more: seq<AuditRecord>, most: seq<AuditRecord>)
    requires ChainedCount(again) == 0
    requires var good, c := GoodPlace(env, trusted), ChainAfter(env.sha, GENESIS, sent);
             GoodFrom(env.sha, good, c, most) <==> GoodFrom(env.sha, good, c, again) && GoodFrom(env.sha, good, c, more)
    ensures GoodLine(env, trusted, sent + again + more) <==> GoodLine(env, trusted, sent + most)
  {
    LineConcat(env, trusted, sent + again, more);
    LineConcat(env, trusted, sent, again);
    LineConcat(env, trusted, sent, most);
    ChainAfterConcat(env.sha, GENESIS, sent, again);
    assert ChainedValues(again) == [];
  }

  lemma {:induction false} LongerPrefix(sha: Sha256, good: Place, c: Chain, rs: seq<AuditRecord>, j: nat, k: nat)
    requires j <= |rs| && k <= |rs|
    ensures GoodFrom(sha, good, c, rs[..if j < k then k else j]) <==>
            GoodFrom(sha, good, c, rs[..j]) && GoodFrom(sha, good, c, rs[..k])
  {
    var m := if j < k then k else j;
    TakeTake(rs, m, j);
    TakeTake(rs, m, k);
    if GoodFrom(sha, good, c, rs[..m]) {
      GoodPrefix(sha, good, c, rs[..m], j);
      GoodPrefix(sha, good, c, rs[..m], k);
    }
  }

  lemma {:induction false} CheckpointsAgainIff(env: Env, trusted: TrustedKeys, sent: seq<AuditRecord>,
                                               spool: seq<AuditRecord>,
                                               j: nat, k: nat)
    requires j <= |spool| && k <= |spool| && ChainedCount(spool[..j]) == 0
    ensures GoodLine(env, trusted, sent + spool[..j] + spool[..k]) <==>
            GoodLine(env, trusted, sent + spool[..if j < k then k else j])
  {
    LongerPrefix(env.sha, GoodPlace(env, trusted), ChainAfter(env.sha, GENESIS, sent), spool, j, k);
    CheckpointsAgain(env, trusted, sent, spool[..j], spool[..k], spool[..if j < k then k else j]);
  }

  lemma {:induction false} RepeatSlices<T>(sent: seq<T>, spool: seq<T>, j: nat, k: nat, i: nat)
    requires i < j <= |spool| && i < k <= |spool|
    ensures (sent + spool[..j])[|sent| + i] == spool[i] && (sent + spool[..j])[..|sent| + i] == sent + spool[..i]
    ensures (sent + spool[..j] + spool[..k])[|sent| + j + i] == spool[i]
    ensures (sent + spool[..j] + spool[..k])[..|sent| + j + i] == sent + spool[..j] + spool[..i]
  {
  }

  /** A second copy of the first chained record is never good. */
  lemma {:induction false} ChainedAgainIsBad(env: Env, trusted: TrustedKeys, sent: seq<AuditRecord>,
                                             spool: seq<AuditRecord>,
                                             j: nat, k: nat, i: nat)
    requires i < j <= |spool| && i < k <= |spool| && spool[i].IsChained() && ChainedCount(spool[..i]) == 0
    requires ChainedCount(spool[..j]) > 0
    requires GoodLine(env, trusted, sent + spool[..j])
    ensures !GoodLine(env, trusted, sent + spool[..j] + spool[..k])
  {
    var line, twice := sent + spool[..j], sent + spool[..j] + spool[..k];
    RepeatSlices(sent, spool, j, k, i);
    RepeatedPosition(env.sha, sent, spool[..j], spool[..i]);
    GoodAt(env, trusted, line, |sent| + i, spool[i], sent + spool[..i]);
    GoodElsewhere(env, trusted, spool[i], ChainAfter(env.sha, GENESIS, sent + spool[..i]),
                  ChainAfter(env.sha, GENESIS, sent + spool[..j] + spool[..i]));
    BadAt(env, trusted, twice, |sent| + j + i, spool[i], sent + spool[..j] + spool[..i]);
  }

  lemma {:induction false} GoodAt(env: Env, trusted: TrustedKeys, rs: seq<AuditRecord>, i: nat, r: AuditRecord,
                                  front: seq<AuditRecord>)
    requires GoodLine(env, trusted, rs) && i < |rs| && rs[i] == r && rs[..i] == front
    ensures GoodRecord(env, trusted, r, ChainAfter(env.sha, GENESIS, front))
  {
    GoodLineMeans(env, trusted, rs);
    assert GoodPlace(env, trusted)(rs[i], ChainAfter(env.sha, GENESIS, rs[..i]));
  }

  lemma {:induction false} BadAt(env: Env, trusted: TrustedKeys, rs: seq<AuditRecord>, i: nat, r: AuditRecord,
                                 front: seq<AuditRecord>)
    requires i < |rs| && rs[i] == r && rs[..i] == front && !GoodRecord(env, trusted, r, ChainAfter(env.sha, GENESIS, front))
    ensures !GoodLine(env, trusted, rs)
  {
    GoodLineMeans(env, trusted, rs);
    assert !GoodPlace(env, trusted)(rs[i], ChainAfter(env.sha, GENESIS, rs[..i]));
  }

  /** Checkpoints that are good at `c` are good at `c'` exactly when they cannot tell them apart. */
  lemma {:induction false} CheckpointsElsewhere(env: Env, trusted: TrustedKeys, cps: seq<AuditRecord>, c: Chain,
                                                c': Chain)
    requires GoodFrom(env.sha, GoodPlace(env, trusted), c, cps) && ChainedCount(cps) == 0 && cps != []
    ensures GoodFrom(env.sha, GoodPlace(env, trusted), c', cps) <==> LooksAlike(c', c)
  {
    var t := LastChained(cps);
    forall i | 0 <= i < |cps|
      ensures GoodPlace(env, trusted)(cps[i], ChainAfter(env.sha, c', cps[..i])) <==> LooksAlike(c', c)
    {
      CheckpointsChainNothing(cps[..i], 0);
      assert cps[..i][..0] == [];
      assert ChainAfter(env.sha, c, cps[..i]) == c && ChainAfter(env.sha, c', cps[..i]) == c';
      assert GoodPlace(env, trusted)(cps[i], ChainAfter(env.sha, c, cps[..i]));
      GoodElsewhere(env, trusted, cps[i], c, c');
    }
    if GoodFrom(env.sha, GoodPlace(env, trusted), c', cps) {
      assert GoodPlace(env, trusted)(cps[0], ChainAfter(env.sha, c', cps[..0]));
    }
  }

  /** Checkpoints sent again before the first chained record. */
  lemma {:induction false} HiddenAgainIff(env: Env, trusted: TrustedKeys, sent: seq<AuditRecord>,
                                          again: seq<AuditRecord>,
                                          cps: seq<AuditRecord>)
    requires ChainedCount(again) > 0 && GoodLine(env, trusted, sent + again)
    requires cps != [] && ChainedCount(cps) == 0
    requires GoodFrom(env.sha, GoodPlace(env, trusted), ChainAfter(env.sha, GENESIS, sent), cps)
    ensures GoodLine(env, trusted, sent + again + cps) <==> BlindRepeat(env.sha, sent, again)
  {
    var sha, c := env.sha, ChainAfter(env.sha, GENESIS, sent);
    CheckpointsElsewhere(env, trusted, cps, c, ChainAfter(sha, GENESIS, sent + again));
    BlindIff(sha, sent, again);
    LineConcat(env, trusted, sent + again, cps);
  }

  lemma {:induction false} ChainedAgainIff(env: Env, trusted: TrustedKeys, sent: seq<AuditRecord>,
                                           spool: seq<AuditRecord>,
                                           j: nat, k: nat)
    requires j <= |spool| && 0 < k <= |spool| && ChainedCount(spool[..j]) > 0 && GoodLine(env, trusted, sent + spool[..j])
    ensures GoodLine(env, trusted, sent + spool[..j] + spool[..k]) <==>
            BlindRepeat(env.sha, sent, spool[..j]) && ChainedCount(spool[..k]) == 0
  {
    var i := FirstChained(spool[..j]);
    TakeTake(spool, j, i);
    if i < k {
      ChainedAgainIsBad(env, trusted, sent, spool, j, k, i);
      PrefixSnoc(spool, i);
      ChainedValuesSnoc(spool[..i], spool[i]);
      CountMonotone(spool, i + 1, k);
    } else {
      CountMonotone(spool, k, i);
      TakeTake(spool, j, k);
      LineConcat(env, trusted, sent, spool[..j]);
      GoodPrefix(env.sha, GoodPlace(env, trusted), ChainAfter(env.sha, GENESIS, sent), spool[..j], k);
      HiddenAgainIff(env, trusted, sent, spool[..j], spool[..k]);
    }
  }

  lemma {:induction false} CountMonotone(rs: seq<AuditRecord>, i: nat, k: nat)
    requires i <= k <= |rs|
    ensures ChainedCount(rs[..i]) <= ChainedCount(rs[..k])
  {
    ChainedValuesConcat(rs[..i], rs[i..k]);
    assert rs[..i] + rs[i..k] == rs[..k];
  }

  lemma {:induction false} RepeatedIff(env: Env, trusted: TrustedKeys, sent: seq<AuditRecord>,
                                       spool: seq<AuditRecord>, j: nat, k: nat)
    requires j <= |spool| && 0 < k <= |spool|
    ensures GoodLine(env, trusted, sent + spool[..j] + spool[..k]) <==>
            && GoodLine(env, trusted, sent + spool[..if j < k then k else j])
            && (ChainedCount(spool[..j]) > 0 ==> BlindRepeat(env.sha, sent, spool[..j]) && ChainedCount(spool[..k]) == 0)
  {
    if ChainedCount(spool[..j]) == 0 {
      CheckpointsAgainIff(env, trusted, sent, spool, j, k);
    } else if GoodLine(env, trusted, sent + spool[..j]) {
      ChainedAgainIff(env, trusted, sent, spool, j, k);
      if j < k {
        CountMonotone(spool, j, k);
      }
    } else {
      NotGoodFurther(env, trusted, sent, spool, j, k);
    }
  }

  /** A crash after `j` replayed records but before the spool is rewritten: the first `n` records of the
      line that results are good exactly when those of the line without it are and they do not show
      the repetition. */
  lemma {:induction false} RepeatIff(env: Env, trusted: TrustedKeys, sent: seq<AuditRecord>, spool: seq<AuditRecord>,
                                     j: nat, n: nat)
    requires j <= |spool| && n <= |sent| + j + |spool|
    ensures Unrepeated(|sent|, j, n) <= |sent + spool|
    ensures GoodLine(env, trusted, Twice(sent, spool, j)[..n]) <==>
            && GoodLine(env, trusted, (sent + spool)[..Unrepeated(|sent|, j, n)])
            && !RepeatShows(env.sha, sent, spool, j, n)
  {
    if n <= |sent| + j {
      TwiceShort(sent, spool, j, n);
    } else {
      var k := n - |sent| - j;
      TwiceLong(sent, spool, j, k);
      LinePrefix(sent, spool, if j < k then k else j);
      FrontIsPrefix(spool, k);
      RepeatedIff(env, trusted, sent, spool, j, k);
    }
  }

  lemma FrontIsPrefix<T>(s: seq<T>, k: nat)
    requires k <= |s|
    ensures Front(s, k) == s[..k]
  {
  }

  lemma {:induction false} NotGoodFurther(env: Env, trusted: TrustedKeys, sent: seq<AuditRecord>,
                                          spool: seq<AuditRecord>, j: nat, k: nat)
    requires j <= |spool| && k <= |spool| && !GoodLine(env, trusted, sent + spool[..j])
    ensures !GoodLine(env, trusted, sent + spool[..j] + spool[..k])
    ensures j <= k ==> !GoodLine(env, trusted, sent + spool[..k])
  {
    LineConcat(env, trusted, sent + spool[..j], spool[..k]);
    if j <= k {
      Stretch(sent, spool, j, k);
      LineConcat(env, trusted, sent + spool[..j], spool[j..k]);
    }
  }

  lemma Stretch<T>(sent: seq<T>, spool: seq<T>, j: nat, k: nat)
    requires j <= k <= |spool|
    ensures sent + spool[..j] + spool[j..k] == sent + spool[..k]
  {
  }

  lemma TwiceAt(sent: seq<AuditRecord>, spool: seq<AuditRecord>, j: nat, k: nat)
    requires j <= |spool| && k < |Twice(sent, spool, j)|
    ensures Twice(sent, spool, j)[k] == (sent + spool)[if k < |sent| + j then k else k - j]
  {
  }

  ghost predicate AllGoodSomewhere(env: Env, trusted: TrustedKeys, rs: seq<AuditRecord>)
  {
    forall i :: 0 <= i < |rs| ==> GoodSomewhere(env, trusted, rs[i])
  }

  lemma {:induction false} LineIsGoodSomewhere(env: Env, trusted: TrustedKeys, rs: seq<AuditRecord>)
    requires GoodLine(env, trusted, rs)
    ensures AllGoodSomewhere(env, trusted, rs)
  {
    GoodLineMeans(env, trusted, rs);
    forall i | 0 <= i < |rs| ensures GoodSomewhere(env, trusted, rs[i]) {
      EmittedIsGoodSomewhere(env, trusted, GENESIS, rs, i);
    }
  }

  lemma {:induction false} TwiceIsGoodSomewhere(env: Env, trusted: TrustedKeys, sent: seq<AuditRecord>,
                                                spool: seq<AuditRecord>, j: nat)
    requires AllGoodSomewhere(env, trusted, sent + spool) && j <= |spool|
    ensures AllGoodSomewhere(env, trusted, Twice(sent, spool, j))
  {
    forall k | 0 <= k < |Twice(sent, spool, j)| ensures GoodSomewhere(env, trusted, Twice(sent, spool, j)[k]) {
      TwiceAt(sent, spool, j, k);
    }
  }

  /** Once the spool has drained, the sink verifies exactly when none of the `j` repeated records was
      chained. */
  lemma {:induction false} ReplayCrashIsVisible(env: Env, trusted: TrustedKeys, sink: seq<AuditRecord>,
                                                spool: seq<AuditRecord>, j: nat)
    requires GoodLine(env, trusted, sink + spool) && j <= |spool|
    ensures Verify(env, trusted, Published(Twice(sink, spool, j))).ok <==> ChainedCount(spool[..j]) == 0
  {
    LineIsGoodSomewhere(env, trusted, sink + spool);
    TwiceIsGoodSomewhere(env, trusted, sink, spool, j);
    OkIffGoodLine(env, trusted, Twice(sink, spool, j));
    WholePrefix(spool);
    if spool == [] {
      assert spool[..j] == [] && Twice(sink, spool, j) == sink + spool;
    } else {
      RepeatedIff(env, trusted, sink, spool, j, |spool|);
      CountMonotone(spool, j, |spool|);
    }
  }

  lemma WholePrefix<T>(s: seq<T>)
    ensures s[..|s|] == s
  {
  }

  // ---- Many lives ----

  /** One life of the writer: how it was configured, what happened, and, when it crashed between an
      event and the checkpoint the event triggers, that last event. `bytes0` is the spool size it
      found, and `read` the offsets that its tail read returned. When it crashed inside replay, before
      the spool was rewritten, the first `resent` records of its spool had reached the sink. */
  datatype Life = Life(cfg: Config, actions: seq<Action>, last: Option<AuditEvent>, bytes0: nat,
                       read: seq<nat>, resent: nat)

  datatype Disk = Disk(sink: seq<AuditRecord>, spool: seq<AuditRecord>)

  function Line(d: Disk): seq<AuditRecord> { d.sink + d.spool }

  function LifeStart(life: Life, d: Disk): Writer
    requires Increasing(life.read, |d.sink|)
  {
    Start(RestartChain(life.cfg.env.sha, d.sink, d.spool, life.read), d.sink, d.spool, life.bytes0)
  }

  /** The writer at the end of its life, before a replay that the crash interrupted. */
  function LifeEnd(life: Life, d: Disk): Writer
    requires Increasing(life.read, |d.sink|)
  {
    var w := Run(life.cfg, LifeStart(life, d), life.actions);
    if life.last.None? then w else WriteChained(life.cfg, w, life.last.value)
  }

  /** A life that is trusted, keeps its spool and stays below 2^64 records. It may drop records. */
  ghost predicate SoundLife(env: Env, trusted: TrustedKeys, life: Life, d: Disk)
  {
    && life.cfg.env == env && Trusts(life.cfg, trusted) && Increasing(life.read, |d.sink|)
    && (life.cfg.spoolCap.None? ==> d.spool == [])
    && LifeStart(life, d).chain.nextSeq + |life.actions| < U64_LIMIT
    && life.resent <= |LifeEnd(life, d).spool|
  }

  /** The restart reaches the last chained record that survived. */
  ghost predicate Reaches(life: Life, d: Disk)
  {
    ChainedCount(d.spool) > 0 || TailReaches(d.sink, life.read)
  }

  /** What a life leaves on disk. */
  function LifeLeaves(life: Life, d: Disk): Disk
    requires Increasing(life.read, |d.sink|) && life.resent <= |LifeEnd(life, d).spool|
  {
    var w := LifeEnd(life, d);
    Disk(w.sink + w.spool[..life.resent], w.spool)
  }

  lemma {:induction false} AddLife(env: Env, trusted: TrustedKeys, lives: seq<Life>, life: Life, d: Disk)
    requires AfterLives(env, trusted, lives) == Some(d) && SoundLife(env, trusted, life, d) && Reaches(life, d)
    ensures AfterLives(env, trusted, lives + [life]) == Some(LifeLeaves(life, d))
    ensures QuietLives(env, trusted, lives + [life]) <==> QuietLives(env, trusted, lives) && QuietLife(life, d)
  {
    assert (lives + [life])[..|lives|] == lives;
  }

  /** What one life adds to the line: the kept emissions, each good where it was stamped. */
  lemma {:induction false} LifeAdds(env: Env, trusted: TrustedKeys, life: Life, d: Disk)
    requires SoundLife(env, trusted, life, d)
    ensures var w0, w := LifeStart(life, d), LifeEnd(life, d);
            && Delivered(life.cfg, d.sink, d.spool, w)
            && Stamped(life.cfg, GoodPlace(env, trusted), w0.chain, w)
            && w.sink + w.spool == Line(d) + Pick(w.emitted, w.kept)
  {
    var cfg, w0, good := life.cfg, LifeStart(life, d), GoodPlace(env, trusted);
    RunDelivers(cfg, w0.chain, d.sink, d.spool, life.bytes0, life.actions);
    WriterStampsGood(cfg, trusted);
    RunStamps(cfg, good, w0, life.actions);
    var w := Run(cfg, w0, life.actions);
    if life.last.Some? {
      EventDelivers(cfg, d.sink, d.spool, w, life.last.value);
      WriteEventStamps(cfg, good, w0.chain, w, life.last.value);
    }
  }

  /** What is on disk after a sequence of lives, from an empty start; `None` when one is not sound or
      its restart does not reach. */
  ghost function AfterLives(env: Env, trusted: TrustedKeys, lives: seq<Life>): Option<Disk>
  {
    if lives == [] then Some(Disk([], []))
    else
      var before := AfterLives(env, trusted, lives[..|lives| - 1]);
      var life := lives[|lives| - 1];
      if before.None? || !SoundLife(env, trusted, life, before.value) || !Reaches(life, before.value) then None
      else Some(LifeLeaves(life, before.value))
  }

  /** None of this life's kept records that fall among the first `n` of the line stands visibly after
      a record that the life dropped. */
  ghost predicate LifeIsClear(env: Env, trusted: TrustedKeys, life: Life, d: Disk, n: nat)
    requires SoundLife(env, trusted, life, d)
  {
    var w0, w := LifeStart(life, d), LifeEnd(life, d);
    && Increasing(w.kept, |w.emitted|)
    && forall q :: 0 <= q < |w.kept| && |Line(d)| + q < n ==> !ExposedAt(env.sha, w0.chain, w.emitted, w.kept, q)
  }

  /** The first `n` records after this life do not show that a chained record was sent twice. */
  ghost predicate NoRepeatShows(env: Env, trusted: TrustedKeys, life: Life, d: Disk, n: nat)
    requires SoundLife(env, trusted, life, d)
  {
    !RepeatShows(env.sha, LifeEnd(life, d).sink, LifeEnd(life, d).spool, life.resent, n)
  }

  function Before(life: Life, d: Disk, n: nat): nat
    requires Increasing(life.read, |d.sink|)
  {
    Unrepeated(|LifeEnd(life, d).sink|, life.resent, n)
  }

  /** Among the first `n` records of the line, none stands visibly after one that its own life dropped,
      and none shows that a life sent a chained record twice. */
  ghost predicate ClearUpTo(env: Env, trusted: TrustedKeys, lives: seq<Life>, n: nat)
    requires AfterLives(env, trusted, lives).Some?
  {
    lives != [] ==>
      var k := |lives| - 1;
      var d := AfterLives(env, trusted, lives[..k]).value;
      var m := Before(lives[k], d, n);
      && ClearUpTo(env, trusted, lives[..k], m)
      && LifeIsClear(env, trusted, lives[k], d, m)
      && NoRepeatShows(env, trusted, lives[k], d, n)
  }

  lemma LifeClearBeyond(env: Env, trusted: TrustedKeys, life: Life, d: Disk, n: nat)
    requires SoundLife(env, trusted, life, d)
    requires n >= |Line(d)| + |LifeEnd(life, d).kept|
    ensures LifeIsClear(env, trusted, life, d, n) <==>
            LifeIsClear(env, trusted, life, d, |Line(d)| + |LifeEnd(life, d).kept|)
  {
  }

  /** Nothing changes beyond the end of the line. */
  lemma {:induction false} BeyondTheEnd(env: Env, trusted: TrustedKeys, life: Life, d: Disk, n: nat)
    requires SoundLife(env, trusted, life, d) && n >= |Line(LifeLeaves(life, d))|
    ensures Before(life, d, n) >= |LifeEnd(life, d).sink + LifeEnd(life, d).spool|
    ensures NoRepeatShows(env, trusted, life, d, n) <==> NoRepeatShows(env, trusted, life, d, |Line(LifeLeaves(life, d))|)
  {
    assert LifeEnd(life, d).spool == [] ==> LifeEnd(life, d).spool[..life.resent] == [];
  }

  lemma {:induction false} ClearBeyond(env: Env, trusted: TrustedKeys, lives: seq<Life>, n: nat)
    requires AfterLives(env, trusted, lives).Some? && n >= |Line(AfterLives(env, trusted, lives).value)|
    ensures ClearUpTo(env, trusted, lives, n) <==>
            ClearUpTo(env, trusted, lives, |Line(AfterLives(env, trusted, lives).value)|)
  {
    if lives != [] {
      var k := |lives| - 1;
      var life, d := lives[k], AfterLives(env, trusted, lives[..k]).value;
      var end := |Line(LifeLeaves(life, d))|;
      LifeAdds(env, trusted, life, d);
      BeyondTheEnd(env, trusted, life, d, n);
      BeyondTheEnd(env, trusted, life, d, end);
      LifeClearBeyond(env, trusted, life, d, Before(life, d, n));
      LifeClearBeyond(env, trusted, life, d, Before(life, d, end));
      ClearBeyond(env, trusted, lives[..k], Before(life, d, n));
      ClearBeyond(env, trusted, lives[..k], Before(life, d, end));
    }
  }

  lemma ClearMeans(env: Env, trusted: TrustedKeys, life: Life, d: Disk, m: nat)
    requires SoundLife(env, trusted, life, d) && m <= |LifeEnd(life, d).kept|
    ensures var w0, w := LifeStart(life, d), LifeEnd(life, d);
            LifeIsClear(env, trusted, life, d, |Line(d)| + m) <==>
            Increasing(w.kept, |w.emitted|) && forall q :: 0 <= q < m ==> !ExposedAt(env.sha, w0.chain, w.emitted, w.kept, q)
  {
  }

  /** One more life after a good line: its first `m` kept records extend the line exactly when none
      stands visibly after a gap. */
  lemma LifeExtendsIff(env: Env, trusted: TrustedKeys, life: Life, d: Disk, m: nat)
    requires SoundLife(env, trusted, life, d) && Reaches(life, d) && GoodLine(env, trusted, Line(d))
    requires m <= |LifeEnd(life, d).kept|
    ensures var w := LifeEnd(life, d);
            && Increasing(w.kept, |w.emitted|)
            && (GoodLine(env, trusted, Line(d) + Pick(w.emitted, w.kept)[..m]) <==>
                  LifeIsClear(env, trusted, life, d, |Line(d)| + m))
  {
    LifeAdds(env, trusted, life, d);
    LineIsRight(env, trusted, Line(d));
    RestartFindsChainIff(env.sha, d.sink, d.spool, life.read);
    var w := LifeEnd(life, d);
    KeptLineIff(env, trusted, Line(d), w.emitted, w.kept, m);
    ClearMeans(env, trusted, life, d, m);
  }

  lemma GoodFront(env: Env, trusted: TrustedKeys, a: seq<AuditRecord>, b: seq<AuditRecord>)
    requires GoodLine(env, trusted, a + b)
    ensures GoodLine(env, trusted, a)
  {
    LineConcat(env, trusted, a, b);
  }

  lemma SplitAt(line: seq<AuditRecord>, more: seq<AuditRecord>, n: nat)
    requires n <= |line + more|
    ensures n <= |line| ==> (line + more)[..n] == line[..n]
    ensures n >= |line| ==> (line + more)[..n] == line + more[..n - |line|]
  {
  }

  /** The first `n` records of the line after one more life, when the life reaches that far. */
  lemma LifeLineIff(env: Env, trusted: TrustedKeys, life: Life, d: Disk, n: nat)
    requires SoundLife(env, trusted, life, d) && Reaches(life, d)
    requires |Line(d)| <= n <= |Line(d)| + |LifeEnd(life, d).kept|
    ensures var w := LifeEnd(life, d);
            && Increasing(w.kept, |w.emitted|)
            && (GoodLine(env, trusted, (Line(d) + Pick(w.emitted, w.kept))[..n]) <==>
                  GoodLine(env, trusted, Line(d)) && LifeIsClear(env, trusted, life, d, n))
  {
    var w, m := LifeEnd(life, d), n - |Line(d)|;
    assert Increasing(w.kept, |w.emitted|) by {
      LifeAdds(env, trusted, life, d);
    }
    SplitAt(Line(d), Pick(w.emitted, w.kept), n);
    if GoodLine(env, trusted, Line(d)) {
      LifeExtendsIff(env, trusted, life, d, m);
    } else if GoodLine(env, trusted, Line(d) + Pick(w.emitted, w.kept)[..m]) {
      GoodFront(env, trusted, Line(d), Pick(w.emitted, w.kept)[..m]);
    }
  }

  /** The line before the last life's repetition, from what holds of the lives before it. */
  lemma {:induction false} GrownIff(env: Env, trusted: TrustedKeys, lives: seq<Life>, life: Life, d: Disk, m: nat)
    requires AfterLives(env, trusted, lives) == Some(d) && SoundLife(env, trusted, life, d) && Reaches(life, d)
    requires var w := LifeEnd(life, d); m <= |w.sink + w.spool|
    requires forall n: nat :: n <= |Line(d)| ==> (GoodLine(env, trusted, Line(d)[..n]) <==> ClearUpTo(env, trusted, lives, n))
    ensures var w := LifeEnd(life, d);
            GoodLine(env, trusted, (w.sink + w.spool)[..m]) <==>
            ClearUpTo(env, trusted, lives, m) && LifeIsClear(env, trusted, life, d, m)
  {
    var w := LifeEnd(life, d);
    LifeAdds(env, trusted, life, d);
    if m <= |Line(d)| {
      SplitAt(Line(d), Pick(w.emitted, w.kept), m);
    } else {
      assert Line(d)[..|Line(d)|] == Line(d);
      ClearBeyond(env, trusted, lives, m);
      LifeLineIff(env, trusted, life, d, m);
    }
  }

  /** Over any sequence of lives, with drops and with crashes inside replay: the first `n` records of the
      line are one chain from genesis exactly when none of them shows a gap of its own life or a chained
      record sent twice. */
  lemma {:induction false} LivesLineIff(env: Env, trusted: TrustedKeys, lives: seq<Life>, n: nat)
    requires AfterLives(env, trusted, lives).Some? && n <= |Line(AfterLives(env, trusted, lives).value)|
    ensures GoodLine(env, trusted, Line(AfterLives(env, trusted, lives).value)[..n]) <==> ClearUpTo(env, trusted, lives, n)
  {
    if lives == [] {
      GoodLineMeans(env, trusted, []);
      assert Line(Disk([], [])) == [] && n == 0;
    } else {
      var k := |lives| - 1;
      var life, d := lives[k], AfterLives(env, trusted, lives[..k]).value;
      var w := LifeEnd(life, d);
      forall m: nat | m <= |Line(d)|
        ensures GoodLine(env, trusted, Line(d)[..m]) <==> ClearUpTo(env, trusted, lives[..k], m)
      {
        LivesLineIff(env, trusted, lives[..k], m);
      }
      RepeatIff(env, trusted, w.sink, w.spool, life.resent, n);
      GrownIff(env, trusted, lives[..k], life, d, Before(life, d, n));
    }
  }

  lemma {:induction false} GrownIsGoodSomewhere(env: Env, trusted: TrustedKeys, life: Life, d: Disk)
    requires SoundLife(env, trusted, life, d) && AllGoodSomewhere(env, trusted, Line(d))
    ensures AllGoodSomewhere(env, trusted, LifeEnd(life, d).sink + LifeEnd(life, d).spool)
  {
    var w := LifeEnd(life, d);
    LifeAdds(env, trusted, life, d);
    forall i | 0 <= i < |w.kept| ensures GoodSomewhere(env, trusted, Pick(w.emitted, w.kept)[i]) {
      EmittedIsGoodSomewhere(env, trusted, LifeStart(life, d).chain, w.emitted, w.kept[i]);
    }
  }

  lemma {:induction false} LivesGoodSomewhere(env: Env, trusted: TrustedKeys, lives: seq<Life>)
    requires AfterLives(env, trusted, lives).Some?
    ensures AllGoodSomewhere(env, trusted, Line(AfterLives(env, trusted, lives).value))
  {
    if lives != [] {
      var k := |lives| - 1;
      var life, d := lives[k], AfterLives(env, trusted, lives[..k]).value;
      LivesGoodSomewhere(env, trusted, lives[..k]);
      GrownIsGoodSomewhere(env, trusted, life, d);
      TwiceIsGoodSomewhere(env, trusted, LifeEnd(life, d).sink, LifeEnd(life, d).spool, life.resent);
    }
  }

  /** What the verifier sees across crashes and restarts, exactly: the sink verifies if and only if no
      record in it stands visibly after one that its own life dropped, and none shows that a life sent
      a chained record twice. What a life drops after its last kept record is never reported. */
  lemma {:induction false} LivesVerifyIff(env: Env, trusted: TrustedKeys, lives: seq<Life>)
    requires AfterLives(env, trusted, lives).Some?
    ensures var sink := AfterLives(env, trusted, lives).value.sink;
            Verify(env, trusted, Published(sink)).ok <==> ClearUpTo(env, trusted, lives, |sink|)
  {
    var d := AfterLives(env, trusted, lives).value;
    assert Line(d)[..|d.sink|] == d.sink;
    LivesLineIff(env, trusted, lives, |d.sink|);
    LivesGoodSomewhere(env, trusted, lives);
    forall i | 0 <= i < |d.sink| ensures GoodSomewhere(env, trusted, d.sink[i]) {
      assert Line(d)[i] == d.sink[i];
    }
    OkIffGoodLine(env, trusted, d.sink);
  }

  /** The life drops chained records only after the last record it keeps, and sends none twice. */
  ghost predicate QuietLife(life: Life, d: Disk)
    requires Increasing(life.read, |d.sink|) && life.resent <= |LifeEnd(life, d).spool|
  {
    var w := LifeEnd(life, d);
    && (forall j, q :: 0 <= j < |w.emitted| && j !in w.kept && w.emitted[j].IsChained() && 0 <= q < |w.kept| ==> w.kept[q] < j)
    && ChainedCount(w.spool[..life.resent]) == 0
  }

  ghost predicate QuietLives(env: Env, trusted: TrustedKeys, lives: seq<Life>)
    requires AfterLives(env, trusted, lives).Some?
  {
    lives != [] ==>
      var k := |lives| - 1;
      QuietLives(env, trusted, lives[..k]) && QuietLife(lives[k], AfterLives(env, trusted, lives[..k]).value)
  }

  lemma {:induction false} QuietLivesAreClear(env: Env, trusted: TrustedKeys, lives: seq<Life>, n: nat)
    requires AfterLives(env, trusted, lives).Some? && QuietLives(env, trusted, lives)
    ensures ClearUpTo(env, trusted, lives, n)
  {
    if lives != [] {
      var k := |lives| - 1;
      var d := AfterLives(env, trusted, lives[..k]).value;
      LifeAdds(env, trusted, lives[k], d);
      QuietLivesAreClear(env, trusted, lives[..k], Before(lives[k], d, n));
    }
  }

  /** Through any number of crashes and restarts whose tail reads reach, if nothing chained is sent twice
      or dropped except after the last kept record of a life, the sink verifies with its exact count
      and sink followed by spool is one chain from genesis. */
  lemma {:induction false} LivesVerify(env: Env, trusted: TrustedKeys, lives: seq<Life>)
    requires AfterLives(env, trusted, lives).Some? && QuietLives(env, trusted, lives)
    ensures var d := AfterLives(env, trusted, lives).value;
            && GoodLine(env, trusted, Line(d))
            && Verify(env, trusted, Published(d.sink)).ok
            && Verify(env, trusted, Published(d.sink)).records == ChainedCount(d.sink)
  {
    var d := AfterLives(env, trusted, lives).value;
    QuietLivesAreClear(env, trusted, lives, |Line(d)|);
    LivesLineIff(env, trusted, lives, |Line(d)|);
    assert Line(d)[..|Line(d)|] == Line(d);
    LineConcat(env, trusted, d.sink, d.spool);
    GoodLineVerifies(env, trusted, d.sink);
  }

  /** A restart that does not reach forks the chain: if its life drops nothing and emits a chained
      record, what it leaves no longer verifies once the spool has drained. */
  lemma StaleRestartForks(env: Env, trusted: TrustedKeys, life: Life, d: Disk)
    requires SoundLife(env, trusted, life, d) && !Reaches(life, d) && GoodLine(env, trusted, Line(d))
    requires var w := LifeEnd(life, d); w.dropped == 0 && ChainedCount(w.emitted) > 0
    ensures var w := LifeEnd(life, d); !Verify(env, trusted, Published(w.sink + w.spool)).ok
  {
    var w0 := LifeStart(life, d);
    var w, sha := LifeEnd(life, d), env.sha;
    LifeAdds(env, trusted, life, d);
    NothingLost(life.cfg, d.sink, d.spool, w);
    LineIsRight(env, trusted, Line(d));
    RestartFindsChainIff(sha, d.sink, d.spool, life.read);
    StaleStampIsMisplaced(env, trusted, Line(d), w0.chain, w.emitted);
  }

  lemma {:induction false} BothGoodSomewhere(env: Env, trusted: TrustedKeys, line: seq<AuditRecord>, c: Chain,
                                             emitted: seq<AuditRecord>)
    requires GoodLine(env, trusted, line) && GoodFrom(env.sha, GoodPlace(env, trusted), c, emitted)
    ensures AllGoodSomewhere(env, trusted, line + emitted)
  {
    LineIsGoodSomewhere(env, trusted, line);
    forall i | 0 <= i < |emitted| ensures GoodSomewhere(env, trusted, emitted[i]) {
      EmittedIsGoodSomewhere(env, trusted, c, emitted, i);
    }
  }

  /** Records good from `c` are not good from a later position. */
  lemma {:induction false} StaleIsNotGood(env: Env, trusted: TrustedKeys, c: Chain, end: Chain,
                                          emitted: seq<AuditRecord>)
    requires GoodFrom(env.sha, GoodPlace(env, trusted), c, emitted) && c.nextSeq < end.nextSeq && ChainedCount(emitted) > 0
    ensures !GoodFrom(env.sha, GoodPlace(env, trusted), end, emitted)
  {
    var i := FirstChained(emitted);
    FoldCounts(env.sha, c, ChainedValues(emitted[..i]));
    FoldCounts(env.sha, end, ChainedValues(emitted[..i]));
    var there, here := ChainAfter(env.sha, c, emitted[..i]), ChainAfter(env.sha, end, emitted[..i]);
    assert GoodPlace(env, trusted)(emitted[i], there);
    GoodElsewhere(env, trusted, emitted[i], there, here);
    assert !GoodPlace(env, trusted)(emitted[i], here);
  }

  lemma {:induction false} StaleStampIsMisplaced(env: Env, trusted: TrustedKeys, line: seq<AuditRecord>, c: Chain,
                                                 emitted: seq<AuditRecord>)
    requires GoodLine(env, trusted, line) && GoodFrom(env.sha, GoodPlace(env, trusted), c, emitted)
    requires c.nextSeq < ChainAfter(env.sha, GENESIS, line).nextSeq && ChainedCount(emitted) > 0
    ensures !Verify(env, trusted, Published(line + emitted)).ok
  {
    BothGoodSomewhere(env, trusted, line, c, emitted);
    OkIffGoodLine(env, trusted, line + emitted);
    LineConcat(env, trusted, line, emitted);
    StaleIsNotGood(env, trusted, c, ChainAfter(env.sha, GENESIS, line), emitted);
  }

  /** A crash in the middle of an append loses only that record: reopening the file with the torn
      frame on it recovers the spool as it was, and the restart resumes at the position the lost
      record would have had exactly when it would have without the crash. */
  lemma {:induction false} CrashDuringAppend(sha: Sha256, codec: Codec<AuditRecord>, d: Disk, read: seq<nat>,
                                             file: bytes, lost: AuditRecord, torn: bytes)
    requires Lawful(codec) && Clean(codec, file) && Recovered(codec, file) == d.spool
    requires codec.fits(lost) && torn <= codec.frame(lost) && torn != codec.frame(lost)
    requires RightLine(sha, Line(d)) && Increasing(read, |d.sink|)
    ensures Recovered(codec, file + torn) == d.spool && TornTail(codec, file + torn) == torn
    ensures RestartChain(sha, d.sink, Recovered(codec, file + torn), read) == ChainAfter(sha, GENESIS, Line(d)) <==>
            ChainedCount(d.spool) > 0 || TailReaches(d.sink, read)
  {
    TornTailRecovery(codec, file, lost, torn, lost);
    RestartFindsChainIff(sha, d.sink, d.spool, read);
  }
}
