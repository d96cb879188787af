/** What holds of every run of the writer, for every order of events, ticks, sink failures and
    recoveries. A run that closes its channel is a run whose last action is a checkpoint tick. */
module AuditRuns {
  import opened Bytes
  import opened AuditChain
  import opened AuditRecords
  import opened AuditWriters

  lemma CloseIsATick(cfg: Config, w: Writer, actions: seq<Action>, now: Millis)
    ensures Close(cfg, Run(cfg, w, actions), now) == Run(cfg, w, actions + [CheckpointTick(now)])
  {
    assert (actions + [CheckpointTick(now)])[..|actions|] == actions;
  }

  // ---- Delivery: order, accounting, nothing invented ----

  ghost predicate Increasing(kept: seq<nat>, limit: nat)
  {
    && (forall i :: 0 <= i < |kept| ==> kept[i] < limit)
    && (forall i, j :: 0 <= i < j < |kept| ==> kept[i] < kept[j])
  }

  /** The emitted records at the kept indices. */
  ghost function Pick(emitted: seq<AuditRecord>, kept: seq<nat>): seq<AuditRecord>
    requires Increasing(kept, |emitted|)
  {
    seq(|kept|, i requires 0 <= i < |kept| => emitted[kept[i]])
  }

  /** Sink followed by spool is what was there at the start followed by the kept emissions, in
      order; every emission is kept or counted as dropped; the spool counters balance; and outside
      spool mode the spool is empty. */
  ghost predicate Delivered(cfg: Config, sink0: seq<AuditRecord>, spool0: seq<AuditRecord>, w: Writer)
  {
    && Increasing(w.kept, |w.emitted|)
    && |w.kept| + w.dropped == |w.emitted|
    && w.sink + w.spool == sink0 + spool0 + Pick(w.emitted, w.kept)
    && |w.spool| + w.replayed == |spool0| + w.spooled
    && (!w.spooling ==> w.spool == [])
    && (cfg.spoolCap.None? ==> w.spool == [])
  }

  lemma PickSnoc(emitted: seq<AuditRecord>, kept: seq<nat>, r: AuditRecord)
    requires Increasing(kept, |emitted|)
    ensures Increasing(kept, |emitted + [r]|) && Pick(emitted + [r], kept) == Pick(emitted, kept)
    ensures Increasing(kept + [|emitted|], |emitted + [r]|)
    ensures Pick(emitted + [r], kept + [|emitted|]) == Pick(emitted, kept) + [r]
  {
  }

  lemma WriteDelivers(cfg: Config, sink0: seq<AuditRecord>, spool0: seq<AuditRecord>, w: Writer, r: AuditRecord)
    requires Delivered(cfg, sink0, spool0, w)
    ensures Delivered(cfg, sink0, spool0, WriteOrSpool(cfg, w, r))
  {
    PickSnoc(w.emitted, w.kept, r);
    var line, picked := sink0 + spool0, Pick(w.emitted, w.kept);
    assert line + picked + [r] == line + (picked + [r]);
    assert w.sink + (w.spool + [r]) == w.sink + w.spool + [r];
    if !w.spooling {
      assert w.sink + [r] + w.spool == w.sink + w.spool + [r];
    }
  }

  lemma ReplayDelivers(cfg: Config, sink0: seq<AuditRecord>, spool0: seq<AuditRecord>, w: Writer)
    requires Delivered(cfg, sink0, spool0, w)
    ensures Delivered(cfg, sink0, spool0, TryReplay(cfg, w))
  {
    if cfg.spoolCap.Some? && w.spool != [] {
      var k := Successes(cfg.sinkAccepts, w.attempts, |w.spool|);
      assert w.sink + w.spool[..k] + w.spool[k..] == w.sink + w.spool;
      assert w.sink + w.spool + [] == w.sink + w.spool;
    }
  }

  lemma EventDelivers(cfg: Config, sink0: seq<AuditRecord>, spool0: seq<AuditRecord>, w: Writer, e: AuditEvent)
    requires Delivered(cfg, sink0, spool0, w)
    ensures Delivered(cfg, sink0, spool0, WriteChained(cfg, w, e))
  {
    WriteDelivers(cfg, sink0, spool0, w.(chain := Extend(cfg.env.sha, w.chain, e.ocsf)), Stamp(e, w.chain));
  }

  lemma CheckpointDelivers(cfg: Config, sink0: seq<AuditRecord>, spool0: seq<AuditRecord>, w: Writer, now: Millis)
    requires Delivered(cfg, sink0, spool0, w)
    ensures Delivered(cfg, sink0, spool0, EmitCheckpoint(cfg, w, now))
  {
    if cfg.signer.Some? {
      WriteDelivers(cfg, sink0, spool0, w, NextCheckpoint(cfg, w.chain, now));
    }
  }

  lemma ActDelivers(cfg: Config, sink0: seq<AuditRecord>, spool0: seq<AuditRecord>, w: Writer, a: Action)
    requires Delivered(cfg, sink0, spool0, w)
    ensures Delivered(cfg, sink0, spool0, Act(cfg, w, a))
  {
    match a
    case Receive(e, now) =>
      EventDelivers(cfg, sink0, spool0, w, e);
      CheckpointDelivers(cfg, sink0, spool0, WriteChained(cfg, w, e), now);
    case CheckpointTick(now) =>
      CheckpointDelivers(cfg, sink0, spool0, w, now);
    case ReplayTick =>
      ReplayDelivers(cfg, sink0, spool0, w);
  }

  /** Accounting over every run, drops included. */
  lemma {:induction false} RunDelivers(cfg: Config, c: Chain, sink0: seq<AuditRecord>, spool0: seq<AuditRecord>,
                                       bytes0: nat, actions: seq<Action>)
    requires cfg.spoolCap.None? ==> spool0 == []
    ensures Delivered(cfg, sink0, spool0, Run(cfg, Start(c, sink0, spool0, bytes0), actions))
  {
    if actions == [] {
      assert sink0 + spool0 + [] == sink0 + spool0;
    } else {
      var n := |actions| - 1;
      RunDelivers(cfg, c, sink0, spool0, bytes0, actions[..n]);
      ActDelivers(cfg, sink0, spool0, Run(cfg, Start(c, sink0, spool0, bytes0), actions[..n]), actions[n]);
    }
  }

  lemma {:induction false} FullIncreasing(kept: seq<nat>, limit: nat, i: nat)
    requires Increasing(kept, limit) && |kept| == limit && i < limit
    ensures kept[i] == i
    decreases limit - i
  {
    IncreasingAtLeast(kept, limit, i);
    if i + 1 < limit {
      FullIncreasing(kept, limit, i + 1);
    }
  }

  lemma {:induction false} IncreasingAtLeast(kept: seq<nat>, limit: nat, i: nat)
    requires Increasing(kept, limit) && i < |kept|
    ensures kept[i] >= i
  {
    if i > 0 {
      IncreasingAtLeast(kept, limit, i - 1);
    }
  }

  /** With nothing dropped, sink followed by spool is exactly everything, in emission order. */
  lemma NothingLost(cfg: Config, sink0: seq<AuditRecord>, spool0: seq<AuditRecord>, w: Writer)
    requires Delivered(cfg, sink0, spool0, w) && w.dropped == 0
    ensures w.sink + w.spool == sink0 + spool0 + w.emitted
  {
    forall i | 0 <= i < |w.emitted| ensures w.kept[i] == i {
      FullIncreasing(w.kept, |w.emitted|, i);
    }
    assert Pick(w.emitted, w.kept) == w.emitted;
  }

  // ---- Stamping: every emission fits the chain at its place ----

  /** `good(r, c)` says that record `r` is right at chain position `c`. */
  type Place = (AuditRecord, Chain) -> bool

  ghost predicate GoodFrom(sha: Sha256, good: Place, c: Chain, rs: seq<AuditRecord>)
  {
    forall i :: 0 <= i < |rs| ==> good(rs[i], ChainAfter(sha, c, rs[..i]))
  }

  lemma GoodSnoc(sha: Sha256, good: Place, c: Chain, rs: seq<AuditRecord>, r: AuditRecord)
    requires GoodFrom(sha, good, c, rs) && good(r, ChainAfter(sha, c, rs))
    ensures GoodFrom(sha, good, c, rs + [r])
  {
    forall i | 0 <= i < |rs + [r]| ensures good((rs + [r])[i], ChainAfter(sha, c, (rs + [r])[..i])) {
      assert (rs + [r])[..i] == rs[..i];
      assert i == |rs| ==> rs[..i] == rs;
    }
  }

  lemma GoodConcat(sha: Sha256, good: Place, c: Chain, a: seq<AuditRecord>, b: seq<AuditRecord>)
    ensures GoodFrom(sha, good, c, a + b) <==>
            GoodFrom(sha, good, c, a) && GoodFrom(sha, good, ChainAfter(sha, c, a), b)
  {
    var ab := a + b;
    forall i | 0 <= i < |a| ensures ab[i] == a[i] && ab[..i] == a[..i] {}
    forall j | 0 <= j < |b|
      ensures ab[|a| + j] == b[j]
      ensures ChainAfter(sha, c, ab[..|a| + j]) == ChainAfter(sha, ChainAfter(sha, c, a), b[..j])
    {
      assert ab[..|a| + j] == a + b[..j];
      ChainAfterConcat(sha, c, a, b[..j]);
    }
    if GoodFrom(sha, good, c, ab) {
      forall j | 0 <= j < |b| ensures good(b[j], ChainAfter(sha, ChainAfter(sha, c, a), b[..j])) {
        assert good(ab[|a| + j], ChainAfter(sha, c, ab[..|a| + j]));
      }
      forall i | 0 <= i < |a| ensures good(a[i], ChainAfter(sha, c, a[..i])) {
        assert good(ab[i], ChainAfter(sha, c, ab[..i]));
      }
    } else if GoodFrom(sha, good, c, a) && GoodFrom(sha, good, ChainAfter(sha, c, a), b) {
      forall i | 0 <= i < |ab| ensures good(ab[i], ChainAfter(sha, c, ab[..i])) {
        if i >= |a| {
          assert ab[|a| + (i - |a|)] == b[i - |a|];
        }
      }
    }
  }

  /** The writer's own records are right where it emits them. */
  ghost predicate StampsGood(cfg: Config, good: Place)
  {
    && (forall e, c: Chain {:trigger Stamp(e, c)} :: c.nextSeq < U64_LIMIT ==> good(Stamp(e, c), c))
    && (cfg.signer.Some? ==>
          forall c: Chain, now: Millis {:trigger NextCheckpoint(cfg, c, now)} ::
            c.nextSeq <= U64_LIMIT ==> good(NextCheckpoint(cfg, c, now), c))
  }

  ghost predicate Stamped(cfg: Config, good: Place, c: Chain, w: Writer)
  {
    GoodFrom(cfg.env.sha, good, c, w.emitted) && w.chain == ChainAfter(cfg.env.sha, c, w.emitted)
  }

  lemma WriteEventStamps(cfg: Config, good: Place, c: Chain, w: Writer, e: AuditEvent)
    requires StampsGood(cfg, good) && Stamped(cfg, good, c, w) && w.chain.nextSeq < U64_LIMIT
    ensures Stamped(cfg, good, c, WriteChained(cfg, w, e))
    ensures WriteChained(cfg, w, e).chain.nextSeq == w.chain.nextSeq + 1
  {
    var r := Stamp(e, w.chain);
    GoodSnoc(cfg.env.sha, good, c, w.emitted, r);
    ChainAfterSnoc(cfg.env.sha, c, w.emitted, r);
  }

  lemma WriteCheckpointStamps(cfg: Config, good: Place, c: Chain, w: Writer, now: Millis)
    requires StampsGood(cfg, good) && Stamped(cfg, good, c, w) && w.chain.nextSeq <= U64_LIMIT
    ensures Stamped(cfg, good, c, EmitCheckpoint(cfg, w, now))
    ensures EmitCheckpoint(cfg, w, now).chain == w.chain
  {
    if cfg.signer.Some? {
      var r := NextCheckpoint(cfg, w.chain, now);
      GoodSnoc(cfg.env.sha, good, c, w.emitted, r);
      ChainAfterSnoc(cfg.env.sha, c, w.emitted, r);
    }
  }

  lemma ReceiveStamps(cfg: Config, good: Place, c: Chain, w: Writer, e: AuditEvent, now: Millis)
    requires StampsGood(cfg, good) && Stamped(cfg, good, c, w) && w.chain.nextSeq < U64_LIMIT
    ensures Stamped(cfg, good, c, Act(cfg, w, Receive(e, now)))
    ensures Act(cfg, w, Receive(e, now)).chain.nextSeq == w.chain.nextSeq + 1
  {
    var w' := WriteChained(cfg, w, e);
    WriteEventStamps(cfg, good, c, w, e);
    WriteCheckpointStamps(cfg, good, c, w', now);
    assert Act(cfg, w, Receive(e, now)) == w' || Act(cfg, w, Receive(e, now)) == EmitCheckpoint(cfg, w', now);
  }

  lemma ReplayStamps(cfg: Config, good: Place, c: Chain, w: Writer)
    requires Stamped(cfg, good, c, w)
    ensures Stamped(cfg, good, c, TryReplay(cfg, w)) && TryReplay(cfg, w).chain == w.chain
  {
    assert TryReplay(cfg, w).emitted == w.emitted;
  }

  lemma ActStamps(cfg: Config, good: Place, c: Chain, w: Writer, a: Action)
    requires StampsGood(cfg, good) && Stamped(cfg, good, c, w) && w.chain.nextSeq < U64_LIMIT
    ensures Stamped(cfg, good, c, Act(cfg, w, a))
    ensures Act(cfg, w, a).chain.nextSeq <= w.chain.nextSeq + 1
  {
    match a
    case Receive(e, now) =>
      ReceiveStamps(cfg, good, c, w, e, now);
    case CheckpointTick(now) =>
      WriteCheckpointStamps(cfg, good, c, w, now);
      assert Act(cfg, w, a) == w || Act(cfg, w, a) == EmitCheckpoint(cfg, w, now);
    case ReplayTick =>
      ReplayStamps(cfg, good, c, w);
      assert Act(cfg, w, a) == w || Act(cfg, w, a) == TryReplay(cfg, w);
  }

  lemma {:induction false} RunStamps(cfg: Config, good: Place, w0: Writer, actions: seq<Action>)
    requires StampsGood(cfg, good) && w0.emitted == []
    requires w0.chain.nextSeq + |actions| <= U64_LIMIT
    ensures Stamped(cfg, good, w0.chain, Run(cfg, w0, actions))
    ensures Run(cfg, w0, actions).chain.nextSeq <= w0.chain.nextSeq + |actions|
  {
    if actions != [] {
      var n := |actions| - 1;
      RunStamps(cfg, good, w0, actions[..n]);
      ActStamps(cfg, good, w0.chain, Run(cfg, w0, actions[..n]), actions[n]);
    }
  }

  // ---- The unsigned tail ----

  /** Chained records after the last checkpoint. */
  function Tail(rs: seq<AuditRecord>): nat
  {
    if rs == [] || !rs[|rs| - 1].IsChained() then 0 else Tail(rs[..|rs| - 1]) + 1
  }

  ghost predicate TailWithin(rs: seq<AuditRecord>, n: nat)
  {
    forall k :: 0 <= k <= |rs| ==> Tail(rs[..k]) <= n
  }

  lemma TailSnoc(rs: seq<AuditRecord>, r: AuditRecord)
    ensures Tail(rs + [r]) == if r.IsChained() then Tail(rs) + 1 else 0
  {
    assert (rs + [r])[..|rs|] == rs;
  }

  lemma TailWithinSnoc(rs: seq<AuditRecord>, r: AuditRecord, n: nat)
    requires TailWithin(rs, n) && Tail(rs + [r]) <= n
    ensures TailWithin(rs + [r], n)
  {
    forall k | 0 <= k <= |rs + [r]| ensures Tail((rs + [r])[..k]) <= n {
      assert k <= |rs| ==> (rs + [r])[..k] == rs[..k];
      assert k == |rs| + 1 ==> (rs + [r])[..k] == rs + [r];
    }
  }

  /** The checkpoint counter is the unsigned tail. With a count trigger of n, no prefix of the
      emission log has more than n chained records after its last checkpoint, and `slack` fewer at
      its end. */
  ghost predicate TailCounted(cfg: Config, w: Writer, slack: nat)
  {
    && w.since == Tail(w.emitted)
    && (cfg.everyN > 0 ==> w.since + slack <= cfg.everyN && TailWithin(w.emitted, cfg.everyN))
  }

  lemma WriteEventTail(cfg: Config, w: Writer, e: AuditEvent)
    requires TailCounted(cfg, w, 1)
    ensures TailCounted(cfg, WriteChained(cfg, w, e), 0)
  {
    var r := Stamp(e, w.chain);
    TailSnoc(w.emitted, r);
    if cfg.everyN > 0 {
      TailWithinSnoc(w.emitted, r, cfg.everyN);
    }
  }

  lemma WriteCheckpointTail(cfg: Config, w: Writer, now: Millis)
    requires cfg.signer.Some? && TailCounted(cfg, w, 0)
    ensures TailCounted(cfg, EmitCheckpoint(cfg, w, now), 1) && EmitCheckpoint(cfg, w, now).since == 0
  {
    var r := NextCheckpoint(cfg, w.chain, now);
    TailSnoc(w.emitted, r);
    if cfg.everyN > 0 {
      TailWithinSnoc(w.emitted, r, cfg.everyN);
    }
  }

  lemma ActTail(cfg: Config, w: Writer, a: Action)
    requires cfg.signer.Some? && TailCounted(cfg, w, 1)
    ensures TailCounted(cfg, Act(cfg, w, a), 1)
  {
    match a
    case Receive(e, now) =>
      WriteEventTail(cfg, w, e);
      WriteCheckpointTail(cfg, WriteChained(cfg, w, e), now);
    case CheckpointTick(now) =>
      WriteCheckpointTail(cfg, w, now);
    case ReplayTick =>
  }

  /** A signing writer with a count trigger of n never lets more than n chained records stand
      unsigned, at any point of any run. */
  lemma {:induction false} UnsignedTailBounded(cfg: Config, w0: Writer, actions: seq<Action>)
    requires cfg.signer.Some? && w0.emitted == [] && w0.since == 0
    ensures TailCounted(cfg, Run(cfg, w0, actions), 1)
  {
    if actions != [] {
      var n := |actions| - 1;
      UnsignedTailBounded(cfg, w0, actions[..n]);
      ActTail(cfg, Run(cfg, w0, actions[..n]), actions[n]);
    }
  }

  /** When the channel closes, a signing writer has covered everything it emitted. */
  lemma ClosedLogIsCovered(cfg: Config, w0: Writer, actions: seq<Action>, now: Millis)
    requires cfg.signer.Some? && w0.emitted == [] && w0.since == 0
    ensures Tail(Close(cfg, Run(cfg, w0, actions), now).emitted) == 0
  {
    UnsignedTailBounded(cfg, w0, actions);
    WriteCheckpointTail(cfg, Run(cfg, w0, actions), now);
  }

  /** The first record a writer emits is a chained one. */
  ghost predicate StartsChained(w: Writer)
  {
    (w.since > 0 ==> w.emitted != []) && (w.emitted != [] ==> w.emitted[0].IsChained())
  }

  lemma {:induction false} FirstEmissionIsChained(cfg: Config, w0: Writer, actions: seq<Action>)
    requires w0.emitted == [] && w0.since == 0
    ensures StartsChained(Run(cfg, w0, actions))
  {
    if actions != [] {
      var n := |actions| - 1;
      FirstEmissionIsChained(cfg, w0, actions[..n]);
      var w := Run(cfg, w0, actions[..n]);
      match actions[n]
      case Receive(e, _) => assert StartsChained(WriteChained(cfg, w, e));
      case CheckpointTick(_) =>
      case ReplayTick =>
    }
  }

  // ---- Counting what a subsequence misses ----

  /** `picked` are the records of `all` at the increasing indices `kept`. */
  ghost predicate PickedFrom(all: seq<AuditRecord>, kept: seq<nat>, picked: seq<AuditRecord>)
  {
    && Increasing(kept, |all|) && |picked| == |kept|
    && forall i :: 0 <= i < |kept| ==> picked[i] == all[kept[i]]
  }

  lemma ChainedSplit(rs: seq<AuditRecord>)
    requires rs != []
    ensures var n := |rs| - 1;
            ChainedValues(rs) == ChainedValues(rs[..n]) + (if rs[n].IsChained() then [rs[n].value] else [])
  {
  }

  lemma CountSplit(rs: seq<AuditRecord>)
    requires rs != []
    ensures ChainedCount(rs) == ChainedCount(rs[..|rs| - 1]) + (if rs[|rs| - 1].IsChained() then 1 else 0)
  {
  }

  lemma PickedPrefix(all: seq<AuditRecord>, kept: seq<nat>, picked: seq<AuditRecord>)
    requires all != [] && PickedFrom(all, kept, picked)
    ensures var m, q := |all| - 1, |kept| - 1;
            if q >= 0 && kept[q] == m then picked[q] == all[m] && PickedFrom(all[..m], kept[..q], picked[..q])
            else PickedFrom(all[..m], kept, picked)
  {
    var m, q := |all| - 1, |kept| - 1;
    if q >= 0 && kept[q] != m {
      assert forall i :: 0 <= i < q ==> kept[i] < kept[q];
    }
  }

  /** A subsequence has no more chained records than the whole, and as many only with the same values. */
  lemma {:induction false} PickedCount(all: seq<AuditRecord>, kept: seq<nat>, picked: seq<AuditRecord>)
    requires PickedFrom(all, kept, picked)
    ensures ChainedCount(picked) <= ChainedCount(all)
    ensures ChainedCount(picked) == ChainedCount(all) ==> ChainedValues(picked) == ChainedValues(all)
    decreases |all|
  {
    if all != [] {
      var m, q := |all| - 1, |kept| - 1;
      PickedPrefix(all, kept, picked);
      ChainedSplit(all);
      if q >= 0 && kept[q] == m {
        ChainedSplit(picked);
        PickedCount(all[..m], kept[..q], picked[..q]);
      } else {
        PickedCount(all[..m], kept, picked);
      }
    }
  }

  /** Keeping every chained record keeps the count. */
  lemma {:induction false} PickedKeepsAll(all: seq<AuditRecord>, kept: seq<nat>, picked: seq<AuditRecord>)
    requires PickedFrom(all, kept, picked) && forall j :: 0 <= j < |all| && all[j].IsChained() ==> j in kept
    ensures ChainedCount(picked) == ChainedCount(all)
    decreases |all|
  {
    if all != [] {
      var m, q := |all| - 1, |kept| - 1;
      PickedPrefix(all, kept, picked);
      CountSplit(all);
      if all[m].IsChained() {
        var i :| 0 <= i < |kept| && kept[i] == m;
        assert i == q;
      }
      var keeps := q >= 0 && kept[q] == m;
      var kept' := if keeps then kept[..q] else kept;
      forall j | 0 <= j < m && all[..m][j].IsChained() ensures j in kept' {
        assert all[j].IsChained();
        var i :| 0 <= i < |kept| && kept[i] == j;
        assert i < |kept'| && kept'[i] == j;
      }
      if keeps {
        CountSplit(picked);
        PickedKeepsAll(all[..m], kept', picked[..q]);
      } else {
        PickedKeepsAll(all[..m], kept', picked);
      }
    }
  }

  lemma StillMissing(kept: seq<nat>, q: nat, j: nat)
    requires q < |kept| && j !in kept
    ensures j != kept[q] && j !in kept[..q]
  {
  }

  /** Leaving out one chained record shows in the count. */
  lemma {:induction false} PickedMisses(all: seq<AuditRecord>, kept: seq<nat>, picked: seq<AuditRecord>, j: nat)
    requires PickedFrom(all, kept, picked)
    requires j < |all| && j !in kept && all[j].IsChained()
    ensures ChainedCount(picked) < ChainedCount(all)
    decreases |all|
  {
    var m, q := |all| - 1, |kept| - 1;
    PickedPrefix(all, kept, picked);
    CountSplit(all);
    if q >= 0 && kept[q] == m {
      CountSplit(picked);
      StillMissing(kept, q, j);
      PickedMisses(all[..m], kept[..q], picked[..q], j);
    } else if j == m {
      PickedCount(all[..m], kept, picked);
    } else {
      PickedMisses(all[..m], kept, picked, j);
    }
  }
}
