/** Where every emission goes: what a run emits, what decides between sink, spool and drop, and what
    holds once the sink has recovered. */
module AuditDelivery {
  import opened Bytes
  import opened AuditChain
  import opened AuditRecords
  import opened SpoolFiles
  import opened AuditVerify
  import opened AuditWriters
  import opened AuditRuns
  import opened AuditEndToEnd
  import opened AuditRestart

  lemma RunOneMore(cfg: Config, w0: Writer, actions: seq<Action>, a: Action)
    ensures Run(cfg, w0, actions + [a]) == Act(cfg, Run(cfg, w0, actions), a)
  {
    assert (actions + [a])[..|actions|] == actions;
  }

  // ---- What each arm emits ----

  lemma {:induction false} RunChain(cfg: Config, w0: Writer, actions: seq<Action>)
    requires w0.emitted == []
    ensures var w := Run(cfg, w0, actions); w.chain == ChainAfter(cfg.env.sha, w0.chain, w.emitted)
  {
    if actions != [] {
      var n := |actions| - 1;
      RunChain(cfg, w0, actions[..n]);
      ArmChain(cfg, w0.chain, Run(cfg, w0, actions[..n]), actions[n]);
    }
  }

  lemma ArmChain(cfg: Config, c: Chain, w: Writer, a: Action)
    requires w.chain == ChainAfter(cfg.env.sha, c, w.emitted)
    ensures var w' := Act(cfg, w, a); w'.chain == ChainAfter(cfg.env.sha, c, w'.emitted)
  {
    match a
    case Receive(e, now) =>
      var w' := WriteChained(cfg, w, e);
      ChainAfterSnoc(cfg.env.sha, c, w.emitted, Stamp(e, w.chain));
      CheckpointChain(cfg, c, w', now);
    case CheckpointTick(now) =>
      CheckpointChain(cfg, c, w, now);
    case ReplayTick =>
  }

  lemma CheckpointChain(cfg: Config, c: Chain, w: Writer, now: Millis)
    requires w.chain == ChainAfter(cfg.env.sha, c, w.emitted)
    ensures var w' := EmitCheckpoint(cfg, w, now); w'.chain == w.chain == ChainAfter(cfg.env.sha, c, w'.emitted)
  {
    if cfg.signer.Some? {
      ChainAfterSnoc(cfg.env.sha, c, w.emitted, NextCheckpoint(cfg, w.chain, now));
    }
  }

  /** The log with a checkpoint of its chain behind it. */
  function Signed(cfg: Config, c: Chain, log: seq<AuditRecord>, now: Millis): seq<AuditRecord>
    requires cfg.signer.Some?
  {
    log + [NextCheckpoint(cfg, ChainAfter(cfg.env.sha, c, log), now)]
  }

  /** What an arm adds to the emission log, told from the log alone. An event adds its record, stamped
      with the chain of the log, and a checkpoint exactly when it is the n-th record since the last
      one. A tick adds a checkpoint exactly when the log has an unsigned tail. Replay adds nothing. */
  lemma ArmEmits(cfg: Config, w0: Writer, actions: seq<Action>, a: Action)
    requires cfg.signer.Some? && w0.emitted == [] && w0.since == 0
    ensures var c, log := w0.chain, Run(cfg, w0, actions).emitted;
            Run(cfg, w0, actions + [a]).emitted ==
            match a
            case Receive(e, now) =>
              var stamped := log + [Stamp(e, ChainAfter(cfg.env.sha, c, log))];
              if Tail(stamped) == cfg.everyN then Signed(cfg, c, stamped, now) else stamped
            case CheckpointTick(now) => if Tail(log) > 0 then Signed(cfg, c, log, now) else log
            case ReplayTick => log
  {
    var w := Run(cfg, w0, actions);
    RunOneMore(cfg, w0, actions, a);
    RunChain(cfg, w0, actions);
    UnsignedTailBounded(cfg, w0, actions);
    if a.Receive? {
      TailSnoc(w.emitted, Stamp(a.event, w.chain));
      ChainAfterSnoc(cfg.env.sha, w0.chain, w.emitted, Stamp(a.event, w.chain));
    }
  }

  /** Without a signer only the events are emitted. */
  lemma ArmEmitsUnsigned(cfg: Config, w0: Writer, actions: seq<Action>, a: Action)
    requires cfg.signer.None? && w0.emitted == []
    ensures var log := Run(cfg, w0, actions).emitted;
            Run(cfg, w0, actions + [a]).emitted ==
            if a.Receive? then log + [Stamp(a.event, ChainAfter(cfg.env.sha, w0.chain, log))] else log
  {
    RunOneMore(cfg, w0, actions, a);
    RunChain(cfg, w0, actions);
  }

  // ---- The emission log does not depend on delivery ----

  /** The same signer, hash and trigger; sink, spool and codec may differ. */
  ghost predicate SameEmitter(cfg: Config, cfg': Config)
  {
    cfg.env == cfg'.env && cfg.signer == cfg'.signer && cfg.everyN == cfg'.everyN
  }

  predicate SameEmission(w: Writer, w': Writer)
  {
    w.emitted == w'.emitted && w.chain == w'.chain && w.since == w'.since
  }

  /** The actions without replay. */
  function Heard(actions: seq<Action>): seq<Action>
  {
    if actions == [] then []
    else Heard(actions[..|actions| - 1]) + (if actions[|actions| - 1].ReplayTick? then [] else [actions[|actions| - 1]])
  }

  lemma SameEvent(cfg: Config, cfg': Config, w: Writer, w': Writer, e: AuditEvent)
    requires SameEmitter(cfg, cfg') && SameEmission(w, w')
    ensures SameEmission(WriteChained(cfg, w, e), WriteChained(cfg', w', e))
  {
  }

  lemma SameCheckpoint(cfg: Config, cfg': Config, w: Writer, w': Writer, now: Millis)
    requires SameEmitter(cfg, cfg') && SameEmission(w, w')
    ensures SameEmission(EmitCheckpoint(cfg, w, now), EmitCheckpoint(cfg', w', now))
  {
  }

  lemma ReplayEmitsNothing(cfg: Config, w: Writer)
    ensures SameEmission(Act(cfg, w, ReplayTick), w)
  {
  }

  lemma SameArm(cfg: Config, cfg': Config, w: Writer, w': Writer, a: Action)
    requires SameEmitter(cfg, cfg') && SameEmission(w, w')
    ensures SameEmission(Act(cfg, w, a), Act(cfg', w', a))
  {
    match a
    case Receive(e, now) =>
      SameEvent(cfg, cfg', w, w', e);
      SameCheckpoint(cfg, cfg', WriteChained(cfg, w, e), WriteChained(cfg', w', e), now);
    case CheckpointTick(now) =>
      SameCheckpoint(cfg, cfg', w, w', now);
    case ReplayTick =>
      ReplayEmitsNothing(cfg, w);
      ReplayEmitsNothing(cfg', w');
  }

  lemma {:induction false} HeardIsEnough(cfg: Config, cfg': Config, w: Writer, w': Writer, actions: seq<Action>)
    requires SameEmitter(cfg, cfg') && SameEmission(w, w')
    ensures SameEmission(Run(cfg, w, actions), Run(cfg', w', Heard(actions)))
  {
    if actions != [] {
      var n := |actions| - 1;
      var heard := Heard(actions[..n]);
      HeardIsEnough(cfg, cfg', w, w', actions[..n]);
      if actions[n].ReplayTick? {
        assert heard + [] == heard;
        ReplayEmitsNothing(cfg, Run(cfg, w, actions[..n]));
      } else {
        SameArm(cfg, cfg', Run(cfg, w, actions[..n]), Run(cfg', w', heard), actions[n]);
        RunOneMore(cfg', w', heard, actions[n]);
      }
    }
  }

  /** Two runs with the same signer and trigger that hear the same events and checkpoint ticks emit the
      same log, checkpoints included, whatever their sinks, spools, failures and replays. */
  lemma EmissionIgnoresDelivery(cfg: Config, cfg': Config, w: Writer, w': Writer, actions: seq<Action>,
                                actions': seq<Action>)
    requires SameEmitter(cfg, cfg') && SameEmission(w, w') && Heard(actions) == Heard(actions')
    ensures SameEmission(Run(cfg, w, actions), Run(cfg', w', actions'))
  {
    HeardIsEnough(cfg, cfg, w, w, actions);
    HeardIsEnough(cfg', cfg, w', w, actions');
  }

  // ---- The size of the spool ----

  lemma EncodeSnoc<T>(c: Codec<T>, items: seq<T>, x: T)
    ensures EncodeAll(c, items + [x]) == EncodeAll(c, items) + c.frame(x)
  {
    assert (items + [x])[..|items|] == items;
  }

  lemma {:induction false} EncodeConcat<T>(c: Codec<T>, a: seq<T>, b: seq<T>)
    ensures EncodeAll(c, a + b) == EncodeAll(c, a) + EncodeAll(c, b)
  {
    if b == [] {
      assert a + b == a;
    } else {
      var n := |b| - 1;
      EncodeConcat(c, a, b[..n]);
      assert a + b == (a + b[..n]) + [b[n]] && b == b[..n] + [b[n]];
      EncodeSnoc(c, a + b[..n], b[n]);
    }
  }

  function FrameBytes(cfg: Config, rs: seq<AuditRecord>): nat { |EncodeAll(cfg.codec, rs)| }

  /** The byte count covers what the spool holds, has not grown by more than was emitted, and stays
      within the cap unless the spool was larger at the start. */
  ghost predicate Bounded(cfg: Config, bytes0: nat, w: Writer)
  {
    && FrameBytes(cfg, w.spool) <= w.spoolBytes <= bytes0 + FrameBytes(cfg, w.emitted)
    && (cfg.spoolCap.Some? ==> w.spoolBytes <= bytes0 || w.spoolBytes <= cfg.spoolCap.value)
  }

  lemma SpoolIsBounded(cfg: Config, bytes0: nat, w: Writer, r: AuditRecord, index: nat)
    requires Bounded(cfg, bytes0, w) && w.spoolBytes + |cfg.codec.frame(r)| <= bytes0 + FrameBytes(cfg, w.emitted)
    ensures Bounded(cfg, bytes0, SpoolRecord(cfg, w, r, index))
  {
    EncodeSnoc(cfg.codec, w.spool, r);
  }

  lemma EmittedFrameBytes(cfg: Config, w: Writer, r: AuditRecord)
    ensures FrameBytes(cfg, w.emitted + [r]) == FrameBytes(cfg, w.emitted) + |cfg.codec.frame(r)|
  {
    EncodeSnoc(cfg.codec, w.emitted, r);
  }

  lemma WriteIsBounded(cfg: Config, bytes0: nat, w: Writer, r: AuditRecord)
    requires Bounded(cfg, bytes0, w)
    ensures Bounded(cfg, bytes0, WriteOrSpool(cfg, w, r))
  {
    EmittedFrameBytes(cfg, w, r);
    var with := w.(emitted := w.emitted + [r]);
    if w.spooling {
      SpoolIsBounded(cfg, bytes0, with, r, |w.emitted|);
    } else if !cfg.sinkAccepts(w.attempts) {
      SpoolIsBounded(cfg, bytes0, with.(spooling := true, attempts := w.attempts + 1), r, |w.emitted|);
    }
  }

  lemma FrameBytesOfRest(cfg: Config, rs: seq<AuditRecord>, k: nat)
    requires k <= |rs|
    ensures FrameBytes(cfg, rs[k..]) <= FrameBytes(cfg, rs)
  {
    EncodeConcat(cfg.codec, rs[..k], rs[k..]);
    assert rs[..k] + rs[k..] == rs;
  }

  lemma ReplayIsBounded(cfg: Config, bytes0: nat, w: Writer)
    requires Bounded(cfg, bytes0, w)
    ensures Bounded(cfg, bytes0, TryReplay(cfg, w))
  {
    FrameBytesOfRest(cfg, w.spool, Successes(cfg.sinkAccepts, w.attempts, |w.spool|));
  }

  lemma EventIsBounded(cfg: Config, bytes0: nat, w: Writer, e: AuditEvent)
    requires Bounded(cfg, bytes0, w)
    ensures Bounded(cfg, bytes0, WriteChained(cfg, w, e))
  {
    WriteIsBounded(cfg, bytes0, w.(chain := Extend(cfg.env.sha, w.chain, e.ocsf)), Stamp(e, w.chain));
  }

  lemma CheckpointIsBounded(cfg: Config, bytes0: nat, w: Writer, now: Millis)
    requires Bounded(cfg, bytes0, w)
    ensures Bounded(cfg, bytes0, EmitCheckpoint(cfg, w, now))
  {
    if cfg.signer.Some? {
      WriteIsBounded(cfg, bytes0, w, NextCheckpoint(cfg, w.chain, now));
    }
  }

  lemma ArmIsBounded(cfg: Config, bytes0: nat, w: Writer, a: Action)
    requires Bounded(cfg, bytes0, w)
    ensures Bounded(cfg, bytes0, Act(cfg, w, a))
  {
    match a
    case Receive(e, now) =>
      EventIsBounded(cfg, bytes0, w, e);
      CheckpointIsBounded(cfg, bytes0, WriteChained(cfg, w, e), now);
    case CheckpointTick(now) =>
      CheckpointIsBounded(cfg, bytes0, w, now);
    case ReplayTick =>
      ReplayIsBounded(cfg, bytes0, w);
  }

  /** Over every run the spool stays within its cap, and its byte count covers its records. */
  lemma {:induction false} SpoolStaysWithinCap(cfg: Config, w0: Writer, actions: seq<Action>)
    requires w0.emitted == [] && FrameBytes(cfg, w0.spool) <= w0.spoolBytes
    ensures Bounded(cfg, w0.spoolBytes, Run(cfg, w0, actions))
  {
    if actions != [] {
      var n := |actions| - 1;
      SpoolStaysWithinCap(cfg, w0, actions[..n]);
      ArmIsBounded(cfg, w0.spoolBytes, Run(cfg, w0, actions[..n]), actions[n]);
    }
  }

  // ---- When nothing is dropped ----

  lemma FrameBytesGrow(cfg: Config, a: seq<AuditRecord>, b: seq<AuditRecord>)
    requires a <= b
    ensures FrameBytes(cfg, a) <= FrameBytes(cfg, b)
  {
    EncodeConcat(cfg.codec, a, b[|a|..]);
    assert a + b[|a|..] == b;
  }

  lemma WriteHasRoom(cfg: Config, bytes0: nat, w: Writer, r: AuditRecord)
    requires Bounded(cfg, bytes0, w) && cfg.spoolCap.Some?
    requires bytes0 + FrameBytes(cfg, w.emitted + [r]) <= cfg.spoolCap.value
    ensures WriteOrSpool(cfg, w, r).dropped == w.dropped
  {
    EncodeSnoc(cfg.codec, w.emitted, r);
  }

  lemma EventHasRoom(cfg: Config, bytes0: nat, w: Writer, e: AuditEvent)
    requires Bounded(cfg, bytes0, w) && cfg.spoolCap.Some?
    requires bytes0 + FrameBytes(cfg, WriteChained(cfg, w, e).emitted) <= cfg.spoolCap.value
    ensures WriteChained(cfg, w, e).dropped == w.dropped
  {
    WriteHasRoom(cfg, bytes0, w.(chain := Extend(cfg.env.sha, w.chain, e.ocsf)), Stamp(e, w.chain));
  }

  lemma CheckpointHasRoom(cfg: Config, bytes0: nat, w: Writer, now: Millis)
    requires Bounded(cfg, bytes0, w) && cfg.spoolCap.Some?
    requires bytes0 + FrameBytes(cfg, EmitCheckpoint(cfg, w, now).emitted) <= cfg.spoolCap.value
    ensures w.emitted <= EmitCheckpoint(cfg, w, now).emitted && EmitCheckpoint(cfg, w, now).dropped == w.dropped
  {
    if cfg.signer.Some? {
      WriteHasRoom(cfg, bytes0, w, NextCheckpoint(cfg, w.chain, now));
    }
  }

  lemma ReceiveHasRoom(cfg: Config, bytes0: nat, w: Writer, e: AuditEvent, now: Millis)
    requires Bounded(cfg, bytes0, w) && cfg.spoolCap.Some?
    requires bytes0 + FrameBytes(cfg, EmitCheckpoint(cfg, WriteChained(cfg, w, e), now).emitted) <= cfg.spoolCap.value
    ensures EmitCheckpoint(cfg, WriteChained(cfg, w, e), now).dropped == w.dropped
  {
    var w' := WriteChained(cfg, w, e);
    EventIsBounded(cfg, bytes0, w, e);
    CheckpointHasRoom(cfg, bytes0, w', now);
    FrameBytesGrow(cfg, w'.emitted, EmitCheckpoint(cfg, w', now).emitted);
    EventHasRoom(cfg, bytes0, w, e);
  }

  lemma ArmHasRoom(cfg: Config, bytes0: nat, w: Writer, a: Action)
    requires Bounded(cfg, bytes0, w) && cfg.spoolCap.Some?
    requires bytes0 + FrameBytes(cfg, Act(cfg, w, a).emitted) <= cfg.spoolCap.value
    ensures Act(cfg, w, a).dropped == w.dropped
  {
    match a
    case Receive(e, now) =>
      if cfg.everyN > 0 && WriteChained(cfg, w, e).since >= cfg.everyN {
        ReceiveHasRoom(cfg, bytes0, w, e, now);
      } else {
        EventHasRoom(cfg, bytes0, w, e);
      }
    case CheckpointTick(now) =>
      if w.since > 0 {
        CheckpointHasRoom(cfg, bytes0, w, now);
      }
    case ReplayTick =>
  }

  lemma EmittedGrows(cfg: Config, w: Writer, a: Action)
    ensures w.emitted <= Act(cfg, w, a).emitted
  {
  }

  /** A spool with room for everything a run emits, on top of what it held, never drops a record. */
  lemma {:induction false} RoomyRunDropsNothing(cfg: Config, w0: Writer, actions: seq<Action>)
    requires w0.emitted == [] && FrameBytes(cfg, w0.spool) <= w0.spoolBytes && cfg.spoolCap.Some?
    requires w0.spoolBytes + FrameBytes(cfg, Run(cfg, w0, actions).emitted) <= cfg.spoolCap.value
    ensures Run(cfg, w0, actions).dropped == w0.dropped
  {
    if actions != [] {
      var n := |actions| - 1;
      var w := Run(cfg, w0, actions[..n]);
      EmittedGrows(cfg, w, actions[n]);
      FrameBytesGrow(cfg, w.emitted, Run(cfg, w0, actions).emitted);
      RoomyRunDropsNothing(cfg, w0, actions[..n]);
      SpoolStaysWithinCap(cfg, w0, actions[..n]);
      ArmHasRoom(cfg, w0.spoolBytes, w, actions[n]);
    }
  }

  // ---- Spool mode is sticky ----

  ghost predicate NoReplay(actions: seq<Action>) { forall i :: 0 <= i < |actions| ==> !actions[i].ReplayTick? }

  /** From `w` to `v` nothing was offered to the sink. */
  predicate Held(w: Writer, v: Writer) { v.spooling && v.sink == w.sink && v.attempts == w.attempts }

  lemma WriteIsHeld(cfg: Config, w: Writer, v: Writer, r: AuditRecord)
    requires Held(w, v)
    ensures Held(w, WriteOrSpool(cfg, v, r))
  {
  }

  lemma EventIsHeld(cfg: Config, w: Writer, v: Writer, e: AuditEvent)
    requires Held(w, v)
    ensures Held(w, WriteChained(cfg, v, e))
  {
    WriteIsHeld(cfg, w, v.(chain := Extend(cfg.env.sha, v.chain, e.ocsf)), Stamp(e, v.chain));
  }

  lemma CheckpointIsHeld(cfg: Config, w: Writer, v: Writer, now: Millis)
    requires Held(w, v)
    ensures Held(w, EmitCheckpoint(cfg, v, now))
  {
    if cfg.signer.Some? {
      WriteIsHeld(cfg, w, v, NextCheckpoint(cfg, v.chain, now));
    }
  }

  lemma ArmIsHeld(cfg: Config, w: Writer, v: Writer, a: Action)
    requires Held(w, v) && !a.ReplayTick?
    ensures Held(w, Act(cfg, v, a))
  {
    match a
    case Receive(e, now) =>
      EventIsHeld(cfg, w, v, e);
      CheckpointIsHeld(cfg, w, WriteChained(cfg, v, e), now);
    case CheckpointTick(now) =>
      CheckpointIsHeld(cfg, w, v, now);
  }

  /** In spool mode and until the next replay nothing is offered to the sink. */
  lemma {:induction false} SpoolModeIsSticky(cfg: Config, w: Writer, actions: seq<Action>)
    requires w.spooling && NoReplay(actions)
    ensures Held(w, Run(cfg, w, actions))
  {
    if actions != [] {
      var n := |actions| - 1;
      SpoolModeIsSticky(cfg, w, actions[..n]);
      ArmIsHeld(cfg, w, Run(cfg, w, actions[..n]), actions[n]);
    }
  }

  lemma {:induction false} RunConcat(cfg: Config, w: Writer, a: seq<Action>, b: seq<Action>)
    ensures Run(cfg, w, a + b) == Run(cfg, Run(cfg, w, a), b)
  {
    if b == [] {
      assert a + b == a;
    } else {
      RunConcat(cfg, w, a, b[..|b| - 1]);
      assert (a + b)[..|a + b| - 1] == a + b[..|b| - 1];
    }
  }

  lemma RunOne(cfg: Config, w: Writer, a: Action)
    ensures Run(cfg, w, [a]) == Act(cfg, w, a)
  {
    assert [a][..0] == [];
  }

  /** A refused write spools or drops its record and starts spool mode. */
  lemma RefusedWrite(cfg: Config, w: Writer, e: AuditEvent)
    requires !w.spooling && !cfg.sinkAccepts(w.attempts)
    ensures var v := WriteChained(cfg, w, e); v.spooling && v.sink == w.sink && v.attempts == w.attempts + 1
  {
  }

  /** One refused write keeps everything after it from the sink until the next replay, whether or not
      the refused record could be spooled. */
  lemma RefusalIsSticky(cfg: Config, w: Writer, e: AuditEvent, now: Millis, more: seq<Action>)
    requires !w.spooling && !cfg.sinkAccepts(w.attempts) && NoReplay(more)
    ensures var v := Run(cfg, w, [Receive(e, now)] + more);
            v.spooling && v.sink == w.sink && v.attempts == w.attempts + 1
  {
    var refused := WriteChained(cfg, w, e);
    RefusedWrite(cfg, w, e);
    CheckpointIsHeld(cfg, refused, refused, now);
    RunConcat(cfg, w, [Receive(e, now)], more);
    RunOne(cfg, w, Receive(e, now));
    SpoolModeIsSticky(cfg, Act(cfg, w, Receive(e, now)), more);
  }

  // ---- Recovery ----

  ghost predicate AcceptsFrom(cfg: Config, n: nat) { forall i: nat :: i >= n ==> cfg.sinkAccepts(i) }

  lemma {:induction false} SuccessesAre(accepts: nat -> bool, attempt: nat, n: nat, k: nat)
    requires k <= n && (forall i: nat :: attempt <= i < attempt + k ==> accepts(i)) && (k < n ==> !accepts(attempt + k))
    ensures Successes(accepts, attempt, n) == k
    decreases n
  {
    if k > 0 {
      assert accepts(attempt);
      SuccessesAre(accepts, attempt + 1, n - 1, k - 1);
    }
  }

  /** Replay moves the records before the first refused attempt from spool to sink, in order, and ends
      spool mode exactly when none is left. */
  lemma ReplayMoves(cfg: Config, w: Writer, k: nat)
    requires w.spooling && (cfg.spoolCap.None? ==> w.spool == []) && k <= |w.spool|
    requires forall i: nat :: w.attempts <= i < w.attempts + k ==> cfg.sinkAccepts(i)
    requires k < |w.spool| ==> !cfg.sinkAccepts(w.attempts + k)
    ensures var v := Act(cfg, w, ReplayTick);
            && v.sink == w.sink + w.spool[..k] && v.spool == w.spool[k..] && (v.spooling <==> k < |w.spool|)
            && v.replayed == w.replayed + k && SameEmission(v, w) && v.dropped == w.dropped && v.spooled == w.spooled
            && v.attempts == w.attempts + k + (if k < |w.spool| then 1 else 0)
  {
    SuccessesAre(cfg.sinkAccepts, w.attempts, |w.spool|, k);
    assert w.spool[|w.spool|..] == [] && w.spool[..|w.spool|] == w.spool;
    assert w.sink + [] == w.sink;
  }

  /** From `w` to `v` every emission went straight to the sink. */
  ghost predicate Direct(w: Writer, v: Writer)
  {
    && !v.spooling && v.spool == [] && v.dropped == w.dropped && v.spooled == w.spooled && w.emitted <= v.emitted
    && v.sink == w.sink + v.emitted[|w.emitted|..] && v.attempts == w.attempts + |v.emitted| - |w.emitted|
  }

  lemma WriteIsDirect(cfg: Config, w: Writer, v: Writer, r: AuditRecord)
    requires AcceptsFrom(cfg, w.attempts) && Direct(w, v)
    ensures Direct(w, WriteOrSpool(cfg, v, r))
  {
    assert (v.emitted + [r])[|w.emitted|..] == v.emitted[|w.emitted|..] + [r];
  }

  lemma CheckpointIsDirect(cfg: Config, w: Writer, v: Writer, now: Millis)
    requires AcceptsFrom(cfg, w.attempts) && Direct(w, v)
    ensures Direct(w, EmitCheckpoint(cfg, v, now))
  {
    if cfg.signer.Some? {
      WriteIsDirect(cfg, w, v, NextCheckpoint(cfg, v.chain, now));
    }
  }

  lemma ArmIsDirect(cfg: Config, w: Writer, v: Writer, a: Action)
    requires AcceptsFrom(cfg, w.attempts) && Direct(w, v)
    ensures Direct(w, Act(cfg, v, a))
  {
    match a
    case Receive(e, now) =>
      WriteIsDirect(cfg, w, v.(chain := Extend(cfg.env.sha, v.chain, e.ocsf)), Stamp(e, v.chain));
      CheckpointIsDirect(cfg, w, WriteChained(cfg, v, e), now);
    case CheckpointTick(now) =>
      CheckpointIsDirect(cfg, w, v, now);
    case ReplayTick =>
  }

  /** With a sink that accepts everything and an empty spool, every record is written directly and in
      order, with one attempt each; nothing is spooled or dropped. */
  lemma {:induction false} HealthyRunIsDirect(cfg: Config, w: Writer, actions: seq<Action>)
    requires AcceptsFrom(cfg, w.attempts) && !w.spooling && w.spool == []
    ensures Direct(w, Run(cfg, w, actions))
  {
    if actions == [] {
      assert w.emitted[|w.emitted|..] == [];
    } else {
      var n := |actions| - 1;
      HealthyRunIsDirect(cfg, w, actions[..n]);
      ArmIsDirect(cfg, w, Run(cfg, w, actions[..n]), actions[n]);
    }
  }

  lemma ReplayCatchesUp(cfg: Config, w: Writer)
    requires AcceptsFrom(cfg, w.attempts) && (!w.spooling || cfg.spoolCap.None? ==> w.spool == [])
    ensures var v := Act(cfg, w, ReplayTick);
            && !v.spooling && v.spool == [] && v.sink == w.sink + w.spool && SameEmission(v, w)
            && v.dropped == w.dropped && v.spooled == w.spooled && v.attempts >= w.attempts
  {
    if w.spooling {
      ReplayMoves(cfg, w, |w.spool|);
    }
    assert w.sink + w.spool[..|w.spool|] == w.sink + w.spool && (w.spool == [] ==> w.sink + w.spool == w.sink);
  }

  /** Once the sink has recovered, one replay tick is enough: from any run after which the sink accepts
      everything, a tick delivers the spool, every later emission follows it in order, and nothing more
      is spooled or dropped. */
  lemma SinkCatchesUp(cfg: Config, c: Chain, sink0: seq<AuditRecord>, spool0: seq<AuditRecord>, bytes0: nat,
                      before: seq<Action>, after: seq<Action>)
    requires cfg.spoolCap.None? ==> spool0 == []
    requires AcceptsFrom(cfg, Run(cfg, Start(c, sink0, spool0, bytes0), before).attempts)
    ensures var w0 := Start(c, sink0, spool0, bytes0);
            var w, v := Run(cfg, w0, before), Run(cfg, w0, before + [ReplayTick] + after);
            && !v.spooling && v.spool == [] && v.dropped == w.dropped && v.spooled == w.spooled
            && w.emitted <= v.emitted && v.sink == w.sink + w.spool + v.emitted[|w.emitted|..]
  {
    var w0 := Start(c, sink0, spool0, bytes0);
    var w := Run(cfg, w0, before);
    RunDelivers(cfg, c, sink0, spool0, bytes0, before);
    ReplayCatchesUp(cfg, w);
    RunConcat(cfg, w0, before + [ReplayTick], after);
    RunOneMore(cfg, w0, before, ReplayTick);
    HealthyRunIsDirect(cfg, Act(cfg, w, ReplayTick), after);
  }

  // ---- Every event, verified ----

  function Texts(events: seq<AuditEvent>): seq<bytes>
  {
    if events == [] then [] else Texts(events[..|events| - 1]) + [events[|events| - 1].ocsf]
  }

  lemma {:induction false} ValuesOfChained(rs: seq<AuditRecord>)
    ensures ChainedValues(ChainedRecords(rs)) == ChainedValues(rs)
  {
    if rs != [] {
      var n := |rs| - 1;
      ValuesOfChained(rs[..n]);
      if rs[n].IsChained() {
        ChainedValuesSnoc(ChainedRecords(rs[..n]), rs[n]);
      } else {
        assert ChainedRecords(rs) == ChainedRecords(rs[..n]);
      }
    }
  }

  lemma {:induction false} ValuesOfStamps(sha: Sha256, c: Chain, events: seq<AuditEvent>)
    ensures ChainedValues(StampAll(sha, c, events).0) == Texts(events) && |Texts(events)| == |events|
  {
    if events != [] {
      var n := |events| - 1;
      ValuesOfStamps(sha, c, events[..n]);
      var (rs, d) := StampAll(sha, c, events[..n]);
      ChainedValuesSnoc(rs, Stamp(events[n], d));
    }
  }

  /** The chained values a run emits are the texts of its events, in order. */
  lemma EmittedTexts(cfg: Config, w0: Writer, actions: seq<Action>)
    requires w0.emitted == []
    ensures ChainedValues(Run(cfg, w0, actions).emitted) == Texts(EventsOf(actions))
    ensures |Texts(EventsOf(actions))| == |EventsOf(actions)|
  {
    EmissionIsDetermined(cfg, w0, actions);
    ValuesOfChained(Run(cfg, w0, actions).emitted);
    ValuesOfStamps(cfg.env.sha, w0.chain, EventsOf(actions));
  }

  /** The whole pipeline, after any failures: if nothing was dropped and the sink has recovered, then
      after one replay tick and the closing checkpoint the sink holds exactly the emission log, with the
      text of every event received in order; the verifier accepts it and counts every event; and with a
      signer no record is left unsigned. */
  lemma EveryEventIsVerified(cfg: Config, trusted: TrustedKeys, before: seq<Action>, after: seq<Action>, closing: Millis)
    requires Trusts(cfg, trusted) && |before| + |after| + 2 <= U64_LIMIT
    requires var w := Run(cfg, Start(GENESIS, [], [], 0), before); w.dropped == 0 && AcceptsFrom(cfg, w.attempts)
    ensures var actions := before + [ReplayTick] + (after + [CheckpointTick(closing)]);
            var v := Run(cfg, Start(GENESIS, [], [], 0), actions);
            var report := Verify(cfg.env, trusted, Published(v.sink));
            && v.sink == v.emitted && ChainedValues(v.sink) == Texts(EventsOf(actions))
            && report.ok && report.records == |EventsOf(actions)| && (cfg.signer.Some? ==> report.unanchored == 0)
  {
    var w0, rest := Start(GENESIS, [], [], 0), after + [CheckpointTick(closing)];
    var actions := before + [ReplayTick] + rest;
    var v := Run(cfg, w0, actions);
    SinkCatchesUp(cfg, GENESIS, [], [], 0, before, rest);
    DeliveredSinkVerifies(cfg, trusted, actions);
    assert v.sink + v.spool == v.sink;
    EmittedTexts(cfg, w0, actions);
    if cfg.signer.Some? {
      var open := before + [ReplayTick] + after;
      assert actions == open + [CheckpointTick(closing)];
      CloseIsATick(cfg, w0, open, closing);
      ClosedLogIsCovered(cfg, w0, open, closing);
    }
  }
}
