/** The background writer of crates/audit/src/log.rs. Each arm of its event loop is one step.
    Sink failures come from a fixed but arbitrary plan: write attempt number i succeeds exactly
    when `sinkAccepts(i)`, and a failed write leaves the sink unchanged. */
module AuditWriters {
  import opened Bytes
  import opened AuditChain
  import opened AuditRecords
  import opened AuditCheckpoints
  import opened SpoolFiles
  import opened AuditSpool

  type Millis = t: int | IsI64(t)

  /** `spoolCap` is the byte cap of the spool, or `None` when there is no spool. The frame codec is
      a parameter; spool.rs uses `AuditSpool.AuditCodec`. */
  datatype Config = Config(env: Env, signer: Option<Signer>, everyN: nat,
                           codec: Codec<AuditRecord>, spoolCap: Option<nat>, sinkAccepts: nat -> bool)

  /** The writer with its sink and spool. `emitted` and `kept` are history: every record handed to
      `write_or_spool`, and the indices of those that were not dropped. */
  datatype Writer = Writer(chain: Chain, since: nat, spooling: bool,
                           spool: seq<AuditRecord>, spoolBytes: nat,
                           sink: seq<AuditRecord>, attempts: nat,
                           spooled: nat, replayed: nat, dropped: nat,
                           emitted: seq<AuditRecord>, kept: seq<nat>)

  /** A writer starting on what the sink and the spool already hold. */
  function Start(c: Chain, sink: seq<AuditRecord>, spool: seq<AuditRecord>, spoolBytes: nat): Writer
  {
    Writer(c, 0, spool != [], spool, spoolBytes, sink, 0, 0, 0, 0, [], [])
  }

  function SpoolRecord(cfg: Config, w: Writer, r: AuditRecord, index: nat): Writer
  {
    if cfg.spoolCap.None? || w.spoolBytes + |cfg.codec.frame(r)| > cfg.spoolCap.value
    then w.(dropped := w.dropped + 1)
    else w.(spool := w.spool + [r], spoolBytes := w.spoolBytes + |cfg.codec.frame(r)|,
            spooled := w.spooled + 1, kept := w.kept + [index])
  }

  function WriteOrSpool(cfg: Config, w0: Writer, r: AuditRecord): (w: Writer)
    ensures w.emitted == w0.emitted + [r] && w.chain == w0.chain && w.since == w0.since
  {
    var index := |w0.emitted|;
    var w := w0.(emitted := w0.emitted + [r]);
    if w.spooling then SpoolRecord(cfg, w, r, index)
    else if cfg.sinkAccepts(w.attempts)
    then w.(sink := w.sink + [r], attempts := w.attempts + 1, kept := w.kept + [index])
    else SpoolRecord(cfg, w.(spooling := true, attempts := w.attempts + 1), r, index)
  }

  function WriteChained(cfg: Config, w: Writer, e: AuditEvent): Writer
  {
    var r := Stamp(e, w.chain);
    var w' := WriteOrSpool(cfg, w.(chain := Extend(cfg.env.sha, w.chain, e.ocsf)), r);
    w'.(since := w'.since + 1)
  }

  function NextCheckpoint(cfg: Config, c: Chain, now: Millis): (r: AuditRecord)
    requires cfg.signer.Some?
    ensures !r.IsChained()
  {
    var seqHigh := if c.nextSeq == 0 then 0 else c.nextSeq - 1;
    CheckpointRecord(cfg.env, SignedCheckpoint(cfg.signer.value, seqHigh, c.head, now))
  }

  function EmitCheckpoint(cfg: Config, w: Writer, now: Millis): Writer
  {
    if cfg.signer.None? then w.(since := 0)
    else WriteOrSpool(cfg, w, NextCheckpoint(cfg, w.chain, now)).(since := 0)
  }

  /** How many of the next `n` sink writes succeed before the first failure. */
  function Successes(accepts: nat -> bool, attempt: nat, n: nat): (k: nat)
    ensures k <= n
    decreases n
  {
    if n == 0 || !accepts(attempt) then 0 else 1 + Successes(accepts, attempt + 1, n - 1)
  }

  function TryReplay(cfg: Config, w: Writer): Writer
  {
    if cfg.spoolCap.None? || w.spool == [] then w.(spooling := false)
    else
      var k := Successes(cfg.sinkAccepts, w.attempts, |w.spool|);
      if k == |w.spool| then
        w.(sink := w.sink + w.spool, attempts := w.attempts + k, spool := [], spoolBytes := 0,
           spooling := false, replayed := w.replayed + k)
      else
        w.(sink := w.sink + w.spool[..k], attempts := w.attempts + k + 1, spool := w.spool[k..],
           spoolBytes := |EncodeAll(cfg.codec, w.spool[k..])|, replayed := w.replayed + k)
  }

  /** One arm of the event loop; `now` is the clock reading an arm may need. */
  datatype Action = Receive(event: AuditEvent, now: Millis) | CheckpointTick(now: Millis) | ReplayTick

  function Act(cfg: Config, w: Writer, a: Action): Writer
  {
    match a
    case Receive(e, now) =>
      var w' := WriteChained(cfg, w, e);
      if cfg.everyN > 0 && w'.since >= cfg.everyN then EmitCheckpoint(cfg, w', now) else w'
    case CheckpointTick(now) => if w.since > 0 then EmitCheckpoint(cfg, w, now) else w
    case ReplayTick => if w.spooling then TryReplay(cfg, w) else w
  }

  function Run(cfg: Config, w: Writer, actions: seq<Action>): Writer
  {
    if actions == [] then w
    else Act(cfg, Run(cfg, w, actions[..|actions| - 1]), actions[|actions| - 1])
  }

  /** The channel closed: a last checkpoint for a pending tail. */
  function Close(cfg: Config, w: Writer, now: Millis): Writer
  {
    if w.since > 0 then EmitCheckpoint(cfg, w, now) else w
  }

  // ---- When the writer does not panic ----

  /** Emitting `r` does not panic: it fits its frame, or it is never framed because the sink takes it
      or there is no spool. */
  predicate Emittable(cfg: Config, w: Writer, r: AuditRecord)
  {
    cfg.codec.fits(r) || cfg.spoolCap.None? || (!w.spooling && cfg.sinkAccepts(w.attempts))
  }

  predicate CheckpointEmittable(cfg: Config, w: Writer, now: Millis)
  {
    cfg.signer.Some? ==> Emittable(cfg, w, NextCheckpoint(cfg, w.chain, now))
  }

  /** Nothing that the arm emits panics. */
  predicate Performable(cfg: Config, w: Writer, a: Action)
  {
    match a
    case Receive(e, now) =>
      var w' := WriteChained(cfg, w, e);
      && Emittable(cfg, w, Stamp(e, w.chain))
      && (cfg.everyN > 0 && w'.since >= cfg.everyN ==> CheckpointEmittable(cfg, w', now))
    case CheckpointTick(now) => w.since > 0 ==> CheckpointEmittable(cfg, w, now)
    case ReplayTick => true
  }

  ghost predicate Runnable(cfg: Config, w: Writer, actions: seq<Action>)
  {
    forall i :: 0 <= i < |actions| ==> Performable(cfg, Run(cfg, w, actions[..i]), actions[i])
  }

  // ---- Records fit their frames ----

  /** Leaves room for the fixed fields and headers below the 32-bit frame length. */
  predicate EventFits(e: AuditEvent)
  {
    |e.ocsf| + PrincipalSize(e) < 0xFFFF_0000
  }

  /** Every record the writer can make of a fitting event, and every checkpoint it can sign, fits. */
  ghost predicate RecordsFit(cfg: Config)
  {
    && (forall e, c: Chain {:trigger Stamp(e, c)} :: EventFits(e) && c.nextSeq < U64_LIMIT ==> cfg.codec.fits(Stamp(e, c)))
    && (cfg.signer.Some? ==>
          forall c: Chain, now: Millis {:trigger NextCheckpoint(cfg, c, now)} ::
            c.nextSeq <= U64_LIMIT ==> cfg.codec.fits(NextCheckpoint(cfg, c, now)))
  }

  /** Checkpoint texts stay below the frame length, for every position a chain can reach. */
  ghost predicate ShortCheckpoints(cfg: Config)
  {
    cfg.signer.Some? ==>
      forall c: Chain, now: Millis {:trigger NextCheckpoint(cfg, c, now)} ::
        c.nextSeq <= U64_LIMIT ==> |NextCheckpoint(cfg, c, now).value| < 0xFFFF_0000
  }

  ghost predicate ActionsFit(actions: seq<Action>)
  {
    forall i :: 0 <= i < |actions| && actions[i].Receive? ==> EventFits(actions[i].event)
  }

  lemma {:induction false} EncodeHeadersSnoc(hs: Headers, h: (bytes, bytes))
    ensures |EncodeHeaders(hs + [h])| == |EncodeHeaders(hs)| + |PutHeader(h)|
  {
    if hs != [] {
      EncodeHeadersSnoc(hs[1..], h);
      assert (hs + [h])[1..] == hs[1..] + [h];
    } else {
      assert hs + [h] == [h];
      assert EncodeHeaders([h][1..]) == [];
    }
  }

  lemma Pow10Of20()
    ensures Pow10(20) >= U64_LIMIT
  {
    assert Pow10(4) == 10000;
    assert Pow10(8) == 10000 * Pow10(4);
    assert Pow10(12) == 10000 * Pow10(8);
    assert Pow10(16) == 10000 * Pow10(12);
    assert Pow10(20) == 10000 * Pow10(16);
  }

  lemma RecordSize(r: AuditRecord)
    ensures |EncodeRecord(r)| == 9 + |r.value| + |EncodeHeaders(r.headers)|
  {
  }

  lemma AsciiNamesAreText(hs: Headers)
    requires forall i :: 0 <= i < |hs| ==> IsAscii(hs[i].0)
    ensures HeaderNamesAreText(hs)
  {
    forall i | 0 <= i < |hs| ensures ValidUtf8(hs[i].0) {
      AsciiIsUtf8(hs[i].0);
    }
  }

  function PrincipalSize(e: AuditEvent): nat { if e.Lifecycle? then 0 else |e.principal| }

  lemma BaseHeadersSize(e: AuditEvent)
    ensures |EncodeHeaders(FromEvent(e).headers)| <= 100 + PrincipalSize(e)
  {
    var classHeader := (HEADER_EVENT_CLASS, ClassHeader(EventClassOf(e)));
    EncodeHeadersSnoc([], classHeader);
    assert [] + [classHeader] == [classHeader];
    if !e.Lifecycle? {
      var principal, status := (HEADER_PRINCIPAL, e.principal), (HEADER_STATUS, StatusOf(e));
      EncodeHeadersSnoc([classHeader], principal);
      EncodeHeadersSnoc([classHeader] + [principal], status);
      assert FromEvent(e).headers == [classHeader] + [principal] + [status];
    }
  }

  lemma {:induction false} StampSize(e: AuditEvent, c: Chain)
    requires c.nextSeq < U64_LIMIT
    ensures |EncodeHeaders(Stamp(e, c).headers)| <= 300 + PrincipalSize(e)
  {
    BaseHeadersSize(e);
    Pow10Of20();
    DecimalLength(c.nextSeq, 20);
    var base := FromEvent(e).headers;
    var s, p := (HEADER_SEQ, Decimal(c.nextSeq)), (HEADER_PREV_HASH, Hex(c.head));
    EncodeHeadersSnoc(base, s);
    EncodeHeadersSnoc(base + [s], p);
    assert Stamp(e, c).headers == base + [s] + [p];
  }

  /** Every fitting event makes a record that spool.rs can frame. */
  lemma StampFits(e: AuditEvent, c: Chain)
    requires EventFits(e) && c.nextSeq < U64_LIMIT
    ensures AuditCodec().fits(Stamp(e, c))
  {
    StampSize(e, c);
    RecordSize(Stamp(e, c));
    AsciiNamesAreText(Stamp(e, c).headers);
  }

  lemma CheckpointFits(cfg: Config, c: Chain, now: Millis)
    requires cfg.signer.Some? && |NextCheckpoint(cfg, c, now).value| < 0xFFFF_0000
    ensures AuditCodec().fits(NextCheckpoint(cfg, c, now))
  {
    var r := NextCheckpoint(cfg, c, now);
    var h := (HEADER_EVENT_CLASS, CLASS_CHECKPOINT);
    EncodeHeadersSnoc([], h);
    assert [] + [h] == [h] == r.headers;
    RecordSize(r);
    AsciiNamesAreText(r.headers);
  }

  /** With the spool's own codec every record of the writer fits, if checkpoint texts are short. */
  lemma AuditCodecFitsRecords(cfg: Config)
    requires cfg.codec == AuditCodec() && ShortCheckpoints(cfg)
    ensures RecordsFit(cfg)
  {
    forall e, c: Chain {:trigger Stamp(e, c)} | EventFits(e) && c.nextSeq < U64_LIMIT ensures cfg.codec.fits(Stamp(e, c)) {
      StampFits(e, c);
    }
    if cfg.signer.Some? {
      forall c: Chain, now: Millis {:trigger NextCheckpoint(cfg, c, now)} | c.nextSeq <= U64_LIMIT
        ensures cfg.codec.fits(NextCheckpoint(cfg, c, now))
      {
        CheckpointFits(cfg, c, now);
      }
    }
  }

  lemma {:induction false} RunChainBound(cfg: Config, w: Writer, actions: seq<Action>)
    ensures Run(cfg, w, actions).chain.nextSeq <= w.chain.nextSeq + |actions|
  {
    if actions != [] {
      RunChainBound(cfg, w, actions[..|actions| - 1]);
    }
  }

  /** If every record fits its frame, no run of fitting events panics. */
  lemma FittingRunsArePerformed(cfg: Config, w: Writer, actions: seq<Action>)
    requires RecordsFit(cfg) && ActionsFit(actions) && w.chain.nextSeq + |actions| <= U64_LIMIT
    ensures Runnable(cfg, w, actions)
  {
    forall i | 0 <= i < |actions| ensures Performable(cfg, Run(cfg, w, actions[..i]), actions[i]) {
      RunChainBound(cfg, w, actions[..i]);
      FittingActIsPerformed(cfg, Run(cfg, w, actions[..i]), actions[i]);
    }
  }

  lemma FittingActIsPerformed(cfg: Config, w: Writer, a: Action)
    requires RecordsFit(cfg) && (a.Receive? ==> EventFits(a.event)) && w.chain.nextSeq < U64_LIMIT
    ensures Performable(cfg, w, a)
  {
  }

  // ---- The writer as the program runs it ----

  class Sink {
    const accepts: nat -> bool
    var records: seq<AuditRecord>
    var attempts: nat

    constructor (accepts: nat -> bool, records: seq<AuditRecord>)
      ensures this.accepts == accepts && this.records == records && attempts == 0
    {
      this.accepts, this.records, attempts := accepts, records, 0;
    }

    method Write(r: AuditRecord) returns (ok: bool)
      modifies this
      ensures ok == accepts(old(attempts)) && attempts == old(attempts) + 1
      ensures records == old(records) + (if ok then [r] else [])
    {
      ok := accepts(attempts);
      attempts := attempts + 1;
      if ok {
        records := records + [r];
      }
    }
  }

  method WriteUntilFailure(sink: Sink, records: seq<AuditRecord>) returns (done: nat)
    modifies sink
    ensures done == Successes(sink.accepts, old(sink.attempts), |records|)
    ensures sink.records == old(sink.records) + records[..done]
    ensures sink.attempts == old(sink.attempts) + done + (if done < |records| then 1 else 0)
  {
    done := 0;
    while done < |records|
      invariant 0 <= done <= |records|
      invariant sink.attempts == old(sink.attempts) + done
      invariant sink.records == old(sink.records) + records[..done]
      invariant Successes(sink.accepts, old(sink.attempts), |records|) ==
                done + Successes(sink.accepts, sink.attempts, |records| - done)
    {
      var ok := sink.Write(records[done]);
      if !ok {
        return;
      }
      done := done + 1;
    }
  }

  class AuditWriter {
    const cfg: Config
    const chain: ChainState
    const sink: Sink
    const spool: Spool?<AuditRecord>
    var sinceCheckpoint: nat
    var spooling: bool
    // AuditStats
    var spooled: nat
    var replayed: nat
    var dropped: nat
    var depth: nat
    var depthBytes: nat
    ghost var emitted: seq<AuditRecord>
    ghost var kept: seq<nat>

    ghost predicate Valid()
      reads this, chain, sink, spool
    {
      && sink.accepts == cfg.sinkAccepts
      && (spool == null <==> cfg.spoolCap.None?)
      && (spool != null ==>
            && spool.Valid() && spool.codec == cfg.codec && spool.maxBytes == cfg.spoolCap.value
            && depth == spool.count && depthBytes == spool.size)
    }

    ghost function Model(): Writer
      reads this, chain, sink, spool
    {
      Writer(chain.Position(), sinceCheckpoint, spooling,
             if spool == null then [] else spool.contents, if spool == null then 0 else spool.size,
             sink.records, sink.attempts, spooled, replayed, dropped, emitted, kept)
    }

    constructor (cfg: Config, chain: ChainState, sink: Sink, spool: Spool?<AuditRecord>)
      requires sink.accepts == cfg.sinkAccepts && sink.attempts == 0
      requires spool == null <==> cfg.spoolCap.None?
      requires spool != null ==> spool.Valid() && spool.codec == cfg.codec && spool.maxBytes == cfg.spoolCap.value
      ensures this.cfg == cfg && this.chain == chain && this.sink == sink && this.spool == spool
      ensures Valid()
      ensures Model() == Start(chain.Position(), sink.records, if spool == null then [] else spool.contents,
                               if spool == null then 0 else spool.size)
    {
      this.cfg, this.chain, this.sink, this.spool := cfg, chain, sink, spool;
      sinceCheckpoint := 0;
      spooling := spool != null && spool.count != 0;
      spooled, replayed, dropped := 0, 0, 0;
      depth := if spool == null then 0 else spool.count;
      depthBytes := if spool == null then 0 else spool.size;
      emitted, kept := [], [];
    }

    method Spooled(r: AuditRecord)
      requires Valid() && (cfg.codec.fits(r) || spool == null) && emitted != []
      modifies this, spool
      ensures Valid()
      ensures Model() == SpoolRecord(cfg, old(Model()), r, |old(emitted)| - 1)
    {
      if spool == null {
        dropped := dropped + 1;
        return;
      }
      var accepted := spool.Append(r);
      if accepted {
        spooled := spooled + 1;
        depth, depthBytes := spool.count, spool.size;
        kept := kept + [|emitted| - 1];
      } else {
        dropped := dropped + 1;
      }
    }

    method WriteRecord(r: AuditRecord)
      requires Valid() && Emittable(cfg, Model(), r)
      modifies this, sink, spool
      ensures Valid()
      ensures Model() == WriteOrSpool(cfg, old(Model()), r)
    {
      emitted := emitted + [r];
      if spooling {
        Spooled(r);
        return;
      }
      var ok := sink.Write(r);
      if ok {
        kept := kept + [|emitted| - 1];
      } else {
        spooling := true;
        Spooled(r);
      }
    }

    method WriteEvent(e: AuditEvent)
      requires Valid() && Emittable(cfg, Model(), Stamp(e, chain.Position())) && chain.nextSeq < U64_LIMIT
      modifies this, chain, sink, spool
      ensures Valid()
      ensures Model() == WriteChained(cfg, old(Model()), e)
    {
      var r := FromEvent(e);
      var seqNo, prev := chain.ExtendWith(cfg.env.sha, r.value);
      r := PushChainHeaders(r, seqNo, prev);
      assert r == Stamp(e, Chain(seqNo, prev));
      WriteRecord(r);
      sinceCheckpoint := sinceCheckpoint + 1;
    }

    method WriteCheckpoint(now: Millis)
      requires Valid() && CheckpointEmittable(cfg, Model(), now) && chain.nextSeq <= U64_LIMIT
      modifies this, sink, spool
      ensures Valid()
      ensures Model() == EmitCheckpoint(cfg, old(Model()), now)
    {
      if cfg.signer.None? {
        sinceCheckpoint := 0;
        return;
      }
      var seqHigh := if chain.nextSeq == 0 then 0 else chain.nextSeq - 1;
      var cp := SignedCheckpoint(cfg.signer.value, seqHigh, chain.head, now);
      assert CheckpointRecord(cfg.env, cp) == NextCheckpoint(cfg, chain.Position(), now);
      WriteRecord(CheckpointRecord(cfg.env, cp));
      sinceCheckpoint := 0;
    }

    method Replay()
      requires Valid()
      modifies this, sink, spool
      ensures Valid()
      ensures Model() == TryReplay(cfg, old(Model()))
    {
      if spool == null {
        spooling := false;
        return;
      }
      if spool.count == 0 {
        spooling := false;
        return;
      }
      var records := spool.ReadAll();
      var done := WriteUntilFailure(sink, records);
      if done == |records| {
        spool.Truncate();
        spooling := false;
      } else {
        spool.Rewrite(records[done..]);
      }
      replayed := replayed + done;
      depth, depthBytes := spool.count, spool.size;
    }

    /** One arm of the event loop. */
    method Perform(a: Action)
      requires Valid() && Performable(cfg, Model(), a) && chain.nextSeq < U64_LIMIT
      modifies this, chain, sink, spool
      ensures Valid()
      ensures Model() == Act(cfg, old(Model()), a)
    {
      match a
      case Receive(e, now) =>
        WriteEvent(e);
        if cfg.everyN > 0 && sinceCheckpoint >= cfg.everyN {
          WriteCheckpoint(now);
        }
      case CheckpointTick(now) =>
        if sinceCheckpoint > 0 {
          WriteCheckpoint(now);
        }
      case ReplayTick =>
        if spooling {
          Replay();
        }
    }

    /** The event loop over the arms that fire, until the channel closes. */
    method RunLoop(actions: seq<Action>, closing: Millis)
      requires Valid() && Runnable(cfg, Model(), actions + [CheckpointTick(closing)])
      requires chain.nextSeq + |actions| <= U64_LIMIT
      modifies this, chain, sink, spool
      ensures Valid()
      ensures Model() == Close(cfg, Run(cfg, old(Model()), actions), closing)
    {
      for i := 0 to |actions|
        invariant Valid() && Model() == Run(cfg, old(Model()), actions[..i])
        invariant Model().chain.nextSeq <= old(chain.nextSeq) + i
      {
        RunSnoc(cfg, old(Model()), actions, i);
        RunnableAt(cfg, old(Model()), actions, CheckpointTick(closing), i);
        Perform(actions[i]);
      }
      assert actions[..|actions|] == actions;
      RunnableAt(cfg, old(Model()), actions, CheckpointTick(closing), |actions|);
      if sinceCheckpoint > 0 {
        WriteCheckpoint(closing);
      }
    }
  }

  lemma RunnableAt(cfg: Config, w: Writer, actions: seq<Action>, last: Action, i: nat)
    requires Runnable(cfg, w, actions + [last]) && i <= |actions|
    ensures Performable(cfg, Run(cfg, w, actions[..i]), if i < |actions| then actions[i] else last)
  {
    assert (actions + [last])[..i] == actions[..i];
    assert Performable(cfg, Run(cfg, w, (actions + [last])[..i]), (actions + [last])[i]);
  }

  lemma {:induction false} RunSnoc(cfg: Config, w: Writer, actions: seq<Action>, i: nat)
    requires i < |actions|
    ensures Run(cfg, w, actions[..i + 1]) == Act(cfg, Run(cfg, w, actions[..i]), actions[i])
    ensures Act(cfg, Run(cfg, w, actions[..i]), actions[i]).chain.nextSeq <= Run(cfg, w, actions[..i]).chain.nextSeq + 1
  {
    assert actions[..i + 1][..i] == actions[..i];
  }
}
