/** The audit pipeline end to end: what the writer puts into the sink, what the verifier says
    about it, and what survives crashes and restarts. */
module AuditEndToEnd {
  import opened Bytes
  import opened AuditChain
  import opened AuditRecords
  import opened AuditCheckpoints
  import opened SpoolFiles
  import opened AuditSpool
  import opened AuditVerify
  import opened AuditWriters
  import opened AuditRuns

  // ---- Records as the verifier reads them ----

  function Nullable(hs: Headers): seq<(bytes, Option<bytes>)>
  {
    if hs == [] then [] else [(hs[0].0, Some(hs[0].1))] + Nullable(hs[1..])
  }

  /** A record as it stands in the partition. */
  function LogOf(r: AuditRecord, offset: int): LogRecord { LogRecord(offset, Some(r.value), Nullable(r.headers)) }

  function Published(rs: seq<AuditRecord>): (log: seq<LogRecord>)
    ensures |log| == |rs|
    ensures forall i :: 0 <= i < |rs| ==> log[i] == LogOf(rs[i], i)
  {
    if rs == [] then [] else Published(rs[..|rs| - 1]) + [LogOf(rs[|rs| - 1], |rs| - 1)]
  }

  lemma {:induction false} HeaderValueIsFirst(hs: Headers, key: bytes)
    ensures HeaderValue(Nullable(hs), key) == FirstHeader(hs, key)
  {
    if hs != [] {
      HeaderValueIsFirst(hs[1..], key);
    }
  }

  // ---- A record in its place ----

  /** The class header and the class field agree. */
  predicate ClassAgrees(r: AuditRecord) { IsCheckpoint(LogOf(r, 0)) <==> !r.IsChained() }

  /** The class is right, and a chained record carries position `c` and resumes the chain after it.
      This says nothing of what a checkpoint attests. */
  predicate RightRecord(sha: Sha256, r: AuditRecord, c: Chain)
  {
    && ClassAgrees(r)
    && (r.IsChained() ==>
          && SeqHeader(LogOf(r, 0)) == Some(c.nextSeq) && PrevHeader(LogOf(r, 0)) == Some(c.head)
          && ResumeFromRecord(sha, r) == Some(Extend(sha, c, r.value)))
  }

  function RightPlace(sha: Sha256): Place { (r, c) => RightRecord(sha, r, c) }

  /** Right, and accepted by the verifier at position `c`. */
  predicate GoodRecord(env: Env, trusted: TrustedKeys, r: AuditRecord, c: Chain)
  {
    RightRecord(env.sha, r, c) && Consistent(env, trusted, LogOf(r, 0), c)
  }

  function GoodPlace(env: Env, trusted: TrustedKeys): Place { (r, c) => GoodRecord(env, trusted, r, c) }

  lemma GoodIsRight(env: Env, trusted: TrustedKeys, c: Chain, rs: seq<AuditRecord>)
    requires GoodFrom(env.sha, GoodPlace(env, trusted), c, rs)
    ensures GoodFrom(env.sha, RightPlace(env.sha), c, rs)
  {
    forall i | 0 <= i < |rs| ensures RightPlace(env.sha)(rs[i], ChainAfter(env.sha, c, rs[..i])) {
      assert GoodPlace(env, trusted)(rs[i], ChainAfter(env.sha, c, rs[..i]));
    }
  }

  /** The verifier trusts the writer's key, signatures verify, and JSON text reads back. */
  ghost predicate Trusts(cfg: Config, trusted: TrustedKeys)
  {
    cfg.signer.Some? ==>
      && JsonRoundTrips(cfg.env) && SignerWorks(cfg.env, cfg.signer.value)
      && cfg.signer.value.keyId in trusted && trusted[cfg.signer.value.keyId] == cfg.signer.value.publicKey
  }

  lemma StampIsGood(env: Env, trusted: TrustedKeys, e: AuditEvent, c: Chain)
    requires c.nextSeq < U64_LIMIT
    ensures GoodRecord(env, trusted, Stamp(e, c), c)
  {
    var r := Stamp(e, c);
    StampReadsBack(e, c);
    HeaderValueIsFirst(r.headers, HEADER_EVENT_CLASS);
    HeaderValueIsFirst(r.headers, HEADER_SEQ);
    HeaderValueIsFirst(r.headers, HEADER_PREV_HASH);
    ClassHeaderSeparates(EventClassOf(e));
  }

  lemma CheckpointReadsBack(cfg: Config, c: Chain, now: Millis)
    requires cfg.signer.Some? && JsonRoundTrips(cfg.env) && ValidUtf8(cfg.signer.value.keyId) && c.nextSeq <= U64_LIMIT
    ensures CheckpointIn(cfg.env, LogOf(NextCheckpoint(cfg, c, now), 0)) ==
            Good(SignedCheckpoint(cfg.signer.value, Decrement(c.nextSeq), c.head, now))
  {
    var cp := SignedCheckpoint(cfg.signer.value, Decrement(c.nextSeq), c.head, now);
    CheckpointRoundTrip(cp);
    assert Representable(cp);
    assert cfg.env.fromJson(cfg.env.toJson(ToJsonObject(cp))) == Some(ToJsonObject(cp));
  }

  lemma CheckpointIsGood(cfg: Config, trusted: TrustedKeys, c: Chain, now: Millis)
    requires cfg.signer.Some? && Trusts(cfg, trusted) && c.nextSeq <= U64_LIMIT
    ensures GoodRecord(cfg.env, trusted, NextCheckpoint(cfg, c, now), c)
  {
    var cp := SignedCheckpoint(cfg.signer.value, Decrement(c.nextSeq), c.head, now);
    HeaderValueIsFirst(NextCheckpoint(cfg, c, now).headers, HEADER_EVENT_CLASS);
    CheckpointReadsBack(cfg, c, now);
    assert SignatureValid(cfg.env, cp, cfg.signer.value.publicKey);
  }

  /** Whatever the signer and the JSON codec do, the writer stamps right records. */
  lemma WriterStampsRight(cfg: Config)
    ensures StampsGood(cfg, RightPlace(cfg.env.sha))
  {
    forall e, c: Chain {:trigger Stamp(e, c)} | c.nextSeq < U64_LIMIT ensures RightRecord(cfg.env.sha, Stamp(e, c), c) {
      StampIsGood(cfg.env, map[], e, c);
    }
    if cfg.signer.Some? {
      forall c: Chain, now: Millis {:trigger NextCheckpoint(cfg, c, now)} | c.nextSeq <= U64_LIMIT
        ensures RightRecord(cfg.env.sha, NextCheckpoint(cfg, c, now), c)
      {
        HeaderValueIsFirst(NextCheckpoint(cfg, c, now).headers, HEADER_EVENT_CLASS);
      }
    }
  }

  lemma WriterStampsGood(cfg: Config, trusted: TrustedKeys)
    requires Trusts(cfg, trusted)
    ensures StampsGood(cfg, GoodPlace(cfg.env, trusted))
  {
    forall e, c: Chain {:trigger Stamp(e, c)} | c.nextSeq < U64_LIMIT
      ensures GoodRecord(cfg.env, trusted, Stamp(e, c), c)
    {
      StampIsGood(cfg.env, trusted, e, c);
    }
    if cfg.signer.Some? {
      forall c: Chain, now: Millis {:trigger NextCheckpoint(cfg, c, now)} | c.nextSeq <= U64_LIMIT
        ensures GoodRecord(cfg.env, trusted, NextCheckpoint(cfg, c, now), c)
      {
        CheckpointIsGood(cfg, trusted, c, now);
      }
    }
  }

  predicate Opened(rs: seq<AuditRecord>) { true }

  /** A record line that is good from genesis on; sealed like `SpoolFiles.Holds`, with `Opened` as the
      term that opens it. */
  ghost predicate GoodLine(env: Env, trusted: TrustedKeys, rs: seq<AuditRecord>)
  {
    forall x {:trigger Opened(x)} :: x == rs ==> GoodFrom(env.sha, GoodPlace(env, trusted), GENESIS, x)
  }

  lemma GoodLineMeans(env: Env, trusted: TrustedKeys, rs: seq<AuditRecord>)
    ensures GoodLine(env, trusted, rs) <==> GoodFrom(env.sha, GoodPlace(env, trusted), GENESIS, rs)
  {
    assert Opened(rs);
  }

  lemma LineConcat(env: Env, trusted: TrustedKeys, a: seq<AuditRecord>, b: seq<AuditRecord>)
    ensures GoodLine(env, trusted, a + b) <==>
            GoodLine(env, trusted, a) && GoodFrom(env.sha, GoodPlace(env, trusted), ChainAfter(env.sha, GENESIS, a), b)
  {
    GoodLineMeans(env, trusted, a + b);
    GoodLineMeans(env, trusted, a);
    GoodConcat(env.sha, GoodPlace(env, trusted), GENESIS, a, b);
  }

  // ---- The verifier on a published line ----

  ghost predicate ClassesAgree(rs: seq<AuditRecord>) { forall i :: 0 <= i < |rs| ==> ClassAgrees(rs[i]) }

  /** Record `i` is what the chain of the records before it demands. */
  predicate InPlace(env: Env, trusted: TrustedKeys, rs: seq<AuditRecord>, i: nat)
    requires i < |rs|
  {
    Consistent(env, trusted, LogOf(rs[i], 0), ChainAfter(env.sha, GENESIS, rs[..i]))
  }

  lemma {:induction false} PublishedValues(rs: seq<AuditRecord>)
    requires ClassesAgree(rs)
    ensures LogValues(Published(rs)) == ChainedValues(rs)
    ensures CheckpointCount(Published(rs)) == |rs| - ChainedCount(rs)
    ensures UnsignedTail(Published(rs)) == Tail(rs)
  {
    if rs != [] {
      var n := |rs| - 1;
      PublishedValues(rs[..n]);
      var log := Published(rs);
      assert log[..n] == Published(rs[..n]);
      assert ClassAgrees(rs[n]);
    }
  }

  lemma PublishedPrefix(rs: seq<AuditRecord>, i: nat)
    requires i <= |rs|
    ensures Published(rs)[..i] == Published(rs[..i])
  {
  }

  lemma ClassesAgreePrefix(rs: seq<AuditRecord>, i: nat)
    requires ClassesAgree(rs) && i <= |rs|
    ensures ClassesAgree(rs[..i])
  {
    forall j | 0 <= j < i ensures ClassAgrees(rs[..i][j]) {
      assert ClassAgrees(rs[j]);
    }
  }

  lemma PublishedChain(env: Env, rs: seq<AuditRecord>, i: nat)
    requires ClassesAgree(rs) && i <= |rs|
    ensures ChainOf(env.sha, Published(rs)[..i]) == ChainAfter(env.sha, GENESIS, rs[..i])
  {
    PublishedPrefix(rs, i);
    ClassesAgreePrefix(rs, i);
    PublishedValues(rs[..i]);
  }

  lemma OffsetIsIgnored(env: Env, trusted: TrustedKeys, r: AuditRecord, offset: int, c: Chain)
    ensures Consistent(env, trusted, LogOf(r, offset), c) <==> Consistent(env, trusted, LogOf(r, 0), c)
  {
    assert CheckpointIn(env, LogOf(r, offset)) == CheckpointIn(env, LogOf(r, 0));
  }

  lemma PublishedInPlace(env: Env, trusted: TrustedKeys, rs: seq<AuditRecord>, i: nat)
    requires ClassesAgree(rs) && i < |rs|
    ensures Consistent(env, trusted, Published(rs)[i], ChainOf(env.sha, Published(rs)[..i])) <==>
            InPlace(env, trusted, rs, i)
  {
    PublishedChain(env, rs, i);
    OffsetIsIgnored(env, trusted, rs[i], i, ChainAfter(env.sha, GENESIS, rs[..i]));
  }

  lemma PublishedOkIff(env: Env, trusted: TrustedKeys, rs: seq<AuditRecord>)
    requires ClassesAgree(rs)
    ensures Verify(env, trusted, Published(rs)).ok <==> forall i :: 0 <= i < |rs| ==> InPlace(env, trusted, rs, i)
  {
    VerifyOkIff(env, trusted, Published(rs));
    forall i | 0 <= i < |rs|
      ensures Consistent(env, trusted, Published(rs)[i], ChainOf(env.sha, Published(rs)[..i])) <==>
              InPlace(env, trusted, rs, i)
    {
      PublishedInPlace(env, trusted, rs, i);
    }
  }

  lemma PublishedOffsets(rs: seq<AuditRecord>)
    ensures forall i :: 0 <= i < |rs| ==> Published(rs)[i].offset == i
  {
  }

  lemma OutOfPlaceIsInconsistent(env: Env, trusted: TrustedKeys, rs: seq<AuditRecord>, p: nat)
    requires ClassesAgree(rs) && p < |rs| && !InPlace(env, trusted, rs, p)
    ensures !Verify(env, trusted, Published(rs)).ok
    ensures !Consistent(env, trusted, Published(rs)[p], ChainOf(env.sha, Published(rs)[..p]))
  {
    PublishedOkIff(env, trusted, rs);
    PublishedInPlace(env, trusted, rs, p);
  }

  /** A record out of place makes the verifier report a break at or before it. */
  lemma PublishedBreak(env: Env, trusted: TrustedKeys, rs: seq<AuditRecord>, p: nat)
    requires ClassesAgree(rs) && p < |rs| && !InPlace(env, trusted, rs, p)
    ensures var report := Verify(env, trusted, Published(rs));
            !report.ok && report.firstBreak.Some? && 0 <= report.firstBreak.value.offset <= p
  {
    OutOfPlaceIsInconsistent(env, trusted, rs, p);
    PublishedOffsets(rs);
    BreakAtOrBefore(env, trusted, Published(rs), p);
  }

  lemma BreakAtOrBefore(env: Env, trusted: TrustedKeys, log: seq<LogRecord>, p: nat)
    requires p < |log| && forall i :: 0 <= i < |log| ==> log[i].offset == i
    requires !Verify(env, trusted, log).ok && !Consistent(env, trusted, log[p], ChainOf(env.sha, log[..p]))
    ensures var report := Verify(env, trusted, log);
            report.firstBreak.Some? && 0 <= report.firstBreak.value.offset <= p
  {
    var k := VerifyBreakAt(env, trusted, log);
  }

  lemma GoodLineInPlace(env: Env, trusted: TrustedKeys, rs: seq<AuditRecord>)
    requires GoodLine(env, trusted, rs)
    ensures ClassesAgree(rs) && forall i :: 0 <= i < |rs| ==> InPlace(env, trusted, rs, i)
  {
    GoodLineMeans(env, trusted, rs);
    forall i | 0 <= i < |rs| ensures ClassAgrees(rs[i]) && InPlace(env, trusted, rs, i) {
      assert GoodPlace(env, trusted)(rs[i], ChainAfter(env.sha, GENESIS, rs[..i]));
    }
  }

  /** What the verifier says of a good line: ok, with exact counts. The unanchored count is the
      unsigned tail unless the line's last checkpoint precedes its first chained record. */
  lemma GoodLineVerifies(env: Env, trusted: TrustedKeys, rs: seq<AuditRecord>)
    requires GoodLine(env, trusted, rs)
    ensures var report := Verify(env, trusted, Published(rs));
            && report.ok && report.firstBreak.None?
            && report.records == ChainedCount(rs) && report.checkpoints == |rs| - ChainedCount(rs)
            && (rs == [] || rs[0].IsChained() ==> report.unanchored == Tail(rs))
  {
    GoodLineInPlace(env, trusted, rs);
    PublishedOkIff(env, trusted, rs);
    VerifyOkIff(env, trusted, Published(rs));
    PublishedValues(rs);
    UnanchoredIsTail(env, trusted, Published(rs));
    if rs != [] && rs[0].IsChained() {
      assert ClassAgrees(rs[0]);
      AnchorAfterFirst(Published(rs));
    }
  }

  lemma {:induction false} AnchorAfterFirst(log: seq<LogRecord>)
    requires log != [] && !IsCheckpoint(log[0])
    ensures |LogValues(log)| > 0 && LastAnchor(log) != Some(0)
  {
    if |log| > 1 {
      AnchorAfterFirst(log[..|log| - 1]);
    } else {
      assert log[..0] == [];
    }
  }

  // ---- Runs from genesis ----

  /** Every run from a fresh chain and an empty spool that drops nothing: sink followed by spool is
      the emission log, the spool is empty outside spool mode, and verifying what has reached the
      sink is ok with exactly the chained records and checkpoints that are there. */
  lemma DeliveredSinkVerifies(cfg: Config, trusted: TrustedKeys, actions: seq<Action>)
    requires Trusts(cfg, trusted) && |actions| <= U64_LIMIT
    requires Run(cfg, Start(GENESIS, [], [], 0), actions).dropped == 0
    ensures var w := Run(cfg, Start(GENESIS, [], [], 0), actions);
            var report := Verify(cfg.env, trusted, Published(w.sink));
            && w.sink + w.spool == w.emitted
            && (!w.spooling ==> w.spool == [])
            && report.ok && report.records == ChainedCount(w.sink)
            && report.checkpoints == |w.sink| - ChainedCount(w.sink)
            && report.unanchored == Tail(w.sink)
  {
    var w := Run(cfg, Start(GENESIS, [], [], 0), actions);
    RunDelivers(cfg, GENESIS, [], [], 0, actions);
    NothingLost(cfg, [], [], w);
    assert [] + [] + w.emitted == w.emitted;
    WriterStampsGood(cfg, trusted);
    RunStamps(cfg, GoodPlace(cfg.env, trusted), Start(GENESIS, [], [], 0), actions);
    GoodLineMeans(cfg.env, trusted, w.emitted);
    LineConcat(cfg.env, trusted, w.sink, w.spool);
    GoodLineVerifies(cfg.env, trusted, w.sink);
    FirstEmissionIsChained(cfg, Start(GENESIS, [], [], 0), actions);
    assert w.sink != [] ==> w.sink[0] == (w.sink + w.spool)[0] == w.emitted[0];
  }

  /** The program itself: a writer on a fresh chain and an empty spool runs until its channel closes,
      then the verifier walks what reached the sink. */
  method RunAndVerify(cfg: Config, trusted: TrustedKeys, actions: seq<Action>, closing: Millis)
    returns (report: Option<VerifyReport>, dropped: nat)
    requires Lawful(cfg.codec) && |actions| < U64_LIMIT
    requires Runnable(cfg, Start(GENESIS, [], [], 0), actions + [CheckpointTick(closing)])
    ensures var w := Run(cfg, Start(GENESIS, [], [], 0), actions + [CheckpointTick(closing)]);
            var result := Verify(cfg.env, trusted, Published(w.sink));
            && dropped == w.dropped && report == (if Aborts(result) then None else Some(result))
            && (Trusts(cfg, trusted) && dropped == 0 ==>
                  && report.Some? && report.value.ok && report.value.records == ChainedCount(w.sink)
                  && w.sink + w.spool == w.emitted)
  {
    var chain := new ChainState.Resume(GENESIS.nextSeq, GENESIS.head);
    var sink := new Sink(cfg.sinkAccepts, []);
    var spool: Spool?<AuditRecord> := null;
    if cfg.spoolCap.Some? {
      spool := new Spool.Open(cfg.codec, [], cfg.spoolCap.value);
      ScanEmpty(cfg.codec);
    }
    var writer := new AuditWriter(cfg, chain, sink, spool);
    assert writer.Model() == Start(GENESIS, [], [], 0);
    CloseIsATick(cfg, writer.Model(), actions, closing);
    writer.RunLoop(actions, closing);
    ghost var w := writer.Model();
    dropped := writer.dropped;
    var log := Published(sink.records);
    assert Concat([log]) == log + Concat([]) == log;
    report := VerifyPartition(cfg.env, trusted, [log]);
    if Trusts(cfg, trusted) && w.dropped == 0 {
      DeliveredSinkVerifies(cfg, trusted, actions + [CheckpointTick(closing)]);
      VerifyOkIff(cfg.env, trusted, log);
    }
  }

  /** The same with spool.rs's own codec and a signer the verifier trusts. */
  method RunAndVerifySigned(cfg: Config, trusted: TrustedKeys, actions: seq<Action>, closing: Millis)
    returns (report: Option<VerifyReport>, dropped: nat)
    requires cfg.codec == AuditCodec() && cfg.signer.Some? && Trusts(cfg, trusted) && ShortCheckpoints(cfg)
    requires ActionsFit(actions) && |actions| < U64_LIMIT
    ensures var w := Run(cfg, Start(GENESIS, [], [], 0), actions + [CheckpointTick(closing)]);
            && dropped == w.dropped
            && (dropped == 0 ==>
                  && report.Some? && report.value.ok && report.value.records == ChainedCount(w.sink)
                  && w.sink + w.spool == w.emitted)
  {
    AuditCodecIsLawful();
    AuditCodecFitsRecords(cfg);
    FittingRunsArePerformed(cfg, Start(GENESIS, [], [], 0), actions + [CheckpointTick(closing)]);
    report, dropped := RunAndVerify(cfg, trusted, actions, closing);
  }

  // ---- What dropping does to a line ----

  /** A chained record emitted before kept record `q` was dropped. */
  ghost predicate MissingAt(emitted: seq<AuditRecord>, kept: seq<nat>, q: nat)
    requires Increasing(kept, |emitted|) && q < |kept|
  {
    exists j :: 0 <= j < kept[q] && j !in kept && emitted[j].IsChained()
  }

  /** The one gap a checkpoint cannot show: nothing chained yet, one chained record dropped, and its
      hash is the head the chain started from. `seq_high` is 0 before and after that record. */
  ghost predicate BlindAt(sha: Sha256, c: Chain, emitted: seq<AuditRecord>, kept: seq<nat>, q: nat)
    requires Increasing(kept, |emitted|) && q < |kept|
  {
    && !emitted[kept[q]].IsChained() && c.nextSeq == 0 && ChainedCount(emitted[..kept[q]]) == 1
    && ChainHash(sha, c.head, 0, ChainedValues(emitted[..kept[q]])[0]) == c.head
  }

  /** Kept record `q` of a run that started at `c` stands visibly after a gap. */
  ghost predicate ExposedAt(sha: Sha256, c: Chain, emitted: seq<AuditRecord>, kept: seq<nat>, q: nat)
    requires Increasing(kept, |emitted|) && q < |kept|
  {
    MissingAt(emitted, kept, q) && !BlindAt(sha, c, emitted, kept, q)
  }

  lemma PickPrefix(emitted: seq<AuditRecord>, kept: seq<nat>, q: nat)
    requires Increasing(kept, |emitted|) && q < |kept|
    ensures Pick(emitted, kept)[q] == emitted[kept[q]]
    ensures PickedFrom(emitted[..kept[q]], kept[..q], Pick(emitted, kept)[..q])
  {
  }

  lemma MissingShowsInCount(emitted: seq<AuditRecord>, kept: seq<nat>, q: nat)
    requires Increasing(kept, |emitted|) && q < |kept|
    ensures var all, picked := emitted[..kept[q]], Pick(emitted, kept)[..q];
            && ChainedCount(picked) <= ChainedCount(all)
            && (ChainedCount(picked) == ChainedCount(all) ==> ChainedValues(picked) == ChainedValues(all))
            && (ChainedCount(picked) < ChainedCount(all) <==> MissingAt(emitted, kept, q))
  {
    var all, picked := emitted[..kept[q]], Pick(emitted, kept)[..q];
    PickPrefix(emitted, kept, q);
    PickedCount(all, kept[..q], picked);
    if j :| 0 <= j < kept[q] && j !in kept && emitted[j].IsChained() {
      assert all[j] == emitted[j];
      PickedMisses(all, kept[..q], picked, j);
    } else {
      forall j | 0 <= j < |all| && all[j].IsChained() ensures j in kept[..q] {
        assert emitted[j].IsChained();
        var i :| 0 <= i < |kept| && kept[i] == j;
        assert kept[..q][i] == j;
      }
      PickedKeepsAll(all, kept[..q], picked);
    }
  }

  /** Two positions that a checkpoint cannot tell apart. */
  predicate LooksAlike(c: Chain, c': Chain) { c.head == c'.head && Decrement(c.nextSeq) == Decrement(c'.nextSeq) }

  lemma OneRecordHead(sha: Sha256, c: Chain, values: seq<bytes>)
    requires |values| == 1
    ensures Fold(sha, c, values).head == ChainHash(sha, c.head, c.nextSeq, values[0])
  {
    assert values[..0] == [];
  }

  /** The position a kept record was stamped at, against the one its kept predecessors lead to. */
  lemma PositionAfterGap(sha: Sha256, c: Chain, emitted: seq<AuditRecord>, kept: seq<nat>, q: nat)
    requires Increasing(kept, |emitted|) && q < |kept|
    ensures var there, here := ChainAfter(sha, c, emitted[..kept[q]]), ChainAfter(sha, c, Pick(emitted, kept)[..q]);
            && (here == there <==> !MissingAt(emitted, kept, q))
            && (!emitted[kept[q]].IsChained() ==> (LooksAlike(here, there) <==> !ExposedAt(sha, c, emitted, kept, q)))
  {
    var before, picked := ChainedValues(emitted[..kept[q]]), ChainedValues(Pick(emitted, kept)[..q]);
    MissingShowsInCount(emitted, kept, q);
    FoldCounts(sha, c, before);
    FoldCounts(sha, c, picked);
    if |before| == 1 {
      OneRecordHead(sha, c, before);
    }
    if picked == [] {
      assert Fold(sha, c, picked) == c;
    }
  }

  /** A record good at one position is good at another exactly when it cannot tell them apart. */
  lemma GoodElsewhere(env: Env, trusted: TrustedKeys, r: AuditRecord, there: Chain, here: Chain)
    requires GoodRecord(env, trusted, r, there)
    ensures GoodRecord(env, trusted, r, here) <==> if r.IsChained() then here == there else LooksAlike(here, there)
    ensures GoodRecord(env, trusted, r, here) <==> Consistent(env, trusted, LogOf(r, 0), here)
  {
  }

  /** A kept record of a good run is good where it ends up exactly when no gap shows. */
  lemma KeptGoodIff(env: Env, trusted: TrustedKeys, c: Chain, emitted: seq<AuditRecord>, kept: seq<nat>, q: nat)
    requires Increasing(kept, |emitted|) && q < |kept| && GoodFrom(env.sha, GoodPlace(env, trusted), c, emitted)
    ensures GoodRecord(env, trusted, Pick(emitted, kept)[q], ChainAfter(env.sha, c, Pick(emitted, kept)[..q])) <==>
            !ExposedAt(env.sha, c, emitted, kept, q)
  {
    var r, there := emitted[kept[q]], ChainAfter(env.sha, c, emitted[..kept[q]]);
    assert GoodPlace(env, trusted)(r, there);
    PickPrefix(emitted, kept, q);
    PositionAfterGap(env.sha, c, emitted, kept, q);
    GoodElsewhere(env, trusted, r, there, ChainAfter(env.sha, c, Pick(emitted, kept)[..q]));
  }

  lemma KeptFromIff(env: Env, trusted: TrustedKeys, c: Chain, emitted: seq<AuditRecord>, kept: seq<nat>, m: nat)
    requires Increasing(kept, |emitted|) && m <= |kept| && GoodFrom(env.sha, GoodPlace(env, trusted), c, emitted)
    ensures GoodFrom(env.sha, GoodPlace(env, trusted), c, Pick(emitted, kept)[..m]) <==>
            forall q :: 0 <= q < m ==> !ExposedAt(env.sha, c, emitted, kept, q)
  {
    var picked, good := Pick(emitted, kept), GoodPlace(env, trusted);
    forall q | 0 <= q < m
      ensures good(picked[..m][q], ChainAfter(env.sha, c, picked[..m][..q])) <==> !ExposedAt(env.sha, c, emitted, kept, q)
    {
      assert picked[..m][..q] == picked[..q];
      KeptGoodIff(env, trusted, c, emitted, kept, q);
    }
  }

  /** A good line followed by the first `m` kept records of a run from its end is good exactly when
      none of them stands visibly after a gap. */
  lemma KeptLineIff(env: Env, trusted: TrustedKeys, line: seq<AuditRecord>, emitted: seq<AuditRecord>, kept: seq<nat>, m: nat)
    requires GoodLine(env, trusted, line) && Increasing(kept, |emitted|) && m <= |kept|
    requires GoodFrom(env.sha, GoodPlace(env, trusted), ChainAfter(env.sha, GENESIS, line), emitted)
    ensures GoodLine(env, trusted, line + Pick(emitted, kept)[..m]) <==>
            forall q :: 0 <= q < m ==> !ExposedAt(env.sha, ChainAfter(env.sha, GENESIS, line), emitted, kept, q)
  {
    LineConcat(env, trusted, line, Pick(emitted, kept)[..m]);
    KeptFromIff(env, trusted, ChainAfter(env.sha, GENESIS, line), emitted, kept, m);
  }

  ghost predicate GoodSomewhere(env: Env, trusted: TrustedKeys, r: AuditRecord)
  {
    exists c :: GoodRecord(env, trusted, r, c)
  }

  /** Among records stamped by trusted writers the verifier accepts exactly the good lines. */
  lemma OkIffGoodLine(env: Env, trusted: TrustedKeys, rs: seq<AuditRecord>)
    requires forall i :: 0 <= i < |rs| ==> GoodSomewhere(env, trusted, rs[i])
    ensures Verify(env, trusted, Published(rs)).ok <==> GoodLine(env, trusted, rs)
  {
    forall i | 0 <= i < |rs|
      ensures ClassAgrees(rs[i])
      ensures InPlace(env, trusted, rs, i) <==> GoodPlace(env, trusted)(rs[i], ChainAfter(env.sha, GENESIS, rs[..i]))
    {
      assert GoodSomewhere(env, trusted, rs[i]);
      var c :| GoodRecord(env, trusted, rs[i], c);
      GoodElsewhere(env, trusted, rs[i], c, ChainAfter(env.sha, GENESIS, rs[..i]));
    }
    PublishedOkIff(env, trusted, rs);
    GoodLineMeans(env, trusted, rs);
  }

  // ---- No silent loss ----

  lemma SinkIsPicked(cfg: Config, w: Writer)
    requires Delivered(cfg, [], [], w)
    ensures |w.sink| <= |w.kept| && w.sink == Pick(w.emitted, w.kept)[..|w.sink|]
  {
    var picked := Pick(w.emitted, w.kept);
    assert w.sink + w.spool == picked by { assert [] + [] + picked == picked; }
  }

  lemma EmittedIsGoodSomewhere(env: Env, trusted: TrustedKeys, c: Chain, emitted: seq<AuditRecord>, i: nat)
    requires GoodFrom(env.sha, GoodPlace(env, trusted), c, emitted) && i < |emitted|
    ensures GoodSomewhere(env, trusted, emitted[i])
  {
    assert GoodPlace(env, trusted)(emitted[i], ChainAfter(env.sha, c, emitted[..i]));
  }

  lemma KeptVerifiesIff(env: Env, trusted: TrustedKeys, emitted: seq<AuditRecord>, kept: seq<nat>, m: nat)
    requires Increasing(kept, |emitted|) && m <= |kept| && GoodFrom(env.sha, GoodPlace(env, trusted), GENESIS, emitted)
    ensures Verify(env, trusted, Published(Pick(emitted, kept)[..m])).ok <==>
            forall p :: 0 <= p < m ==> !ExposedAt(env.sha, GENESIS, emitted, kept, p)
  {
    var picked := Pick(emitted, kept)[..m];
    forall p | 0 <= p < m ensures GoodSomewhere(env, trusted, picked[p]) {
      EmittedIsGoodSomewhere(env, trusted, GENESIS, emitted, kept[p]);
    }
    OkIffGoodLine(env, trusted, picked);
    assert ChainAfter(env.sha, GENESIS, []) == GENESIS && [] + picked == picked;
    GoodLineMeans(env, trusted, []);
    KeptLineIff(env, trusted, [], emitted, kept, m);
  }

  /** Whatever was dropped, verification of the sink is ok exactly when no record in it stands
      visibly after a gap, for every hash. */
  lemma VerifiesIffNoGap(cfg: Config, trusted: TrustedKeys, actions: seq<Action>)
    requires Trusts(cfg, trusted) && |actions| <= U64_LIMIT
    ensures var w := Run(cfg, Start(GENESIS, [], [], 0), actions);
            && Increasing(w.kept, |w.emitted|) && |w.sink| <= |w.kept|
            && (Verify(cfg.env, trusted, Published(w.sink)).ok <==>
                  forall p :: 0 <= p < |w.sink| ==> !ExposedAt(cfg.env.sha, GENESIS, w.emitted, w.kept, p))
  {
    var env, w := cfg.env, Run(cfg, Start(GENESIS, [], [], 0), actions);
    RunDelivers(cfg, GENESIS, [], [], 0, actions);
    WriterStampsGood(cfg, trusted);
    RunStamps(cfg, GoodPlace(env, trusted), Start(GENESIS, [], [], 0), actions);
    SinkIsPicked(cfg, w);
    KeptVerifiesIff(env, trusted, w.emitted, w.kept, |w.sink|);
  }

  /** A chained record behind a gap is refused, whoever signs and whatever the hash. */
  lemma MissedIsOutOfPlace(env: Env, trusted: TrustedKeys, emitted: seq<AuditRecord>, kept: seq<nat>, q: nat)
    requires Increasing(kept, |emitted|) && q < |kept| && GoodFrom(env.sha, RightPlace(env.sha), GENESIS, emitted)
    requires MissingAt(emitted, kept, q) && emitted[kept[q]].IsChained()
    ensures !Consistent(env, trusted, LogOf(Pick(emitted, kept)[q], 0), ChainAfter(env.sha, GENESIS, Pick(emitted, kept)[..q]))
  {
    assert RightPlace(env.sha)(emitted[kept[q]], ChainAfter(env.sha, GENESIS, emitted[..kept[q]]));
    PositionAfterGap(env.sha, GENESIS, emitted, kept, q);
  }

  lemma SinkClassesAgree(sha: Sha256, emitted: seq<AuditRecord>, kept: seq<nat>, m: nat)
    requires Increasing(kept, |emitted|) && m <= |kept| && GoodFrom(sha, RightPlace(sha), GENESIS, emitted)
    ensures ClassesAgree(Pick(emitted, kept)[..m])
  {
    forall p | 0 <= p < m ensures ClassAgrees(Pick(emitted, kept)[..m][p]) {
      assert RightPlace(sha)(emitted[kept[p]], ChainAfter(sha, GENESIS, emitted[..kept[p]]));
    }
  }

  lemma TakeTake<T>(s: seq<T>, m: nat, p: nat)
    requires p <= m <= |s|
    ensures s[..m][..p] == s[..p] && (p < m ==> s[..m][p] == s[p])
  {
  }

  lemma {:induction false} KeptBreak(env: Env, trusted: TrustedKeys, emitted: seq<AuditRecord>, kept: seq<nat>, m: nat, p: nat)
    requires Increasing(kept, |emitted|) && p < m <= |kept| && GoodFrom(env.sha, RightPlace(env.sha), GENESIS, emitted)
    requires MissingAt(emitted, kept, p) && emitted[kept[p]].IsChained()
    ensures var report := Verify(env, trusted, Published(Pick(emitted, kept)[..m]));
            !report.ok && report.firstBreak.Some? && 0 <= report.firstBreak.value.offset <= p
  {
    SinkClassesAgree(env.sha, emitted, kept, m);
    MissedIsOutOfPlace(env, trusted, emitted, kept, p);
    var picked := Pick(emitted, kept);
    TakeTake(picked, m, p);
    PublishedBreak(env, trusted, picked[..m], p);
  }

  /** The writer's checkpoints read back, whoever trusts them. */
  ghost predicate Readable(cfg: Config)
  {
    cfg.signer.Some? ==> JsonRoundTrips(cfg.env) && ValidUtf8(cfg.signer.value.keyId)
  }

  predicate Parses(env: Env, r: AuditRecord) { r.IsChained() || !CheckpointIn(env, LogOf(r, 0)).Panics? }

  function ParsesPlace(env: Env): Place { (r, c) => Parses(env, r) }

  lemma WriterParses(cfg: Config)
    requires Readable(cfg)
    ensures StampsGood(cfg, ParsesPlace(cfg.env))
  {
    if cfg.signer.Some? {
      forall c: Chain, now: Millis {:trigger NextCheckpoint(cfg, c, now)} | c.nextSeq <= U64_LIMIT
        ensures Parses(cfg.env, NextCheckpoint(cfg, c, now))
      {
        CheckpointReadsBack(cfg, c, now);
      }
    }
  }

  /** No silent loss: if chained record `j` was dropped and a chained record emitted after it stands
      at sink position `p`, the verifier finds a break at or before `p`, whatever the hash and
      whoever signs; and it reports that break if the writer's checkpoint texts read back. */
  lemma DropIsReported(cfg: Config, trusted: TrustedKeys, actions: seq<Action>, j: nat, p: nat)
    requires |actions| <= U64_LIMIT
    requires var w := Run(cfg, Start(GENESIS, [], [], 0), actions);
             && j < |w.emitted| && j !in w.kept && w.emitted[j].IsChained()
             && p < |w.sink| && p < |w.kept| && j < w.kept[p] && w.sink[p].IsChained()
    ensures var w := Run(cfg, Start(GENESIS, [], [], 0), actions);
            var report := Verify(cfg.env, trusted, Published(w.sink));
            && !report.ok && report.firstBreak.Some? && 0 <= report.firstBreak.value.offset <= p
            && (Readable(cfg) ==> !Aborts(report))
  {
    var sha, w := cfg.env.sha, Run(cfg, Start(GENESIS, [], [], 0), actions);
    RunDelivers(cfg, GENESIS, [], [], 0, actions);
    WriterStampsRight(cfg);
    RunStamps(cfg, RightPlace(sha), Start(GENESIS, [], [], 0), actions);
    SinkIsPicked(cfg, w);
    assert MissingAt(w.emitted, w.kept, p);
    KeptBreak(cfg.env, trusted, w.emitted, w.kept, |w.sink|, p);
    if Readable(cfg) {
      SinkNeverAborts(cfg, trusted, actions);
    }
  }

  lemma SinkParses(env: Env, rs: seq<AuditRecord>, k: nat)
    requires k < |rs| && ClassesAgree(rs) && Parses(env, rs[k])
    ensures !(IsCheckpoint(Published(rs)[k]) && CheckpointIn(env, Published(rs)[k]).Panics?)
  {
    assert ClassAgrees(rs[k]);
    assert CheckpointIn(env, LogOf(rs[k], k)) == CheckpointIn(env, LogOf(rs[k], 0));
  }

  /** The verifier never aborts on what a writer with readable checkpoints put into the sink. */
  lemma SinkNeverAborts(cfg: Config, trusted: TrustedKeys, actions: seq<Action>)
    requires Readable(cfg) && |actions| <= U64_LIMIT
    ensures !Aborts(Verify(cfg.env, trusted, Published(Run(cfg, Start(GENESIS, [], [], 0), actions).sink)))
  {
    var env, w := cfg.env, Run(cfg, Start(GENESIS, [], [], 0), actions);
    RunDelivers(cfg, GENESIS, [], [], 0, actions);
    SinkIsPicked(cfg, w);
    WriterStampsRight(cfg);
    RunStamps(cfg, RightPlace(env.sha), Start(GENESIS, [], [], 0), actions);
    SinkClassesAgree(env.sha, w.emitted, w.kept, |w.sink|);
    WriterParses(cfg);
    RunStamps(cfg, ParsesPlace(env), Start(GENESIS, [], [], 0), actions);
    var log := Published(w.sink);
    AbortsIff(env, trusted, log);
    forall k: nat | k < |log| ensures !AbortsAt(env, trusted, log, k) {
      assert ParsesPlace(env)(w.emitted[w.kept[k]], ChainAfter(env.sha, GENESIS, w.emitted[..w.kept[k]]));
      SinkParses(env, w.sink, k);
    }
  }
}
