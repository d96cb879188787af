/** Inputs at which the audit theorems apply or fail: a signed configuration that meets every
    hypothesis of the composed pipeline, and one input for each promise that holds only under a
    condition. */
module AuditWitness {
  import opened Bytes
  import opened AuditChain
  import opened AuditRecords
  import opened AuditCheckpoints
  import opened SpoolFiles
  import opened AuditSpool
  import opened AuditVerify
  import opened AuditWriters
  import opened AuditRuns
  import opened AuditEndToEnd
  import opened AuditRestart
  import opened LogRead

  // ---- A codec for checkpoint objects ----

  /** Some text for a checkpoint that determines it. */
  function Plain(cp: CheckpointData): bytes
  {
    Hex(cp.signature) + [0] + (Hex(cp.publicKey) + [0] + SigningBytes(cp.keyId, cp.seqHigh, cp.chainHead, cp.time))
  }

  lemma FirstZero(a: bytes, x: bytes, b: bytes, y: bytes)
    requires a + [0] + x == b + [0] + y && 0 !in a && 0 !in b
    ensures a == b && x == y
  {
    var s := a + [0] + x;
    assert s[|a|] == 0 && s[|b|] == 0;
    assert |a| == |b|;
    assert s[..|a|] == a && s[..|a|] == b && s[|a| + 1..] == x && s[|a| + 1..] == y;
  }

  lemma {:induction false} HexHasNoZero(b: bytes)
    ensures 0 !in Hex(b)
  {
    if b != [] {
      HexHasNoZero(b[1..]);
    }
  }

  lemma PlainInjective(a: CheckpointData, b: CheckpointData)
    requires Representable(a) && Representable(b) && Plain(a) == Plain(b)
    ensures a == b
  {
    HexHasNoZero(a.signature);
    HexHasNoZero(b.signature);
    HexHasNoZero(a.publicKey);
    HexHasNoZero(b.publicKey);
    var x := SigningBytes(a.keyId, a.seqHigh, a.chainHead, a.time);
    var y := SigningBytes(b.keyId, b.seqHigh, b.chainHead, b.time);
    FirstZero(Hex(a.signature), Hex(a.publicKey) + [0] + x, Hex(b.signature), Hex(b.publicKey) + [0] + y);
    FirstZero(Hex(a.publicKey), x, Hex(b.publicKey), y);
    SigningBytesInjective(a.keyId, a.seqHigh, a.chainHead, a.time, b.keyId, b.seqHigh, b.chainHead, b.time);
    UnhexHex(a.signature);
    UnhexHex(b.signature);
    UnhexHex(a.publicKey);
    UnhexHex(b.publicKey);
  }

  ghost predicate Renders(o: JsonObject, cp: CheckpointData) { Representable(cp) && ToJsonObject(cp) == o }

  ghost function PlainToJson(o: JsonObject): bytes
  {
    if exists cp :: Renders(o, cp) then var cp :| Renders(o, cp); Plain(cp) else []
  }

  ghost predicate Spells(b: bytes, cp: CheckpointData) { Representable(cp) && Plain(cp) == b }

  ghost function PlainFromJson(b: bytes): Option<JsonObject>
  {
    if exists cp :: Spells(b, cp) then var cp :| Spells(b, cp); Some(ToJsonObject(cp)) else None
  }

  lemma PlainRendering(cp: CheckpointData)
    requires Representable(cp)
    ensures PlainToJson(ToJsonObject(cp)) == Plain(cp)
  {
    var o := ToJsonObject(cp);
    assert Renders(o, cp);
    forall other | Renders(o, other) ensures other == cp {
      CheckpointRoundTrip(other);
      CheckpointRoundTrip(cp);
    }
  }

  lemma PlainReading(cp: CheckpointData)
    requires Representable(cp)
    ensures PlainFromJson(Plain(cp)) == Some(ToJsonObject(cp))
  {
    assert Spells(Plain(cp), cp);
    forall other | Spells(Plain(cp), other) ensures other == cp {
      PlainInjective(other, cp);
    }
  }

  ghost function PlainEnv(sha: Sha256): Env
  {
    Env(sha, (key: bytes, message: bytes, signature: bytes) => true, PlainToJson, PlainFromJson)
  }

  lemma PlainRoundTrips(sha: Sha256)
    ensures JsonRoundTrips(PlainEnv(sha))
  {
    var env := PlainEnv(sha);
    forall cp | Representable(cp) ensures env.fromJson(env.toJson(ToJsonObject(cp))) == Some(ToJsonObject(cp)) {
      PlainRendering(cp);
      PlainReading(cp);
    }
  }

  // ---- A signed configuration ----

  ghost function SignedConfig(sha: Sha256, everyN: nat, cap: Option<nat>, accepts: nat -> bool): Config
  {
    Config(PlainEnv(sha), Some(Signer([], [], (message: bytes) => [])), everyN, AuditCodec(), cap, accepts)
  }

  const TRUSTED: TrustedKeys := map[[] := []]

  lemma PlainCheckpointIsShort(sha: Sha256, cp: CheckpointData)
    requires Representable(cp) && cp.keyId == cp.signature == cp.publicKey == []
    ensures |CheckpointRecord(PlainEnv(sha), cp).value| < 200
  {
    PlainRendering(cp);
    SigningParts(cp.keyId, cp.seqHigh, cp.chainHead, cp.time);
  }

  lemma {:induction false} NextPlainIsShort(sha: Sha256, cfg: Config, c: Chain, now: Millis)
    requires cfg.env == PlainEnv(sha) && cfg.signer == Some(Signer([], [], (message: bytes) => []))
    requires c.nextSeq <= U64_LIMIT
    ensures |NextCheckpoint(cfg, c, now).value| < 200
  {
    PlainCheckpointIsShort(sha, SignedCheckpoint(cfg.signer.value, Decrement(c.nextSeq), c.head, now));
  }

  lemma {:induction false} PlainCheckpointsAreShort(sha: Sha256, cfg: Config)
    requires cfg.env == PlainEnv(sha) && cfg.signer == Some(Signer([], [], (message: bytes) => []))
    ensures ShortCheckpoints(cfg)
  {
    forall c: Chain, now: Millis {:trigger NextCheckpoint(cfg, c, now)} | c.nextSeq <= U64_LIMIT
      ensures |NextCheckpoint(cfg, c, now).value| < 0xFFFF_0000
    {
      NextPlainIsShort(sha, cfg, c, now);
    }
  }

  lemma PlainIsTrusted(sha: Sha256, cfg: Config)
    requires cfg.env == PlainEnv(sha) && cfg.signer == Some(Signer([], [], (message: bytes) => []))
    ensures Trusts(cfg, TRUSTED)
  {
    PlainRoundTrips(sha);
    assert SignerWorks(cfg.env, cfg.signer.value);
  }

  /** For every hash, cap, trigger and failure plan there is a signed configuration with the spool's
      own codec that meets every hypothesis of the composed pipeline. */
  lemma SignedPipelineApplies(sha: Sha256, everyN: nat, cap: Option<nat>, accepts: nat -> bool)
    ensures var cfg := SignedConfig(sha, everyN, cap, accepts);
            && cfg.signer.Some? && cfg.codec == AuditCodec() && Lawful(cfg.codec)
            && Trusts(cfg, TRUSTED) && ShortCheckpoints(cfg) && RecordsFit(cfg)
  {
    var cfg := SignedConfig(sha, everyN, cap, accepts);
    AuditCodecIsLawful();
    PlainIsTrusted(sha, cfg);
    PlainCheckpointsAreShort(sha, cfg);
    AuditCodecFitsRecords(cfg);
  }

  // ---- Where a promise fails ----

  lemma {:induction false} OneGood(sha: Sha256, good: Place, a: AuditRecord)
    requires good(a, GENESIS)
    ensures GoodFrom(sha, good, GENESIS, [a])
    ensures ChainAfter(sha, GENESIS, [a]) == if a.IsChained() then Extend(sha, GENESIS, a.value) else GENESIS
  {
    assert [a][..0] == [] && [] + [a] == [a];
    ChainAfterSnoc(sha, GENESIS, [], a);
  }

  lemma {:induction false} TwoGood(sha: Sha256, good: Place, a: AuditRecord, b: AuditRecord)
    requires good(a, GENESIS) && good(b, ChainAfter(sha, GENESIS, [a]))
    ensures GoodFrom(sha, good, GENESIS, [a, b])
  {
    OneGood(sha, good, a);
    GoodSnoc(sha, good, GENESIS, [a], b);
    assert [a] + [b] == [a, b];
  }

  lemma {:induction false} CheckpointThenRecord(rs: seq<AuditRecord>)
    requires |rs| == 2 && ClassAgrees(rs[0]) && ClassAgrees(rs[1]) && !rs[0].IsChained() && rs[1].IsChained()
    ensures var log := Published(rs); LastAnchor(log) == Some(0) && |LogValues(log)| == 1 && UnsignedTail(log) == 1
  {
    var log, first, second := Published(rs), LogOf(rs[0], 0), LogOf(rs[1], 1);
    assert log == [first] + [second] && [] + [first] == [first];
    AnchorsSnoc([], first);
    AnchorsSnoc([first], second);
    LogValuesSnoc([], first);
    LogValuesSnoc([first], second);
    UnsignedTailCounts(log);
  }

  /** An ok report that counts no record after the last checkpoint, where there is one. */
  predicate CountsOneShort(report: VerifyReport, log: seq<LogRecord>)
  {
    report.ok && report.records == 1 && UnsignedTail(log) == 1 && report.unanchored == 0
  }

  lemma {:induction false} CheckpointFirst(env: Env, trusted: TrustedKeys, rs: seq<AuditRecord>)
    requires |rs| == 2 && !rs[0].IsChained() && rs[1].IsChained()
    requires GoodPlace(env, trusted)(rs[0], GENESIS) && GoodPlace(env, trusted)(rs[1], GENESIS)
    ensures CountsOneShort(Verify(env, trusted, Published(rs)), Published(rs))
  {
    assert rs == [rs[0], rs[1]];
    OneGood(env.sha, GoodPlace(env, trusted), rs[0]);
    TwoGood(env.sha, GoodPlace(env, trusted), rs[0], rs[1]);
    GoodLineMeans(env, trusted, rs);
    GoodLineVerifies(env, trusted, rs);
    CheckpointThenRecord(rs);
    VerifyOkIff(env, trusted, Published(rs));
  }

  lemma {:induction false} StampInPlace(env: Env, trusted: TrustedKeys, e: AuditEvent, c: Chain, r: AuditRecord)
    requires r == Stamp(e, c) && c.nextSeq < U64_LIMIT
    ensures GoodPlace(env, trusted)(r, c) && RightPlace(env.sha)(r, c) && r.IsChained() && r.value == e.ocsf
  {
    StampIsGood(env, trusted, e, c);
  }

  /** The writer's record of an event is good where it is stamped. */
  lemma {:induction false} SomeRecord(env: Env, trusted: TrustedKeys, e: AuditEvent, c: Chain) returns (r: AuditRecord)
    requires c.nextSeq < U64_LIMIT
    ensures GoodPlace(env, trusted)(r, c) && r.IsChained() && r.value == e.ocsf
  {
    r := Stamp(e, c);
    StampInPlace(env, trusted, e, c, r);
  }

  /** And so is its checkpoint. */
  lemma {:induction false} SomeCheckpoint(cfg: Config, trusted: TrustedKeys, c: Chain,
                                          now: Millis) returns (r: AuditRecord)
    requires cfg.signer.Some? && Trusts(cfg, trusted) && c.nextSeq <= U64_LIMIT
    ensures GoodPlace(cfg.env, trusted)(r, c) && !r.IsChained()
  {
    r := NextCheckpoint(cfg, c, now);
    CheckpointIsGood(cfg, trusted, c, now);
  }

  /** For every trusted signer and every event there is a log of a checkpoint of the empty chain and the
      event's record that verifies with one unsigned record and a count of none. */
  lemma {:induction false} UnanchoredMissesOne(cfg: Config, trusted: TrustedKeys, e: AuditEvent, now: Millis)
    returns (rs: seq<AuditRecord>)
    requires cfg.signer.Some? && Trusts(cfg, trusted)
    ensures |rs| == 2 && rs[1].value == e.ocsf
    ensures CountsOneShort(Verify(cfg.env, trusted, Published(rs)), Published(rs))
  {
    var first := SomeCheckpoint(cfg, trusted, GENESIS, now);
    var second := SomeRecord(cfg.env, trusted, e, GENESIS);
    rs := [first, second];
    CheckpointFirst(cfg.env, trusted, rs);
  }

  /** One spooled event, sent twice by a crash inside replay: the sink does not verify. */
  lemma {:induction false} ReplayedTwiceBreaks(env: Env, trusted: TrustedKeys, e: AuditEvent) returns (r: AuditRecord)
    ensures r.value == e.ocsf && GoodPlace(env, trusted)(r, GENESIS) && !Verify(env, trusted, Published([r, r])).ok
  {
    r := SomeRecord(env, trusted, e, GENESIS);
    RepeatedBreaks(env, trusted, r);
  }

  lemma {:induction false} RepeatedBreaks(env: Env, trusted: TrustedKeys, r: AuditRecord)
    requires GoodPlace(env, trusted)(r, GENESIS) && r.IsChained()
    ensures !Verify(env, trusted, Published([r, r])).ok
  {
    OneGood(env.sha, GoodPlace(env, trusted), r);
    GoodLineMeans(env, trusted, [r]);
    assert [] + [r] == [r] && [r][..1] == [r] && Twice([], [r], 1) == [r, r];
    ChainedValuesSnoc([], r);
    ReplayCrashIsVisible(env, trusted, [], [r], 1);
  }

  // ---- Tail reads that miss the last record ----

  /** The records of these events, in order. */
  predicate Carry(rs: seq<AuditRecord>, events: seq<AuditEvent>)
  {
    |rs| == |events| && forall i :: 0 <= i < |rs| ==> rs[i].IsChained() && rs[i].value == events[i].ocsf
  }

  /** Stamped one after another from genesis, events make a right line of chained records. */
  lemma {:induction false} SomeLine(sha: Sha256, events: seq<AuditEvent>) returns (rs: seq<AuditRecord>)
    requires |events| <= U64_LIMIT
    ensures RightLine(sha, rs) && Carry(rs, events)
  {
    rs := [];
    if events != [] {
      var n := |events| - 1;
      rs := SomeLine(sha, events[..n]);
      CarriedCount(rs, events[..n]);
      var r := OneMore(sha, rs, events[n]);
      rs := rs + [r];
    }
  }

  lemma {:induction false} OneMore(sha: Sha256, rs: seq<AuditRecord>, e: AuditEvent) returns (r: AuditRecord)
    requires RightLine(sha, rs) && ChainedCount(rs) < U64_LIMIT
    ensures RightLine(sha, rs + [r]) && r.IsChained() && r.value == e.ocsf
  {
    var c := ChainAfter(sha, GENESIS, rs);
    ChainCounts(sha, rs);
    r := Stamp(e, c);
    StampInPlace(PlainEnv(sha), TRUSTED, e, c, r);
    GoodSnoc(sha, RightPlace(sha), GENESIS, rs, r);
  }

  lemma {:induction false} CarriedCount(rs: seq<AuditRecord>, events: seq<AuditEvent>)
    requires Carry(rs, events)
    ensures ChainedCount(rs) == |events|
  {
    if rs != [] {
      var n := |rs| - 1;
      CarriedCount(rs[..n], events[..n]);
    }
  }

  /** One segment of `n` records, one a batch of 300 bytes, with one index entry. Any events whose
      batches take that size will do. */
  function EvenLog(n: nat): Log { Log([], Some(Segment(0, seq(n, i requires 0 <= i < n => Batch(i, 1, 300)), [0]))) }

  lemma {:induction false} EvenLogHolds(n: nat, sink: seq<AuditRecord>)
    requires 0 < n == |sink|
    ensures LogHolds(EvenLog(n), sink)
  {
    var seg := EvenLog(n).active.value;
    forall i | 0 <= i < n ensures InSequence(seg, i) {}
    assert EvenLog(n).Segments() == [seg] && [seg][1..] == [];
  }

  lemma {:induction false} EvenRead(n: nat, offset: nat, budget: nat)
    requires 0 < n && offset < n
    ensures ValidSegment(EvenLog(n).active.value) && AllValid(EvenLog(n).Segments())
    ensures StartOf(EvenLog(n).active.value, offset) == 0
    ensures ReadFrom(EvenLog(n).Segments(), offset, budget) == Scan(EvenLog(n).active.value.batches, 0, budget, offset)
  {
    var seg := EvenLog(n).active.value;
    forall i | 0 <= i < n ensures InSequence(seg, i) {}
    assert EvenLog(n).Segments() == [seg] && [seg][1..] == [];
    assert Lookup(seg.batches, [0], offset) == 0;
  }

  /** The restart stands behind the chain, although the sink is right. */
  ghost predicate ResumesTooEarly(sha: Sha256, log: Log, sink: seq<AuditRecord>, window: int, budget: nat)
  {
    && RightLine(sha, sink) && LogHolds(log, sink)
    && RestartChain(sha, sink, [], TailRead(log, sink, window, budget)).nextSeq < ChainAfter(sha, GENESIS, sink).nextSeq
  }

  lemma {:induction false} MissingLast(sha: Sha256, log: Log, sink: seq<AuditRecord>, window: int, budget: nat)
    requires RightLine(sha, sink) && LogHolds(log, sink) && sink != [] && sink[|sink| - 1].IsChained()
    requires |sink| - 1 !in TailRead(log, sink, window, budget)
    ensures ResumesTooEarly(sha, log, sink, window, budget)
  {
    var read := TailRead(log, sink, window, budget);
    LastIsMissed(sink, read);
    StaysBehind(sha, sink, read);
  }

  lemma {:induction false} LastIsMissed(sink: seq<AuditRecord>, read: seq<nat>)
    requires sink != [] && sink[|sink| - 1].IsChained() && |sink| - 1 !in read
    ensures !TailReaches(sink, read)
  {
    CountGrows(sink, |sink| - 1, |sink| - 1);
    forall q | 0 <= q < |read| ensures !LastChainedAt(sink, read[q]) {
      assert read[q] in read;
    }
  }

  lemma {:induction false} StaysBehind(sha: Sha256, sink: seq<AuditRecord>, read: seq<nat>)
    requires RightLine(sha, sink) && Increasing(read, |sink|) && !TailReaches(sink, read)
    ensures RestartChain(sha, sink, [], read).nextSeq < ChainAfter(sha, GENESIS, sink).nextSeq
  {
    assert sink + [] == sink;
    RestartFindsChainIff(sha, sink, [], read);
  }

  lemma {:induction false} OffsetOfOne(b: nat)
    ensures Offsets([Batch(b, 1, 300)]) == [b]
  {
    assert [Batch(b, 1, 300)][1..] == [];
  }

  lemma {:induction false} ReadOfTwo(sink: seq<AuditRecord>)
    requires |sink| == 2
    ensures LogHolds(EvenLog(2), sink) && TailRead(EvenLog(2), sink, 2, 400) == [0]
  {
    var bs := EvenLog(2).active.value.batches;
    assert Scan(bs, 1, 100, 0) == [];
    EvenLogHolds(2, sink);
    EvenRead(2, 0, 400);
    OffsetOfOne(0);
  }

  /** The last two records take exactly 600 bytes. */
  lemma {:induction false} WindowOfTwo()
    ensures ValidSegment(EvenLog(3).active.value) && WindowSize(EvenLog(3).active.value, 1) == 600
  {
    EvenRead(3, 1, 0);
    var bs := EvenLog(3).active.value.batches;
    assert FirstBeyond(bs, 1, 1) == 1;
    assert SizeFrom(bs, 2) == 300 + SizeFrom(bs, 3);
  }

  lemma {:induction false} ReadOfThree(sink: seq<AuditRecord>)
    requires |sink| == 3
    ensures LogHolds(EvenLog(3), sink) && TailRead(EvenLog(3), sink, 2, 600) == [1]
  {
    var bs := EvenLog(3).active.value.batches;
    assert Scan(bs, 2, 0, 1) == [];
    assert Scan(bs, 1, 300, 1) == [bs[1]];
    EvenLogHolds(3, sink);
    EvenRead(3, 1, 600);
    OffsetOfOne(1);
  }

  /** A window larger than the budget: two events, a window of two and a budget for one record. */
  lemma {:induction false} ShortReadIsStale(sha: Sha256, events: seq<AuditEvent>) returns (sink: seq<AuditRecord>)
    requires |events| == 2
    ensures Carry(sink, events) && ResumesTooEarly(sha, EvenLog(2), sink, 2, 400)
  {
    sink := SomeLine(sha, events);
    ReadOfTwo(sink);
    MissingLast(sha, EvenLog(2), sink, 2, 400);
  }

  /** A window that fits the budget exactly, behind one older record that the sparse index makes the read
      start at: three events, a window of two and a budget for two records. */
  lemma {:induction false} IndexedReadIsStale(sha: Sha256, events: seq<AuditEvent>) returns (sink: seq<AuditRecord>)
    requires |events| == 3
    ensures ValidSegment(EvenLog(3).active.value) && WindowSize(EvenLog(3).active.value, TailStart(3, 2)) <= 600
    ensures Carry(sink, events) && ResumesTooEarly(sha, EvenLog(3), sink, 2, 600)
  {
    WindowOfTwo();
    sink := SomeLine(sha, events);
    ReadOfThree(sink);
    MissingLast(sha, EvenLog(3), sink, 2, 600);
  }

  // ---- A drop that nobody reports ----

  /** A life that receives one event, with a sink that always or never accepts and no signer. */
  function OneEventLife(env: Env, cap: Option<nat>, accepts: bool, e: AuditEvent, now: Millis): Life
  {
    Life(Config(env, None, 0, AuditCodec(), cap, (attempt: nat) => accepts), [Receive(e, now)], None, 0, [], 0)
  }

  const NOTHING: Disk := Disk([], [])

  lemma {:induction false} FreshStart(env: Env, trusted: TrustedKeys, cap: Option<nat>, accepts: bool, e: AuditEvent,
                                      now: Millis)
    ensures var life := OneEventLife(env, cap, accepts, e, now);
            && LifeStart(life, NOTHING) == Start(GENESIS, [], [], 0)
            && SoundLife(env, trusted, life, NOTHING) && Reaches(life, NOTHING)
  {
  }

  /** A run on one event, from any position `c`. */
  lemma {:induction false} OneEventRun(cfg: Config, c: Chain, e: AuditEvent, now: Millis)
    requires cfg.everyN == 0 && (cfg.sinkAccepts(0) || cfg.spoolCap.None? || |cfg.codec.frame(Stamp(e, c))| > cfg.spoolCap.value)
    ensures var w := Run(cfg, Start(c, [], [], 0), [Receive(e, now)]);
            && |w.emitted| == 1 && w.emitted[0].value == e.ocsf && w.spool == []
            && (cfg.sinkAccepts(0) ==> w.sink == w.emitted && w.dropped == 0 && w.kept == [0])
            && (!cfg.sinkAccepts(0) ==> w.sink == [] && w.dropped == 1 && w.kept == [])
  {
    var actions := [Receive(e, now)];
    assert actions[..0] == [];
    assert Run(cfg, Start(c, [], [], 0), actions) == WriteChained(cfg, Start(c, [], [], 0), e);
  }

  /** The spool is off, or its cap leaves no room for the shortest frame. */
  predicate NoRoom(cap: Option<nat>) { cap.None? || cap.value < 4 }

  lemma {:induction false} OneEventEnds(env: Env, trusted: TrustedKeys, cap: Option<nat>, accepts: bool,
                                        e: AuditEvent, now: Millis)
    requires accepts || NoRoom(cap)
    ensures var life := OneEventLife(env, cap, accepts, e, now);
            && SoundLife(env, trusted, life, NOTHING) && Reaches(life, NOTHING)
            && var w := LifeEnd(life, NOTHING);
            && |w.emitted| == 1 && w.emitted[0].value == e.ocsf && w.spool == []
            && (if accepts then w.sink == w.emitted && w.kept == [0] else w.sink == [] && w.kept == [] && w.dropped == 1)
  {
    FreshStart(env, trusted, cap, accepts, e, now);
    OneEventRun(OneEventLife(env, cap, accepts, e, now).cfg, GENESIS, e, now);
  }

  /** A first life drops its only event, because the sink refuses it and the spool is off or full. A
      second life writes another event. The sink holds that event and verifies, and nothing tells of
      the first. */
  lemma {:induction false} DropAtEndIsSilent(env: Env, trusted: TrustedKeys, cap: Option<nat>, lost: AuditEvent,
                                             next: AuditEvent, now: Millis)
    requires NoRoom(cap)
    ensures var first, second := OneEventLife(env, cap, false, lost, now), OneEventLife(env, cap, true, next, now);
            && LifeEnd(first, NOTHING).dropped == 1 && AfterLives(env, trusted, [first, second]).Some?
            && var sink := AfterLives(env, trusted, [first, second]).value.sink;
            && |sink| == 1 && sink[0].value == next.ocsf && Verify(env, trusted, Published(sink)).ok
  {
    var first, second := OneEventLife(env, cap, false, lost, now), OneEventLife(env, cap, true, next, now);
    OneEventEnds(env, trusted, cap, false, lost, now);
    OneEventEnds(env, trusted, cap, true, next, now);
    ShortLife(first, NOTHING);
    ShortLife(second, NOTHING);
    TwoLives(env, trusted, first, second);
    LivesVerify(env, trusted, [first, second]);
  }

  /** A life that keeps at most its only record, in the sink. */
  lemma {:induction false} ShortLife(life: Life, d: Disk)
    requires Increasing(life.read, |d.sink|) && life.resent == 0 && LifeEnd(life, d).spool == []
    requires var w := LifeEnd(life, d); w.kept == [] || (w.kept == [0] && |w.emitted| == 1)
    ensures QuietLife(life, d) && LifeLeaves(life, d) == Disk(LifeEnd(life, d).sink, [])
  {
    var w := LifeEnd(life, d);
    assert w.spool[..0] == [] && w.sink + [] == w.sink;
  }

  lemma {:induction false} TwoLives(env: Env, trusted: TrustedKeys, first: Life, second: Life)
    requires SoundLife(env, trusted, first, NOTHING) && Reaches(first, NOTHING) && LifeLeaves(first, NOTHING) == NOTHING
    requires SoundLife(env, trusted, second, NOTHING) && Reaches(second, NOTHING)
    requires QuietLife(first, NOTHING) && QuietLife(second, NOTHING)
    ensures AfterLives(env, trusted, [first, second]) == Some(LifeLeaves(second, NOTHING))
    ensures QuietLives(env, trusted, [first, second])
  {
    AddLife(env, trusted, [], first, NOTHING);
    AddLife(env, trusted, [first], second, NOTHING);
    assert [] + [first] == [first] && [first] + [second] == [first, second];
  }

  // ---- A text that aborts the verifier ----

  /** `a`, an accented `e` and `a` in UTF-8: four bytes whose second character crosses the pair
      boundary. */
  const ACCENTED: bytes := [97, 0xC3, 0xA9, 97]

  /** A checkpoint object with that text for its signature makes the parser panic, and a record that
      holds it makes the verifier abort. */
  lemma {:induction false} AccentAborts(env: Env, trusted: TrustedKeys, cp: CheckpointData, r: LogRecord)
    requires Representable(cp) && IsCheckpoint(r)
    requires env.fromJson(ValueOf(r)) == Some(ToJsonObject(cp)["signature" := JsonString(ACCENTED)])
    ensures FromJsonObject(ToJsonObject(cp)["signature" := JsonString(ACCENTED)]).Panics?
    ensures Aborts(Verify(env, trusted, [r]))
  {
    AccentPanics(cp);
    assert AbortsAt(env, trusted, [r], 0);
    AbortsThere(env, trusted, [r], 0);
  }

  lemma {:induction false} AccentPanics(cp: CheckpointData)
    requires Representable(cp)
    ensures FromJsonObject(ToJsonObject(cp)["signature" := JsonString(ACCENTED)]).Panics?
  {
    assert StraddlesAt(ACCENTED, 0);
    FromHex32Hex(cp.chainHead);
    ParsePanicsIff(ToJsonObject(cp)["signature" := JsonString(ACCENTED)]);
  }
}
