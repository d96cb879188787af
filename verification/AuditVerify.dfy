/** Offline verification (crates/audit/src/verify.rs) over the decoded records of a partition,
    in offset order. */
module AuditVerify {
  import opened Bytes
  import opened AuditChain
  import opened AuditRecords
  import opened AuditCheckpoints

  /** A record as read from the log: the value and header values may be null. */
  datatype LogRecord = LogRecord(offset: int, value: Option<bytes>, headers: seq<(bytes, Option<bytes>)>)

  type TrustedKeys = map<bytes, bytes>

  datatype BreakReason =
    | NotJson | MalformedCheckpoint | ParserPanics | NoTrustedKey | SignatureInvalid
    | HeadMismatch | SeqHighMismatch | BadChainHeaders | SeqGap | PrevHashMismatch

  datatype VerifyBreak = VerifyBreak(offset: int, seqNo: Option<nat>, reason: BreakReason)

  datatype VerifyReport = VerifyReport(records: nat, checkpoints: nat, ok: bool,
                                       firstBreak: Option<VerifyBreak>, unanchored: nat)

  function HeaderValue(hs: seq<(bytes, Option<bytes>)>, key: bytes): Option<bytes>
  {
    if hs == [] then None else if hs[0].0 == key then hs[0].1 else HeaderValue(hs[1..], key)
  }

  function ValueOf(r: LogRecord): bytes { if r.value.Some? then r.value.value else [] }

  predicate IsCheckpoint(r: LogRecord) { HeaderValue(r.headers, HEADER_EVENT_CLASS) == Some(CLASS_CHECKPOINT) }

  function SeqHeader(r: LogRecord): Option<nat> { ParseSeq(HeaderValue(r.headers, HEADER_SEQ)) }

  function PrevHeader(r: LogRecord): Option<Head> { ParsePrev(HeaderValue(r.headers, HEADER_PREV_HASH)) }

  // ---- The walk ----

  function Decrement(n: nat): nat { if n == 0 then 0 else n - 1 }

  datatype Walk = Walk(chain: Chain, records: nat, checkpoints: nat, lastHigh: Option<nat>)

  const START: Walk := Walk(GENESIS, 0, 0, None)

  /** Why a checkpoint record is refused at chain position `c`, if it is. */
  function CheckpointFault(env: Env, trusted: TrustedKeys, r: LogRecord, c: Chain): Option<BreakReason>
  {
    match env.fromJson(ValueOf(r))
    case None => Some(NotJson)
    case Some(json) =>
      match FromJsonObject(json)
      case Malformed => Some(MalformedCheckpoint)
      case Panics => Some(ParserPanics)
      case Good(cp) =>
        if cp.keyId !in trusted then Some(NoTrustedKey)
        else if !SignatureValid(env, cp, trusted[cp.keyId]) then Some(SignatureInvalid)
        else if cp.chainHead != c.head then Some(HeadMismatch)
        else if cp.seqHigh != Decrement(c.nextSeq) then Some(SeqHighMismatch)
        else None
  }

  /** Why a chained record is refused at chain position `c`, if it is. */
  function ChainFault(r: LogRecord, c: Chain): Option<BreakReason>
  {
    if SeqHeader(r).None? || PrevHeader(r).None? then Some(BadChainHeaders)
    else if SeqHeader(r).value != c.nextSeq then Some(SeqGap)
    else if PrevHeader(r).value != c.head then Some(PrevHashMismatch)
    else None
  }

  function Fault(env: Env, trusted: TrustedKeys, r: LogRecord, c: Chain): Option<BreakReason>
  {
    if IsCheckpoint(r) then CheckpointFault(env, trusted, r, c) else ChainFault(r, c)
  }

  function Advance(sha: Sha256, r: LogRecord, w: Walk): Walk
  {
    if IsCheckpoint(r) then w.(checkpoints := w.checkpoints + 1, lastHigh := Some(Decrement(w.chain.nextSeq)))
    else w.(chain := Extend(sha, w.chain, ValueOf(r)), records := w.records + 1)
  }

  function BrokenReport(r: LogRecord, w: Walk, reason: BreakReason): VerifyReport
  {
    if IsCheckpoint(r)
    then VerifyReport(w.records, w.checkpoints + 1, false, Some(VerifyBreak(r.offset, None, reason)), 0)
    else VerifyReport(w.records, w.checkpoints, false, Some(VerifyBreak(r.offset, SeqHeader(r), reason)), 0)
  }

  function FinalReport(w: Walk): VerifyReport
  {
    VerifyReport(w.records, w.checkpoints, true, None,
                 if w.lastHigh.None? then w.records
                 else if w.records <= w.lastHigh.value + 1 then 0 else w.records - (w.lastHigh.value + 1))
  }

  /** How a record is judged at a chain position. */
  type Judge = (LogRecord, Chain) -> Option<BreakReason>

  function VerifyFrom(sha: Sha256, judge: Judge, rs: seq<LogRecord>, w: Walk): VerifyReport
  {
    if rs == [] then FinalReport(w)
    else match judge(rs[0], w.chain)
      case Some(reason) => BrokenReport(rs[0], w, reason)
      case None => VerifyFrom(sha, judge, rs[1..], Advance(sha, rs[0], w))
  }

  function TrustedJudge(env: Env, trusted: TrustedKeys): Judge { (r, c) => Fault(env, trusted, r, c) }

  function Verify(env: Env, trusted: TrustedKeys, rs: seq<LogRecord>): VerifyReport
  {
    VerifyFrom(env.sha, TrustedJudge(env, trusted), rs, START)
  }

  /** A panic in the checkpoint parser is a break that nobody sees: the program aborts. */
  predicate Aborts(report: VerifyReport)
  {
    report.firstBreak.Some? && report.firstBreak.value.reason == ParserPanics
  }

  // ---- The verifier as the program runs it ----

  class WalkState {
    var head: Head
    var expectedSeq: nat
    var records: nat
    var checkpoints: nat
    var lastHigh: Option<nat>

    ghost function State(): Walk reads this
    {
      Walk(Chain(expectedSeq, head), records, checkpoints, lastHigh)
    }

    constructor ()
      ensures State() == START
    {
      head, expectedSeq, records, checkpoints, lastHigh := GENESIS_HEAD, 0, 0, 0, None;
    }

    method CheckCheckpoint(env: Env, trusted: TrustedKeys, r: LogRecord)
      returns (broke: Option<VerifyReport>, aborted: bool)
      requires IsCheckpoint(r)
      modifies this
      ensures var fault := CheckpointFault(env, trusted, r, old(State()).chain);
              && aborted == (fault == Some(ParserPanics))
              && (fault.None? ==> broke.None? && State() == Advance(env.sha, r, old(State())))
              && (fault.Some? && !aborted ==> broke == Some(BrokenReport(r, old(State()), fault.value)))
    {
      broke, aborted := None, false;
      checkpoints := checkpoints + 1;
      var json := env.fromJson(ValueOf(r));
      if json.None? {
        broke := Some(VerifyReport(records, checkpoints, false, Some(VerifyBreak(r.offset, None, NotJson)), 0));
        return;
      }
      var parsed := FromJsonObject(json.value);
      var reason: BreakReason;
      if parsed.Malformed? {
        reason := MalformedCheckpoint;
      } else if parsed.Panics? {
        aborted := true;
        return;
      } else if parsed.value.keyId !in trusted {
        reason := NoTrustedKey;
      } else if !SignatureValid(env, parsed.value, trusted[parsed.value.keyId]) {
        reason := SignatureInvalid;
      } else if parsed.value.chainHead != head {
        reason := HeadMismatch;
      } else if parsed.value.seqHigh != Decrement(expectedSeq) {
        reason := SeqHighMismatch;
      } else {
        lastHigh := Some(parsed.value.seqHigh);
        return;
      }
      broke := Some(VerifyReport(records, checkpoints, false, Some(VerifyBreak(r.offset, None, reason)), 0));
    }

    method CheckChained(env: Env, r: LogRecord) returns (broke: Option<VerifyReport>)
      requires !IsCheckpoint(r)
      modifies this
      ensures var fault := ChainFault(r, old(State()).chain);
              if fault.None? then broke.None? && State() == Advance(env.sha, r, old(State()))
              else broke == Some(BrokenReport(r, old(State()), fault.value))
    {
      var seqNo, prev := SeqHeader(r), PrevHeader(r);
      if seqNo.None? || prev.None? {
        return Some(VerifyReport(records, checkpoints, false, Some(VerifyBreak(r.offset, seqNo, BadChainHeaders)), 0));
      }
      if seqNo.value != expectedSeq {
        return Some(VerifyReport(records, checkpoints, false, Some(VerifyBreak(r.offset, seqNo, SeqGap)), 0));
      }
      if prev.value != head {
        return Some(VerifyReport(records, checkpoints, false, Some(VerifyBreak(r.offset, seqNo, PrevHashMismatch)), 0));
      }
      head := ChainHash(env.sha, head, seqNo.value, ValueOf(r));
      expectedSeq := expectedSeq + 1;
      records := records + 1;
      return None;
    }

    method CheckRecord(env: Env, trusted: TrustedKeys, r: LogRecord)
      returns (broke: Option<VerifyReport>, aborted: bool)
      modifies this
      ensures var fault := Fault(env, trusted, r, old(State()).chain);
              && aborted == (fault == Some(ParserPanics))
              && (fault.None? ==> broke.None? && State() == Advance(env.sha, r, old(State())))
              && (fault.Some? && !aborted ==> broke == Some(BrokenReport(r, old(State()), fault.value)))
    {
      if IsCheckpoint(r) {
        broke, aborted := CheckCheckpoint(env, trusted, r);
      } else {
        aborted := false;
        broke := CheckChained(env, r);
      }
    }

    /** The records of one batch; `after` are the records of the later ones. */
    method CheckBatch(env: Env, trusted: TrustedKeys, batch: seq<LogRecord>, ghost after: seq<LogRecord>)
      returns (broke: Option<VerifyReport>, aborted: bool)
      modifies this
      ensures var judge := TrustedJudge(env, trusted);
              var result := VerifyFrom(env.sha, judge, batch + after, old(State()));
              && (aborted ==> Aborts(result))
              && (!aborted && broke.Some? ==> broke == Some(result) && !Aborts(result))
              && (!aborted && broke.None? ==> VerifyFrom(env.sha, judge, after, State()) == result)
    {
      broke, aborted := None, false;
      ghost var judge := TrustedJudge(env, trusted);
      ghost var result := VerifyFrom(env.sha, judge, batch + after, State());
      assert batch[0..] == batch;
      for j := 0 to |batch|
        invariant broke.None? && !aborted
        invariant VerifyFrom(env.sha, judge, batch[j..] + after, State()) == result
      {
        FirstOfRest(batch, j, after);
        VerifyFirst(env, trusted, batch[j], batch[j + 1..] + after, State());
        broke, aborted := CheckRecord(env, trusted, batch[j]);
        if aborted || broke.Some? {
          return;
        }
      }
      assert batch[|batch|..] + after == after;
    }
  }

  /** Judging the first record and walking on is walking the whole list. */
  lemma VerifyFirst(env: Env, trusted: TrustedKeys, r: LogRecord, rest: seq<LogRecord>, w: Walk)
    ensures var fault, result := Fault(env, trusted, r, w.chain), VerifyFrom(env.sha, TrustedJudge(env, trusted), [r] + rest, w);
            if fault.None? then result == VerifyFrom(env.sha, TrustedJudge(env, trusted), rest, Advance(env.sha, r, w))
            else result == BrokenReport(r, w, fault.value)
  {
    assert ([r] + rest)[1..] == rest;
  }

  lemma FirstOfRest<T>(s: seq<T>, j: nat, after: seq<T>)
    requires j < |s|
    ensures s[j..] + after == [s[j]] + (s[j + 1..] + after)
  {
  }

  /** `batches` are the decoded record batches of all segments, in order. No report when it aborts. */
  method VerifyPartition(env: Env, trusted: TrustedKeys, batches: seq<seq<LogRecord>>)
    returns (report: Option<VerifyReport>)
    ensures var result := Verify(env, trusted, Concat(batches));
            report == if Aborts(result) then None else Some(result)
  {
    var state := new WalkState();
    ghost var judge := TrustedJudge(env, trusted);
    ghost var result := Verify(env, trusted, Concat(batches));
    assert batches[0..] == batches;
    for i := 0 to |batches|
      invariant fresh(state)
      invariant VerifyFrom(env.sha, judge, ConcatFrom(batches, i), state.State()) == result
    {
      assert batches[i..][1..] == batches[i + 1..];
      var broke, aborted := state.CheckBatch(env, trusted, batches[i], ConcatFrom(batches, i + 1));
      if aborted {
        return None;
      }
      if broke.Some? {
        return broke;
      }
    }
    var unanchored := match state.lastHigh
      case Some(high) => if state.records <= high + 1 then 0 else state.records - (high + 1)
      case None => state.records;
    return Some(VerifyReport(state.records, state.checkpoints, true, None, unanchored));
  }

  function Concat(batches: seq<seq<LogRecord>>): seq<LogRecord>
  {
    if batches == [] then [] else batches[0] + Concat(batches[1..])
  }

  ghost function ConcatFrom(batches: seq<seq<LogRecord>>, i: nat): seq<LogRecord>
    requires i <= |batches|
  {
    Concat(batches[i..])
  }

  // ---- What an ok report means ----

  function LogValues(rs: seq<LogRecord>): seq<bytes>
  {
    if rs == [] then []
    else
      var last := rs[|rs| - 1];
      LogValues(rs[..|rs| - 1]) + (if IsCheckpoint(last) then [] else [ValueOf(last)])
  }

  /** The chain recomputed over a record list from genesis. */
  function ChainOf(sha: Sha256, rs: seq<LogRecord>): Chain { Fold(sha, GENESIS, LogValues(rs)) }

  /** The checkpoint a record holds, if it holds a well-formed one. */
  function CheckpointIn(env: Env, r: LogRecord): Parsed<CheckpointData>
  {
    var json := env.fromJson(ValueOf(r));
    if json.None? then Malformed else FromJsonObject(json.value)
  }

  /** Record `i` is what the chain before it demands. A chained record carries the count of
      chained records before it and their folded head; a checkpoint is trusted, validly signed,
      and attests that head and count. */
  predicate Consistent(env: Env, trusted: TrustedKeys, r: LogRecord, c: Chain)
  {
    if IsCheckpoint(r) then
      && CheckpointIn(env, r).Good?
      && var cp := CheckpointIn(env, r).value;
      && cp.keyId in trusted && SignatureValid(env, cp, trusted[cp.keyId])
      && cp.chainHead == c.head && cp.seqHigh == Decrement(c.nextSeq)
    else
      SeqHeader(r) == Some(c.nextSeq) && PrevHeader(r) == Some(c.head)
  }

  lemma FaultlessIffConsistent(env: Env, trusted: TrustedKeys, r: LogRecord, c: Chain)
    ensures Fault(env, trusted, r, c).None? <==> Consistent(env, trusted, r, c)
  {
  }

  function CheckpointCount(rs: seq<LogRecord>): nat
  {
    if rs == [] then 0 else CheckpointCount(rs[..|rs| - 1]) + (if IsCheckpoint(rs[|rs| - 1]) then 1 else 0)
  }

  /** The chain length at the last checkpoint of `rs`. */
  function LastAnchor(rs: seq<LogRecord>): Option<nat>
  {
    if rs == [] then None
    else if IsCheckpoint(rs[|rs| - 1]) then Some(|LogValues(rs[..|rs| - 1])|)
    else LastAnchor(rs[..|rs| - 1])
  }

  /** The walk over a consistent record list. */
  function WalkOver(sha: Sha256, rs: seq<LogRecord>): Walk
  {
    Walk(ChainOf(sha, rs), |LogValues(rs)|, CheckpointCount(rs),
         if LastAnchor(rs).None? then None else Some(Decrement(LastAnchor(rs).value)))
  }

  lemma LogValuesSnoc(rs: seq<LogRecord>, r: LogRecord)
    ensures LogValues(rs + [r]) == if IsCheckpoint(r) then LogValues(rs) else LogValues(rs) + [ValueOf(r)]
  {
    assert (rs + [r])[..|rs|] == rs;
    assert LogValues(rs) + [] == LogValues(rs);
  }

  lemma ChainOfSnoc(sha: Sha256, rs: seq<LogRecord>, r: LogRecord)
    ensures ChainOf(sha, rs + [r]) ==
            if IsCheckpoint(r) then ChainOf(sha, rs) else Extend(sha, ChainOf(sha, rs), ValueOf(r))
  {
    LogValuesSnoc(rs, r);
    var vs := LogValues(rs);
    assert (vs + [ValueOf(r)])[..|vs|] == vs;
  }

  lemma AnchorsSnoc(rs: seq<LogRecord>, r: LogRecord)
    ensures CheckpointCount(rs + [r]) == CheckpointCount(rs) + (if IsCheckpoint(r) then 1 else 0)
    ensures LastAnchor(rs + [r]) == if IsCheckpoint(r) then Some(|LogValues(rs)|) else LastAnchor(rs)
  {
    assert (rs + [r])[..|rs|] == rs;
  }

  lemma WalkOverSnoc(sha: Sha256, rs: seq<LogRecord>, r: LogRecord)
    ensures WalkOver(sha, rs + [r]) == Advance(sha, r, WalkOver(sha, rs))
  {
    LogValuesSnoc(rs, r);
    ChainOfSnoc(sha, rs, r);
    AnchorsSnoc(rs, r);
    FoldCounts(sha, GENESIS, LogValues(rs));
  }

  predicate AcceptedAt(sha: Sha256, judge: Judge, rs: seq<LogRecord>, i: nat)
    requires i < |rs|
  {
    judge(rs[i], ChainOf(sha, rs[..i])).None?
  }

  /** The index of the first refused record from `i` on, or the length. */
  function FirstBreak(sha: Sha256, judge: Judge, rs: seq<LogRecord>, i: nat): (k: nat)
    requires i <= |rs|
    ensures i <= k <= |rs|
    ensures forall j :: i <= j < k ==> AcceptedAt(sha, judge, rs, j)
    ensures k < |rs| ==> !AcceptedAt(sha, judge, rs, k)
    decreases |rs| - i
  {
    if i == |rs| || !AcceptedAt(sha, judge, rs, i) then i else FirstBreak(sha, judge, rs, i + 1)
  }

  lemma {:induction false} VerifyReaches(sha: Sha256, judge: Judge, rs: seq<LogRecord>, i: nat)
    requires i <= |rs|
    requires forall j :: 0 <= j < i ==> AcceptedAt(sha, judge, rs, j)
    ensures VerifyFrom(sha, judge, rs, START) == VerifyFrom(sha, judge, rs[i..], WalkOver(sha, rs[..i]))
  {
    if i == 0 {
      assert rs[0..] == rs && rs[..0] == [];
    } else {
      VerifyReaches(sha, judge, rs, i - 1);
      assert AcceptedAt(sha, judge, rs, i - 1);
      WalkOverSnoc(sha, rs[..i - 1], rs[i - 1]);
      assert rs[..i - 1] + [rs[i - 1]] == rs[..i];
      assert rs[i - 1..][0] == rs[i - 1] && rs[i - 1..][1..] == rs[i..];
    }
  }

  lemma VerifyAccepts(sha: Sha256, judge: Judge, rs: seq<LogRecord>)
    requires forall j :: 0 <= j < |rs| ==> AcceptedAt(sha, judge, rs, j)
    ensures VerifyFrom(sha, judge, rs, START) == FinalReport(WalkOver(sha, rs))
  {
    VerifyReaches(sha, judge, rs, |rs|);
    assert rs[..|rs|] == rs;
  }

  lemma VerifyStops(sha: Sha256, judge: Judge, rs: seq<LogRecord>, k: nat)
    requires k < |rs| && !AcceptedAt(sha, judge, rs, k)
    requires forall j :: 0 <= j < k ==> AcceptedAt(sha, judge, rs, j)
    ensures VerifyFrom(sha, judge, rs, START) ==
            BrokenReport(rs[k], WalkOver(sha, rs[..k]), judge(rs[k], ChainOf(sha, rs[..k])).value)
  {
    VerifyReaches(sha, judge, rs, k);
  }

  lemma BrokenCounts(sha: Sha256, rs: seq<LogRecord>, k: nat, reason: BreakReason)
    requires k < |rs|
    ensures var report := BrokenReport(rs[k], WalkOver(sha, rs[..k]), reason);
            && !report.ok && report.unanchored == 0
            && report.records == |LogValues(rs[..k])| && report.checkpoints == CheckpointCount(rs[..k + 1])
            && report.firstBreak ==
               Some(VerifyBreak(rs[k].offset, if IsCheckpoint(rs[k]) then None else SeqHeader(rs[k]), reason))
  {
    AnchorsSnoc(rs[..k], rs[k]);
    assert rs[..k] + [rs[k]] == rs[..k + 1];
  }

  /** The walk is ok exactly when it accepts every record, and then its counts are exact;
      otherwise it stops at the first refused record, with that record's offset and sequence number,
      the number of chained records before it and of checkpoints up to and including it. */
  lemma VerifyMeaning(sha: Sha256, judge: Judge, rs: seq<LogRecord>)
    ensures var report := VerifyFrom(sha, judge, rs, START);
            var k := FirstBreak(sha, judge, rs, 0);
            && (report.ok <==> k == |rs|)
            && (report.ok ==> report == FinalReport(WalkOver(sha, rs)))
            && (!report.ok ==>
                  && report.firstBreak.Some? && report.firstBreak.value.offset == rs[k].offset
                  && Some(report.firstBreak.value.reason) == judge(rs[k], ChainOf(sha, rs[..k]))
                  && report.firstBreak.value.seqNo == (if IsCheckpoint(rs[k]) then None else SeqHeader(rs[k]))
                  && report.records == |LogValues(rs[..k])| && report.checkpoints == CheckpointCount(rs[..k + 1])
                  && report.unanchored == 0)
  {
    var k := FirstBreak(sha, judge, rs, 0);
    if k < |rs| {
      VerifyStops(sha, judge, rs, k);
      BrokenCounts(sha, rs, k, judge(rs[k], ChainOf(sha, rs[..k])).value);
    } else {
      VerifyAccepts(sha, judge, rs);
    }
  }

  /** The verifier is ok exactly when every record is consistent with the chain before it. */
  lemma VerifyOkIff(env: Env, trusted: TrustedKeys, rs: seq<LogRecord>)
    ensures Verify(env, trusted, rs).ok <==>
            forall i :: 0 <= i < |rs| ==> Consistent(env, trusted, rs[i], ChainOf(env.sha, rs[..i]))
    ensures Verify(env, trusted, rs).ok ==> Verify(env, trusted, rs) == FinalReport(WalkOver(env.sha, rs))
  {
    var judge := TrustedJudge(env, trusted);
    VerifyMeaning(env.sha, judge, rs);
    forall i | 0 <= i < |rs|
      ensures AcceptedAt(env.sha, judge, rs, i) <==> Consistent(env, trusted, rs[i], ChainOf(env.sha, rs[..i]))
    {
      FaultlessIffConsistent(env, trusted, rs[i], ChainOf(env.sha, rs[..i]));
    }
  }

  /** The test that record `r` fails at chain position `c`, every earlier one having passed. */
  predicate Explains(env: Env, trusted: TrustedKeys, r: LogRecord, c: Chain, reason: BreakReason)
  {
    var parsed := CheckpointIn(env, r);
    var trustedKey := parsed.Good? && parsed.value.keyId in trusted;
    var signed := trustedKey && SignatureValid(env, parsed.value, trusted[parsed.value.keyId]);
    match reason
    case NotJson => IsCheckpoint(r) && env.fromJson(ValueOf(r)).None?
    case MalformedCheckpoint => IsCheckpoint(r) && env.fromJson(ValueOf(r)).Some? && parsed.Malformed?
    case ParserPanics => IsCheckpoint(r) && parsed.Panics?
    case NoTrustedKey => IsCheckpoint(r) && parsed.Good? && !trustedKey
    case SignatureInvalid => IsCheckpoint(r) && trustedKey && !signed
    case HeadMismatch => IsCheckpoint(r) && signed && parsed.value.chainHead != c.head
    case SeqHighMismatch =>
      IsCheckpoint(r) && signed && parsed.value.chainHead == c.head && parsed.value.seqHigh != Decrement(c.nextSeq)
    case BadChainHeaders => !IsCheckpoint(r) && (SeqHeader(r).None? || PrevHeader(r).None?)
    case SeqGap => !IsCheckpoint(r) && PrevHeader(r).Some? && SeqHeader(r).Some? && SeqHeader(r) != Some(c.nextSeq)
    case PrevHashMismatch =>
      !IsCheckpoint(r) && PrevHeader(r).Some? && SeqHeader(r) == Some(c.nextSeq) && PrevHeader(r) != Some(c.head)
  }

  lemma BreakIsExplained(env: Env, trusted: TrustedKeys, r: LogRecord, c: Chain, reason: BreakReason)
    ensures Fault(env, trusted, r, c) == Some(reason) <==> Explains(env, trusted, r, c, reason)
  {
  }

  /** A broken report points at the first inconsistent record and names the test that record fails. */
  lemma VerifyBreakAt(env: Env, trusted: TrustedKeys, rs: seq<LogRecord>) returns (k: nat)
    requires !Verify(env, trusted, rs).ok
    ensures k < |rs| && !Consistent(env, trusted, rs[k], ChainOf(env.sha, rs[..k]))
    ensures forall j :: 0 <= j < k ==> Consistent(env, trusted, rs[j], ChainOf(env.sha, rs[..j]))
    ensures Verify(env, trusted, rs).firstBreak.Some?
    ensures Verify(env, trusted, rs).firstBreak.value.offset == rs[k].offset
    ensures Some(Verify(env, trusted, rs).firstBreak.value.reason) == Fault(env, trusted, rs[k], ChainOf(env.sha, rs[..k]))
    ensures Explains(env, trusted, rs[k], ChainOf(env.sha, rs[..k]), Verify(env, trusted, rs).firstBreak.value.reason)
    ensures Verify(env, trusted, rs).firstBreak.value.seqNo == if IsCheckpoint(rs[k]) then None else SeqHeader(rs[k])
    ensures Verify(env, trusted, rs).records == |LogValues(rs[..k])|
    ensures Verify(env, trusted, rs).checkpoints == CheckpointCount(rs[..k + 1])
  {
    var judge := TrustedJudge(env, trusted);
    VerifyMeaning(env.sha, judge, rs);
    k := FirstBreak(env.sha, judge, rs, 0);
    BreakIsExplained(env, trusted, rs[k], ChainOf(env.sha, rs[..k]), Verify(env, trusted, rs).firstBreak.value.reason);
    FaultlessIffConsistent(env, trusted, rs[k], ChainOf(env.sha, rs[..k]));
    forall j | 0 <= j < k
      ensures Consistent(env, trusted, rs[j], ChainOf(env.sha, rs[..j]))
    {
      assert AcceptedAt(env.sha, judge, rs, j);
      FaultlessIffConsistent(env, trusted, rs[j], ChainOf(env.sha, rs[..j]));
    }
  }

  /** Record `k` is the first that is not consistent, and its text makes the parser panic. */
  predicate AbortsAt(env: Env, trusted: TrustedKeys, rs: seq<LogRecord>, k: nat)
  {
    && k < |rs| && IsCheckpoint(rs[k]) && CheckpointIn(env, rs[k]).Panics?
    && forall j :: 0 <= j < k ==> Consistent(env, trusted, rs[j], ChainOf(env.sha, rs[..j]))
  }

  lemma PanicIsFault(env: Env, trusted: TrustedKeys, r: LogRecord, c: Chain)
    ensures Fault(env, trusted, r, c) == Some(ParserPanics) <==> IsCheckpoint(r) && CheckpointIn(env, r).Panics?
  {
  }

  lemma AbortsThere(env: Env, trusted: TrustedKeys, rs: seq<LogRecord>, k: nat)
    requires AbortsAt(env, trusted, rs, k)
    ensures Aborts(Verify(env, trusted, rs))
  {
    VerifyOkIff(env, trusted, rs);
    assert !Consistent(env, trusted, rs[k], ChainOf(env.sha, rs[..k]));
    var first := VerifyBreakAt(env, trusted, rs);
    assert first == k;
    PanicIsFault(env, trusted, rs[k], ChainOf(env.sha, rs[..k]));
  }

  /** The verifier aborts exactly when the first record that is not consistent is a checkpoint whose
      text makes the parser panic. */
  lemma AbortsIff(env: Env, trusted: TrustedKeys, rs: seq<LogRecord>)
    ensures Aborts(Verify(env, trusted, rs)) <==> exists k: nat :: AbortsAt(env, trusted, rs, k)
  {
    if k: nat :| AbortsAt(env, trusted, rs, k) {
      AbortsThere(env, trusted, rs, k);
    }
    if Aborts(Verify(env, trusted, rs)) {
      VerifyOkIff(env, trusted, rs);
      var k := VerifyBreakAt(env, trusted, rs);
      PanicIsFault(env, trusted, rs[k], ChainOf(env.sha, rs[..k]));
      assert AbortsAt(env, trusted, rs, k);
    }
  }

  // ---- The unsigned tail ----

  /** Chained records after the last checkpoint, or all of them when there is none. */
  function UnsignedTail(rs: seq<LogRecord>): nat
  {
    if rs == [] || IsCheckpoint(rs[|rs| - 1]) then 0 else UnsignedTail(rs[..|rs| - 1]) + 1
  }

  lemma {:induction false} UnsignedTailCounts(rs: seq<LogRecord>)
    ensures UnsignedTail(rs) + (if LastAnchor(rs).None? then 0 else LastAnchor(rs).value) == |LogValues(rs)|
  {
    if rs != [] {
      UnsignedTailCounts(rs[..|rs| - 1]);
    }
  }

  /** The report's unanchored count is the unsigned tail, except when the last checkpoint was
      written before the first chained record: `seq_high` cannot tell zero records from one, and
      the count then misses one record. */
  lemma UnanchoredIsTail(env: Env, trusted: TrustedKeys, rs: seq<LogRecord>)
    requires Verify(env, trusted, rs).ok
    ensures Verify(env, trusted, rs).unanchored == UnsignedTail(rs) <==>
            !(LastAnchor(rs) == Some(0) && |LogValues(rs)| > 0)
  {
    VerifyOkIff(env, trusted, rs);
    UnsignedTailCounts(rs);
  }

  // ---- Tamper evidence ----

  /** A signed checkpoint pins the records before it. If the same checkpoint value is accepted in
      two logs, the chained values before it are the same in both, unless SHA-256 is broken: either
      two different hashed inputs collide, or an input hashes to the all-zero genesis head. */
  lemma CheckpointBindsHistory(env: Env, trusted: TrustedKeys,
                               a: seq<LogRecord>, i: nat, b: seq<LogRecord>, j: nat)
    returns (x: bytes, y: bytes)
    requires Verify(env, trusted, a).ok && i < |a| && IsCheckpoint(a[i]) && |LogValues(a[..i])| <= U64_LIMIT
    requires Verify(env, trusted, b).ok && j < |b| && IsCheckpoint(b[j]) && |LogValues(b[..j])| <= U64_LIMIT
    requires ValueOf(a[i]) == ValueOf(b[j])
    ensures || LogValues(a[..i]) == LogValues(b[..j])
            || (x != y && env.sha(x) == env.sha(y))
            || env.sha(x) == GENESIS_HEAD
  {
    VerifyOkIff(env, trusted, a);
    VerifyOkIff(env, trusted, b);
    assert Consistent(env, trusted, a[i], ChainOf(env.sha, a[..i]));
    assert Consistent(env, trusted, b[j], ChainOf(env.sha, b[..j]));
    var u, v := LogValues(a[..i]), LogValues(b[..j]);
    x, y := [], [];
    if u == [] || v == [] {
      if v != [] {
        HeadIsLastHash(env.sha, v);
        x := LastPreimage(env.sha, v);
      } else if u != [] {
        HeadIsLastHash(env.sha, u);
        x := LastPreimage(env.sha, u);
      }
    } else if u != v {
      var m, n;
      m, n, x, y := SameHeadGivesCollision(env.sha, u, v);
    }
  }
}
