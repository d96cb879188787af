/** Reading a partition log forward under a byte budget (crates/log/src/log.rs and
    crates/log/src/segment.rs). The log starts at offset 0. A batch takes part by its offsets and its
    encoded size. */
module LogRead {
  import opened Bytes

  /** The records `base` to `base + count - 1`, in `size` bytes. */
  datatype Batch = Batch(base: nat, count: nat, size: nat) {
    function End(): nat { base + count }
  }

  /** `indexed` are the numbers of the batches that have an entry in the sparse offset index. */
  datatype Segment = Segment(base: nat, batches: seq<Batch>, indexed: seq<nat>) {
    function End(): nat { if batches == [] then base else batches[|batches| - 1].End() }
  }

  datatype Log = Log(closed: seq<Segment>, active: Option<Segment>) {
    function Segments(): seq<Segment> { if active.None? then closed else closed + [active.value] }
  }

  /** Batch `i` holds records, has a header, and follows the batch before it. */
  predicate InSequence(seg: Segment, i: nat)
    requires i < |seg.batches|
  {
    && seg.batches[i].count > 0 && seg.batches[i].size > 1
    && seg.batches[i].base == if i == 0 then seg.base else seg.batches[i - 1].End()
  }

  predicate ValidSegment(seg: Segment)
  {
    && (forall i :: 0 <= i < |seg.indexed| ==> seg.indexed[i] < |seg.batches|)
    && (forall i :: 0 <= i < |seg.batches| ==> InSequence(seg, i))
  }

  function EndOf(base: nat, segments: seq<Segment>): nat
    decreases segments
  {
    if segments == [] then base else EndOf(segments[0].End(), segments[1..])
  }

  /** The segments follow one another from `base`. */
  predicate Adjoining(base: nat, segments: seq<Segment>)
    decreases segments
  {
    segments != [] ==>
      segments[0].base == base && ValidSegment(segments[0]) && Adjoining(segments[0].End(), segments[1..])
  }

  // ---- One segment ----

  /** The last indexed batch that starts at or before `offset`, or the first batch. */
  function Lookup(batches: seq<Batch>, indexed: seq<nat>, offset: nat): (j: nat)
    requires forall i :: 0 <= i < |indexed| ==> indexed[i] < |batches|
    ensures j == 0 || (j < |batches| && batches[j].base <= offset)
  {
    if indexed == [] then 0
    else if batches[indexed[|indexed| - 1]].base <= offset then indexed[|indexed| - 1]
    else Lookup(batches, indexed[..|indexed| - 1], offset)
  }

  function StartOf(seg: Segment, offset: nat): (j: nat)
    requires ValidSegment(seg)
    ensures j <= |seg.batches|
  {
    Lookup(seg.batches, seg.indexed, if offset < seg.base then seg.base else offset)
  }

  function SizeFrom(batches: seq<Batch>, j: nat): nat
    requires j <= |batches|
    decreases |batches| - j
  {
    if j == |batches| then 0 else batches[j].size + SizeFrom(batches, j + 1)
  }

  /** The complete batches within `budget` bytes from batch `j` on, without those that end by `offset`. */
  function Scan(batches: seq<Batch>, j: nat, budget: nat, offset: nat): seq<Batch>
    requires j <= |batches|
    decreases |batches| - j
  {
    if j == |batches| || batches[j].size > budget then []
    else (if batches[j].End() > offset then [batches[j]] else []) + Scan(batches, j + 1, budget - batches[j].size, offset)
  }

  /** What the read of one segment returns. It starts at the index position, and batches that end by
      `offset` spend budget before they are left out. */
  function ReadSegment(seg: Segment, offset: nat, budget: nat): seq<Batch>
    requires ValidSegment(seg)
  {
    if seg.End() <= offset then [] else Scan(seg.batches, StartOf(seg, offset), budget, offset)
  }

  method ReadBatches(seg: Segment, offset: nat, budget: nat) returns (out: seq<Batch>)
    requires ValidSegment(seg)
    ensures out == ReadSegment(seg, offset, budget)
  {
    out := [];
    if offset >= seg.End() {
      return;
    }
    var j: nat, left: nat, total: nat := StartOf(seg, offset), budget, 0;
    while j < |seg.batches| && seg.batches[j].size <= left
      invariant j <= |seg.batches| && total + left <= budget
      invariant ReadSegment(seg, offset, budget) == out + Scan(seg.batches, j, left, offset)
    {
      var batch := seg.batches[j];
      left := left - batch.size;
      j := j + 1;
      if batch.End() > offset {
        out := out + [batch];
        total := total + batch.size;
        if total >= budget {
          break;
        }
      }
    }
    ScanNothing(seg, j, left, offset);
  }

  lemma {:induction false} ScanNothing(seg: Segment, j: nat, budget: nat, offset: nat)
    requires ValidSegment(seg) && j <= |seg.batches| && (j < |seg.batches| ==> budget <= 1 || seg.batches[j].size > budget)
    ensures Scan(seg.batches, j, budget, offset) == []
  {
    if j < |seg.batches| {
      assert InSequence(seg, j);
    }
  }

  // ---- The whole log ----

  function TotalSize(batches: seq<Batch>): nat { SizeFrom(batches, 0) }

  predicate AllValid(segments: seq<Segment>) { forall i :: 0 <= i < |segments| ==> ValidSegment(segments[i]) }

  /** What the read returns: each segment is read from the offset after what was read before it, with
      what is left of the budget. A batch that does not fit ends the read of its own segment only. */
  function ReadFrom(segments: seq<Segment>, offset: nat, budget: nat): seq<Batch>
    requires AllValid(segments)
  {
    if segments == [] then []
    else
      var bs := ReadSegment(segments[0], offset, budget);
      if bs == [] then ReadFrom(segments[1..], offset, budget)
      else bs + ReadFrom(segments[1..], bs[|bs| - 1].End(), Left(budget, bs))
  }

  function Left(budget: nat, bs: seq<Batch>): nat { if TotalSize(bs) > budget then 0 else budget - TotalSize(bs) }

  lemma {:induction false} ReadNothing(segments: seq<Segment>, offset: nat, budget: nat)
    requires AllValid(segments)
    requires budget <= 1 || forall i :: 0 <= i < |segments| ==> segments[i].End() <= offset
    ensures ReadFrom(segments, offset, budget) == []
  {
    if segments != [] {
      if segments[0].End() > offset {
        ScanNothing(segments[0], StartOf(segments[0], offset), budget, offset);
      }
      ReadNothing(segments[1..], offset, budget);
    }
  }

  lemma {:induction false} AdjoiningValid(base: nat, segments: seq<Segment>)
    requires Adjoining(base, segments)
    ensures AllValid(segments) && base <= EndOf(base, segments)
    ensures forall i :: 0 <= i < |segments| ==> segments[i].End() <= EndOf(base, segments)
    decreases segments
  {
    if segments != [] {
      var seg := segments[0];
      AdjoiningValid(seg.End(), segments[1..]);
      if seg.batches != [] {
        EndsGrow(seg, 0, |seg.batches| - 1);
      }
      forall i | 0 <= i < |segments| ensures ValidSegment(segments[i]) && segments[i].End() <= EndOf(base, segments) {
        if i > 0 {
          assert segments[i] == segments[1..][i - 1];
        }
      }
    }
  }

  lemma {:induction false} EndsGrow(seg: Segment, i: nat, j: nat)
    requires ValidSegment(seg) && i <= j < |seg.batches|
    ensures seg.base <= seg.batches[i].base < seg.batches[i].End() <= seg.batches[j].End() <= seg.End()
    ensures i < j ==> seg.batches[i].End() <= seg.batches[j].base && seg.batches[i].End() < seg.batches[j].End()
  {
    BasesGrow(seg, i, j);
    BasesGrow(seg, j, |seg.batches| - 1);
  }

  lemma {:induction false} BasesGrow(seg: Segment, i: nat, j: nat)
    requires ValidSegment(seg) && i <= j < |seg.batches|
    ensures seg.base <= seg.batches[i].base < seg.batches[i].End() <= seg.batches[j].End()
    ensures i < j ==> seg.batches[i].End() <= seg.batches[j].base < seg.batches[j].End()
    decreases j
  {
    assert InSequence(seg, i) && InSequence(seg, j);
    if i < j {
      BasesGrow(seg, i, j - 1);
    } else if i > 0 {
      BasesGrow(seg, i - 1, i - 1);
    }
  }

  lemma {:induction false} FirstSegment(segments: seq<Segment>, i: nat)
    requires i < |segments| && AllValid(segments)
    ensures segments[i..][0] == segments[i] && segments[i..][1..] == segments[i + 1..]
    ensures AllValid(segments[i..]) && AllValid(segments[i + 1..])
  {
  }

  lemma {:induction false} ReadMore(out: seq<Batch>, bs: seq<Batch>, segments: seq<Segment>, i: nat, offset: nat,
                                    budget: nat)
    requires i < |segments| && AllValid(segments) && bs == ReadSegment(segments[i], offset, budget)
    ensures AllValid(segments[i..]) && AllValid(segments[i + 1..])
    ensures out + ReadFrom(segments[i..], offset, budget) ==
            if bs == [] then out + ReadFrom(segments[i + 1..], offset, budget)
            else out + bs + ReadFrom(segments[i + 1..], bs[|bs| - 1].End(), Left(budget, bs))
  {
    FirstSegment(segments, i);
  }

  /** The loop over the closed segments, the first of `segments`. It ends early when the budget is
      spent. */
  method ReadClosed(segments: seq<Segment>, closed: nat, offset: nat, budget: nat)
    returns (out: seq<Batch>, current: nat, remaining: nat)
    requires AllValid(segments) && closed <= |segments|
    ensures var rest := if remaining == 0 then [] else ReadFrom(segments[closed..], current, remaining);
            ReadFrom(segments, offset, budget) == out + rest
  {
    out, current, remaining := [], offset, budget;
    assert segments[0..] == segments;
    for i := 0 to closed
      invariant ReadFrom(segments, offset, budget) == out + ReadFrom(segments[i..], current, remaining)
    {
      var bs: seq<Batch> := [];
      if segments[i].End() > current {
        bs := ReadBatches(segments[i], current, remaining);
      }
      ReadMore(out, bs, segments, i, current, remaining);
      if bs != [] {
        out, current, remaining := out + bs, bs[|bs| - 1].End(), Left(remaining, bs);
        if remaining == 0 {
          ReadNothing(segments[i + 1..], current, remaining);
          return;
        }
      }
    }
    if remaining == 0 {
      ReadNothing(segments[closed..], current, remaining);
    }
  }

  /** `Log::read`, with its early exits and its own treatment of the active segment. */
  method Read(log: Log, offset: nat, budget: nat) returns (out: seq<Batch>)
    requires Adjoining(0, log.Segments())
    ensures AllValid(log.Segments()) && out == ReadFrom(log.Segments(), offset, budget)
  {
    var segments := log.Segments();
    AdjoiningValid(0, segments);
    if offset >= EndOf(0, segments) {
      ReadNothing(segments, offset, budget);
      return [];
    }
    var current, remaining;
    out, current, remaining := ReadClosed(segments, |log.closed|, offset, budget);
    if (remaining > 0 || out == []) && log.active.Some? && current < log.active.value.End() {
      ActiveLast(segments, log, current, remaining);
      var bs := ReadBatches(log.active.value, current, if remaining == 0 then 1 else remaining);
      out := out + bs;
    } else if log.active.Some? {
      ActiveLast(segments, log, current, remaining);
    }
  }

  lemma {:induction false} ActiveLast(segments: seq<Segment>, log: Log, offset: nat, budget: nat)
    requires segments == log.Segments() && log.active.Some? && AllValid(segments)
    ensures ValidSegment(log.active.value)
    ensures ReadFrom(segments[|log.closed|..], offset, budget) == ReadSegment(log.active.value, offset, budget)
    ensures budget == 0 ==> ReadSegment(log.active.value, offset, 1) == []
  {
    assert segments[|log.closed|] == log.active.value;
    FirstSegment(segments, |log.closed|);
    ReadNothing([log.active.value], offset, 1);
  }

  // ---- What a read returns ----

  predicate Covers(bs: seq<Batch>, o: nat) { exists i :: 0 <= i < |bs| && bs[i].base <= o < bs[i].End() }

  predicate CoversAll(bs: seq<Batch>, lo: nat, hi: nat) { forall o: nat :: lo <= o < hi ==> Covers(bs, o) }

  /** Non-empty batches in offset order between `lo` and `hi`. */
  predicate Ordered(lo: nat, hi: nat, bs: seq<Batch>)
  {
    && (forall i :: 0 <= i < |bs| ==> lo <= bs[i].base < bs[i].End() <= hi)
    && (forall i, j :: 0 <= i < j < |bs| ==> bs[i].End() <= bs[j].base)
  }

  lemma {:induction false} OrderedConcat(lo: nat, mid: nat, hi: nat, a: seq<Batch>, b: seq<Batch>)
    requires lo <= mid <= hi && Ordered(lo, mid, a) && Ordered(mid, hi, b)
    ensures Ordered(lo, hi, a + b)
  {
  }

  lemma {:induction false} CoversConcat(a: seq<Batch>, b: seq<Batch>, o: nat)
    ensures Covers(a + b, o) <==> Covers(a, o) || Covers(b, o)
  {
    if i :| 0 <= i < |a| && a[i].base <= o < a[i].End() {
      assert (a + b)[i] == a[i];
    }
    if i :| 0 <= i < |b| && b[i].base <= o < b[i].End() {
      assert (a + b)[|a| + i] == b[i];
    }
  }

  function BaseAt(seg: Segment, j: nat): nat { if j < |seg.batches| then seg.batches[j].base else seg.End() }

  lemma {:induction false} ScanOrdered(seg: Segment, j: nat, budget: nat, offset: nat)
    requires ValidSegment(seg) && j <= |seg.batches|
    ensures Ordered(BaseAt(seg, j), seg.End(), Scan(seg.batches, j, budget, offset))
    decreases |seg.batches| - j
  {
    if j < |seg.batches| && seg.batches[j].size <= budget {
      var b := seg.batches[j];
      ScanOrdered(seg, j + 1, budget - b.size, offset);
      EndsGrow(seg, j, |seg.batches| - 1);
      assert BaseAt(seg, j + 1) == b.End() by {
        if j + 1 < |seg.batches| {
          assert InSequence(seg, j + 1);
        }
      }
      OrderedConcat(b.base, b.End(), seg.End(), if b.End() > offset then [b] else [],
                    Scan(seg.batches, j + 1, budget - b.size, offset));
    }
  }

  lemma {:induction false} ReadSegmentOrdered(seg: Segment, offset: nat, budget: nat)
    requires ValidSegment(seg)
    ensures Ordered(seg.base, seg.End(), ReadSegment(seg, offset, budget))
  {
    var j := StartOf(seg, offset);
    ScanOrdered(seg, j, budget, offset);
    if j < |seg.batches| {
      EndsGrow(seg, j, j);
    }
  }

  /** What a read returns is in offset order and within the log: it may leave records out, but never
      swaps, repeats or invents any. */
  lemma {:induction false} ReadOrdered(base: nat, segments: seq<Segment>, offset: nat, budget: nat)
    requires Adjoining(base, segments)
    ensures AllValid(segments) && Ordered(base, EndOf(base, segments), ReadFrom(segments, offset, budget))
    decreases segments
  {
    AdjoiningValid(base, segments);
    if segments != [] {
      var seg, rest := segments[0], segments[1..];
      AdjoiningValid(seg.End(), rest);
      var bs := ReadSegment(seg, offset, budget);
      ReadSegmentOrdered(seg, offset, budget);
      assert base <= seg.End() by {
        if seg.batches != [] {
          EndsGrow(seg, 0, 0);
        }
      }
      var offset' := if bs == [] then offset else bs[|bs| - 1].End();
      var budget' := if bs == [] then budget else Left(budget, bs);
      ReadOrdered(seg.End(), rest, offset', budget');
      OrderedConcat(base, seg.End(), EndOf(base, segments), bs, ReadFrom(rest, offset', budget'));
      assert [] + ReadFrom(rest, offset', budget') == ReadFrom(rest, offset', budget');
    }
  }

  // ---- When a read misses nothing ----

  /** The first batch from `j` on that reaches beyond `offset`. */
  function FirstBeyond(batches: seq<Batch>, j: nat, offset: nat): (f: nat)
    requires j <= |batches|
    ensures j <= f <= |batches|
    ensures j < f ==> batches[f - 1].End() <= offset
    ensures f < |batches| ==> batches[f].End() > offset
    decreases |batches| - j
  {
    if j == |batches| || batches[j].End() > offset then j else FirstBeyond(batches, j + 1, offset)
  }

  /** The bytes of the batches from `offset` on. */
  function WindowSize(seg: Segment, offset: nat): nat
    requires ValidSegment(seg)
  {
    SizeFrom(seg.batches, FirstBeyond(seg.batches, StartOf(seg, offset), offset))
  }

  function SizeOf(segments: seq<Segment>): nat
  {
    if segments == [] then 0 else TotalSize(segments[0].batches) + SizeOf(segments[1..])
  }

  /** In the segment of `offset`, everything from the index position on fits the budget; and so does
      everything from `offset` to the end of the log. */
  predicate Fits(segments: seq<Segment>, offset: nat, budget: nat)
    requires AllValid(segments)
  {
    segments == [] ||
    if segments[0].End() <= offset then Fits(segments[1..], offset, budget)
    else
      && SizeFrom(segments[0].batches, StartOf(segments[0], offset)) <= budget
      && WindowSize(segments[0], offset) + SizeOf(segments[1..]) <= budget
  }

  lemma {:induction false} ScanAll(seg: Segment, j: nat, budget: nat, offset: nat)
    requires ValidSegment(seg) && j <= |seg.batches| && SizeFrom(seg.batches, j) <= budget
    ensures Scan(seg.batches, j, budget, offset) == seg.batches[FirstBeyond(seg.batches, j, offset)..]
    decreases |seg.batches| - j
  {
    if j < |seg.batches| {
      ScanAll(seg, j + 1, budget - seg.batches[j].size, offset);
      if j + 1 < |seg.batches| {
        EndsGrow(seg, j, j + 1);
      }
      assert seg.batches[j..] == [seg.batches[j]] + seg.batches[j + 1..];
    }
  }

  lemma {:induction false} ScanShort(seg: Segment, j: nat, budget: nat, offset: nat, i: nat)
    requires ValidSegment(seg) && j <= |seg.batches| && SizeFrom(seg.batches, j) > budget
    requires i < |Scan(seg.batches, j, budget, offset)|
    ensures Scan(seg.batches, j, budget, offset)[i].End() < seg.End()
    decreases |seg.batches| - j
  {
    var b := seg.batches[j];
    EndsGrow(seg, j, |seg.batches| - 1);
    if b.End() <= offset {
      ScanShort(seg, j + 1, budget - b.size, offset, i);
    } else if i > 0 {
      ScanShort(seg, j + 1, budget - b.size, offset, i - 1);
    }
  }

  lemma {:induction false} SizeOfSlice(batches: seq<Batch>, f: nat, j: nat)
    requires f + j <= |batches|
    ensures SizeFrom(batches[f..], j) == SizeFrom(batches, f + j)
    decreases |batches| - j
  {
    if f + j < |batches| {
      SizeOfSlice(batches, f, j + 1);
    }
  }

  lemma {:induction false} BatchAt(seg: Segment, f: nat, o: nat) returns (i: nat)
    requires ValidSegment(seg) && BaseAt(seg, f) <= o < seg.End()
    ensures f <= i < |seg.batches| && seg.batches[i].base <= o < seg.batches[i].End()
    decreases |seg.batches| - f
  {
    i := f;
    if o >= seg.batches[f].End() {
      if f + 1 < |seg.batches| {
        assert InSequence(seg, f + 1);
      }
      i := BatchAt(seg, f + 1, o);
    }
  }

  lemma {:induction false} SliceCovers(seg: Segment, f: nat)
    requires ValidSegment(seg) && f <= |seg.batches|
    ensures CoversAll(seg.batches[f..], BaseAt(seg, f), seg.End())
  {
    forall o: nat | BaseAt(seg, f) <= o < seg.End() ensures Covers(seg.batches[f..], o) {
      var i := BatchAt(seg, f, o);
      assert seg.batches[f..][i - f] == seg.batches[i];
    }
  }

  function Later(offset: nat, base: nat): nat { if offset < base then base else offset }

  lemma {:induction false} WindowStart(seg: Segment, offset: nat)
    requires ValidSegment(seg) && seg.batches != [] && offset < seg.End()
    ensures var f := FirstBeyond(seg.batches, StartOf(seg, offset), offset);
            f < |seg.batches| && seg.batches[f].base <= Later(offset, seg.base)
  {
    var start := StartOf(seg, offset);
    var f := FirstBeyond(seg.batches, start, offset);
    assert InSequence(seg, 0);
    if start < f < |seg.batches| {
      assert InSequence(seg, f);
    }
  }

  lemma {:induction false} SegmentReadAll(seg: Segment, offset: nat, budget: nat)
    requires ValidSegment(seg) && seg.batches != [] && offset < seg.End()
    requires SizeFrom(seg.batches, StartOf(seg, offset)) <= budget
    ensures var bs := ReadSegment(seg, offset, budget);
            && bs == seg.batches[FirstBeyond(seg.batches, StartOf(seg, offset), offset)..]
            && bs != [] && bs[|bs| - 1].End() == seg.End() && TotalSize(bs) == WindowSize(seg, offset)
  {
    WindowStart(seg, offset);
    ScanAll(seg, StartOf(seg, offset), budget, offset);
    SizeOfSlice(seg.batches, FirstBeyond(seg.batches, StartOf(seg, offset), offset), 0);
  }

  /** The read of the segment that holds `offset` misses nothing exactly when everything from the index
      position on fits; otherwise it misses the end of the segment. */
  lemma {:induction false} SegmentReadIff(seg: Segment, offset: nat, budget: nat)
    requires ValidSegment(seg) && seg.batches != [] && offset < seg.End()
    ensures var bs := ReadSegment(seg, offset, budget);
            CoversAll(bs, Later(offset, seg.base), seg.End()) <==> SizeFrom(seg.batches, StartOf(seg, offset)) <= budget
  {
    var start, bs := StartOf(seg, offset), ReadSegment(seg, offset, budget);
    var f := FirstBeyond(seg.batches, start, offset);
    WindowStart(seg, offset);
    if SizeFrom(seg.batches, start) <= budget {
      SegmentReadAll(seg, offset, budget);
      SliceCovers(seg, f);
    } else {
      forall i | 0 <= i < |bs| ensures bs[i].End() <= seg.End() - 1 {
        ScanShort(seg, start, budget, offset, i);
      }
      EndsGrow(seg, 0, |seg.batches| - 1);
      assert !Covers(bs, seg.End() - 1);
    }
  }

  lemma {:induction false} CoverSplits(bs: seq<Batch>, more: seq<Batch>, lo: nat, mid: nat, hi: nat)
    requires lo <= mid <= hi && Ordered(0, mid, bs) && Ordered(mid, hi, more)
    ensures CoversAll(bs + more, lo, hi) <==> CoversAll(bs, lo, mid) && CoversAll(more, mid, hi)
  {
    forall o: nat | lo <= o < hi
      ensures Covers(bs + more, o) <==> if o < mid then Covers(bs, o) else Covers(more, o)
    {
      CoversConcat(bs, more, o);
    }
    if CoversAll(bs + more, lo, hi) {
      forall o: nat | lo <= o < mid ensures Covers(bs, o) {
        assert Covers(bs + more, o);
      }
      forall o: nat | mid <= o < hi ensures Covers(more, o) {
        assert Covers(bs + more, o);
      }
    }
  }

  /** What the segments after `seg` are asked for once `seg` was read. */
  function More(seg: Segment, rest: seq<Segment>, offset: nat, budget: nat): seq<Batch>
    requires ValidSegment(seg) && AllValid(rest)
  {
    var bs := ReadSegment(seg, offset, budget);
    if bs == [] then ReadFrom(rest, offset, budget) else ReadFrom(rest, bs[|bs| - 1].End(), Left(budget, bs))
  }

  lemma {:induction false} ReadHead(seg: Segment, rest: seq<Segment>, offset: nat, budget: nat)
    requires ValidSegment(seg) && AllValid(rest)
    ensures AllValid([seg] + rest)
    ensures ReadFrom([seg] + rest, offset, budget) == ReadSegment(seg, offset, budget) + More(seg, rest, offset, budget)
  {
    assert ([seg] + rest)[1..] == rest;
  }

  lemma {:induction false} ReadSplits(seg: Segment, rest: seq<Segment>, offset: nat, budget: nat, lo: nat)
    requires ValidSegment(seg) && Adjoining(seg.End(), rest) && lo <= seg.End()
    ensures AllValid([seg] + rest) && AllValid(rest)
    ensures CoversAll(ReadFrom([seg] + rest, offset, budget), lo, EndOf(seg.End(), rest)) <==>
            && CoversAll(ReadSegment(seg, offset, budget), lo, seg.End())
            && CoversAll(More(seg, rest, offset, budget), seg.End(), EndOf(seg.End(), rest))
  {
    AdjoiningValid(seg.End(), rest);
    ReadHead(seg, rest, offset, budget);
    var bs := ReadSegment(seg, offset, budget);
    ReadSegmentOrdered(seg, offset, budget);
    if bs == [] {
      ReadOrdered(seg.End(), rest, offset, budget);
    } else {
      ReadOrdered(seg.End(), rest, bs[|bs| - 1].End(), Left(budget, bs));
    }
    CoverSplits(bs, More(seg, rest, offset, budget), lo, seg.End(), EndOf(seg.End(), rest));
  }

  lemma {:induction false} StartsAtBase(seg: Segment, offset: nat)
    requires ValidSegment(seg) && offset <= seg.base
    ensures StartOf(seg, offset) == 0
    ensures WindowSize(seg, offset) == TotalSize(seg.batches)
  {
    var j := StartOf(seg, offset);
    if seg.batches != [] {
      EndsGrow(seg, 0, j);
    }
  }

  lemma {:induction false} WindowFits(seg: Segment, offset: nat)
    requires ValidSegment(seg)
    ensures WindowSize(seg, offset) <= SizeFrom(seg.batches, StartOf(seg, offset))
  {
    SizeShrinks(seg.batches, StartOf(seg, offset), FirstBeyond(seg.batches, StartOf(seg, offset), offset));
  }

  lemma {:induction false} SizeShrinks(batches: seq<Batch>, j: nat, f: nat)
    requires j <= f <= |batches|
    ensures SizeFrom(batches, f) <= SizeFrom(batches, j)
    decreases f - j
  {
    if j < f {
      SizeShrinks(batches, j + 1, f);
    }
  }

  lemma {:induction false} MoreAfterAll(seg: Segment, rest: seq<Segment>, offset: nat, budget: nat)
    requires ValidSegment(seg) && AllValid(rest) && seg.batches != [] && offset < seg.End()
    requires SizeFrom(seg.batches, StartOf(seg, offset)) <= budget
    ensures WindowSize(seg, offset) <= budget
    ensures More(seg, rest, offset, budget) == ReadFrom(rest, seg.End(), budget - WindowSize(seg, offset))
  {
    WindowFits(seg, offset);
    SegmentReadAll(seg, offset, budget);
  }

  /** The read of `segments` returns everything from `lo` to `hi`; sealed, and opened by `WholeMeans`. */
  ghost predicate Whole(segments: seq<Segment>, offset: nat, budget: nat, lo: nat, hi: nat)
  {
    forall x {:trigger ReadFrom(x, offset, budget)} ::
      x == segments ==> AllValid(x) && CoversAll(ReadFrom(x, offset, budget), lo, hi)
  }

  lemma {:induction false} WholeMeans(segments: seq<Segment>, offset: nat, budget: nat, lo: nat, hi: nat)
    requires AllValid(segments)
    ensures Whole(segments, offset, budget, lo, hi) <==> CoversAll(ReadFrom(segments, offset, budget), lo, hi)
  {
  }

  /** Reading on from the segment that holds `offset`. */
  lemma {:induction false} WholeSplits(seg: Segment, rest: seq<Segment>, offset: nat, budget: nat)
    requires ValidSegment(seg) && Adjoining(seg.End(), rest) && seg.batches != [] && offset < seg.End()
    requires SizeFrom(seg.batches, StartOf(seg, offset)) <= budget
    ensures WindowSize(seg, offset) <= budget
    ensures Whole([seg] + rest, offset, budget, Later(offset, seg.base), EndOf(seg.End(), rest)) <==>
            Whole(rest, seg.End(), budget - WindowSize(seg, offset), seg.End(), EndOf(seg.End(), rest))
  {
    var lo, mid, hi := Later(offset, seg.base), seg.End(), EndOf(seg.End(), rest);
    EndsGrow(seg, 0, |seg.batches| - 1);
    ReadSplits(seg, rest, offset, budget, lo);
    SegmentReadIff(seg, offset, budget);
    MoreAfterAll(seg, rest, offset, budget);
    WholeMeans([seg] + rest, offset, budget, lo, hi);
    WholeMeans(rest, mid, budget - WindowSize(seg, offset), mid, hi);
  }

  lemma {:induction false} ShortIsNotWhole(seg: Segment, rest: seq<Segment>, offset: nat, budget: nat)
    requires ValidSegment(seg) && Adjoining(seg.End(), rest) && seg.batches != [] && offset < seg.End()
    requires SizeFrom(seg.batches, StartOf(seg, offset)) > budget
    ensures !Whole([seg] + rest, offset, budget, Later(offset, seg.base), EndOf(seg.End(), rest))
  {
    var lo, hi := Later(offset, seg.base), EndOf(seg.End(), rest);
    EndsGrow(seg, 0, |seg.batches| - 1);
    ReadSplits(seg, rest, offset, budget, lo);
    SegmentReadIff(seg, offset, budget);
    WholeMeans([seg] + rest, offset, budget, lo, hi);
  }

  /** The segments after the one that holds the offset. */
  lemma {:induction false} LaterReadsAllIff(segments: seq<Segment>, base: nat, offset: nat, budget: nat)
    requires Adjoining(base, segments) && offset <= base
    ensures Whole(segments, offset, budget, base, EndOf(base, segments)) <==> SizeOf(segments) <= budget
    decreases segments
  {
    if segments == [] {
      WholeMeans([], offset, budget, base, base);
    } else {
      var seg, rest := segments[0], segments[1..];
      assert segments == [seg] + rest;
      StartsAtBase(seg, offset);
      if seg.batches == [] {
        EmptyIsSkipped(seg, rest, offset, budget);
        LaterReadsAllIff(rest, seg.End(), offset, budget);
      } else {
        EndsGrow(seg, 0, |seg.batches| - 1);
        if TotalSize(seg.batches) <= budget {
          WholeSplits(seg, rest, offset, budget);
          LaterReadsAllIff(rest, seg.End(), seg.End(), budget - TotalSize(seg.batches));
        } else {
          ShortIsNotWhole(seg, rest, offset, budget);
        }
      }
    }
  }

  lemma {:induction false} EmptyIsSkipped(seg: Segment, rest: seq<Segment>, offset: nat, budget: nat)
    requires ValidSegment(seg) && Adjoining(seg.End(), rest) && (seg.batches == [] || seg.End() <= offset)
    ensures forall lo: nat, hi: nat :: Whole([seg] + rest, offset, budget, lo, hi) <==> Whole(rest, offset, budget, lo, hi)
  {
    AdjoiningValid(seg.End(), rest);
    ReadHead(seg, rest, offset, budget);
    assert ReadSegment(seg, offset, budget) == [];
    assert [] + More(seg, rest, offset, budget) == ReadFrom(rest, offset, budget);
    forall lo: nat, hi: nat ensures Whole([seg] + rest, offset, budget, lo, hi) <==> Whole(rest, offset, budget, lo, hi) {
      WholeMeans([seg] + rest, offset, budget, lo, hi);
      WholeMeans(rest, offset, budget, lo, hi);
    }
  }

  lemma {:induction false} WholeIff(segments: seq<Segment>, base: nat, offset: nat, budget: nat)
    requires Adjoining(base, segments) && AllValid(segments) && base <= offset < EndOf(base, segments)
    ensures Whole(segments, offset, budget, offset, EndOf(base, segments)) <==> Fits(segments, offset, budget)
    decreases segments
  {
    var seg, rest := segments[0], segments[1..];
    assert segments == [seg] + rest;
    if seg.End() <= offset {
      EmptyIsSkipped(seg, rest, offset, budget);
      WholeIff(rest, seg.End(), offset, budget);
    } else if SizeFrom(seg.batches, StartOf(seg, offset)) <= budget {
      WholeSplits(seg, rest, offset, budget);
      LaterReadsAllIff(rest, seg.End(), seg.End(), budget - WindowSize(seg, offset));
    } else {
      ShortIsNotWhole(seg, rest, offset, budget);
    }
  }

  /** A read returns everything from `offset` to the end of the log exactly when both bounds hold: the
      window fits the budget, and in the first segment so does the part from the index position on. */
  lemma {:induction false} ReadsAllIff(segments: seq<Segment>, base: nat, offset: nat, budget: nat)
    requires Adjoining(base, segments) && base <= offset < EndOf(base, segments)
    ensures AllValid(segments)
    ensures CoversAll(ReadFrom(segments, offset, budget), offset, EndOf(base, segments)) <==> Fits(segments, offset, budget)
  {
    AdjoiningValid(base, segments);
    WholeIff(segments, base, offset, budget);
    WholeMeans(segments, offset, budget, offset, EndOf(base, segments));
  }

  // ---- The offsets of a read ----

  function Span(base: nat, count: nat): (r: seq<nat>)
    ensures |r| == count && forall i :: 0 <= i < count ==> r[i] == base + i
  {
    seq(count, i => base + i)
  }

  function Offsets(bs: seq<Batch>): seq<nat>
  {
    if bs == [] then [] else Span(bs[0].base, bs[0].count) + Offsets(bs[1..])
  }

  lemma {:induction false} OffsetsAreCovered(bs: seq<Batch>, o: nat)
    ensures o in Offsets(bs) <==> Covers(bs, o)
  {
    if bs != [] {
      OffsetsAreCovered(bs[1..], o);
      CoversConcat([bs[0]], bs[1..], o);
      assert [bs[0]] + bs[1..] == bs;
      var b := bs[0];
      if b.base <= o < b.End() {
        assert Span(b.base, b.count)[o - b.base] == o;
        assert [b][0].base <= o < [b][0].End();
      }
    }
  }

  lemma {:induction false} OffsetsIncrease(bs: seq<Batch>, lo: nat, hi: nat)
    requires Ordered(lo, hi, bs)
    ensures forall i :: 0 <= i < |Offsets(bs)| ==> lo <= Offsets(bs)[i] < hi
    ensures forall i, j :: 0 <= i < j < |Offsets(bs)| ==> Offsets(bs)[i] < Offsets(bs)[j]
  {
    if bs != [] {
      assert forall i :: 0 <= i < |bs[1..]| ==> bs[0].End() <= bs[1..][i].base;
      OffsetsIncrease(bs[1..], bs[0].End(), hi);
    }
  }
}
