/** An append-only file of frames (the `Spool` of crates/audit/src/spool.rs), for any frame codec
    with the properties gathered in `Lawful`. File operations succeed; a crash during an append
    leaves a prefix of the frame. */
module SpoolFiles {
  import opened Bytes
  import opened Incremental

  /** `frame` encodes an item that `fits`; `next` decodes the item at the front of a buffer and
      says how many bytes it takes, or gives `None` for a frame cut short or undecodable. */
  datatype Codec<!T> = Codec(fits: T -> bool, frame: T -> bytes, next: bytes -> Option<(T, nat)>)

  ghost predicate Stands<T(!new)>(c: Codec<T>)
  {
    forall b, more {:trigger c.next(b + more)} :: c.next(b).Some? ==>
      0 < c.next(b).value.1 <= |b| && c.next(b + more) == c.next(b)
  }

  ghost predicate ReadsBack<T(!new)>(c: Codec<T>)
  {
    forall x {:trigger c.frame(x)} :: c.fits(x) ==>
      c.frame(x) != [] && c.next(c.frame(x)) == Some((x, |c.frame(x)|))
  }

  ghost predicate RefusesTorn<T(!new)>(c: Codec<T>)
  {
    c.next([]).None?
    && forall x, torn {:trigger c.frame(x), c.next(torn)} ::
         c.fits(x) && torn <= c.frame(x) && torn != c.frame(x) ==> c.next(torn).None?
  }

  ghost predicate NeedsOnlyTheFrame<T(!new)>(c: Codec<T>)
  {
    forall b {:trigger c.next(b)} :: c.next(b).Some? ==>
      var (x, n) := c.next(b).value;
      0 < n <= |b| && c.fits(x) && c.next(b[..n]) == c.next(b)
  }

  ghost predicate Lawful<T(!new)>(c: Codec<T>)
  {
    Stands(c) && ReadsBack(c) && RefusesTorn(c) && NeedsOnlyTheFrame(c)
  }

  // ---- Scanning ----

  function ScanStep<T>(c: Codec<T>): Stepper<seq<T>>
  {
    (items: seq<T>, cur) => match c.next(cur)
      case None => NeedMore
      case Some((x, n)) => Advance(items + [x], n)
  }

  /** Reads frames until the first one cut short or undecodable. */
  function ScanFrom<T>(c: Codec<T>, items: seq<T>, cur: bytes): Drained<seq<T>>
  {
    Drain(ScanStep(c), items, cur)
  }

  function Recovered<T>(c: Codec<T>, file: bytes): seq<T> { ScanFrom(c, [], file).state }

  function TornTail<T>(c: Codec<T>, file: bytes): bytes { ScanFrom(c, [], file).rest }

  predicate Clean<T>(c: Codec<T>, file: bytes) { TornTail(c, file) == [] }

  function EncodeAll<T>(c: Codec<T>, items: seq<T>): bytes
  {
    if items == [] then [] else EncodeAll(c, items[..|items| - 1]) + c.frame(items[|items| - 1])
  }

  predicate AllFit<T>(c: Codec<T>, items: seq<T>) { forall i :: 0 <= i < |items| ==> c.fits(items[i]) }

  lemma ScanIsStable<T(!new)>(c: Codec<T>)
    requires Stands(c)
    ensures Stable(ScanStep(c))
  {
    forall items: seq<T>, b: bytes, more: bytes {:trigger ScanStep(c)(items, b + more)} |
      !ScanStep(c)(items, b).NeedMore?
      ensures ScanStep(c)(items, b + more) == ScanStep(c)(items, b)
      ensures 0 < ScanStep(c)(items, b).used <= |b|
    {
      assert c.next(b + more) == c.next(b);
    }
  }

  /** Items already read are carried along unchanged. */
  lemma {:induction false} ScanShift<T(!new)>(c: Codec<T>, items: seq<T>, file: bytes)
    requires NeedsOnlyTheFrame(c)
    ensures ScanFrom(c, items, file) == Drained(items + Recovered(c, file), TornTail(c, file), false)
    decreases |file|
  {
    match c.next(file)
    case None =>
      assert items + [] == items;
    case Some((x, n)) =>
      ScanShift(c, items + [x], file[n..]);
      ScanShift(c, [x], file[n..]);
      assert [] + [x] == [x];
      assert items + ([x] + Recovered(c, file[n..])) == items + [x] + Recovered(c, file[n..]);
  }

  lemma ScanCons<T(!new)>(c: Codec<T>, file: bytes)
    requires NeedsOnlyTheFrame(c)
    ensures match c.next(file)
      case None => Recovered(c, file) == [] && TornTail(c, file) == file
      case Some((x, n)) =>
        && Recovered(c, file) == [x] + Recovered(c, file[n..])
        && TornTail(c, file) == TornTail(c, file[n..])
  {
    if c.next(file).Some? {
      var (x, n) := c.next(file).value;
      assert [] + [x] == [x];
      ScanShift(c, [x], file[n..]);
    }
  }

  /** Scanning goes through a clean file and on into what follows it. */
  lemma ScanConcat<T(!new)>(c: Codec<T>, file: bytes, more: bytes)
    requires Lawful(c) && Clean(c, file)
    ensures Recovered(c, file + more) == Recovered(c, file) + Recovered(c, more)
    ensures TornTail(c, file + more) == TornTail(c, more)
  {
    ScanIsStable(c);
    DrainConcat(ScanStep(c), [], file, more);
    ScanShift(c, [], file);
    assert [] + more == more;
    ScanShift(c, Recovered(c, file), more);
  }

  lemma ScanEmpty<T(!new)>(c: Codec<T>)
    requires Lawful(c)
    ensures Recovered(c, []) == [] && Clean(c, [])
  {
    ScanCons(c, []);
  }

  lemma ScanFrame<T(!new)>(c: Codec<T>, x: T)
    requires Lawful(c) && c.fits(x)
    ensures Recovered(c, c.frame(x)) == [x] && Clean(c, c.frame(x))
  {
    var f := c.frame(x);
    ScanCons(c, f);
    assert f[|f|..] == [];
    ScanEmpty(c);
  }

  /** A frame cut short anywhere contributes nothing. */
  lemma ScanTorn<T(!new)>(c: Codec<T>, x: T, torn: bytes)
    requires Lawful(c) && c.fits(x) && torn <= c.frame(x) && torn != c.frame(x)
    ensures Recovered(c, torn) == [] && TornTail(c, torn) == torn
  {
    ScanCons(c, torn);
  }

  /** Whatever bytes a file holds, the scan keeps a clean front of it with the same items. */
  lemma {:induction false} ScanKeepsPrefix<T(!new)>(c: Codec<T>, file: bytes) returns (kept: bytes)
    requires Lawful(c)
    ensures file == kept + TornTail(c, file) && Recovered(c, kept) == Recovered(c, file) && Clean(c, kept)
    decreases |file|
  {
    ScanCons(c, file);
    if c.next(file).Some? {
      var n := c.next(file).value.1;
      var keptRest := ScanKeepsPrefix(c, file[n..]);
      kept := ScanSplice(c, file, keptRest);
      SpliceFront(file, n, keptRest, TornTail(c, file));
    } else {
      kept := [];
      ScanEmpty(c);
    }
  }

  lemma SpliceFront(file: bytes, n: nat, a: bytes, b: bytes)
    requires n <= |file| && file[n..] == a + b
    ensures file == file[..n] + a + b
  {
    assert file == file[..n] + file[n..];
  }

  /** The first frame of a file reads the same in front of other bytes. */
  lemma ScanSplice<T(!new)>(c: Codec<T>, file: bytes, rest: bytes) returns (spliced: bytes)
    requires Lawful(c) && c.next(file).Some?
    ensures spliced == file[..c.next(file).value.1] + rest
    ensures Recovered(c, spliced) == [c.next(file).value.0] + Recovered(c, rest)
    ensures TornTail(c, spliced) == TornTail(c, rest)
  {
    var n := c.next(file).value.1;
    spliced := file[..n] + rest;
    assert c.next(file[..n] + rest) == c.next(file[..n]);
    ScanCons(c, spliced);
    assert spliced[n..] == rest;
  }

  lemma {:induction false} ScanEncodeAll<T(!new)>(c: Codec<T>, items: seq<T>)
    requires Lawful(c) && AllFit(c, items)
    ensures Recovered(c, EncodeAll(c, items)) == items && Clean(c, EncodeAll(c, items))
  {
    if items == [] {
      ScanEmpty(c);
    } else {
      var n := |items| - 1;
      ScanEncodeAll(c, items[..n]);
      ScanFrame(c, items[n]);
      ScanConcat(c, EncodeAll(c, items[..n]), c.frame(items[n]));
      assert items[..n] + [items[n]] == items;
    }
  }

  /** Every recovered item can be written back. */
  lemma {:induction false} RecoveredFit<T(!new)>(c: Codec<T>, file: bytes)
    requires Lawful(c)
    ensures AllFit(c, Recovered(c, file))
    decreases |file|
  {
    ScanCons(c, file);
    if c.next(file).Some? {
      RecoveredFit(c, file[c.next(file).value.1..]);
    }
  }

  /** Torn-tail recovery: a clean file followed by a frame cut short by a crash scans to exactly
      the clean file's items, with the cut frame as the torn tail; one more append to the healed
      file reads back as the same items and the new one. */
  lemma TornTailRecovery<T(!new)>(c: Codec<T>, file: bytes, lost: T, torn: bytes, next: T)
    requires Lawful(c) && Clean(c, file) && c.fits(lost) && c.fits(next)
    requires torn <= c.frame(lost) && torn != c.frame(lost)
    ensures Recovered(c, file + torn) == Recovered(c, file) && TornTail(c, file + torn) == torn
    ensures Recovered(c, file + c.frame(next)) == Recovered(c, file) + [next]
    ensures Clean(c, file + c.frame(next))
  {
    ScanTorn(c, lost, torn);
    ScanConcat(c, file, torn);
    ScanFrame(c, next);
    ScanConcat(c, file, c.frame(next));
  }

  /** The file is clean and holds `items`, under a lawful codec. The predicate is sealed: it
      quantifies over the one value `f == file`, so that the verifier opens it only where the trigger
      term is mentioned. Whoever only passes `Spool.Valid` on never unfolds the scan; whoever needs
      the contents calls `HoldsMeans`. The other sealed predicates of the project are built alike. */
  ghost predicate Holds<T(!new)>(c: Codec<T>, file: bytes, items: seq<T>)
  {
    forall f {:trigger Recovered(c, f)} :: f == file ==> Lawful(c) && Clean(c, f) && Recovered(c, f) == items
  }

  lemma HoldsMeans<T(!new)>(c: Codec<T>, file: bytes, items: seq<T>)
    ensures Holds(c, file, items) <==> Lawful(c) && Clean(c, file) && Recovered(c, file) == items
  {
    var _ := Recovered(c, file);
  }

  // ---- The spool object ----

  /** The replacement file, frame by frame, and its length. */
  method WriteFrames<T>(codec: Codec<T>, records: seq<T>) returns (tmp: bytes, written: nat)
    ensures tmp == EncodeAll(codec, records) && written == |tmp|
  {
    tmp, written := [], 0;
    for i := 0 to |records|
      invariant tmp == EncodeAll(codec, records[..i]) && written == |tmp|
    {
      assert records[..i + 1][..i] == records[..i];
      var frame := codec.frame(records[i]);
      tmp := tmp + frame;
      written := written + |frame|;
    }
    assert records[..|records|] == records;
  }

  class Spool<T(!new)> {
    const codec: Codec<T>
    const maxBytes: nat
    var file: bytes // contents of audit.spool
    var size: nat
    var count: nat
    ghost var contents: seq<T> // what the file holds

    ghost predicate Valid() reads this
    {
      Holds(codec, file, contents) && size == |file| && count == |contents|
    }

    /** Opens the spool on whatever bytes the file holds and cuts off the undecodable tail. */
    constructor Open(codec: Codec<T>, disk: bytes, maxBytes: nat)
      requires Lawful(codec)
      ensures Valid() && this.codec == codec && this.maxBytes == maxBytes
      ensures disk == file + TornTail(codec, disk) && contents == Recovered(codec, disk)
    {
      this.codec, this.maxBytes := codec, maxBytes;
      file, size, count, contents := disk, 0, 0, [];
      new;
      var items, valid := Scan();
      ghost var kept := ScanKeepsPrefix(codec, disk);
      assert disk[..valid] == kept;
      if valid < |file| {
        file := file[..valid];
      }
      count, size, contents := |items|, valid, items;
      HoldsMeans(codec, file, contents);
    }

    /** Every record, in order; what it returns fits the codec again. */
    method ReadAll() returns (items: seq<T>)
      requires Valid()
      ensures items == contents && AllFit(codec, items)
    {
      HoldsMeans(codec, file, contents);
      var valid;
      items, valid := Scan();
      RecoveredFit(codec, file);
    }

    method Scan() returns (items: seq<T>, valid: nat)
      requires Lawful(codec)
      ensures items == Recovered(codec, file) && valid == |file| - |TornTail(codec, file)|
    {
      items, valid := [], 0;
      var cur := file;
      while true
        invariant valid + |cur| == |file|
        invariant ScanFrom(codec, items, cur) == ScanFrom(codec, [], file)
        decreases |cur|
      {
        var next := codec.next(cur);
        if next.None? {
          return;
        }
        items := items + [next.value.0];
        valid := valid + next.value.1;
        cur := cur[next.value.1..];
      }
    }

    /** Appends unless the cap would be exceeded. */
    method Append(x: T) returns (accepted: bool)
      requires Valid() && codec.fits(x)
      modifies this
      ensures Valid()
      ensures accepted <==> old(size) + |codec.frame(x)| <= maxBytes
      ensures accepted ==> file == old(file) + codec.frame(x) && contents == old(contents) + [x]
      ensures !accepted ==> file == old(file) && contents == old(contents)
    {
      var frame := codec.frame(x);
      if size + |frame| > maxBytes {
        return false;
      }
      HoldsMeans(codec, file, contents);
      ScanFrame(codec, x);
      ScanConcat(codec, file, frame);
      HoldsMeans(codec, file + frame, contents + [x]);
      file := file + frame;
      size := size + |frame|;
      count := count + 1;
      contents := contents + [x];
      return true;
    }

    /** Replaces the contents by exactly `remaining`. */
    method Rewrite(remaining: seq<T>)
      requires Valid() && AllFit(codec, remaining)
      modifies this
      ensures Valid() && contents == remaining && file == EncodeAll(codec, remaining)
    {
      HoldsMeans(codec, file, contents);
      var tmp, written := WriteFrames(codec, remaining);
      ScanEncodeAll(codec, remaining);
      size := written;
      file := tmp;
      count := |remaining|;
      contents := remaining;
      HoldsMeans(codec, file, contents);
    }

    method Truncate()
      requires Valid()
      modifies this
      ensures Valid() && contents == [] && file == []
    {
      HoldsMeans(codec, file, contents);
      ScanEmpty(codec);
      HoldsMeans(codec, [], []);
      file, size, count, contents := [], 0, 0, [];
    }
  }

  /** Opening a spool a second time changes nothing, whatever bytes the file held at first. */
  method OpenTwice<T(!new)>(c: Codec<T>, disk: bytes, maxBytes: nat) returns (first: Spool<T>, second: Spool<T>)
    requires Lawful(c)
    ensures first.file == second.file && first.count == second.count && first.size == second.size
    ensures first.contents == second.contents == Recovered(c, disk)
  {
    first := new Spool<T>.Open(c, disk, maxBytes);
    HoldsMeans(c, first.file, first.contents);
    second := new Spool<T>.Open(c, first.file, maxBytes);
  }
}
