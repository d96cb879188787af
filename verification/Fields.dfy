/** Splitting at a separator byte, as Go's `strings.Split` and Python's `bytes.split` do. */
module Fields {
  import opened Bytes

  function Split(s: bytes, sep: byte): (parts: seq<bytes>)
    ensures parts != [] && |parts| <= |s| + 1
  {
    if s == [] then [[]]
    else
      var before, c := Split(s[..|s| - 1], sep), s[|s| - 1];
      if c == sep then before + [[]]
      else before[..|before| - 1] + [before[|before| - 1] + [c]]
  }

  function Join(parts: seq<bytes>, sep: byte): bytes
    requires parts != []
  {
    if |parts| == 1 then parts[0]
    else Join(parts[..|parts| - 1], sep) + [sep] + parts[|parts| - 1]
  }

  lemma {:induction false} SplitLast(a: bytes, b: bytes, sep: byte)
    requires sep !in b
    ensures Split(a + [sep] + b, sep) == Split(a, sep) + [b]
  {
    var s := a + [sep] + b;
    if b == [] {
      assert s[..|s| - 1] == a;
    } else {
      var init := b[..|b| - 1];
      SplitLast(a, init, sep);
      assert s[..|s| - 1] == a + [sep] + init;
      assert init + [b[|b| - 1]] == b;
    }
  }

  lemma {:induction false} SplitOne(a: bytes, sep: byte)
    ensures |Split(a, sep)| == 1 <==> sep !in a
    ensures sep !in a ==> Split(a, sep) == [a]
  {
    if a != [] {
      SplitOne(a[..|a| - 1], sep);
      assert a == a[..|a| - 1] + [a[|a| - 1]];
    }
  }

  /** Joined fields without the separator split back. */
  lemma {:induction false} SplitJoin(parts: seq<bytes>, sep: byte)
    requires parts != [] && forall i :: 0 <= i < |parts| ==> sep !in parts[i]
    ensures Split(Join(parts, sep), sep) == parts
  {
    if |parts| == 1 {
      SplitOne(parts[0], sep);
    } else {
      var init := parts[..|parts| - 1];
      SplitJoin(init, sep);
      SplitLast(Join(init, sep), parts[|parts| - 1], sep);
      assert init + [parts[|parts| - 1]] == parts;
    }
  }

  lemma {:induction false} JoinExtend(parts: seq<bytes>, c: byte, sep: byte)
    requires parts != []
    ensures Join(parts[..|parts| - 1] + [parts[|parts| - 1] + [c]], sep) == Join(parts, sep) + [c]
  {
    var longer := parts[..|parts| - 1] + [parts[|parts| - 1] + [c]];
    if |parts| > 1 {
      assert longer[..|parts| - 1] == parts[..|parts| - 1];
    }
  }

  /** Splitting loses nothing, and no field holds the separator. */
  lemma {:induction false} JoinSplit(s: bytes, sep: byte)
    ensures Join(Split(s, sep), sep) == s
    ensures forall i :: 0 <= i < |Split(s, sep)| ==> sep !in Split(s, sep)[i]
  {
    if s != [] {
      var init, c := s[..|s| - 1], s[|s| - 1];
      JoinSplit(init, sep);
      var before := Split(init, sep);
      assert s == init + [c];
      if c == sep {
        assert (before + [[]])[..|before|] == before;
      } else {
        JoinExtend(before, c, sep);
      }
    }
  }
}
