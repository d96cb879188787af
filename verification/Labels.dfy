/** Label sets and their 64-bit FNV-1a fingerprint (crates/blockstore/src/labels.rs). */
module Labels {
  import opened Bytes
  import opened Bits
  import opened Repeated

  type Text = bytes

  datatype Label = Label(name: Text, value: Text)

  // ---- The ordered map ----

  /** Byte-wise order of strings. */
  predicate Less(a: Text, b: Text)
  {
    b != [] && (a == [] || a[0] < b[0] || (a[0] == b[0] && Less(a[1..], b[1..])))
  }

  lemma {:induction false} LessIsTotal(a: Text, b: Text)
    ensures Less(a, b) || a == b || Less(b, a)
    ensures !(Less(a, b) && Less(b, a)) && !Less(a, a)
  {
    if a != [] && b != [] {
      LessIsTotal(a[1..], b[1..]);
      assert a == [a[0]] + a[1..] && b == [b[0]] + b[1..];
    }
    if a != [] {
      LessIsTotal(a[1..], a[1..]);
    }
  }

  lemma {:induction false} LessIsTransitive(a: Text, b: Text, c: Text)
    requires Less(a, b) && Less(b, c)
    ensures Less(a, c)
  {
    if a != [] && a[0] == b[0] == c[0] {
      LessIsTransitive(a[1..], b[1..], c[1..]);
    }
  }

  ghost predicate Ordered(labels: seq<Label>)
  {
    forall i, j :: 0 <= i < j < |labels| ==> Less(labels[i].name, labels[j].name)
  }

  /** `BTreeMap::insert`: replaces the value of a present name, or adds the name in its place. */
  function Insert(labels: seq<Label>, l: Label): (r: seq<Label>)
  {
    if labels == [] then [l]
    else if labels[0].name == l.name then [l] + labels[1..]
    else if Less(l.name, labels[0].name) then [l] + labels
    else [labels[0]] + Insert(labels[1..], l)
  }

  function ValueOf(labels: seq<Label>, name: Text): Option<Text>
  {
    if labels == [] then None else if labels[0].name == name then Some(labels[0].value) else ValueOf(labels[1..], name)
  }

  lemma {:induction false} InsertMeans(labels: seq<Label>, l: Label, name: Text)
    ensures ValueOf(Insert(labels, l), name) == if name == l.name then Some(l.value) else ValueOf(labels, name)
  {
    if labels != [] && labels[0].name != l.name && !Less(l.name, labels[0].name) {
      InsertMeans(labels[1..], l, name);
    }
  }

  lemma {:induction false} InsertBelow(labels: seq<Label>, l: Label, low: Text)
    requires Less(low, l.name) && forall i :: 0 <= i < |labels| ==> Less(low, labels[i].name)
    ensures forall i :: 0 <= i < |Insert(labels, l)| ==> Less(low, Insert(labels, l)[i].name)
  {
    if labels != [] && labels[0].name != l.name && !Less(l.name, labels[0].name) {
      InsertBelow(labels[1..], l, low);
    }
  }

  lemma {:induction false} InsertKeepsOrder(labels: seq<Label>, l: Label)
    requires Ordered(labels)
    ensures Ordered(Insert(labels, l))
  {
    if labels != [] {
      var head := labels[0].name;
      LessIsTotal(l.name, head);
      if Less(l.name, head) {
        forall i | 1 <= i < |labels| ensures Less(l.name, labels[i].name) {
          LessIsTransitive(l.name, head, labels[i].name);
        }
      } else if head != l.name {
        InsertKeepsOrder(labels[1..], l);
        InsertBelow(labels[1..], l, head);
      }
    }
  }

  lemma {:induction false} AbsentBelow(labels: seq<Label>, name: Text)
    requires forall i :: 0 <= i < |labels| ==> Less(name, labels[i].name)
    ensures ValueOf(labels, name) == None
  {
    if labels != [] {
      LessIsTotal(name, labels[0].name);
      AbsentBelow(labels[1..], name);
    }
  }

  lemma HeadHasValue(labels: seq<Label>)
    requires labels != []
    ensures ValueOf(labels, labels[0].name) == Some(labels[0].value)
  {
  }

  /** Ordered label lists with the same values are the same list. */
  lemma {:induction false} OrderedIsCanonical(a: seq<Label>, b: seq<Label>)
    requires Ordered(a) && Ordered(b) && forall name :: ValueOf(a, name) == ValueOf(b, name)
    ensures a == b
  {
    if a == [] && b != [] {
      HeadHasValue(b);
    } else if a != [] {
      HeadHasValue(a);
      HeadsAgree(a, b);
      var head := a[0].name;
      forall name ensures ValueOf(a[1..], name) == ValueOf(b[1..], name) {
        if name == head {
          AbsentBelow(a[1..], head);
          AbsentBelow(b[1..], head);
        } else {
          assert ValueOf(a, name) == ValueOf(a[1..], name) && ValueOf(b, name) == ValueOf(b[1..], name);
        }
      }
      OrderedIsCanonical(a[1..], b[1..]);
      assert a == [a[0]] + a[1..] && b == [b[0]] + b[1..];
    }
  }

  lemma HeadsAgree(a: seq<Label>, b: seq<Label>)
    requires a != [] && b != [] && Ordered(a) && Ordered(b) && forall name :: ValueOf(a, name) == ValueOf(b, name)
    ensures a[0] == b[0]
  {
    LessIsTotal(a[0].name, b[0].name);
    if Less(a[0].name, b[0].name) {
      forall i | 0 <= i < |b| ensures Less(a[0].name, b[i].name) {
        if i > 0 {
          LessIsTransitive(a[0].name, b[0].name, b[i].name);
        }
      }
      AbsentBelow(b, a[0].name);
    } else if Less(b[0].name, a[0].name) {
      forall i | 0 <= i < |a| ensures Less(b[0].name, a[i].name) {
        if i > 0 {
          LessIsTransitive(b[0].name, a[0].name, a[i].name);
        }
      }
      AbsentBelow(a, b[0].name);
    }
    assert ValueOf(a, a[0].name) == Some(a[0].value) && ValueOf(b, b[0].name) == Some(b[0].value);
  }

  // ---- Building a label set ----

  /** The value given last to a name. */
  function LastValue(pairs: seq<Label>, name: Text): Option<Text>
  {
    if pairs == [] then None
    else
      var last := pairs[|pairs| - 1];
      if last.name == name then Some(last.value) else LastValue(pairs[..|pairs| - 1], name)
  }

  ghost predicate Denotes(labels: seq<Label>, pairs: seq<Label>)
  {
    forall name :: ValueOf(labels, name) == LastValue(pairs, name)
  }

  class LabelSet {
    var labels: seq<Label>

    ghost predicate Valid() reads this { Ordered(labels) }

    constructor ()
      ensures Valid() && labels == []
    {
      labels := [];
    }

    method Add(name: Text, value: Text)
      requires Valid()
      modifies this
      ensures Valid() && labels == Insert(old(labels), Label(name, value))
      ensures forall n :: ValueOf(labels, n) == if n == name then Some(value) else ValueOf(old(labels), n)
    {
      InsertKeepsOrder(labels, Label(name, value));
      forall n ensures ValueOf(Insert(labels, Label(name, value)), n) ==
                       if n == name then Some(value) else ValueOf(labels, n)
      {
        InsertMeans(labels, Label(name, value), n);
      }
      labels := Insert(labels, Label(name, value));
    }

    /** The set built from pairs gives each name its last value. */
    constructor FromPairs(pairs: seq<Label>)
      ensures Valid() && Denotes(labels, pairs)
    {
      labels := [];
      new;
      for i := 0 to |pairs|
        invariant Valid() && Denotes(labels, pairs[..i])
      {
        assert pairs[..i + 1][..i] == pairs[..i];
        Add(pairs[i].name, pairs[i].value);
      }
      assert pairs[..|pairs|] == pairs;
    }

    /** The FNV-1a hash of the canonical encoding. */
    method Fingerprint() returns (hash: nat)
      ensures hash == Fnv(FNV_OFFSET, Encode(labels))
    {
      hash := FNV_OFFSET;
      assert labels[0..] == labels;
      for i := 0 to |labels|
        invariant Fnv(hash, Encode(labels[i..])) == Fnv(FNV_OFFSET, Encode(labels))
      {
        assert labels[i..][0] == labels[i] && labels[i..][1..] == labels[i + 1..];
        FnvConcat(hash, EncodeLabel(labels[i]), Encode(labels[i + 1..]));
        hash := HashOn(hash, EncodeLabel(labels[i]));
      }
    }
  }

  method HashOn(start: nat, s: bytes) returns (hash: nat)
    ensures hash == Fnv(start, s)
  {
    hash := start;
    assert s[0..] == s;
    for i := 0 to |s|
      invariant Fnv(hash, s[i..]) == Fnv(start, s)
    {
      assert s[i..][1..] == s[i + 1..];
      hash := Xor(hash, s[i]);
      hash := hash * FNV_PRIME % U64_LIMIT;
    }
  }

  predicate NamesDiffer(pairs: seq<Label>)
  {
    forall i, j :: 0 <= i < j < |pairs| ==> pairs[i].name != pairs[j].name
  }

  lemma {:induction false} LastValueIsListed(pairs: seq<Label>, name: Text)
    ensures LastValue(pairs, name).None? <==> forall l :: l in pairs ==> l.name != name
    ensures LastValue(pairs, name).Some? ==> Label(name, LastValue(pairs, name).value) in pairs
  {
    if pairs != [] {
      LastValueIsListed(pairs[..|pairs| - 1], name);
      assert pairs == pairs[..|pairs| - 1] + [pairs[|pairs| - 1]];
    }
  }

  lemma LastValueOfSame(p: seq<Label>, q: seq<Label>, name: Text)
    requires NamesDiffer(p) && NamesDiffer(q) && forall l :: l in p <==> l in q
    ensures LastValue(p, name) == LastValue(q, name)
  {
    LastValueIsListed(p, name);
    LastValueIsListed(q, name);
    if LastValue(p, name).Some? {
      var a, b := Label(name, LastValue(p, name).value), LastValue(q, name);
      assert a in q;
      assert b.Some? && Label(name, b.value) in q;
      var i :| 0 <= i < |q| && q[i] == a;
      var j :| 0 <= j < |q| && q[j] == Label(name, b.value);
      assert i == j;
    }
  }

  /** With distinct names, the order in which labels arrive does not matter: the sets are equal, and
      so is what they feed the hash. */
  lemma OrderDoesNotMatter(p: seq<Label>, q: seq<Label>, a: seq<Label>, b: seq<Label>)
    requires NamesDiffer(p) && NamesDiffer(q) && forall l :: l in p <==> l in q
    requires Ordered(a) && Denotes(a, p) && Ordered(b) && Denotes(b, q)
    ensures a == b && Encode(a) == Encode(b)
  {
    forall name ensures ValueOf(a, name) == ValueOf(b, name) {
      LastValueOfSame(p, q, name);
    }
    OrderedIsCanonical(a, b);
  }

  // ---- The canonical encoding ----

  predicate Encodable(l: Label) { |l.name| < U64_LIMIT && |l.value| < U64_LIMIT }

  function EncodeText(s: Text): bytes { LittleEndian(|s|, 8) + s }

  function EncodeLabel(l: Label): (b: bytes)
    ensures b != []
  {
    EncodeText(l.name) + EncodeText(l.value)
  }

  function Encode(labels: seq<Label>): bytes { EncodeMany(EncodeLabel, labels) }

  lemma EncodeTextSplits(a: Text, b: Text, x: bytes, y: bytes)
    requires |a| < U64_LIMIT && |b| < U64_LIMIT && EncodeText(a) + x == EncodeText(b) + y
    ensures a == b && x == y
  {
    var s := EncodeText(a) + x;
    assert s[..8] == LittleEndian(|a|, 8) && s[..8] == LittleEndian(|b|, 8);
    Pow256Values();
    LittleEndianInjective(|a|, |b|, 8);
    assert s[8..8 + |a|] == a && s[8..8 + |a|] == b && s[8 + |a|..] == x && s[8 + |a|..] == y;
  }

  lemma ConcatAssociates(a: bytes, b: bytes, c: bytes)
    ensures a + b + c == a + (b + c)
  {
  }

  lemma {:induction false} EncodeLabelSplits(a: Label, b: Label, x: bytes, y: bytes)
    requires Encodable(a) && Encodable(b) && EncodeLabel(a) + x == EncodeLabel(b) + y
    ensures a == b && x == y
  {
    ConcatAssociates(EncodeText(a.name), EncodeText(a.value), x);
    ConcatAssociates(EncodeText(b.name), EncodeText(b.value), y);
    EncodeTextSplits(a.name, b.name, EncodeText(a.value) + x, EncodeText(b.value) + y);
    EncodeTextSplits(a.value, b.value, x, y);
  }

  /** Different label lists never feed the same bytes to the hash. */
  lemma EncodeIsInjective(a: seq<Label>, b: seq<Label>)
    requires (forall l :: l in a ==> Encodable(l)) && (forall l :: l in b ==> Encodable(l))
    requires Encode(a) == Encode(b)
    ensures a == b
  {
    LabelsAreSelfDelimiting();
    EncodeManyInjective(EncodeLabel, Encodable, a, b);
  }

  lemma LabelsAreSelfDelimiting()
    ensures SelfDelimiting(EncodeLabel, Encodable)
  {
    forall x, y, a, b {:trigger EncodeLabel(x) + a, EncodeLabel(y) + b}
      | Encodable(x) && Encodable(y) && EncodeLabel(x) + a == EncodeLabel(y) + b
      ensures x == y && a == b
    {
      EncodeLabelSplits(x, y, a, b);
    }
  }

  // ---- FNV-1a ----

  const FNV_OFFSET: nat := 0xcbf2_9ce4_8422_2325
  const FNV_PRIME: nat := 0x0000_0100_0000_01b3

  /** The inverse of the prime modulo 2^64. */
  const FNV_INVERSE: nat := 0xce96_5057_aff6_957b

  function Mix(hash: nat, b: byte): nat { Xor(hash, b) * FNV_PRIME % U64_LIMIT }

  function Fnv(hash: nat, s: bytes): nat
    decreases |s|
  {
    if s == [] then hash else Fnv(Mix(hash, s[0]), s[1..])
  }

  lemma {:induction false} FnvConcat(hash: nat, s: bytes, t: bytes)
    ensures Fnv(hash, s + t) == Fnv(Fnv(hash, s), t)
    decreases |s|
  {
    if s == [] {
      assert s + t == t;
    } else {
      FnvConcat(Mix(hash, s[0]), s[1..], t);
      assert (s + t)[1..] == s[1..] + t;
    }
  }

  /** How often 2^64 fits into the prime times its inverse. */
  const FNV_QUOTIENT: nat := 887285111055

  lemma TimesPrimeTimesInverse(x: int, q: int, r: int)
    requires x * FNV_PRIME == q * U64_LIMIT + r
    ensures r * FNV_INVERSE == x + (FNV_QUOTIENT * x - FNV_INVERSE * q) * U64_LIMIT
  {
    assert FNV_PRIME * FNV_INVERSE == 1 + FNV_QUOTIENT * U64_LIMIT;
  }

  lemma RemainderOf(x: nat, k: int)
    requires x < U64_LIMIT
    ensures (x + k * U64_LIMIT) % U64_LIMIT == x
  {
  }

  lemma TimesInverse(x: nat)
    requires x < U64_LIMIT
    ensures (x * FNV_PRIME % U64_LIMIT) * FNV_INVERSE % U64_LIMIT == x
  {
    var q, r := x * FNV_PRIME / U64_LIMIT, x * FNV_PRIME % U64_LIMIT;
    TimesPrimeTimesInverse(x, q, r);
    RemainderOf(x, FNV_QUOTIENT * x - FNV_INVERSE * q);
  }

  lemma {:induction false} BitSum(a: nat, b: nat)
    ensures Bit(a + b) == Bit(a) * Bit(b)
  {
    if b > 0 {
      BitSum(a, b - 1);
    }
  }

  lemma Bit64()
    ensures Bit(8) == 256 && Bit(64) == U64_LIMIT
  {
    assert Bit(4) == 16;
    BitSum(4, 4);
    BitSum(8, 8);
    BitSum(16, 16);
    BitSum(32, 32);
  }

  /** The hash before a byte can be recovered from the hash after it, and so can the byte. */
  lemma MixIsBijective(h: nat, h': nat, b: byte, b': byte)
    requires h < U64_LIMIT && h' < U64_LIMIT
    ensures Mix(h, b) == Mix(h', b) ==> h == h'
    ensures Mix(h, b) == Mix(h, b') ==> b == b'
  {
    Bit64();
    BelowBit(h, b, 64);
    BelowBit(h', b, 64);
    BelowBit(h, b', 64);
    TimesInverse(Xor(h, b));
    TimesInverse(Xor(h', b));
    TimesInverse(Xor(h, b'));
    XorTwice(h, b);
    XorTwice(h', b);
    XorSymmetric(h, b);
    XorSymmetric(h, b');
    XorTwice(b, h);
    XorTwice(b', h);
  }

  lemma {:induction false} HashesStayApart(h: nat, h': nat, s: bytes)
    requires h < U64_LIMIT && h' < U64_LIMIT && h != h'
    ensures Fnv(h, s) != Fnv(h', s)
    decreases |s|
  {
    if s != [] {
      MixIsBijective(h, h', s[0], s[0]);
      HashesStayApart(Mix(h, s[0]), Mix(h', s[0]), s[1..]);
    }
  }

  /** Texts of the same length that differ in exactly one byte never share a hash. */
  lemma {:induction false} OneByteChangesHash(h: nat, s: bytes, t: bytes, i: nat)
    requires h < U64_LIMIT && |s| == |t| && i < |s| && s[i] != t[i]
    requires forall j :: 0 <= j < |s| && j != i ==> s[j] == t[j]
    ensures Fnv(h, s) != Fnv(h, t)
    decreases |s|
  {
    if i == 0 {
      assert s[1..] == t[1..];
      MixIsBijective(h, h, s[0], t[0]);
      HashesStayApart(Mix(h, s[0]), Mix(h, t[0]), s[1..]);
    } else {
      OneByteChangesHash(Mix(h, s[0]), s[1..], t[1..], i - 1);
    }
  }
}
