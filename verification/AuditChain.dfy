/** The per-broker hash chain of crates/audit/src/chain.rs. SHA-256 (FIPS 180-4) is a
    parameter: every statement holds for every function from bytes to 32-byte heads. */
module AuditChain {
  import opened Bytes

  type Head = b: bytes | |b| == 32
    witness [0, 0, 0, 0, 0, 0, 0, 0, 0, 0, 0, 0, 0, 0, 0, 0, 0, 0, 0, 0, 0, 0, 0, 0, 0, 0, 0, 0, 0, 0, 0, 0]

  type Sha256 = bytes -> Head

  const GENESIS_HEAD: Head :=
    [0, 0, 0, 0, 0, 0, 0, 0, 0, 0, 0, 0, 0, 0, 0, 0, 0, 0, 0, 0, 0, 0, 0, 0, 0, 0, 0, 0, 0, 0, 0, 0]

  /** What is hashed for one record: previous head, big-endian sequence number, value. */
  function ChainPreimage(prev: Head, seqNo: nat, value: bytes): bytes
  {
    prev + BigEndian(seqNo, 8) + value
  }

  function ChainHash(sha: Sha256, prev: Head, seqNo: nat, value: bytes): Head
  {
    sha(ChainPreimage(prev, seqNo, value))
  }

  /** A chain position: the next sequence number and the head before it. */
  datatype Chain = Chain(nextSeq: nat, head: Head)

  const GENESIS: Chain := Chain(0, GENESIS_HEAD)

  function Extend(sha: Sha256, c: Chain, value: bytes): Chain
  {
    Chain(c.nextSeq + 1, ChainHash(sha, c.head, c.nextSeq, value))
  }

  /** The position after chaining `values` in order. */
  function Fold(sha: Sha256, c: Chain, values: seq<bytes>): Chain
  {
    if values == [] then c
    else Extend(sha, Fold(sha, c, values[..|values| - 1]), values[|values| - 1])
  }

  /** The last item of `xs` for which `f` yields a position: Rust's `iter().rev().find_map(f)`. */
  function LastPosition<T>(f: T -> Option<Chain>, xs: seq<T>): Option<Chain>
  {
    if xs == [] then None
    else match f(xs[|xs| - 1])
      case Some(c) => Some(c)
      case None => LastPosition(f, xs[..|xs| - 1])
  }

  lemma {:induction false} LastPositionAt<T>(f: T -> Option<Chain>, xs: seq<T>, t: nat)
    requires t < |xs| && f(xs[t]).Some?
    requires forall i :: t < i < |xs| ==> f(xs[i]).None?
    ensures LastPosition(f, xs) == f(xs[t])
  {
    if t + 1 < |xs| {
      LastPositionAt(f, xs[..|xs| - 1], t);
    }
  }

  lemma {:induction false} LastPositionNone<T>(f: T -> Option<Chain>, xs: seq<T>)
    requires forall i :: 0 <= i < |xs| ==> f(xs[i]).None?
    ensures LastPosition(f, xs).None?
  {
    if xs != [] {
      LastPositionNone(f, xs[..|xs| - 1]);
    }
  }

  lemma {:induction false} FoldCounts(sha: Sha256, c: Chain, values: seq<bytes>)
    ensures Fold(sha, c, values).nextSeq == c.nextSeq + |values|
  {
    if values != [] {
      FoldCounts(sha, c, values[..|values| - 1]);
    }
  }

  class ChainState {
    var nextSeq: nat
    var head: Head

    ghost function Position(): Chain reads this { Chain(nextSeq, head) }

    constructor Resume(nextSeq: nat, head: Head)
      ensures Position() == Chain(nextSeq, head)
    {
      this.nextSeq, this.head := nextSeq, head;
    }

    /** Returns the pair to stamp on the record and moves past it. */
    method ExtendWith(sha: Sha256, value: bytes) returns (seqNo: nat, prev: Head)
      modifies this
      ensures Chain(seqNo, prev) == old(Position())
      ensures Position() == Extend(sha, old(Position()), value)
    {
      seqNo, prev := nextSeq, head;
      head := ChainHash(sha, prev, seqNo, value);
      nextSeq := nextSeq + 1;
    }
  }

  // ---- The head commits to the whole history ----

  lemma PreimageInjective(prev: Head, seqNo: nat, value: bytes, prev': Head, seqNo': nat, value': bytes)
    requires seqNo < U64_LIMIT && seqNo' < U64_LIMIT
    requires ChainPreimage(prev, seqNo, value) == ChainPreimage(prev', seqNo', value')
    ensures prev == prev' && seqNo == seqNo' && value == value'
  {
    var p, p' := ChainPreimage(prev, seqNo, value), ChainPreimage(prev', seqNo', value');
    assert p[..32] == prev && p'[..32] == prev';
    assert p[32..40] == BigEndian(seqNo, 8) && p'[32..40] == BigEndian(seqNo', 8);
    assert p[40..] == value && p'[40..] == value';
    Pow256Values();
    BigEndianInjective(seqNo, seqNo', 8);
  }

  /** What was hashed last to reach the head of a history. */
  function LastPreimage(sha: Sha256, values: seq<bytes>): bytes
    requires values != []
  {
    var n := |values| - 1;
    ChainPreimage(Fold(sha, GENESIS, values[..n]).head, n, values[n])
  }

  lemma HeadIsLastHash(sha: Sha256, values: seq<bytes>)
    requires values != []
    ensures Fold(sha, GENESIS, values).head == sha(LastPreimage(sha, values))
  {
    FoldCounts(sha, GENESIS, values[..|values| - 1]);
  }

  lemma LastPreimageInjective(sha: Sha256, u: seq<bytes>, v: seq<bytes>)
    requires u != [] && v != [] && |u| <= U64_LIMIT && |v| <= U64_LIMIT
    requires LastPreimage(sha, u) == LastPreimage(sha, v)
    ensures |u| == |v| && u[|u| - 1] == v[|v| - 1]
    ensures Fold(sha, GENESIS, u[..|u| - 1]).head == Fold(sha, GENESIS, v[..|v| - 1]).head
  {
    var m, n := |u| - 1, |v| - 1;
    PreimageInjective(Fold(sha, GENESIS, u[..m]).head, m, u[m], Fold(sha, GENESIS, v[..n]).head, n, v[n]);
  }

  lemma PrefixOfPrefix(u: seq<bytes>, m: nat, n: nat)
    requires n <= m <= |u|
    ensures u[..m][..n] == u[..n]
  {
  }

  /** Two different histories, neither empty, that reach the same head contain a SHA-256
      collision, and the lemma hands it over: `x` and `y` were both hashed while building these
      histories, after the first `i` values of one and the first `j` of the other. */
  lemma {:induction false} SameHeadGivesCollision(sha: Sha256, u: seq<bytes>, v: seq<bytes>)
    returns (i: nat, j: nat, x: bytes, y: bytes)
    requires u != v && u != [] && v != [] && |u| <= U64_LIMIT && |v| <= U64_LIMIT
    requires Fold(sha, GENESIS, u).head == Fold(sha, GENESIS, v).head
    ensures i < |u| && x == LastPreimage(sha, u[..i + 1])
    ensures j < |v| && y == LastPreimage(sha, v[..j + 1])
    ensures x != y && sha(x) == sha(y)
    decreases |u|
  {
    i, j, x, y := |u| - 1, |v| - 1, LastPreimage(sha, u), LastPreimage(sha, v);
    HeadIsLastHash(sha, u);
    HeadIsLastHash(sha, v);
    assert u[..i + 1] == u && v[..j + 1] == v;
    if x == y {
      LastPreimageInjective(sha, u, v);
      var m, n := i, j;
      i, j, x, y := SameHeadGivesCollision(sha, u[..m], v[..n]);
      PrefixOfPrefix(u, m, i + 1);
      PrefixOfPrefix(v, n, j + 1);
    }
  }

  // ---- Hex text of heads ----

  function FromHex32(s: bytes): Option<Head>
  {
    if |s| != 64 then None
    else match Unhex(s)
      case Some(b) => (UnhexLength(s); Some(b))
      case None => None
  }

  lemma {:induction false} UnhexLength(s: bytes)
    requires |s| % 2 == 0
    ensures Unhex(s).Some? ==> |Unhex(s).value| * 2 == |s|
  {
    if s != [] {
      UnhexLength(s[2..]);
    }
  }

  lemma FromHex32Hex(h: Head)
    ensures FromHex32(Hex(h)) == Some(h)
    ensures ValidUtf8(Hex(h))
  {
    UnhexHex(h);
    AsciiIsUtf8(Hex(h));
  }

  method EncodeHex(b: bytes) returns (s: bytes)
    ensures s == Hex(b)
  {
    s := [];
    for i := 0 to |b|
      invariant s + Hex(b[i..]) == Hex(b)
    {
      assert b[i..][0] == b[i] && b[i..][1..] == b[i + 1..];
      s := s + [HexChar(b[i] / 16), HexChar(b[i] % 16)];
    }
  }

  /** One step of the decoding loop: what two characters contribute. */
  lemma UnhexStep(s: bytes, k: nat)
    requires |s| % 2 == 0 && k % 2 == 0 && k + 2 <= |s|
    ensures Unhex(s[k..]) == match (HexValue(s[k]), HexValue(s[k + 1]), Unhex(s[k + 2..]))
      case (Some(hi), Some(lo), Some(rest)) => Some([hi * 16 + lo] + rest)
      case _ => None
  {
    assert s[k..][2..] == s[k + 2..];
  }

  /** `out` are the bytes of the first `k` characters, and the rest decides the result. */
  ghost predicate Decoding(s: bytes, k: nat, out: bytes)
  {
    && k <= |s| && k % 2 == 0 && |s| % 2 == 0 && Unhex(s).Some? == Unhex(s[k..]).Some?
    && (Unhex(s).Some? ==> Unhex(s).value == out + Unhex(s[k..]).value)
  }

  /** `Decoding`, sealed: the verifier opens it only where a lemma mentions `Decoding`. */
  ghost predicate Decoded(s: bytes, k: nat, out: bytes)
  {
    forall t {:trigger Decoding(t, k, out)} :: t == s ==> Decoding(t, k, out)
  }

  lemma {:induction false} DecodingStart(s: bytes)
    requires |s| % 2 == 0
    ensures Decoded(s, 0, [])
  {
    assert s[0..] == s;
    if Unhex(s).Some? {
      assert [] + Unhex(s).value == Unhex(s).value;
    }
    assert Decoding(s, 0, []);
  }

  lemma {:induction false} DecodingEnd(s: bytes, out: bytes)
    requires |s| % 2 == 0 && Decoded(s, |s|, out)
    ensures Unhex(s) == Some(out)
  {
    assert Decoding(s, |s|, out);
    assert s[|s|..] == [] && out + [] == out;
  }

  lemma {:induction false} DecodingStep(s: bytes, k: nat, out: bytes)
    requires |s| % 2 == 0 && Decoded(s, k, out) && k < |s|
    ensures k + 1 < |s|
    ensures HexValue(s[k]).None? || HexValue(s[k + 1]).None? ==> Unhex(s).None?
    ensures HexValue(s[k]).Some? && HexValue(s[k + 1]).Some? ==>
              Decoded(s, k + 2, out + [HexValue(s[k]).value * 16 + HexValue(s[k + 1]).value])
  {
    assert Decoding(s, k, out);
    UnhexStep(s, k);
    if HexValue(s[k]).Some? && HexValue(s[k + 1]).Some? {
      var b := HexValue(s[k]).value * 16 + HexValue(s[k + 1]).value;
      if Unhex(s).Some? {
        assert out + ([b] + Unhex(s[k + 2..]).value) == out + [b] + Unhex(s[k + 2..]).value;
      }
      assert Decoding(s, k + 2, out + [b]);
    }
  }

  method DecodePairs(s: bytes) returns (r: Option<bytes>)
    requires |s| % 2 == 0
    ensures r == Unhex(s)
  {
    var out: bytes := [];
    var k := 0;
    DecodingStart(s);
    while k < |s|
      invariant 0 <= k <= |s| && Decoded(s, k, out)
    {
      DecodingStep(s, k, out);
      var hi, lo := HexValue(s[k]), HexValue(s[k + 1]);
      if hi.None? || lo.None? {
        return None;
      }
      out := out + [hi.value * 16 + lo.value];
      k := k + 2;
    }
    DecodingEnd(s, out);
    return Some(out);
  }

  method DecodeHex32(s: bytes) returns (r: Option<Head>)
    ensures r == FromHex32(s)
  {
    if |s| != 64 {
      return None;
    }
    var pairs := DecodePairs(s);
    UnhexLength(s);
    r := if pairs.Some? then Some(pairs.value) else None;
  }
}
