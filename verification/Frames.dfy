/** Length-prefixed byte strings, `[u32 big-endian length][body]`. */
module Frames {
  import opened Bytes

  function PutBytes(b: bytes): (f: bytes)
    ensures |f| == 4 + |b|
  {
    BigEndian(|b|, 4) + b
  }

  function TakeU32(b: bytes): Option<(nat, bytes)>
  {
    if |b| < 4 then None else Some((FromBigEndian(b[..4]), b[4..]))
  }

  function TakeBytes(b: bytes): (r: Option<(bytes, bytes)>)
    ensures r.Some? ==> |r.value.0| + |r.value.1| == |b| - 4
  {
    match TakeU32(b)
    case None => None
    case Some((len, rest)) => if |rest| < len then None else Some((rest[..len], rest[len..]))
  }

  lemma TakePutU32(n: nat, rest: bytes)
    requires n < U32_LIMIT
    ensures TakeU32(BigEndian(n, 4) + rest) == Some((n, rest))
  {
    var b := BigEndian(n, 4) + rest;
    Pow256Values();
    BigEndianRoundTrip(n, 4);
    assert b[..4] == BigEndian(n, 4) && b[4..] == rest;
  }

  lemma PutTakeU32(b: bytes)
    ensures TakeU32(b).Some? ==>
              && TakeU32(b).value.0 < U32_LIMIT
              && b == BigEndian(TakeU32(b).value.0, 4) + TakeU32(b).value.1
  {
    if |b| >= 4 {
      Pow256Values();
      FromBigEndianRoundTrip(b[..4]);
      assert b == b[..4] + b[4..];
    }
  }

  lemma TakePutBytes(x: bytes, rest: bytes)
    requires |x| < U32_LIMIT
    ensures TakeBytes(PutBytes(x) + rest) == Some((x, rest))
  {
    assert PutBytes(x) + rest == BigEndian(|x|, 4) + (x + rest);
    TakePutU32(|x|, x + rest);
    assert (x + rest)[..|x|] == x && (x + rest)[|x|..] == rest;
  }

  lemma PutTakeBytes(b: bytes)
    ensures TakeBytes(b).Some? ==>
              && |TakeBytes(b).value.0| < U32_LIMIT
              && b == PutBytes(TakeBytes(b).value.0) + TakeBytes(b).value.1
  {
    PutTakeU32(b);
  }

  /** More bytes after a complete frame do not change how it is read. */
  lemma TakeBytesStable(b: bytes, more: bytes)
    requires TakeBytes(b).Some?
    ensures TakeBytes(b + more) == Some((TakeBytes(b).value.0, TakeBytes(b).value.1 + more))
  {
    var (x, rest) := TakeBytes(b).value;
    PutTakeBytes(b);
    TakePutBytes(x, rest + more);
    assert b + more == PutBytes(x) + (rest + more);
  }

  lemma TakeTornBytes(x: bytes, torn: bytes)
    requires |x| < U32_LIMIT && torn <= PutBytes(x) && torn != PutBytes(x)
    ensures TakeBytes(torn).None?
  {
    if TakeBytes(torn).Some? {
      var missing := PutBytes(x)[|torn|..];
      TakeBytesStable(torn, missing);
      assert torn + missing == PutBytes(x) == PutBytes(x) + [];
      TakePutBytes(x, []);
    }
  }
}

/** A known number of items, one after another. */
module Repeated {
  import opened Bytes

  type Take<!T> = bytes -> Option<(T, bytes)>

  function EncodeMany<T>(put: T -> bytes, xs: seq<T>): bytes
  {
    if xs == [] then [] else put(xs[0]) + EncodeMany(put, xs[1..])
  }

  function DecodeMany<T>(take: Take<T>, count: nat, b: bytes): Option<seq<T>>
  {
    if count == 0 then Some([])
    else match take(b)
      case None => None
      case Some((x, rest)) =>
        match DecodeMany(take, count - 1, rest)
        case None => None
        case Some(xs) => Some([x] + xs)
  }

  lemma {:induction false} DecodeEncodeMany<T>(take: Take<T>, put: T -> bytes, xs: seq<T>, tail: bytes)
    requires forall i, rest {:trigger put(xs[i]) + rest} :: 0 <= i < |xs| ==> take(put(xs[i]) + rest) == Some((xs[i], rest))
    ensures DecodeMany(take, |xs|, EncodeMany(put, xs) + tail) == Some(xs)
  {
    if xs != [] {
      var rest := EncodeMany(put, xs[1..]) + tail;
      assert EncodeMany(put, xs) + tail == put(xs[0]) + rest;
      forall i, r {:trigger put(xs[1..][i]) + r} | 0 <= i < |xs[1..]|
        ensures take(put(xs[1..][i]) + r) == Some((xs[1..][i], r))
      {
        assert xs[1..][i] == xs[i + 1];
      }
      DecodeEncodeMany(take, put, xs[1..], tail);
      assert [xs[0]] + xs[1..] == xs;
    }
  }

  ghost predicate Inverts<T(!new)>(take: Take<T>, put: T -> bytes)
  {
    forall b :: take(b).Some? ==> b == put(take(b).value.0) + take(b).value.1
  }

  lemma {:induction false} EncodeDecodedMany<T(!new)>(take: Take<T>, put: T -> bytes, count: nat, b: bytes)
    requires Inverts(take, put) && DecodeMany(take, count, b).Some?
    ensures |DecodeMany(take, count, b).value| == count
    ensures EncodeMany(put, DecodeMany(take, count, b).value) <= b
  {
    if count > 0 {
      var (x, rest) := take(b).value;
      EncodeDecodedMany(take, put, count - 1, rest);
      var xs := DecodeMany(take, count - 1, rest).value;
      assert ([x] + xs)[1..] == xs;
      assert put(x) + EncodeMany(put, xs) <= put(x) + rest;
    }
  }

  /** Two items, each followed by anything, encode alike only if they and what follows are equal. */
  ghost predicate SelfDelimiting<T(!new)>(put: T -> bytes, ok: T -> bool)
  {
    forall x, y, a, b {:trigger put(x) + a, put(y) + b} ::
      ok(x) && ok(y) && put(x) + a == put(y) + b ==> x == y && a == b
  }

  lemma {:induction false} EncodeManyInjective<T(!new)>(put: T -> bytes, ok: T -> bool, xs: seq<T>, ys: seq<T>)
    requires SelfDelimiting(put, ok) && forall x :: ok(x) ==> put(x) != []
    requires (forall x :: x in xs ==> ok(x)) && (forall y :: y in ys ==> ok(y))
    requires EncodeMany(put, xs) == EncodeMany(put, ys)
    ensures xs == ys
  {
    if xs != [] && ys != [] {
      assert put(xs[0]) + EncodeMany(put, xs[1..]) == put(ys[0]) + EncodeMany(put, ys[1..]);
      EncodeManyInjective(put, ok, xs[1..], ys[1..]);
      assert xs == [xs[0]] + xs[1..] && ys == [ys[0]] + ys[1..];
    }
  }

  /** What every single item satisfies, all decoded items satisfy. */
  lemma {:induction false} DecodedSatisfy<T(!new)>(take: Take<T>, good: T -> bool, count: nat, b: bytes)
    requires forall b' :: take(b').Some? ==> good(take(b').value.0)
    requires DecodeMany(take, count, b).Some?
    ensures forall i :: 0 <= i < |DecodeMany(take, count, b).value| ==> good(DecodeMany(take, count, b).value[i])
  {
    if count > 0 {
      DecodedSatisfy(take, good, count - 1, take(b).value.1);
    }
  }

  method EncodeLoop<T>(put: T -> bytes, xs: seq<T>) returns (b: bytes)
    ensures b == EncodeMany(put, xs)
  {
    b := [];
    assert xs[0..] == xs;
    for i := 0 to |xs|
      invariant b + EncodeMany(put, xs[i..]) == EncodeMany(put, xs)
    {
      assert xs[i..][0] == xs[i] && xs[i..][1..] == xs[i + 1..];
      b := b + put(xs[i]);
    }
  }

  method DecodeLoop<T>(take: Take<T>, count: nat, b: bytes) returns (xs: Option<seq<T>>)
    ensures xs == DecodeMany(take, count, b)
  {
    var out: seq<T> := [];
    var cur := b;
    ghost var rest := DecodeMany(take, count, b);
    for i := 0 to count
      invariant rest == DecodeMany(take, count - i, cur)
      invariant DecodeMany(take, count, b).Some? == rest.Some?
      invariant rest.Some? ==> DecodeMany(take, count, b).value == out + rest.value
    {
      var next := take(cur);
      if next.None? {
        return None;
      }
      out := out + [next.value.0];
      cur := next.value.1;
      rest := DecodeMany(take, count - i - 1, cur);
    }
    assert DecodeMany(take, count, b).value == out + [] == out;
    return Some(out);
  }
}
