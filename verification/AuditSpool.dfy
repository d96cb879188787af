/** The audit record codec of the spool file and the chain position read back from it
    (crates/audit/src/spool.rs). */
module AuditSpool {
  import opened Bytes
  import opened Frames
  import opened Repeated
  import opened SpoolFiles
  import opened AuditChain
  import opened AuditRecords

  // ---- Encoding ----

  function PutHeader(h: (bytes, bytes)): (b: bytes)
    ensures |b| == 8 + |h.0| + |h.1|
  {
    PutBytes(h.0) + PutBytes(h.1)
  }

  function EncodeHeaders(hs: Headers): bytes { EncodeMany(PutHeader, hs) }

  function EncodeRecord(r: AuditRecord): bytes
  {
    [ClassTag(r.kind)] + PutBytes(r.value) + BigEndian(|r.headers|, 4) + EncodeHeaders(r.headers)
  }

  function EncodeFrame(r: AuditRecord): bytes { PutBytes(EncodeRecord(r)) }

  predicate HeaderNamesAreText(hs: Headers) { forall i :: 0 <= i < |hs| ==> ValidUtf8(hs[i].0) }

  /** The record is a Rust value (its header names are strings) and its frame length fits the
      32-bit field, without which `encode_frame` panics. */
  predicate Encodable(r: AuditRecord)
  {
    |EncodeRecord(r)| < U32_LIMIT && HeaderNamesAreText(r.headers)
  }

  // ---- Decoding ----

  function TakeHeader(b: bytes): Option<((bytes, bytes), bytes)>
  {
    match TakeBytes(b)
    case None => None
    case Some((k, afterKey)) =>
      match TakeBytes(afterKey)
      case None => None
      case Some((v, rest)) => if ValidUtf8(k) then Some(((k, v), rest)) else None
  }

  function DecodeAfterValue(kind: EventClass, value: bytes, b: bytes): Option<AuditRecord>
  {
    match TakeU32(b)
    case None => None
    case Some((count, rest)) =>
      match DecodeMany(TakeHeader, count, rest)
      case None => None
      case Some(hs) => Some(AuditRecord(kind, value, hs))
  }

  function DecodeAfterClass(kind: EventClass, b: bytes): Option<AuditRecord>
  {
    match TakeBytes(b)
    case None => None
    case Some((value, rest)) => DecodeAfterValue(kind, value, rest)
  }

  function DecodeRecord(b: bytes): Option<AuditRecord>
  {
    if b == [] || ClassFromTag(b[0]).None? then None else DecodeAfterClass(ClassFromTag(b[0]).value, b[1..])
  }

  // ---- Record codec round trips ----

  lemma ConcatLaws(a: bytes, b: bytes, c: bytes)
    ensures a + [] == a
    ensures a + b + c == a + (b + c)
  {
  }

  lemma TakePutHeader(h: (bytes, bytes), rest: bytes)
    requires |h.0| < U32_LIMIT && |h.1| < U32_LIMIT && ValidUtf8(h.0)
    ensures TakeHeader(PutHeader(h) + rest) == Some((h, rest))
  {
    TakePutBytes(h.0, PutBytes(h.1) + rest);
    TakePutBytes(h.1, rest);
    ConcatLaws(PutBytes(h.0), PutBytes(h.1), rest);
  }

  lemma PutTakeHeader(b: bytes)
    requires TakeHeader(b).Some?
    ensures b == PutHeader(TakeHeader(b).value.0) + TakeHeader(b).value.1
    ensures ValidUtf8(TakeHeader(b).value.0.0)
  {
    var (k, afterKey) := TakeBytes(b).value;
    var (v, rest) := TakeBytes(afterKey).value;
    PutTakeBytes(b);
    PutTakeBytes(afterKey);
    ConcatLaws(PutBytes(k), PutBytes(v), rest);
  }

  lemma {:induction false} EncodeHeadersBounds(hs: Headers)
    ensures |hs| <= |EncodeHeaders(hs)|
    ensures forall i :: 0 <= i < |hs| ==> |hs[i].0| + |hs[i].1| <= |EncodeHeaders(hs)|
  {
    if hs != [] {
      EncodeHeadersBounds(hs[1..]);
      forall i | 0 <= i < |hs| ensures |hs[i].0| + |hs[i].1| <= |EncodeHeaders(hs)| {
        assert i > 0 ==> hs[i] == hs[1..][i - 1];
      }
    }
  }

  lemma DecodeEncodeAfterValue(kind: EventClass, value: bytes, hs: Headers, tail: bytes)
    requires HeaderNamesAreText(hs) && |EncodeHeaders(hs)| < U32_LIMIT
    ensures DecodeAfterValue(kind, value, BigEndian(|hs|, 4) + (EncodeHeaders(hs) + tail)) ==
            Some(AuditRecord(kind, value, hs))
  {
    EncodeHeadersBounds(hs);
    TakePutU32(|hs|, EncodeHeaders(hs) + tail);
    forall i, rest {:trigger PutHeader(hs[i]) + rest} | 0 <= i < |hs|
      ensures TakeHeader(PutHeader(hs[i]) + rest) == Some((hs[i], rest))
    {
      TakePutHeader(hs[i], rest);
    }
    DecodeEncodeMany(TakeHeader, PutHeader, hs, tail);
  }

  lemma DecodePutValue(kind: EventClass, value: bytes, rest: bytes)
    requires |value| < U32_LIMIT
    ensures DecodeAfterClass(kind, PutBytes(value) + rest) == DecodeAfterValue(kind, value, rest)
  {
    TakePutBytes(value, rest);
  }

  lemma RecordLayout(tag: byte, value: bytes, count: bytes, headers: bytes, tail: bytes)
    ensures var b := [tag] + value + count + headers + tail;
            b[0] == tag && b[1..] == value + (count + (headers + tail))
  {
  }

  lemma DecodeRecordAt(b: bytes, kind: EventClass, after: bytes)
    requires b != [] && b[0] == ClassTag(kind) && b[1..] == after
    ensures DecodeRecord(b) == DecodeAfterClass(kind, after)
  {
  }

  lemma DecodeParts(r: AuditRecord, after: bytes, tail: bytes)
    requires Encodable(r) && after == BigEndian(|r.headers|, 4) + (EncodeHeaders(r.headers) + tail)
    ensures DecodeAfterClass(r.kind, PutBytes(r.value) + after) == Some(r)
  {
    DecodeEncodeAfterValue(r.kind, r.value, r.headers, tail);
    DecodePutValue(r.kind, r.value, after);
  }

  /** Decoding an encoded record gives the record back, whatever follows it. */
  lemma DecodeEncodeRecord(r: AuditRecord, tail: bytes)
    requires Encodable(r)
    ensures DecodeRecord(EncodeRecord(r) + tail) == Some(r)
  {
    var after := BigEndian(|r.headers|, 4) + (EncodeHeaders(r.headers) + tail);
    RecordLayout(ClassTag(r.kind), PutBytes(r.value), BigEndian(|r.headers|, 4), EncodeHeaders(r.headers), tail);
    DecodeRecordAt(EncodeRecord(r) + tail, r.kind, PutBytes(r.value) + after);
    DecodeParts(r, after, tail);
  }

  lemma EncodeDecodedAfterValue(kind: EventClass, value: bytes, b: bytes)
    requires DecodeAfterValue(kind, value, b).Some?
    ensures var r := DecodeAfterValue(kind, value, b).value;
            && r.kind == kind && r.value == value && HeaderNamesAreText(r.headers)
            && BigEndian(|r.headers|, 4) + EncodeHeaders(r.headers) <= b
  {
    var (count, rest) := TakeU32(b).value;
    PutTakeU32(b);
    forall b' | TakeHeader(b').Some?
      ensures b' == PutHeader(TakeHeader(b').value.0) + TakeHeader(b').value.1
      ensures ValidUtf8(TakeHeader(b').value.0.0)
    {
      PutTakeHeader(b');
    }
    EncodeDecodedMany(TakeHeader, PutHeader, count, rest);
    DecodedSatisfy(TakeHeader, (h: (bytes, bytes)) => ValidUtf8(h.0), count, rest);
  }

  lemma RecordPrefix(b: bytes, value: bytes, count: bytes, headers: bytes, rest: bytes)
    requires b != [] && b[1..] == value + rest && count + headers <= rest
    ensures [b[0]] + value + count + headers <= b
  {
    assert b == [b[0]] + value + rest;
    assert rest == count + headers + rest[|count + headers|..];
  }

  lemma DecodedInParts(b: bytes)
    requires DecodeRecord(b).Some?
    ensures b != [] && ClassFromTag(b[0]).Some? && TakeBytes(b[1..]).Some?
    ensures var kind, (value, rest) := ClassFromTag(b[0]).value, TakeBytes(b[1..]).value;
            DecodeAfterValue(kind, value, rest) == DecodeRecord(b) && ClassTag(kind) == b[0]
  {
  }

  /** Whatever decodes is encodable, and its encoding is the front of the bytes it came from. */
  lemma EncodeDecodedRecord(b: bytes)
    requires DecodeRecord(b).Some?
    ensures EncodeRecord(DecodeRecord(b).value) <= b
    ensures |b| < U32_LIMIT ==> Encodable(DecodeRecord(b).value)
  {
    DecodedInParts(b);
    var r := DecodeRecord(b).value;
    var kind := ClassFromTag(b[0]).value;
    var (value, rest) := TakeBytes(b[1..]).value;
    EncodeDecodedAfterValue(kind, value, rest);
    assert b[1..] == PutBytes(value) + rest by {
      PutTakeBytes(b[1..]);
    }
    RecordPrefix(b, PutBytes(value), BigEndian(|r.headers|, 4), EncodeHeaders(r.headers), rest);
  }

  // ---- The codec of the spool file ----

  function NextRecord(cur: bytes): Option<(AuditRecord, nat)>
  {
    match TakeBytes(cur)
    case None => None
    case Some((body, _)) =>
      match DecodeRecord(body)
      case None => None
      case Some(r) => Some((r, 4 + |body|))
  }

  function AuditCodec(): Codec<AuditRecord> { Codec(Encodable, EncodeFrame, NextRecord) }

  lemma NextOfFrame(body: bytes, more: bytes)
    requires |body| < U32_LIMIT
    ensures NextRecord(PutBytes(body) + more) ==
            if DecodeRecord(body).None? then None else Some((DecodeRecord(body).value, 4 + |body|))
  {
    TakePutBytes(body, more);
  }

  lemma NextStands(b: bytes, more: bytes)
    requires NextRecord(b).Some?
    ensures 0 < NextRecord(b).value.1 <= |b| && NextRecord(b + more) == NextRecord(b)
  {
    TakeBytesStable(b, more);
  }

  lemma {:induction false} NextOfDecoded(body: bytes, frame: bytes, r: AuditRecord)
    requires |body| < U32_LIMIT && frame == PutBytes(body) && DecodeRecord(body) == Some(r)
    ensures NextRecord(frame) == Some((r, |frame|))
  {
    NextOfFrame(body, []);
    ConcatLaws(frame, [], []);
  }

  lemma DecodeEncoded(r: AuditRecord)
    requires Encodable(r)
    ensures DecodeRecord(EncodeRecord(r)) == Some(r)
  {
    DecodeEncodeRecord(r, []);
    ConcatLaws(EncodeRecord(r), [], []);
  }

  lemma {:induction false} NextReadsBack(r: AuditRecord)
    requires Encodable(r)
    ensures NextRecord(EncodeFrame(r)) == Some((r, |EncodeFrame(r)|))
  {
    DecodeEncoded(r);
    NextOfDecoded(EncodeRecord(r), EncodeFrame(r), r);
  }

  lemma NextNeedsOnlyTheFrame(b: bytes)
    requires NextRecord(b).Some?
    ensures var (r, n) := NextRecord(b).value;
            0 < n <= |b| && Encodable(r) && NextRecord(b[..n]) == NextRecord(b)
  {
    var (body, rest) := TakeBytes(b).value;
    PutTakeBytes(b);
    EncodeDecodedRecord(body);
    NextOfFrame(body, []);
    assert b[..4 + |body|] == PutBytes(body) + [];
  }

  lemma AuditCodecIsLawful()
    ensures Lawful(AuditCodec())
  {
    var c := AuditCodec();
    forall b: bytes, more: bytes {:trigger c.next(b + more)} | c.next(b).Some?
      ensures 0 < c.next(b).value.1 <= |b| && c.next(b + more) == c.next(b)
    {
      NextStands(b, more);
    }
    forall r {:trigger c.frame(r)} | c.fits(r)
      ensures c.frame(r) != [] && c.next(c.frame(r)) == Some((r, |c.frame(r)|))
    {
      NextReadsBack(r);
    }
    forall r, torn {:trigger c.frame(r), c.next(torn)} | c.fits(r) && torn <= c.frame(r) && torn != c.frame(r)
      ensures c.next(torn).None?
    {
      TakeTornBytes(EncodeRecord(r), torn);
    }
    forall b {:trigger c.next(b)} | c.next(b).Some?
      ensures var (r, n) := c.next(b).value;
              0 < n <= |b| && c.fits(r) && c.next(b[..n]) == c.next(b)
    {
      NextNeedsOnlyTheFrame(b);
    }
  }

  // ---- Resuming the chain from the spool ----

  /** The position after one chained record, read from its own headers. */
  function ResumeFromRecord(sha: Sha256, r: AuditRecord): Option<Chain>
  {
    if !r.IsChained() then None
    else
      match (ParseSeq(LastHeader(r.headers, HEADER_SEQ)), ParsePrev(LastHeader(r.headers, HEADER_PREV_HASH)))
      case (Some(seqNo), Some(prev)) => Some(Extend(sha, Chain(seqNo, prev), r.value))
      case _ => None
  }

  function ResumePointOf(sha: Sha256, rs: seq<AuditRecord>): Option<Chain>
  {
    LastPosition(r => ResumeFromRecord(sha, r), rs)
  }

  method ReadResumeHeaders(sha: Sha256, r: AuditRecord) returns (c: Option<Chain>)
    ensures c == ResumeFromRecord(sha, r)
  {
    if r.kind == Checkpoint {
      return None;
    }
    var seqNo: Option<nat> := None;
    var prev: Option<Head> := None;
    HeaderNamesDiffer();
    for i := 0 to |r.headers|
      invariant seqNo == ParseSeq(LastHeader(r.headers[..i], HEADER_SEQ))
      invariant prev == ParsePrev(LastHeader(r.headers[..i], HEADER_PREV_HASH))
    {
      assert r.headers[..i + 1][..i] == r.headers[..i];
      var (k, v) := r.headers[i];
      if k == HEADER_SEQ {
        seqNo := ParseSeq(Some(v));
      } else if k == HEADER_PREV_HASH {
        prev := ParsePrev(Some(v));
      }
    }
    assert r.headers[..|r.headers|] == r.headers;
    if seqNo.None? || prev.None? {
      return None;
    }
    return Some(Extend(sha, Chain(seqNo.value, prev.value), r.value));
  }

  method ResumePoint(sha: Sha256, spool: Spool<AuditRecord>) returns (c: Option<Chain>)
    requires spool.Valid()
    ensures c == ResumePointOf(sha, spool.contents)
  {
    var records := spool.ReadAll();
    ghost var position := (r: AuditRecord) => ResumeFromRecord(sha, r);
    var i := |records|;
    while i > 0
      invariant 0 <= i <= |records|
      invariant forall t :: i <= t < |records| ==> position(records[t]).None?
    {
      i := i - 1;
      var found := ReadResumeHeaders(sha, records[i]);
      if found.Some? {
        LastPositionAt(position, records, i);
        return found;
      }
    }
    LastPositionNone(position, records);
    return None;
  }
}
