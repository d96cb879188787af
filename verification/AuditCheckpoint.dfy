/** Signed checkpoints (crates/audit/src/checkpoint.rs, crates/audit/src/signing.rs).
    Ed25519 (section 5.1 of RFC 8032) and the JSON text codec are parameters; what is
    assumed of them is named by `SignerWorks` and `JsonRoundTrips`. */
module AuditCheckpoints {
  import opened Bytes
  import opened AuditChain
  import opened AuditRecords

  datatype JsonValue = JsonString(text: bytes) | JsonInt(n: int) | JsonOther
  type JsonObject = map<string, JsonValue>

  /** `fromJson` gives the members of a JSON object, the empty object for other JSON values,
      and `None` for text that is not JSON. */
  datatype Env = Env(sha: Sha256,
                     verifySignature: (bytes, bytes, bytes) -> bool,
                     toJson: JsonObject -> bytes,
                     fromJson: bytes -> Option<JsonObject>)

  datatype Signer = Signer(keyId: bytes, publicKey: bytes, sign: bytes -> bytes)

  /** The key id is text, and the signature of every message verifies under the public key. */
  ghost predicate SignerWorks(env: Env, s: Signer)
  {
    ValidUtf8(s.keyId) && forall m: bytes :: env.verifySignature(s.publicKey, m, s.sign(m))
  }

  // ---- The signed payload ----

  predicate IsI64(t: int) { -0x8000_0000_0000_0000 <= t < 0x8000_0000_0000_0000 }

  function BigEndianI64(t: int): bytes { BigEndian(t % U64_LIMIT, 8) }

  const CHECKPOINT_DOMAIN: bytes := Ascii("crabka-audit-ckpt-v1") + [0]

  function SigningBytes(keyId: bytes, seqHigh: nat, head: Head, time: int): bytes
  {
    var keyLen := if |keyId| < 0xFFFF then |keyId| else 0xFFFF;
    CHECKPOINT_DOMAIN + BigEndian(keyLen, 2) + keyId + BigEndian(seqHigh, 8) + head + BigEndianI64(time)
  }

  /** The payload determines every field, even for key ids longer than the 16-bit length field. */
  lemma SigningBytesInjective(k: bytes, s: nat, h: Head, t: int, k': bytes, s': nat, h': Head, t': int)
    requires s < U64_LIMIT && s' < U64_LIMIT && IsI64(t) && IsI64(t')
    requires SigningBytes(k, s, h, t) == SigningBytes(k', s', h', t')
    ensures k == k' && s == s' && h == h' && t == t'
  {
    var m, m' := SigningBytes(k, s, h, t), SigningBytes(k', s', h', t');
    SigningParts(k, s, h, t);
    SigningParts(k', s', h', t');
    assert |k| == |k'| == |m| - |CHECKPOINT_DOMAIN| - 50;
    Pow256Values();
    BigEndianInjective(s, s', 8);
    BigEndianInjective(t % U64_LIMIT, t' % U64_LIMIT, 8);
  }

  lemma FourParts(d: bytes, k: bytes, s: bytes, h: bytes, t: bytes)
    ensures var m, i := d + k + s + h + t, |d| + |k|;
            && m[|d|..i] == k && m[i..i + |s|] == s && m[i + |s|..i + |s| + |h|] == h && m[i + |s| + |h|..] == t
  {
  }

  /** Where the fields stand in the payload. */
  lemma SigningParts(k: bytes, s: nat, h: Head, t: int)
    ensures var m, d := SigningBytes(k, s, h, t), |CHECKPOINT_DOMAIN| + 2; var i := d + |k|;
            && |m| == i + 48 && m[d..i] == k && m[i..i + 8] == BigEndian(s, 8)
            && m[i + 8..i + 40] == h && m[i + 40..] == BigEndianI64(t)
  {
    var keyLen := if |k| < 0xFFFF then |k| else 0xFFFF;
    FourParts(CHECKPOINT_DOMAIN + BigEndian(keyLen, 2), k, BigEndian(s, 8), h, BigEndianI64(t));
  }

  // ---- Checkpoints ----

  datatype CheckpointData = CheckpointData(keyId: bytes, seqHigh: nat, chainHead: Head, time: int,
                                           signature: bytes, publicKey: bytes)

  function SignedCheckpoint(s: Signer, seqHigh: nat, head: Head, time: int): CheckpointData
  {
    CheckpointData(s.keyId, seqHigh, head, time, s.sign(SigningBytes(s.keyId, seqHigh, head, time)), s.publicKey)
  }

  predicate SignatureValid(env: Env, cp: CheckpointData, publicKey: bytes)
  {
    env.verifySignature(publicKey, SigningBytes(cp.keyId, cp.seqHigh, cp.chainHead, cp.time), cp.signature)
  }

  function ToJsonObject(cp: CheckpointData): JsonObject
  {
    map["type" := JsonString(CLASS_CHECKPOINT),
        "key_id" := JsonString(cp.keyId),
        "seq_high" := JsonInt(cp.seqHigh),
        "chain_head" := JsonString(Hex(cp.chainHead)),
        "time" := JsonInt(cp.time),
        "signature" := JsonString(Hex(cp.signature)),
        "public_key" := JsonString(Hex(cp.publicKey))]
  }

  /** What a checkpoint's fields can hold in the program: a `String`, a `u64` and an `i64`. */
  predicate Representable(cp: CheckpointData)
  {
    ValidUtf8(cp.keyId) && cp.seqHigh < U64_LIMIT && IsI64(cp.time)
  }

  /** The JSON text of a checkpoint's object parses back to that object. */
  ghost predicate JsonRoundTrips(env: Env)
  {
    forall cp :: Representable(cp) ==> env.fromJson(env.toJson(ToJsonObject(cp))) == Some(ToJsonObject(cp))
  }

  function CheckpointRecord(env: Env, cp: CheckpointData): AuditRecord
  {
    AuditRecord(Checkpoint, env.toJson(ToJsonObject(cp)), [(HEADER_EVENT_CLASS, CLASS_CHECKPOINT)])
  }

  // ---- Parsing ----

  /** `Panics` stands for the slice at a character boundary check failing in `hex_vec`. */
  datatype Parsed<T> = Good(value: T) | Malformed | Panics

  /** `u8::from_str_radix(pair, 16)`: two hex digits, or a plus sign and one. */
  function HexPair(hi: byte, lo: byte): (v: Option<byte>)
  {
    match (HexValue(hi), HexValue(lo))
    case (Some(h), Some(l)) => Some(h * 16 + l)
    case (None, Some(l)) => if hi == 43 then Some(l) else None
    case _ => None
  }

  function HexPairs(s: bytes): Parsed<bytes>
    requires |s| % 2 == 0
  {
    if s == [] then Good([])
    else if |s| > 2 && IsContinuation(s[2]) then Panics
    else match HexPair(s[0], s[1])
      case None => Malformed
      case Some(v) =>
        match HexPairs(s[2..])
        case Good(rest) => Good([v] + rest)
        case other => other
  }

  function HexVec(s: bytes): Parsed<bytes>
  {
    if |s| % 2 != 0 then Malformed else HexPairs(s)
  }

  lemma HexPairOf(b: byte)
    ensures HexPair(HexChar(b / 16), HexChar(b % 16)) == Some(b)
  {
    var h, l := b / 16, b % 16;
    assert HexValue(HexChar(h)) == Some(h) && HexValue(HexChar(l)) == Some(l) && h * 16 + l == b;
  }

  /** `s` is the hex text of `b`, pair by pair. */
  ghost predicate Pairs(s: bytes, b: bytes)
  {
    |s| == 2 * |b| && forall i :: 0 <= i < |b| ==> HexPair(s[2 * i], s[2 * i + 1]) == Some(b[i]) && !IsContinuation(s[2 * i])
  }

  lemma {:induction false} PairsParse(s: bytes, b: bytes)
    requires Pairs(s, b)
    ensures HexVec(s) == Good(b)
  {
    if b != [] {
      var rest, tail := s[2..], b[1..];
      forall i | 0 <= i < |tail| ensures HexPair(rest[2 * i], rest[2 * i + 1]) == Some(tail[i]) && !IsContinuation(rest[2 * i]) {
        assert HexPair(s[2 * (i + 1)], s[2 * (i + 1) + 1]) == Some(b[i + 1]) && !IsContinuation(s[2 * (i + 1)]);
      }
      PairsParse(rest, tail);
      assert HexPair(s[2 * 0], s[2 * 0 + 1]) == Some(b[0]);
      assert |b| > 1 ==> !IsContinuation(s[2 * 1]);
      assert [b[0]] + tail == b;
    }
  }

  lemma {:induction false} HexIsPairs(b: bytes)
    ensures Pairs(Hex(b), b)
  {
    if b != [] {
      HexIsPairs(b[1..]);
      var s, rest := Hex(b), Hex(b[1..]);
      forall i | 0 <= i < |b| ensures HexPair(s[2 * i], s[2 * i + 1]) == Some(b[i]) && !IsContinuation(s[2 * i]) {
        if i == 0 {
          HexPairOf(b[0]);
        } else {
          assert s[2 * i] == rest[2 * (i - 1)] && s[2 * i + 1] == rest[2 * (i - 1) + 1];
        }
      }
    }
  }

  lemma HexVecHex(b: bytes)
    ensures HexVec(Hex(b)) == Good(b)
  {
    HexIsPairs(b);
    PairsParse(Hex(b), b);
  }

  /** The pairs before `k` are hex digits, and a character straddles the end of pair `k`. */
  predicate StraddlesAt(s: bytes, k: nat)
  {
    && 2 * k + 2 < |s| && IsContinuation(s[2 * k + 2])
    && forall j :: 0 <= j < k ==> HexPair(s[2 * j], s[2 * j + 1]).Some?
  }

  /** Hex text makes the parser abort exactly when, after valid pairs, a pair ends inside a
      multi-byte character. */
  lemma {:induction false} HexPairsPanicIff(s: bytes)
    requires |s| % 2 == 0
    ensures HexPairs(s).Panics? <==> exists k: nat :: StraddlesAt(s, k)
  {
    if s != [] {
      HexPairsPanicIff(s[2..]);
      if k: nat :| StraddlesAt(s, k) {
        if k > 0 {
          assert HexPair(s[2 * 0], s[2 * 0 + 1]).Some?;
          StraddleShift(s, k - 1);
        }
      }
      if |s| > 2 && IsContinuation(s[2]) {
        assert StraddlesAt(s, 0);
      } else if HexPair(s[0], s[1]).Some? {
        if k: nat :| StraddlesAt(s[2..], k) {
          StraddleShift(s, k);
        }
      }
    }
  }

  lemma StraddleShift(s: bytes, k: nat)
    requires |s| >= 2 && HexPair(s[0], s[1]).Some?
    ensures StraddlesAt(s[2..], k) <==> StraddlesAt(s, k + 1)
  {
    if StraddlesAt(s, k + 1) {
      forall j | 0 <= j < k ensures HexPair(s[2..][2 * j], s[2..][2 * j + 1]).Some? {
        assert HexPair(s[2 * (j + 1)], s[2 * (j + 1) + 1]).Some?;
      }
    }
    if StraddlesAt(s[2..], k) {
      forall j | 0 <= j < k + 1 ensures HexPair(s[2 * j], s[2 * j + 1]).Some? {
        if j > 0 {
          assert HexPair(s[2..][2 * (j - 1)], s[2..][2 * (j - 1) + 1]).Some?;
        }
      }
    }
  }

  function TextField(o: JsonObject, name: string): Option<bytes>
  {
    if name in o && o[name].JsonString? then Some(o[name].text) else None
  }

  function IntField(o: JsonObject, name: string, low: int, limit: int): Option<int>
  {
    if name in o && o[name].JsonInt? && low <= o[name].n < limit then Some(o[name].n) else None
  }

  function FromJsonObject(o: JsonObject): Parsed<CheckpointData>
  {
    var keyId := TextField(o, "key_id");
    var seqHigh := IntField(o, "seq_high", 0, U64_LIMIT);
    var headText := TextField(o, "chain_head");
    var time := IntField(o, "time", -0x8000_0000_0000_0000, 0x8000_0000_0000_0000);
    var sigText, keyText := TextField(o, "signature"), TextField(o, "public_key");
    if keyId.None? || seqHigh.None? || headText.None? || FromHex32(headText.value).None? || time.None? || sigText.None?
    then Malformed
    else match HexVec(sigText.value)
      case Malformed => Malformed
      case Panics => Panics
      case Good(signature) =>
        if keyText.None? then Malformed
        else match HexVec(keyText.value)
          case Malformed => Malformed
          case Panics => Panics
          case Good(publicKey) =>
            Good(CheckpointData(keyId.value, seqHigh.value, FromHex32(headText.value).value, time.value,
                                signature, publicKey))
  }

  predicate IsStraddled(s: bytes) { |s| % 2 == 0 && exists k: nat :: k < |s| && StraddlesAt(s, k) }

  lemma HexVecPanicsIff(s: bytes)
    ensures HexVec(s).Panics? <==> IsStraddled(s)
  {
    if |s| % 2 == 0 {
      HexPairsPanicIff(s);
      if k: nat :| StraddlesAt(s, k) {
        assert k < |s|;
      }
    }
  }

  /** Parsing an object aborts exactly when every field before the hex texts is good and the
      signature text, or after a good signature the public key text, is straddled. */
  lemma ParsePanicsIff(o: JsonObject)
    ensures var sig, key := TextField(o, "signature"), TextField(o, "public_key");
            FromJsonObject(o).Panics? <==>
            && TextField(o, "key_id").Some? && IntField(o, "seq_high", 0, U64_LIMIT).Some?
            && TextField(o, "chain_head").Some? && FromHex32(TextField(o, "chain_head").value).Some?
            && IntField(o, "time", -0x8000_0000_0000_0000, 0x8000_0000_0000_0000).Some?
            && sig.Some? && (IsStraddled(sig.value) || (HexVec(sig.value).Good? && key.Some? && IsStraddled(key.value)))
  {
    var sig, key := TextField(o, "signature"), TextField(o, "public_key");
    if sig.Some? {
      HexVecPanicsIff(sig.value);
    }
    if key.Some? {
      HexVecPanicsIff(key.value);
    }
  }

  lemma CheckpointRoundTrip(cp: CheckpointData)
    requires cp.seqHigh < U64_LIMIT && IsI64(cp.time)
    ensures FromJsonObject(ToJsonObject(cp)) == Good(cp)
  {
    FromHex32Hex(cp.chainHead);
    HexVecHex(cp.signature);
    HexVecHex(cp.publicKey);
  }
}
