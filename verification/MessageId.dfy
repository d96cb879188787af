/** The Go SDK's printed message ids (sdks/go/queues.go). */
module MessageIds {
  import opened Bytes
  import opened Fields
  import opened QueueModel

  const COLON: byte := 58
  const MINUS: byte := 45
  const PLUS: byte := 43

  predicate IsInt(n: int, bits: nat)
    requires bits == 32 || bits == 64
  {
    if bits == 32 then -0x8000_0000 <= n < 0x8000_0000 else -0x8000_0000_0000_0000 <= n < 0x8000_0000_0000_0000
  }

  /** `%d`. */
  function Signed(n: int): (s: bytes)
    ensures s != [] && COLON !in s
  {
    if n < 0 then [MINUS] + Decimal(-n) else Decimal(n)
  }

  /** `strconv.ParseInt` in base 10. */
  function ParseInt(s: bytes, bits: nat): Option<int>
    requires bits == 32 || bits == 64
  {
    var digits := if s != [] && (s[0] == MINUS || s[0] == PLUS) then s[1..] else s;
    if digits == [] then None
    else match ParseDigits(digits)
      case None => None
      case Some(n) =>
        var value: int := if s[0] == MINUS then -(n as int) else n as int;
        if IsInt(value, bits) then Some(value) else None
  }

  lemma ParseSigned(n: int, bits: nat)
    requires bits == 32 || bits == 64
    ensures ParseInt(Signed(n), bits) == if IsInt(n, bits) then Some(n) else None
  {
    if n < 0 {
      ParseDigitsDecimal(-n);
      assert Signed(n)[1..] == Decimal(-n);
    } else {
      ParseDigitsDecimal(n);
    }
  }

  lemma SignedInjective(m: int, n: int)
    requires Signed(m) == Signed(n)
    ensures m == n
  {
    assert Signed(m)[0] == Signed(n)[0];
    if m < 0 {
      assert Signed(m)[1..] == Decimal(-m) && Signed(n)[1..] == Decimal(-n);
      DecimalInjective(-m, -n);
    } else {
      DecimalInjective(m, n);
    }
  }

  function MessageId(at: Coordinate): Text
  {
    at.topic + [COLON] + Signed(at.partition) + [COLON] + Signed(at.offset)
  }

  /** Text splits uniquely at its last colon. */
  lemma LastColon(a: bytes, b: bytes, a': bytes, b': bytes)
    requires a + [COLON] + b == a' + [COLON] + b' && COLON !in b && COLON !in b'
    ensures a == a' && b == b'
  {
    var s := a + [COLON] + b;
    assert s[|a|] == COLON && s[|a'|] == COLON;
    assert |a| == |a'|;
    assert s[..|a|] == a && s[..|a|] == a' && s[|a| + 1..] == b && s[|a| + 1..] == b';
  }

  /** Different coordinates never print alike, whatever the topic contains. */
  lemma MessageIdInjective(a: Coordinate, b: Coordinate)
    requires MessageId(a) == MessageId(b)
    ensures a == b
  {
    LastColon(a.topic + [COLON] + Signed(a.partition), Signed(a.offset),
              b.topic + [COLON] + Signed(b.partition), Signed(b.offset));
    LastColon(a.topic, Signed(a.partition), b.topic, Signed(b.partition));
    SignedInjective(a.offset, b.offset);
    SignedInjective(a.partition, b.partition);
  }

  // ---- Parsing ----

  function ParseMessageId(s: Text): Option<Coordinate>
  {
    var parts := Split(s, COLON);
    if |parts| != 3 || parts[0] == [] then None
    else match ParseInt(parts[1], 32)
      case None => None
      case Some(partition) =>
        match ParseInt(parts[2], 64)
        case None => None
        case Some(offset) => Some(Coordinate(parts[0], partition, offset))
  }

  /** The printed id of a partition and offset in range parses back exactly when the topic is
      non-empty and has no colon; for every other topic parsing fails. */
  lemma ParsePrinted(at: Coordinate)
    requires IsInt(at.partition, 32) && IsInt(at.offset, 64)
    ensures ParseMessageId(MessageId(at)) == if at.topic != [] && COLON !in at.topic then Some(at) else None
  {
    var front := at.topic + [COLON] + Signed(at.partition);
    SplitLast(front, Signed(at.offset), COLON);
    SplitLast(at.topic, Signed(at.partition), COLON);
    SplitOne(at.topic, COLON);
    ParseSigned(at.partition, 32);
    ParseSigned(at.offset, 64);
  }

  /** Topic "a:b" prints an id that does not parse. */
  lemma ColonTopicDoesNotParse()
    ensures ParseMessageId(MessageId(Coordinate(Ascii("a:b"), 0, 0))) == None
  {
    var topic := Ascii("a:b");
    assert topic[1] == COLON;
    ParsePrinted(Coordinate(topic, 0, 0));
  }

  // ---- Reading any id text ----

  predicate Asking(id: Text) { true }

  /** `at` is the coordinate `id` prints, or lies off partition 0 if `id` prints none. Sealed like
      `SpoolFiles.Holds`, with `Asking` as the term that opens it. */
  ghost predicate IsNamed(id: Text, at: Coordinate)
  {
    forall x {:trigger Asking(x)} :: x == id ==> MessageId(at) == x || (at.partition != 0 && forall c :: MessageId(c) != x)
  }

  /** The coordinate a text is the id of, if it is one. */
  ghost function Named(id: Text): (at: Coordinate)
    ensures IsNamed(id, at)
  {
    NamedExists(id);
    var at :| IsNamed(id, at); at
  }

  lemma NamedExists(id: Text)
    ensures exists at :: IsNamed(id, at)
  {
    if c :| MessageId(c) == id {
      assert IsNamed(id, c);
    } else {
      assert IsNamed(id, Coordinate([], 1, 0));
    }
  }

  lemma NamedMeans(id: Text)
    ensures MessageId(Named(id)) == id || (Named(id).partition != 0 && forall c :: MessageId(c) != id)
  {
    assert Asking(id);
  }

  lemma NamedMessageId(at: Coordinate)
    ensures Named(MessageId(at)) == at
  {
    NamedMeans(MessageId(at));
    MessageIdInjective(Named(MessageId(at)), at);
  }
}
