/** The payload-safe PostgreSQL startup and SET recorder (tools/gres-wire-recorder.py), over the
    protocol 3.0 frontend stream. */
module PgWire {
  import opened Bytes
  import opened Fields
  import opened Incremental

  type Text = bytes

  const PROTOCOL: nat := 196608
  const QUERY: byte := 81

  // ---- What may be recorded ----

  function AllowedStartup(key: Text): set<Text>
  {
    if key == Ascii("DateStyle") then {Ascii("ISO, MDY")}
    else if key == Ascii("TimeZone") then {Ascii("UTC")}
    else if key == Ascii("application_name") then {Ascii("PgDog")}
    else if key == Ascii("client_encoding") then {Ascii("UTF8"), Ascii("utf-8")}
    else if key == Ascii("extra_float_digits") then {Ascii("2")}
    else {}
  }

  const USER: Text := Ascii("user")
  const DATABASE: Text := Ascii("database")

  predicate IsIdentity(key: Text) { key == USER || key == DATABASE }

  function AllowedSet(guc: Text): Option<Text>
  {
    if guc == Ascii("datestyle") then Some(Ascii("ISO, MDY"))
    else if guc == Ascii("extra_float_digits") then Some(Ascii("2"))
    else if guc == Ascii("timezone") then Some(Ascii("UTC"))
    else None
  }

  function SetText(guc: Text, value: Text): Text
  {
    Ascii("SET \"") + guc + Ascii("\" TO '") + value + Ascii("'")
  }

  // ---- The startup packet ----

  predicate PairOk(key: Text, value: Text)
  {
    IsAscii(key) && ValidUtf8(value) && (IsIdentity(key) || value in AllowedStartup(key))
  }

  /** The first `n` key/value pairs of the fields pass every check. */
  ghost predicate PairsOk(fields: seq<Text>, n: nat)
    requires 2 * n <= |fields|
  {
    && (forall i :: 0 <= i < n ==> PairOk(fields[2 * i], fields[2 * i + 1]))
    && (forall i, j :: 0 <= i < j < n ==> fields[2 * i] != fields[2 * j])
  }

  ghost predicate HasKey(fields: seq<Text>, n: nat, key: Text)
    requires 2 * n <= |fields|
  {
    exists i :: 0 <= i < n && fields[2 * i] == key
  }

  /** The settings kept from the first `n` pairs: everything but the identity. */
  function Kept(fields: seq<Text>, n: nat): map<Text, Text>
    requires 2 * n <= |fields|
  {
    if n == 0 then map[]
    else
      var key, value := fields[2 * (n - 1)], fields[2 * (n - 1) + 1];
      if IsIdentity(key) then Kept(fields, n - 1) else Kept(fields, n - 1)[key := value]
  }

  ghost predicate Acceptable(fields: seq<Text>)
  {
    && fields != [] && |fields| % 2 == 0 && [] !in fields
    && PairsOk(fields, |fields| / 2)
    && HasKey(fields, |fields| / 2, USER) && HasKey(fields, |fields| / 2, DATABASE)
  }

  predicate HasDoubleZero(s: bytes)
  {
    exists i :: 0 <= i < |s| - 1 && s[i] == 0 && s[i + 1] == 0
  }

  /** The fields of a packet whose framing is right. */
  function PacketFields(packet: bytes): Option<seq<Text>>
  {
    if |packet| < 10 || FromBigEndian(packet[..4]) != |packet| || FromBigEndian(packet[4..8]) != PROTOCOL then None
    else
      var body := packet[8..|packet| - 2];
      if packet[|packet| - 2..] != [0, 0] || HasDoubleZero(body) then None else Some(Split(body, 0))
  }

  ghost function StartupOf(packet: bytes): Option<map<Text, Text>>
  {
    match PacketFields(packet)
    case None => None
    case Some(fields) => if Acceptable(fields) then Some(Kept(fields, |fields| / 2)) else None
  }

  method StartupParameters(packet: bytes) returns (r: Option<map<Text, Text>>)
    ensures r == StartupOf(packet)
  {
    if |packet| < 9 || FromBigEndian(packet[..4]) != |packet| || FromBigEndian(packet[4..8]) != PROTOCOL {
      return None;
    }
    var body := packet[8..];
    if |body| < 2 || body[|body| - 2..] != [0, 0] || HasDoubleZero(body[..|body| - 2]) {
      assert |body| >= 2 ==> body[..|body| - 2] == packet[8..|packet| - 2] && body[|body| - 2..] == packet[|packet| - 2..];
      return None;
    }
    assert body[..|body| - 2] == packet[8..|packet| - 2] && body[|body| - 2..] == packet[|packet| - 2..];
    var fields := Split(body[..|body| - 2], 0);
    if |fields| % 2 != 0 || [] in fields {
      return None;
    }
    r := CheckPairs(fields);
  }

  method CheckPairs(fields: seq<Text>) returns (r: Option<map<Text, Text>>)
    requires fields != [] && |fields| % 2 == 0 && [] !in fields
    ensures r == if Acceptable(fields) then Some(Kept(fields, |fields| / 2)) else None
  {
    var result: map<Text, Text>, seen: set<Text> := map[], {};
    var n := |fields| / 2;
    for i := 0 to n
      invariant PairsOk(fields, i) && result == Kept(fields, i)
      invariant forall key :: key in seen <==> HasKey(fields, i, key)
    {
      var key, value := fields[2 * i], fields[2 * i + 1];
      KeysAfter(fields, i);
      PairsAfter(fields, i);
      if PairsOk(fields, n) {
        PairsBefore(fields, i + 1, n);
      }
      if !IsAscii(key) || !ValidUtf8(value) || key in seen {
        return None;
      }
      seen := seen + {key};
      if !IsIdentity(key) {
        if value !in AllowedStartup(key) {
          return None;
        }
        result := result[key := value];
      }
    }
    if USER !in seen || DATABASE !in seen {
      return None;
    }
    return Some(result);
  }

  lemma PairsAfter(fields: seq<Text>, i: nat)
    requires 2 * i + 2 <= |fields|
    ensures PairsOk(fields, i + 1) <==>
            PairsOk(fields, i) && PairOk(fields[2 * i], fields[2 * i + 1]) && !HasKey(fields, i, fields[2 * i])
  {
  }

  lemma PairsBefore(fields: seq<Text>, i: nat, n: nat)
    requires i <= n && 2 * n <= |fields| && PairsOk(fields, n)
    ensures PairsOk(fields, i)
  {
  }

  lemma KeysAfter(fields: seq<Text>, i: nat)
    requires 2 * i + 2 <= |fields|
    ensures forall key :: HasKey(fields, i + 1, key) <==> HasKey(fields, i, key) || key == fields[2 * i]
  {
    forall key ensures HasKey(fields, i + 1, key) <==> HasKey(fields, i, key) || key == fields[2 * i] {
      if HasKey(fields, i, key) {
        var j :| 0 <= j < i && fields[2 * j] == key;
        assert j < i + 1;
      }
      if key == fields[2 * i] {
        assert i < i + 1;
      }
    }
  }

  // ---- What a startup packet means ----

  function Packet(fields: seq<Text>): (packet: bytes)
    requires fields != [] && |Join(fields, 0)| + 10 < U32_LIMIT
    ensures |packet| == |Join(fields, 0)| + 10
  {
    Pow256Values();
    BigEndian(|Join(fields, 0)| + 10, 4) + BigEndian(PROTOCOL, 4) + Join(fields, 0) + [0, 0]
  }

  lemma {:induction false} JoinHasNoDoubleZero(fields: seq<Text>)
    requires fields != [] && [] !in fields && forall i :: 0 <= i < |fields| ==> 0 !in fields[i]
    ensures !HasDoubleZero(Join(fields, 0)) && Join(fields, 0) != [] && Join(fields, 0)[|Join(fields, 0)| - 1] != 0
  {
    var last := fields[|fields| - 1];
    assert last in fields;
    if |fields| > 1 {
      var init := fields[..|fields| - 1];
      JoinHasNoDoubleZero(init);
      var front := Join(init, 0);
      assert Join(fields, 0) == front + [0] + last;
    }
  }

  lemma PacketParts(fields: seq<Text>)
    requires fields != [] && |Join(fields, 0)| + 10 < U32_LIMIT
    ensures var packet := Packet(fields);
            && |packet| == |Join(fields, 0)| + 10
            && FromBigEndian(packet[..4]) == |packet| && FromBigEndian(packet[4..8]) == PROTOCOL
            && packet[8..|packet| - 2] == Join(fields, 0) && packet[|packet| - 2..] == [0, 0]
  {
    var packet, n := Packet(fields), |Join(fields, 0)| + 10;
    Pow256Values();
    BigEndianRoundTrip(n, 4);
    BigEndianRoundTrip(PROTOCOL, 4);
    assert packet[..4] == BigEndian(n, 4) && packet[4..8] == BigEndian(PROTOCOL, 4);
  }

  /** Every acceptable list of fields is accepted, and all but the identity is kept. */
  lemma StartupAccepts(fields: seq<Text>)
    requires Acceptable(fields) && |Join(fields, 0)| + 10 < U32_LIMIT
    requires forall i :: 0 <= i < |fields| ==> 0 !in fields[i]
    ensures StartupOf(Packet(fields)) == Some(Kept(fields, |fields| / 2))
  {
    PacketParts(fields);
    JoinHasNoDoubleZero(fields);
    SplitJoin(fields, 0);
    assert PacketFields(Packet(fields)) == Some(fields);
  }

  lemma FieldsInParts(packet: bytes)
    requires PacketFields(packet).Some?
    ensures 10 <= |packet| < U32_LIMIT && packet[..4] == BigEndian(|packet|, 4) && packet[4..8] == BigEndian(PROTOCOL, 4)
    ensures packet[|packet| - 2..] == [0, 0] && PacketFields(packet).value == Split(packet[8..|packet| - 2], 0)
  {
    Pow256Values();
    FromBigEndianRoundTrip(packet[..4]);
    FromBigEndianRoundTrip(packet[4..8]);
  }

  lemma PacketFromParts(packet: bytes, fields: seq<Text>)
    requires fields != [] && |packet| == |Join(fields, 0)| + 10 < U32_LIMIT
    requires packet[..4] == BigEndian(|packet|, 4) && packet[4..8] == BigEndian(PROTOCOL, 4)
    requires packet[8..|packet| - 2] == Join(fields, 0) && packet[|packet| - 2..] == [0, 0]
    ensures packet == Packet(fields)
  {
    assert packet == packet[..4] + packet[4..8] + packet[8..|packet| - 2] + packet[|packet| - 2..];
  }

  /** And nothing else is: an accepted packet is the packet of acceptable fields. */
  lemma StartupAcceptsOnly(packet: bytes) returns (fields: seq<Text>)
    requires StartupOf(packet).Some?
    ensures Acceptable(fields) && |Join(fields, 0)| + 10 < U32_LIMIT && packet == Packet(fields)
    ensures forall i :: 0 <= i < |fields| ==> 0 !in fields[i]
    ensures StartupOf(packet) == Some(Kept(fields, |fields| / 2))
  {
    fields := PacketFields(packet).value;
    FieldsInParts(packet);
    JoinSplit(packet[8..|packet| - 2], 0);
    PacketFromParts(packet, fields);
  }

  /** Only allowlisted settings are kept, each with an allowlisted value; the identity never is. */
  lemma {:induction false} KeptIsSafe(fields: seq<Text>, n: nat)
    requires 2 * n <= |fields| && PairsOk(fields, n)
    ensures SafeSettings(Kept(fields, n))
  {
    var ok := (key: Text, value: Text) => value in AllowedStartup(key);
    forall i | 0 <= i < n ensures Passes(ok, fields[2 * i], fields[2 * i + 1]) {
      assert PairOk(fields[2 * i], fields[2 * i + 1]);
    }
    KeptPasses(ok, fields, n);
  }

  predicate Passes(ok: (Text, Text) -> bool, key: Text, value: Text) { IsIdentity(key) || ok(key, value) }

  /** What every pair but the identity passes holds of every setting that is kept. */
  lemma {:induction false} KeptPasses(ok: (Text, Text) -> bool, fields: seq<Text>, n: nat)
    requires 2 * n <= |fields| && forall i :: 0 <= i < n ==> Passes(ok, fields[2 * i], fields[2 * i + 1])
    ensures forall key :: key in Kept(fields, n) ==> !IsIdentity(key) && ok(key, Kept(fields, n)[key])
  {
    if n > 0 {
      KeptPasses(ok, fields, n - 1);
      assert Passes(ok, fields[2 * (n - 1)], fields[2 * (n - 1) + 1]);
    }
  }

  predicate SafeSettings(settings: map<Text, Text>)
  {
    forall key :: key in settings ==> !IsIdentity(key) && settings[key] in AllowedStartup(key)
  }

  // ---- Queries ----

  /** What the two regular expressions make of a query: no SET at all, a SET outside the pattern, or
      a setting (its name in lower case) and value. */
  datatype SetQuery = NotSet | OtherSet | SetTo(guc: Text, value: Text)

  datatype BatchVerdict = Skip | Record(batch: Text) | Raise

  function SafeSetBatch(parse: Text -> SetQuery, payload: bytes): BatchVerdict
  {
    if payload == [] || payload[|payload| - 1] != 0 || 0 in payload[..|payload| - 1] then Raise
    else
      var sql := payload[..|payload| - 1];
      if !ValidUtf8(sql) then Raise
      else match parse(sql)
        case NotSet => Skip
        case OtherSet => Raise
        case SetTo(guc, value) => if AllowedSet(guc) == Some(value) then Record(SetText(guc, value)) else Raise
  }

  /** The three batches that may be recorded. */
  ghost predicate IsSafeBatch(batch: Text)
  {
    exists guc :: AllowedSet(guc).Some? && batch == SetText(guc, AllowedSet(guc).value)
  }

  // ---- The decoder ----

  datatype Recorder = Recorder(startup: Option<map<Text, Text>>, batches: seq<Text>)

  const FRESH: Recorder := Recorder(None, [])

  const SSL_PACKET: bytes := [0, 0, 0, 8, 4, 210, 22, 47]

  ghost function StartupStep(s: Recorder, buf: bytes): Step<Recorder>
  {
    if |buf| < 4 || |buf| < FromBigEndian(buf[..4]) then NeedMore
    else
      var packet := buf[..FromBigEndian(buf[..4])];
      if packet == SSL_PACKET then Advance(s, |packet|)
      else match StartupOf(packet)
        case None => Halt(s)
        case Some(settings) => Advance(s.(startup := Some(settings)), |packet|)
  }

  function MessageStep(parse: Text -> SetQuery, s: Recorder, buf: bytes): Step<Recorder>
  {
    if |buf| < 5 || |buf| < 1 + FromBigEndian(buf[1..5]) then NeedMore
    else
      var message := buf[..1 + FromBigEndian(buf[1..5])];
      if message[0] != QUERY then Advance(s, |message|)
      else match SafeSetBatch(parse, if |message| < 5 then [] else message[5..])
        case Skip => Advance(s, |message|)
        case Record(batch) => Advance(s.(batches := s.batches + [batch]), |message|)
        case Raise => Halt(s)
  }

  /** One packet or message. Halting is raising. */
  ghost function WireStep(parse: Text -> SetQuery, s: Recorder, buf: bytes): Step<Recorder>
  {
    if s.startup.None? then StartupStep(s, buf) else MessageStep(parse, s, buf)
  }

  ghost function Wire(parse: Text -> SetQuery): Stepper<Recorder>
  {
    (s: Recorder, buf: bytes) => WireStep(parse, s, buf)
  }

  lemma StartupStepIsStable(s: Recorder, b: bytes, more: bytes)
    requires !StartupStep(s, b).NeedMore?
    ensures StartupStep(s, b + more) == StartupStep(s, b)
    ensures StartupStep(s, b).Advance? ==> 0 < StartupStep(s, b).used <= |b|
  {
    var n := FromBigEndian(b[..4]);
    assert (b + more)[..4] == b[..4] && (b + more)[..n] == b[..n];
  }

  lemma MessageStepIsStable(parse: Text -> SetQuery, s: Recorder, b: bytes, more: bytes)
    requires !MessageStep(parse, s, b).NeedMore?
    ensures MessageStep(parse, s, b + more) == MessageStep(parse, s, b)
    ensures MessageStep(parse, s, b).Advance? ==> 0 < MessageStep(parse, s, b).used <= |b|
  {
    var n := 1 + FromBigEndian(b[1..5]);
    assert (b + more)[1..5] == b[1..5] && (b + more)[..n] == b[..n];
  }

  lemma WireIsStable(parse: Text -> SetQuery)
    ensures Stable(Wire(parse))
  {
    var step := Wire(parse);
    forall s, b, more {:trigger step(s, b + more)} | !step(s, b).NeedMore?
      ensures step(s, b + more) == step(s, b) && (step(s, b).Advance? ==> 0 < step(s, b).used <= |b|)
    {
      if s.startup.None? {
        StartupStepIsStable(s, b, more);
      } else {
        MessageStepIsStable(parse, s, b, more);
      }
    }
  }

  // ---- Payload safety ----

  ghost predicate SafeRecorder(s: Recorder)
  {
    && (s.startup.Some? ==> SafeSettings(s.startup.value))
    && forall i :: 0 <= i < |s.batches| ==> IsSafeBatch(s.batches[i])
  }

  lemma WireStepIsSafe(parse: Text -> SetQuery, s: Recorder, buf: bytes)
    requires SafeRecorder(s)
    ensures WireStep(parse, s, buf).Advance? ==> SafeRecorder(WireStep(parse, s, buf).state)
    ensures WireStep(parse, s, buf).Halt? ==> WireStep(parse, s, buf).state == s
  {
    if s.startup.None? && StartupStep(s, buf).Advance? {
      var packet := buf[..FromBigEndian(buf[..4])];
      if packet != SSL_PACKET {
        var fields := StartupAcceptsOnly(packet);
        KeptIsSafe(fields, |fields| / 2);
      }
    }
  }

  /** Whatever bytes arrive, and even if it raises, the decoder holds only allowlisted settings and
      allowlisted SET batches: no identity, no other SQL. */
  lemma {:induction false} DecoderIsPayloadSafe(parse: Text -> SetQuery, s: Recorder, stream: bytes)
    requires SafeRecorder(s)
    ensures SafeRecorder(Drain(Wire(parse), s, stream).state)
    decreases |stream|
  {
    WireStepIsSafe(parse, s, stream);
    var step := Wire(parse)(s, stream);
    assert step == WireStep(parse, s, stream);
    if step.Advance? && 0 < step.used <= |stream| {
      DecoderIsPayloadSafe(parse, step.state, stream[step.used..]);
    }
  }

  // ---- A whole conversation ----

  /** A frontend message after startup. */
  datatype Frontend = Frontend(tag: byte, payload: bytes)

  predicate Framable(m: Frontend) { |m.payload| + 4 < U32_LIMIT }

  function FrontendBytes(m: Frontend): bytes
    requires Framable(m)
  {
    Pow256Values();
    [m.tag] + BigEndian(|m.payload| + 4, 4) + m.payload
  }

  function AllFrontendBytes(ms: seq<Frontend>): bytes
    requires forall i :: 0 <= i < |ms| ==> Framable(ms[i])
  {
    if ms == [] then [] else FrontendBytes(ms[0]) + AllFrontendBytes(ms[1..])
  }

  function VerdictOn(parse: Text -> SetQuery, m: Frontend): BatchVerdict
  {
    if m.tag == QUERY then SafeSetBatch(parse, m.payload) else Skip
  }

  function BatchOf(verdict: BatchVerdict): seq<Text> { if verdict.Record? then [verdict.batch] else [] }

  function BatchesOf(parse: Text -> SetQuery, ms: seq<Frontend>): seq<Text>
  {
    if ms == [] then [] else BatchOf(VerdictOn(parse, ms[0])) + BatchesOf(parse, ms[1..])
  }

  function Repeated(unit: bytes, n: nat): bytes { if n == 0 then [] else unit + Repeated(unit, n - 1) }

  lemma FrontendParts(m: Frontend, rest: bytes)
    requires Framable(m)
    ensures var buf, n := FrontendBytes(m) + rest, 5 + |m.payload|;
            && |buf| >= n && buf[0] == m.tag && 1 + FromBigEndian(buf[1..5]) == n
            && buf[..n][5..] == m.payload && buf[n..] == rest
  {
    Pow256Values();
    BigEndianRoundTrip(|m.payload| + 4, 4);
    var buf := FrontendBytes(m) + rest;
    assert buf[1..5] == BigEndian(|m.payload| + 4, 4);
  }

  lemma MessageReadsBack(parse: Text -> SetQuery, s: Recorder, m: Frontend, rest: bytes)
    requires s.startup.Some? && Framable(m)
    ensures Drain(Wire(parse), s, FrontendBytes(m) + rest) ==
            match VerdictOn(parse, m)
            case Skip => Drain(Wire(parse), s, rest)
            case Record(batch) => Drain(Wire(parse), s.(batches := s.batches + [batch]), rest)
            case Raise => Drained(s, [], true)
  {
    FrontendParts(m, rest);
    WireAt(parse, s, FrontendBytes(m) + rest);
  }

  function Recording(s: Recorder, more: seq<Text>): Recorder { s.(batches := s.batches + more) }

  lemma QuietMessage(parse: Text -> SetQuery, s: Recorder, m: Frontend, rest: bytes)
    requires s.startup.Some? && Framable(m) && !VerdictOn(parse, m).Raise?
    ensures Drain(Wire(parse), s, FrontendBytes(m) + rest) ==
            Drain(Wire(parse), Recording(s, BatchOf(VerdictOn(parse, m))), rest)
  {
    MessageReadsBack(parse, s, m, rest);
    assert s.batches + [] == s.batches;
  }

  lemma RecordingTwice(s: Recorder, a: seq<Text>, b: seq<Text>)
    ensures Recording(Recording(s, a), b) == Recording(s, a + b)
  {
    assert s.batches + (a + b) == s.batches + a + b;
  }

  lemma {:induction false} MessagesReadBack(parse: Text -> SetQuery, s: Recorder, ms: seq<Frontend>, rest: bytes)
    requires s.startup.Some? && forall i :: 0 <= i < |ms| ==> Framable(ms[i]) && !VerdictOn(parse, ms[i]).Raise?
    ensures Drain(Wire(parse), s, AllFrontendBytes(ms) + rest) ==
            Drain(Wire(parse), Recording(s, BatchesOf(parse, ms)), rest)
    decreases |ms|
  {
    if ms == [] {
      assert AllFrontendBytes(ms) + rest == rest && s.batches + BatchesOf(parse, ms) == s.batches;
    } else {
      var first, later := BatchOf(VerdictOn(parse, ms[0])), AllFrontendBytes(ms[1..]) + rest;
      assert AllFrontendBytes(ms) + rest == FrontendBytes(ms[0]) + later;
      RecordingTwice(s, first, BatchesOf(parse, ms[1..]));
      QuietMessage(parse, s, ms[0], later);
      MessagesReadBack(parse, Recording(s, first), ms[1..], rest);
    }
  }

  lemma SslLength()
    ensures FromBigEndian(SSL_PACKET[..4]) == 8
  {
    assert SSL_PACKET[..4] == [0, 0, 0, 8] && [0, 0, 0, 8][..3] == [0, 0, 0];
    assert [0, 0, 0][..2] == [0, 0] && [0, 0][..1] == [0] && [0][..0] == [];
  }

  lemma SslRequestIsSkipped(parse: Text -> SetQuery, rest: bytes)
    ensures Drain(Wire(parse), FRESH, SSL_PACKET + rest) == Drain(Wire(parse), FRESH, rest)
  {
    var buf := SSL_PACKET + rest;
    assert buf[..8] == SSL_PACKET && buf[..4] == SSL_PACKET[..4] && buf[8..] == rest;
    SslLength();
    assert StartupStep(FRESH, buf) == Advance(FRESH, 8);
    WireAt(parse, FRESH, buf);
  }

  ghost predicate Skips<S(!new)>(step: Stepper<S>, s: S, unit: bytes)
  {
    forall rest {:trigger unit + rest} :: Drain(step, s, unit + rest) == Drain(step, s, rest)
  }

  lemma RepeatedOnce(unit: bytes, n: nat, rest: bytes)
    ensures Repeated(unit, n + 1) + rest == unit + (Repeated(unit, n) + rest)
    ensures Repeated(unit, 0) + rest == rest
  {
    var more := Repeated(unit, n);
    assert (unit + more) + rest == unit + (more + rest);
  }

  lemma {:induction false} RepeatedIsSkipped<S(!new)>(step: Stepper<S>, s: S, unit: bytes, n: nat, rest: bytes)
    requires Skips(step, s, unit)
    ensures Drain(step, s, Repeated(unit, n) + rest) == Drain(step, s, rest)
  {
    RepeatedOnce(unit, if n == 0 then 0 else n - 1, rest);
    if n > 0 {
      RepeatedIsSkipped(step, s, unit, n - 1, rest);
    }
  }

  lemma SslRequestsAreSkipped(parse: Text -> SetQuery, n: nat, rest: bytes)
    ensures Drain(Wire(parse), FRESH, Repeated(SSL_PACKET, n) + rest) == Drain(Wire(parse), FRESH, rest)
  {
    forall rest {:trigger SSL_PACKET + rest}
      ensures Drain(Wire(parse), FRESH, SSL_PACKET + rest) == Drain(Wire(parse), FRESH, rest)
    {
      SslRequestIsSkipped(parse, rest);
    }
    RepeatedIsSkipped(Wire(parse), FRESH, SSL_PACKET, n, rest);
  }

  lemma StartupReadsBack(parse: Text -> SetQuery, fields: seq<Text>, rest: bytes)
    requires Acceptable(fields) && |Join(fields, 0)| + 10 < U32_LIMIT
    requires forall i :: 0 <= i < |fields| ==> 0 !in fields[i]
    ensures Drain(Wire(parse), FRESH, Packet(fields) + rest) ==
            Drain(Wire(parse), FRESH.(startup := Some(Kept(fields, |fields| / 2))), rest)
  {
    var packet := Packet(fields);
    var buf := packet + rest;
    PacketParts(fields);
    StartupAccepts(fields);
    assert buf[..4] == packet[..4] && buf[..|packet|] == packet && buf[|packet|..] == rest;
    WireAt(parse, FRESH, buf);
  }

  /** After any number of SSL requests, a startup packet with acceptable fields and messages of which
      none raises, the decoder holds exactly the settings those fields keep and the batches those
      messages record, in order; and it goes on from there with whatever follows. */
  lemma ConversationReadsBack(parse: Text -> SetQuery, n: nat, fields: seq<Text>, ms: seq<Frontend>, rest: bytes)
    requires Acceptable(fields) && |Join(fields, 0)| + 10 < U32_LIMIT
    requires forall i :: 0 <= i < |fields| ==> 0 !in fields[i]
    requires forall i :: 0 <= i < |ms| ==> Framable(ms[i]) && !VerdictOn(parse, ms[i]).Raise?
    ensures Drain(Wire(parse), FRESH, Repeated(SSL_PACKET, n) + (Packet(fields) + (AllFrontendBytes(ms) + rest))) ==
            Drain(Wire(parse), Recorder(Some(Kept(fields, |fields| / 2)), BatchesOf(parse, ms)), rest)
  {
    var s := FRESH.(startup := Some(Kept(fields, |fields| / 2)));
    SslRequestsAreSkipped(parse, n, Packet(fields) + (AllFrontendBytes(ms) + rest));
    StartupReadsBack(parse, fields, AllFrontendBytes(ms) + rest);
    MessagesReadBack(parse, s, ms, rest);
    assert [] + BatchesOf(parse, ms) == BatchesOf(parse, ms);
  }

  /** The first query that raises ends the conversation with the batches before it. */
  lemma ConversationRaises(parse: Text -> SetQuery, n: nat, fields: seq<Text>, ms: seq<Frontend>, bad: Frontend, rest: bytes)
    requires Acceptable(fields) && |Join(fields, 0)| + 10 < U32_LIMIT
    requires forall i :: 0 <= i < |fields| ==> 0 !in fields[i]
    requires forall i :: 0 <= i < |ms| ==> Framable(ms[i]) && !VerdictOn(parse, ms[i]).Raise?
    requires Framable(bad) && VerdictOn(parse, bad).Raise?
    ensures Drain(Wire(parse), FRESH,
                  Repeated(SSL_PACKET, n) + (Packet(fields) + (AllFrontendBytes(ms) + (FrontendBytes(bad) + rest)))) ==
            Drained(Recorder(Some(Kept(fields, |fields| / 2)), BatchesOf(parse, ms)), [], true)
  {
    ConversationReadsBack(parse, n, fields, ms, FrontendBytes(bad) + rest);
    MessageReadsBack(parse, Recorder(Some(Kept(fields, |fields| / 2)), BatchesOf(parse, ms)), bad, rest);
  }

  /** A payload is a query: text without zero bytes, in UTF-8, and one zero byte. */
  predicate IsQuery(payload: bytes, sql: Text) { payload == sql + [0] && 0 !in sql && ValidUtf8(sql) }

  /** A batch is recorded exactly for a query that sets an allowlisted setting to its allowlisted
      value, and is the canonical text of that assignment; a query is passed over exactly when it is
      not a SET. Everything else raises. */
  lemma VerdictMeans(parse: Text -> SetQuery, payload: bytes)
    ensures forall batch :: SafeSetBatch(parse, payload) == Record(batch) <==>
              exists sql, guc :: IsQuery(payload, sql) && AllowedSet(guc).Some?
                && parse(sql) == SetTo(guc, AllowedSet(guc).value) && batch == SetText(guc, AllowedSet(guc).value)
    ensures SafeSetBatch(parse, payload) == Skip <==> exists sql :: IsQuery(payload, sql) && parse(sql) == NotSet
  {
    if payload != [] {
      var sql := payload[..|payload| - 1];
      assert payload == sql + [payload[|payload| - 1]];
      forall other | IsQuery(payload, other) ensures other == sql {
        assert other == (other + [0])[..|other|];
      }
      assert IsQuery(payload, sql) <==> payload[|payload| - 1] == 0 && 0 !in sql && ValidUtf8(sql);
    }
  }

  class Decoder {
    const parse: Text -> SetQuery
    var buffer: bytes
    var startup: Option<map<Text, Text>>
    var setBatches: seq<Text>
    ghost var fed: bytes

    ghost predicate Valid() reads this
    {
      Drain(Wire(parse), FRESH, fed) == Drained(Recorder(startup, setBatches), buffer, false)
    }

    constructor (parse: Text -> SetQuery)
      ensures Valid() && fed == [] && this.parse == parse
    {
      this.parse := parse;
      buffer, startup, setBatches, fed := [], None, [], [];
    }

    ghost function Pending(): Drained<Recorder> reads this
    {
      Drain(Wire(parse), Recorder(startup, setBatches), buffer)
    }

    /** Skips SSL requests and reads the startup packet once it is complete. */
    method FeedStartup() returns (raised: bool, waiting: bool)
      requires startup.None?
      modifies this`buffer, this`startup
      ensures raised ==> old(Pending()) == Drained(Recorder(startup, setBatches), [], true)
      ensures !raised && waiting ==> old(Pending()) == Drained(Recorder(startup, setBatches), buffer, false)
      ensures !raised && !waiting ==> startup.Some? && old(Pending()) == Pending()
    {
      raised, waiting := false, false;
      while true
        invariant startup.None? && !raised && !waiting && old(Pending()) == Pending()
        decreases |buffer|
      {
        WireAt(parse, Recorder(startup, setBatches), buffer);
        if |buffer| < 4 {
          waiting := true;
          return;
        }
        var length := FromBigEndian(buffer[..4]);
        if |buffer| < length {
          waiting := true;
          return;
        }
        var packet := buffer[..length];
        buffer := buffer[length..];
        if packet != SSL_PACKET {
          var settings := StartupParameters(packet);
          raised, startup := settings.None?, settings;
          return;
        }
      }
    }

    method FeedMessages() returns (raised: bool)
      requires startup.Some?
      modifies this`buffer, this`setBatches
      ensures old(Pending()) == Drained(Recorder(startup, setBatches), if raised then [] else buffer, raised)
    {
      raised := false;
      while |buffer| >= 5
        invariant !raised && old(Pending()) == Pending()
        decreases |buffer|
      {
        WireAt(parse, Recorder(startup, setBatches), buffer);
        var total := 1 + FromBigEndian(buffer[1..5]);
        if |buffer| < total {
          return;
        }
        var message := buffer[..total];
        buffer := buffer[total..];
        if message[0] == QUERY {
          var verdict := SafeSetBatch(parse, if |message| < 5 then [] else message[5..]);
          match verdict {
            case Raise =>
              raised := true;
              return;
            case Record(batch) =>
              setBatches := setBatches + [batch];
            case Skip =>
          }
        }
      }
      WireAt(parse, Recorder(startup, setBatches), buffer);
    }

    /** Feeding another chunk takes the decoder where all the bytes at once would, or raises. */
    method Feed(data: bytes) returns (raised: bool)
      requires Valid()
      modifies this
      ensures fed == old(fed) + data && raised == Drain(Wire(parse), FRESH, fed).halted
      ensures Drain(Wire(parse), FRESH, fed).state == Recorder(startup, setBatches)
      ensures !raised ==> Valid()
    {
      WireIsStable(parse);
      DrainConcat(Wire(parse), FRESH, fed, data);
      fed := fed + data;
      buffer := buffer + data;
      var waiting := false;
      raised := false;
      if startup.None? {
        raised, waiting := FeedStartup();
      }
      if !raised && !waiting {
        raised := FeedMessages();
      }
    }
  }

  lemma WireAt(parse: Text -> SetQuery, s: Recorder, buf: bytes)
    ensures var d := Drain(Wire(parse), s, buf);
            match WireStep(parse, s, buf)
            case NeedMore => d == Drained(s, buf, false)
            case Halt(s') => d == Drained(s', [], true)
            case Advance(s', n) => 0 < n <= |buf| && d == Drain(Wire(parse), s', buf[n..])
  {
    WireIsStable(parse);
    assert Wire(parse)(s, buf) == WireStep(parse, s, buf);
    assert buf + [] == buf;
    assert Wire(parse)(s, buf + []) == WireStep(parse, s, buf);
  }

  /** Feeding chunks to a fresh decoder, stopping at the first that raises. However the stream is
      cut, the decoder ends as if fed it whole, and holds only what may be recorded. */
  method FeedChunks(parse: Text -> SetQuery, chunks: seq<bytes>) returns (decoder: Decoder, raised: bool)
    ensures fresh(decoder)
    ensures var whole := Drain(Wire(parse), FRESH, Flatten(chunks));
            && raised == whole.halted && Recorder(decoder.startup, decoder.setBatches) == whole.state
            && (!raised ==> decoder.buffer == whole.rest)
    ensures SafeRecorder(Recorder(decoder.startup, decoder.setBatches))
  {
    decoder := new Decoder(parse);
    DecoderIsPayloadSafe(parse, FRESH, Flatten(chunks));
    raised := false;
    for i := 0 to |chunks|
      invariant fresh(decoder) && decoder.parse == parse && !raised && decoder.Valid()
      invariant decoder.fed == Flatten(chunks[..i])
    {
      assert chunks[..i + 1][..i] == chunks[..i];
      raised := decoder.Feed(chunks[i]);
      if raised {
        HaltedForGood(parse, chunks, i + 1);
        return;
      }
    }
    assert chunks[..|chunks|] == chunks;
  }

  lemma {:induction false} HaltedForGood(parse: Text -> SetQuery, chunks: seq<bytes>, i: nat)
    requires i <= |chunks| && Drain(Wire(parse), FRESH, Flatten(chunks[..i])).halted
    ensures Drain(Wire(parse), FRESH, Flatten(chunks)) == Drain(Wire(parse), FRESH, Flatten(chunks[..i]))
    decreases |chunks|
  {
    if i == |chunks| {
      assert chunks[..i] == chunks;
    } else {
      var init := chunks[..|chunks| - 1];
      assert init[..i] == chunks[..i];
      HaltedForGood(parse, init, i);
      WireIsStable(parse);
      DrainConcat(Wire(parse), FRESH, Flatten(init), chunks[|chunks| - 1]);
    }
  }
}
