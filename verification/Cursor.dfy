/** The opaque resume cursor of an agent-run stream: base64url (section 5 of RFC 4648)
    without padding over compact JSON. */
module Cursor {
  import opened Utf8
  import opened Wrappers
  import opened Decimal

  // ---------------------------------------------------------------- base64url

  type Sextet = d: int | 0 <= d < 64

  function SextetChar(d: Sextet): Scalar {
    if d < 26 then 65 + d else if d < 52 then 71 + d else if d < 62 then d - 4 else if d == 62 then 45 else 95
  }

  /** The value of `[A-Za-z0-9_-]`, if it is one of these. */
  function CharSextet(c: Scalar): Option<Sextet> {
    if 65 <= c < 91 then Some(c - 65)
    else if 97 <= c < 123 then Some(c - 71)
    else if 48 <= c < 58 then Some(c + 4)
    else if c == 45 then Some(62)
    else if c == 95 then Some(63)
    else None
  }

  predicate InAlphabet(t: Text) {
    forall i :: 0 <= i < |t| ==> CharSextet(t[i]).Some?
  }

  function Base64(s: Bytes): Text {
    if |s| == 0 then []
    else if |s| == 1 then [SextetChar(s[0] / 4), SextetChar(s[0] % 4 * 16)]
    else if |s| == 2 then
      [SextetChar(s[0] / 4), SextetChar(s[0] % 4 * 16 + s[1] / 16), SextetChar(s[1] % 16 * 4)]
    else
      [SextetChar(s[0] / 4), SextetChar(s[0] % 4 * 16 + s[1] / 16),
       SextetChar(s[1] % 16 * 4 + s[2] / 64), SextetChar(s[2] % 64)] + Base64(s[3..])
  }

  /** Decoding ignores the unused low bits of a last partial group, and fails only on
      a single left-over character. */
  function Unbase64(t: Text): Option<Bytes>
    requires InAlphabet(t)
  {
    if |t| == 0 then Some([])
    else if |t| == 1 then None
    else
      var a, b := CharSextet(t[0]).value, CharSextet(t[1]).value;
      var first: Byte := 4 * a + b / 16;
      if |t| == 2 then Some([first])
      else
        var c := CharSextet(t[2]).value;
        var second: Byte := b % 16 * 16 + c / 4;
        if |t| == 3 then Some([first, second])
        else
          var third: Byte := c % 4 * 64 + CharSextet(t[3]).value;
          match Unbase64(t[4..])
          case None => None
          case Some(rest) => Some([first, second, third] + rest)
  }

  lemma SextetRoundTrip(d: Sextet)
    ensures CharSextet(SextetChar(d)) == Some(d)
  {
  }

  lemma {:induction false} Base64Alphabet(s: Bytes)
    ensures InAlphabet(Base64(s)) && (s != [] ==> Base64(s) != [])
    decreases |s|
  {
    if |s| > 2 { Base64Alphabet(s[3..]); }
  }

  lemma GroupRoundTrip(x: Byte, y: Byte, z: Byte)
    ensures 4 * (x / 4) + (x % 4 * 16 + y / 16) / 16 == x
    ensures (x % 4 * 16 + y / 16) % 16 * 16 + (y % 16 * 4 + z / 64) / 4 == y
    ensures (y % 16 * 4 + z / 64) % 4 * 64 + z % 64 == z
    ensures (x % 4 * 16) / 16 == x % 4 && (y % 16 * 4) / 4 == y % 16
  {
  }

  /** A whole group of three bytes decodes, whatever follows. */
  lemma GroupDecodes(x: Byte, y: Byte, z: Byte, rest: Text)
    requires InAlphabet(rest)
    ensures var t := [SextetChar(x / 4), SextetChar(x % 4 * 16 + y / 16),
                      SextetChar(y % 16 * 4 + z / 64), SextetChar(z % 64)] + rest;
            && InAlphabet(t)
            && Unbase64(t) == match Unbase64(rest) case None => None case Some(s) => Some([x, y, z] + s)
  {
    hide SextetChar, CharSextet;
    GroupRoundTrip(x, y, z);
    SextetRoundTrip(x / 4);
    SextetRoundTrip(x % 4 * 16 + y / 16);
    SextetRoundTrip(y % 16 * 4 + z / 64);
    SextetRoundTrip(z % 64);
    var t := [SextetChar(x / 4), SextetChar(x % 4 * 16 + y / 16),
              SextetChar(y % 16 * 4 + z / 64), SextetChar(z % 64)] + rest;
    assert t[4..] == rest;
  }

  /** So does a last group of one or two bytes. */
  lemma OneDecodes(x: Byte)
    ensures var t := [SextetChar(x / 4), SextetChar(x % 4 * 16)]; InAlphabet(t) && Unbase64(t) == Some([x])
  {
    hide SextetChar, CharSextet;
    GroupRoundTrip(x, 0, 0);
    SextetRoundTrip(x / 4);
    SextetRoundTrip(x % 4 * 16);
  }

  lemma TwoDecode(x: Byte, y: Byte)
    ensures var t := [SextetChar(x / 4), SextetChar(x % 4 * 16 + y / 16), SextetChar(y % 16 * 4)];
            InAlphabet(t) && Unbase64(t) == Some([x, y])
  {
    hide SextetChar, CharSextet;
    GroupRoundTrip(x, y, 0);
    SextetRoundTrip(x / 4);
    SextetRoundTrip(x % 4 * 16 + y / 16);
    SextetRoundTrip(y % 16 * 4);
  }

  lemma NoneDecodes()
    ensures InAlphabet([]) && Unbase64([]) == Some([])
  {
  }

  lemma {:induction false} Unbase64Base64(s: Bytes)
    ensures InAlphabet(Base64(s)) && Unbase64(Base64(s)) == Some(s)
    decreases |s|
  {
    hide SextetChar, CharSextet, InAlphabet, Unbase64;
    if |s| == 0 {
      NoneDecodes();
    } else if |s| == 1 {
      OneDecodes(s[0]);
      assert s == [s[0]];
    } else if |s| == 2 {
      TwoDecode(s[0], s[1]);
      assert s == [s[0], s[1]];
    } else {
      Unbase64Base64(s[3..]);
      GroupDecodes(s[0], s[1], s[2], Base64(s[3..]));
      assert s == [s[0], s[1], s[2]] + s[3..];
    }
  }

  // ---------------------------------------------------------------- JSON strings

  const QUOTE: Scalar := 34
  const BACKSLASH: Scalar := 92

  function HexDigit(d: int): Scalar
    requires 0 <= d < 16
  {
    if d < 10 then 48 + d else 87 + d
  }

  function HexValue(c: Scalar): Option<int> {
    if 48 <= c < 58 then Some(c - 48)
    else if 97 <= c < 103 then Some(c - 87)
    else if 65 <= c < 71 then Some(c - 55)
    else None
  }

  /** The letter of a two-character escape, or 0. */
  function ShortEscape(c: Scalar): Scalar {
    if c == QUOTE then QUOTE
    else if c == BACKSLASH then BACKSLASH
    else if c == 8 then 98
    else if c == 12 then 102
    else if c == 10 then 110
    else if c == 13 then 114
    else if c == 9 then 116
    else 0
  }

  function EscapeChar(c: Scalar): Text {
    if ShortEscape(c) != 0 then [BACKSLASH, ShortEscape(c)]
    else if c < 32 then [BACKSLASH, 117, 48, 48, HexDigit(c / 16), HexDigit(c % 16)]
    else [c]
  }

  /** Only quotes, backslashes and control characters are escaped. */
  lemma EscapedIff(c: Scalar)
    ensures EscapeChar(c) == [c] <==> c != QUOTE && c != BACKSLASH && c >= 32
  {
  }

  /** The inside of a string as `json.dumps` writes it with `ensure_ascii=False`. */
  function Escape(t: Text): Text {
    if t == [] then [] else EscapeChar(t[0]) + Escape(t[1..])
  }

  /** What an escape stands for, and how many characters it takes. */
  function ReadEscape(t: Text): Option<(Scalar, nat)>
    requires t != [] && t[0] == BACKSLASH
  {
    if |t| < 2 then None
    else if t[1] == QUOTE || t[1] == BACKSLASH || t[1] == 47 then Some((t[1], 2))
    else if t[1] == 98 then Some((8, 2))
    else if t[1] == 102 then Some((12, 2))
    else if t[1] == 110 then Some((10, 2))
    else if t[1] == 114 then Some((13, 2))
    else if t[1] == 116 then Some((9, 2))
    else if t[1] == 117 && |t| >= 6 && t[2] == 48 && t[3] == 48 && HexValue(t[4]).Some? && HexValue(t[5]).Some?
    then Some((16 * HexValue(t[4]).value + HexValue(t[5]).value, 6))
    else None
  }

  /** Reads up to the closing quote; gives the string and what follows it. */
  function ReadString(t: Text): (r: Option<(Text, Text)>)
    ensures r.Some? ==> |r.value.1| < |t|
    decreases |t|
  {
    if t == [] || t[0] < 32 then None
    else if t[0] == QUOTE then Some(([], t[1..]))
    else if t[0] == BACKSLASH then
      match ReadEscape(t)
      case None => None
      case Some(e) =>
        (match ReadString(t[e.1..])
         case None => None
         case Some(r) => Some(([e.0] + r.0, r.1)))
    else
      match ReadString(t[1..])
      case None => None
      case Some(r) => Some(([t[0]] + r.0, r.1))
  }

  lemma ReadEscaped(c: Scalar, rest: Text)
    ensures EscapeChar(c)[0] == BACKSLASH ==>
              ReadEscape(EscapeChar(c) + rest) == Some((c, |EscapeChar(c)|))
    ensures EscapeChar(c)[0] != BACKSLASH ==> EscapeChar(c) == [c] && c >= 32 && c != QUOTE
  {
    if ShortEscape(c) == 0 && c < 32 {
      assert HexValue(HexDigit(c / 16)) == Some(c / 16);
      assert HexValue(HexDigit(c % 16)) == Some(c % 16);
    }
  }

  /** Reading undoes quoting, whatever follows the string. */
  lemma {:induction false} ReadQuoted(t: Text, rest: Text)
    ensures ReadString(Escape(t) + [QUOTE] + rest) == Some((t, rest))
    decreases |t|
  {
    hide EscapeChar, ReadEscape;
    var s := Escape(t) + [QUOTE] + rest;
    if t == [] {
      assert s == [QUOTE] + rest;
    } else {
      var e, tail := EscapeChar(t[0]), Escape(t[1..]) + [QUOTE] + rest;
      assert s == e + tail;
      ReadEscaped(t[0], tail);
      ReadQuoted(t[1..], rest);
      EscapeSize(t[0]);
      assert s[0] == e[0];
      assert s[|e|..] == tail;
      assert t == [t[0]] + t[1..];
    }
  }

  lemma EscapeSize(c: Scalar)
    ensures 1 <= |EscapeChar(c)| && EscapeChar(c)[0] >= 32 && EscapeChar(c)[0] != QUOTE
  {
  }

  // ---------------------------------------------------------------- the payload

  const SCHEMA: Text := Literal("session.stream.cursor.v1")
  const RUN_KEY: Text := Literal("{\"agentRunId\":\"")
  const SCHEMA_KEY: Text := Literal(",\"schema\":\"")
  const SEQUENCE_KEY: Text := Literal(",\"sourceSequence\":")
  const CLOSE: Text := Literal("}")

  datatype Payload = Payload(agentRunId: Text, schema: Text, sourceSequence: nat)

  /** Compact JSON with sorted keys. */
  function Dumps(p: Payload): Text {
    RUN_KEY + (Escape(p.agentRunId) + [QUOTE]
      + (SCHEMA_KEY + (Escape(p.schema) + [QUOTE]
          + (SEQUENCE_KEY + (Print(p.sourceSequence) + CLOSE)))))
  }

  function Strip(t: Text, front: Text): Option<Text> {
    if front <= t then Some(t[|front|..]) else None
  }

  lemma StripFront(front: Text, rest: Text)
    ensures Strip(front + rest, front) == Some(rest)
  {
  }

  /** A JSON reader, giving nothing for texts that do not load or do not load to an
      object with exactly these members. Of the reader in use only this is needed:
      it reads back what the printer wrote. */
  type Reader = Text -> Option<Payload>

  ghost predicate ReadsBack(loads: Reader) {
    forall p :: loads(Dumps(p)) == Some(p)
  }

  /** The strictest reader: these members, in this order, without spaces. */
  function Loads(t: Text): Option<Payload> {
    match Strip(t, RUN_KEY)
    case None => None
    case Some(t1) =>
      match ReadString(t1)
      case None => None
      case Some(run) =>
        match Strip(run.1, SCHEMA_KEY)
        case None => None
        case Some(t2) =>
          match ReadString(t2)
          case None => None
          case Some(schema) =>
            match Strip(schema.1, SEQUENCE_KEY)
            case None => None
            case Some(t3) =>
              var k := DigitsBefore(t3);
              if Canonical(t3[..k]) && t3[k..] == CLOSE then Some(Payload(run.0, schema.0, Value(t3[..k]))) else None
  }

  lemma ReadPrinted(n: nat)
    ensures var t := Print(n) + CLOSE; var k := DigitsBefore(t);
            t[..k] == Print(n) && t[k..] == CLOSE
  {
    hide Print;
    DigitsBeforeRest(Print(n), CLOSE);
  }

  lemma LoadsDumps(p: Payload)
    ensures Loads(Dumps(p)) == Some(p)
  {
    hide Escape, ReadString, Strip, Print, Value, DigitsBefore, Literal;
    var end := Print(p.sourceSequence) + CLOSE;
    var t3 := SEQUENCE_KEY + end;
    var t2 := Escape(p.schema) + [QUOTE] + t3;
    var t1 := SCHEMA_KEY + t2;
    var t0 := Escape(p.agentRunId) + [QUOTE] + t1;
    StripFront(RUN_KEY, t0);
    ReadQuoted(p.agentRunId, t1);
    StripFront(SCHEMA_KEY, t2);
    ReadQuoted(p.schema, t3);
    StripFront(SEQUENCE_KEY, end);
    ReadPrinted(p.sourceSequence);
    ValuePrint(p.sourceSequence);
  }

  lemma StrictReaderReadsBack()
    ensures ReadsBack(Loads)
  {
    hide Loads, Dumps;
    forall p ensures Loads(Dumps(p)) == Some(p) { LoadsDumps(p); }
  }

  // ---------------------------------------------------------------- the cursor

  const MAX_LENGTH := 512
  const PREFIX: Text := Literal("v1.")
  const ZERO: Text := Literal("0-0")

  function EncodeCursor(run: Text, sequence: nat): Text {
    if sequence == 0 then ZERO else PREFIX + Base64(Encode(Dumps(Payload(run, SCHEMA, sequence))))
  }

  function ParseCursor(loads: Reader, value: Text, run: Text): Option<nat> {
    if value == [] || value == ZERO then Some(0)
    else if |value| > MAX_LENGTH || !(PREFIX <= value) then None
    else
      var encoded := value[|PREFIX|..];
      if encoded == [] || !InAlphabet(encoded) then None
      else
        match Unbase64(encoded)
        case None => None
        case Some(raw) =>
          match Decode(raw)
          case Malformed(_, _) => None
          case Decoded(text) =>
            match loads(text)
            case None => None
            case Some(p) =>
              if p.schema == SCHEMA && p.agentRunId == run && p.sourceSequence > 0
                 && EncodeCursor(run, p.sourceSequence) == value
              then Some(p.sourceSequence) else None
  }

  lemma ReadEncoded(loads: Reader, run: Text, sequence: nat)
    requires sequence > 0 && ReadsBack(loads)
    ensures var encoded := EncodeCursor(run, sequence)[|PREFIX|..];
            && PREFIX <= EncodeCursor(run, sequence) && encoded != [] && InAlphabet(encoded)
            && Unbase64(encoded).Some? && Decode(Unbase64(encoded).value).Decoded?
            && loads(Decode(Unbase64(encoded).value).text) == Some(Payload(run, SCHEMA, sequence))
  {
    hide Encode, Decode, Dumps, Base64, Unbase64, Literal, InAlphabet;
    var text := Dumps(Payload(run, SCHEMA, sequence));
    Unbase64Base64(Encode(text));
    DecodeEncode(text);
    DumpsNonEmpty(Payload(run, SCHEMA, sequence));
    EncodeLength(text);
    Base64Alphabet(Encode(text));
    assert EncodeCursor(run, sequence)[|PREFIX|..] == Base64(Encode(text));
  }

  lemma DumpsNonEmpty(p: Payload)
    ensures Dumps(p) != []
  {
    hide Escape, Print;
  }

  lemma Heads()
    ensures |PREFIX| == 3 && PREFIX[0] == 118 && |ZERO| == 3 && ZERO[0] == 48
  {
  }

  /** The parser accepts the two zero forms and the printed cursors of this run that
      are within the length limit, and nothing else. */
  lemma ParserIsExact(loads: Reader, value: Text, run: Text, n: nat)
    requires ReadsBack(loads)
    ensures ParseCursor(loads, value, run) == Some(n)
            <==> || (n == 0 && (value == [] || value == ZERO))
                 || (n > 0 && value == EncodeCursor(run, n) && |value| <= MAX_LENGTH)
  {
    hide Encode, Decode, Dumps, Base64, Unbase64, Literal, InAlphabet;
    Heads();
    if n > 0 { ReadEncoded(loads, run, n); }
  }

  /** One cursor never stands for two positions, nor for two runs: a cursor of another run is refused. */
  lemma CursorIsUnambiguous(run: Text, n: nat, run': Text, n': nat)
    requires EncodeCursor(run, n) == EncodeCursor(run', n')
    ensures n == n' && (n > 0 ==> run == run')
  {
    hide Encode, Decode, Dumps, Base64, Unbase64, Literal, InAlphabet;
    Heads();
    StrictReaderReadsBack();
    if n > 0 { ReadEncoded(Loads, run, n); }
    if n' > 0 { ReadEncoded(Loads, run', n'); }
  }
}
