/** UTF-8 as in section 4 of RFC 3629, with the decoder's three outcomes: a whole
    text, a text cut off inside its last character, or bytes no text can contain.
    Everything that slices encoded text in this project rests on `DecodePrefix` and
    `DecodeInside`. */
module Utf8 {
  import opened Wrappers

  type Byte = b: int | 0 <= b < 256
  type Bytes = seq<Byte>

  /** A Unicode scalar value: a code point that is not a surrogate. */
  type Scalar = c: int | 0 <= c < 0x11_0000 && !(0xD800 <= c < 0xE000)
  type Text = seq<Scalar>

  const NEWLINE := 10

  predicate IsContinuation(b: Byte) {
    0x80 <= b < 0xC0
  }

  /** Characters `str.strip` removes. */
  predicate IsSpace(c: Scalar) {
    || 9 <= c <= 13 || 28 <= c <= 32 || c == 0x85 || c == 0xA0 || c == 0x1680
    || 0x2000 <= c <= 0x200A || c == 0x2028 || c == 0x2029 || c == 0x202F || c == 0x205F || c == 0x3000
  }

  /** `not t.strip()`: nothing but white space. */
  predicate Blank(t: Text) {
    forall c :: c in t ==> IsSpace(c)
  }

  function EncodeScalar(c: Scalar): (e: Bytes)
    ensures 1 <= |e| <= 4
    ensures !IsContinuation(e[0])
    ensures forall i :: 1 <= i < |e| ==> IsContinuation(e[i])
  {
    if c < 0x80 then [c]
    else if c < 0x800 then [0xC0 + c / 64, 0x80 + c % 64]
    else if c < 0x1_0000 then [0xE0 + c / 4096, 0x80 + c / 64 % 64, 0x80 + c % 64]
    else [0xF0 + c / 26_2144, 0x80 + c / 4096 % 64, 0x80 + c / 64 % 64, 0x80 + c % 64]
  }

  function Encode(t: Text): Bytes {
    if t == [] then [] else EncodeScalar(t[0]) + Encode(t[1..])
  }

  // What the front of a byte string holds.
  datatype Head = Whole(scalar: Scalar, length: nat) | CutOff | Bad

  /** The range the byte after lead byte `lead` must lie in. */
  predicate SecondByteOk(lead: Byte, b: Byte) {
    IsContinuation(b)
    && (lead == 0xE0 ==> 0xA0 <= b)
    && (lead == 0xED ==> b < 0xA0)
    && (lead == 0xF0 ==> 0x90 <= b)
    && (lead == 0xF4 ==> b < 0x90)
  }

  function LeadLength(b: Byte): nat {
    if b < 0x80 then 1
    else if 0xC2 <= b < 0xE0 then 2
    else if 0xE0 <= b < 0xF0 then 3
    else if 0xF0 <= b < 0xF5 then 4
    else 0
  }

  function ReadHead(s: Bytes): Head
    requires s != []
  {
    var n := LeadLength(s[0]);
    if n == 0 then Bad
    else if n == 1 then Whole(s[0], 1)
    else if |s| > 1 && !SecondByteOk(s[0], s[1]) then Bad
    else if n > 2 && |s| > 2 && !IsContinuation(s[2]) then Bad
    else if n > 3 && |s| > 3 && !IsContinuation(s[3]) then Bad
    else if |s| < n then CutOff
    else
      var payload: seq<int> := s[..n];
      if n == 2 then Whole(64 * payload[0] + payload[1] - 0x3080, 2)
      else if n == 3 then Whole(4096 * payload[0] + 64 * payload[1] + payload[2] - 0xE_2080, 3)
      else Whole(26_2144 * payload[0] + 4096 * payload[1] + 64 * payload[2] + payload[3] - 0x3C8_2080, 4)
  }

  /** Strict decoding. `Malformed` carries where the first undecodable character
      starts and whether the bytes merely ended too early. */
  datatype Decoded = Decoded(text: Text) | Malformed(start: nat, cutOff: bool)

  function Decode(s: Bytes): (d: Decoded)
    ensures d.Malformed? ==> d.start < |s|
  {
    if s == [] then Decoded([])
    else match ReadHead(s)
      case Whole(c, n) =>
        (match Decode(s[n..])
         case Decoded(t) => Decoded([c] + t)
         case Malformed(start, cutOff) => Malformed(n + start, cutOff))
      case CutOff => Malformed(0, true)
      case Bad => Malformed(0, false)
  }

  lemma SixBitDigits(c: Scalar)
    ensures c == 64 * (c / 64) + c % 64
    ensures c / 64 == 64 * (c / 4096) + c / 64 % 64
    ensures c / 4096 == 64 * (c / 26_2144) + c / 4096 % 64
  {
    NestedDivision(c);
  }

  lemma Digit64(q: int, r: int)
    requires 0 <= q && 0 <= r < 64
    ensures (64 * q + r) / 64 == q && (64 * q + r) % 64 == r
  {
  }

  lemma DigitsOf(w: int, x: int, y: int, z: int)
    requires 0 <= w && 0 <= x < 64 && 0 <= y < 64 && 0 <= z < 64
    ensures var c := 26_2144 * w + 4096 * x + 64 * y + z;
            && c % 64 == z && c / 64 % 64 == y && c / 4096 % 64 == x
            && c / 64 == 4096 * w + 64 * x + y && c / 4096 == 64 * w + x && c / 26_2144 == w
  {
    var c := 26_2144 * w + 4096 * x + 64 * y + z;
    Digit64(4096 * w + 64 * x + y, z);
    Digit64(64 * w + x, y);
    Digit64(w, x);
    assert c == 64 * (4096 * w + 64 * x + y) + z;
    assert c / 64 == 64 * (64 * w + x) + y;
    NestedDivision(c);
  }

  lemma NestedDivision(c: int)
    requires c >= 0
    ensures c / 64 / 64 == c / 4096 && c / 4096 / 64 == c / 26_2144
  {
  }

  lemma HeadOfEncoded(c: Scalar, rest: Bytes)
    ensures ReadHead(EncodeScalar(c) + rest) == Whole(c, |EncodeScalar(c)|)
  {
    SixBitDigits(c);
    var e := EncodeScalar(c);
    var s := e + rest;
    assert s[0] == e[0];
    assert |e| > 1 ==> s[1] == e[1];
    assert |e| > 2 ==> s[2] == e[2];
    assert |e| > 3 ==> s[3] == e[3];
  }

  lemma HeadOfCutScalar(c: Scalar, n: nat)
    requires 0 < n < |EncodeScalar(c)|
    ensures ReadHead(EncodeScalar(c)[..n]) == CutOff
  {
    SixBitDigits(c);
  }

  lemma EncodedHead(s: Bytes)
    requires s != [] && ReadHead(s).Whole?
    ensures var h := ReadHead(s); 1 <= h.length <= |s| && EncodeScalar(h.scalar) == s[..h.length]
  {
    var n := LeadLength(s[0]);
    assert ReadHead(s).length == n;
    if n == 2 {
      DigitsOf(0, 0, s[0] - 0xC0, s[1] - 0x80);
    } else if n == 3 {
      DigitsOf(0, s[0] - 0xE0, s[1] - 0x80, s[2] - 0x80);
    } else if n == 4 {
      DigitsOf(s[0] - 0xF0, s[1] - 0x80, s[2] - 0x80, s[3] - 0x80);
    }
  }

  lemma DecodeAfterScalar(c: Scalar, rest: Bytes)
    ensures Decode(EncodeScalar(c) + rest) ==
            match Decode(rest)
            case Decoded(t) => Decoded([c] + t)
            case Malformed(start, cutOff) => Malformed(|EncodeScalar(c)| + start, cutOff)
  {
    HeadOfEncoded(c, rest);
    assert (EncodeScalar(c) + rest)[|EncodeScalar(c)|..] == rest;
  }

  lemma DecodeCutScalar(c: Scalar, n: nat)
    requires 0 < n < |EncodeScalar(c)|
    ensures Decode(EncodeScalar(c)[..n]) == Malformed(0, true)
  {
    HeadOfCutScalar(c, n);
  }

  lemma DecodedHead(s: Bytes) returns (c: Scalar, rest: Bytes)
    requires s != [] && Decode(s).Decoded?
    ensures s == EncodeScalar(c) + rest && |rest| < |s|
    ensures Decode(rest).Decoded? && Decode(s).text == [c] + Decode(rest).text
  {
    EncodedHead(s);
    c, rest := ReadHead(s).scalar, s[ReadHead(s).length..];
    assert s == s[..ReadHead(s).length] + rest;
  }

  /** Decoding undoes encoding on every text. */
  lemma {:induction false} DecodeEncode(t: Text)
    ensures Decode(Encode(t)) == Decoded(t)
  {
    if t != [] {
      DecodeAfterScalar(t[0], Encode(t[1..]));
      DecodeEncode(t[1..]);
      assert [t[0]] + t[1..] == t;
    }
  }

  /** Encoding undoes decoding: every valid byte string has exactly one text. */
  lemma {:induction false} EncodeDecode(s: Bytes)
    requires Decode(s).Decoded?
    ensures Encode(Decode(s).text) == s
    decreases |s|
  {
    if s != [] {
      var c, rest := DecodedHead(s);
      EncodeDecode(rest);
      assert ([c] + Decode(rest).text)[1..] == Decode(rest).text;
    }
  }

  lemma EncodeStep(t: Text)
    ensures Encode([]) == []
    ensures t != [] ==> Encode(t) == EncodeScalar(t[0]) + Encode(t[1..])
  {
  }

  lemma {:induction false} EncodeConcat(a: Text, b: Text)
    ensures Encode(a + b) == Encode(a) + Encode(b)
  {
    hide Encode, EncodeScalar;
    EncodeStep(a);
    if a == [] {
      assert a + b == b;
    } else {
      EncodeStep(a + b);
      EncodeConcat(a[1..], b);
      assert (a + b)[1..] == a[1..] + b;
      Associates(EncodeScalar(a[0]), Encode(a[1..]), Encode(b));
    }
  }

  lemma EncodeSplit(t: Text, k: nat)
    requires k <= |t|
    ensures Encode(t) == Encode(t[..k]) + Encode(t[k..])
    ensures |Encode(t[..k])| <= |Encode(t)|
    ensures Encode(t)[|Encode(t[..k])|..] == Encode(t[k..])
    ensures Encode(t)[..|Encode(t[..k])|] == Encode(t[..k])
  {
    EncodeConcat(t[..k], t[k..]);
    assert t[..k] + t[k..] == t;
  }

  lemma {:induction false} EncodeLength(t: Text)
    ensures |t| <= |Encode(t)| <= 4 * |t|
  {
    if t != [] { EncodeLength(t[1..]); }
  }

  /** A byte offset at which a character of `Encode(t)` starts, or its end. */
  predicate Boundary(s: Bytes, i: nat) {
    i == |s| || (i < |s| && !IsContinuation(s[i]))
  }

  /** How many whole characters of `t` fit in its first `i` encoded bytes. */
  function WholeWithin(t: Text, i: nat): (k: nat)
    ensures k <= |t|
    ensures |Encode(t[..k])| <= i
    ensures k < |t| ==> i < |Encode(t[..k + 1])|
  {
    if t == [] then 0
    else if i < |EncodeScalar(t[0])| then
      assert t[..1][1..] == [];
      assert t[..1][0] == t[0];
      0
    else
      var k := WholeWithin(t[1..], i - |EncodeScalar(t[0])|);
      assert t[..k + 1][1..] == t[1..][..k];
      assert k + 1 < |t| ==> t[..k + 2][1..] == t[1..][..k + 1];
      k + 1
  }

  lemma PrefixLengths(t: Text, j: nat, k: nat)
    ensures j <= k <= |t| ==> |Encode(t[..j])| <= |Encode(t[..k])|
  {
    if j <= k <= |t| {
      EncodeSplit(t[..k], j);
      assert t[..k][..j] == t[..j];
    }
  }

  /** `WholeWithin` returns `j` when offset `i` falls in character `j`. */
  lemma {:induction false} WholeWithinUnique(t: Text, i: nat, j: nat)
    requires j <= |t| && |Encode(t[..j])| <= i
    requires j < |t| ==> i < |Encode(t[..j + 1])|
    ensures WholeWithin(t, i) == j
  {
    var k := WholeWithin(t, i);
    PrefixLengths(t, k + 1, j);
    PrefixLengths(t, j + 1, k);
  }

  lemma WholeStep(t: Text, i: nat)
    ensures t == [] ==> WholeWithin(t, i) == 0
    ensures t != [] ==>
              var e := EncodeScalar(t[0]);
              && WholeWithin(t, i) == (if i < |e| then 0 else 1 + WholeWithin(t[1..], i - |e|))
              && Encode(t) == e + Encode(t[1..])
    ensures |Encode(t[..0])| == 0
  {
  }

  /** The first characters of a text with one more in front. */
  lemma FrontStep(t: Text, k: nat)
    requires t != [] && k < |t|
    ensures t[..k + 1] == [t[0]] + t[1..][..k]
    ensures Encode(t[..k + 1]) == EncodeScalar(t[0]) + Encode(t[1..][..k])
  {
    hide EncodeScalar, Encode;
    EncodeStep(t[..k + 1]);
    assert t[..k + 1][1..] == t[1..][..k];
  }

  /** The first `i` bytes of a text decode to its whole characters there, or stop
      as cut off exactly where the split character starts, at most 3 bytes back. */
  lemma {:induction false} DecodePrefix(t: Text, i: nat)
    requires i <= |Encode(t)|
    ensures var k := WholeWithin(t, i); var start := |Encode(t[..k])|;
            && start <= i < start + 4
            && (if start == i then Decode(Encode(t)[..i]) == Decoded(t[..k])
                else Decode(Encode(t)[..i]) == Malformed(start, true))
  {
    hide Decode, Encode, EncodeScalar, WholeWithin;
    WholeStep(t, i);
    EncodeStep([]);
    if t == [] || i == 0 {
      assert t[..0] == [] && Encode(t)[..i] == Encode([]);
      DecodeEncode([]);
    } else {
      var e := EncodeScalar(t[0]);
      var s := Encode(t)[..i];
      if i < |e| {
        assert s == e[..i];
        DecodeCutScalar(t[0], i);
      } else {
        assert s == e + Encode(t[1..])[..i - |e|];
        DecodeAfterScalar(t[0], Encode(t[1..])[..i - |e|]);
        DecodePrefix(t[1..], i - |e|);
        FrontStep(t, WholeWithin(t[1..], i - |e|));
      }
    }
  }

  /** A boundary of the encoded text is the end of some whole prefix of it. */
  lemma {:induction false} BoundaryIsPrefixEnd(t: Text, i: nat)
    requires i <= |Encode(t)|
    ensures Boundary(Encode(t), i) <==> |Encode(t[..WholeWithin(t, i)])| == i
    decreases |t|
  {
    hide Encode, EncodeScalar, WholeWithin;
    WholeStep(t, i);
    EncodeStep([]);
    if t != [] {
      var e := EncodeScalar(t[0]);
      if i < |e| {
        assert Encode(t)[i] == e[i];
      } else {
        BoundaryIsPrefixEnd(t[1..], i - |e|);
        assert i < |Encode(t)| ==> Encode(t)[i] == Encode(t[1..])[i - |e|];
        FrontStep(t, WholeWithin(t[1..], i - |e|));
      }
    }
  }

  /** The end of a whole front is a boundary, and the front is found again from it. */
  lemma PrefixPosition(t: Text, k: nat)
    requires k <= |t|
    ensures |Encode(t[..k])| <= |Encode(t)| && WholeWithin(t, |Encode(t[..k])|) == k
    ensures Boundary(Encode(t), |Encode(t[..k])|)
  {
    hide Encode, WholeWithin;
    EncodeSplit(t, k);
    if k < |t| {
      EncodeSplit(t[..k + 1], k);
      assert t[..k + 1][..k] == t[..k];
      EncodeLength(t[..k + 1][k..]);
    }
    WholeWithinUnique(t, |Encode(t[..k])|, k);
    BoundaryIsPrefixEnd(t, |Encode(t[..k])|);
  }

  /** From inside a character nothing decodes, and not because the bytes ended. */
  lemma DecodeInside(s: Bytes)
    requires s != [] && IsContinuation(s[0])
    ensures Decode(s) == Malformed(0, false)
  {
  }

  lemma SliceOfSlice(s: Bytes, a: nat, b: nat, i: nat, j: nat)
    requires a <= b <= |s| && i <= j <= b - a
    ensures s[a..b][i..j] == s[a + i..a + j]
  {
    assert s[a..b] == s[a..a + i] + s[a + i..a + j] + s[a + j..b];
  }

  /** Number of newlines in a byte string. */
  function Newlines(s: Bytes): nat {
    if s == [] then 0 else (if s[0] == NEWLINE then 1 else 0) + Newlines(s[1..])
  }

  lemma {:induction false} NewlinesConcat(a: Bytes, b: Bytes)
    ensures Newlines(a + b) == Newlines(a) + Newlines(b)
  {
    if a == [] {
      assert a + b == b;
    } else {
      NewlinesConcat(a[1..], b);
      assert (a + b)[1..] == a[1..] + b;
    }
  }

  lemma NewlinesBetween(s: Bytes, i: nat, j: nat)
    requires i <= j <= |s|
    ensures Newlines(s[..j]) == Newlines(s[..i]) + Newlines(s[i..j])
  {
    NewlinesConcat(s[..i], s[i..j]);
    assert s[..i] + s[i..j] == s[..j];
  }

  /** Newlines of a text, counted character by character as `str.count` does. */
  function TextNewlines(t: Text): nat {
    if t == [] then 0 else (if t[0] == NEWLINE then 1 else 0) + TextNewlines(t[1..])
  }

  /** Counting newlines in the text or in its encoding is the same. */
  lemma {:induction false} NewlinesOfText(t: Text)
    ensures Newlines(Encode(t)) == TextNewlines(t)
  {
    if t != [] {
      NewlinesConcat(EncodeScalar(t[0]), Encode(t[1..]));
      NewlinesOfText(t[1..]);
      NewlinesOfScalar(t[0]);
    }
  }

  lemma NewlinesOfScalar(c: Scalar)
    ensures Newlines(EncodeScalar(c)) == if c == NEWLINE then 1 else 0
  {
    var e := EncodeScalar(c);
    assert |e| >= 2 ==> Newlines(e) == Newlines(e[1..]);
    assert |e| >= 3 ==> Newlines(e[1..]) == Newlines(e[1..][1..]);
    assert |e| >= 4 ==> Newlines(e[1..][1..]) == Newlines(e[1..][1..][1..]);
  }
}
