/**
 * UTF-8 (section 3 of RFC 3629) as Python's codec implements it.  A Python string is a sequence of
 * code points, lone surrogates included; those have no encoding.
 */
module Utf8 {
  type Byte = b: int | 0 <= b < 0x100
  type CodePoint = c: int | 0 <= c < 0x11_0000
  type Text = seq<CodePoint>
  type Bytes = seq<Byte>

  /** The characters of a literal, as numbers. */
  function Codes(s: string): (t: seq<int>)
    ensures |t| == |s| && forall i | 0 <= i < |s| :: t[i] == s[i] as int
  {
    seq(|s|, i requires 0 <= i < |s| => s[i] as int)
  }

  predicate Surrogate(c: CodePoint) {
    0xD800 <= c < 0xE000
  }

  /** `text.encode("utf-8")` succeeds. */
  predicate Encodable(text: Text) {
    forall i | 0 <= i < |text| :: !Surrogate(text[i])
  }

  function EncodeOne(c: CodePoint): (e: Bytes)
    ensures 1 <= |e| <= 4
  {
    if c < 0x80 then [c]
    else if c < 0x800 then [0xC0 + c / 0x40, 0x80 + c % 0x40]
    else if c < 0x1_0000 then [0xE0 + c / 0x1000, 0x80 + c / 0x40 % 0x40, 0x80 + c % 0x40]
    else [0xF0 + c / 0x4_0000, 0x80 + c / 0x1000 % 0x40, 0x80 + c / 0x40 % 0x40, 0x80 + c % 0x40]
  }

  /** One code point of each length, as in the examples of section 7 of RFC 3629. */
  lemma EncodingExamples()
    ensures EncodeOne(0x41) == [0x41]
    ensures EncodeOne(0x391) == [0xCE, 0x91]
    ensures EncodeOne(0x2262) == [0xE2, 0x89, 0xA2]
    ensures EncodeOne(0x233B4) == [0xF0, 0xA3, 0x8E, 0xB4]
  {
  }

  function Encode(text: Text): (e: Bytes)
    ensures |text| <= |e|
  {
    if text == [] then [] else EncodeOne(text[0]) + Encode(text[1..])
  }

  lemma {:induction false} EncodeConcat(a: Text, b: Text)
    ensures Encode(a + b) == Encode(a) + Encode(b)
  {
    if a == [] {
      assert a + b == b;
    } else {
      assert (a + b)[1..] == a[1..] + b;
      EncodeConcat(a[1..], b);
    }
  }

  // ---------------------------------------------------------------- decoding

  /** Length announced by a lead byte; 0 if the byte cannot start a character. */
  function Announced(lead: Byte): nat {
    if lead < 0x80 then 1
    else if 0xC2 <= lead < 0xE0 then 2
    else if 0xE0 <= lead < 0xF0 then 3
    else if 0xF0 <= lead < 0xF5 then 4
    else 0
  }

  predicate Continuation(b: Byte) {
    0x80 <= b < 0xC0
  }

  /** The second byte is narrower after E0, ED, F0 and F4: no overlong forms, no surrogates, nothing past 10FFFF. */
  predicate SecondOk(lead: Byte, b: Byte) {
    && (if lead == 0xE0 then 0xA0 else if lead == 0xF0 then 0x90 else 0x80) <= b
    && b < (if lead == 0xED then 0xA0 else if lead == 0xF4 then 0x90 else 0xC0)
  }

  /** The payload bits of a byte that starts with `mark`. */
  function Bits(b: Byte, mark: Byte): int {
    b as int - mark as int
  }

  datatype Step = Good(c: CodePoint, n: nat) | Bad(n: nat)

  /** The character at the front, or how many bytes of a broken one the decoder skips. */
  function DecodeStep(b: Bytes): (s: Step)
    requires b != []
    ensures 1 <= s.n <= |b|
  {
    var lead := b[0];
    var need := Announced(lead);
    if need == 0 then Bad(1)
    else if need == 1 then Good(lead, 1)
    else if |b| < 2 || !SecondOk(lead, b[1]) then Bad(1)
    else if need == 2 then Good(Bits(lead, 0xC0) * 0x40 + Bits(b[1], 0x80), 2)
    else if |b| < 3 || !Continuation(b[2]) then Bad(2)
    else if need == 3 then Good(Bits(lead, 0xE0) * 0x1000 + Bits(b[1], 0x80) * 0x40 + Bits(b[2], 0x80), 3)
    else if |b| < 4 || !Continuation(b[3]) then Bad(3)
    else Good(Bits(lead, 0xF0) * 0x4_0000 + Bits(b[1], 0x80) * 0x1000 + Bits(b[2], 0x80) * 0x40 + Bits(b[3], 0x80), 4)
  }

  const IGNORE: Text := []
  const REPLACE: Text := [0xFFFD]

  /** `b.decode("utf-8", errors=...)`: what stands for a broken character is `onError`. */
  function Decode(b: Bytes, onError: Text): Text {
    if b == [] then []
    else
      match DecodeStep(b)
      case Good(c, n) => [c] + Decode(b[n..], onError)
      case Bad(n) => onError + Decode(b[n..], onError)
  }

  /** A code point is made of its six-bit groups. */
  lemma Groups(c: nat)
    ensures c == c / 0x40 * 0x40 + c % 0x40
    ensures c / 0x40 == c / 0x1000 * 0x40 + c / 0x40 % 0x40
    ensures c / 0x1000 == c / 0x4_0000 * 0x40 + c / 0x1000 % 0x40
  {
  }

  lemma DecodeStepInvertsEncodeOne(c: CodePoint, rest: Bytes)
    requires !Surrogate(c)
    ensures DecodeStep(EncodeOne(c) + rest) == Good(c, |EncodeOne(c)|)
  {
    var e := EncodeOne(c);
    var b := e + rest;
    assert b[0] == e[0];
    Groups(c);
    if c < 0x80 {
      assert e == [c];
    } else if c < 0x800 {
      assert b[1] == e[1] == 0x80 + c % 0x40;
      assert Announced(b[0]) == 2;
    } else if c < 0x1_0000 {
      assert b[1] == e[1] == 0x80 + c / 0x40 % 0x40;
      assert b[2] == e[2] == 0x80 + c % 0x40;
      assert Announced(b[0]) == 3;
      assert SecondOk(b[0], b[1]);
    } else {
      assert b[1] == e[1] == 0x80 + c / 0x1000 % 0x40;
      assert b[2] == e[2] == 0x80 + c / 0x40 % 0x40;
      assert b[3] == e[3] == 0x80 + c % 0x40;
      assert Announced(b[0]) == 4;
      assert SecondOk(b[0], b[1]);
    }
  }

  /** A character is read only from its own bytes, so overlong forms, surrogates and stray bytes are broken. */
  lemma GoodMeansEncoded(b: Bytes)
    requires b != [] && DecodeStep(b).Good?
    ensures var Good(c, n) := DecodeStep(b);
            !Surrogate(c) && EncodeOne(c) == b[..n]
  {
    var lead, n := b[0], DecodeStep(b).n;
    var c: int := DecodeStep(b).c;
    if n == 1 {
      assert b[..1] == [lead];
    } else if n == 2 {
      var (x: int, y: int) := (lead as int - 0xC0, b[1] as int - 0x80);
      SixBits(c, x, y);
      assert EncodeOne(c) == [lead, b[1]] == b[..2];
    } else if n == 3 {
      var (x: int, y: int, z: int) := (lead as int - 0xE0, b[1] as int - 0x80, b[2] as int - 0x80);
      SixBits(c, x * 0x40 + y, z);
      SixBits(x * 0x40 + y, x, y);
      Groups(c);
      assert EncodeOne(c) == [lead, b[1], b[2]] == b[..3];
    } else {
      FourBytes(b);
    }
  }

  lemma FourBytes(b: Bytes)
    requires b != [] && DecodeStep(b).Good? && DecodeStep(b).n == 4
    ensures var Good(c, n) := DecodeStep(b);
            !Surrogate(c) && EncodeOne(c) == b[..n]
  {
    var c: int := DecodeStep(b).c;
    var (w: int, x: int) := (b[0] as int - 0xF0, b[1] as int - 0x80);
    var (y: int, z: int) := (b[2] as int - 0x80, b[3] as int - 0x80);
    SixBits(c, (w * 0x40 + x) * 0x40 + y, z);
    SixBits((w * 0x40 + x) * 0x40 + y, w * 0x40 + x, y);
    SixBits(w * 0x40 + x, w, x);
    Groups(c);
    assert EncodeOne(c) == [b[0], b[1], b[2], b[3]] == b[..4];
  }

  lemma SixBits(c: int, q: int, r: int)
    requires 0 <= q && 0 <= r < 0x40 && c == q * 0x40 + r
    ensures c / 0x40 == q && c % 0x40 == r
    ensures c / 0x1000 == q / 0x40 && c / 0x4_0000 == q / 0x1000
  {
  }

  /** The code points that have no encoding, and what stands for broken bytes. */
  lemma SurrogatesAre(c: CodePoint)
    ensures Encodable([c]) <==> c < 0xD800 || c > 0xDFFF
    ensures IGNORE == Codes("") && REPLACE == Codes("\U{FFFD}")
  {
    assert Encodable([c]) <==> !Surrogate([c][0]);
  }

  /** Decoding a whole character in front of anything. */
  lemma DecodeCons(c: CodePoint, rest: Bytes, onError: Text)
    requires !Surrogate(c)
    ensures Decode(EncodeOne(c) + rest, onError) == [c] + Decode(rest, onError)
  {
    hide EncodeOne, DecodeStep;
    var e := EncodeOne(c);
    DecodeStepInvertsEncodeOne(c, rest);
    assert (e + rest)[|e|..] == rest;
  }

  /** Decoding inverts encoding, whatever the error handling. */
  lemma {:induction false} DecodeInvertsEncode(text: Text, rest: Bytes, onError: Text)
    requires Encodable(text)
    ensures Decode(Encode(text) + rest, onError) == text + Decode(rest, onError)
  {
    hide EncodeOne, Decode;
    if text == [] {
      assert Encode(text) + rest == rest;
    } else {
      var tail := Encode(text[1..]) + rest;
      assert Encode(text) + rest == EncodeOne(text[0]) + tail;
      DecodeCons(text[0], tail, onError);
      DecodeInvertsEncode(text[1..], rest, onError);
      assert [text[0]] + (text[1..] + Decode(rest, onError)) == text + Decode(rest, onError);
    }
  }

  /** The front of a character is one broken character reaching to the end. */
  lemma DecodeStepOfFront(c: CodePoint, n: nat)
    requires !Surrogate(c) && 0 < n < |EncodeOne(c)|
    ensures DecodeStep(EncodeOne(c)[..n]) == Bad(n)
  {
  }

  /** Number of leading code points whose encoding fits in `n` bytes. */
  function Fitting(text: Text, n: nat): (k: nat)
    ensures k <= |text|
  {
    if text == [] || n < |EncodeOne(text[0])| then 0
    else 1 + Fitting(text[1..], n - |EncodeOne(text[0])|)
  }

  /** The longest: what fits, fits, and one code point more would not. */
  lemma {:induction false} FittingIsLongest(text: Text, n: nat)
    ensures |Encode(text[..Fitting(text, n)])| <= n
    ensures forall k | Fitting(text, n) < k <= |text| :: n < |Encode(text[..k])|
  {
    if text == [] {
    } else {
      var e := EncodeOne(text[0]);
      forall k | 0 < k <= |text|
        ensures |Encode(text[..k])| == |e| + |Encode(text[1..][..k - 1])|
      {
        assert text[..k][1..] == text[1..][..k - 1];
      }
      if |e| <= n {
        FittingIsLongest(text[1..], n - |e|);
      }
    }
  }

  lemma DecodeOfFront(c: CodePoint, n: nat)
    requires !Surrogate(c) && n < |EncodeOne(c)|
    ensures Decode(EncodeOne(c)[..n], IGNORE) == []
  {
    hide EncodeOne, DecodeStep;
    if n > 0 {
      var front := EncodeOne(c)[..n];
      DecodeStepOfFront(c, n);
      assert front[n..] == [];
    }
  }

  /** Decoding the first `n` bytes and ignoring errors keeps exactly the code points that fit. */
  lemma {:induction false} DecodeOfPrefix(text: Text, n: nat)
    requires Encodable(text) && n <= |Encode(text)|
    ensures Decode(Encode(text)[..n], IGNORE) == text[..Fitting(text, n)]
    decreases text, 1
  {
    if text != [] {
      DecodeOfPrefixStep(text, n);
    }
  }

  lemma DecodeOfPrefixStep(text: Text, n: nat)
    requires Encodable(text) && n <= |Encode(text)| && text != []
    ensures Decode(Encode(text)[..n], IGNORE) == text[..Fitting(text, n)]
    decreases text, 0
  {
    hide EncodeOne, Decode;
    var e := EncodeOne(text[0]);
    if n < |e| {
      assert Encode(text)[..n] == e[..n];
      DecodeOfFront(text[0], n);
    } else {
      var tail := Encode(text[1..])[..n - |e|];
      assert Encode(text)[..n] == e + tail;
      DecodeCons(text[0], tail, IGNORE);
      DecodeOfPrefix(text[1..], n - |e|);
      assert text[..Fitting(text, n)] == [text[0]] + text[1..][..Fitting(text[1..], n - |e|)];
    }
  }

  lemma {:induction false} AsciiEncodesItself(text: Text)
    requires forall i | 0 <= i < |text| :: text[i] < 0x80
    ensures Encode(text) == text
  {
    if text != [] {
      AsciiEncodesItself(text[1..]);
    }
  }
}
