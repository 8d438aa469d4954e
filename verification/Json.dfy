/**
 * JSON as `json_dumps` writes it (compact, ASCII only) and `json.loads` reads it, without fractions.
 * Strings are sequences of code points and may hold lone surrogates, as Python's may.
 */
module Json {
  import opened Options
  import opened Utf8

  datatype Json =
    | Null
    | Bool(b: bool)
    | Num(n: int)
    | Str(text: Text)
    | Arr(items: seq<Json>)
    | Obj(fields: seq<Field>)

  datatype Field = Field(key: Text, value: Json)

  const QUOTE: CodePoint := 0x22
  const BACKSLASH: CodePoint := 0x5C
  const COMMA: CodePoint := 0x2C
  const COLON: CodePoint := 0x3A

  // ---------------------------------------------------------------- printing

  function HexDigit(d: nat): CodePoint
    requires d < 16
  {
    if d < 10 then 0x30 + d else 0x61 + d - 10
  }

  /** `\uXXXX` */
  function Unicode(u: nat): Text
    requires u < 0x1_0000
  {
    [BACKSLASH, 0x75, HexDigit(u / 0x1000), HexDigit(u / 0x100 % 16), HexDigit(u / 16 % 16), HexDigit(u % 16)]
  }

  function High(c: CodePoint): nat
    requires 0x1_0000 <= c
    ensures 0xD800 <= High(c) < 0xDC00
  {
    0xD800 + (c - 0x1_0000) / 0x400
  }

  function Low(c: CodePoint): nat
    requires 0x1_0000 <= c
    ensures 0xDC00 <= Low(c) < 0xE000
  {
    0xDC00 + (c - 0x1_0000) % 0x400
  }

  function Escape(c: CodePoint): Text {
    if c == QUOTE || c == BACKSLASH then [BACKSLASH, c]
    else if c == 0x0A then [BACKSLASH, 0x6E]
    else if c == 0x0D then [BACKSLASH, 0x72]
    else if c == 0x09 then [BACKSLASH, 0x74]
    else if c == 0x0C then [BACKSLASH, 0x66]
    else if c == 0x08 then [BACKSLASH, 0x62]
    else if 0x20 <= c < 0x7F then [c]
    else if c < 0x1_0000 then Unicode(c)
    else Unicode(High(c)) + Unicode(Low(c))
  }

  /** The characters of a string and its closing quote. */
  function PrintChars(t: Text): Text {
    if t == [] then [QUOTE] else Escape(t[0]) + PrintChars(t[1..])
  }

  function PrintString(t: Text): Text {
    [QUOTE] + PrintChars(t)
  }

  function Digits(n: nat): (d: Text)
    ensures d != []
  {
    if n < 10 then [0x30 + n] else Digits(n / 10) + [0x30 + n % 10]
  }

  function PrintInt(n: int): Text {
    if n < 0 then [0x2D] + Digits(-n) else Digits(n)
  }

  const NULL_WORD: Text := [0x6E, 0x75, 0x6C, 0x6C]
  const TRUE_WORD: Text := [0x74, 0x72, 0x75, 0x65]
  const FALSE_WORD: Text := [0x66, 0x61, 0x6C, 0x73, 0x65]

  function Print(j: Json): (p: Text)
    decreases j, 1
  {
    match j
    case Null => NULL_WORD
    case Bool(b) => if b then TRUE_WORD else FALSE_WORD
    case Num(n) => PrintInt(n)
    case Str(t) => PrintString(t)
    case Arr(items) => [0x5B] + if items == [] then [0x5D] else PrintItems(items)
    case Obj(fields) => [0x7B] + if fields == [] then [0x7D] else PrintFields(fields)
  }

  /** One or more items and the closing bracket. */
  function PrintItems(items: seq<Json>): Text
    requires items != []
    decreases items, 0
  {
    Print(items[0]) + if |items| == 1 then [0x5D] else [COMMA] + PrintItems(items[1..])
  }

  /** One or more members and the closing brace. */
  function PrintFields(fields: seq<Field>): Text
    requires fields != []
    decreases fields, 0
  {
    PrintField(fields[0]) + if |fields| == 1 then [0x7D] else [COMMA] + PrintFields(fields[1..])
  }

  function PrintField(f: Field): Text
    decreases f, 0
  {
    PrintString(f.key) + ([COLON] + Print(f.value))
  }

  // ---------------------------------------------------------------- parsing

  predicate White(c: CodePoint) {
    c == 0x20 || c == 0x09 || c == 0x0A || c == 0x0D
  }

  function Skip(s: Text): (r: Text)
    ensures |r| <= |s| && (r != [] ==> !White(r[0]))
  {
    if s != [] && White(s[0]) then Skip(s[1..]) else s
  }

  function HexValue(c: CodePoint): Option<nat> {
    if 0x30 <= c < 0x3A then Some(c - 0x30)
    else if 0x61 <= c < 0x67 then Some(c - 0x61 + 10)
    else if 0x41 <= c < 0x47 then Some(c - 0x41 + 10)
    else None
  }

  /** The four hexadecimal digits after `\u`. */
  function ParseHex4(s: Text): (r: Option<nat>)
    ensures r.Some? ==> |s| >= 4 && r.value < 0x1_0000
  {
    if |s| < 4 then None
    else
      var (a, b, c, d) := (HexValue(s[0]), HexValue(s[1]), HexValue(s[2]), HexValue(s[3]));
      if a.Some? && b.Some? && c.Some? && d.Some? && a.value < 16 && b.value < 16 && c.value < 16 && d.value < 16
      then Some(a.value * 0x1000 + b.value * 0x100 + c.value * 16 + d.value)
      else None
  }

  predicate StartsUnicode(s: Text) {
    |s| >= 2 && s[0] == BACKSLASH && s[1] == 0x75
  }

  predicate HighSurrogate(u: int) {
    0xD800 <= u < 0xDC00
  }

  predicate LowSurrogate(u: int) {
    0xDC00 <= u < 0xE000
  }

  function Combine(high: nat, low: nat): CodePoint
    requires HighSurrogate(high) && LowSurrogate(low)
  {
    var (h: int, l: int) := (high - 0xD800, low - 0xDC00);
    0x1_0000 + h * 0x400 + l
  }

  /** An escape after its backslash: the character it stands for and what follows. */
  function ParseEscape(s: Text): (r: Option<(CodePoint, Text)>)
    ensures r.Some? ==> |r.value.1| < |s|
  {
    if s == [] then None
    else if s[0] == QUOTE || s[0] == BACKSLASH || s[0] == 0x2F then Some((s[0], s[1..]))
    else if s[0] == 0x6E then Some((0x0A, s[1..]))
    else if s[0] == 0x72 then Some((0x0D, s[1..]))
    else if s[0] == 0x74 then Some((0x09, s[1..]))
    else if s[0] == 0x66 then Some((0x0C, s[1..]))
    else if s[0] == 0x62 then Some((0x08, s[1..]))
    else if s[0] != 0x75 then None
    else
      var u := ParseHex4(s[1..]);
      if u.None? then None
      else
        var rest := s[5..];
        if HighSurrogate(u.value) && StartsUnicode(rest) then
          var v := ParseHex4(rest[2..]);
          if v.None? then None
          else if LowSurrogate(v.value) then Some((Combine(u.value, v.value), rest[6..]))
          else Some((u.value, rest))
        else Some((u.value, rest))
  }

  /** A string after its opening quote. */
  function ParseChars(s: Text): (r: Option<(Text, Text)>)
    ensures r.Some? ==> |r.value.1| < |s|
    decreases |s|
  {
    if s == [] || s[0] < 0x20 then None
    else if s[0] == QUOTE then Some(([], s[1..]))
    else
      var head := if s[0] == BACKSLASH then ParseEscape(s[1..]) else Some((s[0], s[1..]));
      if head.None? then None
      else
        var tail := ParseChars(head.value.1);
        if tail.None? then None else Some(([head.value.0] + tail.value.0, tail.value.1))
  }

  predicate Digit(c: CodePoint) {
    0x30 <= c < 0x3A
  }

  /** Leading digits and the rest. */
  function SpanDigits(s: Text): (r: (Text, Text))
    ensures s == r.0 + r.1
    ensures forall i | 0 <= i < |r.0| :: Digit(r.0[i])
  {
    if s == [] || !Digit(s[0]) then ([], s)
    else var (d, rest) := SpanDigits(s[1..]); ([s[0]] + d, rest)
  }

  function DigitValue(c: CodePoint): nat
    requires Digit(c)
  {
    c as int - 0x30
  }

  function ValueOf(d: Text): nat
    requires forall i | 0 <= i < |d| :: Digit(d[i])
  {
    if d == [] then 0 else ValueOf(d[..|d| - 1]) * 10 + DigitValue(d[|d| - 1])
  }

  /** Characters that would continue a number: a fraction or exponent is not part of this model. */
  predicate ContinuesNumber(s: Text) {
    s != [] && (Digit(s[0]) || s[0] == 0x2E || s[0] == 0x65 || s[0] == 0x45)
  }

  function ParseNat(s: Text): (r: Option<(nat, Text)>)
    ensures r.Some? ==> |r.value.1| < |s|
  {
    var (d, rest) := SpanDigits(s);
    if d == [] || (d[0] == 0x30 && |d| > 1) || ContinuesNumber(rest) then None
    else Some((ValueOf(d), rest))
  }

  /** `d[key] = value` for the members of an object: an existing key keeps its place. */
  function SetField(fields: seq<Field>, key: Text, value: Json): seq<Field> {
    if fields == [] then [Field(key, value)]
    else if fields[0].key == key then [Field(key, value)] + fields[1..]
    else [fields[0]] + SetField(fields[1..], key, value)
  }

  function ParseValue(s0: Text): (r: Option<(Json, Text)>)
    ensures r.Some? ==> |r.value.1| < |s0|
    decreases |s0|, 2
  {
    var s := Skip(s0);
    if s == [] then None
    else if NULL_WORD <= s then Some((Null, s[4..]))
    else if TRUE_WORD <= s then Some((Bool(true), s[4..]))
    else if FALSE_WORD <= s then Some((Bool(false), s[5..]))
    else if s[0] == QUOTE then
      var t := ParseChars(s[1..]);
      if t.None? then None else Some((Str(t.value.0), t.value.1))
    else if s[0] == 0x2D then
      var n := ParseNat(s[1..]);
      if n.None? then None else Some((Num(0 - n.value.0 as int), n.value.1))
    else if Digit(s[0]) then
      var n := ParseNat(s);
      if n.None? then None else Some((Num(n.value.0), n.value.1))
    else if s[0] == 0x5B then
      var after := Skip(s[1..]);
      if after != [] && after[0] == 0x5D then Some((Arr([]), after[1..]))
      else
        var items := ParseItems(s[1..]);
        if items.None? then None else Some((Arr(items.value.0), items.value.1))
    else if s[0] == 0x7B then
      var after := Skip(s[1..]);
      if after != [] && after[0] == 0x7D then Some((Obj([]), after[1..]))
      else
        var fields := ParseFields(s[1..], []);
        if fields.None? then None else Some((Obj(fields.value.0), fields.value.1))
    else None
  }

  /** One or more items and the closing bracket. */
  function ParseItems(s: Text): (r: Option<(seq<Json>, Text)>)
    ensures r.Some? ==> |r.value.1| < |s|
    decreases |s|, 3
  {
    var head := ParseValue(s);
    if head.None? then None
    else
      var rest := Skip(head.value.1);
      if rest == [] then None
      else if rest[0] == 0x5D then Some(([head.value.0], rest[1..]))
      else if rest[0] == COMMA then
        var tail := ParseItems(rest[1..]);
        if tail.None? then None else Some(([head.value.0] + tail.value.0, tail.value.1))
      else None
  }

  /** One member: key, colon, value. */
  function ParseField(s0: Text): (r: Option<(Field, Text)>)
    ensures r.Some? ==> |r.value.1| < |s0|
    decreases |s0|, 3
  {
    var s := Skip(s0);
    if s == [] || s[0] != QUOTE then None
    else
      var key := ParseChars(s[1..]);
      if key.None? then None
      else
        var rest := Skip(key.value.1);
        if rest == [] || rest[0] != COLON then None
        else
          var value := ParseValue(rest[1..]);
          if value.None? then None else Some((Field(key.value.0, value.value.0), value.value.1))
  }

  /** One or more members and the closing brace, added to those already read. */
  function ParseFields(s: Text, before: seq<Field>): (r: Option<(seq<Field>, Text)>)
    ensures r.Some? ==> |r.value.1| < |s|
    decreases |s|, 4
  {
    var head := ParseField(s);
    if head.None? then None
    else
      var fields := SetField(before, head.value.0.key, head.value.0.value);
      var rest := Skip(head.value.1);
      if rest == [] then None
      else if rest[0] == 0x7D then Some((fields, rest[1..]))
      else if rest[0] == COMMA then ParseFields(rest[1..], fields)
      else None
  }

  /** `json.loads`: one value and nothing but white space after it. */
  function Loads(s: Text): Option<Json> {
    var r := ParseValue(s);
    if r.Some? && Skip(r.value.1) == [] then Some(r.value.0) else None
  }
}
