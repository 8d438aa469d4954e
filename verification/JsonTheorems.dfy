/** Parsing inverts printing, exactly for the values Python's JSON can carry. */
module JsonTheorems {
  import opened Options
  import opened Utf8
  import opened Json

  // ---------------------------------------------------------------- strings

  predicate Pair(t: Text) {
    |t| >= 2 && HighSurrogate(t[0]) && LowSurrogate(t[1])
  }

  /** A high surrogate and a low one right after it are read back as one character. */
  function Joined(t: Text): Text {
    if t == [] then []
    else if Pair(t) then [Combine(t[0], t[1])] + Joined(t[2..])
    else [t[0]] + Joined(t[1..])
  }

  ghost predicate NoPairs(t: Text) {
    forall i | 0 <= i < |t| - 1 :: !(HighSurrogate(t[i]) && LowSurrogate(t[i + 1]))
  }

  lemma HexOfDigit(d: nat)
    requires d < 16
    ensures HexValue(HexDigit(d)) == Some(d)
  {
  }

  lemma HexGroups(u: nat)
    requires u < 0x1_0000
    ensures u / 0x1000 < 16
    ensures u == u / 0x1000 * 0x1000 + u / 0x100 % 16 * 0x100 + u / 16 % 16 * 16 + u % 16
  {
    assert u / 16 == u / 0x100 * 16 + u / 16 % 16;
    assert u / 0x100 == u / 0x1000 * 16 + u / 0x100 % 16;
  }

  lemma ParseHexOfUnicode(u: nat, rest: Text)
    requires u < 0x1_0000
    ensures ParseHex4((Unicode(u) + rest)[2..]) == Some(u)
    ensures (Unicode(u) + rest)[6..] == rest && StartsUnicode(Unicode(u) + rest)
  {
    var s := (Unicode(u) + rest)[2..];
    assert s[0] == HexDigit(u / 0x1000) && s[1] == HexDigit(u / 0x100 % 16)
        && s[2] == HexDigit(u / 16 % 16) && s[3] == HexDigit(u % 16);
    HexGroups(u);
    HexOfDigit(u / 0x1000);
    HexOfDigit(u / 0x100 % 16);
    HexOfDigit(u / 16 % 16);
    HexOfDigit(u % 16);
  }

  lemma CombineInvertsSplit(c: CodePoint)
    requires 0x1_0000 <= c
    ensures Combine(High(c), Low(c)) == c
  {
  }

  /** What `\uXXXX` in front of `rest` reads as. */
  lemma ParseEscapeOfUnicode(u: nat, rest: Text)
    requires u < 0x1_0000
    ensures ParseEscape((Unicode(u) + rest)[1..]) ==
      if HighSurrogate(u) && StartsUnicode(rest) then
        var v := ParseHex4(rest[2..]);
        if v.None? then None
        else if LowSurrogate(v.value) then Some((Combine(u, v.value), rest[6..]))
        else Some((u, rest))
      else Some((u, rest))
  {
    hide ParseHex4;
    var s := Unicode(u) + rest;
    ParseHexOfUnicode(u, rest);
    assert s[1..][0] == 0x75 && s[1..][1..] == s[2..] && s[1..][5..] == s[6..];
  }

  /** How the escape of a character begins: with `\u` and its first unit, or not with `\u` at all. */
  lemma EscapeStart(c: CodePoint, rest: Text)
    ensures var s := Escape(c) + rest;
            if StartsUnicode(s) then
              && !(0x20 <= c < 0x7F)
              && ParseHex4(s[2..]) == Some(if c < 0x1_0000 then c else High(c))
              && (c < 0x1_0000 ==> s[6..] == rest)
            else !Surrogate(c)
  {
    if c >= 0x1_0000 {
      ParseHexOfUnicode(High(c), Unicode(Low(c)) + rest);
      assert Escape(c) + rest == Unicode(High(c)) + (Unicode(Low(c)) + rest);
    } else if Escape(c) == Unicode(c) {
      ParseHexOfUnicode(c, rest);
    } else {
      assert Escape(c)[0] == c || Escape(c)[1] != 0x75;
    }
  }

  /** A character whose escape is not `\uXXXX` of a high surrogate is read back by itself. */
  lemma ParseOne(c: CodePoint, tail: Text)
    requires !HighSurrogate(c)
    ensures ParseHead(Escape(c) + tail) == Some((c, tail))
  {
    var s := Escape(c) + tail;
    if c >= 0x1_0000 {
      var more := Unicode(Low(c)) + tail;
      assert s == Unicode(High(c)) + more;
      ParseEscapeOfUnicode(High(c), more);
      ParseHexOfUnicode(Low(c), tail);
      CombineInvertsSplit(c);
    } else if Escape(c) == Unicode(c) {
      ParseEscapeOfUnicode(c, tail);
    } else if Escape(c) == [c] {
      assert s[1..] == tail;
    } else {
      assert s[1..][1..] == tail;
    }
  }

  /** The first character of a string's content, as `ParseChars` reads it. */
  function ParseHead(s: Text): Option<(CodePoint, Text)>
    requires s != []
  {
    if s[0] == BACKSLASH then ParseEscape(s[1..]) else Some((s[0], s[1..]))
  }

  lemma EscapeIsContent(c: CodePoint)
    ensures Escape(c) != [] && Escape(c)[0] >= 0x20 && Escape(c)[0] != QUOTE
  {
  }

  lemma ParseCharsStep(s: Text)
    requires s != [] && s[0] >= 0x20 && s[0] != QUOTE && ParseHead(s).Some?
    ensures |ParseHead(s).value.1| < |s|
    ensures ParseChars(s) ==
      var head := ParseHead(s).value;
      var tail := ParseChars(head.1);
      if tail.None? then None else Some(([head.0] + tail.value.0, tail.value.1))
  {
  }

  /** Reading back what was printed joins surrogate pairs and changes nothing else. */
  lemma {:induction false} ParseCharsOfPrint(t: Text, rest: Text)
    ensures ParseChars(PrintChars(t) + rest) == Some((Joined(t), rest))
    decreases |t|
  {
    hide Escape, ParseChars, ParseEscape, Unicode, ParseHex4, StartsUnicode;
    if t == [] {
      ParseCharsOfQuote(rest);
      assert PrintChars(t) + rest == [QUOTE] + rest;
    } else {
      var tail := PrintChars(t[1..]) + rest;
      var s := Escape(t[0]) + tail;
      assert PrintChars(t) + rest == s;
      EscapeIsContent(t[0]);
      if Pair(t) {
        var more := PrintChars(t[2..]) + rest;
        assert t[1..][1..] == t[2..];
        assert tail == Escape(t[1]) + more;
        ParsePair(t[0], t[1], more);
        ParseCharsStep(s);
        ParseCharsOfPrint(t[2..], rest);
      } else {
        if HighSurrogate(t[0]) {
          ParseLoneHigh(t, rest);
        } else {
          ParseOne(t[0], tail);
        }
        ParseCharsStep(s);
        ParseCharsOfPrint(t[1..], rest);
      }
    }
  }

  lemma ParseCharsOfQuote(rest: Text)
    ensures ParseChars([QUOTE] + rest) == Some(([], rest))
  {
    assert ([QUOTE] + rest)[1..] == rest;
  }

  lemma SurrogateEscape(c: CodePoint)
    requires Surrogate(c)
    ensures Escape(c) == Unicode(c)
  {
  }

  lemma ParsePair(high: CodePoint, low: CodePoint, more: Text)
    requires HighSurrogate(high) && LowSurrogate(low)
    ensures ParseHead(Escape(high) + (Escape(low) + more)) == Some((Combine(high, low), more))
  {
    hide ParseEscape, Escape;
    SurrogateEscape(high);
    SurrogateEscape(low);
    ParseEscapeOfUnicode(high, Unicode(low) + more);
    ParseHexOfUnicode(low, more);
  }

  lemma ParseLoneHigh(t: Text, rest: Text)
    requires t != [] && HighSurrogate(t[0]) && !Pair(t)
    ensures ParseHead(Escape(t[0]) + (PrintChars(t[1..]) + rest)) == Some((t[0], PrintChars(t[1..]) + rest))
  {
    hide ParseEscape, Escape, ParseHex4;
    var tail := PrintChars(t[1..]) + rest;
    SurrogateEscape(t[0]);
    ParseEscapeOfUnicode(t[0], tail);
    if |t| > 1 {
      var more := PrintChars(t[2..]) + rest;
      assert t[1..][1..] == t[2..];
      assert tail == Escape(t[1]) + more;
      EscapeStart(t[1], more);
    } else {
      assert tail == [QUOTE] + rest;
    }
  }

  lemma {:induction false} JoinedShrinks(t: Text)
    ensures |Joined(t)| <= |t|
    ensures Joined(t) == t <==> NoPairs(t)
    ensures |Joined(t)| == |t| ==> NoPairs(t)
    decreases |t|
  {
    if t == [] {
    } else if Pair(t) {
      JoinedShrinks(t[2..]);
    } else {
      JoinedShrinks(t[1..]);
      assert forall i | 0 < i < |t| - 1 :: t[i] == t[1..][i - 1] && t[i + 1] == t[1..][i];
      assert ([t[0]] + Joined(t[1..]))[1..] == Joined(t[1..]);
      if NoPairs(t[1..]) {
        forall i | 0 <= i < |t| - 1
          ensures !(HighSurrogate(t[i]) && LowSurrogate(t[i + 1]))
        {
          if i > 0 {
            assert t[1..][i - 1] == t[i] && t[1..][i] == t[i + 1];
          }
        }
      }
    }
  }

  /** A string survives printing and parsing if and only if it has no surrogate pair in it. */
  lemma StringRoundTripIffNoPairs(t: Text, rest: Text)
    ensures ParseChars(PrintChars(t) + rest) == Some((t, rest)) <==> NoPairs(t)
  {
    ParseCharsOfPrint(t, rest);
    JoinedShrinks(t);
  }

  /** Two surrogates printed one after the other are read back as one character. */
  lemma PairBecomesOne(t: Text, rest: Text)
    requires t == [0xD83D, 0xDE00]
    ensures ParseChars(PrintChars(t) + rest) == Some(([0x1F600], rest))
  {
    hide ParseChars, PrintChars;
    ParseCharsOfPrint(t, rest);
    assert t[2..] == [] && Pair(t);
    assert Joined(t) == [Combine(t[0], t[1])] + Joined(t[2..]);
    assert Combine(t[0], t[1]) == 0x1F600;
    assert Joined(t[2..]) == [] && Joined(t) == [0x1F600];
  }

  // ---------------------------------------------------------------- numbers

  lemma {:induction false} DigitsAreDigits(n: nat)
    ensures forall i | 0 <= i < |Digits(n)| :: Digit(Digits(n)[i])
    ensures Digits(n)[0] == 0x30 ==> |Digits(n)| == 1
    ensures ValueOf(Digits(n)) == n
  {
    var d := Digits(n);
    if n < 10 {
      assert d[..0] == [];
    } else {
      DigitsAreDigits(n / 10);
      assert d[..|d| - 1] == Digits(n / 10);
      assert d[0] == Digits(n / 10)[0];
      assert |Digits(n / 10)| == 1 ==> Digits(n / 10) == [0x30 + n / 10];
    }
  }

  lemma {:induction false} SpanOfDigits(d: Text, rest: Text)
    requires forall i | 0 <= i < |d| :: Digit(d[i])
    requires rest == [] || !Digit(rest[0])
    ensures SpanDigits(d + rest) == (d, rest)
  {
    if d == [] {
      assert d + rest == rest;
    } else {
      assert (d + rest)[1..] == d[1..] + rest;
      SpanOfDigits(d[1..], rest);
      assert [d[0]] + d[1..] == d;
    }
  }

  lemma ParseNatOfDigits(n: nat, rest: Text)
    requires !ContinuesNumber(rest)
    ensures ParseNat(Digits(n) + rest) == Some((n, rest))
  {
    DigitsAreDigits(n);
    SpanOfDigits(Digits(n), rest);
  }

  // ---------------------------------------------------------------- values

  /** What a Python object made of dicts, lists, strings, ints, bools and None can be, surrogate pairs aside. */
  ghost predicate Sound(j: Json)
    decreases j, 1
  {
    match j
    case Str(t) => NoPairs(t)
    case Arr(items) => SoundItems(items)
    case Obj(fields) => SoundFields(fields) && DistinctKeys(fields)
    case _ => true
  }

  ghost predicate SoundItems(items: seq<Json>)
    decreases items, 0
  {
    items == [] || (Sound(items[0]) && SoundItems(items[1..]))
  }

  ghost predicate SoundFields(fields: seq<Field>)
    decreases fields, 0
  {
    fields == [] || (SoundField(fields[0]) && SoundFields(fields[1..]))
  }

  ghost predicate SoundField(f: Field)
    decreases f, 0
  {
    NoPairs(f.key) && Sound(f.value)
  }

  ghost predicate DistinctKeys(fields: seq<Field>) {
    forall i, j | 0 <= i < j < |fields| :: fields[i].key != fields[j].key
  }

  lemma {:induction false} SetNewField(fields: seq<Field>, key: Text, value: Json)
    requires forall i | 0 <= i < |fields| :: fields[i].key != key
    ensures SetField(fields, key, value) == fields + [Field(key, value)]
  {
    if fields != [] {
      SetNewField(fields[1..], key, value);
    }
  }

  lemma NoSkip(s: Text)
    requires s == [] || !White(s[0])
    ensures Skip(s) == s
  {
  }

  /** The first character tells the kind of value, and is never white space. */
  lemma PrintStart(j: Json)
    ensures Print(j) != []
    ensures var c := Print(j)[0];
            match j
            case Null => c == 0x6E
            case Bool(b) => c == if b then 0x74 else 0x66
            case Num(n) => if n < 0 then c == 0x2D else Digit(c)
            case Str(_) => c == QUOTE
            case Arr(_) => c == 0x5B
            case Obj(_) => c == 0x7B
  {
    if j.Num? {
      DigitsAreDigits(if j.n < 0 then -j.n else j.n);
    }
  }

  lemma {:induction false} ParseOfPrint(j: Json, rest: Text)
    requires Sound(j) && !ContinuesNumber(rest)
    ensures ParseValue(Print(j) + rest) == Some((j, rest))
    decreases j, 1
  {
    hide ParseChars, PrintChars, ParseNat, Digits, PrintItems, PrintFields, ParseItems, ParseFields;
    var s := Print(j) + rest;
    PrintStart(j);
    assert s[0] == Print(j)[0];
    NoSkip(s);
    match j
    case Null => assert s[..4] == NULL_WORD && s[4..] == rest;
    case Bool(b) =>
      if b {
        assert s[..4] == TRUE_WORD && s[4..] == rest;
      } else {
        assert s[..5] == FALSE_WORD && s[5..] == rest;
      }
    case Num(n) =>
      if n < 0 {
        assert s[1..] == Digits(-n) + rest;
        ParseNatOfDigits(-n, rest);
      } else {
        ParseNatOfDigits(n, rest);
      }
    case Str(t) =>
      assert s[1..] == PrintChars(t) + rest;
      StringRoundTripIffNoPairs(t, rest);
    case Arr(items) =>
      ParseOfArr(items, rest);
    case Obj(fields) =>
      ParseOfObj(fields, rest);
  }

  lemma ParseOfArr(items: seq<Json>, rest: Text)
    requires SoundItems(items)
    ensures ParseValue(Print(Arr(items)) + rest) == Some((Arr(items), rest))
    decreases items, 2
  {
    hide ParseItems, PrintItems, ParseFields, ParseChars, ParseNat;
    var s := Print(Arr(items)) + rest;
    if items == [] {
      assert s[1..] == [0x5D] + rest;
      NoSkip(s[1..]);
      assert s[1..][1..] == rest;
    } else {
      assert s[1..] == PrintItems(items) + rest;
      ItemsStart(items);
      NoSkip(s[1..]);
      ParseOfItems(items, rest);
    }
    NoSkip(s);
  }

  lemma ItemsStart(items: seq<Json>)
    requires items != []
    ensures PrintItems(items) != [] && !White(PrintItems(items)[0]) && PrintItems(items)[0] != 0x5D
  {
    PrintStart(items[0]);
  }

  lemma {:induction false} ParseOfItems(items: seq<Json>, rest: Text)
    requires items != [] && SoundItems(items)
    ensures ParseItems(PrintItems(items) + rest) == Some((items, rest))
    decreases items, 0
  {
    hide ParseValue, Print;
    var more := (if |items| == 1 then [0x5D] else [COMMA] + PrintItems(items[1..])) + rest;
    assert PrintItems(items) + rest == Print(items[0]) + more;
    ParseOfPrint(items[0], more);
    NoSkip(more);
    if |items| == 1 {
      assert more[1..] == rest && items == [items[0]];
    } else {
      assert more[1..] == PrintItems(items[1..]) + rest;
      ParseOfItems(items[1..], rest);
      assert [items[0]] + items[1..] == items;
    }
  }

  lemma ParseOfObj(fields: seq<Field>, rest: Text)
    requires SoundFields(fields) && DistinctKeys(fields)
    ensures ParseValue(Print(Obj(fields)) + rest) == Some((Obj(fields), rest))
    decreases fields, 2
  {
    hide ParseFields, PrintFields, ParseItems, ParseChars, ParseNat;
    var s := Print(Obj(fields)) + rest;
    if fields == [] {
      assert s[1..] == [0x7D] + rest;
      NoSkip(s[1..]);
      assert s[1..][1..] == rest;
    } else {
      assert s[1..] == PrintFields(fields) + rest;
      FieldsStart(fields);
      NoSkip(s[1..]);
      ParseOfFields([], fields, rest);
      assert [] + fields == fields;
    }
    NoSkip(s);
  }

  lemma FieldsStart(fields: seq<Field>)
    requires fields != []
    ensures PrintFields(fields) != [] && PrintFields(fields)[0] == QUOTE
  {
  }

  lemma ParseOfField(f: Field, rest: Text)
    requires SoundField(f) && !ContinuesNumber(rest)
    ensures ParseField(PrintField(f) + rest) == Some((f, rest))
    decreases f, 0
  {
    hide ParseValue, Print, ParseChars, PrintChars;
    var value := Print(f.value) + rest;
    var s := PrintField(f) + rest;
    assert s == [QUOTE] + (PrintChars(f.key) + ([COLON] + value));
    NoSkip(s);
    assert s[1..] == PrintChars(f.key) + ([COLON] + value);
    StringRoundTripIffNoPairs(f.key, [COLON] + value);
    NoSkip([COLON] + value);
    assert ([COLON] + value)[1..] == value;
    ParseOfPrint(f.value, rest);
  }

  lemma {:induction false} ParseOfFields(before: seq<Field>, fields: seq<Field>, rest: Text)
    requires fields != [] && SoundFields(fields) && DistinctKeys(before + fields)
    ensures ParseFields(PrintFields(fields) + rest, before) == Some((before + fields, rest))
    decreases fields, 0
  {
    hide ParseField, PrintField;
    var f := fields[0];
    var more := (if |fields| == 1 then [0x7D] else [COMMA] + PrintFields(fields[1..])) + rest;
    assert PrintFields(fields) + rest == PrintField(f) + more;
    ParseOfField(f, more);
    NoSkip(more);
    assert (before + fields)[|before|] == f;
    assert forall i | 0 <= i < |before| :: (before + fields)[i] == before[i];
    SetNewField(before, f.key, f.value);
    if |fields| == 1 {
      assert more[1..] == rest;
      assert before + [f] == before + fields;
    } else {
      assert more[1..] == PrintFields(fields[1..]) + rest;
      assert before + [f] + fields[1..] == before + fields;
      ParseOfFields(before + [f], fields[1..], rest);
    }
  }

  /** Loading what was dumped, also with the line end that framing adds. */
  lemma LoadsOfPrint(j: Json)
    requires Sound(j)
    ensures Loads(Print(j)) == Some(j) && Loads(Print(j) + [0x0A]) == Some(j)
  {
    ParseOfPrint(j, []);
    assert Print(j) + [] == Print(j);
    ParseOfPrint(j, [0x0A]);
    assert [0x0A][1..] == [];
  }

  // ---------------------------------------------------------------- no raw line ends

  ghost predicate Printable(t: Text) {
    forall i | 0 <= i < |t| :: 0x20 <= t[i] < 0x7F
  }

  lemma {:induction false} CharsArePrintable(t: Text)
    ensures Printable(PrintChars(t))
  {
    if t != [] {
      CharsArePrintable(t[1..]);
    }
  }

  /** Printed JSON is printable ASCII, so it holds no raw line end. */
  lemma {:induction false} PrintIsPrintable(j: Json)
    ensures Printable(Print(j))
    decreases j, 1
  {
    match j
    case Null =>
    case Bool(_) =>
    case Num(n) => DigitsAreDigits(if n < 0 then -n else n);
    case Str(t) => CharsArePrintable(t);
    case Arr(items) => if items != [] { ItemsArePrintable(items); }
    case Obj(fields) => if fields != [] { FieldsArePrintable(fields); }
  }

  lemma {:induction false} ItemsArePrintable(items: seq<Json>)
    requires items != []
    ensures Printable(PrintItems(items))
    decreases items, 0
  {
    PrintIsPrintable(items[0]);
    if |items| > 1 {
      ItemsArePrintable(items[1..]);
    }
  }

  lemma {:induction false} FieldsArePrintable(fields: seq<Field>)
    requires fields != []
    ensures Printable(PrintFields(fields))
    decreases fields, 0
  {
    FieldIsPrintable(fields[0]);
    if |fields| > 1 {
      FieldsArePrintable(fields[1..]);
    }
  }

  lemma FieldIsPrintable(f: Field)
    ensures Printable(PrintField(f))
    decreases f, 0
  {
    CharsArePrintable(f.key);
    PrintIsPrintable(f.value);
  }

  // ---------------------------------------------------------------- as it looks

  /** Quotes, backslashes and five control characters have short escapes. */
  lemma ShortEscapes()
    ensures Escape('"' as int) == Codes("\\\"") && Escape('\\' as int) == Codes("\\\\")
    ensures Escape(0x0A) == Codes("\\n") && Escape(0x0D) == Codes("\\r") && Escape(0x09) == Codes("\\t")
    ensures Escape(0x0C) == Codes("\\f") && Escape(0x08) == Codes("\\b")
  {
    hide Unicode, High, Low;
  }

  lemma HexDigits(d: nat, c: CodePoint)
    requires d < 16
    ensures HexDigit(d) == "0123456789abcdef"[d] as int
    ensures HexValue(c) == Some(d) <==> c == "0123456789abcdef"[d] as int || c == "0123456789ABCDEF"[d] as int
  {
  }

  /** Everything else that is not printable ASCII is escaped by number, in two halves past FFFF. */
  lemma LongEscapes()
    ensures Escape(0x1F) == Codes("\\u001f") && Escape(0x7F) == Codes("\\u007f")
    ensures Escape(0x1F600) == Codes("\\ud83d\\ude00")
  {
    assert Unicode(0x1F) == [BACKSLASH, 0x75, 0x30, 0x30, 0x31, 0x66];
    assert Unicode(0x7F) == [BACKSLASH, 0x75, 0x30, 0x30, 0x37, 0x66];
    assert High(0x1F600) == 0xD83D && Low(0x1F600) == 0xDE00;
    assert Unicode(0xD83D) == [BACKSLASH, 0x75, 0x64, 0x38, 0x33, 0x64];
    assert Unicode(0xDE00) == [BACKSLASH, 0x75, 0x64, 0x65, 0x30, 0x30];
  }

  /** ASCII that can be printed stands for itself, except for the quote and the backslash. */
  lemma PlainIsKept(c: CodePoint)
    ensures Escape(c) == [c] <==> 0x20 <= c <= 0x7E && c != '"' as int && c != '\\' as int
  {
  }

  /** Lists have brackets and commas, and no white space. */
  lemma ListsAreSpelled(a: Json, b: Json)
    ensures Print(Arr([])) == Codes("[]")
    ensures Print(Arr([a, b])) == Codes("[") + Print(a) + Codes(",") + Print(b) + Codes("]")
  {
    hide PrintFields, PrintString, PrintInt;
    var items := [a, b];
    assert items[1..] == [b];
    assert PrintItems(items[1..]) == Print(b) + [0x5D];
    assert PrintItems(items) == Print(a) + ([COMMA] + PrintItems(items[1..]));
    var (open, comma, close) := (Codes("["), Codes(","), Codes("]"));
    assert open == [0x5B] && comma == [COMMA] && close == [0x5D];
    assert [0x5B] + (Print(a) + ([COMMA] + (Print(b) + [0x5D]))) == open + Print(a) + comma + Print(b) + close;
  }

  /** Objects have braces and colons, and no white space. */
  lemma ObjectsAreSpelled(key: Text, a: Json)
    ensures Print(Obj([])) == Codes("{}")
    ensures Print(Obj([Field(key, a)])) == Codes("{") + PrintString(key) + Codes(":") + Print(a) + Codes("}")
  {
    hide PrintItems, PrintString, PrintInt;
    var fields := [Field(key, a)];
    assert PrintFields(fields) == PrintField(fields[0]) + [0x7D];
    var (open, colon, close) := (Codes("{"), Codes(":"), Codes("}"));
    assert open == [0x7B] && colon == [COLON] && close == [0x7D];
    assert [0x7B] + ((PrintString(key) + ([COLON] + Print(a))) + [0x7D])
        == open + PrintString(key) + colon + Print(a) + close;
  }

  lemma WordsAreSpelled()
    ensures Print(Null) == Codes("null") && Print(Bool(true)) == Codes("true") && Print(Bool(false)) == Codes("false")
  {
  }

  /** Numbers are written in decimal. */
  lemma NumbersAreSpelled()
    ensures Print(Num(-207)) == Codes("-207") && Print(Num(0)) == Codes("0")
  {
    assert Digits(207) == Digits(20) + [0x37];
    assert Digits(20) == Digits(2) + [0x30];
  }
}
