/** Parsing a baggage header inverts printing it; adding baggage keeps third-party members. */
module BaggageTheorems {
  import opened Options
  import opened Utf8
  import opened Baggage

  // ---------------------------------------------------------------- percent-encoding

  predicate QuoteChar(c: CodePoint) {
    c == PERCENT || (c < 0x100 && Safe(c))
  }

  ghost predicate AllQuoteChars(s: Text) {
    forall i | 0 <= i < |s| :: QuoteChar(s[i])
  }

  lemma {:induction false} QuotedIsPlain(b: Bytes)
    ensures AllQuoteChars(QuoteBytes(b)) && Ascii(QuoteBytes(b))
  {
    if b != [] {
      QuotedIsPlain(b[1..]);
    }
  }

  lemma UnquoteOfByte(b: Byte, rest: Text)
    requires Ascii(rest)
    ensures Ascii(QuoteByte(b) + rest) && UnquoteBytes(QuoteByte(b) + rest) == [b] + UnquoteBytes(rest)
  {
    var s := QuoteByte(b) + rest;
    if Safe(b) {
      assert s[1..] == rest;
    } else {
      assert s[1] == UpperHex(b / 16) && s[2] == UpperHex(b % 16) && s[3..] == rest;
      assert HexValue(UpperHex(b / 16)) == Some(b / 16) && HexValue(UpperHex(b % 16)) == Some(b % 16);
    }
  }

  lemma {:induction false} UnquoteOfQuote(b: Bytes)
    ensures Ascii(QuoteBytes(b)) && UnquoteBytes(QuoteBytes(b)) == b
  {
    hide QuoteByte, UnquoteBytes;
    if b == [] {
      UnquoteNothing();
    } else {
      UnquoteOfQuote(b[1..]);
      UnquoteOfByte(b[0], QuoteBytes(b[1..]));
    }
  }

  lemma UnquoteNothing()
    ensures UnquoteBytes([]) == []
  {
  }

  lemma {:induction false} RunOfAscii(s: Text)
    requires Ascii(s)
    ensures AsciiRun(s) == |s|
  {
    if s != [] {
      RunOfAscii(s[1..]);
    }
  }

  lemma UnquoteInvertsQuote(text: Text)
    requires Encodable(text)
    ensures Unquote(QuoteBytes(Encode(text))) == text
  {
    var q := QuoteBytes(Encode(text));
    UnquoteOfQuote(Encode(text));
    DecodeInvertsEncode(text, [], REPLACE);
    assert Encode(text) + [] == Encode(text) && text + [] == text;
    if q != [] {
      RunOfAscii(q);
      assert q[..|q|] == q && q[|q|..] == [];
      assert Unquote([]) == [];
    } else {
      assert Encode(text) == [] by { UnquoteNothing(); }
    }
  }

  // ---------------------------------------------------------------- keys and hyphens

  lemma {:induction false} IndexOfFirst(a: Text, c: CodePoint, rest: Text)
    requires c !in a
    ensures IndexOf(a + [c] + rest, c) == |a|
  {
    if a == [] {
      assert a + [c] + rest == [c] + rest;
    } else {
      assert (a + [c] + rest)[1..] == a[1..] + [c] + rest;
      IndexOfFirst(a[1..], c, rest);
    }
  }

  lemma {:induction false} IndexOfAbsent(a: Text, c: CodePoint)
    requires c !in a
    ensures IndexOf(a, c) == |a|
  {
    if a != [] {
      IndexOfAbsent(a[1..], c);
    }
  }

  lemma {:induction false} QuoteConcat(a: Bytes, b: Bytes)
    ensures QuoteBytes(a + b) == QuoteBytes(a) + QuoteBytes(b)
  {
    if a == [] {
      assert a + b == b;
    } else {
      assert (a + b)[1..] == a[1..] + b;
      QuoteConcat(a[1..], b);
    }
  }

  function UpToHyphen(key: Text): Text {
    key[..IndexOf(key, HYPHEN)]
  }

  lemma {:induction false} NoHyphenInEncoding(text: Text)
    requires HYPHEN !in text
    ensures HYPHEN !in Encode(text)
  {
    if text != [] {
      assert text[0] in text;
      assert HYPHEN !in text[1..];
      NoHyphenInEncoding(text[1..]);
    }
  }

  lemma {:induction false} NoHyphenInQuoted(b: Bytes)
    requires HYPHEN !in b
    ensures HYPHEN !in QuoteBytes(b)
  {
    if b != [] {
      assert b[0] in b;
      assert HYPHEN !in b[1..];
      NoHyphenInQuoted(b[1..]);
    }
  }

  /** A printed key read back ends at its first hyphen. */
  lemma KeyReadBack(key: Text)
    requires Encodable(key)
    ensures var q := QuoteBytes(Encode(key));
            Unquote(q[..IndexOf(q, HYPHEN)]) == UpToHyphen(key)
  {
    hide Encode, QuoteBytes, Unquote;
    var i := IndexOf(key, HYPHEN);
    var front := key[..i];
    var q, f := QuoteBytes(Encode(key)), QuoteBytes(Encode(front));
    assert HYPHEN !in front;
    NoHyphenInEncoding(front);
    NoHyphenInQuoted(Encode(front));
    if i == |key| {
      assert front == key;
      IndexOfAbsent(q, HYPHEN);
      assert q[..|q|] == q;
    } else {
      var back := key[i + 1..];
      assert key == front + [HYPHEN] + back;
      EncodeConcat(front + [HYPHEN], back);
      EncodeConcat(front, [HYPHEN]);
      QuoteConcat(Encode(front) + Encode([HYPHEN]), Encode(back));
      QuoteConcat(Encode(front), Encode([HYPHEN]));
      HyphenStays();
      IndexOfFirst(f, HYPHEN, QuoteBytes(Encode(back)));
      assert q[..|f|] == f;
    }
    UnquoteInvertsQuote(front);
  }

  lemma HyphenStays()
    ensures QuoteBytes(Encode([HYPHEN])) == [HYPHEN]
  {
    AsciiEncodesItself([HYPHEN]);
    var one: Bytes := [HYPHEN];
    assert one[1..] == [];
    assert QuoteBytes([]) == [];
  }

  // ---------------------------------------------------------------- members

  lemma PlainStrips(s: Text)
    requires s != [] ==> !White(s[0]) && !White(s[|s| - 1])
    ensures Strip(s) == s
  {
  }

  lemma QuoteCharsAreHarmless(s: Text)
    requires AllQuoteChars(s)
    ensures COMMA !in s && EQUALS !in s && forall i | 0 <= i < |s| :: !White(s[i])
  {
  }

  lemma IndexInName(k: Text, v: Text)
    requires EQUALS !in k
    ensures var name := SENTRY_PREFIX + k;
            var member := name + [EQUALS] + v;
            && IndexOf(member, EQUALS) == |name| < |member|
            && member[..|name|] == name && member[|name| + 1..] == v
            && SENTRY_PREFIX <= name && name[|SENTRY_PREFIX|..] == k && SENTRY_PREFIX <= member
            && EQUALS in member
  {
    hide IndexOf;
    var name := SENTRY_PREFIX + k;
    var member := name + [EQUALS] + v;
    assert forall c | c in name :: c in SENTRY_PREFIX || c in k;
    IndexOfFirst(name, EQUALS, v);
    assert member[|name|] == EQUALS;
  }

  lemma PrintedMemberStrips(k: Text, v: Text)
    requires AllQuoteChars(k) && AllQuoteChars(v)
    ensures var member := SENTRY_PREFIX + k + [EQUALS] + v;
            Strip(member) == member && COMMA !in member
  {
    hide Strip;
    QuoteCharsAreHarmless(k);
    QuoteCharsAreHarmless(v);
    var member := SENTRY_PREFIX + k + [EQUALS] + v;
    assert member[0] == 0x73;
    assert v == [] ==> member[|member| - 1] == EQUALS;
    assert v != [] ==> member[|member| - 1] == v[|v| - 1];
    PlainStrips(member);
  }

  /** What one printed item is read back as: its key up to the first hyphen, its value unchanged. */
  lemma MemberReadBack(p: Parsed, key: Text, value: Text)
    requires Encodable(key) && Encodable(value)
    ensures PrintItem(key, value).Some?
    ensures var member := PrintItem(key, value).value;
            && COMMA !in member && IsSentry(member)
            && ParseMember(p, member) == Parsed(SetItem(p.sentryItems, UpToHyphen(key), value), p.thirdParty, false)
  {
    hide Encode, QuoteBytes, Unquote, Strip, IndexOf, SetItem, UpToHyphen;
    var k, v := QuoteBytes(Encode(key)), QuoteBytes(Encode(value));
    QuotedIsPlain(Encode(key));
    QuotedIsPlain(Encode(value));
    QuoteCharsAreHarmless(k);
    PrintedMemberStrips(k, v);
    IndexInName(k, v);
    KeyReadBack(key);
    UnquoteInvertsQuote(value);
  }

  // ---------------------------------------------------------------- splitting and joining

  lemma {:induction false} SplitOfJoin(parts: seq<Text>)
    requires parts != [] && forall i | 0 <= i < |parts| :: COMMA !in parts[i]
    ensures Split(Join(parts), COMMA) == parts
  {
    if |parts| == 1 {
      IndexOfAbsent(parts[0], COMMA);
    } else {
      var s := parts[0] + [COMMA] + Join(parts[1..]);
      IndexOfFirst(parts[0], COMMA, Join(parts[1..]));
      assert s[..|parts[0]|] == parts[0] && s[|parts[0]| + 1..] == Join(parts[1..]);
      SplitOfJoin(parts[1..]);
    }
  }

  lemma {:induction false} SplitOfConcat(a: Text, b: Text)
    ensures Split(a + [COMMA] + b, COMMA) == Split(a, COMMA) + Split(b, COMMA)
    decreases |a|
  {
    hide IndexOf;
    var i := IndexOf(a, COMMA);
    var s := a + [COMMA] + b;
    if i == |a| {
      IndexOfFirst(a, COMMA, b);
      assert s[..i] == a && s[i + 1..] == b;
    } else {
      var front, back := a[..i], a[i + 1..];
      assert s == front + [COMMA] + (back + [COMMA] + b);
      IndexOfFirst(front, COMMA, back + [COMMA] + b);
      assert s[..i] == front && s[i + 1..] == back + [COMMA] + b;
      SplitOfConcat(back, b);
      assert [front] + (Split(back, COMMA) + Split(b, COMMA)) == [front] + Split(back, COMMA) + Split(b, COMMA);
    }
  }

  lemma {:induction false} SplitHasNoCommas(s: Text)
    ensures forall i | 0 <= i < |Split(s, COMMA)| :: COMMA !in Split(s, COMMA)[i]
    decreases |s|
  {
    var i := IndexOf(s, COMMA);
    if i < |s| {
      SplitHasNoCommas(s[i + 1..]);
    }
  }

  // ---------------------------------------------------------------- parse after print

  predicate Printable(item: (Text, Text)) {
    Encodable(item.0) && Encodable(item.1)
  }

  /** What a printed dictionary is read back as, item by item. */
  function ReadBack(items: Items): Items {
    if items == [] then []
    else
      var init, last := ReadBack(items[..|items| - 1]), items[|items| - 1];
      if Printable(last) then SetItem(init, UpToHyphen(last.0), last.1) else init
  }

  ghost predicate AnyPrintable(items: Items) {
    exists i :: 0 <= i < |items| && Printable(items[i])
  }

  lemma {:induction false} ParsePrintedMembers(items: Items)
    ensures var members := PrintItems(items);
            && (forall i | 0 <= i < |members| :: COMMA !in members[i] && IsSentry(members[i]))
            && ParseMembers(members) == Parsed(ReadBack(items), [], members == [])
            && (members == [] <==> !AnyPrintable(items))
    decreases items, 1
  {
    if items != [] {
      ParsePrintedMembersStep(items);
    }
  }

  lemma ParsePrintedMembersStep(items: Items)
    requires items != []
    ensures var members := PrintItems(items);
            && (forall i | 0 <= i < |members| :: COMMA !in members[i] && IsSentry(members[i]))
            && ParseMembers(members) == Parsed(ReadBack(items), [], members == [])
            && (members == [] <==> !AnyPrintable(items))
    decreases items, 0
  {
    hide ParseMember, ParseMembers, IsSentry, UpToHyphen, PrintItem, SetItem, Printable, AnyPrintable;
    var init, last := items[..|items| - 1], items[|items| - 1];
    var before, members := PrintItems(init), PrintItems(items);
    ParsePrintedMembers(init);
    AnyPrintableSnoc(init, last);
    assert items == init + [last];
    if Printable(last) {
      PrintedIsEncodable(last);
      MemberReadBack(ParseMembers(before), last.0, last.1);
      assert members == before + [PrintItem(last.0, last.1).value];
      ParseMembersSnoc(members, |before|);
      assert members[..|before|] == before && members[..|before| + 1] == members;
    } else {
      NotPrinted(last);
      assert members == before;
    }
  }

  lemma PrintedIsEncodable(item: (Text, Text))
    requires Printable(item)
    ensures Encodable(item.0) && Encodable(item.1)
  {
  }

  lemma NotPrinted(item: (Text, Text))
    requires !Printable(item)
    ensures PrintItem(item.0, item.1).None?
  {
  }

  lemma AnyPrintableSnoc(init: Items, last: (Text, Text))
    ensures AnyPrintable(init + [last]) <==> AnyPrintable(init) || Printable(last)
  {
    var items := init + [last];
    if i :| 0 <= i < |init| && Printable(init[i]) {
      assert Printable(items[i]);
    }
    if Printable(last) {
      assert Printable(items[|init|]);
    }
  }

  /** `serialize`, then `from_incoming_header`: exactly what comes back, whatever was printed. */
  lemma ParsedIsReadBack(items: Items)
    ensures ParseHeader(Join(PrintItems(items))).sentryItems == ReadBack(items)
    ensures ParseHeader(Join(PrintItems(items))).thirdParty == []
  {
    hide ParseMembers, PrintItem, IsSentry;
    ParsePrintedMembers(items);
    var members := PrintItems(items);
    if members == [] {
      ParseMembersOfNothing();
    } else {
      SplitOfJoin(members);
      assert Join(members) != [] by {
        SentryIsNotEmpty(members[0]);
      }
    }
  }

  lemma SentryIsNotEmpty(member: Text)
    requires IsSentry(member)
    ensures member != []
  {
  }

  function Lookup(items: Items, key: Text): Option<Text> {
    if items == [] then None
    else if items[0].0 == key then Some(items[0].1)
    else Lookup(items[1..], key)
  }

  /** Equal as dictionaries: the order does not count. */
  ghost predicate SameDict(a: Items, b: Items) {
    forall key :: Lookup(a, key) == Lookup(b, key)
  }

  ghost predicate DistinctKeys(items: Items) {
    forall i, j | 0 <= i < j < |items| :: items[i].0 != items[j].0
  }

  lemma {:induction false} LookupAfterSet(items: Items, key: Text, value: Text, k: Text)
    ensures Lookup(SetItem(items, key, value), k) == if k == key then Some(value) else Lookup(items, k)
  {
    var r := SetItem(items, key, value);
    if items != [] && items[0].0 != key {
      LookupAfterSet(items[1..], key, value, k);
      assert r[1..] == SetItem(items[1..], key, value);
    } else {
      assert r[1..] == if items == [] then [] else items[1..];
    }
  }

  lemma {:induction false} LookupOfMember(items: Items, i: nat)
    requires DistinctKeys(items) && i < |items|
    ensures Lookup(items, items[i].0) == Some(items[i].1)
  {
    if i > 0 {
      LookupOfMember(items[1..], i - 1);
    }
  }

  lemma {:induction false} ReadBackIsClean(items: Items, key: Text)
    requires Lookup(ReadBack(items), key).Some?
    ensures HYPHEN !in key && Encodable(key) && Encodable(Lookup(ReadBack(items), key).value)
  {
    if items != [] {
      var init, last := items[..|items| - 1], items[|items| - 1];
      if Printable(last) {
        LookupAfterSet(ReadBack(init), UpToHyphen(last.0), last.1, key);
      }
      if !(Printable(last) && key == UpToHyphen(last.0)) {
        ReadBackIsClean(init, key);
      }
    }
  }

  /** Items that survive: no hyphen in the key, and an encoding for key and value. */
  ghost predicate AllClean(items: Items) {
    forall i | 0 <= i < |items| :: HYPHEN !in items[i].0 && Printable(items[i])
  }

  lemma {:induction false} SetNewItem(items: Items, key: Text, value: Text)
    requires forall i | 0 <= i < |items| :: items[i].0 != key
    ensures SetItem(items, key, value) == items + [(key, value)]
  {
    if items != [] {
      SetNewItem(items[1..], key, value);
    }
  }

  lemma {:induction false} CleanReadsBack(items: Items)
    requires DistinctKeys(items) && AllClean(items)
    ensures ReadBack(items) == items
  {
    if items != [] {
      var init, last := items[..|items| - 1], items[|items| - 1];
      CleanReadsBack(init);
      IndexOfAbsent(last.0, HYPHEN);
      assert last.0[..|last.0|] == last.0;
      SetNewItem(init, last.0, last.1);
      assert init + [last] == items;
    }
  }

  /**
   * The sentry items are recovered from the printed header if and only if no key has a hyphen and
   * every key and value can be encoded; then even their order is kept.
   */
  lemma ParseInvertsPrint(items: Items)
    requires DistinctKeys(items)
    ensures var parsed := ParseHeader(Join(PrintItems(items))).sentryItems;
            && (SameDict(parsed, items) <==> AllClean(items))
            && (AllClean(items) ==> parsed == items)
  {
    ParsedIsReadBack(items);
    if AllClean(items) {
      CleanReadsBack(items);
    } else if SameDict(ReadBack(items), items) {
      var i :| 0 <= i < |items| && !(HYPHEN !in items[i].0 && Printable(items[i]));
      LookupOfMember(items, i);
      assert Lookup(ReadBack(items), items[i].0) == Some(items[i].1);
      ReadBackIsClean(items, items[i].0);
      assert false;
    }
  }

  /** The item `a-b` comes back as `a`. */
  lemma HyphenCutsKey()
    ensures var items := [([0x61, HYPHEN, 0x62], [0x78])];
            ParseHeader(Join(PrintItems(items))).sentryItems == [([0x61], [0x78])]
  {
    hide ParseHeader, Join, PrintItems;
    var items: Items := [([0x61, HYPHEN, 0x62], [0x78])];
    ParsedIsReadBack(items);
    var key: Text := items[0].0;
    IndexOfFirst([0x61], HYPHEN, [0x62]);
    assert [0x61] + [HYPHEN] + [0x62] == key;
    assert UpToHyphen(key) == [0x61];
    assert items[..0] == [];
  }

  // ---------------------------------------------------------------- what a header is read as

  /** The members that are neither Sentry's nor without a value, stripped. */
  function Foreign(members: seq<Text>): seq<Text> {
    if members == [] then []
    else
      var last := members[|members| - 1];
      Foreign(members[..|members| - 1]) + if EQUALS in last && !IsSentry(last) then [Strip(last)] else []
  }

  lemma {:induction false} JoinSnoc(parts: seq<Text>, last: Text)
    ensures Join(parts + [last]) == if parts == [] then last else Join(parts) + [COMMA] + last
  {
    if |parts| > 1 {
      JoinSnoc(parts[1..], last);
      assert (parts + [last])[1..] == parts[1..] + [last];
    } else if |parts| == 1 {
      assert (parts + [last])[1..] == [last];
    }
  }

  lemma {:induction false} JoinOfNonEmpty(parts: seq<Text>)
    requires forall i | 0 <= i < |parts| :: parts[i] != []
    ensures Join(parts) == [] <==> parts == []
  {
  }

  /** Stripping white space leaves an equals sign where it is. */
  lemma {:induction false} StripLeftKeeps(s: Text)
    requires EQUALS in s
    ensures EQUALS in StripLeft(s)
  {
    if White(s[0]) {
      StripLeftKeeps(s[1..]);
    }
  }

  lemma {:induction false} StripRightKeeps(s: Text)
    requires EQUALS in s
    ensures EQUALS in StripRight(s)
  {
    var n := |s| - 1;
    if White(s[n]) {
      assert s == s[..n] + [s[n]];
      StripRightKeeps(s[..n]);
    }
  }

  /** A member with a value is Sentry's exactly if its name starts with `sentry-`. */
  lemma NameHasPrefix(member: Text)
    requires EQUALS in member
    ensures EQUALS in Strip(member)
    ensures SENTRY_PREFIX <= Strip(member)[..IndexOf(Strip(member), EQUALS)] <==> IsSentry(member)
  {
    hide IndexOf, StripLeft, StripRight;
    StripLeftKeeps(member);
    StripRightKeeps(StripLeft(member));
    var item := Strip(member);
    var i := IndexOf(item, EQUALS);
    assert forall k | 0 <= k < |SENTRY_PREFIX| :: SENTRY_PREFIX[k] != EQUALS;
    assert SENTRY_PREFIX <= item ==> forall k | 0 <= k < |SENTRY_PREFIX| :: item[k] == SENTRY_PREFIX[k];
  }

  /**
   * Third-party members are kept, stripped and in order; members without a value are dropped; and the
   * baggage stays mutable exactly if no member with a value is Sentry's.
   */
  lemma {:induction false} ForeignMembersAreKept(members: seq<Text>)
    ensures ParseMembers(members).thirdParty == Join(Foreign(members))
    ensures forall i | 0 <= i < |Foreign(members)| :: Foreign(members)[i] != []
    ensures ParseMembers(members).isMutable <==>
            forall i | 0 <= i < |members| :: !(EQUALS in members[i] && IsSentry(members[i]))
  {
    hide IsSentry, Strip, ParseMember, Join, Foreign;
    if members == [] {
      NothingJoined();
    } else {
      var init, last := members[..|members| - 1], members[|members| - 1];
      assert members == init + [last];
      ForeignMembersAreKept(init);
      OneForeign(init, last);
      if EQUALS in last {
        NameHasPrefix(last);
      }
      MemberKept(ParseMembers(init), Foreign(init), last);
      assert forall i | 0 <= i < |init| :: members[i] == init[i];
    }
  }

  lemma MemberKept(p: Parsed, foreign: seq<Text>, last: Text)
    requires p.thirdParty == Join(foreign) && forall i | 0 <= i < |foreign| :: foreign[i] != []
    ensures var q := ParseMember(p, last);
            var own := EQUALS in last && IsSentry(last);
            && q.thirdParty == Join(if EQUALS in last && !own then foreign + [Strip(last)] else foreign)
            && q.isMutable == (p.isMutable && !own)
  {
    hide IsSentry, Strip, SetItem, Unquote, SecondPart, IndexOf, Join;
    if EQUALS in last {
      NameHasPrefix(last);
      JoinOfNonEmpty(foreign);
      JoinSnoc(foreign, Strip(last));
      assert p.thirdParty == [] ==> p.thirdParty + [] + Strip(last) == Strip(last);
    }
  }

  lemma OneForeign(init: seq<Text>, last: Text)
    ensures Foreign(init + [last]) ==
            if EQUALS in last && !IsSentry(last) then Foreign(init) + [Strip(last)] else Foreign(init)
  {
    assert (init + [last])[..|init|] == init;
  }

  lemma NothingJoined()
    ensures Join([]) == [] && Foreign([]) == []
  {
  }

  /**
   * The same for a whole header: its third-party members, and whether it can still be changed.  An empty
   * header has neither.
   */
  lemma ThirdPartyOfHeader(header: Text)
    ensures ParseHeader(header).thirdParty == Join(Foreign(Split(header, COMMA)))
    ensures var members := Split(header, COMMA);
            ParseHeader(header).isMutable <==>
            forall i | 0 <= i < |members| :: !(EQUALS in members[i] && IsSentry(members[i]))
  {
    hide ParseMembers, Foreign, Join;
    ForeignMembersAreKept(Split(header, COMMA));
    if header == [] {
      NothingForeign();
    }
  }

  lemma NothingForeign()
    ensures Split([], COMMA) == [[]] && Join(Foreign([[]])) == []
  {
    var one: seq<Text> := [[]];
    assert one[..0] == [];
    assert Foreign(one) == Foreign([]) + [];
  }

  // ---------------------------------------------------------------- adding baggage to a header

  ghost predicate AllSentry(baggage: Text) {
    forall i | 0 <= i < |Split(baggage, COMMA)| :: IsSentry(Split(baggage, COMMA)[i])
  }

  /** What `serialize` produces, if anything, is baggage that can be added. */
  lemma PrintedIsAllSentry(items: Items)
    ensures AnyPrintable(items) <==> Join(PrintItems(items)) != []
    ensures AnyPrintable(items) ==> AllSentry(Join(PrintItems(items)))
  {
    ParsePrintedMembers(items);
    var members := PrintItems(items);
    if members != [] {
      SplitOfJoin(members);
      SentryIsNotEmpty(members[0]);
    }
  }

  lemma {:induction false} KeepConcat(a: seq<Text>, b: seq<Text>, sentry: bool)
    ensures Keep(a + b, sentry) == Keep(a, sentry) + Keep(b, sentry)
  {
    hide IsSentry;
    if a == [] {
      assert a + b == b;
    } else {
      assert (a + b)[1..] == a[1..] + b;
      KeepConcat(a[1..], b, sentry);
    }
  }

  lemma {:induction false} KeepAllOrNone(members: seq<Text>, all: bool, sentry: bool)
    requires forall i | 0 <= i < |members| :: IsSentry(members[i]) == all
    ensures Keep(members, sentry) == if all == sentry then members else []
  {
    hide IsSentry;
    if members != [] {
      KeepAllOrNone(members[1..], all, sentry);
    }
  }

  lemma {:induction false} KeepIsUniform(members: seq<Text>, sentry: bool)
    requires forall i | 0 <= i < |members| :: COMMA !in members[i]
    ensures forall i | 0 <= i < |Keep(members, sentry)| ::
              IsSentry(Keep(members, sentry)[i]) == sentry && COMMA !in Keep(members, sentry)[i]
  {
    hide IsSentry;
    if members != [] {
      KeepIsUniform(members[1..], sentry);
    }
  }

  function ThirdParty(header: Text): seq<Text> {
    Keep(Split(header, COMMA), false)
  }

  function Sentry(header: Text): seq<Text> {
    Keep(Split(header, COMMA), true)
  }

  /** Members of a header to which baggage was added: the third-party ones, then the baggage's. */
  lemma MembersOfAdded(existing: Text, baggage: Text)
    requires baggage != [] && AllSentry(baggage)
    ensures var rest := ThirdParty(existing);
            Split(Added(existing, baggage), COMMA) ==
              (if rest == [[]] then [] else rest) + Split(baggage, COMMA)
  {
    hide IsSentry, Split, Keep;
    SplitHasNoCommas(existing);
    KeepIsUniform(Split(existing, COMMA), false);
    var rest := ThirdParty(existing);
    if rest == [] || rest == [[]] {
      assert Join(rest) == [];
      assert [] + Split(baggage, COMMA) == Split(baggage, COMMA);
      assert [] + [] + baggage == baggage;
    } else {
      SplitOfJoin(rest);
      SplitOfConcat(Join(rest), baggage);
    }
  }

  lemma ThirdPartyOfAdded(existing: Text, baggage: Text)
    requires baggage != [] && AllSentry(baggage)
    ensures ThirdParty(Added(existing, baggage)) == if ThirdParty(existing) == [[]] then [] else ThirdParty(existing)
    ensures Sentry(Added(existing, baggage)) == Split(baggage, COMMA)
  {
    hide IsSentry, Split, Keep, Added;
    MembersOfAdded(existing, baggage);
    SplitHasNoCommas(existing);
    KeepIsUniform(Split(existing, COMMA), false);
    var rest := if ThirdParty(existing) == [[]] then [] else ThirdParty(existing);
    forall sentry
      ensures Keep(rest + Split(baggage, COMMA), sentry) == if sentry then Split(baggage, COMMA) else rest
    {
      KeepConcat(rest, Split(baggage, COMMA), sentry);
      KeepAllOrNone(rest, false, sentry);
      KeepAllOrNone(Split(baggage, COMMA), true, sentry);
    }
  }

  /**
   * Adding sentry baggage replaces the sentry members and keeps the third-party members, in order,
   * unless the only one is an empty member: that one, and only that one, disappears.
   */
  lemma AddingKeepsThirdParty(existing: Text, baggage: Text)
    requires baggage != [] && AllSentry(baggage)
    ensures Sentry(Added(existing, baggage)) == Split(baggage, COMMA)
    ensures ThirdParty(Added(existing, baggage)) == ThirdParty(existing) <==> ThirdParty(existing) != [[]]
  {
    ThirdPartyOfAdded(existing, baggage);
  }

  /** Adding the same baggage twice is adding it once. */
  lemma AddingIsIdempotent(existing: Text, baggage: Text)
    requires baggage != [] && AllSentry(baggage)
    ensures Added(Added(existing, baggage), baggage) == Added(existing, baggage)
  {
    hide IsSentry, Split, Keep;
    ThirdPartyOfAdded(existing, baggage);
    assert Join([]) == [] && Join([[]]) == [];
  }

  /** The header `sentry-a=1,` has one third-party member, an empty one, which adding baggage drops. */
  lemma EmptyMemberDisappears(baggage: Text)
    requires baggage != [] && AllSentry(baggage)
    ensures var header := SENTRY_PREFIX + [0x61, EQUALS, 0x31] + [COMMA];
            ThirdParty(header) == [[]] && ThirdParty(Added(header, baggage)) == []
  {
    hide Added, Strip, Keep;
    var a := SENTRY_PREFIX + [0x61, EQUALS, 0x31];
    var empty: Text := [];
    SplitOfConcat(a, empty);
    assert a + [COMMA] + empty == a + [COMMA];
    IndexOfAbsent(a, COMMA);
    PlainStrips(a);
    PlainStrips(empty);
    assert Split(a, COMMA) == [a] && Split(empty, COMMA) == [empty];
    KeepConcat([a], [empty], false);
    KeepAllOrNone([a], true, false);
    KeepAllOrNone([empty], false, false);
    assert [] + [empty] == [empty];
    ThirdPartyOfAdded(a + [COMMA], baggage);
  }

  lemma NamesAreSpelled()
    ensures SENTRY_PREFIX == Codes("sentry-") && BAGGAGE_HEADER_NAME == Codes("baggage")
    ensures SAMPLE_RAND == Codes("sample_rand")
    ensures [COMMA, EQUALS, HYPHEN, PERCENT] == Codes(",=-%")
  {
  }

  /** Sentry's members are those that start with `sentry-`, whatever white space is around them. */
  lemma SentryMeans(member: Text)
    ensures IsSentry(member) <==> |Strip(member)| >= 7 && Strip(member)[..7] == Codes("sentry-")
  {
    NamesAreSpelled();
    assert |SENTRY_PREFIX| == 7;
  }

  /** The digits an escape is written with, and those it is read with. */
  lemma HexDigits(d: nat, c: CodePoint)
    requires d < 16
    ensures UpperHex(d) == "0123456789ABCDEF"[d] as int
    ensures HexValue(c) == Some(d) <==> c == "0123456789ABCDEF"[d] as int || c == "0123456789abcdef"[d] as int
  {
  }

  /** The characters that need no escape. */
  lemma SafeMeans(b: Byte)
    ensures Safe(b) <==>
              || 'A' as int <= b <= 'Z' as int || 'a' as int <= b <= 'z' as int || '0' as int <= b <= '9' as int
              || b == '_' as int || b == '.' as int || b == '-' as int || b == '~' as int || b == '/' as int
  {
  }

  /** The white space that is stripped from a member, Unicode's included. */
  lemma WhiteMeans(c: CodePoint)
    ensures White(c) <==> c in [
      0x09, 0x0A, 0x0B, 0x0C, 0x0D, 0x1C, 0x1D, 0x1E, 0x1F, 0x20, 0x85, 0xA0, 0x1680, 0x2000, 0x2001, 0x2002, 0x2003,
      0x2004, 0x2005, 0x2006, 0x2007, 0x2008, 0x2009, 0x200A, 0x2028, 0x2029, 0x202F, 0x205F, 0x3000]
  {
  }

  /** The text ` /%` is written `%20/%25`. */
  lemma QuotingExample()
    ensures Quote(Codes(" /%")) == Some(Codes("%20/%25"))
  {
    hide Encode;
    var t: Text := [0x20, 0x2F, 0x25];
    assert Codes(" /%") == t;
    AsciiEncodesItself(t);
    assert t[1..] == [0x2F, 0x25] && t[1..][1..] == [0x25];
    assert QuoteByte(0x20) == [0x25, 0x32, 0x30] && QuoteByte(0x25) == [0x25, 0x32, 0x35];
    assert QuoteBytes([0x25]) == [0x25, 0x32, 0x35] + QuoteBytes([]);
    assert QuoteBytes([0x2F, 0x25]) == [0x2F] + QuoteBytes([0x25]);
    assert QuoteBytes(t) == [0x25, 0x32, 0x30] + QuoteBytes([0x2F, 0x25]);
    assert Codes("%20/%25") == [0x25, 0x32, 0x30] + ([0x2F] + ([0x25, 0x32, 0x35] + []));
  }
}
