/**
 * Baggage headers, from `sentry_sdk/tracing_utils.py`, with percent-encoding as in
 * `urllib.parse` (section 2.1 of RFC 3986).
 */
module Baggage {
  import opened Options
  import opened Utf8

  const COMMA: CodePoint := 0x2C
  const EQUALS: CodePoint := 0x3D
  const HYPHEN: CodePoint := 0x2D
  const PERCENT: CodePoint := 0x25

  /** "sentry-" */
  const SENTRY_PREFIX: Text := [0x73, 0x65, 0x6E, 0x74, 0x72, 0x79, 0x2D]

  // ---------------------------------------------------------------- text

  /** What `str.strip` removes. */
  predicate White(c: CodePoint) {
    || 0x09 <= c <= 0x0D || 0x1C <= c <= 0x20 || c == 0x85 || c == 0xA0 || c == 0x1680
    || 0x2000 <= c <= 0x200A || c == 0x2028 || c == 0x2029 || c == 0x202F || c == 0x205F || c == 0x3000
  }

  function StripLeft(s: Text): (r: Text)
    ensures |r| <= |s|
  {
    if s != [] && White(s[0]) then StripLeft(s[1..]) else s
  }

  function StripRight(s: Text): (r: Text)
    ensures |r| <= |s|
  {
    if s != [] && White(s[|s| - 1]) then StripRight(s[..|s| - 1]) else s
  }

  function Strip(s: Text): Text {
    StripRight(StripLeft(s))
  }

  /** Position of the first `c`, or the length. */
  function IndexOf(s: Text, c: CodePoint): (i: nat)
    ensures i <= |s| && (forall j | 0 <= j < i :: s[j] != c) && (i < |s| ==> s[i] == c)
  {
    if s == [] || s[0] == c then 0 else 1 + IndexOf(s[1..], c)
  }

  /** `s.split(c)` */
  function Split(s: Text, c: CodePoint): (parts: seq<Text>)
    ensures parts != []
  {
    var i := IndexOf(s, c);
    if i == |s| then [s] else [s[..i]] + Split(s[i + 1..], c)
  }

  /** `",".join(parts)` */
  function Join(parts: seq<Text>): Text {
    if parts == [] then []
    else if |parts| == 1 then parts[0]
    else parts[0] + [COMMA] + Join(parts[1..])
  }

  // ---------------------------------------------------------------- percent-encoding

  /** Letters, digits and `_.-~/`. */
  predicate Safe(b: Byte) {
    || 0x41 <= b <= 0x5A || 0x61 <= b <= 0x7A || 0x30 <= b <= 0x39
    || b == 0x5F || b == 0x2E || b == 0x2D || b == 0x7E || b == 0x2F
  }

  function UpperHex(d: nat): CodePoint
    requires d < 16
  {
    if d < 10 then 0x30 + d else 0x41 + d - 10
  }

  function QuoteByte(b: Byte): Text {
    if Safe(b) then [b] else [PERCENT, UpperHex(b / 16), UpperHex(b % 16)]
  }

  function QuoteBytes(bytes: Bytes): Text {
    if bytes == [] then [] else QuoteByte(bytes[0]) + QuoteBytes(bytes[1..])
  }

  /** `quote(text)`; None when the text has no UTF-8 encoding and an exception is raised. */
  function Quote(text: Text): Option<Text> {
    if Encodable(text) then Some(QuoteBytes(Encode(text))) else None
  }

  function HexValue(c: CodePoint): Option<nat> {
    if 0x30 <= c <= 0x39 then Some(c - 0x30)
    else if 0x41 <= c <= 0x46 then Some(c - 0x41 + 10)
    else if 0x61 <= c <= 0x66 then Some(c - 0x61 + 10)
    else None
  }

  predicate Ascii(s: Text) {
    forall i | 0 <= i < |s| :: s[i] < 0x80
  }

  predicate Escaped(s: Text) {
    |s| >= 3 && s[0] == PERCENT && HexValue(s[1]).Some? && HexValue(s[2]).Some?
  }

  /** `unquote_to_bytes`: a percent sign without two hexadecimal digits stands for itself. */
  function UnquoteBytes(s: Text): Bytes
    requires Ascii(s)
  {
    if s == [] then []
    else if Escaped(s) then
      var (hi, lo) := (HexValue(s[1]).value, HexValue(s[2]).value);
      [if hi < 16 && lo < 16 then hi * 16 + lo else 0] + UnquoteBytes(s[3..])
    else [s[0]] + UnquoteBytes(s[1..])
  }

  function AsciiRun(s: Text): (n: nat)
    ensures n <= |s| && Ascii(s[..n]) && (n < |s| ==> s[n] >= 0x80)
  {
    if s == [] || s[0] >= 0x80 then 0 else 1 + AsciiRun(s[1..])
  }

  /** `unquote`: each run of ASCII is decoded as UTF-8 with replacement; other characters stay. */
  function Unquote(s: Text): Text {
    if s == [] then []
    else if s[0] >= 0x80 then [s[0]] + Unquote(s[1..])
    else
      var n := AsciiRun(s);
      Decode(UnquoteBytes(s[..n]), REPLACE) + Unquote(s[n..])
  }

  // ---------------------------------------------------------------- baggage values

  /** A dictionary in insertion order. */
  type Items = seq<(Text, Text)>

  function SetItem(items: Items, key: Text, value: Text): Items {
    if items == [] then [(key, value)]
    else if items[0].0 == key then [(key, value)] + items[1..]
    else [items[0]] + SetItem(items[1..], key, value)
  }

  datatype Parsed = Parsed(sentryItems: Items, thirdParty: Text, isMutable: bool)

  /** One member of an incoming header. */
  function ParseMember(p: Parsed, member: Text): Parsed {
    if EQUALS !in member then p
    else
      var item := Strip(member);
      var i := IndexOf(item, EQUALS);
      var key, val := item[..i], if i < |item| then item[i + 1..] else [];
      if SENTRY_PREFIX <= key then
        var name := Unquote(SecondPart(key));
        Parsed(SetItem(p.sentryItems, name, Unquote(val)), p.thirdParty, false)
      else
        p.(thirdParty := p.thirdParty + (if p.thirdParty != [] then [COMMA] else []) + item)
  }

  /** `key.split("-")[1]` */
  function SecondPart(key: Text): Text
    requires SENTRY_PREFIX <= key
  {
    var rest := key[|SENTRY_PREFIX|..];
    rest[..IndexOf(rest, HYPHEN)]
  }

  function ParseMembers(members: seq<Text>): Parsed {
    if members == [] then Parsed([], [], true)
    else ParseMember(ParseMembers(members[..|members| - 1]), members[|members| - 1])
  }

  lemma ParseMembersOfNothing()
    ensures ParseMembers([]) == Parsed([], [], true)
  {
  }

  lemma ParseMembersSnoc(members: seq<Text>, i: nat)
    requires i < |members|
    ensures ParseMembers(members[..i + 1]) == ParseMember(ParseMembers(members[..i]), members[i])
  {
    assert members[..i + 1][..i] == members[..i];
  }

  /** `from_incoming_header`, without a sample_rand to add. */
  function ParseHeader(header: Text): Parsed {
    if header == [] then Parsed([], [], true) else ParseMembers(Split(header, COMMA))
  }

  /** One item of an outgoing header; an item that cannot be encoded is left out. */
  function PrintItem(key: Text, value: Text): Option<Text> {
    var (k, v) := (Quote(key), Quote(value));
    if k.Some? && v.Some? then Some(SENTRY_PREFIX + k.value + [EQUALS] + v.value) else None
  }

  function PrintItems(items: Items): seq<Text> {
    if items == [] then []
    else
      var last := PrintItem(items[|items| - 1].0, items[|items| - 1].1);
      PrintItems(items[..|items| - 1]) + if last.Some? then [last.value] else []
  }

  predicate IsSentry(member: Text) {
    SENTRY_PREFIX <= Strip(member)
  }

  function Keep(members: seq<Text>, sentry: bool): seq<Text> {
    if members == [] then []
    else if IsSentry(members[0]) == sentry then [members[0]] + Keep(members[1..], sentry)
    else Keep(members[1..], sentry)
  }

  /** `strip_sentry_baggage` */
  function StripSentry(header: Text): Text {
    Join(Keep(Split(header, COMMA), false))
  }

  /** The header after `add_sentry_baggage_to_headers`. */
  function Added(existing: Text, baggage: Text): Text {
    var stripped := StripSentry(existing);
    stripped + (if stripped != [] then [COMMA] else []) + baggage
  }

  // ---------------------------------------------------------------- the class

  /** "sample_rand" */
  const SAMPLE_RAND: Text := [0x73, 0x61, 0x6D, 0x70, 0x6C, 0x65, 0x5F, 0x72, 0x61, 0x6E, 0x64]

  class Baggage {
    var sentryItems: Items
    var thirdPartyItems: Text
    var isMutable: bool

    function Value(): Parsed
      reads this
    {
      Parsed(sentryItems, thirdPartyItems, isMutable)
    }

    constructor (sentryItems: Items, thirdPartyItems: Text, isMutable: bool)
      ensures Value() == Parsed(sentryItems, thirdPartyItems, isMutable)
    {
      this.sentryItems, this.thirdPartyItems, this.isMutable := sentryItems, thirdPartyItems, isMutable;
    }

    static method FromIncomingHeader(header: Option<Text>, sampleRand: Option<Text>) returns (b: Baggage)
      ensures fresh(b)
      ensures var p := ParseHeader(if header.Some? then header.value else []);
              b.Value() == if sampleRand.Some?
                then Parsed(SetItem(p.sentryItems, SAMPLE_RAND, sampleRand.value), p.thirdParty, false) else p
    {
      hide IndexOf, Strip, Unquote, SetItem, Split, ParseMembers;
      var sentryItems: Items, thirdPartyItems: Text, isMutable := [], [], true;
      ParseMembersOfNothing();
      if header.Some? && header.value != [] {
        var members := Split(header.value, COMMA);
        for i := 0 to |members|
          invariant Parsed(sentryItems, thirdPartyItems, isMutable) == ParseMembers(members[..i])
        {
          ParseMembersSnoc(members, i);
          if EQUALS !in members[i] {
            continue;
          }
          var item := Strip(members[i]);
          var at := IndexOf(item, EQUALS);
          var key, val := item[..at], if at < |item| then item[at + 1..] else [];
          if SENTRY_PREFIX <= key {
            var baggageKey := Unquote(SecondPart(key));
            sentryItems := SetItem(sentryItems, baggageKey, Unquote(val));
            isMutable := false;
          } else {
            thirdPartyItems := thirdPartyItems + (if thirdPartyItems != [] then [COMMA] else []) + item;
          }
        }
        assert members[..|members|] == members;
      }
      if sampleRand.Some? {
        sentryItems := SetItem(sentryItems, SAMPLE_RAND, sampleRand.value);
        isMutable := false;
      }
      b := new Baggage(sentryItems, thirdPartyItems, isMutable);
    }

    method Serialize(includeThirdParty: bool) returns (header: Text)
      ensures header == Join(PrintItems(sentryItems)
                             + if includeThirdParty && thirdPartyItems != [] then [thirdPartyItems] else [])
    {
      var items: seq<Text> := [];
      for i := 0 to |sentryItems|
        invariant items == PrintItems(sentryItems[..i])
      {
        assert sentryItems[..i + 1][..i] == sentryItems[..i];
        var (key, val) := sentryItems[i];
        var k, v := Quote(key), Quote(val);
        if k.Some? && v.Some? {
          items := items + [SENTRY_PREFIX + k.value + [EQUALS] + v.value];
        }
      }
      assert sentryItems[..|sentryItems|] == sentryItems;
      assert items == PrintItems(sentryItems) + [];
      if includeThirdParty && thirdPartyItems != [] {
        items := items + [thirdPartyItems];
      }
      header := Join(items);
    }
  }

  /** "baggage" */
  const BAGGAGE_HEADER_NAME: Text := [0x62, 0x61, 0x67, 0x67, 0x61, 0x67, 0x65]

  class HeaderMap {
    var entries: map<Text, Text>

    method AddSentryBaggage(sentryBaggage: Text)
      modifies this
      ensures var existing := if BAGGAGE_HEADER_NAME in old(entries) then old(entries)[BAGGAGE_HEADER_NAME] else [];
              entries == old(entries)[BAGGAGE_HEADER_NAME := Added(existing, sentryBaggage)]
    {
      var existingBaggage := if BAGGAGE_HEADER_NAME in entries then entries[BAGGAGE_HEADER_NAME] else [];
      var strippedExistingBaggage := StripSentry(existingBaggage);
      var separator := if |strippedExistingBaggage| > 0 then [COMMA] else [];
      entries := entries[BAGGAGE_HEADER_NAME := strippedExistingBaggage + separator + sentryBaggage];
    }
  }
}
