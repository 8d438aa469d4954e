/**
 * Envelope framing, from `sentry_sdk/envelope.py`: a header line, then for each item a header line
 * that gives the payload's length, the payload, and a line end.
 */
module Envelope {
  import opened Options
  import opened Utf8
  import opened Json

  const NEWLINE: Byte := 0x0A
  const LENGTH: Text := [0x6C, 0x65, 0x6E, 0x67, 0x74, 0x68]                        // "length"
  const TYPE: Text := [0x74, 0x79, 0x70, 0x65]                                      // "type"
  const EVENT: Text := [0x65, 0x76, 0x65, 0x6E, 0x74]                               // "event"
  const TRANSACTION: Text := [0x74, 0x72, 0x61, 0x6E, 0x73, 0x61, 0x63, 0x74, 0x69, 0x6F, 0x6E]
  const CONTENT_TYPE: Text := [0x63, 0x6F, 0x6E, 0x74, 0x65, 0x6E, 0x74, 0x5F, 0x74, 0x79, 0x70, 0x65]
  const FILENAME: Text := [0x66, 0x69, 0x6C, 0x65, 0x6E, 0x61, 0x6D, 0x65]
  const APPLICATION_JSON: Text :=
    [0x61, 0x70, 0x70, 0x6C, 0x69, 0x63, 0x61, 0x74, 0x69, 0x6F, 0x6E, 0x2F, 0x6A, 0x73, 0x6F, 0x6E]
  const OCTET_STREAM: Text :=
    [0x61, 0x70, 0x70, 0x6C, 0x69, 0x63, 0x61, 0x74, 0x69, 0x6F, 0x6E, 0x2F,
     0x6F, 0x63, 0x74, 0x65, 0x74, 0x2D, 0x73, 0x74, 0x72, 0x65, 0x61, 0x6D]

  type Headers = seq<Field>

  /** `headers.get(key)`; Python's None is both an absent key and a JSON null. */
  function Get(headers: Headers, key: Text): Option<Json> {
    if headers == [] then None
    else if headers[0].key == key then (if headers[0].value.Null? then None else Some(headers[0].value))
    else Get(headers[1..], key)
  }

  predicate HasKey(headers: Headers, key: Text) {
    exists i :: 0 <= i < |headers| && headers[i].key == key
  }

  /** `json_dumps` */
  function Dumps(j: Json): Bytes {
    Encode(Print(j))
  }

  /** `parse_json` of bytes */
  function ParseJson(b: Bytes): Option<Json> {
    Loads(Decode(b, REPLACE))
  }

  // ---------------------------------------------------------------- payloads and items as values

  datatype Payload = Payload(bytes: Option<Bytes>, json: Option<Json>)

  function Content(p: Payload): Bytes {
    if p.bytes.Some? then p.bytes.value
    else if p.json.Some? then Dumps(p.json.value)
    else []
  }

  datatype ItemValue = ItemValue(headers: Headers, payload: Payload)

  function WithContentType(headers: Headers, p: Payload): Headers {
    if HasKey(headers, CONTENT_TYPE) then headers
    else SetField(headers, CONTENT_TYPE, Str(if p.json.Some? then APPLICATION_JSON else OCTET_STREAM))
  }

  function SetText(headers: Headers, key: Text, value: Option<Text>): Headers {
    if value.Some? then SetField(headers, key, Str(value.value)) else headers
  }

  /** The headers of a new item. */
  function ItemHeaders(headers: Headers, p: Payload, itemType: Option<Text>, contentType: Option<Text>,
                       filename: Option<Text>): Headers {
    var h := SetText(SetText(headers, FILENAME, filename), TYPE, itemType);
    if contentType.Some? then SetText(h, CONTENT_TYPE, contentType) else WithContentType(h, p)
  }

  predicate IsEvent(headers: Headers) {
    Get(headers, TYPE) == Some(Str(EVENT)) || Get(headers, TYPE) == Some(Str(TRANSACTION))
  }

  // ---------------------------------------------------------------- writing

  function WithLength(headers: Headers, content: Bytes): Headers {
    SetField(headers, LENGTH, Num(|content|))
  }

  /** What of an item goes into the stream. */
  datatype Frame = Frame(headers: Headers, content: Bytes)

  function FrameOf(item: ItemValue): Frame {
    Frame(item.headers, Content(item.payload))
  }

  function WriteItem(fr: Frame): Bytes {
    Dumps(Obj(WithLength(fr.headers, fr.content))) + [NEWLINE] + fr.content + [NEWLINE]
  }

  function WriteItems(frames: seq<Frame>): Bytes {
    if frames == [] then [] else WriteItems(frames[..|frames| - 1]) + WriteItem(frames[|frames| - 1])
  }

  function WriteEnvelope(headers: Headers, frames: seq<Frame>): Bytes {
    Dumps(Obj(headers)) + [NEWLINE] + WriteItems(frames)
  }

  // ---------------------------------------------------------------- reading

  /** Length of the first line, its line end included. */
  function LineLength(data: Bytes): (n: nat)
    ensures n <= |data| && (data != [] ==> n > 0)
  {
    if data == [] then 0 else if data[0] == NEWLINE then 1 else 1 + LineLength(data[1..])
  }

  predicate White(b: Byte) {
    b == 0x20 || 0x09 <= b <= 0x0D
  }

  function RStrip(b: Bytes): (r: Bytes)
    ensures |r| <= |b|
  {
    if b != [] && White(b[|b| - 1]) then RStrip(b[..|b| - 1]) else b
  }

  function RStripNewlines(b: Bytes): Bytes {
    if b != [] && b[|b| - 1] == NEWLINE then RStripNewlines(b[..|b| - 1]) else b
  }

  /** What `f.read(length)` does with a header value: how many bytes at most, or an exception. */
  function ReadLimit(length: Json, available: nat): Option<nat> {
    match length
    case Num(n) => Some(if 0 <= n <= available then n else available)
    case Bool(b) => Some(if b && available > 0 then 1 else 0)
    case _ => None
  }

  datatype ItemRead = NoItem | BadItem | GotItem(item: ItemValue, rest: Bytes)

  /** The payload after an item's header line, and what follows it. */
  function ReadPayload(headers: Headers, data: Bytes): (r: Option<(Bytes, Bytes)>)
    ensures r.Some? ==> |r.value.1| <= |data|
  {
    var length := Get(headers, LENGTH);
    if length.Some? then
      var n := ReadLimit(length.value, |data|);
      if n.None? then None
      else
        var after := data[n.value..];
        Some((data[..n.value], after[LineLength(after)..]))
    else
      Some((RStripNewlines(data[..LineLength(data)]), data[LineLength(data)..]))
  }

  /** Python's None stands for a JSON null. */
  function JsonPayload(j: Json): Payload {
    Payload(None, if j.Null? then None else Some(j))
  }

  function ReadItem(data: Bytes): (r: ItemRead)
    ensures r.GotItem? ==> |r.rest| < |data|
  {
    var line := RStrip(data[..LineLength(data)]);
    if line == [] then NoItem
    else
      var parsed := ParseJson(line);
      if parsed.None? || !parsed.value.Obj? then BadItem
      else
        var headers := parsed.value.fields;
        var read := ReadPayload(headers, data[LineLength(data)..]);
        if read.None? then BadItem
        else if IsEvent(headers) then
          var j := ParseJson(read.value.0);
          if j.None? then BadItem
          else
            var p := JsonPayload(j.value);
            GotItem(ItemValue(WithContentType(headers, p), p), read.value.1)
        else
          var p := Payload(Some(read.value.0), None);
          GotItem(ItemValue(WithContentType(headers, p), p), read.value.1)
  }

  function ReadItems(data: Bytes): Option<seq<ItemValue>>
    decreases |data|
  {
    match ReadItem(data)
    case NoItem => Some([])
    case BadItem => None
    case GotItem(item, rest) =>
      var items := ReadItems(rest);
      if items.None? then None else Some([item] + items.value)
  }

  /** `dict(headers) or {}`: null, an empty list and an empty string count as empty, other non-objects are refused. */
  function HeadersOf(j: Option<Json>): Option<Headers> {
    if j.None? then None
    else if j.value.Obj? then Some(j.value.fields)
    else if j.value.Null? || j.value == Arr([]) || j.value == Str([]) then Some([])
    else None
  }

  function ReadEnvelope(data: Bytes): Option<(Headers, seq<ItemValue>)> {
    var headers := HeadersOf(ParseJson(data[..LineLength(data)]));
    var items := ReadItems(data[LineLength(data)..]);
    if headers.None? || items.None? then None else Some((headers.value, items.value))
  }

  // ---------------------------------------------------------------- the classes

  /** `io.BytesIO`: written at the end, read from a cursor. */
  class Stream {
    var data: Bytes
    var pos: nat

    ghost predicate Valid()
      reads this
    {
      pos <= |data|
    }

    function Rest(): Bytes
      requires Valid()
      reads this
    {
      data[pos..]
    }

    constructor (data: Bytes)
      ensures Valid() && this.data == data && pos == 0
    {
      this.data, pos := data, 0;
    }

    method Write(b: Bytes)
      requires Valid()
      modifies this`data
      ensures Valid() && data == old(data) + b
    {
      data := data + b;
    }

    method ReadLine() returns (line: Bytes)
      requires Valid()
      modifies this`pos
      ensures Valid() && line == old(Rest())[..LineLength(old(Rest()))] && Rest() == old(Rest())[|line|..]
    {
      var start := pos;
      while pos < |data| && data[pos] != NEWLINE
        invariant start <= pos <= |data|
        invariant LineLength(data[start..]) == (pos - start) + LineLength(data[pos..])
        decreases |data| - pos
      {
        assert data[pos..][1..] == data[pos + 1..];
        pos := pos + 1;
      }
      if pos < |data| {
        pos := pos + 1;
      }
      line := data[start..pos];
      assert line == data[start..][..pos - start];
    }

    method Read(n: nat) returns (b: Bytes)
      requires Valid() && n <= |data| - pos
      modifies this`pos
      ensures Valid() && b == old(Rest())[..n] && Rest() == old(Rest())[n..]
    {
      b := data[pos..pos + n];
      assert b == data[pos..][..n];
      pos := pos + n;
    }
  }

  class PayloadRef {
    var bytes: Option<Bytes>
    const json: Option<Json>

    function Value(): Payload
      reads this
    {
      Payload(bytes, json)
    }

    constructor (bytes: Option<Bytes>, json: Option<Json>)
      ensures Value() == Payload(bytes, json)
    {
      this.bytes, this.json := bytes, json;
    }

    /** `get_bytes`: the serialized JSON is kept for the next time. */
    method GetBytes() returns (b: Bytes)
      modifies this`bytes
      ensures b == old(Content(Value())) && Content(Value()) == b
    {
      if bytes.None? {
        if json.Some? {
          bytes := Some(Dumps(json.value));
        }
      }
      b := if bytes.Some? then bytes.value else [];
    }
  }

  class Item {
    const headers: Headers
    const payload: PayloadRef

    function Value(): ItemValue
      reads payload
    {
      ItemValue(headers, payload.Value())
    }

    constructor (payload: PayloadRef, headers: Headers, itemType: Option<Text>, contentType: Option<Text>,
                 filename: Option<Text>)
      ensures this.payload == payload
      ensures this.headers == ItemHeaders(headers, payload.Value(), itemType, contentType, filename)
    {
      var h := headers;
      if filename.Some? {
        h := SetField(h, FILENAME, Str(filename.value));
      }
      if itemType.Some? {
        h := SetField(h, TYPE, Str(itemType.value));
      }
      if contentType.Some? {
        h := SetField(h, CONTENT_TYPE, Str(contentType.value));
      } else {
        h := WithContentType(h, Payload(payload.bytes, payload.json));
      }
      this.headers := h;
      this.payload := payload;
    }

    method SerializeInto(f: Stream)
      requires f.Valid()
      modifies f`data, payload`bytes
      ensures f.Valid() && f.data == old(f.data) + WriteItem(old(FrameOf(Value())))
      ensures Content(payload.Value()) == old(Content(payload.Value()))
    {
      hide Dumps, SetField;
      var content := payload.GetBytes();
      var withLength := WithLength(headers, content);
      f.Write(Dumps(Obj(withLength)));
      f.Write([NEWLINE]);
      f.Write(content);
      f.Write([NEWLINE]);
      var line := Dumps(Obj(withLength));
      assert f.data == old(f.data) + (line + [NEWLINE] + content + [NEWLINE]);
    }

    static method ReadPayloadFrom(f: Stream, headers: Headers) returns (payload: Option<Bytes>)
      requires f.Valid()
      modifies f`pos
      ensures f.Valid()
      ensures var r := ReadPayload(headers, old(f.Rest()));
              && (payload.Some? <==> r.Some?)
              && (r.Some? ==> payload.value == r.value.0 && f.Rest() == r.value.1)
    {
      hide Get, LineLength, RStripNewlines;
      var length := Get(headers, LENGTH);
      if length.Some? {
        var n := ReadLimit(length.value, |f.data| - f.pos);
        if n.None? {
          return None;
        }
        var b := f.Read(n.value);
        var _ := f.ReadLine();
        payload := Some(b);
      } else {
        var b := f.ReadLine();
        payload := Some(RStripNewlines(b));
      }
    }

    /** None at the end of the envelope; a failure is an exception in the source. */
    static method DeserializeFrom(f: Stream) returns (item: Option<Item>, ok: bool)
      requires f.Valid()
      modifies f`pos
      ensures f.Valid()
      ensures match ReadItem(old(f.Rest()))
              case NoItem => ok && item.None?
              case BadItem => !ok
              case GotItem(v, rest) => ok && item.Some? && fresh(item.value) && fresh(item.value.payload)
                                       && item.value.Value() == v && f.Rest() == rest
    {
      hide ParseJson, LineLength, RStrip, ReadPayload, IsEvent, HasKey;
      var line := f.ReadLine();
      line := RStrip(line);
      item := None;
      if line == [] {
        return None, true;
      }
      var parsed := ParseJson(line);
      if parsed.None? || !parsed.value.Obj? {
        return None, false;
      }
      var headers := parsed.value.fields;
      var payload := ReadPayloadFrom(f, headers);
      if payload.None? {
        return None, false;
      }
      var ref;
      if IsEvent(headers) {
        var j := ParseJson(payload.value);
        if j.None? {
          return None, false;
        }
        ref := new PayloadRef(None, if j.value.Null? then None else j);
      } else {
        ref := new PayloadRef(payload, None);
      }
      var rv := new Item(ref, headers, None, None, None);
      return Some(rv), true;
    }
  }

  class Envelope {
    const headers: Headers
    const items: seq<Item>

    constructor (headers: Option<Headers>, items: seq<Item>)
      ensures this.headers == (if headers.Some? then headers.value else []) && this.items == items
    {
      this.headers := if headers.Some? then headers.value else [];
      this.items := items;
    }

    /** `frames` is what the items hold. */
    ghost predicate Holds(frames: seq<Frame>)
      reads set i | 0 <= i < |items| :: items[i].payload
    {
      |frames| == |items| && forall i | 0 <= i < |items| :: FrameOf(items[i].Value()) == frames[i]
    }

    method SerializeInto(f: Stream, ghost frames: seq<Frame>)
      requires f.Valid() && Holds(frames)
      modifies f`data, (set i | 0 <= i < |items| :: items[i].payload)`bytes
      ensures f.Valid() && f.data == old(f.data) + WriteEnvelope(headers, frames) && Holds(frames)
    {
      hide WriteItem, WriteItems, Dumps, Content;
      WriteNothing();
      f.Write(Dumps(Obj(headers)));
      f.Write([NEWLINE]);
      ghost var start := f.data;
      for i := 0 to |items|
        invariant f.Valid() && Holds(frames) && f.data == start + WriteItems(frames[..i])
      {
        label Round:
        ghost var written := f.data;
        items[i].SerializeInto(f);
        forall k | 0 <= k < |items|
          ensures FrameOf(items[k].Value()) == frames[k]
        {
          if items[k].payload != items[i].payload {
            assert items[k].Value() == old@Round(items[k].Value());
          }
        }
        WriteItemsSnoc(frames, i);
        assert f.data == written + WriteItem(frames[i]);
        assert start + (WriteItems(frames[..i]) + WriteItem(frames[i])) == written + WriteItem(frames[i]);
      }
      assert frames[..|items|] == frames;
      assert f.data == old(f.data) + (Dumps(Obj(headers)) + [NEWLINE] + WriteItems(frames));
    }

    static method DeserializeFrom(f: Stream) returns (envelope: Option<Envelope>)
      requires f.Valid()
      modifies f`pos
      ensures envelope.Some? <==> ReadEnvelope(old(f.Rest())).Some?
      ensures envelope.Some? ==>
                var (headers, items) := ReadEnvelope(old(f.Rest())).value;
                && envelope.value.headers == headers
                && |envelope.value.items| == |items|
                && forall i | 0 <= i < |items| :: envelope.value.items[i].Value() == items[i]
    {
      hide ParseJson, ReadItem, LineLength;
      ghost var all := f.Rest();
      var line := f.ReadLine();
      var headers := HeadersOf(ParseJson(line));
      if headers.None? {
        return None;
      }
      var items: seq<Item> := [];
      ghost var values: seq<ItemValue> := [];
      ghost var body := f.Rest();
      PrependNothing(ReadItems(body));
      while true
        invariant f.Valid() && |items| == |values|
        invariant forall i | 0 <= i < |items| ::
                    fresh(items[i]) && fresh(items[i].payload) && items[i].Value() == values[i]
        invariant ReadItems(body) == Prepend(values, ReadItems(f.Rest()))
        decreases |f.Rest()|
      {
        ghost var before := f.Rest();
        var item, ok := Item.DeserializeFrom(f);
        if !ok {
          return None;
        }
        if item.None? {
          break;
        }
        PrependSnoc(values, item.value.Value(), ReadItems(f.Rest()));
        items := items + [item.value];
        values := values + [item.value.Value()];
      }
      assert values + [] == values;
      var e := new Envelope(headers, items);
      envelope := Some(e);
    }
  }

  lemma WriteNothing()
    ensures WriteItems([]) == []
  {
  }

  lemma WriteItemsSnoc(frames: seq<Frame>, i: nat)
    requires i < |frames|
    ensures WriteItems(frames[..i + 1]) == WriteItems(frames[..i]) + WriteItem(frames[i])
  {
    assert frames[..i + 1][..i] == frames[..i];
  }

  function Prepend(values: seq<ItemValue>, rest: Option<seq<ItemValue>>): Option<seq<ItemValue>> {
    if rest.None? then None else Some(values + rest.value)
  }

  lemma PrependNothing(rest: Option<seq<ItemValue>>)
    ensures Prepend([], rest) == rest
  {
    if rest.Some? {
      assert [] + rest.value == rest.value;
    }
  }

  lemma PrependSnoc(values: seq<ItemValue>, v: ItemValue, rest: Option<seq<ItemValue>>)
    ensures Prepend(values, Prepend([v], rest)) == Prepend(values + [v], rest)
  {
    if rest.Some? {
      assert values + ([v] + rest.value) == values + [v] + rest.value;
    }
  }
}
