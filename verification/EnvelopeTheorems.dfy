/** Reading an envelope inverts writing it, for payloads of any bytes. */
module EnvelopeTheorems {
  import opened Options
  import opened Utf8
  import opened Json
  import opened JsonTheorems
  import opened Envelope

  // ---------------------------------------------------------------- header lines

  lemma DumpsIsPrint(j: Json)
    ensures Dumps(j) == Print(j) && Printable(Print(j))
    ensures forall i | 0 <= i < |Dumps(j)| :: 0x20 <= Dumps(j)[i] < 0x7F
  {
    PrintIsPrintable(j);
    AsciiEncodesItself(Print(j));
  }

  /** `parse_json(json_dumps(j)) == j`, also with a line end behind it. */
  lemma ParseOfDumps(j: Json)
    requires Sound(j)
    ensures ParseJson(Dumps(j)) == Some(j) && ParseJson(Dumps(j) + [NEWLINE]) == Some(j)
  {
    var p := Print(j);
    DumpsIsPrint(j);
    LoadsOfPrint(j);
    var line: Text := p + [0x0A];
    assert forall i | 0 <= i < |p| :: p[i] < 0x80;
    assert forall i | 0 <= i < |line| :: line[i] < 0x80;
    AsciiEncodesItself(line);
    DecodeInvertsEncode(p, [], REPLACE);
    DecodeInvertsEncode(line, [], REPLACE);
    assert Encode(p) + [] == Encode(p) && Encode(line) + [] == Encode(line);
    assert p + [] == p && line + [] == line;
    assert Dumps(j) + [NEWLINE] == line;
  }

  lemma {:induction false} LineLengthOf(line: Bytes, rest: Bytes)
    requires forall i | 0 <= i < |line| :: line[i] != NEWLINE
    ensures LineLength(line + [NEWLINE] + rest) == |line| + 1
  {
    if line != [] {
      assert (line + [NEWLINE] + rest)[1..] == line[1..] + [NEWLINE] + rest;
      LineLengthOf(line[1..], rest);
    } else {
      assert line + [NEWLINE] + rest == [NEWLINE] + rest;
    }
  }

  lemma {:induction false} ObjEndsInBrace(fields: seq<Field>)
    requires fields != []
    ensures PrintFields(fields) != [] && PrintFields(fields)[|PrintFields(fields)| - 1] == 0x7D
  {
    if |fields| > 1 {
      ObjEndsInBrace(fields[1..]);
    }
  }

  lemma StripOfHeaderLine(fields: seq<Field>)
    ensures RStrip(Dumps(Obj(fields)) + [NEWLINE]) == Dumps(Obj(fields)) && Dumps(Obj(fields)) != []
  {
    hide PrintFields;
    DumpsIsPrint(Obj(fields));
    if fields != [] {
      ObjEndsInBrace(fields);
    }
    var d := Dumps(Obj(fields));
    assert d[|d| - 1] == 0x7D;
    var line := d + [NEWLINE];
    assert line[..|line| - 1] == d;
    assert RStrip(d) == d;
  }

  // ---------------------------------------------------------------- headers

  lemma {:induction false} GetAfterSet(headers: Headers, key: Text, value: Json, k: Text)
    ensures Get(SetField(headers, key, value), k) ==
            if k == key then (if value.Null? then None else Some(value)) else Get(headers, k)
  {
    if headers != [] && headers[0].key != key {
      GetAfterSet(headers[1..], key, value, k);
      assert SetField(headers, key, value)[1..] == SetField(headers[1..], key, value);
    } else {
      assert SetField(headers, key, value)[1..] == if headers == [] then [] else headers[1..];
    }
  }

  lemma {:induction false} KeysAfterSet(headers: Headers, key: Text, value: Json)
    ensures var r := SetField(headers, key, value);
            && |headers| <= |r| <= |headers| + 1
            && (forall i | 0 <= i < |headers| :: r[i].key == headers[i].key)
            && (|r| > |headers| ==> r[|headers|].key == key && forall i | 0 <= i < |headers| :: headers[i].key != key)
  {
    if headers != [] && headers[0].key != key {
      KeysAfterSet(headers[1..], key, value);
    }
  }

  lemma {:induction false} SoundAfterSet(headers: Headers, key: Text, value: Json)
    requires SoundFields(headers) && NoPairs(key) && Sound(value)
    ensures SoundFields(SetField(headers, key, value))
  {
    if headers != [] && headers[0].key != key {
      SoundAfterSet(headers[1..], key, value);
      assert SetField(headers, key, value)[1..] == SetField(headers[1..], key, value);
    } else {
      assert SetField(headers, key, value)[1..] == if headers == [] then [] else headers[1..];
    }
  }

  lemma {:induction false} SetTwice(headers: Headers, key: Text, v: Json, w: Json)
    ensures SetField(SetField(headers, key, v), key, w) == SetField(headers, key, w)
  {
    if headers != [] && headers[0].key != key {
      SetTwice(headers[1..], key, v, w);
      assert SetField(headers, key, v)[1..] == SetField(headers[1..], key, v);
    } else {
      assert SetField(headers, key, v)[1..] == if headers == [] then [] else headers[1..];
    }
  }

  /** Adding `length` keeps headers sound and changes no other entry. */
  lemma LengthHeader(headers: Headers, content: Bytes)
    requires Sound(Obj(headers))
    ensures var h := WithLength(headers, content);
            && Sound(Obj(h))
            && Get(h, LENGTH) == Some(Num(|content|))
            && (forall k | k != LENGTH :: Get(h, k) == Get(headers, k))
            && (HasKey(headers, CONTENT_TYPE) ==> HasKey(h, CONTENT_TYPE))
            && WithLength(h, content) == h
  {
    hide SetField, Get, SoundFields;
    KeysAfterSet(headers, LENGTH, Num(|content|));
    SoundAfterSet(headers, LENGTH, Num(|content|));
    SetTwice(headers, LENGTH, Num(|content|), Num(|content|));
    forall k
      ensures Get(WithLength(headers, content), k) == if k == LENGTH then Some(Num(|content|)) else Get(headers, k)
    {
      GetAfterSet(headers, LENGTH, Num(|content|), k);
    }
    if HasKey(headers, CONTENT_TYPE) {
      var i :| 0 <= i < |headers| && headers[i].key == CONTENT_TYPE;
      assert WithLength(headers, content)[i].key == CONTENT_TYPE;
    }
  }

  lemma {:induction false} SetFieldHasKey(headers: Headers, key: Text, value: Json)
    ensures HasKey(SetField(headers, key, value), key)
  {
    var r := SetField(headers, key, value);
    if headers == [] || headers[0].key == key {
      assert r[0].key == key;
    } else {
      SetFieldHasKey(headers[1..], key, value);
      var tail := SetField(headers[1..], key, value);
      var i :| 0 <= i < |tail| && tail[i].key == key;
      assert r[i + 1].key == key;
    }
  }

  ghost predicate TextOk(value: Option<Text>) {
    value.Some? ==> NoPairs(value.value)
  }

  lemma SetTextKeepsSound(headers: Headers, key: Text, value: Option<Text>)
    requires Sound(Obj(headers)) && NoPairs(key) && TextOk(value)
    ensures Sound(Obj(SetText(headers, key, value)))
    ensures forall k :: Get(SetText(headers, key, value), k) ==
              if value.Some? && k == key then Some(Str(value.value)) else Get(headers, k)
    ensures value.Some? || HasKey(headers, key) ==> HasKey(SetText(headers, key, value), key)
  {
    hide SetField, Get, SoundFields, HasKey;
    if value.Some? {
      KeysAfterSet(headers, key, Str(value.value));
      SoundAfterSet(headers, key, Str(value.value));
      SetFieldHasKey(headers, key, Str(value.value));
      forall k
        ensures Get(SetField(headers, key, Str(value.value)), k) ==
                if k == key then Some(Str(value.value)) else Get(headers, k)
      {
        GetAfterSet(headers, key, Str(value.value), k);
      }
    }
  }

  // ---------------------------------------------------------------- one item

  /** `content` is what `json_dumps` makes of some value other than None. */
  ghost predicate Canonical(content: Bytes) {
    exists j :: Sound(j) && !j.Null? && content == Dumps(j)
  }

  /**
   * An item as the constructor leaves it: JSON-able headers with a content type, and any payload;
   * the payload of an event or transaction is the JSON of its dictionary.
   */
  ghost predicate Framable(fr: Frame) {
    && Sound(Obj(fr.headers)) && HasKey(fr.headers, CONTENT_TYPE)
    && (IsEvent(fr.headers) ==> Canonical(fr.content))
  }

  /**
   * Every item the constructor makes can be framed, given headers JSON can carry and, for an event
   * or transaction, a payload that is the JSON of something: it has a content type, and the type,
   * file name and content type it was given.
   */
  lemma NewItemIsFramable(headers: Headers, p: Payload, itemType: Option<Text>, contentType: Option<Text>,
                          filename: Option<Text>)
    requires Sound(Obj(headers)) && TextOk(itemType) && TextOk(contentType) && TextOk(filename)
    requires var h := ItemHeaders(headers, p, itemType, contentType, filename);
             IsEvent(h) ==> p.bytes.None? && p.json.Some? && Sound(p.json.value) && !p.json.value.Null?
    ensures var h := ItemHeaders(headers, p, itemType, contentType, filename);
            && Framable(Frame(h, Content(p)))
            && (itemType.Some? ==> Get(h, TYPE) == Some(Str(itemType.value)))
            && (contentType.Some? ==> Get(h, CONTENT_TYPE) == Some(Str(contentType.value)))
            && (filename.Some? ==> Get(h, FILENAME) == Some(Str(filename.value)))
  {
    hide SetText, Get, Sound, HasKey, Canonical, Content, IsEvent, WithContentType;
    if IsEvent(ItemHeaders(headers, p, itemType, contentType, filename)) {
      JsonIsCanonical(p);
    }
    var named := SetText(headers, FILENAME, filename);
    SetTextKeepsSound(headers, FILENAME, filename);
    SetTextKeepsSound(named, TYPE, itemType);
    var typed := SetText(named, TYPE, itemType);
    var inferred := if p.json.Some? then APPLICATION_JSON else OCTET_STREAM;
    SetTextKeepsSound(typed, CONTENT_TYPE, contentType);
    SetTextKeepsSound(typed, CONTENT_TYPE, Some(inferred));
    InferredIsSet(typed, p);
    assert |CONTENT_TYPE| != |TYPE| && |CONTENT_TYPE| != |FILENAME| && |TYPE| != |FILENAME|;
  }

  lemma JsonIsCanonical(p: Payload)
    requires p.bytes.None? && p.json.Some? && Sound(p.json.value) && !p.json.value.Null?
    ensures Canonical(Content(p))
  {
  }

  lemma InferredIsSet(h: Headers, p: Payload)
    ensures var inferred := if p.json.Some? then APPLICATION_JSON else OCTET_STREAM;
            WithContentType(h, p) == if HasKey(h, CONTENT_TYPE) then h else SetText(h, CONTENT_TYPE, Some(inferred))
  {
  }

  /** The item read back: its headers have gained the length, its payload is the same. */
  ghost predicate ReadBack(fr: Frame, item: ItemValue) {
    item.headers == WithLength(fr.headers, fr.content) && Content(item.payload) == fr.content
  }

  /** The bytes after the header line: the payload as it was, whatever bytes it holds. */
  lemma PayloadReadBack(h: Headers, content: Bytes, more: Bytes)
    requires Get(h, LENGTH) == Some(Num(|content|))
    ensures ReadPayload(h, content + [NEWLINE] + more) == Some((content, more))
  {
    var data := content + [NEWLINE] + more;
    assert data[..|content|] == content && data[|content|..] == [NEWLINE] + more;
    assert ([NEWLINE] + more)[1..] == more;
  }

  /**
   * What any written item is read back as: with the length among its headers, and, if it is an event
   * or transaction, with whatever its payload parses to.
   */
  lemma ItemReadBack(fr: Frame, more: Bytes)
    requires Sound(Obj(fr.headers)) && HasKey(fr.headers, CONTENT_TYPE)
    ensures var h := WithLength(fr.headers, fr.content);
            ReadItem(WriteItem(fr) + more) ==
              if !IsEvent(fr.headers) then GotItem(ItemValue(h, Payload(Some(fr.content), None)), more)
              else if ParseJson(fr.content).None? then BadItem
              else GotItem(ItemValue(h, JsonPayload(ParseJson(fr.content).value)), more)
  {
    hide Dumps, ParseJson, LineLength, RStrip, ReadPayload, Get, Sound, SetField;
    var h := WithLength(fr.headers, fr.content);
    LengthHeader(fr.headers, fr.content);
    var d := Dumps(Obj(h));
    var tail := fr.content + [NEWLINE] + more;
    var data := WriteItem(fr) + more;
    assert data == d + [NEWLINE] + tail;
    DumpsIsPrint(Obj(h));
    LineLengthOf(d, tail);
    assert data[..|d| + 1] == d + [NEWLINE] && data[|d| + 1..] == tail;
    StripOfHeaderLine(h);
    ParseOfDumps(Obj(h));
    PayloadReadBack(h, fr.content, more);
    assert TYPE[0] != LENGTH[0];
    assert IsEvent(h) == IsEvent(fr.headers);
  }

  /**
   * An item whose headers give no length has the rest of the line as its payload, with or without a
   * line end behind it.
   */
  lemma LengthlessItem(headers: Headers, payload: Bytes, more: Bytes)
    requires Sound(Obj(headers)) && headers != [] && HasKey(headers, CONTENT_TYPE)
    requires Get(headers, LENGTH) == None && !IsEvent(headers)
    requires NEWLINE !in payload
    ensures var line := Dumps(Obj(headers)) + [NEWLINE];
            var item := GotItem(ItemValue(headers, Payload(Some(payload), None)), more);
            && ReadItem(line + payload + [NEWLINE] + more) == item
            && (more == [] ==> ReadItem(line + payload) == item)
  {
    hide Dumps, ParseJson, LineLength, RStrip, Get, Sound, RStripNewlines;
    var d := Dumps(Obj(headers));
    DumpsIsPrint(Obj(headers));
    StripOfHeaderLine(headers);
    ParseOfDumps(Obj(headers));
    NoNewlinesToStrip(payload);
    forall tail: Bytes
      ensures var data := d + [NEWLINE] + tail;
              data[..LineLength(data)] == d + [NEWLINE] && data[LineLength(data)..] == tail
    {
      LineLengthOf(d, tail);
    }
    var tail := payload + [NEWLINE] + more;
    assert d + [NEWLINE] + payload + [NEWLINE] + more == d + [NEWLINE] + tail;
    LineLengthOf(payload, more);
    assert tail[..|payload| + 1] == payload + [NEWLINE] && tail[|payload| + 1..] == more;
    LineLengthOfLast(payload);
    assert payload[..|payload|] == payload && payload[|payload|..] == [];
  }

  lemma {:induction false} LineLengthOfLast(line: Bytes)
    requires NEWLINE !in line
    ensures LineLength(line) == |line|
  {
    if line != [] {
      LineLengthOfLast(line[1..]);
    }
  }

  /** A payload's own line end is removed, and nothing else. */
  lemma NoNewlinesToStrip(payload: Bytes)
    requires NEWLINE !in payload
    ensures RStripNewlines(payload) == payload && RStripNewlines(payload + [NEWLINE]) == payload
  {
    assert (payload + [NEWLINE])[..|payload|] == payload;
  }

  /** Which payloads are parsed as JSON: those of the types `event` and `transaction`, and no others. */
  lemma ParsedTypes(fr: Frame, more: Bytes)
    requires Sound(Obj(fr.headers)) && HasKey(fr.headers, CONTENT_TYPE)
    ensures var r := ReadItem(WriteItem(fr) + more);
            var parsed := Get(fr.headers, TYPE) == Some(Str(EVENT)) || Get(fr.headers, TYPE) == Some(Str(TRANSACTION));
            && (!parsed ==> r.GotItem? && r.item.payload == Payload(Some(fr.content), None))
            && (parsed ==> r.BadItem? || (r.GotItem? && r.item.payload.bytes == None))
  {
    hide ReadItem, WriteItem, Get, Sound, ParseJson, SetField;
    ItemReadBack(fr, more);
  }

  lemma NamesAreSpelled()
    ensures LENGTH == Codes("length") && TYPE == Codes("type") && EVENT == Codes("event")
    ensures TRANSACTION == Codes("transaction") && CONTENT_TYPE == Codes("content_type")
    ensures FILENAME == Codes("filename")
  {
  }

  lemma ContentTypesAreSpelled()
    ensures APPLICATION_JSON == Codes("application/json") && OCTET_STREAM == Codes("application/octet-stream")
  {
  }

  lemma ItemRoundTrip(fr: Frame, more: Bytes) returns (item: ItemValue)
    requires Framable(fr)
    ensures ReadItem(WriteItem(fr) + more) == GotItem(item, more) && ReadBack(fr, item)
  {
    hide Dumps, ParseJson, ReadItem, WriteItem, Sound, SetField;
    ItemReadBack(fr, more);
    var h := WithLength(fr.headers, fr.content);
    if IsEvent(fr.headers) {
      var j :| Sound(j) && !j.Null? && fr.content == Dumps(j);
      ParseOfDumps(j);
      item := ItemValue(h, Payload(None, Some(j)));
    } else {
      item := ItemValue(h, Payload(Some(fr.content), None));
    }
  }

  /**
   * An event item whose payload is the JSON of some value is always read back; its payload comes back
   * if and only if that value is not null.  Null is None, and None has no bytes.
   */
  lemma NullEventComesBackEmpty(headers: Headers, j: Json, more: Bytes) returns (item: ItemValue)
    requires Sound(Obj(headers)) && HasKey(headers, CONTENT_TYPE) && IsEvent(headers) && Sound(j)
    ensures ReadItem(WriteItem(Frame(headers, Dumps(j))) + more) == GotItem(item, more)
    ensures Content(item.payload) == Dumps(j) <==> !j.Null?
    ensures j.Null? ==> Content(item.payload) == []
  {
    hide ReadItem, WriteItem, Sound, SetField, ParseJson;
    ItemReadBack(Frame(headers, Dumps(j)), more);
    ParseOfDumps(j);
    DumpsIsPrint(j);
    item := ItemValue(WithLength(headers, Dumps(j)), JsonPayload(j));
    assert j.Null? ==> |Dumps(j)| == 4;
  }

  // ---------------------------------------------------------------- whole envelopes

  lemma {:induction false} WriteItemsCons(frames: seq<Frame>)
    requires frames != []
    ensures WriteItems(frames) == WriteItem(frames[0]) + WriteItems(frames[1..])
  {
    hide WriteItem;
    var init, last := frames[..|frames| - 1], frames[|frames| - 1];
    if |frames| == 1 {
      assert init == [] && frames[1..] == [];
      assert WriteItems(init) == [] && [] + WriteItem(last) == WriteItem(last) + [];
    } else {
      WriteItemsCons(init);
      assert frames[1..][..|frames| - 2] == init[1..];
      assert init[0] == frames[0];
      assert WriteItem(frames[0]) + (WriteItems(init[1..]) + WriteItem(last))
          == WriteItem(frames[0]) + WriteItems(init[1..]) + WriteItem(last);
    }
  }

  ghost predicate AllReadBack(frames: seq<Frame>, items: seq<ItemValue>) {
    |items| == |frames| && forall i | 0 <= i < |frames| :: ReadBack(frames[i], items[i])
  }

  lemma {:induction false} ItemsRoundTrip(frames: seq<Frame>) returns (items: seq<ItemValue>)
    requires forall i | 0 <= i < |frames| :: Framable(frames[i])
    ensures ReadItems(WriteItems(frames)) == Some(items) && AllReadBack(frames, items)
  {
    hide ReadItem, WriteItem, Framable, ReadBack;
    if frames == [] {
      items := [];
      NothingLeft();
    } else {
      WriteItemsCons(frames);
      var more := WriteItems(frames[1..]);
      var first := ItemRoundTrip(frames[0], more);
      var rest := ItemsRoundTrip(frames[1..]);
      items := [first] + rest;
    }
  }

  lemma NothingLeft()
    ensures ReadItem([]) == NoItem
  {
  }

  lemma {:induction false} SameBytes(frames: seq<Frame>, items: seq<ItemValue>, again: seq<Frame>)
    requires AllReadBack(frames, items) && |again| == |items|
    requires forall i | 0 <= i < |items| :: again[i] == FrameOf(items[i])
    requires forall i | 0 <= i < |frames| :: Framable(frames[i])
    ensures WriteItems(again) == WriteItems(frames)
  {
    if frames != [] {
      var n := |frames| - 1;
      SameBytes(frames[..n], items[..n], again[..n]);
      LengthHeader(frames[n].headers, frames[n].content);
      assert ReadBack(frames[n], items[n]);
    }
  }

  /**
   * Reading a written envelope gives back its headers and every item, in order, and writing what
   * was read gives the same bytes again.
   */
  lemma EnvelopeRoundTrip(headers: Headers, frames: seq<Frame>) returns (items: seq<ItemValue>)
    requires Sound(Obj(headers)) && forall i | 0 <= i < |frames| :: Framable(frames[i])
    ensures ReadEnvelope(WriteEnvelope(headers, frames)) == Some((headers, items)) && AllReadBack(frames, items)
    ensures forall again: seq<Frame> |
              |again| == |items| && (forall i | 0 <= i < |items| :: again[i] == FrameOf(items[i])) ::
              WriteEnvelope(headers, again) == WriteEnvelope(headers, frames)
  {
    hide Dumps, ParseJson, LineLength, ReadItems, WriteItems, Framable, ReadBack, Sound;
    var d := Dumps(Obj(headers));
    var body := WriteItems(frames);
    var data := WriteEnvelope(headers, frames);
    assert data == d + [NEWLINE] + body;
    DumpsIsPrint(Obj(headers));
    LineLengthOf(d, body);
    assert data[..|d| + 1] == d + [NEWLINE] && data[|d| + 1..] == body;
    ParseOfDumps(Obj(headers));
    items := ItemsRoundTrip(frames);
    forall again: seq<Frame> | |again| == |items| && (forall i | 0 <= i < |items| :: again[i] == FrameOf(items[i]))
      ensures WriteItems(again) == WriteItems(frames)
    {
      SameBytes(frames, items, again);
    }
  }
}
