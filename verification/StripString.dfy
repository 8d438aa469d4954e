/** Truncation of long strings, from `sentry_sdk/utils.py`. */
module StripString {
  import opened Options
  import opened Utf8

  const ELLIPSIS: Text := [0x2E, 0x2E, 0x2E]

  /** Python's `s[:stop]`: a negative `stop` counts from the end. */
  function UpTo<T>(s: seq<T>, stop: int): seq<T> {
    if stop >= 0 then (if stop <= |s| then s[..stop] else s)
    else if -stop <= |s| then s[..|s| + stop]
    else []
  }

  /** `_truncate_by_bytes` */
  function TruncateByBytes(text: Text, maxBytes: int): Text {
    Decode(UpTo(Encode(text), maxBytes - 3), IGNORE) + ELLIPSIS
  }

  /** `_get_size_in_bytes` */
  function SizeInBytes(text: Text): Option<nat> {
    if Encodable(text) then Some(|Encode(text)|) else None
  }

  /** A value returned as it was, or an `AnnotatedValue` with the original length and the limit. */
  datatype Stripped = Whole(value: Text) | Cut(value: Text, len: nat, limit: int)

  /** `strip_string` */
  function Strip(text: Text, maxLength: Option<int>): Stripped {
    if text == [] || maxLength.None? then Whole(text)
    else
      var max := maxLength.value;
      var byteSize := SizeInBytes(text);
      if byteSize.Some? && byteSize.value > max then Cut(TruncateByBytes(text, max), byteSize.value, max)
      else if |text| > max then
        // `byte_size or text_size`: no byte size here unless it is within the limit
        Cut(UpTo(text, max - 3) + ELLIPSIS, if byteSize.Some? then byteSize.value else |text|, max)
      else Whole(text)
  }

  /**
   * With room for the ellipsis, encodable text comes back whole exactly when it fits; otherwise the
   * result is the longest prefix of whole code points that leaves room for the ellipsis.
   */
  lemma StripKeepsLongestPrefix(text: Text, max: int)
    requires Encodable(text) && 3 <= max
    ensures Strip(text, Some(max)) == Whole(text) <==> |Encode(text)| <= max
    ensures |Encode(text)| > max ==>
              exists k: nat :: k <= |text|
                && Strip(text, Some(max)) == Cut(text[..k] + ELLIPSIS, |Encode(text)|, max)
                && |Encode(text[..k])| <= max - 3
                && forall j | k < j <= |text| :: max - 3 < |Encode(text[..j])|
  {
    hide Encode, Decode, Encodable;
    NothingEncodesToNothing();
    if |Encode(text)| > max {
      assert text != [];
      DecodeOfPrefix(text, max - 3);
      FittingIsLongest(text, max - 3);
      var k := Fitting(text, max - 3);
      assert Strip(text, Some(max)) == Cut(text[..k] + ELLIPSIS, |Encode(text)|, max);
    }
  }

  /** Text that cannot be encoded is measured in code points. */
  lemma StripUnencodable(text: Text, max: int)
    requires !Encodable(text) && 3 <= max
    ensures ELLIPSIS == Codes("...")
    ensures Strip(text, Some(max)) ==
            if |text| <= max then Whole(text) else Cut(text[..max - 3] + Codes("..."), |text|, max)
  {
  }

  lemma NothingEncodesToNothing()
    ensures Encode([]) == []
  {
  }

  /** The result fits, and stripping it again leaves it alone. */
  lemma StripFitsAndIsIdempotent(text: Text, max: int)
    requires Encodable(text) && 3 <= max
    ensures var v := Strip(text, Some(max)).value;
            Encodable(v) && |Encode(v)| <= max && Strip(v, Some(max)) == Whole(v)
  {
    hide Encode, Decode;
    StripKeepsLongestPrefix(text, max);
    if |Encode(text)| > max {
      var k: nat :| k <= |text|
        && Strip(text, Some(max)) == Cut(text[..k] + ELLIPSIS, |Encode(text)|, max)
        && |Encode(text[..k])| <= max - 3;
      EncodeConcat(text[..k], ELLIPSIS);
      AsciiEncodesItself(ELLIPSIS);
      StripKeepsLongestPrefix(text[..k] + ELLIPSIS, max);
    }
  }

  function Repeat(c: CodePoint, n: nat): (t: Text)
    ensures |t| == n && forall i | 0 <= i < n :: t[i] == c
  {
    seq(n, _ => c)
  }

  /** The limit is respected for every text if and only if it leaves room for the ellipsis. */
  lemma LimitRespectedIffRoomForEllipsis(max: int)
    ensures (forall text | Encodable(text) :: |Encode(Strip(text, Some(max)).value)| <= max) <==> 3 <= max
  {
    if 3 <= max {
      forall text | Encodable(text)
        ensures |Encode(Strip(text, Some(max)).value)| <= max
      {
        StripFitsAndIsIdempotent(text, max);
      }
    } else {
      var text := Repeat(0x78, if max < 0 then 1 else max + 1);
      AsciiEncodesItself(text);
      var kept := Decode(UpTo(Encode(text), max - 3), IGNORE);
      assert Strip(text, Some(max)).value == kept + ELLIPSIS;
      assert |Encode(kept + ELLIPSIS)| >= 3;
    }
  }

  /** "xx" stripped to a limit of one byte is three dots. */
  lemma SmallLimitIsExceeded()
    ensures Strip([0x78, 0x78], Some(1)).value == ELLIPSIS && |Encode(ELLIPSIS)| == 3
  {
    AsciiEncodesItself([0x78, 0x78]);
    AsciiEncodesItself(ELLIPSIS);
    assert UpTo(Encode([0x78, 0x78]), -2) == [];
  }
}
