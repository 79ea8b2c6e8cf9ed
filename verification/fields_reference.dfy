/**
 * The `reference` field: optional; when present an array of strings whose
 * `JSON.stringify` form fits in 1024 UTF-8 bytes. Whether the referenced ids
 * exist is the reference relationship's concern, not this field's.
 */
module ReferenceField {
  import opened Text
  import opened Js
  import opened Types

  const MaxSerializedBytes := 1024

  function NotArrayMessage(v: JsVal): string {
    "reference 必须是数组类型, 得到 " + TypeOf(v)
  }

  function ElementTypeMessage(k: nat, v: JsVal): string {
    "reference[" + NatToDecimal(k) + "] 必须是字符串类型, 得到 " + TypeOf(v)
  }

  function SerializedTooLongMessage(bytes: nat): string {
    "reference 字段序列化后长度超过 1024 字节: " + NatToDecimal(bytes) + " 字节"
  }

  // ---------------------------------------------------------------------
  // JSON.stringify of an array of strings (ECMA-262, QuoteJSONString)

  function HexDigit(d: nat): (c: char)
    requires d < 16
  {
    if d < 10 then DigitChar(d) else ('a' as int + d - 10) as char
  }

  /** A character JSON must escape: the quote, the backslash and the C0 controls. */
  predicate NeedsEscape(c: char) {
    c == '"' || c == '\\' || c as int < 0x20
  }

  /** The JSON text for one character of a string. */
  function EscapeChar(c: char): (e: string)
    ensures !NeedsEscape(c) ==> e == [c]
    ensures NeedsEscape(c) ==> 2 <= |e| <= 6 && e[0] == '\\' && IsAscii(e)
  {
    if c == '"' then "\\\""
    else if c == '\\' then "\\\\"
    else if c as int == 0x08 then "\\b"
    else if c == '\t' then "\\t"
    else if c == '\n' then "\\n"
    else if c as int == 0x0C then "\\f"
    else if c == '\r' then "\\r"
    else if c as int < 0x20 then
      var e := "\\u00" + [HexDigit(c as int / 16), HexDigit(c as int % 16)];
      assert forall k | 0 <= k < |e| :: e[k] as int < 0x80;
      e
    else [c]
  }

  function EscapeChars(s: string): string {
    if s == [] then "" else EscapeChar(s[0]) + EscapeChars(s[1..])
  }

  /** `JSON.stringify(s)` for a string. */
  function Quote(s: string): string {
    "\"" + EscapeChars(s) + "\""
  }

  /** `JSON.stringify(list)` for an array of strings. */
  function Serialize(list: seq<string>): string {
    "[" + Join(seq(|list|, k requires 0 <= k < |list| => Quote(list[k])), ",") + "]"
  }

  /** Escaping never shortens: each character becomes at least as many bytes. */
  lemma {:induction false} EscapeCharsNotShorter(s: string)
    ensures Utf8Len(EscapeChars(s)) >= Utf8Len(s)
  {
    if s != [] {
      EscapeCharsNotShorter(s[1..]);
      Utf8LenConcat(EscapeChar(s[0]), EscapeChars(s[1..]));
      var e := EscapeChar(s[0]);
      if NeedsEscape(s[0]) {
        Utf8LenAscii(e);
      }
    }
  }

  /** A string with nothing to escape is copied as it stands. */
  lemma {:induction false} EscapeCharsPlain(s: string)
    requires forall c | c in s :: !NeedsEscape(c)
    ensures EscapeChars(s) == s
  {
    if s != [] {
      assert s[0] in s;
      assert forall c | c in s[1..] :: c in s;
      EscapeCharsPlain(s[1..]);
    }
  }

  /** A quoted string costs its own bytes, escapes included, plus two quotes. */
  lemma QuoteBytes(s: string)
    ensures Utf8Len(Quote(s)) == Utf8Len(EscapeChars(s)) + 2
    ensures Utf8Len(Quote(s)) >= Utf8Len(s) + 2
  {
    Utf8LenConcat("\"", EscapeChars(s));
    Utf8LenConcat("\"" + EscapeChars(s), "\"");
    EscapeCharsNotShorter(s);
  }

  /** `JSON.stringify([])` is "[]", 2 bytes. */
  lemma EmptySerialization()
    ensures Serialize([]) == "[]" && Utf8Len(Serialize([])) == 2
  {
  }

  /** One reference with nothing to escape costs its bytes plus four: `["…"]`. */
  lemma SinglePlainSerialization(s: string)
    requires forall c | c in s :: !NeedsEscape(c)
    ensures Serialize([s]) == "[\"" + s + "\"]"
    ensures Utf8Len(Serialize([s])) == Utf8Len(s) + 4
  {
    EscapeCharsPlain(s);
    assert Serialize([s]) == "[" + Quote(s) + "]";
    Utf8LenConcat("[", Quote(s));
    Utf8LenConcat("[" + Quote(s), "]");
    QuoteBytes(s);
  }

  // ---------------------------------------------------------------------
  // The validator

  /** The loop over the elements: the first index at or after `from` that is not a string. */
  function FirstNonString(items: seq<JsVal>, from: nat): (r: Option<nat>)
    requires from <= |items|
    decreases |items| - from
    ensures r.None? <==> forall k | from <= k < |items| :: items[k].Str?
    ensures r.Some? ==> from <= r.value < |items| && !items[r.value].Str?
                        && forall k | from <= k < r.value :: items[k].Str?
  {
    if from == |items| then None
    else if !items[from].Str? then Some(from)
    else FirstNonString(items, from + 1)
  }

  /** The strings of an all-string array. */
  function Strings(items: seq<JsVal>): (r: seq<string>)
    requires forall k | 0 <= k < |items| :: items[k].Str?
    ensures |r| == |items| && forall k | 0 <= k < |items| :: items[k] == Str(r[k])
  {
    if items == [] then [] else [items[0].s] + Strings(items[1..])
  }

  predicate AllStrings(v: JsVal) {
    v.Arr? && forall k | 0 <= k < |v.items| :: v.items[k].Str?
  }

  function Validate(item: CodecEntry): (r: ValidationResult)
    ensures WellFormed(r) && (!r.valid ==> r.id == item.id)
    ensures r.valid <==>
      !Truthy(item.reference)
      || (AllStrings(item.reference) && Utf8Len(Serialize(Strings(item.reference.items))) <= MaxSerializedBytes)
    ensures Truthy(item.reference) && !item.reference.Arr? ==>
      r.message == Some(NotArrayMessage(item.reference))
    ensures item.reference.Arr? && !AllStrings(item.reference) ==>
      exists k | 0 <= k < |item.reference.items| ::
        && r.message == Some(ElementTypeMessage(k, item.reference.items[k]))
        && !item.reference.items[k].Str?
        && forall j | 0 <= j < k :: item.reference.items[j].Str?
    ensures AllStrings(item.reference) && Utf8Len(Serialize(Strings(item.reference.items))) > MaxSerializedBytes ==>
      r.message == Some(SerializedTooLongMessage(Utf8Len(Serialize(Strings(item.reference.items)))))
  {
    var ref := item.reference;
    if !Truthy(ref) then Passed()
    else if !ref.Arr? then Failed(item.id, NotArrayMessage(ref))
    else match FirstNonString(ref.items, 0)
      case Some(k) => Failed(item.id, ElementTypeMessage(k, ref.items[k]))
      case None =>
        var bytes := Utf8Len(Serialize(Strings(ref.items)));
        if bytes > MaxSerializedBytes then Failed(item.id, SerializedTooLongMessage(bytes)) else Passed()
  }

  /** An empty reference array passes. */
  lemma EmptyReferencePasses(item: CodecEntry)
    requires item.reference == Arr([])
    ensures Validate(item) == Passed()
  {
    EmptySerialization();
  }
}
