/** The `name` field: optional, a string of at most 64 UTF-8 bytes. */
module NameField {
  import opened Text
  import opened Js
  import opened Types

  function Validate(item: CodecEntry): (r: ValidationResult)
    ensures WellFormed(r) && (!r.valid ==> r.id == item.id)
    ensures r.valid <==> !Truthy(item.name) || (item.name.Str? && Utf8Len(item.name.s) <= 64)
    ensures Truthy(item.name) && !item.name.Str? ==> r.message == Some(TypeMessage("name", item.name))
    ensures item.name.Str? && Utf8Len(item.name.s) > 64 ==>
      r.message == Some(TooLongMessage("name", 64, Utf8Len(item.name.s)))
  {
    var n := item.name;
    if !Truthy(n) then Passed()
    else if !n.Str? then Failed(item.id, TypeMessage("name", n))
    else if Utf8Len(n.s) > 64 then Failed(item.id, TooLongMessage("name", 64, Utf8Len(n.s)))
    else Passed()
  }

  /** The verdict reads only `name` and, for the message, `id`. */
  lemma NameOnlyReadsNameAndId(a: CodecEntry, b: CodecEntry)
    requires a.name == b.name && a.id == b.id
    ensures Validate(a) == Validate(b)
  {
  }

  /** `true` is a truthy non-string and is reported as "boolean". */
  lemma BooleanName(item: CodecEntry)
    requires item.name == Bool(true)
    ensures Validate(item) == Failed(item.id, TypeMessage("name", Bool(true)))
    ensures TypeOf(item.name) == "boolean"
  {
  }

  /** 64 ASCII bytes pass; 65 fail with the count 65 in the message. */
  lemma AsciiNameBoundary(item: CodecEntry, s: string)
    requires item.name == Str(s) && IsAscii(s) && 64 <= |s| <= 65
    ensures |s| == 64 ==> Validate(item) == Passed()
    ensures |s| == 65 ==> Validate(item) == Failed(item.id, TooLongMessage("name", 64, 65))
  {
    Utf8LenAscii(s);
  }

  /** 21 three-byte characters (63 bytes) pass; 22 (66 bytes) fail. */
  lemma CjkNameBoundary(item: CodecEntry, s: string)
    requires item.name == Str(s) && (forall c | c in s :: CharUtf8Len(c) == 3) && 21 <= |s| <= 22
    ensures |s| == 21 ==> Validate(item) == Passed()
    ensures |s| == 22 ==> Validate(item) == Failed(item.id, TooLongMessage("name", 64, 66))
  {
    Utf8LenUniform(s, 3);
  }
}
