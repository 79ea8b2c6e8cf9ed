/** The `description` field: optional, a string of at most 1024 UTF-8 bytes. */
module DescriptionField {
  import opened Text
  import opened Js
  import opened Types

  function Validate(item: CodecEntry): (r: ValidationResult)
    ensures WellFormed(r) && (!r.valid ==> r.id == item.id)
    ensures r.valid <==>
      !Truthy(item.description) || (item.description.Str? && Utf8Len(item.description.s) <= 1024)
    ensures Truthy(item.description) && !item.description.Str? ==>
      r.message == Some(TypeMessage("description", item.description))
    ensures item.description.Str? && Utf8Len(item.description.s) > 1024 ==>
      r.message == Some(TooLongMessage("description", 1024, Utf8Len(item.description.s)))
  {
    var d := item.description;
    if !Truthy(d) then Passed()
    else if !d.Str? then Failed(item.id, TypeMessage("description", d))
    else if Utf8Len(d.s) > 1024 then Failed(item.id, TooLongMessage("description", 1024, Utf8Len(d.s)))
    else Passed()
  }

  /** Falsy values are "not provided": undefined, null, "", 0 and false all pass. */
  lemma FalsyDescriptionPasses(item: CodecEntry)
    requires item.description in {Undefined, Null, Str(""), Num(Int(0)), Bool(false)}
    ensures Validate(item) == Passed()
  {
  }

  /** Arrays and objects are reported by their `typeof`, "object". */
  lemma ArrayDescriptionIsObject(item: CodecEntry)
    requires item.description.Arr? || item.description.Obj?
    ensures Validate(item).message == Some(TypeMessage("description", item.description))
    ensures TypeOf(item.description) == "object"
  {
  }

  /** For ASCII text, 1024 characters pass and 1025 fail. */
  lemma AsciiDescriptionLimit(item: CodecEntry, s: string)
    requires item.description == Str(s) && IsAscii(s)
    ensures Validate(item).valid <==> |s| <= 1024
  {
    Utf8LenAscii(s);
  }

  /** Lengths are UTF-8 bytes: 512 ASCII characters followed by 171 three-byte CJK characters is 1025 bytes. */
  lemma MixedWidthDescription(item: CodecEntry, ascii: string, cjk: string)
    requires item.description == Str(ascii + cjk)
    requires IsAscii(ascii) && |ascii| == 512
    requires |cjk| == 171 && forall c | c in cjk :: CharUtf8Len(c) == 3
    ensures Validate(item) == Failed(item.id, TooLongMessage("description", 1024, 1025))
  {
    Utf8LenAscii(ascii);
    Utf8LenUniform(cjk, 3);
    Utf8LenConcat(ascii, cjk);
  }
}
