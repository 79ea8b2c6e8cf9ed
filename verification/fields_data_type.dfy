/** The `data_type` field: required, a string of at most 32 UTF-8 bytes, one of TEXT, NUMBER, BOOL, ENUM. */
module DataTypeField {
  import opened Text
  import opened Js
  import opened Types

  const ValidDataTypes: seq<string> := ["TEXT", "NUMBER", "BOOL", "ENUM"]

  function InvalidDataTypeMessage(t: string): string {
    "data_type 只能是 TEXT、NUMBER、BOOL 或 ENUM, 得到: " + t
  }

  function Validate(item: CodecEntry): (r: ValidationResult)
    ensures WellFormed(r) && (!r.valid ==> r.id == item.id)
    ensures r.valid <==> Includes(ValidDataTypes, item.dataType)
    ensures !Truthy(item.dataType) ==> r.message == Some(RequiredMessage("data_type"))
    ensures Truthy(item.dataType) && !item.dataType.Str? ==>
      r.message == Some(TypeMessage("data_type", item.dataType))
    ensures item.dataType.Str? && Utf8Len(item.dataType.s) > 32 ==>
      r.message == Some(TooLongMessage("data_type", 32, Utf8Len(item.dataType.s)))
    ensures item.dataType.Str? && item.dataType.s != "" && Utf8Len(item.dataType.s) <= 32
            && item.dataType.s !in ValidDataTypes ==>
      r.message == Some(InvalidDataTypeMessage(item.dataType.s))
  {
    var t := item.dataType;
    if !Truthy(t) then Failed(item.id, RequiredMessage("data_type"))
    else if !t.Str? then Failed(item.id, TypeMessage("data_type", t))
    else if Utf8Len(t.s) > 32 then Failed(item.id, TooLongMessage("data_type", 32, Utf8Len(t.s)))
    else if t.s !in ValidDataTypes then Failed(item.id, InvalidDataTypeMessage(t.s))
    else Passed()
  }

  /** STRING is rejected here, although the rule tables have a STRING row. */
  lemma StringDataTypeRejected(item: CodecEntry)
    requires item.dataType == Str("STRING")
    ensures Validate(item) == Failed(item.id, InvalidDataTypeMessage("STRING"))
  {
  }
}
