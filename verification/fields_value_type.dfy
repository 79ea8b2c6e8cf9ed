/**
 * The `value_type` field: required when `data_type` is NUMBER; whenever it
 * is present it must be a string of at most 32 UTF-8 bytes naming one of
 * eight value types.
 */
module ValueTypeField {
  import opened Text
  import opened Js
  import opened Types

  const ValidValueTypes: seq<string> := ["UINT8", "INT8", "UINT16", "INT16", "UINT32", "INT32", "FLOAT", "STRING"]

  const NumberRequiredMessage := "data_type 为 NUMBER 时，value_type 为必填项"

  function InvalidValueTypeMessage(t: string): string {
    "value_type 只能是 UINT8、INT8、UINT16、INT16、UINT32、INT32、FLOAT 或 STRING, 得到: " + t
  }

  /** No listed name is empty or longer than six characters, so none exceeds 32 bytes. */
  lemma ValidValueTypesFitLimit()
    ensures forall t | t in ValidValueTypes :: t != "" && Utf8Len(t) <= 32
  {
    forall t | t in ValidValueTypes ensures t != "" && Utf8Len(t) <= 32 {
      assert 0 < |t| <= 6;
    }
  }

  function Validate(item: CodecEntry): (r: ValidationResult)
    ensures WellFormed(r) && (!r.valid ==> r.id == item.id)
    ensures r.valid <==>
      if Truthy(item.valueType) then Includes(ValidValueTypes, item.valueType)
      else item.dataType != Str("NUMBER")
    ensures item.dataType == Str("NUMBER") && !Truthy(item.valueType) ==>
      r.message == Some(NumberRequiredMessage)
    ensures Truthy(item.valueType) && !item.valueType.Str? ==>
      r.message == Some(TypeMessage("value_type", item.valueType))
    ensures item.valueType.Str? && Utf8Len(item.valueType.s) > 32 ==>
      r.message == Some(TooLongMessage("value_type", 32, Utf8Len(item.valueType.s)))
    ensures item.valueType.Str? && item.valueType.s != "" && Utf8Len(item.valueType.s) <= 32
            && item.valueType.s !in ValidValueTypes ==>
      r.message == Some(InvalidValueTypeMessage(item.valueType.s))
  {
    var t := item.valueType;
    if item.dataType == Str("NUMBER") && !Truthy(t) then Failed(item.id, NumberRequiredMessage)
    else if !Truthy(t) then Passed()
    else if !t.Str? then Failed(item.id, TypeMessage("value_type", t))
    else if Utf8Len(t.s) > 32 then
      ValidValueTypesFitLimit();
      Failed(item.id, TooLongMessage("value_type", 32, Utf8Len(t.s)))
    else if t.s !in ValidValueTypes then Failed(item.id, InvalidValueTypeMessage(t.s))
    else Passed()
  }

  /** STRING is one of the eight; STRUCT is not, whatever the data type. */
  lemma StringAcceptedStructRejected(item: CodecEntry, t: string)
    requires item.valueType == Str(t) && t in {"STRING", "STRUCT"}
    ensures Validate(item).valid <==> t == "STRING"
    ensures t == "STRUCT" ==> Validate(item) == Failed(item.id, InvalidValueTypeMessage(t))
  {
    if t == "STRUCT" {
      assert t !in ValidValueTypes;
    }
  }
}
