/** The `bacnet_type` field: required, a string of at most 64 UTF-8 bytes naming one of ten object types. */
module BacnetTypeField {
  import opened Text
  import opened Js
  import opened Types

  const ValidBacnetTypes: seq<string> := [
    "analog_value_object",
    "analog_input_object",
    "analog_output_object",
    "binary_value_object",
    "binary_input_object",
    "binary_output_object",
    "multistate_value_object",
    "multistate_input_object",
    "multistate_output_object",
    "character_string_value_object"
  ]

  function InvalidTypeMessage(t: string): string {
    "bacnet_type 不是有效的 BACnet 对象类型: " + t
  }

  // The ASCII facts about the ten names, split so that each proof stays small.
  lemma AnalogBinaryNamesAscii()
    ensures forall i | 0 <= i < 5 :: IsAscii(ValidBacnetTypes[i])
  {
  }

  lemma OutputMultistateNamesAscii()
    ensures forall i | 5 <= i < 8 :: IsAscii(ValidBacnetTypes[i])
  {
  }

  lemma RemainingNamesAscii()
    ensures forall i | 8 <= i < 10 :: IsAscii(ValidBacnetTypes[i])
  {
  }

  /** Each listed name is a non-empty ASCII string well under the 64-byte limit. */
  lemma ValidTypesFitLimit()
    ensures forall t | t in ValidBacnetTypes :: t != "" && Utf8Len(t) <= 64
  {
    AnalogBinaryNamesAscii();
    OutputMultistateNamesAscii();
    RemainingNamesAscii();
    AsciiListFits(ValidBacnetTypes, 64);
  }

  function Validate(item: CodecEntry): (r: ValidationResult)
    ensures WellFormed(r) && (!r.valid ==> r.id == item.id)
    ensures r.valid <==> Includes(ValidBacnetTypes, item.bacnetType)
    ensures !Truthy(item.bacnetType) ==> r.message == Some(RequiredMessage("bacnet_type"))
    ensures Truthy(item.bacnetType) && !item.bacnetType.Str? ==>
      r.message == Some(TypeMessage("bacnet_type", item.bacnetType))
    ensures item.bacnetType.Str? && Utf8Len(item.bacnetType.s) > 64 ==>
      r.message == Some(TooLongMessage("bacnet_type", 64, Utf8Len(item.bacnetType.s)))
    ensures item.bacnetType.Str? && item.bacnetType.s != "" && Utf8Len(item.bacnetType.s) <= 64
            && item.bacnetType.s !in ValidBacnetTypes ==>
      r.message == Some(InvalidTypeMessage(item.bacnetType.s))
  {
    var t := item.bacnetType;
    if !Truthy(t) then Failed(item.id, RequiredMessage("bacnet_type"))
    else if !t.Str? then Failed(item.id, TypeMessage("bacnet_type", t))
    else if Utf8Len(t.s) > 64 then
      ValidTypesFitLimit();
      Failed(item.id, TooLongMessage("bacnet_type", 64, Utf8Len(t.s)))
    else if t.s !in ValidBacnetTypes then Failed(item.id, InvalidTypeMessage(t.s))
    else Passed()
  }
}
