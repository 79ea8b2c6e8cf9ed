/**
 * The data-type relationships: when the data type keys a row of the rule
 * tables, the BACnet object type and the value type must be listed in it.
 */
module DataTypeRelation {
  import opened Text
  import opened Js
  import opened Types
  import opened ValidationRules

  function BacnetNotAllowedMessage(dataType: JsVal, bacnetType: JsVal, allowed: seq<string>): string {
    "data_type: " + ToStr(dataType) + " 不允许使用 bacnet_type: " + ToStr(bacnetType)
      + ", 允许的类型: " + Join(allowed, ", ")
  }

  function ValueNotAllowedMessage(dataType: JsVal, valueType: JsVal, allowed: seq<string>): string {
    "data_type: " + ToStr(dataType) + " 不允许使用 value_type: " + ToStr(valueType)
      + ", 允许的类型: " + Join(allowed, ", ")
  }

  /** `validTypes && !validTypes.includes(v)` over one table. */
  predicate Violates(rules: map<string, seq<string>>, dataType: JsVal, v: JsVal) {
    ToStr(dataType) in rules && !Includes(rules[ToStr(dataType)], v)
  }

  function ValidateBacnetType(item: CodecEntry): (r: ValidationResult)
    ensures WellFormed(r) && (!r.valid ==> r.id == item.id)
    ensures r.valid <==> ToStr(item.dataType) !in DataTypeBacnetRules
                         || item.bacnetType in (set t | t in Admitted(DataTypeBacnetRules, ToStr(item.dataType)) :: Str(t))
    ensures !r.valid ==> r.message == Some(BacnetNotAllowedMessage(item.dataType, item.bacnetType,
                                                                   DataTypeBacnetRules[ToStr(item.dataType)]))
  {
    var key := ToStr(item.dataType);
    if Violates(DataTypeBacnetRules, item.dataType, item.bacnetType) then
      Failed(item.id, BacnetNotAllowedMessage(item.dataType, item.bacnetType, DataTypeBacnetRules[key]))
    else Passed()
  }

  function ValidateValueType(item: CodecEntry): (r: ValidationResult)
    ensures WellFormed(r) && (!r.valid ==> r.id == item.id)
    ensures r.valid <==> ToStr(item.dataType) !in DataTypeValueRules
                         || item.valueType in (set t | t in Admitted(DataTypeValueRules, ToStr(item.dataType)) :: Str(t))
    ensures !r.valid ==> r.message == Some(ValueNotAllowedMessage(item.dataType, item.valueType,
                                                                  DataTypeValueRules[ToStr(item.dataType)]))
  {
    var key := ToStr(item.dataType);
    if Violates(DataTypeValueRules, item.dataType, item.valueType) then
      Failed(item.id, ValueNotAllowedMessage(item.dataType, item.valueType, DataTypeValueRules[key]))
    else Passed()
  }

  /** TEXT keys no object-type row, so any bacnet_type passes for it. */
  lemma TextAdmitsAnyObjectType(item: CodecEntry)
    requires item.dataType == Str("TEXT")
    ensures ValidateBacnetType(item) == Passed()
  {
    DataTypeBacnetTable();
  }

  /** BOOL rejects an analog object and lists its three binary types; NUMBER admits analog_value_object. */
  lemma BoolAnalogRejected(item: CodecEntry)
    requires item.dataType == Str("BOOL") && item.bacnetType == Str("analog_input_object")
    ensures ValidateBacnetType(item) == Failed(item.id, BacnetNotAllowedMessage(item.dataType, item.bacnetType,
      ["binary_input_object", "binary_output_object", "binary_value_object"]))
  {
  }

  lemma NumberAnalogValueAccepted(item: CodecEntry)
    requires item.dataType == Str("NUMBER") && item.bacnetType == Str("analog_value_object")
    ensures ValidateBacnetType(item) == Passed()
  {
  }

  /** NUMBER rejects STRING, TEXT admits it, ENUM rejects FLOAT. */
  lemma ValueTypeExamples(item: CodecEntry)
    ensures item.dataType == Str("NUMBER") && item.valueType == Str("STRING") ==> !ValidateValueType(item).valid
    ensures item.dataType == Str("TEXT") && item.valueType == Str("STRING") ==> ValidateValueType(item).valid
    ensures item.dataType == Str("ENUM") && item.valueType == Str("FLOAT") ==> !ValidateValueType(item).valid
  {
  }

  /** An absent value_type under a keyed data type fails: `includes(undefined)` is false. */
  lemma AbsentValueTypeRejected(item: CodecEntry)
    requires ToStr(item.dataType) in DataTypeValueRules && item.valueType == Undefined
    ensures !ValidateValueType(item).valid
  {
  }
}
