/**
 * The `unit` field: required (though possibly "") when `data_type` is
 * NUMBER, a string of at most 16 UTF-8 bytes when non-empty; and the
 * consistency rule that a unit comes with a unit type id and a unit type.
 */
module UnitField {
  import opened Text
  import opened Js
  import opened Types

  const NumberRequiredMessage := "data_type 为 NUMBER 时，unit 为必填项"
  const MissingTypeIdMessage := "存在 unit 但缺少 bacnet_unit_type_id"
  const MissingTypeMessage := "存在 unit 但缺少 bacnet_unit_type"

  function Validate(item: CodecEntry): (r: ValidationResult)
    ensures WellFormed(r) && (!r.valid ==> r.id == item.id)
    ensures r.valid <==>
      if IsNullish(item.unit) then item.dataType != Str("NUMBER")
      else item.unit == Str("") || (item.unit.Str? && Utf8Len(item.unit.s) <= 16)
    ensures item.dataType == Str("NUMBER") && IsNullish(item.unit) ==> r.message == Some(NumberRequiredMessage)
    ensures !IsNullish(item.unit) && !item.unit.Str? ==> r.message == Some(TypeMessage("unit", item.unit))
    ensures item.unit.Str? && Utf8Len(item.unit.s) > 16 ==>
      r.message == Some(TooLongMessage("unit", 16, Utf8Len(item.unit.s)))
  {
    var u := item.unit;
    if item.dataType == Str("NUMBER") && IsNullish(u) then Failed(item.id, NumberRequiredMessage)
    else if IsNullish(u) || u == Str("") then Passed()
    else if !u.Str? then Failed(item.id, TypeMessage("unit", u))
    else if Utf8Len(u.s) > 16 then Failed(item.id, TooLongMessage("unit", 16, Utf8Len(u.s)))
    else Passed()
  }

  /** A NUMBER point may declare the empty unit "", but not omit it; 0 and false are typed, not absent. */
  lemma EmptyUnitIsPresent(item: CodecEntry)
    requires item.dataType == Str("NUMBER")
    ensures item.unit == Str("") ==> Validate(item).valid
    ensures item.unit == Null ==> !Validate(item).valid
    ensures item.unit in {Num(Int(0)), Bool(false)} ==> Validate(item).message == Some(TypeMessage("unit", item.unit))
  {
  }

  function ValidateUnitConsistency(item: CodecEntry): (r: ValidationResult)
    ensures WellFormed(r) && (!r.valid ==> r.id == item.id)
    ensures r.valid <==> !Truthy(item.unit) || (!IsNullish(item.bacnetUnitTypeId) && Truthy(item.bacnetUnitType))
    ensures Truthy(item.unit) && IsNullish(item.bacnetUnitTypeId) ==> r.message == Some(MissingTypeIdMessage)
    ensures Truthy(item.unit) && !IsNullish(item.bacnetUnitTypeId) && !Truthy(item.bacnetUnitType) ==>
      r.message == Some(MissingTypeMessage)
  {
    if !Truthy(item.unit) then Passed()
    else if IsNullish(item.bacnetUnitTypeId) then Failed(item.id, MissingTypeIdMessage)
    else if !Truthy(item.bacnetUnitType) then Failed(item.id, MissingTypeMessage)
    else Passed()
  }

  /** The consistency rule does not look at the data type, and an id of 0 counts as present. */
  lemma ConsistencyIgnoresDataType(item: CodecEntry, dataType: JsVal)
    ensures ValidateUnitConsistency(item.(dataType := dataType)) == ValidateUnitConsistency(item)
    ensures item.bacnetUnitTypeId == Num(Int(0)) && Truthy(item.bacnetUnitType) ==> ValidateUnitConsistency(item).valid
  {
  }
}
