/**
 * The `bacnet_unit_type_id` field: for NUMBER points, a required
 * non-negative integer. Membership in the unit table is checked elsewhere.
 */
module BacnetUnitTypeIdField {
  import opened Text
  import opened Js
  import opened Types

  const NumberRequiredMessage := "data_type 为 NUMBER 时，bacnet_unit_type_id 为必填项"

  function NotIntegerMessage(v: JsVal): string {
    "bacnet_unit_type_id 必须是整数类型, 得到 " + TypeOf(v) + ": " + ToStr(v)
  }

  function NegativeMessage(i: int): string {
    "bacnet_unit_type_id 必须 >= 0, 得到: " + IntToDecimal(i)
  }

  function Validate(item: CodecEntry): (r: ValidationResult)
    ensures WellFormed(r) && (!r.valid ==> r.id == item.id)
    ensures r.valid <==>
      item.dataType != Str("NUMBER") || (IsInteger(item.bacnetUnitTypeId) && item.bacnetUnitTypeId.n.i >= 0)
    ensures item.dataType == Str("NUMBER") && IsNullish(item.bacnetUnitTypeId) ==>
      r.message == Some(NumberRequiredMessage)
    ensures item.dataType == Str("NUMBER") && !IsNullish(item.bacnetUnitTypeId) && !IsInteger(item.bacnetUnitTypeId) ==>
      r.message == Some(NotIntegerMessage(item.bacnetUnitTypeId))
    ensures item.dataType == Str("NUMBER") && IsInteger(item.bacnetUnitTypeId) && item.bacnetUnitTypeId.n.i < 0 ==>
      r.message == Some(NegativeMessage(item.bacnetUnitTypeId.n.i))
  {
    var t := item.bacnetUnitTypeId;
    if item.dataType != Str("NUMBER") then Passed()
    else if IsNullish(t) then Failed(item.id, NumberRequiredMessage)
    else if !IsInteger(t) then Failed(item.id, NotIntegerMessage(t))
    else if t.n.i < 0 then Failed(item.id, NegativeMessage(t.n.i))
    else Passed()
  }

  /** The field does not consult the unit table: any non-negative integer passes, 0 included. */
  lemma AnyNonNegativeIdPasses(item: CodecEntry, i: int)
    requires item.dataType == Str("NUMBER") && item.bacnetUnitTypeId == Num(Int(i)) && i >= 0
    ensures Validate(item) == Passed()
  {
  }
}
