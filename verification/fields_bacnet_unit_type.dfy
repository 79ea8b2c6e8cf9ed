/** The `bacnet_unit_type` field: optional, a string of at most 64 UTF-8 bytes, any content. */
module BacnetUnitTypeField {
  import opened Text
  import opened Js
  import opened Types

  function Validate(item: CodecEntry): (r: ValidationResult)
    ensures WellFormed(r) && (!r.valid ==> r.id == item.id)
    ensures r.valid <==>
      !Truthy(item.bacnetUnitType) || (item.bacnetUnitType.Str? && Utf8Len(item.bacnetUnitType.s) <= 64)
    ensures Truthy(item.bacnetUnitType) && !item.bacnetUnitType.Str? ==>
      r.message == Some(TypeMessage("bacnet_unit_type", item.bacnetUnitType))
    ensures item.bacnetUnitType.Str? && Utf8Len(item.bacnetUnitType.s) > 64 ==>
      r.message == Some(TooLongMessage("bacnet_unit_type", 64, Utf8Len(item.bacnetUnitType.s)))
  {
    var t := item.bacnetUnitType;
    if !Truthy(t) then Passed()
    else if !t.Str? then Failed(item.id, TypeMessage("bacnet_unit_type", t))
    else if Utf8Len(t.s) > 64 then Failed(item.id, TooLongMessage("bacnet_unit_type", 64, Utf8Len(t.s)))
    else Passed()
  }

  /** There is no membership check: every string of at most 64 bytes passes, whatever it says. */
  lemma AnyShortStringPasses(item: CodecEntry, s: string)
    requires item.bacnetUnitType == Str(s) && Utf8Len(s) <= 64
    ensures Validate(item) == Passed()
  {
  }
}
