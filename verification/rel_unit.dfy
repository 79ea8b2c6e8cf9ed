/**
 * The unit relationship: a declared `bacnet_unit_type_id` must name a row
 * of the standard unit table, and `unit` and `bacnet_unit_type` must equal
 * that row's unit and unit type exactly. The table's contents are a
 * parameter.
 */
module UnitRelation {
  import opened Text
  import opened Js
  import opened Types

  function UnknownIdMessage(id: JsVal): string {
    "无效的 bacnet_unit_type_id: " + ToStr(id)
  }

  function WrongUnitMessage(unit: JsVal): string {
    "无效的 unit: " + ToStr(unit)
  }

  function WrongUnitTypeMessage(unitType: JsVal): string {
    "无效的 unit_type: " + ToStr(unitType)
  }

  /** The row's id is strictly equal to the entry's id. */
  predicate RowMatches(def: BacnetUnitDef, id: JsVal) {
    id == Num(Int(def.unitTypeId))
  }

  /** The first row at or after `from` whose id matches. */
  function FindIndex(units: seq<BacnetUnitDef>, id: JsVal, from: nat): (r: Option<nat>)
    requires from <= |units|
    decreases |units| - from
    ensures r.None? <==> forall k | from <= k < |units| :: !RowMatches(units[k], id)
    ensures r.Some? ==> from <= r.value < |units| && RowMatches(units[r.value], id)
                        && forall j | from <= j < r.value :: !RowMatches(units[j], id)
  {
    if from == |units| then None
    else if RowMatches(units[from], id) then Some(from)
    else FindIndex(units, id, from + 1)
  }

  /** `units.find(u => u.unit_type_id === id)`: the first matching row. */
  function FindUnit(units: seq<BacnetUnitDef>, id: JsVal): (r: Option<BacnetUnitDef>)
    ensures r.None? <==> forall k | 0 <= k < |units| :: !RowMatches(units[k], id)
    ensures r.Some? ==> exists k | 0 <= k < |units| ::
      units[k] == r.value && RowMatches(units[k], id) && forall j | 0 <= j < k :: !RowMatches(units[j], id)
  {
    match FindIndex(units, id, 0)
    case None => None
    case Some(k) => Some(units[k])
  }

  /** The entry agrees with a table row in all three fields. */
  predicate AgreesWith(item: CodecEntry, def: BacnetUnitDef) {
    RowMatches(def, item.bacnetUnitTypeId) && item.unit == Str(def.unit) && item.bacnetUnitType == Str(def.unitType)
  }

  function Validate(item: CodecEntry, units: seq<BacnetUnitDef>): (r: ValidationResult)
    ensures WellFormed(r) && (!r.valid ==> r.id == item.id)
    ensures r.valid <==>
      item.bacnetUnitTypeId == Undefined
      || (FindUnit(units, item.bacnetUnitTypeId).Some? && AgreesWith(item, FindUnit(units, item.bacnetUnitTypeId).value))
    ensures item.bacnetUnitTypeId != Undefined && (forall k | 0 <= k < |units| :: !RowMatches(units[k], item.bacnetUnitTypeId)) ==>
      r.message == Some(UnknownIdMessage(item.bacnetUnitTypeId))
    ensures item.bacnetUnitTypeId != Undefined && FindUnit(units, item.bacnetUnitTypeId).Some?
            && item.unit != Str(FindUnit(units, item.bacnetUnitTypeId).value.unit) ==>
      r.message == Some(WrongUnitMessage(item.unit))
    ensures item.bacnetUnitTypeId != Undefined && FindUnit(units, item.bacnetUnitTypeId).Some?
            && item.unit == Str(FindUnit(units, item.bacnetUnitTypeId).value.unit)
            && item.bacnetUnitType != Str(FindUnit(units, item.bacnetUnitTypeId).value.unitType) ==>
      r.message == Some(WrongUnitTypeMessage(item.bacnetUnitType))
  {
    if item.bacnetUnitTypeId == Undefined then Passed()
    else match FindUnit(units, item.bacnetUnitTypeId)
      case None => Failed(item.id, UnknownIdMessage(item.bacnetUnitTypeId))
      case Some(def) =>
        if item.unit != Str(def.unit) then Failed(item.id, WrongUnitMessage(item.unit))
        else if item.bacnetUnitType != Str(def.unitType) then Failed(item.id, WrongUnitTypeMessage(item.bacnetUnitType))
        else Passed()
  }

  /** Null is a present id that matches no row. */
  lemma NullIdRejected(item: CodecEntry, units: seq<BacnetUnitDef>)
    requires item.bacnetUnitTypeId == Null
    ensures Validate(item, units) == Failed(item.id, UnknownIdMessage(Null))
  {
  }

  /** When two rows share an id, the entry must agree with the first one. */
  lemma FirstRowWins(item: CodecEntry, d1: BacnetUnitDef, d2: BacnetUnitDef, rest: seq<BacnetUnitDef>)
    requires d1.unitTypeId == d2.unitTypeId && item.bacnetUnitTypeId == Num(Int(d1.unitTypeId))
    ensures Validate(item, [d1, d2] + rest).valid <==> AgreesWith(item, d1)
  {
  }
}
