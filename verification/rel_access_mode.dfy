/**
 * The access-mode relationship: the BACnet object type must be one the
 * access mode admits, unless the point's value type is STRUCT.
 */
module AccessModeRelation {
  import opened Text
  import opened Js
  import opened Types
  import opened ValidationRules

  function UnknownModeMessage(mode: JsVal): string {
    "无效的 access_mode: " + ToStr(mode)
  }

  function NotAllowedMessage(mode: JsVal, bacnetType: JsVal): string {
    "access_mode: " + ToStr(mode) + " 不允许使用 bacnet_type: " + ToStr(bacnetType)
  }

  /** The table row an access mode selects, looked up by its string form. */
  function Row(mode: JsVal): Option<seq<string>> {
    var key := ToStr(mode);
    if key in AccessModeRules then Some(AccessModeRules[key]) else None
  }

  function Validate(item: CodecEntry): (r: ValidationResult)
    ensures WellFormed(r) && (!r.valid ==> r.id == item.id)
    ensures r.valid <==>
      ToStr(item.accessMode) in AccessModeRules
      && (item.valueType == Str("STRUCT") || Includes(AccessModeRules[ToStr(item.accessMode)], item.bacnetType))
    ensures ToStr(item.accessMode) !in AccessModeRules ==> r.message == Some(UnknownModeMessage(item.accessMode))
    ensures ToStr(item.accessMode) in AccessModeRules && item.valueType != Str("STRUCT")
            && !Includes(AccessModeRules[ToStr(item.accessMode)], item.bacnetType) ==>
      r.message == Some(NotAllowedMessage(item.accessMode, item.bacnetType))
  {
    match Row(item.accessMode)
    case None => Failed(item.id, UnknownModeMessage(item.accessMode))
    case Some(allowed) =>
      if item.valueType == Str("STRUCT") then Passed()
      else if !Includes(allowed, item.bacnetType) then Failed(item.id, NotAllowedMessage(item.accessMode, item.bacnetType))
      else Passed()
  }

  /** The mode is looked up before the STRUCT bypass: an unknown mode fails even for STRUCT. */
  lemma UnknownModeFailsEvenForStruct(item: CodecEntry)
    requires item.accessMode in {Str(""), Str("INVALID"), Undefined}
    ensures Validate(item) == Failed(item.id, UnknownModeMessage(item.accessMode))
  {
  }

  /** With a known mode, STRUCT admits every object type. */
  lemma StructBypass(item: CodecEntry)
    requires item.accessMode in {Str("R"), Str("W"), Str("RW")} && item.valueType == Str("STRUCT")
    ensures Validate(item) == Passed()
  {
  }

  /** Read-only points cannot be output objects. */
  lemma ReadOnlyOutputRejected(item: CodecEntry)
    requires item.accessMode == Str("R") && item.bacnetType == Str("binary_output_object")
    requires item.valueType != Str("STRUCT")
    ensures !Validate(item).valid
    ensures Validate(item).message == Some(NotAllowedMessage(item.accessMode, item.bacnetType))
  {
  }
}
