/** The `access_mode` field: required, a string of at most 32 UTF-8 bytes, exactly R, W or RW. */
module AccessModeField {
  import opened Text
  import opened Js
  import opened Types

  const ValidAccessModes: seq<string> := ["R", "W", "RW"]

  function InvalidModeMessage(m: string): string {
    "access_mode 只能是 R、W 或 RW, 得到: " + m
  }

  function Validate(item: CodecEntry): (r: ValidationResult)
    ensures WellFormed(r) && (!r.valid ==> r.id == item.id)
    ensures r.valid <==> Includes(ValidAccessModes, item.accessMode)
    ensures !Truthy(item.accessMode) ==> r.message == Some(RequiredMessage("access_mode"))
    ensures Truthy(item.accessMode) && !item.accessMode.Str? ==>
      r.message == Some(TypeMessage("access_mode", item.accessMode))
    ensures item.accessMode.Str? && Utf8Len(item.accessMode.s) > 32 ==>
      r.message == Some(TooLongMessage("access_mode", 32, Utf8Len(item.accessMode.s)))
    ensures item.accessMode.Str? && item.accessMode.s != "" && Utf8Len(item.accessMode.s) <= 32
            && item.accessMode.s !in ValidAccessModes ==>
      r.message == Some(InvalidModeMessage(item.accessMode.s))
  {
    var m := item.accessMode;
    if !Truthy(m) then Failed(item.id, RequiredMessage("access_mode"))
    else if !m.Str? then Failed(item.id, TypeMessage("access_mode", m))
    else if Utf8Len(m.s) > 32 then Failed(item.id, TooLongMessage("access_mode", 32, Utf8Len(m.s)))
    else if m.s !in ValidAccessModes then Failed(item.id, InvalidModeMessage(m.s))
    else Passed()
  }

  /** The comparison is case-sensitive: "r" and "rw" are rejected. */
  lemma LowerCaseModeRejected(item: CodecEntry)
    requires item.accessMode in {Str("r"), Str("w"), Str("rw")}
    ensures Validate(item) == Failed(item.id, InvalidModeMessage(item.accessMode.s))
  {
  }
}
