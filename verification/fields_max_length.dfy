/** The `max_length` field: for TEXT and STRING points, a required integer in 1..242. */
module MaxLengthField {
  import opened Text
  import opened Js
  import opened Types

  const MinLength := 1
  const MaxLength := 242

  const TextRequiredMessage := "data_type 为 TEXT 时，max_length 为必填项"

  function NotIntegerMessage(v: JsVal): string {
    "max_length 必须是整数类型, 得到 " + TypeOf(v) + ": " + ToStr(v)
  }

  function OutOfRangeMessage(i: int): string {
    "max_length 必须在 1-242 之间, 得到: " + IntToDecimal(i)
  }

  /** The data types whose points carry text. */
  predicate IsTextual(dataType: JsVal) {
    dataType == Str("TEXT") || dataType == Str("STRING")
  }

  function Validate(item: CodecEntry): (r: ValidationResult)
    ensures WellFormed(r) && (!r.valid ==> r.id == item.id)
    ensures r.valid <==>
      !IsTextual(item.dataType) || (IsInteger(item.maxLength) && MinLength <= item.maxLength.n.i <= MaxLength)
    ensures IsTextual(item.dataType) && IsNullish(item.maxLength) ==> r.message == Some(TextRequiredMessage)
    ensures IsTextual(item.dataType) && !IsNullish(item.maxLength) && !IsInteger(item.maxLength) ==>
      r.message == Some(NotIntegerMessage(item.maxLength))
    ensures IsTextual(item.dataType) && IsInteger(item.maxLength) && !(MinLength <= item.maxLength.n.i <= MaxLength) ==>
      r.message == Some(OutOfRangeMessage(item.maxLength.n.i))
  {
    var m := item.maxLength;
    if !IsTextual(item.dataType) then Passed()
    else if IsNullish(m) then Failed(item.id, TextRequiredMessage)
    else if !IsInteger(m) then Failed(item.id, NotIntegerMessage(m))
    else if m.n.i < MinLength || m.n.i > MaxLength then Failed(item.id, OutOfRangeMessage(m.n.i))
    else Passed()
  }

  /** The bounds are inclusive: 1 and 242 pass, 0 and 243 fail. */
  lemma RangeBoundaries(item: CodecEntry)
    requires IsTextual(item.dataType)
    ensures item.maxLength in {Num(Int(1)), Num(Int(242))} ==> Validate(item).valid
    ensures item.maxLength in {Num(Int(0)), Num(Int(243))} ==>
      Validate(item) == Failed(item.id, OutOfRangeMessage(item.maxLength.n.i))
  {
  }
}
