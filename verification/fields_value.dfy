/**
 * The `value` field (an optional string of at most 16 UTF-8 bytes) and the
 * `values` array that enumerates the states of a BOOL or ENUM point.
 */
module ValueField {
  import opened Text
  import opened Js
  import opened Types

  function Validate(item: CodecEntry): (r: ValidationResult)
    ensures WellFormed(r) && (!r.valid ==> r.id == item.id)
    ensures r.valid <==>
      item.value in {Undefined, Null, Str("")} || (item.value.Str? && Utf8Len(item.value.s) <= 16)
    ensures !item.value.Str? && !IsNullish(item.value) ==>
      r.message == Some(TypeMessage("value", item.value))
    ensures item.value.Str? && Utf8Len(item.value.s) > 16 ==>
      r.message == Some(TooLongMessage("value", 16, Utf8Len(item.value.s)))
  {
    var v := item.value;
    if v == Undefined || v == Null || v == Str("") then Passed()
    else if !v.Str? then Failed(item.id, TypeMessage("value", v))
    else if Utf8Len(v.s) > 16 then Failed(item.id, TooLongMessage("value", 16, Utf8Len(v.s)))
    else Passed()
  }

  /** Unlike the optional text fields, `value` treats only undefined, null and "" as absent: 0 and false are typed. */
  lemma FalsyNumberValueRejected(item: CodecEntry)
    requires item.value in {Num(Int(0)), Bool(false)}
    ensures !Validate(item).valid
    ensures Validate(item).message == Some(TypeMessage("value", item.value))
  {
  }

  // ---------------------------------------------------------------------
  // values

  const MaxValues := 50
  const MaxNameBytes := 127

  const BoolRequiredMessage := "data_type 为 BOOL 时，values 为必填项"
  const BoolStatesMessage := "data_type 为 BOOL 时，values 必须包含 value 为 0 和 1 的元素"
  const EnumRequiredMessage := "data_type 为 ENUM 时，values 为必填项"

  function BoolLengthMessage(n: nat): string {
    "data_type 为 BOOL 时，values 长度必须为 2, 当前长度: " + NatToDecimal(n)
  }

  function EnumLengthMessage(n: nat): string {
    "data_type 为 ENUM 时，values 长度必须在 2-50 之间, 当前长度: " + NatToDecimal(n)
  }

  function TooManyMessage(n: nat): string {
    "values 数组长度超过限制 50, 当前长度: " + NatToDecimal(n)
  }

  function MissingValueMessage(k: nat): string {
    "values[" + NatToDecimal(k) + "] 缺少 value 字段"
  }

  function NotIntegerMessage(k: nat, v: JsVal): string {
    "values[" + NatToDecimal(k) + "].value 必须是整数类型, 得到 " + TypeOf(v) + ": " + ToStr(v)
  }

  function NameTooLongMessage(k: nat, bytes: nat): string {
    "values[" + NatToDecimal(k) + "].name 长度超过 127 字节: " + NatToDecimal(bytes) + " 字节"
  }

  /** An element name is skipped when undefined, null or ""; otherwise its string form must fit in 127 bytes. */
  predicate NameFits(name: JsVal) {
    name in {Undefined, Null, Str("")} || Utf8Len(ToStr(name)) <= MaxNameBytes
  }

  /** An acceptable element: an object whose `value` is an integer and whose `name` fits. */
  predicate ElementOk(e: JsVal) {
    e.Obj? && IsInteger(FieldOf(e, "value")) && NameFits(FieldOf(e, "name"))
  }

  /**
   * The checks on element `k`: the problem found, `None` when there is none,
   * or the exception raised by reading `.value` of a null or undefined element.
   */
  function CheckElement(k: nat, e: JsVal): (r: Completion<Option<string>>)
    ensures r.Throw? <==> IsNullish(e)
    ensures r.Throw? ==> r.error == CannotReadProperties(e, "value")
    ensures r == Normal(None) <==> ElementOk(e)
    ensures r.Normal? && r.value.Some? ==> r.value.value != ""
    ensures !IsNullish(e) && IsNullish(FieldOf(e, "value")) ==> r == Normal(Some(MissingValueMessage(k)))
    ensures !IsNullish(e) && !IsNullish(FieldOf(e, "value")) && !IsInteger(FieldOf(e, "value")) ==>
      r == Normal(Some(NotIntegerMessage(k, FieldOf(e, "value"))))
    ensures !IsNullish(e) && IsInteger(FieldOf(e, "value")) && !NameFits(FieldOf(e, "name")) ==>
      r == Normal(Some(NameTooLongMessage(k, Utf8Len(ToStr(FieldOf(e, "name"))))))
  {
    match ReadField(e, "value")
    case Throw(err) => Throw(err)
    case Normal(v) =>
      if IsNullish(v) then Normal(Some(MissingValueMessage(k)))
      else if !IsInteger(v) then Normal(Some(NotIntegerMessage(k, v)))
      else
        var name := FieldOf(e, "name");
        if name != Undefined && name != Null && name != Str("") && Utf8Len(ToStr(name)) > MaxNameBytes then
          Normal(Some(NameTooLongMessage(k, Utf8Len(ToStr(name)))))
        else Normal(None)
  }

  /**
   * The loop over `values[from..]`: the outcome of the first element that
   * has a problem (or throws), `None` when every element is acceptable.
   */
  function ScanElements(items: seq<JsVal>, from: nat): (r: Completion<Option<string>>)
    requires from <= |items|
    decreases |items| - from
    ensures r == Normal(None) <==> forall k | from <= k < |items| :: ElementOk(items[k])
    ensures r != Normal(None) ==>
      exists k | from <= k < |items| ::
        r == CheckElement(k, items[k]) && forall j | from <= j < k :: ElementOk(items[j])
  {
    if from == |items| then Normal(None)
    else
      var c := CheckElement(from, items[from]);
      if c != Normal(None) then c
      else ScanElements(items, from + 1)
  }

  /** `values.map(v => v.value)`: throws at the first null or undefined element. */
  function ElementValues(items: seq<JsVal>): (r: Completion<seq<JsVal>>)
    ensures r.Throw? <==> exists k | 0 <= k < |items| :: IsNullish(items[k])
    ensures r.Normal? ==> |r.value| == |items| && forall k | 0 <= k < |items| :: r.value[k] == FieldOf(items[k], "value")
  {
    if items == [] then Normal([])
    else
      match ReadField(items[0], "value")
      case Throw(err) => Throw(err)
      case Normal(v) =>
        match ElementValues(items[1..])
        case Throw(err) => Throw(err)
        case Normal(rest) => Normal([v] + rest)
  }

  /** Some element of `items` is an object whose `value` is `x`. */
  predicate HasState(items: seq<JsVal>, x: JsVal) {
    exists k | 0 <= k < |items| :: items[k].Obj? && FieldOf(items[k], "value") == x
  }

  /** The rule `values` must meet, stated declaratively. */
  predicate ValuesAcceptable(item: CodecEntry) {
    var vs := item.values;
    && (item.dataType == Str("BOOL") ==>
          vs.Arr? && |vs.items| == 2 && HasState(vs.items, Num(Int(0))) && HasState(vs.items, Num(Int(1))))
    && (item.dataType == Str("ENUM") ==> vs.Arr? && 2 <= |vs.items| <= MaxValues)
    && (vs.Arr? ==> |vs.items| <= MaxValues && forall k | 0 <= k < |vs.items| :: ElementOk(vs.items[k]))
  }

  /** The checks common to every data type, on an array `values`. */
  function CheckArray(id: JsVal, items: seq<JsVal>): (r: Completion<ValidationResult>)
    ensures r.Normal? ==> WellFormed(r.value) && (!r.value.valid ==> r.value.id == id)
    ensures r == Normal(Passed()) <==> |items| <= MaxValues && forall k | 0 <= k < |items| :: ElementOk(items[k])
    ensures r.Throw? ==> |items| <= MaxValues && exists k | 0 <= k < |items| :: IsNullish(items[k])
    ensures (forall k | 0 <= k < |items| :: !IsNullish(items[k])) ==> r.Normal?
    ensures |items| > MaxValues ==> r == Normal(Failed(id, TooManyMessage(|items|)))
  {
    if |items| > MaxValues then Normal(Failed(id, TooManyMessage(|items|)))
    else
      match ScanElements(items, 0)
      case Throw(err) => Throw(err)
      case Normal(None) => Normal(Passed())
      case Normal(Some(m)) => Normal(Failed(id, m))
  }

  /** `validateValues`, which can throw when an element of `values` is null or undefined. */
  function ValidateValues(item: CodecEntry): (r: Completion<ValidationResult>)
    ensures r.Normal? ==> WellFormed(r.value) && (!r.value.valid ==> r.value.id == item.id)
    ensures r == Normal(Passed()) <==> ValuesAcceptable(item)
    ensures r.Throw? ==> item.values.Arr? && exists k | 0 <= k < |item.values.items| :: IsNullish(item.values.items[k])
    ensures item.values.Arr? && (forall k | 0 <= k < |item.values.items| :: !IsNullish(item.values.items[k])) ==> r.Normal?
    ensures item.dataType == Str("BOOL") && !item.values.Arr? ==> r == Normal(Failed(item.id, BoolRequiredMessage))
    ensures item.dataType == Str("BOOL") && item.values.Arr? && |item.values.items| != 2 ==>
      r == Normal(Failed(item.id, BoolLengthMessage(|item.values.items|)))
    ensures item.dataType == Str("ENUM") && !item.values.Arr? ==> r == Normal(Failed(item.id, EnumRequiredMessage))
    ensures item.dataType == Str("ENUM") && item.values.Arr? && !(2 <= |item.values.items| <= MaxValues) ==>
      r == Normal(Failed(item.id, EnumLengthMessage(|item.values.items|)))
    ensures item.dataType == Str("BOOL") && item.values.Arr? && |item.values.items| == 2
            && (forall k | 0 <= k < 2 :: !IsNullish(item.values.items[k]))
            && !(HasState(item.values.items, Num(Int(0))) && HasState(item.values.items, Num(Int(1)))) ==>
      r == Normal(Failed(item.id, BoolStatesMessage))
    ensures item.values.Arr?
            && (item.dataType == Str("BOOL") ==>
                  |item.values.items| == 2 && HasState(item.values.items, Num(Int(0))) && HasState(item.values.items, Num(Int(1))))
            && (item.dataType == Str("ENUM") ==> 2 <= |item.values.items| <= MaxValues) ==>
      r == CheckArray(item.id, item.values.items)
  {
    var vs := item.values;
    if item.dataType == Str("BOOL") && !vs.Arr? then Normal(Failed(item.id, BoolRequiredMessage))
    else if item.dataType == Str("BOOL") && |vs.items| != 2 then
      Normal(Failed(item.id, BoolLengthMessage(|vs.items|)))
    else if item.dataType == Str("BOOL") then
      match ElementValues(vs.items)
      case Throw(err) =>
        BothStatesAreObjects(vs.items);
        Throw(err)
      case Normal(states) =>
        if Num(Int(0)) !in states || Num(Int(1)) !in states then
          assert Num(Int(0)) in states && Num(Int(1)) in states <==>
                 HasState(vs.items, Num(Int(0))) && HasState(vs.items, Num(Int(1))) by {
            StatesOfObjects(vs.items, states);
          }
          Normal(Failed(item.id, BoolStatesMessage))
        else
          StatesOfObjects(vs.items, states);
          CheckArray(item.id, vs.items)
    else if item.dataType == Str("ENUM") && !vs.Arr? then Normal(Failed(item.id, EnumRequiredMessage))
    else if item.dataType == Str("ENUM") && !(2 <= |vs.items| <= MaxValues) then
      Normal(Failed(item.id, EnumLengthMessage(|vs.items|)))
    else if vs.Arr? then CheckArray(item.id, vs.items)
    else Normal(Passed())
  }

  /** Two elements carrying the states 0 and 1 are both objects. */
  lemma BothStatesAreObjects(items: seq<JsVal>)
    requires |items| == 2
    ensures HasState(items, Num(Int(0))) && HasState(items, Num(Int(1))) ==> items[0].Obj? && items[1].Obj?
  {
  }

  /**
   * When every element is an object, membership in the mapped values is
   * HasState; a state held by a non-object element is never an integer.
   */
  lemma StatesOfObjects(items: seq<JsVal>, states: seq<JsVal>)
    requires |states| == |items| && forall k | 0 <= k < |items| :: states[k] == FieldOf(items[k], "value")
    ensures forall x: JsVal | x.Num? :: x in states <==> HasState(items, x)
  {
    forall x: JsVal | x.Num? ensures x in states <==> HasState(items, x) {
      if x in states {
        var k :| 0 <= k < |states| && states[k] == x;
        assert items[k].Obj?;
      }
      if HasState(items, x) {
        var k :| 0 <= k < |items| && items[k].Obj? && FieldOf(items[k], "value") == x;
        assert states[k] == x;
      }
    }
  }

  /** A NUMBER point needs no `values` at all. */
  lemma NumberWithoutValuesPasses(item: CodecEntry)
    requires item.dataType == Str("NUMBER") && item.values == Undefined
    ensures ValidateValues(item) == Normal(Passed())
  {
  }

  /** For any data type other than BOOL and ENUM, 51 elements fail with the generic limit message. */
  lemma TooManyValuesAnyType(item: CodecEntry)
    requires item.dataType != Str("BOOL") && item.dataType != Str("ENUM")
    requires item.values.Arr? && |item.values.items| == 51
    ensures ValidateValues(item) == Normal(Failed(item.id, TooManyMessage(51)))
  {
  }

  /** Element names that are empty, null or absent are not length-checked. */
  lemma EmptyNamesSkipped(e: JsVal)
    requires e.Obj? && IsInteger(FieldOf(e, "value")) && FieldOf(e, "name") in {Undefined, Null, Str("")}
    ensures CheckElement(7, e) == Normal(None)
  {
  }
}
