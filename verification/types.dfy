/**
 * The records the validators exchange: one configuration entry of
 * codec.json, the result of one check, and one row of the BACnet unit
 * table. Also the message shapes several field validators share.
 */
module Types {
  import opened Text
  import opened Js

  datatype Severity = Error | Warning

  /**
   * `{valid, id, message, severity?}`. A field or relationship validator
   * leaves `severity` unset; the orchestrator tags every result.
   */
  datatype ValidationResult = ValidationResult(
    valid: bool,
    id: JsVal,
    message: Option<string>,
    severity: Option<Severity>)

  /** `{ valid: true, id: null, message: null }`. */
  function Passed(): ValidationResult {
    ValidationResult(true, Null, None, None)
  }

  /** `{ valid: false, id, message }`. */
  function Failed(id: JsVal, message: string): ValidationResult {
    ValidationResult(false, id, Some(message), None)
  }

  /**
   * A passing result carries neither id nor message; a failing one carries
   * a non-empty message (so the orchestrator's `if (result.message)` keeps it).
   */
  predicate WellFormed(r: ValidationResult) {
    && (r.valid ==> r.id == Null && r.message == None)
    && (!r.valid ==> r.message.Some? && r.message.value != "")
    && r.severity == None
  }

  /**
   * One point of codec.json. Every field is whatever the document holds,
   * `Undefined` when the key is absent; the declared TypeScript types are
   * what the validators check, not what they may assume.
   */
  datatype CodecEntry = CodecEntry(
    id: JsVal,
    description: JsVal,
    name: JsVal,
    accessMode: JsVal,
    dataType: JsVal,
    valueType: JsVal,
    bacnetType: JsVal,
    unit: JsVal,
    bacnetUnitTypeId: JsVal,
    bacnetUnitType: JsVal,
    reference: JsVal,
    value: JsVal,
    values: JsVal,
    maxLength: JsVal)

  /** An entry with every key absent. */
  const EmptyEntry := CodecEntry(Undefined, Undefined, Undefined, Undefined, Undefined,
    Undefined, Undefined, Undefined, Undefined, Undefined, Undefined, Undefined, Undefined, Undefined)

  /** One row of the standard unit table. */
  datatype BacnetUnitDef = BacnetUnitDef(unitTypeId: int, unit: string, unitType: string)

  // Message shapes shared by the field validators

  function RequiredMessage(field: string): string {
    field + " 字段为必填项"
  }

  function TypeMessage(field: string, v: JsVal): string {
    field + " 必须是字符串类型, 得到 " + TypeOf(v)
  }

  function TooLongMessage(field: string, limit: nat, bytes: nat): string {
    field + " 字段长度超过 " + NatToDecimal(limit) + " 字节: " + NatToDecimal(bytes) + " 字节"
  }
}
