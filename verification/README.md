# codec.json rule engine — a Dafny model

This project models the rule engine of the codec validator: the part that
decides whether a device's `codec.json` point table is acceptable, and
whether a sample payload only uses keys that the table declares.

- **The document.** `codec.json` holds an `object` array of point entries.
  Each entry is one BACnet point: `id`, `name`, `description`,
  `access_mode`, `data_type`, `value_type`, `value`, `values`,
  `max_length`, `unit`, `bacnet_type`, `bacnet_unit_type_id`,
  `bacnet_unit_type`, `reference`.
- **Per-entry checks.** Every entry goes through the same 21 checks:
  - 16 field checks. Each looks at one field, or at one field together
    with `data_type`.
  - 5 relationship checks. They compare fields with each other, with the
    three rule tables of `validation-rules.ts`, with the BACnet unit table,
    and with the other entries' ids.
- **The report.** Every failing check becomes one report line
  `"<id>: <message>"`. The document is valid when there is no such line.
- **Exceptions.** A check can throw, for example on a `null` element of
  `values`. The whole document then yields one error line built from the
  exception's message. Flattening a sample throws as well when an object
  in it has its own `hasOwnProperty` key, which hides the method that
  `flattenObject` calls; the sample then yields one error line.
- **Sample payloads.** A nested sample payload is flattened to dotted
  keys (`history.0.timestamp`). Each key that is not skipped must be
  declared as an `id`, either directly or after its array indices are
  replaced by `_item`.

## How it is modelled

**JavaScript values.** Parsed JSON values are the datatype `Js.JsVal`:
undefined, null, booleans, numbers, strings, arrays and objects. An object
is an ordered list of properties.

The validators depend on several JavaScript rules, and each is written out:

- truthiness;
- `typeof`;
- `===` (two parsed arrays or objects are never identical);
- `Number.isInteger`;
- `String(v)`;
- reading a property of `null` or `undefined`, which throws;
- the UTF-8 byte length that `TextEncoder` reports;
- `JSON.stringify` of a string array.

A check that can throw returns a `Completion` (`Normal(value)` or
`Throw(error)`).

**Messages.** Every message is modelled with its exact text, so the
contracts can say which message a failure carries.

**Imperative parts.** Some source functions are written as loops that
build state step by step:

- the report loop of `validate`;
- the key loop of `validateTestDataAgainstCodec`;
- `flattenObject`.

These are Dafny methods with loop invariants. Each is proved equal to a
specification function, and the properties are proved as lemmas about
that function.

**Pure parts.** The field and relationship validators are pure decision
functions. They are Dafny functions whose contracts state:

- the exact acceptance condition, in both directions;
- the message of every failure branch.

**Two facts proved about the sample-key check:**

- Skipped keys are never looked up. Any key with a middle index such as
  `a.0.b` is skipped before the lookup, so for every key that reaches the
  lookup, the middle-index replacement of `convertArrayIndexToWildcard`
  changes nothing (`SampleCheck.WildcardOfUnskipped`).
- Keys with a trailing index are looked up. The skip pattern is
  `\.\d+(\.| $)`, which requires a space before the end. So a key with a
  trailing index such as `history.0` is not skipped, and it is looked up
  as `history._item` (`SampleCheck.TrailingIndexChecked`).

**Where the documented data model and the code disagree, the model
follows the code:**

- An empty `object` array is accepted and yields a valid report, although
  the documented data model calls the entry list non-empty
  (`CodecValidator.EmptyDocumentPasses`).
- No check ever produces a warning, so the report's `warnings` are always
  empty (`CodecValidator.ReportOfFacts`).

## Model

| member | source | states |
|---|---|---|
| ValidationRules.Admitted | src/test/validation-rules.ts:6-29 | the set of values a rule table admits for a key: exactly that key's list, and nothing for a key the table lacks |
| ValidationRules.AccessModeTable | src/test/validation-rules.ts:8-12 | access_mode rules exist for R, W and RW only; R admits exactly the binary and analog input objects, multistate_value_object and character_string_value_object |
| ValidationRules.AccessModeShared | src/test/validation-rules.ts:8-12 | every access mode admits multistate_value_object and character_string_value_object; none admits the multistate input or output objects |
| ValidationRules.DataTypeBacnetTable | src/test/validation-rules.ts:15-20 | bacnet_type rules exist for BOOL, NUMBER, ENUM and STRING only (not TEXT); ENUM admits only multistate_value_object, BOOL the three binary objects |
| ValidationRules.DataTypeValueTable | src/test/validation-rules.ts:23-28 | value_type rules exist for BOOL, NUMBER, TEXT and ENUM; BOOL admits only UINT8, TEXT only STRING, ENUM exactly UINT8, UINT16 and INT16 |
| ValidationRules.NumberRow | src/test/validation-rules.ts:25 | NUMBER admits exactly INT8, UINT8, INT16, UINT16, INT32, UINT32 and FLOAT |
| ValidationRules.NumberValueTypes | src/test/validation-rules.ts:25 | NUMBER admits seven value types, and STRING is not one of them |
| Js.TypeOf | src/test/fields/description.ts:29-33 | `typeof` yields one of the five JSON type names, and "string" exactly for strings |
| Js.Truthy | src/test/fields/description.ts:24 | a parsed value is falsy exactly when it is undefined, null, false, the number 0 or the empty string |
| Js.StrictEq | dist/test/fields/id.js:78 | `===` holds exactly between equal primitive values; an array or object is never strictly equal to another parsed value |
| Js.StringConversionExamples | src/test/index.ts:65 | `String` as a template literal applies it: "-12" for -12, "1,,a" for [1, null, "a"] (a null element becomes empty), "[object Object]" for an object |
| Js.LookupProp | src/test/index.ts:217 | a property read finds a value exactly when some property has that key, and the value found belongs to such a property |
| Js.ReadField | src/test/fields/value.ts:129-132 | reading a field throws exactly when the holder is null or undefined, with the engine's "Cannot read properties" error; a missing key reads as undefined |
| Text.Utf8Len | src/test/fields/description.ts:38 | the UTF-8 length of a string lies between one and four bytes per character |
| Text.LowerFixedIffNoUpper | dist/test/fields/id.js:50 | a string equals its lower-cased form exactly when it has no upper-case letter |
| Text.DecimalInjective | src/test/fields/value.ts:83 | two numbers rendered to the same decimal text are equal, so a count in a message identifies the count |
| IdField.Validate | dist/test/fields/id.js:22-66 | an id passes exactly when it is a string of at most 127 UTF-8 bytes with no upper-case letter and no `.digits.` or trailing `.digits`; a falsy id reports "unknown" with the required message; each failure branch has its own message |
| IdField.CountIdPositive | dist/test/fields/id.js:78 | an id is counted at least once exactly when some entry's id is strictly equal to it |
| IdField.CountIdMoreThanOne | dist/test/fields/id.js:78-79 | the count exceeds one exactly when two different entries share that id |
| IdField.SameStringIdShared | dist/test/fields/id.js:78-79 | two entries holding the same string id share it |
| IdField.ValidateUnique | dist/test/fields/id.js:73-87 | an entry fails exactly when its id is truthy and shared by two entries, and the message carries the number of entries with that id |
| IdField.CountId | dist/test/fields/id.js:78 | the number of entries whose id is `===` the given id never exceeds the number of entries |
| IdField.TripleIdCounted | dist/test/fields/id.js:73-87 | three entries with one id make the first one fail with the count 3 |
| IdField.TemperaturePasses | dist/test/fields/id.js:22-66 | "temperature" is a valid id |
| IdField.UpperCaseRejected | dist/test/fields/id.js:50-56 | "Temperature" is rejected with the lower-case message |
| IdField.MidIndexRejected | dist/test/fields/id.js:58-64 | "data.0.value" is rejected with the array-format message |
| IdField.TrailingIndexRejected | dist/test/fields/id.js:58-64 | "sensor.1" is rejected with the array-format message |
| IdField.SnakeCaseIdAccepted | dist/test/fields/id.js:22-66 | every non-empty id of lower-case letters, digits and underscores within 127 bytes passes |
| IdField.DigitsInNamesAccepted | dist/test/fields/id.js:58 | digits that are not a whole dot-separated segment ("sensor01", "value_2_temp") are accepted |
| IdField.LeadingIndexAccepted | dist/test/fields/id.js:58 | a numeric first segment with no dot before it ("0.value") is accepted |
| DescriptionField.Validate | src/test/fields/description.ts:20-48 | a description passes exactly when it is falsy or a string of at most 1024 UTF-8 bytes; a non-string reports its `typeof`, an over-long one its byte count |
| DescriptionField.FalsyDescriptionPasses | src/test/fields/description.ts:24-26 | undefined, null, "", 0 and false all pass |
| DescriptionField.ArrayDescriptionIsObject | src/test/fields/description.ts:29-34 | an array or object description fails and the message names the type "object" |
| DescriptionField.AsciiDescriptionLimit | src/test/fields/description.ts:38-45 | an ASCII description passes exactly when it has at most 1024 characters |
| DescriptionField.MixedWidthDescription | src/test/fields/description.ts:38-45 | 512 ASCII characters plus 171 three-byte characters fail, reporting 1025 bytes |
| NameField.Validate | src/test/fields/name.ts:20-48 | a name passes exactly when it is falsy or a string of at most 64 UTF-8 bytes, with the type and length messages otherwise |
| NameField.NameOnlyReadsNameAndId | src/test/fields/name.ts:20-48 | the verdict depends only on the entry's name and id |
| NameField.BooleanName | src/test/fields/name.ts:29-35 | a `true` name fails with the type message naming "boolean" |
| NameField.AsciiNameBoundary | src/test/fields/name.ts:38-45 | 64 ASCII characters pass, 65 fail reporting 65 bytes |
| NameField.CjkNameBoundary | src/test/fields/name.ts:38-45 | 21 three-byte characters pass, 22 fail reporting 66 bytes |
| BacnetUnitTypeField.Validate | src/test/fields/bacnet-unit-type.ts:20-48 | bacnet_unit_type passes exactly when it is falsy or a string of at most 64 UTF-8 bytes, with the type and length messages otherwise |
| BacnetUnitTypeField.AnyShortStringPasses | src/test/fields/bacnet-unit-type.ts:20-48 | any string of at most 64 bytes passes: no list of allowed values |
| AccessModeField.Validate | dist/test/fields/access-mode.js:22-58 | access_mode passes exactly when it is one of R, W, RW; a falsy, non-string, over-long (32 bytes) or unlisted mode each gets its own message |
| AccessModeField.LowerCaseModeRejected | dist/test/fields/access-mode.js:9 | "r", "w" and "rw" are rejected: the list is case-sensitive |
| DataTypeField.Validate | dist/test/fields/data-type.js:22-58 | data_type passes exactly when it is one of TEXT, NUMBER, BOOL, ENUM, with the required, type, length and invalid-value messages otherwise |
| DataTypeField.StringDataTypeRejected | dist/test/fields/data-type.js:9 | "STRING" is not an accepted data_type |
| ValueTypeField.ValidValueTypesFitLimit | dist/test/fields/value-type.js:9 | every listed value_type is non-empty and within the 32-byte limit |
| ValueTypeField.Validate | dist/test/fields/value-type.js:22-63 | value_type is required only for NUMBER; a present one must be a listed string within 32 bytes; each failure has its message |
| ValueTypeField.StringAcceptedStructRejected | dist/test/fields/value-type.js:9 | "STRING" is accepted and "STRUCT" rejected with the invalid-value message |
| ValueField.Validate | src/test/fields/value.ts:20-48 | `value` passes exactly when it is nullish, "" or a string of at most 16 UTF-8 bytes, with the type and length messages otherwise |
| ValueField.FalsyNumberValueRejected | src/test/fields/value.ts:20-35 | 0 and false are not skipped as absent: they fail with the type message |
| ValueField.CheckElement | src/test/fields/value.ts:129-158 | one `values` element: throws exactly when it is nullish; passes exactly when its `value` is an integer and its name is absent or within 127 bytes; otherwise the missing-value, not-integer or name-length message for that index |
| ValueField.ScanElements | src/test/fields/value.ts:128-159 | the loop passes exactly when every element passes; otherwise it stops at the first element that does not |
| ValueField.ElementValues | src/test/fields/value.ts:88 | `values.map(v => v.value)` throws exactly when some element is nullish, and otherwise lists each element's `value` |
| ValueField.StatesOfObjects | src/test/fields/value.ts:88-89 | a number is in the state set exactly when some element carries it as `value` |
| ValueField.CheckArray | src/test/fields/value.ts:116-160 | an array passes exactly when it has at most 50 elements that all pass; more than 50 gives the length message; a throw needs a nullish element |
| ValueField.ValidateValues | src/test/fields/value.ts:64-163 | `values` passes exactly when the BOOL rule (an array of exactly two elements carrying 0 and 1), the ENUM rule (an array of 2 to 50) and the element rules hold; each rule's message, including the BOOL-states message for two non-nullish elements that lack state 0 or 1; once the BOOL and ENUM rules hold the verdict is that of the array check; a throw only for a nullish element |
| ValueField.NumberWithoutValuesPasses | src/test/fields/value.ts:116-117 | NUMBER points need no `values` |
| ValueField.TooManyValuesAnyType | src/test/fields/value.ts:119-125 | the 50-element limit applies to every data type |
| ValueField.EmptyNamesSkipped | src/test/fields/value.ts:149 | an undefined, null or empty name is not length-checked |
| MaxLengthField.Validate | dist/test/fields/max-length.js:20-49 | for TEXT and STRING, max_length must be an integer from 1 to 242, with the required, not-integer and range messages; other data types always pass |
| MaxLengthField.RangeBoundaries | dist/test/fields/max-length.js:20-49 | 1 and 242 pass, 0 and 243 fail |
| UnitField.Validate | dist/test/fields/unit.js:20-54 | a nullish unit passes unless data_type is NUMBER; a present unit must be a string of at most 16 UTF-8 bytes; each failure has its message |
| UnitField.EmptyUnitIsPresent | dist/test/fields/unit.js:20-54 | for NUMBER, "" counts as present and passes, null fails, and 0 or false fail with the type message |
| UnitField.ValidateUnitConsistency | dist/test/fields/unit.js:62-84 | a truthy unit needs a non-nullish bacnet_unit_type_id and a truthy bacnet_unit_type, with one message for each missing field |
| UnitField.ConsistencyIgnoresDataType | dist/test/fields/unit.js:62-84 | the consistency verdict does not depend on data_type, and a type id of 0 counts as present |
| BacnetTypeField.ValidTypesFitLimit | src/test/fields/bacnet-type.ts:9-20 | every listed bacnet_type is non-empty and within the 64-byte limit |
| BacnetTypeField.Validate | src/test/fields/bacnet-type.ts:34-75 | bacnet_type passes exactly when it is one of the listed object types, with the required, type, length and invalid-value messages otherwise |
| BacnetUnitTypeIdField.Validate | dist/test/fields/bacnet-unit-type-id.js:21-50 | for NUMBER, bacnet_unit_type_id must be a non-negative integer, with the required, not-integer and negative messages; other data types always pass |
| BacnetUnitTypeIdField.AnyNonNegativeIdPasses | dist/test/fields/bacnet-unit-type-id.js:21-50 | every non-negative integer id passes for NUMBER |
| ReferenceField.EscapeChar | dist/test/fields/reference.js:46 | `JSON.stringify` keeps a plain character as it is and writes a character that needs escaping as a backslash sequence of 2 to 6 ASCII characters |
| ReferenceField.EscapeCharsNotShorter | dist/test/fields/reference.js:46-47 | escaping never shortens a string's UTF-8 length |
| ReferenceField.QuoteBytes | dist/test/fields/reference.js:46-47 | a quoted string takes its escaped length plus two bytes |
| ReferenceField.EmptySerialization | dist/test/fields/reference.js:46-47 | `[]` serializes to the two bytes "[]" |
| ReferenceField.SinglePlainSerialization | dist/test/fields/reference.js:46-47 | a one-string array without special characters serializes to `["s"]`, four bytes longer than the string |
| ReferenceField.FirstNonString | dist/test/fields/reference.js:36-44 | the element loop finds no culprit exactly when every element is a string, and otherwise the first non-string |
| ReferenceField.Strings | dist/test/fields/reference.js:46 | an all-string array gives its strings, element by element |
| ReferenceField.Validate | dist/test/fields/reference.js:21-56 | reference passes exactly when it is falsy or an array of strings whose JSON text is at most 1024 UTF-8 bytes; a non-array, the first non-string element and an over-long serialization each get their message |
| ReferenceField.EmptyReferencePasses | dist/test/fields/reference.js:36-55 | an empty array passes |
| AccessModeRelation.Validate | src/test/relationships/access-mode-validator.ts:15-36 | an unknown access_mode always fails; otherwise STRUCT points pass and other points pass exactly when the mode's rule lists their bacnet_type |
| AccessModeRelation.UnknownModeFailsEvenForStruct | src/test/relationships/access-mode-validator.ts:15-36 | "", "INVALID" and a missing mode fail with the unknown-mode message |
| AccessModeRelation.StructBypass | src/test/relationships/access-mode-validator.ts:15-36 | a STRUCT point with a known mode passes whatever its bacnet_type |
| AccessModeRelation.ReadOnlyOutputRejected | src/test/relationships/access-mode-validator.ts:15-36 | a read-only binary_output_object fails with the not-allowed message |
| DataTypeRelation.ValidateBacnetType | src/test/relationships/data-type-validator.ts:15-28 | the check fails exactly when data_type has a rule that does not list the bacnet_type, and the message names the allowed list |
| DataTypeRelation.ValidateValueType | src/test/relationships/data-type-validator.ts:35-48 | the check fails exactly when data_type has a rule that does not list the value_type, and the message names the allowed list |
| DataTypeRelation.TextAdmitsAnyObjectType | src/test/relationships/data-type-validator.ts:15-28 | TEXT has no bacnet_type rule, so every bacnet_type passes |
| DataTypeRelation.BoolAnalogRejected | src/test/relationships/data-type-validator.ts:15-28 | BOOL with analog_input_object fails, listing the three binary objects |
| DataTypeRelation.NumberAnalogValueAccepted | src/test/relationships/data-type-validator.ts:15-28 | NUMBER with analog_value_object passes |
| DataTypeRelation.ValueTypeExamples | src/test/relationships/data-type-validator.ts:35-48 | NUMBER/STRING and ENUM/FLOAT fail, TEXT/STRING passes |
| DataTypeRelation.AbsentValueTypeRejected | src/test/relationships/data-type-validator.ts:35-48 | a data_type with a rule rejects a missing value_type |
| UnitRelation.FindIndex | src/test/relationships/unit-validator.ts:19 | the search finds nothing exactly when no row has that unit_type_id, and otherwise a matching row |
| UnitRelation.FindUnit | src/test/relationships/unit-validator.ts:19 | `find` yields nothing exactly when no row matches, and otherwise a row of the table that matches |
| UnitRelation.Validate | src/test/relationships/unit-validator.ts:15-47 | an entry passes exactly when bacnet_unit_type_id is undefined, or the first row with that id has the entry's unit and unit type; the unknown-id, wrong-unit and wrong-unit-type messages |
| UnitRelation.NullIdRejected | src/test/relationships/unit-validator.ts:18-27 | a null bacnet_unit_type_id is not skipped and fails as unknown |
| UnitRelation.FirstRowWins | src/test/relationships/unit-validator.ts:19 | with two rows for one id, only the first decides |
| ReferenceRelation.Iterate | src/test/relationships/reference-validator.ts:19 | `for...of` walks an array's elements or a string's characters, and throws "not iterable" on anything else |
| ReferenceRelation.FirstMissing | src/test/relationships/reference-validator.ts:19-28 | no reference is reported exactly when every reference is some entry's id, and otherwise the first one that is not |
| ReferenceRelation.Validate | src/test/relationships/reference-validator.ts:15-32 | a falsy reference passes; a truthy one that is neither array nor string throws; an array passes exactly when every element names an existing id, and otherwise fails on the first missing one |
| ReferenceRelation.SelfReferencePasses | src/test/relationships/reference-validator.ts:15-32 | an entry may reference its own id |
| ReferenceRelation.IdExistsOrderFree | src/test/relationships/reference-validator.ts:20 | whether an id exists does not depend on the order of the entries |
| ReferenceRelation.FirstMissingSame | src/test/relationships/reference-validator.ts:19-28 | two entry lists with the same ids give the same first missing reference |
| ReferenceRelation.ValidateOrderFree | src/test/relationships/reference-validator.ts:15-32 | the check's result does not depend on the order of the entries |
| ReferenceRelation.EmptyReferencePasses | src/test/relationships/reference-validator.ts:15-32 | an empty reference array passes |
| CodecValidator.LeadingFieldChecks | src/test/index.ts:99-106 | the first eight field checks yield eight well-formed results |
| CodecValidator.TrailingFieldChecks | src/test/index.ts:108-114 | the seven field checks after `values` yield seven well-formed results |
| CodecValidator.RelationChecks | src/test/index.ts:117-120 | the four relationship checks that cannot throw yield four well-formed results |
| CodecValidator.Checks | src/test/index.ts:97-122 | building the list throws exactly when `values` or the reference relationship throws, and the `values` exception comes first; otherwise there are 21 well-formed results |
| CodecValidator.TagErrors | src/test/index.ts:99-121 | every result is kept and tagged with severity "error" |
| CodecValidator.FailedOnly | src/test/index.ts:124 | the filter keeps exactly the failing results |
| CodecValidator.FailedOnlyConcat | src/test/index.ts:124 | filtering a concatenation filters each part |
| CodecValidator.Failures | src/test/index.ts:97-124 | the kept results all fail, carry severity "error" and a non-empty message, and none is kept exactly when every check passes |
| CodecValidator.TagErrorsConcat | src/test/index.ts:97-122 | tagging works result by result, so it distributes over concatenation |
| CodecValidator.FailuresMembers | src/test/index.ts:97-124 | a result is kept exactly when it is one of the failing checks, tagged "error" |
| CodecValidator.FailuresConcat | src/test/index.ts:97-124 | the failures of a concatenation are those of the first part followed by those of the second |
| CodecValidator.FailuresSingle | src/test/index.ts:97-124 | one check contributes itself, tagged "error", when it fails, and nothing when it passes |
| CodecValidator.ValidateItem | src/test/index.ts:96-125 | an entry throws exactly when one of its checks throws; otherwise it yields at most 21 tagged failures, and none exactly when all 21 checks pass |
| CodecValidator.ValidateItemMembers | src/test/index.ts:96-125 | a result of `validateItem` is exactly one of the entry's 21 checks that fails, tagged "error" |
| CodecValidator.ValidateItemInCheckOrder | src/test/index.ts:96-125 | the failures come in check order: the first eight field checks, then `values`, the seven later field checks, the four relationship checks and last the reference relationship |
| CodecValidator.CleanEntryFacts | src/test/index.ts:96-125 | an entry with no failure has a well-formed unique id, listed bacnet_type, data_type and access_mode, a bacnet_type its access_mode admits, acceptable `values`, and references that resolve |
| CodecValidator.CleanEntryChecks | src/test/index.ts:96-125 | for an entry with no failure, the id, uniqueness, access_mode, data_type and bacnet_type checks and the access-mode relationship pass, and `values` and the reference relationship pass without throwing |
| CodecValidator.ReportFrom | src/test/index.ts:61-87 | a report is valid exactly when it has no error line |
| CodecValidator.ThrowPersists | src/test/index.ts:61-87 | once an entry throws, later entries do not change the outcome |
| CodecValidator.CollectReport | src/test/index.ts:61-87 | the loop over entries and results builds the report the specification function describes, including the single catch line after a throw |
| CodecValidator.PushAllTagged | src/test/index.ts:63-71 | adding tagged failures adds one error line each and no warning |
| CodecValidator.CollectTagged | src/test/index.ts:61-73 | with tagged checks there are never warnings, and no line at all exactly when every entry's check passes cleanly |
| CodecValidator.Lines | src/test/index.ts:63-65 | one line `id: message` per result, in the results' order |
| CodecValidator.PushAllLines | src/test/index.ts:63-71 | tagged failures each append their line to the errors, in order, and add no warning |
| CodecValidator.CollectLines | src/test/index.ts:61-73 | when no entry throws, the loop collects the lines of every entry's failures, entry by entry, and no warning |
| CodecValidator.CollectNormalIff | src/test/index.ts:61-73 | the loop gets past the first `n` entries without an exception exactly when none of them throws |
| CodecValidator.FirstThrowReported | src/test/index.ts:61-87 | when entry `k` is the first to throw, the report is invalid, holds only the catch line for that exception, and has no warning |
| CodecValidator.ValidateCodecJson | src/test/index.ts:61-87 | validating a parsed document yields the report the specification function gives for its entries |
| CodecValidator.ItemCheckTagged | src/test/index.ts:96-125 | every entry's outcome consists of failures tagged "error" |
| CodecValidator.ItemCheckAt | src/test/index.ts:62 | the per-entry check is `validateItem` against the whole entry list, and its failures are tagged errors |
| CodecValidator.EntriesChecked | src/test/index.ts:61-62 | in a document none of whose entries throws, every entry's check is `validateItem` and yields tagged failures |
| CodecValidator.ReportOfFacts | src/test/index.ts:61-87 | the report never has warnings, and is valid exactly when every entry passes all 21 checks without throwing |
| CodecValidator.ReportLines | src/test/index.ts:61-79 | when no entry throws, the errors are exactly the lines `id: message` of every failing check, entry by entry in document order and check by check within an entry, and there are no warnings |
| CodecValidator.ReportOnThrow | src/test/index.ts:61-87 | when entry `k` is the first whose checks throw, the report is invalid with the single line "codec.json 验证失败: " followed by that exception's message |
| CodecValidator.ValidDocumentIntegrity | src/test/index.ts:61-87 | in a valid document no two entries share an id, and every reference names an existing id |
| CodecValidator.EmptyDocumentPasses | src/test/index.ts:61-79 | an empty entry list yields a valid report with no line |
| Flattening.PutFacts | src/test/index.ts:228-232 | after `rec[key] = val` for a key other than "__proto__" the key reads `val`, every other key reads as before, only the new property is added, keys stay distinct, an existing key keeps its place and a new key is appended |
| Flattening.PutLookup | src/test/index.ts:228-232 | after `rec[key] = val` for a key other than "__proto__" the key reads `val` and every other key reads as before |
| Flattening.PutProvenance | src/test/index.ts:228-232 | the assignment adds no property other than the new one |
| Flattening.PutDistinct | src/test/index.ts:228-232 | the assignment keeps keys distinct |
| Flattening.PutShape | src/test/index.ts:228-232 | assigning an existing key keeps the length; a new key is appended at the end |
| Flattening.SetMemberFacts | src/test/index.ts:228-232 | `result[key] = value` adds at most that one property and keeps keys distinct; the key is added exactly when it is not "__proto__", whose inherited setter creates no property |
| Flattening.DottedNotProto | src/test/index.ts:228 | an element key `newKey.index` is never "__proto__", so every array element is assigned as a property |
| Flattening.AssignFacts | src/test/index.ts:221 | `Object.assign` only takes properties from its two arguments, keeps keys distinct, and the result has exactly the keys of both except "__proto__" |
| Flattening.FlattenFacts | src/test/index.ts:210-237 | the flattened record has distinct keys, only leaf values, and every key lies under the prefix |
| Flattening.FlattenUpToDistinct | src/test/index.ts:213-234 | after any number of loop iterations no key occurs twice |
| Flattening.FlattenUpToLeaves | src/test/index.ts:213-234 | after any number of loop iterations the record holds only leaves, under the prefix |
| Flattening.AddMemberDistinct | src/test/index.ts:216-233 | handling one member keeps keys distinct |
| Flattening.AddMemberLeaves | src/test/index.ts:216-233 | one member adds only leaves at or below its own key |
| Flattening.AddItemsDistinct | src/test/index.ts:224-230 | the array elements keep keys distinct |
| Flattening.AddItemsLeaves | src/test/index.ts:224-230 | the array elements add only leaves below `key.` |
| Flattening.ItemIntoLeaves | src/test/index.ts:225-229 | one array element adds only leaves, at or below its own key |
| Flattening.FlattenKeys | src/test/index.ts:210-237 | the keys of the flattened record are exactly the dotted paths of the leaves of the value, except "__proto__": every leaf yields a key and no key comes from anywhere else |
| Flattening.FlattenUpToKeys | src/test/index.ts:213-234 | after `n` iterations of the loop, the keys are exactly the leaf paths through the first `n` members, except "__proto__" |
| Flattening.AddMemberKeys | src/test/index.ts:216-233 | one member adds exactly its own leaf paths, except "__proto__", to the keys |
| Flattening.AddItemsKeys | src/test/index.ts:224-230 | the `forEach` adds exactly the leaf paths of the elements, keyed by index, to the keys |
| Flattening.ItemIntoKeys | src/test/index.ts:225-229 | one element adds exactly its own leaf paths to the keys |
| Flattening.IndexKeysDiffer | src/test/index.ts:228 | elements with different indices get different keys |
| Flattening.LeafItems | src/test/index.ts:224-230 | the `forEach` over an array of leaves puts element `i` under `key.i`, for every `i`, in index order, and nothing else |
| Flattening.LeafArrayFlattened | src/test/index.ts:210-237 | a member holding an array of leaves flattens to exactly `key.0`, `key.1`, … holding the elements in order |
| Flattening.NestedUnder | src/test/index.ts:216 | a path below `prefix.key` lies below `prefix.` |
| Flattening.FlattenObject | src/test/index.ts:210-237 | the in-place construction throws "obj.hasOwnProperty is not a function" exactly when an object it reaches has its own "hasOwnProperty" key, and otherwise gives exactly the flattened record |
| Flattening.FlattenMember | src/test/index.ts:216-233 | one loop iteration throws exactly when the member's value reaches an object that shadows `hasOwnProperty`, and otherwise adds exactly what the specification adds for that member |
| Flattening.FlattenItemsInto | src/test/index.ts:224-230 | the `forEach` over an array throws exactly when an element reaches an object that shadows `hasOwnProperty`, and otherwise adds exactly what the specification adds |
| Flattening.ShadowingMember | src/test/index.ts:213-221 | a member whose flattening throws makes the flattening of its container throw |
| Flattening.NoShadowStep | src/test/index.ts:213-221 | one more member that does not throw keeps "no member so far throws" |
| Flattening.NoShadowingMember | src/test/index.ts:213-214 | a container with no own "hasOwnProperty" key and no throwing member flattens without throwing |
| Flattening.NestedObjectExample | src/test/index.ts:207-208 | {a: {b: 1}} flattens to {"a.b": 1} |
| Flattening.ArrayExample | src/test/index.ts:222-230 | the two-element array `[x, null]` at `k` flattens to `k.0` holding `x` and `k.1` holding null |
| Flattening.ArrayItems | src/test/index.ts:224-230 | the `forEach` over `[x, null]` at `k` yields `k.0` and `k.1` in that order |
| Flattening.ArrayFirstItem | src/test/index.ts:224-230 | the first element of an array at `k` is keyed `k.0` |
| Flattening.EmptyContainersVanish | src/test/index.ts:219-230 | empty objects and arrays contribute no key |
| Flattening.NullIsLeaf | src/test/index.ts:219-232 | a null member is kept under its own key, unless that key is "__proto__" |
| Flattening.ProtoLeafIgnored | src/test/index.ts:231-232 | a leaf member named "__proto__" sets the prototype instead of a key: {"__proto__": 1} flattens to an empty record |
| SampleCheck.DigitRunEnd | src/test/index.ts:244 | the digit run starting at a position ends at the first non-digit |
| SampleCheck.MidMatchAtStartIff | src/test/index.ts:244 | `\.\d+\.` matches at the start exactly when the string begins with a dot, one or more digits, and a dot |
| SampleCheck.ReplaceMidFixedIff | src/test/index.ts:244 | replacing middle indices changes nothing exactly when `\.\d+\.` does not match |
| SampleCheck.ReplaceTrailingIff | src/test/index.ts:244 | replacing a trailing index changes the key exactly when `\.\d+$` matches, and then the index becomes `._item` |
| SampleCheck.WildcardOfUnskipped | src/test/index.ts:169-186 | for a key without a middle index only the trailing replacement acts, and the wildcard equals the key exactly when there is no trailing index |
| SampleCheck.ReplaceMidAtIndex | src/test/index.ts:244 | a leading `.digits.` becomes `._item.` |
| SampleCheck.ReplaceMidOneIndex | src/test/index.ts:244 | `a.digits.b` with dot-free `a` and `b` becomes `a._item.b` |
| SampleCheck.MidIndexToWildcard | src/test/index.ts:243-245 | `a.digits.b` converts to `a._item.b` |
| SampleCheck.SettingsExample | src/test/index.ts:241 | "settings.0.value" converts to "settings._item.value" |
| SampleCheck.TrailingIndexToWildcard | src/test/index.ts:243-245 | `a.digits` with no middle index converts to `a._item` |
| SampleCheck.NoIndexUnchanged | src/test/index.ts:243-245 | a key with no dot followed by a digit is left unchanged |
| SampleCheck.ValidateTestDataAgainstCodec | src/test/index.ts:155-204 | the key loop reports exactly the errors of the specification function, including the single catch line when flattening throws, and the sample is valid exactly when there is no error |
| SampleCheck.KeyErrorsSpec | src/test/index.ts:162-191 | a key's message is reported exactly when the key occurs, is not skipped and neither it nor its wildcard is declared; every error is such a message, and none repeats |
| SampleCheck.SampleErrorsSpec | src/test/index.ts:155-196 | for a sample that flattens without throwing, a key of the flattened sample is reported exactly when it is not skipped and neither it nor its wildcard is a declared id; only such messages appear, each once |
| SampleCheck.SampleLeafPathsReported | src/test/index.ts:155-196 | for a sample that flattens without throwing, a key is reported exactly when it is the dotted path of a leaf of the sample, is not "__proto__", and is neither skipped nor declared |
| SampleCheck.ProtoLeafSampleValid | src/test/index.ts:155-196 | the sample {"__proto__": 1} is valid against any document, because the assignment leaves no key to check |
| SampleCheck.ShadowedHasOwnRejected | src/test/index.ts:197-203 | a sample in which an object at any depth has its own "hasOwnProperty" key yields the single error "验证测试数据失败: obj.hasOwnProperty is not a function" |
| SampleCheck.HasOwnPropertyCatchLine | src/test/index.ts:197-203 | the catch line for the shadowed `hasOwnProperty` reads "验证测试数据失败: obj.hasOwnProperty is not a function" |
| SampleCheck.NestedHasOwnExample | src/test/index.ts:197-214 | {"a": {"hasOwnProperty": 1}} is rejected with that catch line |
| SampleCheck.SkippedNeverReported | src/test/index.ts:163-177 | "frame", keys with a middle index and keys ending in ".reserve" are never reported, whether or not flattening throws |
| SampleCheck.TrailingIndexChecked | src/test/index.ts:169-186 | a key with only a trailing index is not skipped, and it is reported exactly when neither it nor `a._item` is declared |
| SampleCheck.EmptySampleValid | src/test/index.ts:193-196 | an empty sample yields no error |

## Left out

- Reading `codec.json` from disk, the missing-file error and `JSON.parse` are not modelled. The model starts from the parsed `object` array. The check that `object` is an array (src/test/index.ts:42-58 and 138-153) is left out with them.
- SampleCheck.SampleErrors: the `catch` of `validateTestDataAgainstCodec` is modelled for the exception that flattening raises, but not for `json.object.map(item => item.id)` (src/test/index.ts:156), which throws on a `null` entry that the model cannot represent (next line).
- Entries of the `object` array are records (`Types.CodecEntry`), so a `null`, primitive or array element of `object` cannot be represented. For a `null` element, `const { id } = item` (dist/test/fields/id.js:23) and `obj.id` (dist/test/fields/id.js:78) throw, and `validate` returns the single line "codec.json 验证失败: …"; what the checks make of a primitive or array element is not modelled either.
- The three rule tables are looked up by their own keys only. In the source a lookup such as `accessModeRules["constructor"]`, `["toString"]` or `["__proto__"]` finds an inherited member: a truthy non-array whose `.includes` is not a function, so the check throws (src/test/relationships/access-mode-validator.ts:17-27, src/test/relationships/data-type-validator.ts:17-19 and 37-39), except that a STRUCT point passes the access-mode check. The model reports an unknown access mode for such a key, and passes both data-type checks.
- The action's entry point (src/main.ts), which reads inputs and prints the report, is not part of this model.
- The BACnet unit table (`src/utils/bacnet-units`) is not part of this model. `UnitRelation.Validate` and the report functions take the table as a parameter.
- Numbers that are not integers keep only their text. Floating-point arithmetic is not modelled: integers are exact at any size, whereas the source rounds them to doubles and `JSON.parse` turns a literal beyond the double range, such as 1e400, into Infinity, for which `Number.isInteger` is false. Js.ToStr writes every digit of an integer, whereas `String` writes integers of 1e21 and above in exponent notation ("1e+21"). NaN cannot come out of `JSON.parse`.
- Strings are sequences of Unicode scalar values, so lone UTF-16 surrogates cannot be represented.
- `toLowerCase` is modelled for the letters A-Z only. Other scripts' case folding is not modelled.
- The texts of engine errors ("Cannot read properties of null", "is not iterable") follow the V8 wording but are not guaranteed to match it character for character.
- Flattening.Flatten: JavaScript enumerates integer-like keys of an object before the other keys. The model keeps properties in document order, so the order of flattened keys, and the order of error lines derived from them, may differ for objects with numeric keys.
- Inherited properties of the parsed input are not modelled: every property of a parsed JSON object is its own, as `JSON.parse` makes even "__proto__" an own property. The `hasOwnProperty` filter of `flattenObject` therefore never skips a key; only the case where an own "hasOwnProperty" key hides the method, and the call throws, is modelled (`Flattening.ShadowsHasOwn`). On the output side, the record that `flattenObject` builds is a plain object, and assigning its key "__proto__" goes to the inherited setter; that is modelled (`Flattening.SetMember`). The prototype it may set to null is not modelled, as nothing later reads it.
- Js.ToStr: converts every object to "[object Object]". In the source, converting an object that has its own "toString" property throws "Cannot convert object to primitive value": the own property hides the inherited method, no JSON value is callable, and the inherited `valueOf` returns the object itself. An array holding such an object throws the same way when it is joined. This conversion happens in the report line `${result.id}` (src/test/index.ts:65), in the rule-table lookups (src/test/relationships/access-mode-validator.ts:17, src/test/relationships/data-type-validator.ts:17 and 37), and in the messages at src/test/fields/value.ts:144 and 150, dist/test/fields/max-length.js:36 and 44, dist/test/fields/bacnet-unit-type-id.js:37 and 45, src/test/relationships/access-mode-validator.ts:20 and 31, src/test/relationships/data-type-validator.ts:23 and 43, src/test/relationships/unit-validator.ts:25, 33 and 41, and src/test/relationships/reference-validator.ts:25. For an entry with `"data_type": {"toString": 1}`, say, the source reports only "codec.json 验证失败: Cannot convert object to primitive value". The model writes the per-check lines instead, and passes both data-type relationship checks.
- SampleCheck.ValidateTestDataAgainstCodec: the `checkedKeys` set is not modelled. Flattened keys are distinct (`Flattening.Flatten`), so the set never skips a key.
- IdField.CountId: an array or object id is never `===` to another parsed value. The source's self-comparison would count the entry once, while the model counts nothing. Either way, such an id is never shared, so the verdict is the same.
- CodecValidator.ValidateCodecJson: the per-entry check list is passed to the report builder as a function value. Apart from that, the report loop is modelled on values and follows the source's branches, except for the string conversion described under Js.ToStr above.
