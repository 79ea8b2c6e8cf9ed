/**
 * The orchestrator of the codec.json check: every entry goes through the
 * same fixed list of 21 field and relationship checks, and every failure
 * becomes one line "<id>: <message>" of the report. An exception raised by
 * a check abandons the whole document with a single error line.
 *
 * Reading the file and parsing the JSON are not part of this model: the
 * document arrives as its already-parsed sequence of entries.
 */
module CodecValidator {
  import opened Text
  import opened Js
  import opened Types
  import IdField
  import DescriptionField
  import NameField
  import AccessModeField
  import DataTypeField
  import ValueTypeField
  import ValueField
  import MaxLengthField
  import UnitField
  import BacnetTypeField
  import BacnetUnitTypeIdField
  import BacnetUnitTypeField
  import ReferenceField
  import AccessModeRelation
  import DataTypeRelation
  import UnitRelation
  import ReferenceRelation
  import ValidationRules

  /** The number of checks each entry goes through. */
  const CheckCount := 21

  /** The first eight field checks: id, id uniqueness, description, name, access_mode, data_type, value_type, value. */
  function LeadingFieldChecks(item: CodecEntry, all: seq<CodecEntry>): (r: seq<ValidationResult>)
    ensures |r| == 8 && forall x | x in r :: WellFormed(x)
  {
    [
      IdField.Validate(item),
      IdField.ValidateUnique(item, all),
      DescriptionField.Validate(item),
      NameField.Validate(item),
      AccessModeField.Validate(item),
      DataTypeField.Validate(item),
      ValueTypeField.Validate(item),
      ValueField.Validate(item)
    ]
  }

  /** The field checks after `values`: max_length, unit, unit consistency, bacnet_type, unit type id, unit type, reference. */
  function TrailingFieldChecks(item: CodecEntry): (r: seq<ValidationResult>)
    ensures |r| == 7 && forall x | x in r :: WellFormed(x)
  {
    [
      MaxLengthField.Validate(item),
      UnitField.Validate(item),
      UnitField.ValidateUnitConsistency(item),
      BacnetTypeField.Validate(item),
      BacnetUnitTypeIdField.Validate(item),
      BacnetUnitTypeField.Validate(item),
      ReferenceField.Validate(item)
    ]
  }

  /** The relationship checks that cannot throw: access mode, the two data-type rules, the unit table. */
  function RelationChecks(item: CodecEntry, units: seq<BacnetUnitDef>): (r: seq<ValidationResult>)
    ensures |r| == 4 && forall x | x in r :: WellFormed(x)
  {
    [
      AccessModeRelation.Validate(item),
      DataTypeRelation.ValidateBacnetType(item),
      DataTypeRelation.ValidateValueType(item),
      UnitRelation.Validate(item, units)
    ]
  }

  /**
   * The 21 results in their fixed order. Building the list evaluates every
   * check, so an exception from `validateValues` (the ninth) or from the
   * reference relationship (the last) escapes.
   */
  function Checks(item: CodecEntry, all: seq<CodecEntry>, units: seq<BacnetUnitDef>): (r: Completion<seq<ValidationResult>>)
    ensures r.Throw? <==> ValueField.ValidateValues(item).Throw? || ReferenceRelation.Validate(item, all).Throw?
    ensures ValueField.ValidateValues(item).Throw? ==> r == Throw(ValueField.ValidateValues(item).error)
    ensures r.Normal? ==> |r.value| == CheckCount && forall x | x in r.value :: WellFormed(x)
  {
    match ValueField.ValidateValues(item)
    case Throw(e) => Throw(e)
    case Normal(values) =>
      match ReferenceRelation.Validate(item, all)
      case Throw(e) => Throw(e)
      case Normal(references) =>
        Normal(LeadingFieldChecks(item, all) + [values] + TrailingFieldChecks(item)
               + RelationChecks(item, units) + [references])
  }

  /** `{ ...result, severity: 'error' }` for every result. */
  function TagErrors(rs: seq<ValidationResult>): (r: seq<ValidationResult>)
    ensures |r| == |rs|
    ensures forall k | 0 <= k < |rs| :: r[k] == rs[k].(severity := Some(Error))
  {
    if rs == [] then [] else [rs[0].(severity := Some(Error))] + TagErrors(rs[1..])
  }

  /** `results.filter(result => !result.valid)`. */
  function FailedOnly(rs: seq<ValidationResult>): (r: seq<ValidationResult>)
    ensures |r| <= |rs|
    ensures forall x :: x in r <==> x in rs && !x.valid
  {
    if rs == [] then []
    else if !rs[0].valid then [rs[0]] + FailedOnly(rs[1..])
    else FailedOnly(rs[1..])
  }

  /** The filter keeps the relative order: filtering a concatenation concatenates the filtered parts. */
  lemma {:induction false} FailedOnlyConcat(a: seq<ValidationResult>, b: seq<ValidationResult>)
    ensures FailedOnly(a + b) == FailedOnly(a) + FailedOnly(b)
  {
    if a == [] {
      assert a + b == b;
    } else {
      assert (a + b)[0] == a[0];
      assert (a + b)[1..] == a[1..] + b;
      FailedOnlyConcat(a[1..], b);
    }
  }

  /** The failing results among `cs`, tagged as errors, in their original order. */
  function Failures(cs: seq<ValidationResult>): (r: seq<ValidationResult>)
    requires forall x | x in cs :: WellFormed(x)
    ensures |r| <= |cs|
    ensures forall x | x in r :: !x.valid && x.severity == Some(Error) && x.message.Some? && x.message.value != ""
    ensures r == [] <==> forall x | x in cs :: x.valid
  {
    var tagged := TagErrors(cs);
    assert forall x | x in tagged :: x.valid ==> x.message.None? by {
      forall x | x in tagged ensures x.valid ==> x.message.None? {
        var k :| 0 <= k < |tagged| && tagged[k] == x;
        assert cs[k] in cs && WellFormed(cs[k]);
      }
    }
    assert forall x | x in tagged :: !x.valid ==> x.message.Some? && x.message.value != "" && x.severity == Some(Error) by {
      forall x | x in tagged ensures !x.valid ==> x.message.Some? && x.message.value != "" && x.severity == Some(Error) {
        var k :| 0 <= k < |tagged| && tagged[k] == x;
        assert cs[k] in cs && WellFormed(cs[k]);
      }
    }
    var r := FailedOnly(tagged);
    assert r == [] <==> forall x | x in cs :: x.valid by {
      if r == [] {
        forall x | x in cs ensures x.valid {
          var k :| 0 <= k < |cs| && cs[k] == x;
          assert tagged[k] in tagged;
        }
      }
      if r != [] {
        assert r[0] in r;
        var k :| 0 <= k < |tagged| && tagged[k] == r[0];
        assert cs[k] in cs;
      }
    }
    r
  }

  /** `validateItem`: the failing checks of one entry, in check order, tagged as errors. */
  function ValidateItem(item: CodecEntry, all: seq<CodecEntry>, units: seq<BacnetUnitDef>): (r: Completion<seq<ValidationResult>>)
    ensures r.Throw? <==> Checks(item, all, units).Throw?
    ensures r.Normal? ==> forall x | x in r.value ::
      !x.valid && x.severity == Some(Error) && x.message.Some? && x.message.value != ""
    ensures r.Normal? ==> |r.value| <= CheckCount
    ensures r == Normal([]) <==> Checks(item, all, units).Normal? && forall x | x in Checks(item, all, units).value :: x.valid
  {
    match Checks(item, all, units)
    case Throw(e) => Throw(e)
    case Normal(cs) => Normal(Failures(cs))
  }

  /** Tagging works result by result, so it distributes over concatenation. */
  lemma TagErrorsConcat(a: seq<ValidationResult>, b: seq<ValidationResult>)
    ensures TagErrors(a + b) == TagErrors(a) + TagErrors(b)
  {
    assert forall k | 0 <= k < |a + b| :: (a + b)[k] == if k < |a| then a[k] else b[k - |a|];
  }

  /** The kept results are exactly the failing checks, tagged as errors. */
  lemma FailuresMembers(cs: seq<ValidationResult>)
    requires forall x | x in cs :: WellFormed(x)
    ensures forall x :: x in Failures(cs) <==>
      exists k | 0 <= k < |cs| :: !cs[k].valid && x == cs[k].(severity := Some(Error))
  {
    var tagged := TagErrors(cs);
    assert Failures(cs) == FailedOnly(tagged);
    forall x ensures x in tagged <==> exists k | 0 <= k < |cs| :: x == cs[k].(severity := Some(Error)) {
      if x in tagged {
        var k :| 0 <= k < |tagged| && tagged[k] == x;
      }
    }
  }

  /**
   * The failures of a concatenation are those of each part, in order.
   * Together with `FailuresSingle` this fixes `Failures` completely: every
   * failing check, tagged, once, in check order.
   */
  lemma FailuresConcat(a: seq<ValidationResult>, b: seq<ValidationResult>)
    requires forall x | x in a :: WellFormed(x)
    requires forall x | x in b :: WellFormed(x)
    ensures forall x | x in a + b :: WellFormed(x)
    ensures Failures(a + b) == Failures(a) + Failures(b)
  {
    TagErrorsConcat(a, b);
    FailedOnlyConcat(TagErrors(a), TagErrors(b));
  }

  /** A single check contributes itself, tagged, when it fails, and nothing when it passes. */
  lemma FailuresSingle(x: ValidationResult)
    requires WellFormed(x)
    ensures Failures([x]) == if x.valid then [] else [x.(severity := Some(Error))]
  {
    assert TagErrors([x]) == [x.(severity := Some(Error))];
  }

  /** `validateItem` keeps exactly the failing checks of the entry, tagged as errors. */
  lemma ValidateItemMembers(item: CodecEntry, all: seq<CodecEntry>, units: seq<BacnetUnitDef>)
    ensures ValidateItem(item, all, units).Normal? ==>
      forall x :: x in ValidateItem(item, all, units).value <==>
        exists k | 0 <= k < CheckCount ::
          !Checks(item, all, units).value[k].valid && x == Checks(item, all, units).value[k].(severity := Some(Error))
  {
    if Checks(item, all, units).Normal? {
      FailuresMembers(Checks(item, all, units).value);
    }
  }

  /**
   * The failures of `validateItem` come in check order: those of the first
   * eight field checks, then of `values`, of the seven later field checks,
   * of the four relationship checks, and last of the reference relationship.
   */
  lemma ValidateItemInCheckOrder(item: CodecEntry, all: seq<CodecEntry>, units: seq<BacnetUnitDef>)
    ensures ValidateItem(item, all, units).Normal? ==>
      && ValueField.ValidateValues(item).Normal?
      && ReferenceRelation.Validate(item, all).Normal?
      && ValidateItem(item, all, units).value ==
           Failures(LeadingFieldChecks(item, all))
           + Failures([ValueField.ValidateValues(item).value])
           + Failures(TrailingFieldChecks(item))
           + Failures(RelationChecks(item, units))
           + Failures([ReferenceRelation.Validate(item, all).value])
  {
    if Checks(item, all, units).Normal? {
      var leading := LeadingFieldChecks(item, all);
      var values := [ValueField.ValidateValues(item).value];
      var trailing := TrailingFieldChecks(item);
      var relations := RelationChecks(item, units);
      var references := [ReferenceRelation.Validate(item, all).value];
      FailuresConcat(leading, values);
      FailuresConcat(leading + values, trailing);
      FailuresConcat(leading + values + trailing, relations);
      FailuresConcat(leading + values + trailing + relations, references);
    }
  }

  /**
   * What a clean entry is known to satisfy: a well-formed id that no other
   * entry shares, a listed object type its access mode admits (unless the
   * value type is STRUCT), a listed data type, acceptable `values`, and
   * references that all name entries of the document.
   */
  lemma CleanEntryFacts(item: CodecEntry, all: seq<CodecEntry>, units: seq<BacnetUnitDef>)
    requires ValidateItem(item, all, units) == Normal([])
    ensures item.id.Str? && IdField.WellFormedId(item.id.s)
    ensures !IdField.SharedId(all, item.id)
    ensures Includes(BacnetTypeField.ValidBacnetTypes, item.bacnetType)
    ensures Includes(DataTypeField.ValidDataTypes, item.dataType)
    ensures Includes(AccessModeField.ValidAccessModes, item.accessMode)
    ensures ToStr(item.accessMode) in ValidationRules.AccessModeRules
    ensures item.valueType != Str("STRUCT") ==>
      Includes(ValidationRules.AccessModeRules[ToStr(item.accessMode)], item.bacnetType)
    ensures ValueField.ValuesAcceptable(item)
    ensures item.reference.Arr? ==>
      forall k | 0 <= k < |item.reference.items| :: ReferenceRelation.IdExists(all, item.reference.items[k])
  {
    CleanEntryChecks(item, all, units);
  }

  /** The checks `CleanEntryFacts` draws on all passed for a clean entry. */
  lemma CleanEntryChecks(item: CodecEntry, all: seq<CodecEntry>, units: seq<BacnetUnitDef>)
    requires ValidateItem(item, all, units) == Normal([])
    ensures IdField.Validate(item).valid && IdField.ValidateUnique(item, all).valid
    ensures AccessModeField.Validate(item).valid && DataTypeField.Validate(item).valid
    ensures BacnetTypeField.Validate(item).valid && AccessModeRelation.Validate(item).valid
    ensures ValueField.ValidateValues(item) == Normal(Passed())
    ensures ReferenceRelation.Validate(item, all) == Normal(Passed())
  {
    var leading := LeadingFieldChecks(item, all);
    assert IdField.Validate(item) in leading;
    assert IdField.ValidateUnique(item, all) in leading;
    assert AccessModeField.Validate(item) in leading;
    assert DataTypeField.Validate(item) in leading;
    assert BacnetTypeField.Validate(item) in TrailingFieldChecks(item);
    assert AccessModeRelation.Validate(item) in RelationChecks(item, units);
  }

  // ---------------------------------------------------------------------
  // The report

  /** What checking one entry produced: its failing results, or the exception a check raised. */
  type Outcome = Completion<seq<ValidationResult>>

  datatype Report = Report(valid: bool, errors: seq<string>, warnings: seq<string>)

  /** The two lists the loop appends to. */
  datatype Collected = Collected(errors: seq<string>, warnings: seq<string>)

  /** `${result.id}: ${result.message}`. */
  function Line(r: ValidationResult): string
    requires r.message.Some?
  {
    ToStr(r.id) + ": " + r.message.value
  }

  /** One pass of the inner loop: a result with a message goes to the list its severity selects. */
  function Push(acc: Collected, r: ValidationResult): Collected {
    if r.message.Some? && r.message.value != "" then
      if r.severity == Some(Error) then acc.(errors := acc.errors + [Line(r)])
      else acc.(warnings := acc.warnings + [Line(r)])
    else acc
  }

  /** The inner loop over the first `j` results of one entry. */
  function PushAll(acc: Collected, rs: seq<ValidationResult>, j: nat): Collected
    requires j <= |rs|
  {
    if j == 0 then acc else Push(PushAll(acc, rs, j - 1), rs[j - 1])
  }

  /** The outer loop over the first `n` entries, or the exception that ended it. */
  function CollectUpTo(entries: seq<CodecEntry>, check: CodecEntry -> Outcome, n: nat): Completion<Collected>
    requires n <= |entries|
  {
    if n == 0 then Normal(Collected([], []))
    else match CollectUpTo(entries, check, n - 1)
      case Throw(e) => Throw(e)
      case Normal(acc) =>
        match check(entries[n - 1])
        case Throw(e) => Throw(e)
        case Normal(rs) => Normal(PushAll(acc, rs, |rs|))
  }

  /** What the catch clause reports. */
  function CatchLine(e: JsError): string {
    "codec.json 验证失败: " + e.Message()
  }

  /** The report for a document whose entries are checked by `check`. */
  function ReportFrom(entries: seq<CodecEntry>, check: CodecEntry -> Outcome): (r: Report)
    ensures r.valid <==> r.errors == []
  {
    match CollectUpTo(entries, check, |entries|)
    case Throw(e) => Report(false, [CatchLine(e)], [])
    case Normal(c) => Report(|c.errors| == 0, c.errors, c.warnings)
  }

  /** Once an entry throws, the exception is what the whole loop ends with. */
  lemma {:induction false} ThrowPersists(entries: seq<CodecEntry>, check: CodecEntry -> Outcome, i: nat, n: nat)
    requires i <= n <= |entries|
    requires CollectUpTo(entries, check, i).Throw?
    ensures CollectUpTo(entries, check, n) == CollectUpTo(entries, check, i)
    decreases n - i
  {
    if i < n {
      ThrowPersists(entries, check, i, n - 1);
    }
  }

  /** The aggregation loop of `validateCodecJson`, for any per-entry check. */
  method CollectReport(entries: seq<CodecEntry>, check: CodecEntry -> Outcome) returns (report: Report)
    ensures report == ReportFrom(entries, check)
  {
    var errors: seq<string> := [];
    var warnings: seq<string> := [];
    var i := 0;
    while i < |entries|
      invariant 0 <= i <= |entries|
      invariant CollectUpTo(entries, check, i) == Normal(Collected(errors, warnings))
    {
      var outcome := check(entries[i]);
      if outcome.Throw? {
        ThrowPersists(entries, check, i + 1, |entries|);
        return Report(false, [CatchLine(outcome.error)], []);
      }
      var results := outcome.value;
      ghost var before := Collected(errors, warnings);
      var j := 0;
      while j < |results|
        invariant 0 <= j <= |results|
        invariant Collected(errors, warnings) == PushAll(before, results, j)
      {
        var result := results[j];
        if result.message.Some? && result.message.value != "" {
          var msg := ToStr(result.id) + ": " + result.message.value;
          if result.severity == Some(Error) {
            errors := errors + [msg];
          } else {
            warnings := warnings + [msg];
          }
        }
        j := j + 1;
      }
      i := i + 1;
    }
    report := Report(|errors| == 0, errors, warnings);
  }

  /** Every result of a normal outcome is a tagged error with a message. */
  predicate TaggedFailures(o: Outcome) {
    o.Normal? ==> forall x | x in o.value :: x.severity == Some(Error) && x.message.Some? && x.message.value != ""
  }

  /** Tagged failures each add one error line and no warning. */
  lemma {:induction false} PushAllTagged(acc: Collected, rs: seq<ValidationResult>, j: nat)
    requires j <= |rs|
    requires TaggedFailures(Normal(rs))
    ensures PushAll(acc, rs, j).warnings == acc.warnings
    ensures |PushAll(acc, rs, j).errors| == |acc.errors| + j
  {
    if j > 0 {
      PushAllTagged(acc, rs, j - 1);
      assert rs[j - 1] in rs;
    }
  }

  /**
   * With a check whose failures are all tagged errors, the loop collects no
   * warning, and no error exactly when every entry yields no failure.
   */
  lemma {:induction false} CollectTagged(entries: seq<CodecEntry>, check: CodecEntry -> Outcome, n: nat)
    requires n <= |entries|
    requires forall item :: TaggedFailures(check(item))
    ensures CollectUpTo(entries, check, n).Normal? ==> CollectUpTo(entries, check, n).value.warnings == []
    ensures CollectUpTo(entries, check, n) == Normal(Collected([], [])) <==>
      forall k | 0 <= k < n :: check(entries[k]) == Normal([])
  {
    if n > 0 {
      CollectTagged(entries, check, n - 1);
      var o := check(entries[n - 1]);
      assert TaggedFailures(o);
      if CollectUpTo(entries, check, n - 1).Normal? && o.Normal? {
        PushAllTagged(CollectUpTo(entries, check, n - 1).value, o.value, |o.value|);
      }
    }
  }

  /** The lines `result.id: result.message` of the results, in their order. */
  function Lines(rs: seq<ValidationResult>): (ls: seq<string>)
    requires forall x | x in rs :: x.message.Some?
    ensures |ls| == |rs|
    ensures forall k | 0 <= k < |rs| :: ls[k] == Line(rs[k])
  {
    if rs == [] then [] else Lines(rs[..|rs| - 1]) + [Line(rs[|rs| - 1])]
  }

  /** Tagged failures go, one line each and in order, to the end of the errors list. */
  lemma {:induction false} PushAllLines(acc: Collected, rs: seq<ValidationResult>, j: nat)
    requires j <= |rs|
    requires TaggedFailures(Normal(rs))
    ensures PushAll(acc, rs, j) == Collected(acc.errors + Lines(rs[..j]), acc.warnings)
  {
    if j > 0 {
      PushAllLines(acc, rs, j - 1);
      assert rs[..j][..j - 1] == rs[..j - 1];
      assert rs[j - 1] in rs;
    }
  }

  /** The lines of the first `n` entries' failures, entry by entry. */
  function CheckLines(entries: seq<CodecEntry>, check: CodecEntry -> Outcome, n: nat): seq<string>
    requires n <= |entries|
    requires forall k | 0 <= k < n :: check(entries[k]).Normal? && TaggedFailures(check(entries[k]))
  {
    if n == 0 then []
    else
      var o := check(entries[n - 1]);
      assert TaggedFailures(o);
      CheckLines(entries, check, n - 1) + Lines(o.value)
  }

  /** When no entry throws, the loop collects exactly the lines of every failure, in document order. */
  lemma {:induction false} CollectLines(entries: seq<CodecEntry>, check: CodecEntry -> Outcome, n: nat)
    requires n <= |entries|
    requires forall k | 0 <= k < n :: check(entries[k]).Normal? && TaggedFailures(check(entries[k]))
    ensures CollectUpTo(entries, check, n) == Normal(Collected(CheckLines(entries, check, n), []))
  {
    if n > 0 {
      CollectLines(entries, check, n - 1);
      var rs := check(entries[n - 1]).value;
      PushAllLines(CollectUpTo(entries, check, n - 1).value, rs, |rs|);
      assert rs[..|rs|] == rs;
    }
  }

  /** The loop reaches entry `n` without an exception exactly when none of the first `n` entries throws. */
  lemma {:induction false} CollectNormalIff(entries: seq<CodecEntry>, check: CodecEntry -> Outcome, n: nat)
    requires n <= |entries|
    ensures CollectUpTo(entries, check, n).Normal? <==> forall k | 0 <= k < n :: check(entries[k]).Normal?
  {
    if n > 0 {
      CollectNormalIff(entries, check, n - 1);
    }
  }

  /** When entry `k` is the first to throw, the report is that exception's catch line alone. */
  lemma FirstThrowReported(entries: seq<CodecEntry>, check: CodecEntry -> Outcome, k: nat)
    requires k < |entries|
    requires forall j | 0 <= j < k :: check(entries[j]).Normal?
    requires check(entries[k]).Throw?
    ensures ReportFrom(entries, check) == Report(false, [CatchLine(check(entries[k]).error)], [])
  {
    CollectNormalIff(entries, check, k);
    ThrowPersists(entries, check, k + 1, |entries|);
  }

  // ---------------------------------------------------------------------
  // validateCodecJson

  /** `item => this.validateItem(item, json.object)`. */
  function ItemCheck(all: seq<CodecEntry>, units: seq<BacnetUnitDef>): CodecEntry -> Outcome {
    item => ValidateItem(item, all, units)
  }

  /** The report `validateCodecJson` returns for a parsed document. */
  function ReportOf(entries: seq<CodecEntry>, units: seq<BacnetUnitDef>): Report {
    ReportFrom(entries, ItemCheck(entries, units))
  }

  /** `validateCodecJson` from the parsed entries on. */
  method ValidateCodecJson(entries: seq<CodecEntry>, units: seq<BacnetUnitDef>) returns (report: Report)
    ensures report == ReportOf(entries, units)
  {
    report := CollectReport(entries, ItemCheck(entries, units));
  }

  lemma ItemCheckTagged(all: seq<CodecEntry>, units: seq<BacnetUnitDef>)
    ensures forall item :: TaggedFailures(ItemCheck(all, units)(item))
  {
    forall item ensures TaggedFailures(ItemCheck(all, units)(item)) {
      var o := ValidateItem(item, all, units);
      assert ItemCheck(all, units)(item) == o;
    }
  }

  /** Checking one entry is `validateItem`, whose failures are tagged errors. */
  lemma ItemCheckAt(all: seq<CodecEntry>, units: seq<BacnetUnitDef>, item: CodecEntry)
    ensures ItemCheck(all, units)(item) == ValidateItem(item, all, units)
    ensures TaggedFailures(ItemCheck(all, units)(item))
  {
  }

  /** Checking each entry of a document none of whose entries throws gives tagged failures. */
  lemma EntriesChecked(entries: seq<CodecEntry>, units: seq<BacnetUnitDef>)
    requires forall k | 0 <= k < |entries| :: ValidateItem(entries[k], entries, units).Normal?
    ensures forall k | 0 <= k < |entries| :: ItemCheck(entries, units)(entries[k]) == ValidateItem(entries[k], entries, units)
    ensures forall k | 0 <= k < |entries| ::
      ItemCheck(entries, units)(entries[k]).Normal? && TaggedFailures(ItemCheck(entries, units)(entries[k]))
  {
    forall k | 0 <= k < |entries|
      ensures ItemCheck(entries, units)(entries[k]) == ValidateItem(entries[k], entries, units)
      ensures TaggedFailures(ItemCheck(entries, units)(entries[k]))
    {
      ItemCheckAt(entries, units, entries[k]);
    }
  }

  /**
   * Every check is tagged 'error', so the warnings list always comes back
   * empty; and the document passes exactly when no entry has a failing check
   * (an exception counts as a failure).
   */
  lemma ReportOfFacts(entries: seq<CodecEntry>, units: seq<BacnetUnitDef>)
    ensures ReportOf(entries, units).warnings == []
    ensures ReportOf(entries, units).valid <==>
      forall k | 0 <= k < |entries| :: ValidateItem(entries[k], entries, units) == Normal([])
  {
    var check := ItemCheck(entries, units);
    ItemCheckTagged(entries, units);
    CollectTagged(entries, check, |entries|);
    assert forall k | 0 <= k < |entries| :: check(entries[k]) == ValidateItem(entries[k], entries, units);
  }

  /**
   * When no entry throws, the errors of the report are the lines
   * `id: message` of every failing check, entry by entry in document order
   * and, within an entry, in check order.
   */
  lemma ReportLines(entries: seq<CodecEntry>, units: seq<BacnetUnitDef>)
    requires forall k | 0 <= k < |entries| :: ValidateItem(entries[k], entries, units).Normal?
    ensures forall k | 0 <= k < |entries| :: ItemCheck(entries, units)(entries[k]) == ValidateItem(entries[k], entries, units)
    ensures ReportOf(entries, units).errors == CheckLines(entries, ItemCheck(entries, units), |entries|)
    ensures ReportOf(entries, units).warnings == []
  {
    EntriesChecked(entries, units);
    CollectLines(entries, ItemCheck(entries, units), |entries|);
  }

  /** When entry `k` is the first to throw, the report is the single line `codec.json 验证失败: …`. */
  lemma ReportOnThrow(entries: seq<CodecEntry>, units: seq<BacnetUnitDef>, k: nat)
    requires k < |entries|
    requires forall j | 0 <= j < k :: ValidateItem(entries[j], entries, units).Normal?
    requires ValidateItem(entries[k], entries, units).Throw?
    ensures ReportOf(entries, units) ==
      Report(false, [CatchLine(ValidateItem(entries[k], entries, units).error)], [])
  {
    var check := ItemCheck(entries, units);
    assert forall j | 0 <= j <= k :: check(entries[j]) == ValidateItem(entries[j], entries, units);
    FirstThrowReported(entries, check, k);
  }

  /** A passing document has pairwise distinct ids and no dangling reference. */
  lemma ValidDocumentIntegrity(entries: seq<CodecEntry>, units: seq<BacnetUnitDef>)
    requires ReportOf(entries, units).valid
    ensures forall i, j | 0 <= i < j < |entries| :: entries[i].id != entries[j].id
    ensures forall i | 0 <= i < |entries| :: entries[i].reference.Arr? ==>
      forall k | 0 <= k < |entries[i].reference.items| ::
        ReferenceRelation.IdExists(entries, entries[i].reference.items[k])
  {
    ReportOfFacts(entries, units);
    forall i | 0 <= i < |entries|
      ensures entries[i].id.Str? && !IdField.SharedId(entries, entries[i].id)
      ensures entries[i].reference.Arr? ==>
        forall k | 0 <= k < |entries[i].reference.items| ::
          ReferenceRelation.IdExists(entries, entries[i].reference.items[k])
    {
      CleanEntryFacts(entries[i], entries, units);
    }
    forall i, j | 0 <= i < j < |entries| ensures entries[i].id != entries[j].id {
      if entries[i].id == entries[j].id {
        IdField.SameStringIdShared(entries, i, j);
      }
    }
  }

  /** A document with no entries passes. */
  lemma EmptyDocumentPasses(units: seq<BacnetUnitDef>)
    ensures ReportOf([], units) == Report(true, [], [])
  {
  }
}
