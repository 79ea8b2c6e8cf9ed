/**
 * The `id` field: required, a lower-case string of at most 127 UTF-8 bytes
 * with no numeric path segment, and unique within the document.
 */
module IdField {
  import opened Text
  import opened Js
  import opened Types

  const MaxIdBytes := 127

  function NotLowerCaseMessage(id: string): string {
    "id 必须是小写格式: " + id
  }

  function ArrayFormatMessage(id: string): string {
    "id 不支持数组格式（不能包含数字索引）: " + id
  }

  function DuplicateMessage(n: nat): string {
    "id 重复出现 " + NatToDecimal(n) + " 次"
  }

  /** The regular expression `\.\d+\.|\.\d+$`. */
  predicate HasNumericSegment(s: string) {
    HasMidIndex(s) || HasTrailingIndex(s)
  }

  /** An id of the accepted form, stated on the string alone. */
  predicate WellFormedId(s: string) {
    s != "" && Utf8Len(s) <= MaxIdBytes && HasNoUpper(s) && !HasNumericSegment(s)
  }

  function Validate(item: CodecEntry): (r: ValidationResult)
    ensures WellFormed(r)
    ensures r.valid <==> item.id.Str? && WellFormedId(item.id.s)
    ensures !Truthy(item.id) ==> r == Failed(Str("unknown"), RequiredMessage("id"))
    ensures Truthy(item.id) && !r.valid ==> r.id == item.id
    ensures Truthy(item.id) && !item.id.Str? ==> r.message == Some(TypeMessage("id", item.id))
    ensures item.id.Str? && Utf8Len(item.id.s) > MaxIdBytes ==>
      r.message == Some(TooLongMessage("id", MaxIdBytes, Utf8Len(item.id.s)))
    ensures item.id.Str? && item.id.s != "" && Utf8Len(item.id.s) <= MaxIdBytes && !HasNoUpper(item.id.s) ==>
      r.message == Some(NotLowerCaseMessage(item.id.s))
    ensures item.id.Str? && item.id.s != "" && Utf8Len(item.id.s) <= MaxIdBytes && HasNoUpper(item.id.s)
            && HasNumericSegment(item.id.s) ==>
      r.message == Some(ArrayFormatMessage(item.id.s))
  {
    var id := item.id;
    if !Truthy(id) then Failed(Str("unknown"), RequiredMessage("id"))
    else if !id.Str? then Failed(id, TypeMessage("id", id))
    else if Utf8Len(id.s) > MaxIdBytes then Failed(id, TooLongMessage("id", MaxIdBytes, Utf8Len(id.s)))
    else if id.s != AsciiLower(id.s) then
      LowerFixedIffNoUpper(id.s);
      Failed(id, NotLowerCaseMessage(id.s))
    else if HasMidIndex(id.s) || HasTrailingIndex(id.s) then
      LowerFixedIffNoUpper(id.s);
      Failed(id, ArrayFormatMessage(id.s))
    else
      LowerFixedIffNoUpper(id.s);
      Passed()
  }

  /** How many entries of `all` have an id strictly equal to `id`: `allItems.filter(obj => obj.id === id).length`. */
  function CountId(all: seq<CodecEntry>, id: JsVal): (n: nat)
    ensures n <= |all|
  {
    if all == [] then 0
    else (if StrictEq(all[0].id, id) then 1 else 0) + CountId(all[1..], id)
  }

  /** Two different positions of `all` carry ids strictly equal to `id`. */
  predicate SharedId(all: seq<CodecEntry>, id: JsVal) {
    exists i, j | 0 <= i < j < |all| :: StrictEq(all[i].id, id) && StrictEq(all[j].id, id)
  }

  lemma {:induction false} CountIdMoreThanOne(all: seq<CodecEntry>, id: JsVal)
    ensures CountId(all, id) > 1 <==> SharedId(all, id)
  {
    if all != [] {
      CountIdMoreThanOne(all[1..], id);
      CountIdPositive(all[1..], id);
      if SharedId(all, id) {
        var i, j :| 0 <= i < j < |all| && StrictEq(all[i].id, id) && StrictEq(all[j].id, id);
        if i > 0 {
          assert StrictEq(all[1..][i - 1].id, id) && StrictEq(all[1..][j - 1].id, id);
        } else {
          assert StrictEq(all[1..][j - 1].id, id);
        }
      }
      if CountId(all[1..], id) > 1 {
        var i, j :| 0 <= i < j < |all[1..]| && StrictEq(all[1..][i].id, id) && StrictEq(all[1..][j].id, id);
        assert StrictEq(all[i + 1].id, id) && StrictEq(all[j + 1].id, id);
      }
      if StrictEq(all[0].id, id) && CountId(all[1..], id) > 0 {
        var j :| 0 <= j < |all[1..]| && StrictEq(all[1..][j].id, id);
        assert StrictEq(all[j + 1].id, id);
      }
    }
  }

  lemma {:induction false} CountIdPositive(all: seq<CodecEntry>, id: JsVal)
    ensures CountId(all, id) > 0 <==> exists k | 0 <= k < |all| :: StrictEq(all[k].id, id)
  {
    if all != [] {
      CountIdPositive(all[1..], id);
      if exists k | 0 <= k < |all| :: StrictEq(all[k].id, id) {
        var k :| 0 <= k < |all| && StrictEq(all[k].id, id);
        if k > 0 {
          assert StrictEq(all[1..][k - 1].id, id);
        }
      }
      if CountId(all[1..], id) > 0 {
        var k :| 0 <= k < |all[1..]| && StrictEq(all[1..][k].id, id);
        assert StrictEq(all[k + 1].id, id);
      }
    }
  }

  /** Two positions holding the same string id make that id shared. */
  lemma SameStringIdShared(all: seq<CodecEntry>, i: nat, j: nat)
    requires i < j < |all| && all[i].id.Str? && all[j].id == all[i].id
    ensures SharedId(all, all[i].id)
  {
    assert StrictEq(all[i].id, all[i].id) && StrictEq(all[j].id, all[i].id);
  }

  function ValidateUnique(item: CodecEntry, all: seq<CodecEntry>): (r: ValidationResult)
    ensures WellFormed(r) && (!r.valid ==> r.id == item.id)
    ensures r.valid <==> !Truthy(item.id) || !SharedId(all, item.id)
    ensures !r.valid ==> r.message == Some(DuplicateMessage(CountId(all, item.id)))
  {
    CountIdMoreThanOne(all, item.id);
    if !Truthy(item.id) then Passed()
    else
      var n := CountId(all, item.id);
      if n > 1 then Failed(item.id, DuplicateMessage(n)) else Passed()
  }

  /** Three entries sharing one id are reported as "id 重复出现 3 次". */
  lemma TripleIdCounted(a: CodecEntry, b: CodecEntry, c: CodecEntry)
    requires a.id == Str("triple_id") && b.id == a.id && c.id == a.id
    ensures ValidateUnique(a, [a, b, c]) == Failed(a.id, DuplicateMessage(3))
  {
    assert [a, b, c][1..] == [b, c];
    assert [b, c][1..] == [c];
    assert CountId([c], a.id) == 1;
    assert CountId([a, b, c], a.id) == 3;
  }

  // ---------------------------------------------------------------------
  // Examples of the accepted and rejected forms

  /** A lower-case dotted id with no numeric segment passes. */
  lemma TemperaturePasses(item: CodecEntry, s: string)
    requires s == "temperature" && item.id == Str(s)
    ensures Validate(item).valid
  {
    TemperatureWellFormed(s);
  }

  lemma TemperatureWellFormed(s: string)
    requires s == "temperature"
    ensures WellFormedId(s)
  {
    assert IsAscii(s) && HasNoUpper(s);
    Utf8LenAscii(s);
    NoDotNoIndex(s);
  }

  /** An upper-case letter fails the lower-case check. */
  lemma UpperCaseRejected(item: CodecEntry, s: string)
    requires s == "Temperature" && item.id == Str(s)
    ensures Validate(item) == Failed(item.id, NotLowerCaseMessage(s))
  {
    UpperCaseShape(s);
  }

  lemma UpperCaseShape(s: string)
    requires s == "Temperature"
    ensures s != "" && Utf8Len(s) <= MaxIdBytes && !HasNoUpper(s)
  {
    assert IsAscii(s) && s[0] in s;
    Utf8LenAscii(s);
  }

  /** "data.0.value" has a middle numeric segment and fails. */
  lemma MidIndexRejected(item: CodecEntry, s: string)
    requires s == "data.0.value" && item.id == Str(s)
    ensures Validate(item) == Failed(item.id, ArrayFormatMessage(s))
  {
    MidIndexShape(s);
  }

  lemma MidIndexShape(s: string)
    requires s == "data.0.value"
    ensures s != "" && Utf8Len(s) <= MaxIdBytes && HasNoUpper(s) && HasMidIndex(s)
  {
    assert IsAscii(s) && HasNoUpper(s);
    Utf8LenAscii(s);
    assert s[4] == '.' && s[6] == '.' && DigitsBetween(s, 4, 6);
  }

  /** "sensor.1" ends in a numeric segment and fails. */
  lemma TrailingIndexRejected(item: CodecEntry, s: string)
    requires s == "sensor.1" && item.id == Str(s)
    ensures Validate(item) == Failed(item.id, ArrayFormatMessage(s))
  {
    TrailingIndexShape(s);
  }

  lemma TrailingIndexShape(s: string)
    requires s == "sensor.1"
    ensures s != "" && Utf8Len(s) <= MaxIdBytes && HasNoUpper(s) && HasTrailingIndex(s)
  {
    assert IsAscii(s) && HasNoUpper(s);
    Utf8LenAscii(s);
    assert s[6] == '.' && DigitsBetween(s, 6, |s|);
  }

  /** A lower-case letter, a digit or an underscore. */
  predicate SnakeChar(c: char) {
    'a' <= c <= 'z' || IsDigit(c) || c == '_'
  }

  /** Any non-empty snake_case name of at most 127 characters is accepted, digits included. */
  lemma SnakeCaseIdAccepted(item: CodecEntry)
    requires item.id.Str? && 0 < |item.id.s| <= MaxIdBytes
    requires forall c | c in item.id.s :: SnakeChar(c)
    ensures Validate(item).valid
  {
    var s := item.id.s;
    forall i | 0 <= i < |s| ensures s[i] as int < 0x80 {
      assert s[i] in s;
    }
    assert HasNoUpper(s) && '.' !in s;
    Utf8LenAscii(s);
    NoDotNoIndex(s);
  }

  /** "sensor01" and "value_2_temp" are accepted. */
  lemma DigitsInNamesAccepted(item: CodecEntry, s: string)
    requires s in {"sensor01", "value_2_temp"} && item.id == Str(s)
    ensures Validate(item).valid
  {
    assert forall c | c in s :: SnakeChar(c);
    SnakeCaseIdAccepted(item);
  }

  /** A leading numeric segment is not caught: the pattern needs a '.' before the digits. */
  lemma LeadingIndexAccepted(item: CodecEntry, s: string)
    requires s == "0.value" && item.id == Str(s)
    ensures Validate(item).valid
  {
    LeadingIndexWellFormed(s);
  }

  lemma LeadingIndexWellFormed(s: string)
    requires s == "0.value"
    ensures WellFormedId(s)
  {
    assert IsAscii(s) && HasNoUpper(s);
    Utf8LenAscii(s);
    SingleDotNoMidIndex(s, 1);
    NonDigitEndNoTrailingIndex(s);
  }
}
