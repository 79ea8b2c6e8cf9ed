/**
 * The sample-data check of `validateTestDataAgainstCodec`: every key of
 * the flattened sample document must be a declared codec.json id, either
 * as it stands or with its array indices turned into the wildcard segment
 * "_item" (`convertArrayIndexToWildcard`). Some keys are never checked:
 * "frame", keys with an index segment followed by '.' or by a final space,
 * and keys ending in ".reserve".
 */
module SampleCheck {
  import opened Text
  import opened Js
  import opened Types
  import opened Flattening

  // ---------------------------------------------------------------------
  // convertArrayIndexToWildcard

  /** The first position at or after `j` that does not hold a digit. */
  function DigitRunEnd(s: string, j: nat): (e: nat)
    requires j <= |s|
    ensures j <= e <= |s|
    ensures forall k | j <= k < e :: IsDigit(s[k])
    ensures e < |s| ==> !IsDigit(s[e])
    decreases |s| - j
  {
    if j < |s| && IsDigit(s[j]) then DigitRunEnd(s, j + 1) else j
  }

  /** The pattern `\.\d+\.` matches at the very start of `s`. */
  predicate MidMatchAtStart(s: string) {
    |s| > 0 && s[0] == '.' && 1 < DigitRunEnd(s, 1) < |s| && s[DigitRunEnd(s, 1)] == '.'
  }

  /**
   * `s.replace(/\.\d+\./g, '._item.')`: a left-to-right scan; a match
   * consumes both of its dots, so the next match starts after the second.
   */
  function ReplaceMid(s: string): string
    decreases |s|
  {
    if s == [] then []
    else if MidMatchAtStart(s) then "._item." + ReplaceMid(s[DigitRunEnd(s, 1) + 1..])
    else [s[0]] + ReplaceMid(s[1..])
  }

  /** Where the longest all-digit suffix of `s` starts. */
  function DigitSuffixStart(s: string): (b: nat)
    ensures b <= |s|
    ensures forall k | b <= k < |s| :: IsDigit(s[k])
    ensures b > 0 ==> !IsDigit(s[b - 1])
  {
    if s != [] && IsDigit(s[|s| - 1]) then DigitSuffixStart(s[..|s| - 1]) else |s|
  }

  /** `s.replace(/\.\d+$/g, '._item')`: the match, if any, is the last '.' and the digits after it. */
  function ReplaceTrailing(s: string): string {
    var b := DigitSuffixStart(s);
    if 0 < b < |s| && s[b - 1] == '.' then s[..b - 1] + "._item" else s
  }

  /** `convertArrayIndexToWildcard(key)`. */
  function Wildcard(key: string): string {
    ReplaceTrailing(ReplaceMid(key))
  }

  /** The start test of the scan agrees with the pattern at position 0. */
  lemma MidMatchAtStartIff(s: string)
    ensures MidMatchAtStart(s) <==>
      exists j | 1 < j < |s| :: s[0] == '.' && s[j] == '.' && DigitsBetween(s, 0, j)
  {
    if exists j | 1 < j < |s| :: s[0] == '.' && s[j] == '.' && DigitsBetween(s, 0, j) {
      var j :| 1 < j < |s| && s[0] == '.' && s[j] == '.' && DigitsBetween(s, 0, j);
      var e := DigitRunEnd(s, 1);
      assert !IsDigit(s[j]);
      assert e == j;
    }
    if MidMatchAtStart(s) {
      var e := DigitRunEnd(s, 1);
      assert DigitsBetween(s, 0, e);
    }
  }

  /** A pattern match in `s` that is not at 0 is a match in `s[1..]`, and back. */
  lemma HasMidIndexTail(s: string)
    requires s != [] && !MidMatchAtStart(s)
    ensures HasMidIndex(s) <==> HasMidIndex(s[1..])
  {
    MidMatchAtStartIff(s);
    var t := s[1..];
    if HasMidIndex(s) {
      var i, j :| 0 <= i && i + 1 < j < |s| && s[i] == '.' && s[j] == '.' && DigitsBetween(s, i, j);
      if i == 0 {
        assert false;
      }
      assert t[i - 1] == '.' && t[j - 1] == '.' && DigitsBetween(t, i - 1, j - 1) by {
        forall k | i - 1 < k < j - 1 ensures IsDigit(t[k]) {
          assert t[k] == s[k + 1];
        }
      }
    }
    if HasMidIndex(t) {
      var i, j :| 0 <= i && i + 1 < j < |t| && t[i] == '.' && t[j] == '.' && DigitsBetween(t, i, j);
      assert s[i + 1] == '.' && s[j + 1] == '.' && DigitsBetween(s, i + 1, j + 1) by {
        forall k | i + 1 < k < j + 1 ensures IsDigit(s[k]) {
          assert s[k] == t[k - 1];
        }
      }
    }
  }

  /** The first replacement leaves a key unchanged exactly when the pattern `\.\d+\.` does not match it. */
  lemma {:induction false} ReplaceMidFixedIff(s: string)
    ensures ReplaceMid(s) == s <==> !HasMidIndex(s)
    decreases |s|
  {
    if s != [] {
      if MidMatchAtStart(s) {
        MidMatchAtStartIff(s);
        var j :| 1 < j < |s| && s[0] == '.' && s[j] == '.' && DigitsBetween(s, 0, j);
        assert IsDigit(s[1]);
        assert ReplaceMid(s)[1] == '_';
      } else {
        HasMidIndexTail(s);
        ReplaceMidFixedIff(s[1..]);
        assert ReplaceMid(s) == [s[0]] + ReplaceMid(s[1..]);
        if ReplaceMid(s[1..]) != s[1..] {
          assert ReplaceMid(s)[1..] == ReplaceMid(s[1..]);
        }
      }
    }
  }

  /** The second replacement fires exactly when the pattern `\.\d+$` matches. */
  lemma ReplaceTrailingIff(s: string)
    ensures ReplaceTrailing(s) != s <==> HasTrailingIndex(s)
    ensures HasTrailingIndex(s) ==> ReplaceTrailing(s) == s[..DigitSuffixStart(s) - 1] + "._item"
  {
    var b := DigitSuffixStart(s);
    if HasTrailingIndex(s) {
      var i :| 0 <= i && i + 1 < |s| && s[i] == '.' && DigitsBetween(s, i, |s|);
      assert !IsDigit(s[i]);
      assert b == i + 1;
      assert ReplaceTrailing(s)[b] == '_';
      assert IsDigit(s[b]);
    }
    if 0 < b < |s| && s[b - 1] == '.' {
      assert DigitsBetween(s, b - 1, |s|);
    }
  }

  /** A key the mid-index filter lets through only has its trailing index replaced. */
  lemma WildcardOfUnskipped(key: string)
    requires !HasMidIndex(key)
    ensures Wildcard(key) == ReplaceTrailing(key)
    ensures Wildcard(key) == key <==> !HasTrailingIndex(key)
  {
    ReplaceMidFixedIff(key);
    assert ReplaceMid(key) == key;
    ReplaceTrailingIff(key);
  }

  /** The scan copies a prefix without '.' unchanged. */
  lemma {:induction false} ReplaceMidDotless(a: string, t: string)
    requires forall k | 0 <= k < |a| :: a[k] != '.'
    ensures ReplaceMid(a + t) == a + ReplaceMid(t)
  {
    if a == [] {
      assert a + t == t;
    } else {
      assert (a + t)[0] == a[0];
      assert !MidMatchAtStart(a + t);
      assert (a + t)[1..] == a[1..] + t;
      ReplaceMidDotless(a[1..], t);
      assert a == [a[0]] + a[1..];
    }
  }

  /** A leading ".<digits>." is one match of the scan. */
  lemma ReplaceMidAtIndex(d: string, b: string)
    requires d != [] && AllDigits(d)
    ensures ReplaceMid("." + d + "." + b) == "._item." + ReplaceMid(b)
  {
    var t := "." + d + "." + b;
    assert forall k | 1 <= k < 1 + |d| :: t[k] == d[k - 1];
    assert t[1 + |d|] == '.';
    forall k | 1 <= k < 1 + |d| ensures IsDigit(t[k]) {
      assert d[k - 1] in d;
    }
    assert DigitRunEnd(t, 1) == 1 + |d|;
    assert MidMatchAtStart(t);
    assert t[1 + |d| + 1..] == b;
  }

  /** One index segment between two dotless names is replaced by the scan. */
  lemma ReplaceMidOneIndex(a: string, d: string, b: string, key: string)
    requires forall k | 0 <= k < |a| :: a[k] != '.'
    requires forall k | 0 <= k < |b| :: b[k] != '.'
    requires d != [] && AllDigits(d)
    requires key == a + "." + d + "." + b
    ensures ReplaceMid(key) == a + "._item." + b
  {
    var t := "." + d + "." + b;
    var u := "._item." + b;
    assert ReplaceMid(b) == b by {
      ReplaceMidDotless(b, []);
      assert b + [] == b;
    }
    assert ReplaceMid(t) == u by {
      ReplaceMidAtIndex(d, b);
    }
    assert key == a + t;
    assert ReplaceMid(a + t) == a + u by {
      ReplaceMidDotless(a, t);
    }
    assert a + u == a + "._item." + b;
  }

  /** A key ending in a non-digit has no trailing index to replace. */
  lemma NonDigitEndUnchanged(s: string)
    requires s != [] && !IsDigit(s[|s| - 1])
    ensures ReplaceTrailing(s) == s
  {
    assert DigitSuffixStart(s) == |s|;
  }

  /** "settings.0.value" becomes "settings._item.value". */
  lemma MidIndexToWildcard(a: string, d: string, b: string)
    requires forall k | 0 <= k < |a| :: a[k] != '.'
    requires forall k | 0 <= k < |b| :: b[k] != '.'
    requires d != [] && AllDigits(d)
    requires b != [] && !IsDigit(b[|b| - 1])
    ensures Wildcard(a + "." + d + "." + b) == a + "._item." + b
  {
    ReplaceMidOneIndex(a, d, b, a + "." + d + "." + b);
    var r := a + "._item." + b;
    assert r[|r| - 1] == b[|b| - 1];
    NonDigitEndUnchanged(r);
  }

  lemma SettingsExample(key: string)
    requires key == "settings.0.value"
    ensures Wildcard(key) == "settings._item.value"
  {
    MidIndexToWildcard("settings", "0", "value");
    assert "settings" + "." + "0" + "." + "value" == key;
  }

  /** A trailing ".N" becomes "._item". */
  lemma TrailingIndexToWildcard(a: string, d: string)
    requires d != [] && AllDigits(d)
    requires !HasMidIndex(a + "." + d)
    ensures Wildcard(a + "." + d) == a + "._item"
  {
    var s := a + "." + d;
    WildcardOfUnskipped(s);
    assert s[|a|] == '.';
    assert DigitsBetween(s, |a|, |s|) by {
      forall k | |a| < k < |s| ensures IsDigit(s[k]) {
        assert s[k] == d[k - |a| - 1];
        assert d[k - |a| - 1] in d;
      }
    }
    assert HasTrailingIndex(s);
    ReplaceTrailingIff(s);
    assert !IsDigit(s[|a|]);
    assert DigitSuffixStart(s) == |a| + 1;
    assert s[..|a|] == a;
  }

  lemma EndsWithLast(s: string, suffix: string)
    ensures EndsWith(s, suffix) && suffix != [] ==> s[|s| - 1] == suffix[|suffix| - 1]
  {
    if EndsWith(s, suffix) && suffix != [] {
      assert s[|s| - |suffix|..][|suffix| - 1] == suffix[|suffix| - 1];
    }
  }

  /** No '.' is followed by a digit. */
  predicate NoDotDigit(s: string) {
    forall k | 0 <= k < |s| - 1 :: s[k] == '.' ==> !IsDigit(s[k + 1])
  }

  /** A key in which no '.' is followed by a digit is its own wildcard form. */
  lemma NoIndexUnchanged(s: string)
    requires NoDotDigit(s)
    ensures Wildcard(s) == s
  {
    forall i, j | 0 <= i && i + 1 < j <= |s| && s[i] == '.' ensures !DigitsBetween(s, i, j) {
      assert !IsDigit(s[i + 1]);
    }
    WildcardOfUnskipped(s);
  }

  // ---------------------------------------------------------------------
  // The key loop

  /** The keys the loop passes over without looking them up. */
  predicate Skipped(key: string) {
    key == "frame" || HasMidIndex(key) || HasTrailingIndexSpace(key) || EndsWith(key, ".reserve")
  }

  /** `definedIds.has(key)`: some entry's id is the string `key`. */
  predicate Declared(entries: seq<CodecEntry>, key: string) {
    exists k | 0 <= k < |entries| :: entries[k].id == Str(key)
  }

  /** A key the loop reports: not skipped, and neither it nor its wildcard form is declared. */
  predicate Reported(entries: seq<CodecEntry>, key: string) {
    !Skipped(key) && !Declared(entries, key) && !Declared(entries, Wildcard(key))
  }

  function UndefinedKeyMessage(key: string): string {
    "字段 \"" + key + "\" 在 codec.json 中未定义"
  }

  /** The errors of the first `n` iterations over the flattened record. */
  function KeyErrors(flat: seq<Prop>, entries: seq<CodecEntry>, n: nat): seq<string>
    requires n <= |flat|
  {
    if n == 0 then []
    else
      var key := flat[n - 1].key;
      var prev := KeyErrors(flat, entries, n - 1);
      if Reported(entries, key) then prev + [UndefinedKeyMessage(key)] else prev
  }

  const SampleCatchPrefix := "验证测试数据失败: "

  /** What the catch clause of `validateTestDataAgainstCodec` reports. */
  function SampleCatchLine(e: JsError): string {
    SampleCatchPrefix + e.Message()
  }

  /**
   * The errors `validateTestDataAgainstCodec` returns for a parsed sample
   * document: the catch line when flattening throws, the key errors otherwise.
   */
  function SampleErrors(data: seq<Prop>, entries: seq<CodecEntry>): seq<string> {
    if ShadowsHasOwn(Obj(data)) then [SampleCatchLine(HasOwnPropertyError)]
    else
      var flat := Flatten(Obj(data), "");
      KeyErrors(flat, entries, |flat|)
  }

  /** The loop of `validateTestDataAgainstCodec`, from the parsed documents on. */
  method ValidateTestDataAgainstCodec(data: seq<Prop>, entries: seq<CodecEntry>)
    returns (valid: bool, errors: seq<string>)
    ensures errors == SampleErrors(data, entries)
    ensures valid <==> errors == []
  {
    var definedIds := set k | 0 <= k < |entries| :: entries[k].id;
    var flattened := FlattenObject(Obj(data), "");
    if flattened.Throw? {
      return false, [SampleCatchLine(flattened.error)];
    }
    var flatData := flattened.value;
    errors := [];
    var i := 0;
    while i < |flatData|
      invariant 0 <= i <= |flatData|
      invariant errors == KeyErrors(flatData, entries, i)
    {
      var key := flatData[i].key;
      i := i + 1;
      if key == "frame" {
        continue;
      }
      if HasMidIndex(key) || HasTrailingIndexSpace(key) {
        continue;
      }
      if EndsWith(key, ".reserve") {
        continue;
      }
      var isValid := Str(key) in definedIds;
      if !isValid {
        var wildcardKey := Wildcard(key);
        isValid := Str(wildcardKey) in definedIds;
      }
      if !isValid {
        errors := errors + [UndefinedKeyMessage(key)];
      }
    }
    valid := |errors| == 0;
  }

  // ---------------------------------------------------------------------
  // Properties

  /** Error messages name their key unambiguously. */
  lemma UndefinedKeyMessageInjective(a: string, b: string)
    requires UndefinedKeyMessage(a) == UndefinedKeyMessage(b)
    ensures a == b
  {
    var pre := "字段 \"";
    assert UndefinedKeyMessage(a)[|pre|..|pre| + |a|] == a;
    assert UndefinedKeyMessage(b)[|pre|..|pre| + |b|] == b;
  }

  /** Index form of DistinctKeys. */
  lemma {:induction false} DistinctKeysIndexed(rec: seq<Prop>)
    requires DistinctKeys(rec)
    ensures forall i, j | 0 <= i < j < |rec| :: rec[i].key != rec[j].key
  {
    if rec != [] {
      DistinctKeysIndexed(rec[1..]);
      forall j | 0 < j < |rec| ensures rec[0].key != rec[j].key {
        assert rec[1..][j - 1] == rec[j];
      }
      forall i, j | 0 < i < j < |rec| ensures rec[i].key != rec[j].key {
        assert rec[1..][i - 1] == rec[i] && rec[1..][j - 1] == rec[j];
      }
    }
  }

  /**
   * A key of the record yields an error exactly when it is reported, and the
   * errors are the messages of distinct keys, each at most once.
   */
  lemma {:induction false} KeyErrorsSpec(flat: seq<Prop>, entries: seq<CodecEntry>, n: nat)
    requires n <= |flat|
    requires forall i, j | 0 <= i < j < |flat| :: flat[i].key != flat[j].key
    ensures forall key :: UndefinedKeyMessage(key) in KeyErrors(flat, entries, n) <==>
      exists k | 0 <= k < n :: flat[k].key == key && Reported(entries, key)
    ensures forall e | e in KeyErrors(flat, entries, n) :: exists key :: e == UndefinedKeyMessage(key)
    ensures forall i, j | 0 <= i < j < |KeyErrors(flat, entries, n)| ::
      KeyErrors(flat, entries, n)[i] != KeyErrors(flat, entries, n)[j]
  {
    if n > 0 {
      KeyErrorsSpec(flat, entries, n - 1);
      var prev := KeyErrors(flat, entries, n - 1);
      var key := flat[n - 1].key;
      forall k | 0 <= k < n - 1 ensures UndefinedKeyMessage(flat[k].key) != UndefinedKeyMessage(key) {
        if UndefinedKeyMessage(flat[k].key) == UndefinedKeyMessage(key) {
          UndefinedKeyMessageInjective(flat[k].key, key);
        }
      }
      forall other | UndefinedKeyMessage(other) == UndefinedKeyMessage(key) ensures other == key {
        UndefinedKeyMessageInjective(other, key);
      }
    }
  }

  /**
   * `validateTestDataAgainstCodec` reports a key exactly when it is a key of
   * the flattened sample, is not skipped, and neither the key nor its
   * wildcard form is a declared id; each such key once.
   */
  lemma SampleErrorsSpec(data: seq<Prop>, entries: seq<CodecEntry>)
    requires !ShadowsHasOwn(Obj(data))
    ensures forall key :: UndefinedKeyMessage(key) in SampleErrors(data, entries) <==>
      HasKey(Flatten(Obj(data), ""), key) && Reported(entries, key)
    ensures forall e | e in SampleErrors(data, entries) :: exists key :: e == UndefinedKeyMessage(key)
    ensures forall i, j | 0 <= i < j < |SampleErrors(data, entries)| ::
      SampleErrors(data, entries)[i] != SampleErrors(data, entries)[j]
  {
    var flat := Flatten(Obj(data), "");
    FlattenFacts(Obj(data), "");
    DistinctKeysIndexed(flat);
    KeyErrorsSpec(flat, entries, |flat|);
    forall key ensures HasKey(flat, key) <==> exists k | 0 <= k < |flat| :: flat[k].key == key {
      if HasKey(flat, key) {
        var k :| 0 <= k < |flat| && flat[k] == Prop(key, LookupProp(flat, key).value);
      }
    }
  }

  /**
   * The same in terms of the sample itself: a key is reported exactly when
   * it is the dotted path of a leaf of the sample, is not "__proto__", and
   * is neither skipped nor declared.
   */
  lemma SampleLeafPathsReported(data: seq<Prop>, entries: seq<CodecEntry>)
    requires !ShadowsHasOwn(Obj(data))
    ensures forall key :: UndefinedKeyMessage(key) in SampleErrors(data, entries) <==>
      LeafPath(Obj(data), "", key) && key != ProtoKey && Reported(entries, key)
  {
    SampleErrorsSpec(data, entries);
    FlattenKeys(Obj(data), "");
  }

  /** {"__proto__": 1} is valid against any document: the assignment sets no key that could be checked. */
  lemma ProtoLeafSampleValid(entries: seq<CodecEntry>)
    ensures SampleErrors([Prop(ProtoKey, Num(Int(1)))], entries) == []
  {
    var data := [Prop(ProtoKey, Num(Int(1)))];
    assert !HasKey(data, "hasOwnProperty");
    assert !ShadowsHasOwn(Obj(data));
    ProtoLeafIgnored([], Num(Int(1)));
  }

  /** "frame", keys with a middle index and keys ending in ".reserve" never produce an error. */
  lemma SkippedNeverReported(data: seq<Prop>, entries: seq<CodecEntry>, key: string)
    requires key == "frame" || HasMidIndex(key) || EndsWith(key, ".reserve")
    ensures UndefinedKeyMessage(key) !in SampleErrors(data, entries)
  {
    if ShadowsHasOwn(Obj(data)) {
      assert UndefinedKeyMessage(key)[0] != SampleCatchLine(HasOwnPropertyError)[0];
    } else {
      SampleErrorsSpec(data, entries);
    }
  }

  /**
   * A trailing index is not skipped (the pattern wants a space before the
   * end): "history.3" is checked, and passes when "history.3" or
   * "history._item" is declared.
   */
  lemma TrailingIndexChecked(entries: seq<CodecEntry>, a: string, d: string)
    requires d != [] && AllDigits(d)
    requires !HasMidIndex(a + "." + d)
    ensures !Skipped(a + "." + d)
    ensures Reported(entries, a + "." + d) <==>
      !Declared(entries, a + "." + d) && !Declared(entries, a + "._item")
  {
    var s := a + "." + d;
    TrailingIndexToWildcard(a, d);
    assert s[|s| - 1] == d[|d| - 1] && d[|d| - 1] in d;
    assert s != "frame" by {
      assert IsDigit(s[|s| - 1]);
    }
    assert !HasTrailingIndexSpace(s);
    EndsWithLast(s, ".reserve");
  }

  /**
   * A sample in which an object at any depth has its own "hasOwnProperty"
   * key is rejected with the single catch line, whatever else it holds.
   */
  lemma ShadowedHasOwnRejected(data: seq<Prop>, entries: seq<CodecEntry>)
    requires ShadowsHasOwn(Obj(data))
    ensures SampleErrors(data, entries) == [SampleCatchPrefix + "obj.hasOwnProperty is not a function"]
  {
    HasOwnPropertyCatchLine();
  }

  lemma HasOwnPropertyCatchLine()
    ensures SampleCatchLine(HasOwnPropertyError) == SampleCatchPrefix + "obj.hasOwnProperty is not a function"
  {
    assert HasOwnPropertyError.Message() == "obj.hasOwnProperty is not a function";
  }

  /** {"a": {"hasOwnProperty": 1}} is rejected although it has no other key. */
  lemma NestedHasOwnExample(entries: seq<CodecEntry>)
    ensures SampleErrors([Prop("a", Obj([Prop("hasOwnProperty", Num(Int(1)))]))], entries) ==
      [SampleCatchPrefix + "obj.hasOwnProperty is not a function"]
  {
    var inner := Obj([Prop("hasOwnProperty", Num(Int(1)))]);
    assert HasKey(inner.props, "hasOwnProperty");
    assert ShadowsHasOwn(inner);
    assert Obj([Prop("a", inner)]).props[0].val == inner;
    ShadowedHasOwnRejected([Prop("a", inner)], entries);
  }

  /** A sample with no keys is valid against any document. */
  lemma EmptySampleValid(entries: seq<CodecEntry>)
    ensures SampleErrors([], entries) == []
  {
  }
}
