/** The reference relationship: every referenced id is the id of some entry of the document. */
module ReferenceRelation {
  import opened Text
  import opened Js
  import opened Types

  function MissingMessage(ref: JsVal): string {
    "引用的字段不存在: " + ToStr(ref)
  }

  /** `allItems.some(item => item.id === ref)`. */
  predicate IdExists(all: seq<CodecEntry>, ref: JsVal) {
    exists k | 0 <= k < |all| :: StrictEq(all[k].id, ref)
  }

  /**
   * What `for (const ref of reference)` visits: the elements of an array,
   * the characters of a string; anything else is not iterable.
   */
  function Iterate(v: JsVal): (r: Completion<seq<JsVal>>)
    ensures r.Throw? <==> !(v.Arr? || v.Str?)
    ensures r.Throw? ==> r.error == NotIterable("reference")
    ensures v.Arr? ==> r == Normal(v.items)
    ensures v.Str? ==> r.Normal? && |r.value| == |v.s| && forall k | 0 <= k < |v.s| :: r.value[k] == Str([v.s[k]])
  {
    match v
    case Arr(items) => Normal(items)
    case Str(s) => Normal(seq(|s|, k requires 0 <= k < |s| => Str([s[k]])))
    case _ => Throw(NotIterable("reference"))
  }

  /** The first reference, at or after `from`, that names no entry. */
  function FirstMissing(refs: seq<JsVal>, all: seq<CodecEntry>, from: nat): (r: Option<nat>)
    requires from <= |refs|
    decreases |refs| - from
    ensures r.None? <==> forall k | from <= k < |refs| :: IdExists(all, refs[k])
    ensures r.Some? ==> from <= r.value < |refs| && !IdExists(all, refs[r.value])
                        && forall k | from <= k < r.value :: IdExists(all, refs[k])
  {
    if from == |refs| then None
    else if !IdExists(all, refs[from]) then Some(from)
    else FirstMissing(refs, all, from + 1)
  }

  /** `ReferenceValidator.validate`, which throws on a truthy reference that cannot be iterated. */
  function Validate(item: CodecEntry, all: seq<CodecEntry>): (r: Completion<ValidationResult>)
    ensures r.Throw? <==> Truthy(item.reference) && !(item.reference.Arr? || item.reference.Str?)
    ensures r.Normal? ==> WellFormed(r.value) && (!r.value.valid ==> r.value.id == item.id)
    ensures item.reference.Arr? ==>
      (r == Normal(Passed()) <==> forall k | 0 <= k < |item.reference.items| :: IdExists(all, item.reference.items[k]))
    ensures item.reference.Arr? && r != Normal(Passed()) ==>
      exists k | 0 <= k < |item.reference.items| ::
        && r == Normal(Failed(item.id, MissingMessage(item.reference.items[k])))
        && !IdExists(all, item.reference.items[k])
        && forall j | 0 <= j < k :: IdExists(all, item.reference.items[j])
    ensures !Truthy(item.reference) ==> r == Normal(Passed())
  {
    if !Truthy(item.reference) then Normal(Passed())
    else match Iterate(item.reference)
      case Throw(e) => Throw(e)
      case Normal(refs) =>
        match FirstMissing(refs, all, 0)
        case None => Normal(Passed())
        case Some(k) => Normal(Failed(item.id, MissingMessage(refs[k])))
  }

  /** An entry may reference itself. */
  lemma SelfReferencePasses(item: CodecEntry, all: seq<CodecEntry>)
    requires item in all && item.id.Str? && item.reference == Arr([item.id])
    ensures Validate(item, all) == Normal(Passed())
  {
    var k :| 0 <= k < |all| && all[k] == item;
    assert StrictEq(all[k].id, item.id);
  }

  /** Only which ids exist matters, not the order of the entries. */
  lemma {:induction false} IdExistsOrderFree(all: seq<CodecEntry>, other: seq<CodecEntry>, ref: JsVal)
    requires multiset(all) == multiset(other)
    ensures IdExists(all, ref) <==> IdExists(other, ref)
  {
    if IdExists(all, ref) {
      var k :| 0 <= k < |all| && StrictEq(all[k].id, ref);
      assert all[k] in multiset(other);
      var j :| 0 <= j < |other| && other[j] == all[k];
    }
    if IdExists(other, ref) {
      var k :| 0 <= k < |other| && StrictEq(other[k].id, ref);
      assert other[k] in multiset(all);
      var j :| 0 <= j < |all| && all[j] == other[k];
    }
  }

  lemma ValidateOrderFree(item: CodecEntry, all: seq<CodecEntry>, other: seq<CodecEntry>)
    requires multiset(all) == multiset(other)
    ensures Validate(item, all) == Validate(item, other)
  {
    forall ref ensures IdExists(all, ref) <==> IdExists(other, ref) {
      IdExistsOrderFree(all, other, ref);
    }
    if Truthy(item.reference) && Iterate(item.reference).Normal? {
      var refs := Iterate(item.reference).value;
      FirstMissingSame(refs, all, other, 0);
    }
  }

  lemma {:induction false} FirstMissingSame(refs: seq<JsVal>, all: seq<CodecEntry>, other: seq<CodecEntry>, from: nat)
    requires from <= |refs|
    requires forall ref :: IdExists(all, ref) <==> IdExists(other, ref)
    ensures FirstMissing(refs, all, from) == FirstMissing(refs, other, from)
    decreases |refs| - from
  {
    if from < |refs| {
      FirstMissingSame(refs, all, other, from + 1);
    }
  }

  /** An empty reference array passes, whatever the document holds. */
  lemma EmptyReferencePasses(item: CodecEntry, all: seq<CodecEntry>)
    requires item.reference == Arr([])
    ensures Validate(item, all) == Normal(Passed())
  {
  }
}
