/**
 * `flattenObject`: a nested sample document becomes one flat record whose
 * keys are dotted paths ("a.b", "history.0.timestamp") and whose values are
 * the leaves (primitives and null). The record is a JavaScript object built
 * in place: assigning an existing key replaces its value where it stands,
 * assigning a new key appends it.
 */
module Flattening {
  import opened Text
  import opened Js

  // ---------------------------------------------------------------------
  // Records

  /** No key of a record occurs twice, as in any JavaScript object. */
  predicate DistinctKeys(rec: seq<Prop>) {
    rec == [] || (!HasKey(rec[1..], rec[0].key) && DistinctKeys(rec[1..]))
  }

  predicate HasKey(rec: seq<Prop>, key: string) {
    LookupProp(rec, key).Some?
  }

  /** `rec[key] = val` for a key that names an own data property (see `SetMember`). */
  function Put(rec: seq<Prop>, key: string, val: JsVal): seq<Prop> {
    if rec == [] then [Prop(key, val)]
    else if rec[0].key == key then [Prop(key, val)] + rec[1..]
    else [rec[0]] + Put(rec[1..], key, val)
  }

  /**
   * After `rec[key] = val` the key reads `val` and every other key reads as
   * before; an existing key keeps its place, a new key is appended.
   */
  lemma PutFacts(rec: seq<Prop>, key: string, val: JsVal)
    ensures LookupProp(Put(rec, key, val), key) == Some(val)
    ensures forall k | k != key :: LookupProp(Put(rec, key, val), k) == LookupProp(rec, k)
    ensures forall p | p in Put(rec, key, val) :: p in rec || p == Prop(key, val)
    ensures DistinctKeys(rec) ==> DistinctKeys(Put(rec, key, val))
    ensures HasKey(rec, key) ==> |Put(rec, key, val)| == |rec|
    ensures !HasKey(rec, key) ==> Put(rec, key, val) == rec + [Prop(key, val)]
  {
    PutLookup(rec, key, val);
    PutProvenance(rec, key, val);
    if DistinctKeys(rec) {
      PutDistinct(rec, key, val);
    }
    PutShape(rec, key, val);
  }

  lemma {:induction false} PutLookup(rec: seq<Prop>, key: string, val: JsVal)
    ensures LookupProp(Put(rec, key, val), key) == Some(val)
    ensures forall k | k != key :: LookupProp(Put(rec, key, val), k) == LookupProp(rec, k)
  {
    if rec != [] && rec[0].key != key {
      PutLookup(rec[1..], key, val);
      assert ([rec[0]] + Put(rec[1..], key, val))[1..] == Put(rec[1..], key, val);
    }
  }

  lemma {:induction false} PutProvenance(rec: seq<Prop>, key: string, val: JsVal)
    ensures forall p | p in Put(rec, key, val) :: p in rec || p == Prop(key, val)
  {
    if rec != [] && rec[0].key != key {
      PutProvenance(rec[1..], key, val);
      assert forall p | p in rec[1..] :: p in rec;
    } else if rec != [] {
      assert forall p | p in rec[1..] :: p in rec;
    }
  }

  lemma {:induction false} PutDistinct(rec: seq<Prop>, key: string, val: JsVal)
    requires DistinctKeys(rec)
    ensures DistinctKeys(Put(rec, key, val))
  {
    if rec != [] && rec[0].key != key {
      var tail := Put(rec[1..], key, val);
      PutDistinct(rec[1..], key, val);
      PutLookup(rec[1..], key, val);
      assert ([rec[0]] + tail)[1..] == tail;
      assert LookupProp(tail, rec[0].key) == LookupProp(rec[1..], rec[0].key);
    } else if rec != [] {
      assert ([Prop(key, val)] + rec[1..])[1..] == rec[1..];
    }
  }

  lemma {:induction false} PutShape(rec: seq<Prop>, key: string, val: JsVal)
    ensures HasKey(rec, key) ==> |Put(rec, key, val)| == |rec|
    ensures !HasKey(rec, key) ==> Put(rec, key, val) == rec + [Prop(key, val)]
  {
    if rec != [] && rec[0].key != key {
      PutShape(rec[1..], key, val);
      assert HasKey(rec, key) <==> HasKey(rec[1..], key);
      assert rec == [rec[0]] + rec[1..];
    }
  }

  /** The one key of a plain object that names an inherited accessor rather than a property. */
  const ProtoKey := "__proto__"

  /**
   * `rec[key] = val` on a plain object. "__proto__" names the accessor that
   * every object inherits from `Object.prototype`: assigning it replaces the
   * prototype (with null) or does nothing (any other leaf), and creates no
   * property. Any other key is an own data property.
   */
  function SetMember(rec: seq<Prop>, key: string, val: JsVal): seq<Prop> {
    if key == ProtoKey then rec else Put(rec, key, val)
  }

  /** The assignment adds at most its own property, keeps keys distinct, and adds the key unless it is "__proto__". */
  lemma SetMemberFacts(rec: seq<Prop>, key: string, val: JsVal)
    ensures forall p | p in SetMember(rec, key, val) :: p in rec || p == Prop(key, val)
    ensures DistinctKeys(rec) ==> DistinctKeys(SetMember(rec, key, val))
    ensures forall k :: HasKey(SetMember(rec, key, val), k) <==> HasKey(rec, k) || (k == key && k != ProtoKey)
  {
    if key != ProtoKey {
      PutFacts(rec, key, val);
    }
  }

  /** `Object.assign(rec, src)`: the properties of `src` assigned to `rec` in order. */
  function Assign(rec: seq<Prop>, src: seq<Prop>): seq<Prop>
    decreases src
  {
    if src == [] then rec
    else Assign(SetMember(rec, src[0].key, src[0].val), src[1..])
  }

  /**
   * `Object.assign` takes its properties from its two arguments only, and the
   * result has the keys of both, except "__proto__".
   */
  lemma {:induction false} AssignFacts(rec: seq<Prop>, src: seq<Prop>)
    ensures forall p | p in Assign(rec, src) :: p in rec || p in src
    ensures DistinctKeys(rec) ==> DistinctKeys(Assign(rec, src))
    ensures forall k :: HasKey(Assign(rec, src), k) <==> HasKey(rec, k) || (HasKey(src, k) && k != ProtoKey)
    decreases src
  {
    if src != [] {
      var next := SetMember(rec, src[0].key, src[0].val);
      SetMemberFacts(rec, src[0].key, src[0].val);
      AssignFacts(next, src[1..]);
      assert forall p | p in src[1..] :: p in src;
      assert src == [src[0]] + src[1..];
    }
  }

  /** A dotted key is never "__proto__", which has no dot. */
  lemma DottedNotProto(base: string, last: string)
    ensures base + "." + last != ProtoKey
  {
    var k := base + "." + last;
    assert k[|base|] == '.' && '.' in k;
    assert '.' !in ProtoKey;
  }

  // ---------------------------------------------------------------------
  // The specification of flattenObject

  /** A leaf of the flattened record: anything but an object or an array. */
  predicate IsLeaf(v: JsVal) {
    !v.Obj? && !v.Arr?
  }

  /** `prefix ? `${prefix}.${key}` : key`: an empty prefix is falsy. */
  function JoinKey(prefix: string, key: string): string {
    if prefix == "" then key else prefix + "." + key
  }

  /** A key that lies at or below the path `base`. */
  predicate Below(base: string, key: string) {
    key == base || base == "" || base + "." <= key
  }

  /** Every value of `r` is a leaf and every key lies below `prefix`. */
  predicate LeavesUnder(r: seq<Prop>, prefix: string) {
    forall p | p in r :: IsLeaf(p.val) && (prefix == "" || prefix + "." <= p.key)
  }

  /** The props a `for...in` over an object or an array visits. */
  function MemberCount(v: JsVal): nat {
    if v.Obj? then |v.props| else if v.Arr? then |v.items| else 0
  }

  /** `flattenObject(v, prefix)`. */
  function Flatten(v: JsVal, prefix: string): seq<Prop>
    decreases v, 2
  {
    FlattenUpTo(v, prefix, MemberCount(v))
  }

  /** The record after the first `n` iterations of the `for...in` loop. */
  function FlattenUpTo(v: JsVal, prefix: string, n: nat): seq<Prop>
    requires n <= MemberCount(v)
    decreases v, 1, n
  {
    if n == 0 then []
    else
      var key := if v.Obj? then v.props[n - 1].key else NatToDecimal(n - 1);
      AddMember(FlattenUpTo(v, prefix, n - 1), JoinKey(prefix, key), if v.Obj? then v.props[n - 1].val else v.items[n - 1])
  }

  /** One iteration of the `for...in` loop: the member `newKey` with value `value`. */
  function AddMember(acc: seq<Prop>, newKey: string, value: JsVal): seq<Prop>
    decreases value, 3
  {
    if value.Obj? then Assign(acc, Flatten(value, newKey))
    else if value.Arr? then AddItems(acc, newKey, value, |value.items|)
    else SetMember(acc, newKey, value)
  }

  /** The first `n` calls of the `forEach` over the array `arr` found at `newKey`. */
  function AddItems(acc: seq<Prop>, newKey: string, arr: JsVal, n: nat): seq<Prop>
    requires arr.Arr? && n <= |arr.items|
    decreases arr, 1, n
  {
    if n == 0 then acc
    else
      ItemInto(AddItems(acc, newKey, arr, n - 1), newKey + "." + NatToDecimal(n - 1), arr.items[n - 1])
  }

  /** One call of the `forEach` callback: the element `item` goes into `rec` under `itemKey`. */
  function ItemInto(rec: seq<Prop>, itemKey: string, item: JsVal): seq<Prop>
    decreases item, 3
  {
    if item.Obj? || item.Arr? then Assign(rec, Flatten(item, itemKey)) else SetMember(rec, itemKey, item)
  }

  /** A path below `prefix.key` is below `prefix`. */
  lemma NestedUnder(prefix: string, key: string)
    ensures forall k | Below(prefix + "." + key, k) :: prefix + "." <= k
  {
    var base := prefix + "." + key;
    forall k | Below(base, k) ensures prefix + "." <= k {
      assert base[..|prefix| + 1] == prefix + ".";
      if k != base {
        assert k[..|base| + 1] == base + ".";
        assert k[..|prefix| + 1] == (base + ".")[..|prefix| + 1];
      }
    }
  }

  // ---------------------------------------------------------------------
  // What the flattened record is

  /** The flattened record has distinct keys, holds only leaves, and every key lies below the prefix. */
  lemma FlattenFacts(v: JsVal, prefix: string)
    ensures DistinctKeys(Flatten(v, prefix))
    ensures LeavesUnder(Flatten(v, prefix), prefix)
  {
    FlattenUpToDistinct(v, prefix, MemberCount(v));
    FlattenUpToLeaves(v, prefix, MemberCount(v));
  }

  /** After any number of iterations of the loop, no key occurs twice. */
  lemma {:induction false} FlattenUpToDistinct(v: JsVal, prefix: string, n: nat)
    requires n <= MemberCount(v)
    ensures DistinctKeys(FlattenUpTo(v, prefix, n))
    decreases v, 1, n
  {
    if n > 0 {
      var acc := FlattenUpTo(v, prefix, n - 1);
      var key := if v.Obj? then v.props[n - 1].key else NatToDecimal(n - 1);
      var value := if v.Obj? then v.props[n - 1].val else v.items[n - 1];
      assert FlattenUpTo(v, prefix, n) == AddMember(acc, JoinKey(prefix, key), value);
      FlattenUpToDistinct(v, prefix, n - 1);
      AddMemberDistinct(acc, JoinKey(prefix, key), value);
    }
  }

  /** One member keeps the keys of a record distinct. */
  lemma {:induction false} AddMemberDistinct(acc: seq<Prop>, newKey: string, value: JsVal)
    requires DistinctKeys(acc)
    ensures DistinctKeys(AddMember(acc, newKey, value))
    decreases value, 3
  {
    if value.Obj? {
      FlattenUpToDistinct(value, newKey, MemberCount(value));
      AssignFacts(acc, Flatten(value, newKey));
    } else if value.Arr? {
      AddItemsDistinct(acc, newKey, value, |value.items|);
    } else {
      SetMemberFacts(acc, newKey, value);
    }
  }

  /** The elements of an array keep the keys of a record distinct. */
  lemma {:induction false} AddItemsDistinct(acc: seq<Prop>, newKey: string, arr: JsVal, n: nat)
    requires arr.Arr? && n <= |arr.items|
    requires DistinctKeys(acc)
    ensures DistinctKeys(AddItems(acc, newKey, arr, n))
    decreases arr, 1, n
  {
    if n > 0 {
      var before := AddItems(acc, newKey, arr, n - 1);
      var item := arr.items[n - 1];
      var itemKey := newKey + "." + NatToDecimal(n - 1);
      AddItemsDistinct(acc, newKey, arr, n - 1);
      if item.Obj? || item.Arr? {
        FlattenUpToDistinct(item, itemKey, MemberCount(item));
        AssignFacts(before, Flatten(item, itemKey));
      } else {
        SetMemberFacts(before, itemKey, item);
      }
    }
  }

  /** After any number of iterations of the loop, the record holds only leaves, at keys below the prefix. */
  lemma {:induction false} FlattenUpToLeaves(v: JsVal, prefix: string, n: nat)
    requires n <= MemberCount(v)
    ensures LeavesUnder(FlattenUpTo(v, prefix, n), prefix)
    decreases v, 1, n
  {
    if n > 0 {
      var acc := FlattenUpTo(v, prefix, n - 1);
      var key := if v.Obj? then v.props[n - 1].key else NatToDecimal(n - 1);
      var value := if v.Obj? then v.props[n - 1].val else v.items[n - 1];
      var r := AddMember(acc, JoinKey(prefix, key), value);
      assert FlattenUpTo(v, prefix, n) == r;
      FlattenUpToLeaves(v, prefix, n - 1);
      AddMemberLeaves(acc, JoinKey(prefix, key), value);
      LeavesStep(acc, prefix, key, r);
    }
  }

  /** Adding leaves below `prefix.key` to a record whose keys lie below `prefix` keeps them there. */
  lemma LeavesStep(acc: seq<Prop>, prefix: string, key: string, r: seq<Prop>)
    requires LeavesUnder(acc, prefix)
    requires forall p | p in r :: p in acc || (IsLeaf(p.val) && Below(JoinKey(prefix, key), p.key))
    ensures LeavesUnder(r, prefix)
  {
    if prefix != "" {
      NestedUnder(prefix, key);
    }
  }

  /** One member adds only leaves, at or below its own key. */
  lemma {:induction false} AddMemberLeaves(acc: seq<Prop>, newKey: string, value: JsVal)
    ensures forall p | p in AddMember(acc, newKey, value) :: p in acc || (IsLeaf(p.val) && Below(newKey, p.key))
    decreases value, 3
  {
    if value.Obj? {
      FlattenUpToLeaves(value, newKey, MemberCount(value));
      AssignFacts(acc, Flatten(value, newKey));
    } else if value.Arr? {
      AddItemsLeaves(acc, newKey, value, |value.items|);
    } else {
      SetMemberFacts(acc, newKey, value);
    }
  }

  /** The elements of an array add only leaves, below `newKey.`. */
  lemma {:induction false} AddItemsLeaves(acc: seq<Prop>, newKey: string, arr: JsVal, n: nat)
    requires arr.Arr? && n <= |arr.items|
    ensures forall p | p in AddItems(acc, newKey, arr, n) :: p in acc || (IsLeaf(p.val) && newKey + "." <= p.key)
    decreases arr, 1, n
  {
    if n > 0 {
      var before := AddItems(acc, newKey, arr, n - 1);
      var item := arr.items[n - 1];
      var itemKey := newKey + "." + NatToDecimal(n - 1);
      var r := ItemInto(before, itemKey, item);
      assert AddItems(acc, newKey, arr, n) == r;
      AddItemsLeaves(acc, newKey, arr, n - 1);
      ItemIntoLeaves(before, itemKey, item);
      ItemLeavesStep(acc, before, newKey, NatToDecimal(n - 1), r);
    }
  }

  /** One element adds only leaves, at or below its own key. */
  lemma {:induction false} ItemIntoLeaves(rec: seq<Prop>, itemKey: string, item: JsVal)
    ensures forall p | p in ItemInto(rec, itemKey, item) :: p in rec || (IsLeaf(p.val) && Below(itemKey, p.key))
    decreases item, 4
  {
    if item.Obj? || item.Arr? {
      FlattenUpToLeaves(item, itemKey, MemberCount(item));
      AssignFacts(rec, Flatten(item, itemKey));
    } else {
      SetMemberFacts(rec, itemKey, item);
    }
  }

  /** Adding leaves below `newKey.index` to a record built below `newKey.` keeps it there. */
  lemma ItemLeavesStep(acc: seq<Prop>, before: seq<Prop>, newKey: string, index: string, r: seq<Prop>)
    requires forall p | p in before :: p in acc || (IsLeaf(p.val) && newKey + "." <= p.key)
    requires forall p | p in r :: p in before || (IsLeaf(p.val) && Below(newKey + "." + index, p.key))
    ensures forall p | p in r :: p in acc || (IsLeaf(p.val) && newKey + "." <= p.key)
  {
    NestedUnder(newKey, index);
  }

  // ---------------------------------------------------------------------
  // Which keys the flattened record has

  /** The key of member `k` of an object or an array, as `for...in` yields it. */
  function MemberKey(v: JsVal, k: nat): string
    requires k < MemberCount(v)
  {
    if v.Obj? then v.props[k].key else NatToDecimal(k)
  }

  /** `key` is the dotted path, below `prefix`, of a leaf somewhere inside `v`. */
  predicate LeafPath(v: JsVal, prefix: string, key: string)
    decreases v, 1
  {
    match v
    case Obj(props) => exists i | 0 <= i < |props| :: ValuePath(props[i].val, JoinKey(prefix, props[i].key), key)
    case Arr(items) => exists i | 0 <= i < |items| :: ValuePath(items[i], JoinKey(prefix, NatToDecimal(i)), key)
    case _ => false
  }

  /** `key` is the path of a leaf reached from the member `value` found at `newKey`. */
  predicate ValuePath(value: JsVal, newKey: string, key: string)
    decreases value, 2
  {
    match value
    case Obj(_) => LeafPath(value, newKey, key)
    case Arr(items) => exists j | 0 <= j < |items| :: ElementPath(items[j], newKey + "." + NatToDecimal(j), key)
    case _ => key == newKey
  }

  /** `key` is the path of a leaf reached from the array element `item` found at `itemKey`. */
  predicate ElementPath(item: JsVal, itemKey: string, key: string)
    decreases item, 2
  {
    if item.Obj? || item.Arr? then LeafPath(item, itemKey, key) else key == itemKey
  }

  /** `key` is a leaf path through one of the first `n` members of `v`. */
  predicate MemberPathBefore(v: JsVal, prefix: string, n: nat, key: string)
    requires n <= MemberCount(v)
  {
    exists i | 0 <= i < n :: ValuePath(MemberValue(v, i), JoinKey(prefix, MemberKey(v, i)), key)
  }

  /** `key` is a leaf path through one of the first `n` elements of the array found at `newKey`. */
  predicate ItemPathBefore(arr: JsVal, newKey: string, n: nat, key: string)
    requires arr.Arr? && n <= |arr.items|
  {
    exists j | 0 <= j < n :: ElementPath(arr.items[j], newKey + "." + NatToDecimal(j), key)
  }

  /**
   * The keys of the flattened record are exactly the leaf paths of `v`,
   * except "__proto__": every leaf yields a key, and no key comes from
   * anywhere else.
   */
  lemma {:induction false} FlattenKeys(v: JsVal, prefix: string)
    ensures forall k :: HasKey(Flatten(v, prefix), k) <==> LeafPath(v, prefix, k) && k != ProtoKey
    decreases v, 2
  {
    FlattenUpToKeys(v, prefix, MemberCount(v));
    if v.Obj? {
      assert forall i | 0 <= i < |v.props| :: MemberValue(v, i) == v.props[i].val && MemberKey(v, i) == v.props[i].key;
    } else if v.Arr? {
      assert forall i | 0 <= i < |v.items| :: MemberValue(v, i) == v.items[i] && MemberKey(v, i) == NatToDecimal(i);
    }
  }

  /** After `n` iterations of the loop, the keys are the leaf paths through the first `n` members. */
  lemma {:induction false} FlattenUpToKeys(v: JsVal, prefix: string, n: nat)
    requires n <= MemberCount(v)
    ensures forall k :: HasKey(FlattenUpTo(v, prefix, n), k) <==> MemberPathBefore(v, prefix, n, k) && k != ProtoKey
    decreases v, 1, n
  {
    if n > 0 {
      var acc := FlattenUpTo(v, prefix, n - 1);
      var key := if v.Obj? then v.props[n - 1].key else NatToDecimal(n - 1);
      var value := if v.Obj? then v.props[n - 1].val else v.items[n - 1];
      assert key == MemberKey(v, n - 1) && value == MemberValue(v, n - 1);
      assert FlattenUpTo(v, prefix, n) == AddMember(acc, JoinKey(prefix, key), value);
      FlattenUpToKeys(v, prefix, n - 1);
      AddMemberKeys(acc, JoinKey(prefix, key), value);
      MemberPathStep(v, prefix, n);
    }
  }

  lemma MemberPathStep(v: JsVal, prefix: string, n: nat)
    requires 0 < n <= MemberCount(v)
    ensures forall k :: MemberPathBefore(v, prefix, n, k) <==>
      MemberPathBefore(v, prefix, n - 1, k) || ValuePath(MemberValue(v, n - 1), JoinKey(prefix, MemberKey(v, n - 1)), k)
  {
  }

  lemma ItemPathStep(arr: JsVal, newKey: string, n: nat)
    requires arr.Arr? && 0 < n <= |arr.items|
    ensures forall k :: ItemPathBefore(arr, newKey, n, k) <==>
      ItemPathBefore(arr, newKey, n - 1, k) || ElementPath(arr.items[n - 1], newKey + "." + NatToDecimal(n - 1), k)
  {
  }

  /** One member adds exactly its leaf paths, except "__proto__", to the keys. */
  lemma {:induction false} AddMemberKeys(acc: seq<Prop>, newKey: string, value: JsVal)
    ensures forall k :: HasKey(AddMember(acc, newKey, value), k) <==>
      HasKey(acc, k) || (ValuePath(value, newKey, k) && k != ProtoKey)
    decreases value, 3
  {
    if value.Obj? {
      FlattenKeys(value, newKey);
      AssignFacts(acc, Flatten(value, newKey));
    } else if value.Arr? {
      AddItemsKeys(acc, newKey, value, |value.items|);
    } else {
      SetMemberFacts(acc, newKey, value);
    }
  }

  /** The elements of an array add exactly their leaf paths to the keys. */
  lemma {:induction false} AddItemsKeys(acc: seq<Prop>, newKey: string, arr: JsVal, n: nat)
    requires arr.Arr? && n <= |arr.items|
    ensures forall k :: HasKey(AddItems(acc, newKey, arr, n), k) <==>
      HasKey(acc, k) || (ItemPathBefore(arr, newKey, n, k) && k != ProtoKey)
    decreases arr, 1, n
  {
    if n > 0 {
      var before := AddItems(acc, newKey, arr, n - 1);
      var item := arr.items[n - 1];
      var itemKey := newKey + "." + NatToDecimal(n - 1);
      assert AddItems(acc, newKey, arr, n) == ItemInto(before, itemKey, item);
      AddItemsKeys(acc, newKey, arr, n - 1);
      ItemIntoKeys(before, itemKey, item);
      ItemPathStep(arr, newKey, n);
    }
  }

  /** One element adds exactly its leaf paths to the keys. */
  lemma {:induction false} ItemIntoKeys(rec: seq<Prop>, itemKey: string, item: JsVal)
    ensures forall k :: HasKey(ItemInto(rec, itemKey, item), k) <==>
      HasKey(rec, k) || (ElementPath(item, itemKey, k) && k != ProtoKey)
    decreases item, 4
  {
    if item.Obj? || item.Arr? {
      FlattenKeys(item, itemKey);
      AssignFacts(rec, Flatten(item, itemKey));
    } else {
      SetMemberFacts(rec, itemKey, item);
    }
  }

  /** Element keys with different indices differ. */
  lemma IndexKeysDiffer(newKey: string, i: nat, j: nat)
    requires i != j
    ensures newKey + "." + NatToDecimal(i) != newKey + "." + NatToDecimal(j)
  {
    var a, b := newKey + "." + NatToDecimal(i), newKey + "." + NatToDecimal(j);
    if a == b {
      assert a[|newKey| + 1..] == NatToDecimal(i) && b[|newKey| + 1..] == NatToDecimal(j);
      DecimalInjective(i, j);
    }
  }

  /**
   * The `forEach` over an array of leaves found at `newKey` puts element `i`
   * under `newKey.i`, in index order.
   */
  lemma {:induction false} LeafItems(newKey: string, arr: JsVal, n: nat)
    requires arr.Arr? && n <= |arr.items|
    requires forall i | 0 <= i < |arr.items| :: IsLeaf(arr.items[i])
    ensures AddItems([], newKey, arr, n) == seq(n, i requires 0 <= i < n => Prop(newKey + "." + NatToDecimal(i), arr.items[i]))
  {
    if n > 0 {
      var before := seq(n - 1, i requires 0 <= i < n - 1 => Prop(newKey + "." + NatToDecimal(i), arr.items[i]));
      var key := newKey + "." + NatToDecimal(n - 1);
      LeafItems(newKey, arr, n - 1);
      DottedNotProto(newKey, NatToDecimal(n - 1));
      forall i | 0 <= i < n - 1
        ensures before[i].key != key
      {
        IndexKeysDiffer(newKey, i, n - 1);
      }
      PutShape(before, key, arr.items[n - 1]);
      assert AddItems([], newKey, arr, n) == Put(before, key, arr.items[n - 1]);
    }
  }

  /** A member holding an array of leaves flattens to one key per element, `key.0`, `key.1`, …, in order. */
  lemma LeafArrayFlattened(key: string, arr: JsVal)
    requires arr.Arr? && forall i | 0 <= i < |arr.items| :: IsLeaf(arr.items[i])
    ensures Flatten(Obj([Prop(key, arr)]), "") ==
      seq(|arr.items|, i requires 0 <= i < |arr.items| => Prop(key + "." + NatToDecimal(i), arr.items[i]))
  {
    LeafItems(key, arr, |arr.items|);
    assert FlattenUpTo(Obj([Prop(key, arr)]), "", 1) == AddMember([], key, arr);
  }

  // ---------------------------------------------------------------------
  // The methods

  /**
   * Some object that `flattenObject` reaches has an own property named
   * "hasOwnProperty". That property hides the inherited method, and no JSON
   * value is callable, so `obj.hasOwnProperty(key)` throws there.
   */
  predicate ShadowsHasOwn(v: JsVal)
    decreases v
  {
    match v
    case Obj(props) =>
      HasKey(props, "hasOwnProperty") || exists k | 0 <= k < |props| :: ShadowsHasOwn(props[k].val)
    case Arr(items) => exists k | 0 <= k < |items| :: ShadowsHasOwn(items[k])
    case _ => false
  }

  /** The value of member `k` of an object or an array. */
  function MemberValue(v: JsVal, k: nat): JsVal
    requires k < MemberCount(v)
  {
    if v.Obj? then v.props[k].val else v.items[k]
  }

  /** None of the first `n` members of `v` shadows `hasOwnProperty`. */
  predicate NoneShadowBefore(v: JsVal, n: nat)
    requires n <= MemberCount(v)
  {
    forall k | 0 <= k < n :: !ShadowsHasOwn(MemberValue(v, k))
  }

  /** A member that shadows `hasOwnProperty` makes its container shadow it. */
  lemma ShadowingMember(v: JsVal, i: nat)
    requires i < MemberCount(v)
    requires ShadowsHasOwn(MemberValue(v, i))
    ensures ShadowsHasOwn(v)
  {
  }

  /** One more member that does not shadow `hasOwnProperty`. */
  lemma NoShadowStep(v: JsVal, i: nat)
    requires i < MemberCount(v)
    requires NoneShadowBefore(v, i) && !ShadowsHasOwn(MemberValue(v, i))
    ensures NoneShadowBefore(v, i + 1)
  {
  }

  /** A container none of whose members shadows `hasOwnProperty`, and which has no such key, does not shadow it. */
  lemma NoShadowingMember(v: JsVal)
    requires !(v.Obj? && HasKey(v.props, "hasOwnProperty"))
    requires NoneShadowBefore(v, MemberCount(v))
    ensures !ShadowsHasOwn(v)
  {
    if v.Obj? {
      assert forall k | 0 <= k < |v.props| :: MemberValue(v, k) == v.props[k].val;
    } else if v.Arr? {
      assert forall k | 0 <= k < |v.items| :: MemberValue(v, k) == v.items[k];
    }
  }

  /** The TypeError of calling a shadowed `hasOwnProperty`. */
  const HasOwnPropertyError := NotAFunction("obj.hasOwnProperty")

  /**
   * `flattenObject(obj, prefix)`, building the record in place as the source
   * does; it throws exactly when an object it reaches shadows `hasOwnProperty`.
   */
  method FlattenObject(obj: JsVal, prefix: string) returns (result: Completion<seq<Prop>>)
    ensures result.Throw? <==> ShadowsHasOwn(obj)
    ensures result.Throw? ==> result.error == HasOwnPropertyError
    ensures result.Normal? ==> result.value == Flatten(obj, prefix)
    decreases obj, 1
  {
    if obj.Obj? && HasKey(obj.props, "hasOwnProperty") {
      return Throw(HasOwnPropertyError);
    }
    var acc: seq<Prop> := [];
    var i := 0;
    while i < MemberCount(obj)
      invariant 0 <= i <= MemberCount(obj)
      invariant acc == FlattenUpTo(obj, prefix, i)
      invariant NoneShadowBefore(obj, i)
    {
      var key: string;
      var value: JsVal;
      if obj.Obj? {
        key, value := obj.props[i].key, obj.props[i].val;
      } else {
        key, value := NatToDecimal(i), obj.items[i];
      }
      assert value == MemberValue(obj, i);
      var r := FlattenMember(acc, JoinKey(prefix, key), value);
      if r.Throw? {
        ShadowingMember(obj, i);
        return r;
      }
      NoShadowStep(obj, i);
      acc := r.value;
      i := i + 1;
    }
    NoShadowingMember(obj);
    return Normal(acc);
  }

  /** The body of the `for...in` loop: the member `newKey` with value `value` goes into `acc`. */
  method FlattenMember(acc: seq<Prop>, newKey: string, value: JsVal) returns (result: Completion<seq<Prop>>)
    ensures result.Throw? <==> ShadowsHasOwn(value)
    ensures result.Throw? ==> result.error == HasOwnPropertyError
    ensures result.Normal? ==> result.value == AddMember(acc, newKey, value)
    decreases value, 2
  {
    if value.Obj? {
      var sub := FlattenObject(value, newKey);
      if sub.Throw? {
        return sub;
      }
      result := Normal(Assign(acc, sub.value));
    } else if value.Arr? {
      result := FlattenItemsInto(acc, newKey, value);
    } else {
      result := Normal(SetMember(acc, newKey, value));
    }
  }

  /** The `forEach` over the array found at `newKey`, adding to `result`. */
  method FlattenItemsInto(acc: seq<Prop>, newKey: string, arr: JsVal) returns (result: Completion<seq<Prop>>)
    requires arr.Arr?
    ensures result.Throw? <==> ShadowsHasOwn(arr)
    ensures result.Throw? ==> result.error == HasOwnPropertyError
    ensures result.Normal? ==> result.value == AddItems(acc, newKey, arr, |arr.items|)
    decreases arr, 1
  {
    var rec := acc;
    var j := 0;
    while j < |arr.items|
      invariant 0 <= j <= |arr.items|
      invariant rec == AddItems(acc, newKey, arr, j)
      invariant NoneShadowBefore(arr, j)
    {
      var item := arr.items[j];
      assert item == MemberValue(arr, j);
      var itemKey := newKey + "." + NatToDecimal(j);
      if item.Obj? || item.Arr? {
        var sub := FlattenObject(item, itemKey);
        if sub.Throw? {
          ShadowingMember(arr, j);
          return sub;
        }
        rec := Assign(rec, sub.value);
      } else {
        assert !ShadowsHasOwn(item);
        rec := SetMember(rec, itemKey, item);
      }
      NoShadowStep(arr, j);
      j := j + 1;
    }
    NoShadowingMember(arr);
    return Normal(rec);
  }

  // ---------------------------------------------------------------------
  // Examples

  /** {a: {b: 1}} flattens to {"a.b": 1}. */
  lemma NestedObjectExample()
    ensures Flatten(Obj([Prop("a", Obj([Prop("b", Num(Int(1)))]))]), "") == [Prop("a.b", Num(Int(1)))]
  {
    var inner := Obj([Prop("b", Num(Int(1)))]);
    assert Flatten(inner, "a") == [Prop("a.b", Num(Int(1)))] by {
      assert JoinKey("a", "b") == "a.b";
      assert FlattenUpTo(inner, "a", 1) == SetMember([], "a.b", Num(Int(1)));
    }
    assert FlattenUpTo(Obj([Prop("a", inner)]), "", 1) == Assign([], [Prop("a.b", Num(Int(1)))]);
  }

  /** Array elements get their index as the last path segment; a null element is a leaf. */
  lemma ArrayExample(k: string, x: JsVal)
    requires k != "" && IsLeaf(x)
    ensures Flatten(Obj([Prop(k, Arr([x, Null]))]), "") == [Prop(k + ".0", x), Prop(k + ".1", Null)]
  {
    var arr := Arr([x, Null]);
    ArrayItems(k, x);
    assert FlattenUpTo(Obj([Prop(k, arr)]), "", 1) == AddMember([], k, arr);
  }

  /** The two calls of the `forEach` over `[x, null]` found at `k`. */
  lemma ArrayItems(k: string, x: JsVal)
    requires IsLeaf(x)
    ensures AddItems([], k, Arr([x, Null]), 2) == [Prop(k + ".0", x), Prop(k + ".1", Null)]
  {
    var arr := Arr([x, Null]);
    var k0, k1 := k + ".0", k + ".1";
    ArrayFirstItem(k, x);
    assert k + "." + NatToDecimal(1) == k1;
    assert k0[|k| + 1] != k1[|k| + 1];
    DottedNotProto(k, "1");
    assert AddItems([], k, arr, 2) == Put([Prop(k0, x)], k1, Null);
    assert Put([Prop(k0, x)], k1, Null) == [Prop(k0, x)] + Put([], k1, Null);
  }

  /** The first call of the `forEach` over `[x, null]` found at `k`. */
  lemma ArrayFirstItem(k: string, x: JsVal)
    requires IsLeaf(x)
    ensures AddItems([], k, Arr([x, Null]), 1) == [Prop(k + ".0", x)]
  {
    var arr := Arr([x, Null]);
    assert k + "." + NatToDecimal(0) == k + ".0";
    assert AddItems([], k, arr, 0) == [];
    assert arr.items[0] == x && !x.Obj? && !x.Arr?;
    DottedNotProto(k, "0");
    assert AddItems([], k, arr, 1) == Put([], k + "." + NatToDecimal(0), x);
  }

  /** Empty objects and empty arrays contribute no key, wherever they sit. */
  lemma EmptyContainersVanish(acc: seq<Prop>, newKey: string)
    ensures AddMember(acc, newKey, Obj([])) == acc
    ensures AddMember(acc, newKey, Arr([])) == acc
    ensures Flatten(Obj([]), newKey) == [] && Flatten(Arr([]), newKey) == []
  {
  }

  /** A null member is kept as a leaf under its own key, unless that key is "__proto__". */
  lemma NullIsLeaf(acc: seq<Prop>, newKey: string)
    ensures newKey != ProtoKey ==> AddMember(acc, newKey, Null) == Put(acc, newKey, Null)
    ensures newKey != ProtoKey ==> LookupProp(AddMember(acc, newKey, Null), newKey) == Some(Null)
  {
    PutFacts(acc, newKey, Null);
  }

  /** A leaf assigned to "__proto__" sets the prototype instead: {"__proto__": 1} flattens to {}. */
  lemma ProtoLeafIgnored(acc: seq<Prop>, x: JsVal)
    requires IsLeaf(x)
    ensures AddMember(acc, ProtoKey, x) == acc
    ensures Flatten(Obj([Prop(ProtoKey, x)]), "") == []
  {
    assert FlattenUpTo(Obj([Prop(ProtoKey, x)]), "", 1) == AddMember([], ProtoKey, x);
  }
}
