/**
 * `prepareSignBytes` (src/js-cosmos-wallet.ts:77-96): the canonical form of a
 * transaction that is serialised and signed. Arrays are mapped element by
 * element; strings, numbers, booleans and undefined are returned as they
 * are; every other value goes through `Object.keys(...).sort()` and is
 * rebuilt as a fresh object that receives, in sorted-name order, the
 * prepared value of every property that is neither undefined nor null.
 *
 * `Prepare` is the specification of the function and `PrepareSignBytes` the
 * imperative procedure proved equal to it; the lemmas state what the result
 * is: which names it has, in what order, with which values, that a second
 * pass changes nothing and that the order the input listed its properties
 * in does not matter.
 */
module Canonical {
  import opened JsString
  import opened JsObject
  import opened JsValue
  import opened Outcomes

  // ---------------------------------------------------------------------
  // Array.prototype.sort() on property names
  // ---------------------------------------------------------------------

  /** No name occurs twice. */
  predicate NoDuplicates(ks: seq<string>)
  {
    forall i, j :: 0 <= i < j < |ks| ==> ks[i] != ks[j]
  }

  /** Each name sorts strictly before the next, as distinct names sorted by `Less` do. */
  predicate StrictlyAscending(ks: seq<string>)
  {
    forall i, j :: 0 <= i < j < |ks| ==> Less(ks[i], ks[j])
  }

  /** Names in non-decreasing `Less` order. */
  predicate Sorted(ks: seq<string>)
  {
    forall i, j :: 0 <= i < j < |ks| ==> !Less(ks[j], ks[i])
  }

  /** `ks` with `k` placed before the first name that does not sort before it. */
  function InsertKey(k: string, ks: seq<string>): (r: seq<string>)
    ensures multiset(r) == multiset(ks) + multiset{k}
    ensures Sorted(ks) ==> Sorted(r)
    ensures StrictlyAscending(ks) && k !in ks ==> StrictlyAscending(r)
  {
    if ks == [] then [k]
    else if Less(ks[0], k) then
      var rest := InsertKey(k, ks[1..]);
      assert ks == [ks[0]] + ks[1..];
      InsertKeyHead(k, ks, rest);
      [ks[0]] + rest
    else
      InsertKeyFront(k, ks);
      [k] + ks
  }

  /** The step of `InsertKey` that keeps the first name in front. */
  lemma InsertKeyHead(k: string, ks: seq<string>, rest: seq<string>)
    requires ks != [] && Less(ks[0], k)
    requires multiset(rest) == multiset(ks[1..]) + multiset{k}
    requires Sorted(ks[1..]) ==> Sorted(rest)
    requires StrictlyAscending(ks[1..]) && k !in ks[1..] ==> StrictlyAscending(rest)
    ensures Sorted(ks) ==> Sorted([ks[0]] + rest)
    ensures StrictlyAscending(ks) && k !in ks ==> StrictlyAscending([ks[0]] + rest)
  {
    forall x | x in rest ensures x == k || x in ks[1..] {
      assert x in multiset(rest);
    }
    if Sorted(ks) {
      assert Sorted(ks[1..]);
      HeadSorted(k, ks, rest);
    }
    if StrictlyAscending(ks) && k !in ks {
      assert StrictlyAscending(ks[1..]);
      HeadStrict(k, ks, rest);
    }
  }

  lemma HeadSorted(k: string, ks: seq<string>, rest: seq<string>)
    requires ks != [] && Less(ks[0], k) && Sorted(ks) && Sorted(rest)
    requires forall x :: x in rest ==> x == k || x in ks[1..]
    ensures Sorted([ks[0]] + rest)
  {
    var r := [ks[0]] + rest;
    forall j | 0 < j < |r| ensures !Less(r[j], r[0]) {
      assert r[j] in rest;
      if r[j] != k {
        var m :| 0 <= m < |ks[1..]| && ks[1..][m] == r[j];
        assert !Less(ks[m + 1], ks[0]);
      } else {
        LessAsymmetric(ks[0], k);
      }
    }
  }

  lemma HeadStrict(k: string, ks: seq<string>, rest: seq<string>)
    requires ks != [] && Less(ks[0], k) && StrictlyAscending(ks) && StrictlyAscending(rest)
    requires forall x :: x in rest ==> x == k || x in ks[1..]
    ensures StrictlyAscending([ks[0]] + rest)
  {
    var r := [ks[0]] + rest;
    forall j | 0 < j < |r| ensures Less(r[0], r[j]) {
      assert r[j] in rest;
      if r[j] != k {
        var m :| 0 <= m < |ks[1..]| && ks[1..][m] == r[j];
        assert Less(ks[0], ks[m + 1]);
      }
    }
  }

  /** The step of `InsertKey` that puts the new name in front. */
  lemma InsertKeyFront(k: string, ks: seq<string>)
    requires ks != [] && !Less(ks[0], k)
    ensures Sorted(ks) ==> Sorted([k] + ks)
    ensures StrictlyAscending(ks) && k !in ks ==> StrictlyAscending([k] + ks)
  {
    var r := [k] + ks;
    if Sorted(ks) {
      forall j | 0 < j < |r| ensures !Less(r[j], k) {
        if j > 1 && Less(r[j], k) {
          assert !Less(ks[j - 1], ks[0]);
          if r[j] != ks[0] {
            LessTotal(r[j], ks[0]);
            LessTransitive(ks[0], r[j], k);
          } else {
            LessIrreflexive(k);
          }
        }
      }
    }
    if StrictlyAscending(ks) && k !in ks {
      LessTotal(k, ks[0]);
      forall j | 0 < j < |r| ensures Less(k, r[j]) {
        if j > 1 {
          LessTransitive(k, ks[0], ks[j - 1]);
        }
      }
    }
  }

  /**
   * `Array.prototype.sort()` with no comparator: a permutation of `ks`,
   * ordered by UTF-16 code units (`Less`); without repeated names the order
   * is strict.
   */
  function SortKeys(ks: seq<string>): (r: seq<string>)
    ensures multiset(r) == multiset(ks)
    ensures Sorted(r)
    ensures NoDuplicates(ks) ==> StrictlyAscending(r)
  {
    if ks == [] then []
    else
      var rest := SortKeys(ks[1..]);
      SortKeysStep(ks, rest);
      InsertKey(ks[0], rest)
  }

  lemma SortKeysStep(ks: seq<string>, rest: seq<string>)
    requires ks != [] && multiset(rest) == multiset(ks[1..])
    ensures multiset(rest) + multiset{ks[0]} == multiset(ks)
    ensures NoDuplicates(ks) ==> NoDuplicates(ks[1..]) && ks[0] !in rest
  {
    assert ks == [ks[0]] + ks[1..];
    if NoDuplicates(ks) {
      forall m | 0 <= m < |ks[1..]| ensures ks[1..][m] != ks[0] {
        assert ks[1..][m] == ks[m + 1];
      }
      assert ks[0] !in multiset(ks[1..]);
    }
  }

  // ---------------------------------------------------------------------
  // The specification: prepareSignBytes as a function
  // ---------------------------------------------------------------------

  /**
   * `prepareSignBytes(v)`. The only exception it can raise is the
   * `TypeError` of `Object.keys(null)`, reached when `null` is the value
   * itself or an array element (null properties of objects are skipped).
   */
  function Prepare(v: Json): (r: Outcome<Json>)
    ensures r.Failure? ==> r.error == NullToObject
    ensures r.Success? ==> (r.value.Arr? <==> v.Arr?) && (r.value.Obj? <==> v.Obj?)
    ensures r.Success? && !v.Arr? && !v.Obj? ==> r.value == v
    decreases v, 1
  {
    match v
    case Arr(items) =>
      var prepared :- PrepareItems(items);
      Success(Arr(prepared))
    case Null => Failure(NullToObject)
    case Obj(ps) => PrepareProps(ps, SortKeys(Keys(ps)), [])
    case _ => Success(v)
  }

  /** `items.map(prepareSignBytes)`: element by element, from the front, stopping at the first exception. */
  function PrepareItems(items: seq<Json>): (r: Outcome<seq<Json>>)
    ensures r.Failure? ==> r.error == NullToObject
    ensures r.Success? ==> |r.value| == |items|
    decreases items, 0
  {
    if items == [] then Success([])
    else
      var init :- PrepareItems(items[..|items| - 1]);
      var last :- Prepare(items[|items| - 1]);
      Success(init + [last])
  }

  /**
   * The `forEach` over the sorted names `keys` of `ps`: a name whose value
   * is undefined or null is skipped, any other is set on `sorted` to its
   * prepared value.
   */
  function PrepareProps(ps: seq<Prop<Json>>, keys: seq<string>, sorted: seq<Prop<Json>>): (r: Outcome<Json>)
    ensures r.Failure? ==> r.error == NullToObject
    ensures r.Success? ==> r.value.Obj?
    decreases ps, |keys|
  {
    if keys == [] then Success(Obj(sorted))
    else
      var i := IndexOf(ps, keys[0]);
      if i < 0 || Nullish(ps[i].value) then PrepareProps(ps, keys[1..], sorted)
      else
        var prepared :- Prepare(ps[i].value);
        PrepareProps(ps, keys[1..], Put(sorted, keys[0], prepared))
  }

  // ---------------------------------------------------------------------
  // The procedure
  // ---------------------------------------------------------------------

  /** `prepareSignBytes` as the source runs it: a map over arrays, a sorted `forEach` over objects. */
  method PrepareSignBytes(v: Json) returns (r: Outcome<Json>)
    ensures r == Prepare(v)
    decreases v, 1
  {
    match v {
      case Arr(items) =>
        var mapped := PrepareElements(items);
        if mapped.Failure? {
          return Failure(mapped.error);
        }
        r := Success(Arr(mapped.value));
      case Null =>
        r := Failure(NullToObject);
      case Obj(ps) =>
        r := PrepareMembers(ps);
      case _ =>
        r := Success(v);
    }
  }

  /** `jsonTx.map(prepareSignBytes)`. */
  method PrepareElements(items: seq<Json>) returns (r: Outcome<seq<Json>>)
    ensures r == PrepareItems(items)
    decreases items, 0
  {
    PrepareItemsSpec(items);
    var mapped: seq<Json> := [];
    var n := 0;
    while n < |items|
      invariant 0 <= n <= |items| && |mapped| == n
      invariant forall m :: 0 <= m < n ==> Prepare(items[m]) == Success(mapped[m])
    {
      var x := PrepareSignBytes(items[n]);
      if x.Failure? {
        return Failure(x.error);
      }
      mapped := mapped + [x.value];
      n := n + 1;
    }
    assert PrepareItems(items).value == mapped;
    r := Success(mapped);
  }

  /** The `forEach` over the sorted names of an object, setting each defined, non-null value prepared. */
  method PrepareMembers(ps: seq<Prop<Json>>) returns (r: Outcome<Json>)
    ensures r == PrepareProps(ps, SortKeys(Keys(ps)), [])
    decreases ps, 0
  {
    var keys := SortKeys(Keys(ps));
    var sorted: seq<Prop<Json>> := [];
    var j := 0;
    while j < |keys|
      invariant 0 <= j <= |keys|
      invariant PrepareProps(ps, keys, []) == PrepareProps(ps, keys[j..], sorted)
    {
      var key := keys[j];
      var i := IndexOf(ps, key);
      if 0 <= i && !Nullish(ps[i].value) {
        var x := PrepareSignBytes(ps[i].value);
        if x.Failure? {
          return Failure(x.error);
        }
        sorted := Put(sorted, key, x.value);
      }
      j := j + 1;
    }
    r := Success(Obj(sorted));
  }

  // ---------------------------------------------------------------------
  // What the result is
  // ---------------------------------------------------------------------

  /** An array is mapped: it succeeds when every element does, with the prepared elements in place. */
  lemma PrepareItemsSpec(items: seq<Json>)
    ensures PrepareItems(items).Success? <==> forall m :: 0 <= m < |items| ==> Prepare(items[m]).Success?
    ensures PrepareItems(items).Success? ==>
              forall m :: 0 <= m < |items| ==> PrepareItems(items).value[m] == Prepare(items[m]).value
  {
    if PrepareItems(items).Success? {
      forall m | 0 <= m < |items|
        ensures Prepare(items[m]) == Success(PrepareItems(items).value[m])
      {
        PrepareItemsAt(items, m);
      }
    }
    if forall m :: 0 <= m < |items| ==> Prepare(items[m]).Success? {
      PrepareItemsSucceed(items);
    }
  }

  /** The element at `m` of a mapped array is the prepared element `m`. */
  lemma {:induction false} PrepareItemsAt(items: seq<Json>, m: nat)
    requires PrepareItems(items).Success? && m < |items|
    ensures Prepare(items[m]) == Success(PrepareItems(items).value[m])
    decreases |items|
  {
    var init := items[..|items| - 1];
    ItemsFront(items);
    if m < |init| {
      PrepareItemsAt(init, m);
      ItemsAtFront(items, m);
    } else {
      ItemsAtLast(items);
    }
  }

  /** A mapped array's elements before the last are mapped too. */
  lemma ItemsFront(items: seq<Json>)
    requires PrepareItems(items).Success? && items != []
    ensures PrepareItems(items[..|items| - 1]).Success?
  {
  }

  lemma ItemsAtFront(items: seq<Json>, m: nat)
    requires PrepareItems(items).Success? && m < |items| - 1
    requires PrepareItems(items[..|items| - 1]).Success?
    requires Prepare(items[..|items| - 1][m]) == Success(PrepareItems(items[..|items| - 1]).value[m])
    ensures Prepare(items[m]) == Success(PrepareItems(items).value[m])
  {
    var init := items[..|items| - 1];
    ItemsAppend(items);
    assert items[m] == init[m];
    assert PrepareItems(items).value[m] == PrepareItems(init).value[m];
  }

  lemma ItemsAtLast(items: seq<Json>)
    requires PrepareItems(items).Success? && items != []
    requires PrepareItems(items[..|items| - 1]).Success?
    ensures Prepare(items[|items| - 1]) == Success(PrepareItems(items).value[|items| - 1])
  {
    ItemsAppend(items);
  }

  /** An array whose every element can be prepared is mapped. */
  lemma {:induction false} PrepareItemsSucceed(items: seq<Json>)
    requires forall m :: 0 <= m < |items| ==> Prepare(items[m]).Success?
    ensures PrepareItems(items).Success?
    decreases |items|
  {
    if items != [] {
      var n := |items| - 1;
      var init := items[..n];
      forall m | 0 <= m < n ensures Prepare(init[m]).Success? {
        assert init[m] == items[m];
      }
      PrepareItemsSucceed(init);
      ItemsAppend(items);
    }
  }

  /** With every element but the last mapped, the array's outcome is the last element's. */
  lemma ItemsAppend(items: seq<Json>)
    requires items != [] && PrepareItems(items[..|items| - 1]).Success?
    ensures Prepare(items[|items| - 1]).Failure? ==> PrepareItems(items) == Failure(NullToObject)
    ensures Prepare(items[|items| - 1]).Success? ==>
              PrepareItems(items) == Success(PrepareItems(items[..|items| - 1]).value + [Prepare(items[|items| - 1]).value])
  {
  }

  /**
   * The names still to visit come after every non-index name already set
   * and differ from every name already set.
   */
  predicate Pending(keys: seq<string>, sorted: seq<Prop<Json>>)
  {
    forall i, j :: 0 <= i < |sorted| && 0 <= j < |keys| ==>
      sorted[i].key != keys[j] && (IsArrayIndex(sorted[i].key) || Less(sorted[i].key, keys[j]))
  }

  /** Skipping the first pending name keeps the rest pending. */
  lemma PendingTail(keys: seq<string>, sorted: seq<Prop<Json>>)
    requires keys != [] && Pending(keys, sorted)
    ensures Pending(keys[1..], sorted)
  {
    assert forall j :: 0 <= j < |keys| - 1 ==> keys[1..][j] == keys[j + 1];
  }

  /** Setting the first pending name keeps the names in order and the rest pending. */
  lemma PendingPut(keys: seq<string>, sorted: seq<Prop<Json>>, p: Json)
    requires keys != [] && StrictlyAscending(keys) && EnumAscending(Keys(sorted)) && Pending(keys, sorted)
    ensures EnumAscending(Keys(Put(sorted, keys[0], p)))
    ensures Pending(keys[1..], Put(sorted, keys[0], p))
  {
    var k0, rest := keys[0], keys[1..];
    var sorted' := Put(sorted, k0, p);
    assert k0 !in Keys(sorted) by {
      assert forall m :: 0 <= m < |sorted| ==> Keys(sorted)[m] != k0;
    }
    PutAscending(sorted, k0, p);
    PutKeys(sorted, k0, p);
    forall a, j | 0 <= a < |sorted'| && 0 <= j < |rest|
      ensures sorted'[a].key != rest[j] && (IsArrayIndex(sorted'[a].key) || Less(sorted'[a].key, rest[j]))
    {
      assert Less(k0, rest[j]) by { assert Less(keys[0], keys[j + 1]); }
      assert Keys(sorted')[a] in Keys(sorted');
      var key := sorted'[a].key;
      if key != k0 {
        assert key in Keys(sorted);
        var b :| 0 <= b < |sorted| && Keys(sorted)[b] == key;
        assert sorted[b].key == key;
      } else {
        LessIrreflexive(k0);
      }
    }
  }

  /**
   * What the `forEach` builds: it throws exactly when a visited name has a
   * value that is neither undefined nor null and whose preparation throws;
   * otherwise it adds to `sorted` every such name with its prepared value,
   * and keeps the names in enumeration order.
   */
  lemma {:induction false} PreparePropsSpec(ps: seq<Prop<Json>>, keys: seq<string>, sorted: seq<Prop<Json>>)
    requires StrictlyAscending(keys) && EnumAscending(Keys(sorted)) && Pending(keys, sorted)
    ensures PrepareProps(ps, keys, sorted).Success? <==>
              forall j :: 0 <= j < |keys| && !Nullish(Lookup(ps, keys[j])) ==> Prepare(Lookup(ps, keys[j])).Success?
    ensures PrepareProps(ps, keys, sorted).Success? ==>
              var qs := PrepareProps(ps, keys, sorted).value.props;
              && EnumAscending(Keys(qs))
              && forall k :: Find(qs, k) ==
                   if k in keys && !Nullish(Lookup(ps, k)) then Some(Prepare(Lookup(ps, k)).value) else Find(sorted, k)
    decreases |keys|
  {
    if keys != [] {
      var k0, rest := keys[0], keys[1..];
      assert StrictlyAscending(rest);
      assert forall j :: 0 <= j < |rest| ==> rest[j] == keys[j + 1];
      assert forall k :: k in keys <==> k == k0 || k in rest;
      assert k0 !in rest by {
        forall j | 0 <= j < |rest| ensures rest[j] != k0 {
          assert Less(keys[0], keys[j + 1]);
          LessIrreflexive(k0);
        }
      }
      var i := IndexOf(ps, k0);
      if i < 0 || Nullish(ps[i].value) {
        assert Nullish(Lookup(ps, k0));
        PendingTail(keys, sorted);
        PreparePropsSpec(ps, rest, sorted);
      } else {
        assert Lookup(ps, k0) == ps[i].value;
        if Prepare(ps[i].value).Success? {
          var p := Prepare(ps[i].value).value;
          var sorted' := Put(sorted, k0, p);
          PendingPut(keys, sorted, p);
          PreparePropsSpec(ps, rest, sorted');
          if PrepareProps(ps, keys, sorted).Success? {
            forall k ensures Find(PrepareProps(ps, keys, sorted).value.props, k) ==
                   if k in keys && !Nullish(Lookup(ps, k)) then Some(Prepare(Lookup(ps, k)).value) else Find(sorted, k)
            {
              PutFind(sorted, k0, p, k);
            }
          }
        }
      }
    }
  }

  /**
   * An object becomes a fresh object whose names are exactly the names of
   * `ps` with a value that is neither undefined nor null, each holding the
   * prepared value, in enumeration order; it throws exactly when one of
   * those values throws.
   */
  lemma PrepareObject(ps: seq<Prop<Json>>)
    requires DistinctKeys(ps)
    ensures Prepare(Obj(ps)).Success? <==>
              forall k :: !Nullish(Lookup(ps, k)) ==> Prepare(Lookup(ps, k)).Success?
    ensures Prepare(Obj(ps)).Success? ==>
              var qs := Prepare(Obj(ps)).value.props;
              && EnumAscending(Keys(qs))
              && (forall k :: k in Keys(qs) <==> k in Keys(ps) && !Nullish(Lookup(ps, k)))
              && forall k :: Find(qs, k) == if Nullish(Lookup(ps, k)) then None else Some(Prepare(Lookup(ps, k)).value)
  {
    var keys := SortKeys(Keys(ps));
    assert Prepare(Obj(ps)) == PrepareProps(ps, keys, []);
    SortedNames(ps);
    PreparePropsSpec(ps, keys, []);
    VisitAllNames(ps, keys);
    if PrepareProps(ps, keys, []).Success? {
      FoundNames(ps, keys, PrepareProps(ps, keys, []).value.props);
    }
  }

  /** Visiting every name that holds a defined value throws exactly when one of those values throws. */
  lemma VisitAllNames(ps: seq<Prop<Json>>, keys: seq<string>)
    requires forall k :: !Nullish(Lookup(ps, k)) ==> k in keys
    ensures (forall j :: 0 <= j < |keys| && !Nullish(Lookup(ps, keys[j])) ==> Prepare(Lookup(ps, keys[j])).Success?) <==>
            (forall k :: !Nullish(Lookup(ps, k)) ==> Prepare(Lookup(ps, k)).Success?)
  {
    if forall j :: 0 <= j < |keys| && !Nullish(Lookup(ps, keys[j])) ==> Prepare(Lookup(ps, keys[j])).Success? {
      forall k | !Nullish(Lookup(ps, k)) ensures Prepare(Lookup(ps, k)).Success? {
        var j :| 0 <= j < |keys| && keys[j] == k;
      }
    }
  }

  /** The names found in the result are the names visited that hold a defined value. */
  lemma FoundNames(ps: seq<Prop<Json>>, keys: seq<string>, qs: seq<Prop<Json>>)
    requires forall k :: k in keys <==> k in Keys(ps)
    requires forall k :: !Nullish(Lookup(ps, k)) ==> k in keys && Prepare(Lookup(ps, k)).Success?
    requires forall k :: Find(qs, k) ==
               if k in keys && !Nullish(Lookup(ps, k)) then Some(Prepare(Lookup(ps, k)).value) else Find([], k)
    ensures forall k :: k in Keys(qs) <==> k in Keys(ps) && !Nullish(Lookup(ps, k))
    ensures forall k :: Find(qs, k) == if Nullish(Lookup(ps, k)) then None else Some(Prepare(Lookup(ps, k)).value)
  {
    forall k ensures k in Keys(qs) <==> k in Keys(ps) && !Nullish(Lookup(ps, k)) {
      IndexOfKeys(qs, k);
    }
  }

  /** The sorted names of `ps` are its names, and every name with a defined value is one of them. */
  lemma SortedNames(ps: seq<Prop<Json>>)
    requires DistinctKeys(ps)
    ensures StrictlyAscending(SortKeys(Keys(ps)))
    ensures forall k :: k in SortKeys(Keys(ps)) <==> k in Keys(ps)
    ensures forall k :: !Nullish(Lookup(ps, k)) ==> k in SortKeys(Keys(ps))
  {
    var keys := SortKeys(Keys(ps));
    forall k ensures k in keys <==> k in Keys(ps) {
      assert k in keys <==> k in multiset(keys);
      assert k in Keys(ps) <==> k in multiset(Keys(ps));
    }
    forall k ensures !Nullish(Lookup(ps, k)) ==> k in Keys(ps) {
      IndexOfKeys(ps, k);
    }
  }

  /** Without array-index names (every name of a transaction), the names come out in code-unit order. */
  lemma PrepareSortsNames(ps: seq<Prop<Json>>)
    requires DistinctKeys(ps)
    requires forall m :: 0 <= m < |ps| ==> !IsArrayIndex(ps[m].key)
    ensures Prepare(Obj(ps)).Success? ==> StrictlyAscending(Keys(Prepare(Obj(ps)).value.props))
  {
    PrepareObject(ps);
    if Prepare(Obj(ps)).Success? {
      var qs := Prepare(Obj(ps)).value.props;
      forall a, b | 0 <= a < b < |qs| ensures Less(Keys(qs)[a], Keys(qs)[b]) {
        assert EnumLess(Keys(qs)[a], Keys(qs)[b]);
        assert Keys(qs)[a] in Keys(qs);
        var m :| 0 <= m < |ps| && Keys(ps)[m] == Keys(qs)[a];
      }
    }
  }

  /** `null` is met where `prepareSignBytes` calls `Object.keys` on it: as the value or an array element, not as a property. */
  predicate ReachesNull(v: Json)
  {
    match v
    case Null => true
    case Arr(items) => exists m :: 0 <= m < |items| && ReachesNull(items[m])
    case Obj(ps) => exists m :: 0 <= m < |ps| && !ps[m].value.Null? && ReachesNull(ps[m].value)
    case _ => false
  }

  /** `prepareSignBytes` throws exactly when it meets a `null` that is not a property value. */
  lemma {:induction false} PrepareFailsIffNull(v: Json)
    requires WellFormed(v)
    ensures Prepare(v).Failure? <==> ReachesNull(v)
  {
    match v
    case Arr(items) =>
      PrepareItemsSpec(items);
      forall m | 0 <= m < |items| ensures Prepare(items[m]).Failure? <==> ReachesNull(items[m]) {
        PrepareFailsIffNull(items[m]);
      }
    case Obj(ps) =>
      PrepareObject(ps);
      forall m | 0 <= m < |ps| ensures Prepare(ps[m].value).Failure? <==> ReachesNull(ps[m].value) {
        PrepareFailsIffNull(ps[m].value);
      }
      if ReachesNull(v) {
        var m :| 0 <= m < |ps| && !ps[m].value.Null? && ReachesNull(ps[m].value);
        FindAt(ps, m);
        assert Lookup(ps, ps[m].key) == ps[m].value;
      } else {
        forall k | !Nullish(Lookup(ps, k)) ensures Prepare(Lookup(ps, k)).Success? {
          var i := IndexOf(ps, k);
          assert Lookup(ps, k) == ps[i].value;
        }
      }
    case _ =>
  }

  /**
   * The shape of every result: no `null` anywhere, objects without
   * undefined values and with their names in enumeration order.
   */
  predicate InCanonicalForm(w: Json)
  {
    match w
    case Null => false
    case Arr(items) => forall m :: 0 <= m < |items| ==> InCanonicalForm(items[m])
    case Obj(ps) =>
      && EnumAscending(Keys(ps))
      && forall m :: 0 <= m < |ps| ==> !Nullish(ps[m].value) && InCanonicalForm(ps[m].value)
    case _ => true
  }

  /** Every result of `prepareSignBytes` is canonical. */
  lemma {:induction false} PrepareCanonical(v: Json)
    requires WellFormed(v) && Prepare(v).Success?
    ensures InCanonicalForm(Prepare(v).value)
  {
    match v
    case Arr(items) =>
      PrepareItemsSpec(items);
      forall m | 0 <= m < |items| ensures InCanonicalForm(Prepare(items[m]).value) {
        PrepareCanonical(items[m]);
      }
    case Obj(ps) =>
      PrepareObject(ps);
      var qs := Prepare(v).value.props;
      EnumAscendingDistinct(qs);
      forall a | 0 <= a < |qs| ensures !Nullish(qs[a].value) && InCanonicalForm(qs[a].value) {
        var k := qs[a].key;
        FindAt(qs, a);
        var i := IndexOf(ps, k);
        assert Lookup(ps, k) == ps[i].value;
        PrepareCanonical(ps[i].value);
      }
    case _ =>
  }

  /** `prepareSignBytes` returns a canonical value as it is. */
  lemma {:induction false} CanonicalFixed(w: Json)
    requires InCanonicalForm(w)
    ensures Prepare(w) == Success(w)
  {
    match w
    case Arr(items) =>
      PrepareItemsSpec(items);
      forall m | 0 <= m < |items| ensures Prepare(items[m]) == Success(items[m]) {
        CanonicalFixed(items[m]);
      }
      assert PrepareItems(items).value == items;
    case Obj(qs) =>
      EnumAscendingDistinct(qs);
      PrepareObject(qs);
      forall k ensures Find(qs, k) == if Nullish(Lookup(qs, k)) then None else Some(Lookup(qs, k)) {
        var i := IndexOf(qs, k);
        if 0 <= i {
          CanonicalFixed(qs[i].value);
        }
      }
      forall k | !Nullish(Lookup(qs, k)) ensures Prepare(Lookup(qs, k)) == Success(Lookup(qs, k)) {
        CanonicalFixed(qs[IndexOf(qs, k)].value);
      }
      AscendingPropsUnique(Prepare(w).value.props, qs);
    case _ =>
  }

  /** Preparing twice is preparing once. */
  lemma PrepareIdempotent(v: Json)
    requires WellFormed(v) && Prepare(v).Success?
    ensures Prepare(Prepare(v).value) == Prepare(v)
  {
    PrepareCanonical(v);
    CanonicalFixed(Prepare(v).value);
  }

  /**
   * The result does not depend on the order in which the objects of the
   * input, at any depth, list their properties.
   */
  lemma {:induction false} PrepareIgnoresKeyOrder(a: Json, b: Json)
    requires WellFormed(a) && WellFormed(b) && SameUpToKeyOrder(a, b)
    ensures Prepare(a) == Prepare(b)
    decreases a, 1
  {
    match a
    case Arr(xs) =>
      var ys := b.items;
      PrepareItemsSpec(xs);
      PrepareItemsSpec(ys);
      forall m | 0 <= m < |xs| ensures Prepare(xs[m]) == Prepare(ys[m]) {
        PrepareIgnoresKeyOrder(xs[m], ys[m]);
      }
      if PrepareItems(xs).Success? {
        assert PrepareItems(xs).value == PrepareItems(ys).value;
      }
    case Obj(ps) =>
      PropsIgnoreKeyOrder(ps, b.props);
    case _ =>
  }

  /** The object case of `PrepareIgnoresKeyOrder`. */
  lemma {:induction false} PropsIgnoreKeyOrder(ps: seq<Prop<Json>>, qs: seq<Prop<Json>>)
    requires WellFormed(Obj(ps)) && WellFormed(Obj(qs)) && SameUpToKeyOrder(Obj(ps), Obj(qs))
    ensures Prepare(Obj(ps)) == Prepare(Obj(qs))
    decreases ps
  {
    PrepareObject(ps);
    PrepareObject(qs);
    forall k ensures (Nullish(Lookup(ps, k)) <==> Nullish(Lookup(qs, k))) && Prepare(Lookup(ps, k)) == Prepare(Lookup(qs, k)) {
      IndexOfKeys(ps, k);
      IndexOfKeys(qs, k);
      var i := IndexOf(ps, k);
      if 0 <= i {
        var j := IndexOf(qs, k);
        assert Lookup(qs, k) == qs[j].value;
        PrepareIgnoresKeyOrder(ps[i].value, Lookup(qs, k));
      }
    }
    if Prepare(Obj(ps)).Success? {
      AscendingPropsUnique(Prepare(Obj(ps)).value.props, Prepare(Obj(qs)).value.props);
    }
  }

  /** In particular the order in which an object's properties were inserted does not matter. */
  lemma PrepareIgnoresInsertionOrder(ps: seq<Prop<Json>>, qs: seq<Prop<Json>>)
    requires WellFormed(Obj(ps)) && WellFormed(Obj(qs)) && multiset(ps) == multiset(qs)
    ensures Prepare(Obj(ps)) == Prepare(Obj(qs))
  {
    PermutedProps(ps, qs);
    PrepareIgnoresKeyOrder(Obj(ps), Obj(qs));
  }
}
