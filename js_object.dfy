/**
 * The own properties of an ordinary JavaScript object, listed in the order in
 * which `Object.keys`, `Object.assign` and `JSON.stringify` enumerate them:
 * first the array-index names in ascending numeric order, then every other
 * name in the order it was first set.
 *
 * `Put` is the assignment `o[k] = v`, and `AssignFrom` is
 * `Object.assign(target, source)` for a source whose own enumerable
 * properties are given.
 */
module JsObject {
  import opened JsString
  import opened Outcomes

  /** One own data property. */
  datatype Prop<V> = Prop(key: string, value: V)

  function Keys<V>(ps: seq<Prop<V>>): (ks: seq<string>)
    ensures |ks| == |ps|
    ensures forall i :: 0 <= i < |ps| ==> ks[i] == ps[i].key
  {
    seq(|ps|, i requires 0 <= i < |ps| => ps[i].key)
  }

  predicate DistinctKeys<V>(ps: seq<Prop<V>>)
  {
    forall i, j :: 0 <= i < j < |ps| ==> ps[i].key != ps[j].key
  }

  /** Position of the property named `k`, or -1 when there is none. */
  function IndexOf<V>(ps: seq<Prop<V>>, k: string): (i: int)
    ensures -1 <= i < |ps|
    ensures 0 <= i ==> ps[i].key == k && forall j :: 0 <= j < i ==> ps[j].key != k
    ensures i < 0 ==> forall j :: 0 <= j < |ps| ==> ps[j].key != k
  {
    if ps == [] then -1
    else if ps[0].key == k then 0
    else
      var j := IndexOf(ps[1..], k);
      assert forall m :: 0 <= m < |ps| - 1 ==> ps[1..][m] == ps[m + 1];
      if j < 0 then -1 else j + 1
  }

  lemma IndexOfKeys<V>(ps: seq<Prop<V>>, k: string)
    ensures IndexOf(ps, k) < 0 <==> k !in Keys(ps)
  {
    if k in Keys(ps) {
      var j :| 0 <= j < |ps| && Keys(ps)[j] == k;
    }
  }

  /** `o[k]` for an own property: its value, or None when `o` has no property `k`. */
  function Find<V>(ps: seq<Prop<V>>, k: string): Option<V>
  {
    var i := IndexOf(ps, k);
    if i < 0 then None else Some(ps[i].value)
  }

  lemma FindAt<V>(ps: seq<Prop<V>>, i: nat)
    requires DistinctKeys(ps) && i < |ps|
    ensures Find(ps, ps[i].key) == Some(ps[i].value)
  {
  }

  lemma IndexOfIs<V>(ps: seq<Prop<V>>, k: string, j: nat)
    requires j < |ps| && ps[j].key == k
    requires forall m :: 0 <= m < j ==> ps[m].key != k
    ensures IndexOf(ps, k) == j
  {
    assert Keys(ps)[j] == k;
  }

  lemma IndexOfAbsent<V>(ps: seq<Prop<V>>, k: string)
    requires forall m :: 0 <= m < |ps| ==> ps[m].key != k
    ensures IndexOf(ps, k) < 0
  {
  }

  /** `ps` with `x` inserted at position `p`. */
  function Inserted<V>(ps: seq<Prop<V>>, p: nat, x: Prop<V>): (r: seq<Prop<V>>)
    requires p <= |ps|
    ensures |r| == |ps| + 1
    ensures forall m :: 0 <= m < p ==> r[m] == ps[m]
    ensures r[p] == x
    ensures forall m :: p < m < |r| ==> r[m] == ps[m - 1]
  {
    ps[..p] + [x] + ps[p..]
  }

  // ---------------------------------------------------------------------
  // Enumeration order
  // ---------------------------------------------------------------------

  /**
   * `a` is enumerated before `b` in an object whose non-index names were set
   * in `Less` order: array indices first by value, then the rest by `Less`.
   */
  predicate EnumLess(a: string, b: string)
  {
    if IsArrayIndex(a) then !IsArrayIndex(b) || IndexValue(a) < IndexValue(b)
    else !IsArrayIndex(b) && Less(a, b)
  }

  predicate EnumAscending(ks: seq<string>)
  {
    forall i, j :: 0 <= i < j < |ks| ==> EnumLess(ks[i], ks[j])
  }

  lemma EnumLessIrreflexive(a: string)
    ensures !EnumLess(a, a)
  {
    LessIrreflexive(a);
  }

  lemma EnumLessTransitive(a: string, b: string, c: string)
    requires EnumLess(a, b) && EnumLess(b, c)
    ensures EnumLess(a, c)
  {
    if !IsArrayIndex(a) {
      LessTransitive(a, b, c);
    }
  }

  lemma EnumLessTotal(a: string, b: string)
    requires a != b
    ensures EnumLess(a, b) || EnumLess(b, a)
  {
    if IsArrayIndex(a) && IsArrayIndex(b) {
      IndexValueInjective(a, b);
    } else {
      LessTotal(a, b);
    }
  }

  lemma EnumAscendingDistinct<V>(ps: seq<Prop<V>>)
    requires EnumAscending(Keys(ps))
    ensures DistinctKeys(ps)
  {
    forall i, j | 0 <= i < j < |ps| ensures ps[i].key != ps[j].key {
      assert EnumLess(Keys(ps)[i], Keys(ps)[j]);
      EnumLessIrreflexive(ps[i].key);
    }
  }

  /**
   * Two `EnumLess`-ascending name lists with the same names are the same
   * list: the enumeration order of such an object does not depend on the
   * order its properties were listed in.
   */
  lemma {:induction false} AscendingUnique(xs: seq<string>, ys: seq<string>)
    requires EnumAscending(xs) && EnumAscending(ys)
    requires forall k :: k in xs <==> k in ys
    ensures xs == ys
  {
    assert xs == [] <==> ys == [] by {
      if xs != [] { assert xs[0] in ys; }
      if ys != [] { assert ys[0] in xs; }
    }
    if xs != [] {
      assert ys != [] by { assert xs[0] in ys; }
      assert xs[0] == ys[0] by {
        if xs[0] != ys[0] {
          assert ys[0] in xs;
          var i :| 0 <= i < |xs| && xs[i] == ys[0];
          assert xs[0] in ys;
          var j :| 0 <= j < |ys| && ys[j] == xs[0];
          assert 0 < i && 0 < j;
          assert EnumLess(xs[0], xs[i]) && EnumLess(ys[0], ys[j]);
          EnumLessTransitive(xs[0], ys[0], xs[0]);
          EnumLessIrreflexive(xs[0]);
        }
      }
      forall k ensures k in xs[1..] <==> k in ys[1..] {
        if k in xs[1..] {
          var i :| 1 <= i < |xs| && xs[i] == k;
          assert EnumLess(xs[0], xs[i]);
          EnumLessIrreflexive(k);
          assert k in ys;
        }
        if k in ys[1..] {
          var j :| 1 <= j < |ys| && ys[j] == k;
          assert EnumLess(ys[0], ys[j]);
          EnumLessIrreflexive(k);
          assert k in xs;
        }
      }
      AscendingUnique(xs[1..], ys[1..]);
      assert xs == [xs[0]] + xs[1..] && ys == [ys[0]] + ys[1..];
    }
  }

  /** Two objects in canonical enumeration order that agree on every property are equal. */
  lemma AscendingPropsUnique<V>(ps: seq<Prop<V>>, qs: seq<Prop<V>>)
    requires EnumAscending(Keys(ps)) && EnumAscending(Keys(qs))
    requires forall k :: Find(ps, k) == Find(qs, k)
    ensures ps == qs
  {
    forall k ensures k in Keys(ps) <==> k in Keys(qs) {
      assert Find(ps, k) == Find(qs, k);
    }
    AscendingUnique(Keys(ps), Keys(qs));
    EnumAscendingDistinct(ps);
    EnumAscendingDistinct(qs);
    forall i | 0 <= i < |ps| ensures ps[i] == qs[i] {
      assert Keys(ps)[i] == Keys(qs)[i];
      FindAt(ps, i);
      FindAt(qs, i);
      assert Find(ps, ps[i].key) == Find(qs, qs[i].key);
    }
  }

  /**
   * The shape of every real object's property list: no name twice, and the
   * array-index names first, in ascending numeric order.
   */
  predicate Shaped<V>(ps: seq<Prop<V>>)
  {
    && DistinctKeys(ps)
    && forall i, j :: 0 <= i < j < |ps| && IsArrayIndex(ps[j].key) ==>
         IsArrayIndex(ps[i].key) && IndexValue(ps[i].key) < IndexValue(ps[j].key)
  }

  // ---------------------------------------------------------------------
  // Setting a property
  // ---------------------------------------------------------------------

  /** Where a new array-index property goes: after the index names of smaller value. */
  function IndexSlot<V>(ps: seq<Prop<V>>, k: string): (p: nat)
    requires IsArrayIndex(k)
    ensures p <= |ps|
    ensures forall i :: 0 <= i < p ==> IsArrayIndex(ps[i].key) && IndexValue(ps[i].key) < IndexValue(k)
    ensures p < |ps| ==> !(IsArrayIndex(ps[p].key) && IndexValue(ps[p].key) < IndexValue(k))
  {
    if ps == [] || !(IsArrayIndex(ps[0].key) && IndexValue(ps[0].key) < IndexValue(k)) then 0
    else 1 + IndexSlot(ps[1..], k)
  }

  /**
   * `o[k] = v`: an existing property keeps its place and takes the new value;
   * a new array-index property is placed among the index names by value; any
   * other new property is appended.
   */
  function Put<V>(ps: seq<Prop<V>>, k: string, v: V): (r: seq<Prop<V>>)
    ensures Prop(k, v) in r
    ensures |r| == if IndexOf(ps, k) < 0 then |ps| + 1 else |ps|
  {
    var i := IndexOf(ps, k);
    if 0 <= i then
      assert ps[i := Prop(k, v)][i] == Prop(k, v);
      ps[i := Prop(k, v)]
    else if IsArrayIndex(k) then
      Inserted(ps, IndexSlot(ps, k), Prop(k, v))
    else ps + [Prop(k, v)]
  }

  /** After `o[k] = v`, reading `k` gives `v` and reading any other name gives what it gave before. */
  lemma PutFind<V>(ps: seq<Prop<V>>, k: string, v: V, k': string)
    ensures Find(Put(ps, k, v), k') == if k' == k then Some(v) else Find(ps, k')
  {
    var i := IndexOf(ps, k);
    if 0 <= i {
      PutFindReplace(ps, k, v, k', i);
    } else if IsArrayIndex(k) {
      PutFindInsert(ps, k, v, k', IndexSlot(ps, k));
    } else {
      PutFindInsert(ps, k, v, k', |ps|);
      assert Inserted(ps, |ps|, Prop(k, v)) == ps + [Prop(k, v)];
    }
  }

  lemma PutFindReplace<V>(ps: seq<Prop<V>>, k: string, v: V, k': string, i: nat)
    requires i < |ps| && IndexOf(ps, k) == i
    ensures Find(ps[i := Prop(k, v)], k') == if k' == k then Some(v) else Find(ps, k')
  {
    var r := ps[i := Prop(k, v)];
    if k' == k {
      IndexOfIs(r, k, i);
    } else {
      var j := IndexOf(ps, k');
      if 0 <= j {
        IndexOfIs(r, k', j);
      } else {
        IndexOfAbsent(r, k');
      }
    }
  }

  lemma PutFindInsert<V>(ps: seq<Prop<V>>, k: string, v: V, k': string, p: nat)
    requires p <= |ps| && IndexOf(ps, k) < 0
    ensures Find(Inserted(ps, p, Prop(k, v)), k') == if k' == k then Some(v) else Find(ps, k')
  {
    var r := Inserted(ps, p, Prop(k, v));
    var j := IndexOf(ps, k');
    if k' == k {
      InsertFindNew(ps, k, v, p);
      assert r[p].value == v;
    } else if 0 <= j {
      InsertFindPresent(ps, k, v, k', p);
      assert r[if j < p then j else j + 1] == ps[j];
    } else {
      InsertFindAbsent(ps, k, v, k', p);
    }
  }

  lemma InsertFindNew<V>(ps: seq<Prop<V>>, k: string, v: V, p: nat)
    requires p <= |ps| && IndexOf(ps, k) < 0
    ensures IndexOf(Inserted(ps, p, Prop(k, v)), k) == p
  {
    var r := Inserted(ps, p, Prop(k, v));
    forall m | 0 <= m < p ensures r[m].key != k {
      assert r[m] == ps[m];
    }
    IndexOfIs(r, k, p);
  }

  lemma InsertFindPresent<V>(ps: seq<Prop<V>>, k: string, v: V, k': string, p: nat)
    requires p <= |ps| && IndexOf(ps, k) < 0 && k' != k && 0 <= IndexOf(ps, k')
    ensures var j := IndexOf(ps, k');
            IndexOf(Inserted(ps, p, Prop(k, v)), k') == if j < p then j else j + 1
  {
    var r := Inserted(ps, p, Prop(k, v));
    var j := IndexOf(ps, k');
    var t := if j < p then j else j + 1;
    assert r[t] == ps[j];
    forall m | 0 <= m < t ensures r[m].key != k' {
      if m < p {
        assert r[m] == ps[m];
      } else if m > p {
        assert r[m] == ps[m - 1];
      }
    }
    IndexOfIs(r, k', t);
  }

  lemma InsertFindAbsent<V>(ps: seq<Prop<V>>, k: string, v: V, k': string, p: nat)
    requires p <= |ps| && IndexOf(ps, k) < 0 && k' != k && IndexOf(ps, k') < 0
    ensures IndexOf(Inserted(ps, p, Prop(k, v)), k') < 0
  {
    var r := Inserted(ps, p, Prop(k, v));
    forall m | 0 <= m < |r| ensures r[m].key != k' {
      if m < p {
        assert r[m] == ps[m];
      } else if m > p {
        assert r[m] == ps[m - 1];
      }
    }
    IndexOfAbsent(r, k');
  }


  /** `o[k] = v` adds the name `k` and no other, at the end when `k` is new and not an array index. */
  lemma PutKeys<V>(ps: seq<Prop<V>>, k: string, v: V)
    ensures forall k' :: k' in Keys(Put(ps, k, v)) <==> k' in Keys(ps) || k' == k
    ensures k in Keys(ps) ==> Keys(Put(ps, k, v)) == Keys(ps)
    ensures k !in Keys(ps) && !IsArrayIndex(k) ==> Keys(Put(ps, k, v)) == Keys(ps) + [k]
  {
    var r := Put(ps, k, v);
    forall k' ensures k' in Keys(r) <==> k' in Keys(ps) || k' == k {
      PutFind(ps, k, v, k');
    }
  }

  /** Setting a property keeps a property list in the shape of a real object's. */
  lemma PutShaped<V>(ps: seq<Prop<V>>, k: string, v: V)
    requires Shaped(ps)
    ensures Shaped(Put(ps, k, v))
  {
    var i := IndexOf(ps, k);
    if 0 <= i {
      var r := ps[i := Prop(k, v)];
      assert forall m :: 0 <= m < |r| ==> r[m].key == ps[m].key;
    } else if IsArrayIndex(k) {
      InsertIndexShaped(ps, k, v);
    } else {
      var r := ps + [Prop(k, v)];
      assert forall m :: 0 <= m < |ps| ==> r[m] == ps[m];
    }
  }

  lemma InsertIndexShaped<V>(ps: seq<Prop<V>>, k: string, v: V)
    requires Shaped(ps) && IsArrayIndex(k) && IndexOf(ps, k) < 0
    ensures Shaped(Inserted(ps, IndexSlot(ps, k), Prop(k, v)))
  {
    InsertIndexDistinct(ps, k, v);
    InsertIndexOrdered(ps, k, v);
  }

  lemma InsertIndexDistinct<V>(ps: seq<Prop<V>>, k: string, v: V)
    requires Shaped(ps) && IsArrayIndex(k) && IndexOf(ps, k) < 0
    ensures DistinctKeys(Inserted(ps, IndexSlot(ps, k), Prop(k, v)))
  {
    var p := IndexSlot(ps, k);
    var r := Inserted(ps, p, Prop(k, v));
    forall a, b | 0 <= a < b < |r| ensures r[a].key != r[b].key {
      if a != p && b != p {
        assert ps[if a < p then a else a - 1].key != ps[if b < p then b else b - 1].key;
      }
    }
  }

  lemma InsertIndexOrdered<V>(ps: seq<Prop<V>>, k: string, v: V)
    requires Shaped(ps) && IsArrayIndex(k) && IndexOf(ps, k) < 0
    ensures var r := Inserted(ps, IndexSlot(ps, k), Prop(k, v));
            forall a, b :: 0 <= a < b < |r| && IsArrayIndex(r[b].key) ==>
              IsArrayIndex(r[a].key) && IndexValue(r[a].key) < IndexValue(r[b].key)
  {
    var p := IndexSlot(ps, k);
    var r := Inserted(ps, p, Prop(k, v));
    forall a, b | 0 <= a < b < |r| && IsArrayIndex(r[b].key)
      ensures IsArrayIndex(r[a].key) && IndexValue(r[a].key) < IndexValue(r[b].key)
    {
      if b > p && a == p {
        var q := ps[p].key;
        assert IsArrayIndex(q) && IndexValue(q) <= IndexValue(ps[b - 1].key);
        if IndexValue(q) == IndexValue(k) {
          IndexValueInjective(q, k);
        }
      } else if b > p && a > p {
        assert r[a] == ps[a - 1] && r[b] == ps[b - 1];
      } else if b > p {
        assert r[a] == ps[a] && r[b] == ps[b - 1];
      }
    }
  }


  /**
   * Setting a new name keeps a property list `EnumAscending` when the name is
   * an array index or comes after every non-index name already set.
   */
  lemma PutAscending<V>(ps: seq<Prop<V>>, k: string, v: V)
    requires EnumAscending(Keys(ps)) && k !in Keys(ps)
    requires IsArrayIndex(k) || forall i :: 0 <= i < |ps| && !IsArrayIndex(ps[i].key) ==> Less(ps[i].key, k)
    ensures EnumAscending(Keys(Put(ps, k, v)))
  {
    assert IndexOf(ps, k) < 0;
    if IsArrayIndex(k) {
      InsertedAscending(ps, k, v, Put(ps, k, v));
    } else {
      AppendedAscending(ps, k, v, Put(ps, k, v));
    }
  }

  /** A new array-index name placed at its slot keeps the names in enumeration order. */
  lemma InsertedAscending<V>(ps: seq<Prop<V>>, k: string, v: V, r: seq<Prop<V>>)
    requires EnumAscending(Keys(ps)) && k !in Keys(ps) && IsArrayIndex(k)
    requires r == Inserted(ps, IndexSlot(ps, k), Prop(k, v))
    ensures EnumAscending(Keys(r))
  {
    var p := IndexSlot(ps, k);
    forall a, b | 0 <= a < b < |r| ensures EnumLess(r[a].key, r[b].key) {
      if b < p || a > p {
        var a', b' := if a < p then a else a - 1, if b < p then b else b - 1;
        assert EnumLess(Keys(ps)[a'], Keys(ps)[b']);
      } else if a == p {
        if IsArrayIndex(ps[b - 1].key) {
          if b - 1 > p {
            assert EnumLess(Keys(ps)[p], Keys(ps)[b - 1]);
          }
          assert IsArrayIndex(ps[p].key);
          if IndexValue(ps[p].key) == IndexValue(k) {
            IndexValueInjective(ps[p].key, k);
          }
        }
      }
    }
  }

  /** A new other name appended after every non-index name keeps the names in enumeration order. */
  lemma AppendedAscending<V>(ps: seq<Prop<V>>, k: string, v: V, r: seq<Prop<V>>)
    requires EnumAscending(Keys(ps)) && !IsArrayIndex(k)
    requires forall i :: 0 <= i < |ps| && !IsArrayIndex(ps[i].key) ==> Less(ps[i].key, k)
    requires r == ps + [Prop(k, v)]
    ensures EnumAscending(Keys(r))
  {
    forall a, b | 0 <= a < b < |r| ensures EnumLess(r[a].key, r[b].key) {
      if b < |ps| {
        assert EnumLess(Keys(ps)[a], Keys(ps)[b]);
      }
    }
  }

  /** Setting the same name twice leaves the object as setting it once with the second value. */
  lemma PutPut<V>(ps: seq<Prop<V>>, k: string, a: V, b: V)
    ensures Put(Put(ps, k, a), k, b) == Put(ps, k, b)
  {
    var i := IndexOf(ps, k);
    var r := Put(ps, k, a);
    if 0 <= i {
      IndexOfIs(r, k, i);
      assert r[i := Prop(k, b)] == ps[i := Prop(k, b)];
    } else if IsArrayIndex(k) {
      var p := IndexSlot(ps, k);
      IndexOfIs(r, k, p);
      assert r[p := Prop(k, b)] == Inserted(ps, p, Prop(k, b));
    } else {
      IndexOfIs(r, k, |ps|);
      assert r[|ps| := Prop(k, b)] == ps + [Prop(k, b)];
    }
  }

  // ---------------------------------------------------------------------
  // Object.assign
  // ---------------------------------------------------------------------

  /** `Object.assign(target, source)`: the source's own enumerable properties are set one by one, in order. */
  function AssignFrom<V>(target: seq<Prop<V>>, source: seq<Prop<V>>): (r: seq<Prop<V>>)
    ensures |target| <= |r| <= |target| + |source|
    ensures source != [] ==> Prop(source[|source| - 1].key, source[|source| - 1].value) in r
    decreases source
  {
    if source == [] then target
    else AssignFrom(Put(target, source[0].key, source[0].value), source[1..])
  }

  /** The value the last property named `k` in `ps` carries, if any: the one `Object.assign` leaves set. */
  function LastValue<V>(ps: seq<Prop<V>>, k: string): (r: Option<V>)
    ensures r.None? <==> k !in Keys(ps)
    ensures r.Some? ==> Prop(k, r.value) in ps
  {
    if ps == [] then None
    else if ps[|ps| - 1].key == k then Some(ps[|ps| - 1].value)
    else
      var init := ps[..|ps| - 1];
      assert forall i :: 0 <= i < |init| ==> Keys(init)[i] == Keys(ps)[i];
      assert Keys(ps) == Keys(init) + [ps[|ps| - 1].key];
      assert ps == init + [ps[|ps| - 1]];
      LastValue(init, k)
  }

  /** The last property named `k` is the last among the later ones, or else the first if it is named `k`. */
  lemma {:induction false} LastValueFront<V>(ps: seq<Prop<V>>, k: string)
    requires ps != []
    ensures LastValue(ps, k) == (var t := LastValue(ps[1..], k);
                                 if t.Some? then t else if ps[0].key == k then Some(ps[0].value) else None)
    decreases |ps|
  {
    if |ps| > 1 {
      var rest := ps[1..];
      assert rest[|rest| - 1] == ps[|ps| - 1];
      if ps[|ps| - 1].key != k {
        var init := ps[..|ps| - 1];
        assert rest[..|rest| - 1] == init[1..];
        LastValueFront(init, k);
      }
    }
  }

  /** After `Object.assign` the names are exactly the target's and the source's. */
  lemma {:induction false} AssignFromKeys<V>(target: seq<Prop<V>>, source: seq<Prop<V>>)
    ensures forall k :: k in Keys(AssignFrom(target, source)) <==> k in Keys(target) || k in Keys(source)
    decreases source
  {
    if source != [] {
      PutKeys(target, source[0].key, source[0].value);
      AssignFromKeys(Put(target, source[0].key, source[0].value), source[1..]);
      assert Keys(source) == [source[0].key] + Keys(source[1..]);
    }
  }

  /** After `Object.assign` a name reads as the source's last value for it, or as in the target when the source lacks it. */
  lemma {:induction false} AssignFromFind<V>(target: seq<Prop<V>>, source: seq<Prop<V>>, k: string)
    ensures Find(AssignFrom(target, source), k) == if LastValue(source, k).Some? then LastValue(source, k) else Find(target, k)
    decreases source
  {
    if source != [] {
      PutFind(target, source[0].key, source[0].value, k);
      AssignFromFind(Put(target, source[0].key, source[0].value), source[1..], k);
      LastValueFront(source, k);
    }
  }

  lemma {:induction false} AssignFromShaped<V>(target: seq<Prop<V>>, source: seq<Prop<V>>)
    requires Shaped(target)
    ensures Shaped(AssignFrom(target, source))
    decreases source
  {
    if source != [] {
      PutShaped(target, source[0].key, source[0].value);
      AssignFromShaped(Put(target, source[0].key, source[0].value), source[1..]);
    }
  }

  /** Copying a real object into a fresh `{}` reproduces it exactly, order included. */
  lemma AssignCopies<V>(ps: seq<Prop<V>>)
    requires Shaped(ps)
    ensures AssignFrom([], ps) == ps
  {
    CopyRest(ps, 0);
  }

  lemma {:induction false} CopyRest<V>(ps: seq<Prop<V>>, n: nat)
    requires Shaped(ps) && n <= |ps|
    ensures AssignFrom(ps[..n], ps[n..]) == ps
    decreases |ps| - n
  {
    if n < |ps| {
      CopyOne(ps, n);
      assert ps[n..][1..] == ps[n + 1..];
      CopyRest(ps, n + 1);
    } else {
      assert ps[..n] == ps;
    }
  }

  /** Setting the next property of a shaped object on a copy of those before it appends it. */
  lemma CopyOne<V>(ps: seq<Prop<V>>, n: nat)
    requires Shaped(ps) && n < |ps|
    ensures Put(ps[..n], ps[n].key, ps[n].value) == ps[..n + 1]
  {
    var done := ps[..n];
    var k := ps[n].key;
    assert k !in Keys(done) by {
      assert forall m :: 0 <= m < n ==> done[m].key != k;
    }
    if IsArrayIndex(k) {
      assert IndexSlot(done, k) == n;
    }
  }


  /** Every value of `o` after `o[k] = v` is `v` or a value `o` already had. */
  lemma PutValues<V>(ps: seq<Prop<V>>, k: string, v: V, P: V -> bool)
    requires P(v) && forall i :: 0 <= i < |ps| ==> P(ps[i].value)
    ensures forall i :: 0 <= i < |Put(ps, k, v)| ==> P(Put(ps, k, v)[i].value)
  {
  }

  /** Every value `Object.assign` leaves in the target came from the target or from the source. */
  lemma {:induction false} AssignFromValues<V>(target: seq<Prop<V>>, source: seq<Prop<V>>, P: V -> bool)
    requires forall i :: 0 <= i < |target| ==> P(target[i].value)
    requires forall i :: 0 <= i < |source| ==> P(source[i].value)
    ensures forall i :: 0 <= i < |AssignFrom(target, source)| ==> P(AssignFrom(target, source)[i].value)
    decreases source
  {
    if source != [] {
      PutValues(target, source[0].key, source[0].value, P);
      AssignFromValues(Put(target, source[0].key, source[0].value), source[1..], P);
    }
  }
}
