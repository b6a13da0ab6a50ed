/**
 * The untyped JavaScript values a transaction is made of, and the few
 * operations of the language the signing code applies to them: reading a
 * property, truthiness for `||`, and the own enumerable properties that
 * `Object.assign` copies.
 */
module JsValue {
  import opened JsString
  import opened JsObject
  import opened Outcomes

  /**
   * A JavaScript value built from JSON-like parts. Numbers are integers;
   * an object lists its own properties in enumeration order.
   */
  datatype Json =
    | Undefined
    | Null
    | Bool(b: bool)
    | Num(n: int)
    | Str(s: string)
    | Arr(items: seq<Json>)
    | Obj(props: seq<Prop<Json>>)

  /** The `TypeError`s and the entropy error the signing code can throw. */
  datatype Error =
    | NullToObject               // Object.keys(null)
    | ReadOfNullish(key: string) // reading property `key` of undefined or null
    | EntropyLength              // "Entropy has incorrect length"

  type Outcome<T> = Result<T, Error>

  predicate Nullish(v: Json)
  {
    v.Undefined? || v.Null?
  }

  /** ToBoolean: the values `||` does not replace. */
  predicate Truthy(v: Json)
  {
    match v
    case Undefined | Null => false
    case Bool(b) => b
    case Num(n) => n != 0
    case Str(s) => s != []
    case Arr(_) | Obj(_) => true
  }

  /** `o[k]` on an object: its own property `k`, or undefined. */
  function Lookup(ps: seq<Prop<Json>>, k: string): Json
  {
    match Find(ps, k)
    case Some(v) => v
    case None => Undefined
  }

  /**
   * `v[k]`: throws on undefined and null. Arrays and strings have their
   * elements and `length` as own properties; inherited members of the
   * prototypes are not values of this model, so reading one gives undefined.
   */
  function Get(v: Json, k: string): (r: Outcome<Json>)
    ensures r.Failure? <==> Nullish(v)
    ensures r.Failure? ==> r.error == ReadOfNullish(k)
  {
    match v
    case Undefined | Null => Failure(ReadOfNullish(k))
    case Obj(ps) => Success(Lookup(ps, k))
    case Arr(items) =>
      if IsArrayIndex(k) && IndexValue(k) < |items| then Success(items[IndexValue(k)])
      else if k == "length" then Success(Num(|items|))
      else Success(Undefined)
    case Str(s) =>
      if IsArrayIndex(k) && IndexValue(k) < |s| then Success(Str([s[IndexValue(k)]]))
      else if k == "length" then Success(Num(|Utf16(s)|))
      else Success(Undefined)
    case _ => Success(Undefined)
  }

  /** The own enumerable string-keyed properties `Object.assign` copies from `v`, in order. */
  function OwnEntries(v: Json): seq<Prop<Json>>
  {
    match v
    case Obj(ps) => ps
    case Arr(items) => seq(|items|, i requires 0 <= i < |items| => Prop(Decimal(i), items[i]))
    case Str(s) => seq(|s|, i requires 0 <= i < |s| => Prop(Decimal(i), Str([s[i]])))
    case _ => []
  }

  /**
   * A string with no supplementary character has one own entry per UTF-16
   * code unit, each holding that unit, as in JavaScript, and its `length`
   * counts them.
   */
  lemma StrEntriesAreCodeUnits(s: string)
    requires forall j :: 0 <= j < |s| ==> s[j] as int < 0x1_0000
    ensures Get(Str(s), "length") == Success(Num(|OwnEntries(Str(s))|))
    ensures |OwnEntries(Str(s))| == |Utf16(s)|
    ensures forall j :: 0 <= j < |s| ==>
              && OwnEntries(Str(s))[j].value.Str?
              && |OwnEntries(Str(s))[j].value.s| == 1
              && OwnEntries(Str(s))[j].value.s[0] as int == Utf16(s)[j]
  {
    Utf16OfBasic(s);
    assert !IsArrayIndex("length");
  }

  /**
   * Every object in `v`, at any depth, has the shape of a real JavaScript
   * object: each name once, the array-index names first in numeric order.
   */
  predicate WellFormed(v: Json)
  {
    match v
    case Arr(items) => forall i :: 0 <= i < |items| ==> WellFormed(items[i])
    case Obj(ps) => Shaped(ps) && forall i :: 0 <= i < |ps| ==> WellFormed(ps[i].value)
    case _ => true
  }

  /**
   * `a` and `b` are the same value except for the order in which the
   * properties of their objects, at any depth, were listed.
   */
  ghost predicate SameUpToKeyOrder(a: Json, b: Json)
  {
    match a
    case Arr(xs) =>
      && b.Arr? && |xs| == |b.items|
      && forall i :: 0 <= i < |xs| ==> SameUpToKeyOrder(xs[i], b.items[i])
    case Obj(ps) =>
      && b.Obj?
      && (forall k :: k in Keys(ps) <==> k in Keys(b.props))
      && forall i :: 0 <= i < |ps| ==> SameUpToKeyOrder(ps[i].value, Lookup(b.props, ps[i].key))
    case _ => a == b
  }

  /** Every well-formed value is the same as itself up to key order. */
  lemma {:induction false} SameUpToKeyOrderReflexive(v: Json)
    requires WellFormed(v)
    ensures SameUpToKeyOrder(v, v)
  {
    match v
    case Arr(items) =>
      forall i | 0 <= i < |items| ensures SameUpToKeyOrder(items[i], items[i]) {
        SameUpToKeyOrderReflexive(items[i]);
      }
    case Obj(ps) =>
      forall i | 0 <= i < |ps| ensures SameUpToKeyOrder(ps[i].value, Lookup(ps, ps[i].key)) {
        FindAt(ps, i);
        SameUpToKeyOrderReflexive(ps[i].value);
      }
    case _ =>
  }

  /** Listing the same properties in another order gives the same object up to key order. */
  lemma PermutedProps(ps: seq<Prop<Json>>, qs: seq<Prop<Json>>)
    requires WellFormed(Obj(ps)) && WellFormed(Obj(qs)) && multiset(ps) == multiset(qs)
    ensures SameUpToKeyOrder(Obj(ps), Obj(qs))
  {
    forall k ensures k in Keys(ps) <==> k in Keys(qs) {
      if k in Keys(ps) {
        var i :| 0 <= i < |ps| && Keys(ps)[i] == k;
        assert ps[i] in multiset(qs);
        var n :| 0 <= n < |qs| && qs[n] == ps[i];
        assert Keys(qs)[n] == k;
      }
      if k in Keys(qs) {
        var n :| 0 <= n < |qs| && Keys(qs)[n] == k;
        assert qs[n] in multiset(ps);
        var i :| 0 <= i < |ps| && ps[i] == qs[n];
        assert Keys(ps)[i] == k;
      }
    }
    forall i | 0 <= i < |ps| ensures SameUpToKeyOrder(ps[i].value, Lookup(qs, ps[i].key)) {
      assert ps[i] in multiset(qs);
      var n :| 0 <= n < |qs| && qs[n] == ps[i];
      FindAt(qs, n);
      SameUpToKeyOrderReflexive(ps[i].value);
    }
  }

  /**
   * Reading a property does not see the order of the properties: two values
   * that differ only in it both throw, with the same error, or give values
   * that again differ only in it.
   */
  lemma GetIgnoresKeyOrder(a: Json, b: Json, k: string)
    requires WellFormed(a) && WellFormed(b) && SameUpToKeyOrder(a, b)
    ensures Get(a, k).Failure? <==> Get(b, k).Failure?
    ensures Get(a, k).Failure? ==> Get(a, k) == Get(b, k)
    ensures Get(a, k).Success? ==>
              && WellFormed(Get(a, k).value) && WellFormed(Get(b, k).value)
              && SameUpToKeyOrder(Get(a, k).value, Get(b, k).value)
  {
    match a
    case Obj(ps) =>
      var qs := b.props;
      IndexOfKeys(ps, k);
      IndexOfKeys(qs, k);
      if k in Keys(ps) {
        var i := IndexOf(ps, k);
        var j := IndexOf(qs, k);
        FindAt(ps, i);
        FindAt(qs, j);
      }
    case Arr(xs) =>
    case _ =>
  }

  /** Two objects listing the same names in the same order, value by value the same up to key order. */
  lemma PairwiseSameUpToKeyOrder(ps: seq<Prop<Json>>, qs: seq<Prop<Json>>)
    requires Shaped(ps) && Keys(ps) == Keys(qs)
    requires forall i :: 0 <= i < |ps| ==>
               WellFormed(ps[i].value) && WellFormed(qs[i].value) && SameUpToKeyOrder(ps[i].value, qs[i].value)
    ensures WellFormed(Obj(ps)) && WellFormed(Obj(qs)) && SameUpToKeyOrder(Obj(ps), Obj(qs))
  {
    assert forall i :: 0 <= i < |ps| ==> ps[i].key == qs[i].key by {
      forall i | 0 <= i < |ps| ensures ps[i].key == qs[i].key {
        assert Keys(ps)[i] == Keys(qs)[i];
      }
    }
    assert Shaped(qs);
    forall i | 0 <= i < |ps| ensures Lookup(qs, ps[i].key) == qs[i].value {
      FindAt(qs, i);
    }
  }
}
