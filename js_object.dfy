/** Plain JavaScript objects as the editor uses them for forms and setting maps:
    a sequence of (key, value) entries in insertion order. Reading a missing key
    gives undefined; writing an existing key replaces its value where it stands,
    writing a new key appends it. */
module JsObject {
  import opened Js

  datatype Entry = Entry(key: string, value: Value)

  type Object = seq<Entry>

  /** `Object.keys(o)`. */
  function Keys(o: Object): (r: seq<string>)
    ensures |r| == |o| && forall i :: 0 <= i < |o| ==> r[i] == o[i].key
  {
    if o == [] then [] else [o[0].key] + Keys(o[1..])
  }

  /** `k in o`. */
  predicate Has(o: Object, k: string) {
    k in Keys(o)
  }

  /** Every key occurs once, as in any JavaScript object. */
  predicate UniqueKeys(o: Object) {
    forall i, j :: 0 <= i < j < |o| ==> o[i].key != o[j].key
  }

  /** `o[k]`. */
  function Get(o: Object, k: string): (r: Value)
    ensures !Has(o, k) ==> r == Undefined
  {
    if o == [] then Undefined else if o[0].key == k then o[0].value else Get(o[1..], k)
  }

  /** `o[k] = v`. */
  function Set(o: Object, k: string, v: Value): (r: Object)
    ensures !Has(o, k) ==> r == o + [Entry(k, v)]
    ensures Keys(r) == if Has(o, k) then Keys(o) else Keys(o) + [k]
  {
    if o == [] then [Entry(k, v)]
    else if o[0].key == k then [Entry(k, v)] + o[1..]
    else
      var rest := Set(o[1..], k, v);
      KeysCons(o[0], o[1..]);
      KeysCons(o[0], rest);
      assert Has(o, k) <==> Has(o[1..], k);
      assert !Has(o, k) ==> [o[0]] + rest == o + [Entry(k, v)] by {
        assert o == [o[0]] + o[1..];
      }
      [o[0]] + rest
  }

  lemma KeysCons(e: Entry, o: Object)
    ensures Keys([e] + o) == [e.key] + Keys(o)
  {
    assert ([e] + o)[1..] == o;
  }

  /** lodash `fromPairs`: the pairs are written in order, so a later duplicate
      key overwrites an earlier one in the earlier one's position. */
  function FromPairs(pairs: seq<Entry>): (r: Object)
    ensures UniqueKeys(r)
  {
    if pairs == [] then []
    else
      var last := pairs[|pairs| - 1];
      var init := FromPairs(pairs[..|pairs| - 1]);
      SetKeepsUnique(init, last.key, last.value);
      Set(init, last.key, last.value)
  }

  /** One step of lodash `merge` for a flat source property: an undefined source
      value does not overwrite a property the destination already has. */
  function MergeEntry(acc: Object, e: Entry): Object {
    if e.value.Undefined? && Has(acc, e.key) then acc else Set(acc, e.key, e.value)
  }

  /** lodash `merge(dst, src)` for objects whose values are not themselves objects. */
  function Merge(dst: Object, src: Object): (r: Object)
    ensures UniqueKeys(dst) ==> UniqueKeys(r)
  {
    if src == [] then dst
    else
      var acc := Merge(dst, src[..|src| - 1]);
      var e := src[|src| - 1];
      SetKeepsUnique(acc, e.key, e.value);
      MergeEntry(acc, e)
  }

  // ---------------------------------------------------------------------------
  // Lemmas

  /** Reading after writing: the written key gives the new value, every other
      key what it gave before. */
  lemma {:induction false} GetSet(o: Object, k: string, v: Value, k': string)
    ensures Get(Set(o, k, v), k') == if k' == k then v else Get(o, k')
  {
    if o != [] && o[0].key != k {
      GetSet(o[1..], k, v, k');
    }
  }

  /** Writing a property never creates a duplicate key. */
  lemma SetKeepsUnique(o: Object, k: string, v: Value)
    ensures UniqueKeys(o) ==> UniqueKeys(Set(o, k, v))
  {
    var r := Set(o, k, v);
    if UniqueKeys(o) && !Has(o, k) {
      assert r == o + [Entry(k, v)];
      forall i | 0 <= i < |o|
        ensures o[i].key != k
      {
        assert Keys(o)[i] == o[i].key;
      }
    } else if UniqueKeys(o) {
      forall i | 0 <= i < |r|
        ensures r[i].key == o[i].key
      {
        assert Keys(r)[i] == Keys(o)[i];
      }
    }
  }

  lemma {:induction false} GetAppend(o: Object, e: Entry, k: string)
    ensures Get(o + [e], k) == if Has(o, k) then Get(o, k) else if e.key == k then e.value else Undefined
  {
    if o != [] {
      assert (o + [e])[1..] == o[1..] + [e];
      assert Keys(o) == [o[0].key] + Keys(o[1..]);
      GetAppend(o[1..], e, k);
    }
  }

  /** In an object with unique keys, reading the key of the i-th entry gives its value. */
  lemma {:induction false} GetAt(o: Object, i: int)
    requires UniqueKeys(o) && 0 <= i < |o|
    ensures Get(o, o[i].key) == o[i].value
  {
    if i > 0 {
      GetAt(o[1..], i - 1);
    }
  }

  /** The last entry of a list with distinct keys is not among the earlier ones. */
  lemma LastKeyIsNew(pairs: seq<Entry>)
    requires UniqueKeys(pairs) && pairs != []
    ensures !Has(pairs[..|pairs| - 1], pairs[|pairs| - 1].key)
  {
    var init := pairs[..|pairs| - 1];
    forall i | 0 <= i < |init|
      ensures Keys(init)[i] != pairs[|pairs| - 1].key
    {
      assert Keys(init)[i] == pairs[i].key;
    }
  }

  /** A list of pairs whose keys are distinct is already the object lodash
      `fromPairs` builds from it, in the same order. */
  lemma {:induction false} FromPairsOfUnique(pairs: seq<Entry>)
    requires UniqueKeys(pairs)
    ensures FromPairs(pairs) == pairs
  {
    if pairs != [] {
      var init := pairs[..|pairs| - 1];
      var last := pairs[|pairs| - 1];
      assert UniqueKeys(init);
      FromPairsOfUnique(init);
      LastKeyIsNew(pairs);
      assert init + [last] == pairs;
    }
  }

  /** Merging a source whose keys are distinct and new to the destination
      appends the source's entries after the destination's. */
  lemma {:induction false} MergeDisjoint(dst: Object, src: Object)
    requires UniqueKeys(src)
    requires forall i :: 0 <= i < |src| ==> !Has(dst, src[i].key)
    ensures Merge(dst, src) == dst + src
  {
    if src != [] {
      var init := src[..|src| - 1];
      var last := src[|src| - 1];
      assert forall i :: 0 <= i < |init| ==> init[i] == src[i];
      assert UniqueKeys(init);
      assert forall i :: 0 <= i < |init| ==> !Has(dst, init[i].key);
      MergeDisjoint(dst, init);
      LastKeyIsNew(src);
      assert !Has(dst, last.key);
      KeysAppend(dst, init);
      SplitLast(src);
      MergeNewKey(dst, init, last);
    }
  }

  lemma SplitLast<T>(s: seq<T>)
    requires s != []
    ensures s == s[..|s| - 1] + [s[|s| - 1]]
  {
  }

  /** One step of a disjoint merge: a key new to both sides is appended. */
  lemma MergeNewKey(dst: Object, init: Object, last: Entry)
    requires Merge(dst, init) == dst + init
    requires !Has(dst, last.key) && !Has(init, last.key)
    requires Keys(dst + init) == Keys(dst) + Keys(init)
    ensures Merge(dst, init + [last]) == dst + (init + [last])
  {
    assert (init + [last])[..|init + [last]| - 1] == init;
    assert !Has(dst + init, last.key);
    assert (dst + init) + [last] == dst + (init + [last]);
  }

  /** `fromPairs` creates no key that none of the pairs carries. */
  lemma {:induction false} FromPairsLacks(pairs: seq<Entry>, k: string)
    ensures (forall i :: 0 <= i < |pairs| ==> pairs[i].key != k) ==>
              forall i :: 0 <= i < |FromPairs(pairs)| ==> FromPairs(pairs)[i].key != k
  {
    if pairs != [] && forall i :: 0 <= i < |pairs| ==> pairs[i].key != k {
      var init := pairs[..|pairs| - 1];
      var last := pairs[|pairs| - 1];
      FromPairsLacks(init, k);
      var o := FromPairs(init);
      var r := Set(o, last.key, last.value);
      assert r == FromPairs(pairs);
      forall i | 0 <= i < |r|
        ensures r[i].key != k
      {
        assert Keys(r)[i] == r[i].key;
        if i < |o| {
          assert Keys(o)[i] == o[i].key;
        }
      }
    }
  }

  /** `merge` leaves a key the source does not carry as the destination has it. */
  lemma {:induction false} MergeLacks(dst: Object, src: Object, k: string)
    ensures (forall i :: 0 <= i < |src| ==> src[i].key != k) ==> Get(Merge(dst, src), k) == Get(dst, k)
  {
    if src != [] && forall i :: 0 <= i < |src| ==> src[i].key != k {
      var init := src[..|src| - 1];
      var e := src[|src| - 1];
      MergeLacks(dst, init, k);
      var acc := Merge(dst, init);
      if !(e.value.Undefined? && Has(acc, e.key)) {
        GetSet(acc, e.key, e.value, k);
      }
    }
  }

  lemma {:induction false} KeysAppend(a: Object, b: Object)
    ensures Keys(a + b) == Keys(a) + Keys(b)
  {
    if a != [] {
      assert (a + b)[1..] == a[1..] + b;
      KeysAppend(a[1..], b);
    } else {
      assert a + b == b;
    }
  }
}
