/**
 * The user properties of a concept (`IProperties.getProperties()`): an
 * ordered list of key/value pairs in which a key may occur more than once.
 * These functions are the specifications of the property loops of
 * `EObjectProxy`; each is written from the back of the list so that a loop
 * over a growing prefix can be proved against it.
 */
module PropertyBag {
  import opened Wrappers
  import opened Graph

  type Bag = seq<Property>

  predicate DistinctStrings(s: seq<string>) {
    forall i, j :: 0 <= i < j < |s| ==> s[i] != s[j]
  }

  predicate HasKey(ps: Bag, k: string) {
    exists i :: 0 <= i < |ps| && ps[i].key == k
  }

  // ---------------------------------------------------------------------------
  // Keys (`prop()`)

  /** Each key once, in the order of its first occurrence. */
  function DistinctKeys(ps: Bag): (r: seq<string>)
    ensures DistinctStrings(r)
    ensures forall k :: k in r <==> HasKey(ps, k)
  {
    if ps == [] then []
    else
      var init := ps[..|ps| - 1];
      var d := DistinctKeys(init);
      var k := ps[|ps| - 1].key;
      assert forall k' :: HasKey(init, k') ==> HasKey(ps, k') by {
        forall k' | HasKey(init, k') ensures HasKey(ps, k') {
          var i :| 0 <= i < |init| && init[i].key == k';
          assert ps[i] == init[i];
        }
      }
      assert forall k' :: HasKey(ps, k') ==> HasKey(init, k') || k' == k by {
        forall k' | HasKey(ps, k') ensures HasKey(init, k') || k' == k {
          var i :| 0 <= i < |ps| && ps[i].key == k';
          if i < |init| { assert init[i] == ps[i]; }
        }
      }
      if k in d then d else d + [k]
  }

  /** Index of the first property with key `k`. */
  function FirstIndex(ps: Bag, k: string): (r: nat)
    requires HasKey(ps, k)
    ensures r < |ps| && ps[r].key == k
    ensures forall j :: 0 <= j < r ==> ps[j].key != k
  {
    if ps[0].key == k then 0
    else
      assert HasKey(ps[1..], k) by {
        var i :| 0 <= i < |ps| && ps[i].key == k;
        assert ps[1..][i - 1] == ps[i];
      }
      1 + FirstIndex(ps[1..], k)
  }

  /** The keys are listed in the order in which they first occur. */
  lemma {:induction false} DistinctKeysInFirstOccurrenceOrder(ps: Bag, i: nat, j: nat)
    requires i < j < |DistinctKeys(ps)|
    ensures HasKey(ps, DistinctKeys(ps)[i]) && HasKey(ps, DistinctKeys(ps)[j])
    ensures FirstIndex(ps, DistinctKeys(ps)[i]) < FirstIndex(ps, DistinctKeys(ps)[j])
  {
    var init := ps[..|ps| - 1];
    var d := DistinctKeys(init);
    var k := ps[|ps| - 1].key;
    var r := DistinctKeys(ps);
    assert r[i] in r && r[j] in r;
    FirstIndexPrefix(ps, r[i]);
    FirstIndexPrefix(ps, r[j]);
    if j < |d| {
      assert r[i] == d[i] && r[j] == d[j];
      DistinctKeysInFirstOccurrenceOrder(init, i, j);
    } else {
      assert r[j] == k && k !in d && r[i] == d[i];
      assert d[i] in d;
      assert FirstIndex(ps, r[i]) < |init|;
      assert !HasKey(init, k);
    }
  }

  /** The first occurrence of a key that occurs in a prefix is found in that prefix. */
  lemma FirstIndexPrefix(ps: Bag, k: string)
    requires ps != [] && HasKey(ps, k)
    ensures HasKey(ps[..|ps| - 1], k) ==> FirstIndex(ps, k) == FirstIndex(ps[..|ps| - 1], k)
    ensures !HasKey(ps[..|ps| - 1], k) ==> FirstIndex(ps, k) == |ps| - 1
  {
    var init := ps[..|ps| - 1];
    if HasKey(init, k) {
      var f := FirstIndex(init, k);
      assert ps[f] == init[f];
      forall j | 0 <= j < f ensures ps[j].key != k { assert ps[j] == init[j]; }
      FirstIndexUnique(ps, k, f);
    } else {
      forall j | 0 <= j < |ps| - 1 ensures ps[j].key != k { assert ps[j] == init[j]; }
      FirstIndexUnique(ps, k, |ps| - 1);
    }
  }

  lemma {:induction false} FirstIndexUnique(ps: Bag, k: string, f: nat)
    requires f < |ps| && ps[f].key == k && forall j :: 0 <= j < f ==> ps[j].key != k
    ensures FirstIndex(ps, k) == f
  {
    if f > 0 {
      FirstIndexUnique(ps[1..], k, f - 1);
    }
  }

  // ---------------------------------------------------------------------------
  // Values of a key (`getPropertyValue`)

  /** The values of the properties whose key is `k`, in list order; a null
      key matches nothing. */
  function ValuesOf(ps: Bag, k: Option<string>): (r: seq<string>)
    ensures |r| <= |ps|
  {
    if ps == [] || k.None? then []
    else
      var init := ps[..|ps| - 1];
      var last := ps[|ps| - 1];
      ValuesOf(init, k) + (if last.key == k.value then [last.value] else [])
  }

  lemma {:induction false} ValuesOfMembership(ps: Bag, k: string, v: string)
    ensures v in ValuesOf(ps, Some(k)) <==> Property(k, v) in ps
  {
    if ps != [] {
      var init := ps[..|ps| - 1];
      ValuesOfMembership(init, k, v);
      assert ps == init + [ps[|ps| - 1]];
    }
  }

  lemma {:induction false} ValuesOfAppend(a: Bag, b: Bag, k: Option<string>)
    ensures ValuesOf(a + b, k) == ValuesOf(a, k) + ValuesOf(b, k)
  {
    if b != [] && k.Some? {
      var b' := b[..|b| - 1];
      var last := b[|b| - 1];
      var tail := if last.key == k.value then [last.value] else [];
      assert (a + b)[..|a + b| - 1] == a + b';
      assert (a + b)[|a + b| - 1] == last;
      ValuesOfAppend(a, b', k);
      calc {
        ValuesOf(a + b, k);
        ValuesOf(a + b', k) + tail;
        ValuesOf(a, k) + ValuesOf(b', k) + tail;
        ValuesOf(a, k) + (ValuesOf(b', k) + tail);
      }
    } else if b == [] {
      assert a + b == a;
    }
  }

  lemma {:induction false} ValuesOfNone(ps: Bag, k: string)
    requires !HasKey(ps, k)
    ensures ValuesOf(ps, Some(k)) == []
  {
    if ps != [] {
      var init := ps[..|ps| - 1];
      assert !HasKey(init, k) by {
        forall i | 0 <= i < |init| ensures init[i].key != k { assert init[i] == ps[i]; }
      }
      ValuesOfNone(init, k);
      assert ps[|ps| - 1].key != k;
    }
  }

  /** The first value of a key is the value of its first occurrence. */
  lemma {:induction false} ValuesOfHead(ps: Bag, k: string)
    requires HasKey(ps, k)
    ensures ValuesOf(ps, Some(k)) != []
    ensures ValuesOf(ps, Some(k))[0] == ps[FirstIndex(ps, k)].value
  {
    var f := FirstIndex(ps, k);
    assert ps == ps[..f] + [ps[f]] + ps[f + 1..];
    ValuesOfAppend(ps[..f] + [ps[f]], ps[f + 1..], Some(k));
    ValuesOfAppend(ps[..f], [ps[f]], Some(k));
    assert !HasKey(ps[..f], k) by {
      forall i | 0 <= i < f ensures ps[..f][i].key != k { assert ps[..f][i] == ps[i]; }
    }
    ValuesOfNone(ps[..f], k);
    assert ValuesOf([ps[f]], Some(k)) == [ps[f].value] by {
      assert [ps[f]][..0] == [];
    }
  }

  // ---------------------------------------------------------------------------
  // Update of every match (`addOrUpdateProperty` when the key exists)

  function SetIfKey(p: Property, k: string, v: string): Property {
    if p.key == k then p.(value := v) else p
  }

  /** Every property with key `k` given the value `v`. */
  function UpdateAll(ps: Bag, k: string, v: string): (r: Bag)
    ensures |r| == |ps|
    ensures forall i :: 0 <= i < |ps| ==> r[i] == SetIfKey(ps[i], k, v)
  {
    if ps == [] then []
    else UpdateAll(ps[..|ps| - 1], k, v) + [SetIfKey(ps[|ps| - 1], k, v)]
  }

  /** One more property of the prefix updated. */
  lemma UpdateAllStep(ps: Bag, i: nat, k: string, v: string)
    requires i < |ps|
    ensures UpdateAll(ps[..i + 1], k, v) + ps[i + 1..] == (UpdateAll(ps[..i], k, v) + ps[i..])[i := SetIfKey(ps[i], k, v)]
  {
    var a := UpdateAll(ps[..i + 1], k, v) + ps[i + 1..];
    var b := (UpdateAll(ps[..i], k, v) + ps[i..])[i := SetIfKey(ps[i], k, v)];
    assert |a| == |b|;
    forall j | 0 <= j < |a| ensures a[j] == b[j] {
      if j < i {
        assert a[j] == SetIfKey(ps[j], k, v);
      } else if j > i {
        assert a[j] == ps[j];
      }
    }
  }

  lemma UpdateAllStart(ps: Bag, k: string, v: string)
    ensures UpdateAll(ps[..0], k, v) + ps[0..] == ps
  {
    assert ps[..0] == [] && ps[0..] == ps;
  }

  /** `addOrUpdateProperty`: the bag after setting `k` to `v` without duplicates. */
  function AddOrUpdate(ps: Bag, k: string, v: string): Bag {
    if HasKey(ps, k) then UpdateAll(ps, k, v) else ps + [Property(k, v)]
  }

  /** After the update the key has only the value `v` (once per occurrence,
      once when it was added), and no other key changes. */
  lemma AddOrUpdateSpec(ps: Bag, k: string, v: string, k': string)
    ensures HasKey(AddOrUpdate(ps, k, v), k)
    ensures forall w :: w in ValuesOf(AddOrUpdate(ps, k, v), Some(k)) ==> w == v
    ensures !HasKey(ps, k) ==> ValuesOf(AddOrUpdate(ps, k, v), Some(k)) == [v]
    ensures HasKey(ps, k) ==> |AddOrUpdate(ps, k, v)| == |ps|
    ensures k' != k ==> ValuesOf(AddOrUpdate(ps, k, v), Some(k')) == ValuesOf(ps, Some(k'))
  {
    AddOrUpdateOnlyValue(ps, k, v);
    if HasKey(ps, k) {
      var i :| 0 <= i < |ps| && ps[i].key == k;
      assert AddOrUpdate(ps, k, v)[i].key == k;
    } else {
      AddOrUpdateAppends(ps, k, v);
    }
    if k' != k {
      AddOrUpdateOtherKey(ps, k, v, k');
    }
  }

  /** Every value of `k` after the update is `v`. */
  lemma AddOrUpdateOnlyValue(ps: Bag, k: string, v: string)
    ensures forall w :: w in ValuesOf(AddOrUpdate(ps, k, v), Some(k)) ==> w == v
  {
    var r := AddOrUpdate(ps, k, v);
    forall w | w in ValuesOf(r, Some(k)) ensures w == v {
      ValuesOfMembership(r, k, w);
      if !HasKey(ps, k) {
        var i :| 0 <= i < |r| && r[i] == Property(k, w);
        assert forall j :: 0 <= j < |ps| ==> r[j] == ps[j] && ps[j].key != k;
        assert r[|ps|] == Property(k, v);
      }
    }
  }

  /** A key that was absent is added once, with the value `v`. */
  lemma AddOrUpdateAppends(ps: Bag, k: string, v: string)
    requires !HasKey(ps, k)
    ensures HasKey(AddOrUpdate(ps, k, v), k)
    ensures ValuesOf(AddOrUpdate(ps, k, v), Some(k)) == [v]
  {
    assert AddOrUpdate(ps, k, v)[|ps|].key == k;
    ValuesOfAppend(ps, [Property(k, v)], Some(k));
    ValuesOfNone(ps, k);
    assert [Property(k, v)][..0] == [];
  }

  /** The values of any other key are untouched. */
  lemma AddOrUpdateOtherKey(ps: Bag, k: string, v: string, k': string)
    requires k' != k
    ensures ValuesOf(AddOrUpdate(ps, k, v), Some(k')) == ValuesOf(ps, Some(k'))
  {
    if HasKey(ps, k) {
      UpdateAllOtherKey(ps, k, v, k');
    } else {
      ValuesOfAppend(ps, [Property(k, v)], Some(k'));
      assert [Property(k, v)][..0] == [];
    }
  }

  lemma {:induction false} UpdateAllOtherKey(ps: Bag, k: string, v: string, k': string)
    requires k' != k
    ensures ValuesOf(UpdateAll(ps, k, v), Some(k')) == ValuesOf(ps, Some(k'))
  {
    if ps != [] {
      var r := UpdateAll(ps, k, v);
      assert r[..|r| - 1] == UpdateAll(ps[..|ps| - 1], k, v);
      UpdateAllOtherKey(ps[..|ps| - 1], k, v, k');
    }
  }

  /** Setting the same value twice changes nothing the second time. */
  lemma AddOrUpdateIdempotent(ps: Bag, k: string, v: string)
    ensures AddOrUpdate(AddOrUpdate(ps, k, v), k, v) == AddOrUpdate(ps, k, v)
  {
    var r := AddOrUpdate(ps, k, v);
    assert r[if HasKey(ps, k) then FirstIndex(ps, k) else |ps|].key == k;
    var r2 := UpdateAll(r, k, v);
    assert |r2| == |r|;
    forall i | 0 <= i < |r| ensures r2[i] == r[i] {
      if i < |ps| { assert r[i] == (if HasKey(ps, k) then SetIfKey(ps[i], k, v) else ps[i]); }
    }
  }

  // ---------------------------------------------------------------------------
  // Removal (`removeProp`)

  /** The property has key `k` and, when a value is given, that value. */
  predicate Matches(p: Property, k: Option<string>, value: Option<string>) {
    k.Some? && p.key == k.value && (value.None? || p.value == value.value)
  }

  /** The bag without the matching properties, order kept. */
  function RemoveMatching(ps: Bag, k: Option<string>, value: Option<string>): (r: Bag)
    ensures forall p :: p in r <==> p in ps && !Matches(p, k, value)
  {
    if ps == [] then []
    else
      var init := ps[..|ps| - 1];
      var last := ps[|ps| - 1];
      assert ps == init + [last];
      RemoveMatching(init, k, value) + (if Matches(last, k, value) then [] else [last])
  }

  /** Indices of the matching properties, increasing: what the loop collects. */
  function RemovalIndices(ps: Bag, k: Option<string>, value: Option<string>): (r: seq<nat>)
    ensures forall j :: j in r ==> j < |ps| && Matches(ps[j], k, value)
  {
    if ps == [] then []
    else
      var init := ps[..|ps| - 1];
      var rest := RemovalIndices(init, k, value);
      assert forall j :: j in rest ==> j < |init| && ps[j] == init[j];
      rest + (if Matches(ps[|ps| - 1], k, value) then [|ps| - 1] else [])
  }

  /** `RemovePropertiesCommand`: the bag without the entries at the given indices. */
  function RemoveIndices(ps: Bag, indices: seq<nat>): (r: Bag)
    ensures |r| <= |ps|
  {
    if ps == [] then []
    else
      RemoveIndices(ps[..|ps| - 1], indices) + (if |ps| - 1 in indices then [] else [ps[|ps| - 1]])
  }

  lemma {:induction false} RemoveIndicesIgnoresLarge(ps: Bag, indices: seq<nat>, j: nat)
    requires j >= |ps|
    ensures RemoveIndices(ps, indices + [j]) == RemoveIndices(ps, indices)
  {
    if ps != [] {
      RemoveIndicesIgnoresLarge(ps[..|ps| - 1], indices, j);
    }
  }

  /** Removing the collected indices removes exactly the matching properties. */
  lemma {:induction false} RemoveCollected(ps: Bag, k: Option<string>, value: Option<string>)
    ensures RemoveIndices(ps, RemovalIndices(ps, k, value)) == RemoveMatching(ps, k, value)
  {
    if ps != [] {
      var init := ps[..|ps| - 1];
      var n := |ps| - 1;
      var rest := RemovalIndices(init, k, value);
      RemoveCollected(init, k, value);
      if Matches(ps[n], k, value) {
        RemoveIndicesIgnoresLarge(init, rest, n);
        assert n in rest + [n];
      } else {
        assert n !in rest;
        assert RemovalIndices(ps, k, value) == rest;
        assert RemoveIndices(ps, rest) == RemoveIndices(init, rest) + [ps[n]];
      }
    }
  }

  /** After removal no property matches and every non-matching one is kept. */
  lemma RemoveMatchingSpec(ps: Bag, k: Option<string>, value: Option<string>)
    ensures forall i :: 0 <= i < |RemoveMatching(ps, k, value)| ==> !Matches(RemoveMatching(ps, k, value)[i], k, value)
    ensures forall i :: 0 <= i < |ps| && !Matches(ps[i], k, value) ==> ps[i] in RemoveMatching(ps, k, value)
    ensures value.None? && k.Some? ==> ValuesOf(RemoveMatching(ps, k, value), k) == []
  {
    var r := RemoveMatching(ps, k, value);
    forall i | 0 <= i < |r| ensures !Matches(r[i], k, value) { assert r[i] in r; }
    if value.None? && k.Some? {
      assert !HasKey(r, k.value) by {
        forall i | 0 <= i < |r| ensures r[i].key != k.value { assert r[i] in r; }
      }
      ValuesOfNone(r, k.value);
    }
  }

  /** Removing twice removes nothing more. */
  lemma RemoveMatchingIdempotent(ps: Bag, k: Option<string>, value: Option<string>)
    ensures RemoveMatching(RemoveMatching(ps, k, value), k, value) == RemoveMatching(ps, k, value)
  {
    var r := RemoveMatching(ps, k, value);
    forall i | 0 <= i < |r| ensures !Matches(r[i], k, value) { assert r[i] in r; }
    NothingToRemove(r, k, value);
  }

  lemma {:induction false} NothingToRemove(ps: Bag, k: Option<string>, value: Option<string>)
    requires forall i :: 0 <= i < |ps| ==> !Matches(ps[i], k, value)
    ensures RemoveMatching(ps, k, value) == ps
  {
    if ps != [] {
      var init := ps[..|ps| - 1];
      forall i | 0 <= i < |init| ensures !Matches(init[i], k, value) { assert init[i] == ps[i]; }
      NothingToRemove(init, k, value);
      assert !Matches(ps[|ps| - 1], k, value);
      assert ps == init + [ps[|ps| - 1]];
    }
  }
}
