/**
 Python dictionary literals and `dict.update`, as Dafny maps.

 A literal `{k1: v1, ..., kn: vn}` is evaluated left to right and a key
 written twice keeps its last value; `MapOf` builds exactly that from the
 list of pairs. `d.update(e)` is the right-biased union `d + e`.
 */
module Dicts {

  /** The dictionary denoted by the literal whose entries are `ps`, in order. */
  function MapOf<K, V>(ps: seq<(K, V)>): map<K, V>
    decreases |ps|
  {
    if ps == [] then map[] else MapOf(ps[..|ps| - 1])[ps[|ps| - 1].0 := ps[|ps| - 1].1]
  }

  /** No key is written twice in the list of entries. */
  ghost predicate DistinctKeys<K, V>(ps: seq<(K, V)>) {
    forall a, b :: 0 <= a < b < |ps| ==> ps[a].0 != ps[b].0
  }

  /** No value is written twice in the list of entries. */
  ghost predicate DistinctValues<K, V>(ps: seq<(K, V)>) {
    forall a, b :: 0 <= a < b < |ps| ==> ps[a].1 != ps[b].1
  }

  /** Distinct keys are mapped to distinct values. */
  ghost predicate Injective<K, V>(m: map<K, V>) {
    forall x, y :: x in m && y in m && x != y ==> m[x] != m[y]
  }

  /** The keys of a literal are exactly the keys written in it. */
  lemma {:induction false} MapOfDomain<K, V>(ps: seq<(K, V)>, k: K)
    ensures k in MapOf(ps) <==> exists j :: 0 <= j < |ps| && ps[j].0 == k
    decreases |ps|
  {
    if ps != [] {
      var init := ps[..|ps| - 1];
      MapOfDomain(init, k);
      if k in MapOf(init) {
        var j :| 0 <= j < |init| && init[j].0 == k;
        assert ps[j].0 == k;
      }
      if exists j :: 0 <= j < |ps| && ps[j].0 == k {
        var j :| 0 <= j < |ps| && ps[j].0 == k;
        if j < |ps| - 1 {
          assert init[j].0 == k;
        }
      }
    }
  }

  /** When no key repeats, every entry of the literal survives with its own value. */
  lemma {:induction false} MapOfValue<K, V>(ps: seq<(K, V)>, j: nat)
    requires DistinctKeys(ps) && j < |ps|
    ensures ps[j].0 in MapOf(ps) && MapOf(ps)[ps[j].0] == ps[j].1
    decreases |ps|
  {
    if j < |ps| - 1 {
      var init := ps[..|ps| - 1];
      assert init[j] == ps[j];
      assert DistinctKeys(init) by {
        forall a, b | 0 <= a < b < |init| ensures init[a].0 != init[b].0 {
          assert init[a] == ps[a] && init[b] == ps[b];
        }
      }
      MapOfValue(init, j);
      assert ps[j].0 != ps[|ps| - 1].0;
    }
  }

  /** When no key repeats, the dictionary has one key per entry. */
  lemma {:induction false} MapOfSize<K, V>(ps: seq<(K, V)>)
    requires DistinctKeys(ps)
    ensures |MapOf(ps)| == |ps|
    decreases |ps|
  {
    if ps != [] {
      var init := ps[..|ps| - 1];
      var last := ps[|ps| - 1];
      assert DistinctKeys(init) by {
        forall a, b | 0 <= a < b < |init| ensures init[a].0 != init[b].0 {
          assert init[a] == ps[a] && init[b] == ps[b];
        }
      }
      MapOfSize(init);
      MapOfDomain(init, last.0);
      assert last.0 !in MapOf(init);
      assert MapOf(ps).Keys == MapOf(init).Keys + {last.0};
    }
  }

  /** When neither keys nor values repeat, the dictionary is injective. */
  lemma MapOfInjective<K, V>(ps: seq<(K, V)>)
    requires DistinctKeys(ps) && DistinctValues(ps)
    ensures Injective(MapOf(ps))
  {
    var m := MapOf(ps);
    forall x, y | x in m && y in m && x != y ensures m[x] != m[y] {
      MapOfDomain(ps, x);
      MapOfDomain(ps, y);
      var a :| 0 <= a < |ps| && ps[a].0 == x;
      var b :| 0 <= b < |ps| && ps[b].0 == y;
      MapOfValue(ps, a);
      MapOfValue(ps, b);
    }
  }

  /** `d.update(e)` with keys new to `d` grows `d` by the size of `e` and keeps all of `d`. */
  lemma UpdateFresh<K, V>(d: map<K, V>, e: map<K, V>)
    requires d.Keys !! e.Keys
    ensures |d + e| == |d| + |e|
    ensures forall k :: k in d ==> k in d + e && (d + e)[k] == d[k]
  {
    assert (d + e).Keys == d.Keys + e.Keys;
  }
}
