/** Maps built from key/value lists. */
module AssocMaps {

  ghost predicate DistinctKeys<K, V>(ps: seq<(K, V)>) {
    forall i, j :: 0 <= i < j < |ps| ==> ps[i].0 != ps[j].0
  }

  ghost predicate HasKey<K, V>(ps: seq<(K, V)>, k: K) {
    exists i :: 0 <= i < |ps| && ps[i].0 == k
  }

  function ToMap<K, V>(ps: seq<(K, V)>): map<K, V> {
    if ps == [] then map[] else map[ps[0].0 := ps[0].1] + ToMap(ps[1..])
  }

  lemma {:induction false} ToMapKeys<K(!new), V>(ps: seq<(K, V)>)
    ensures forall k {:trigger k in ToMap(ps)} :: k in ToMap(ps) <==> HasKey(ps, k)
  {
    if ps != [] {
      var rest := ps[1..];
      ToMapKeys(rest);
      forall k {:trigger k in ToMap(ps)} ensures k in ToMap(ps) <==> HasKey(ps, k) {
        if k in ToMap(ps) && k != ps[0].0 {
          assert k in ToMap(rest);
          var i :| 0 <= i < |rest| && rest[i].0 == k;
          assert ps[i + 1].0 == k;
        }
        if HasKey(ps, k) && k != ps[0].0 {
          var i :| 0 <= i < |ps| && ps[i].0 == k;
          assert rest[i - 1].0 == k;
        }
      }
    }
  }

  lemma TailLacksHead<K(!new), V>(ps: seq<(K, V)>)
    requires DistinctKeys(ps) && ps != []
    ensures ps[0].0 !in ToMap(ps[1..])
  {
    ToMapKeys(ps[1..]);
    assert forall i :: 0 < i < |ps| ==> ps[1..][i - 1] == ps[i];
  }

  lemma {:induction false} ToMapAt<K(!new), V>(ps: seq<(K, V)>, i: nat)
    requires DistinctKeys(ps) && i < |ps|
    ensures ps[i].0 in ToMap(ps) && ToMap(ps)[ps[i].0] == ps[i].1
  {
    var rest := ps[1..];
    ToMapKeys(rest);
    if i == 0 {
      assert !HasKey(rest, ps[0].0);
    } else {
      ToMapAt(rest, i - 1);
    }
  }

  /** With distinct keys the map depends only on which pairs there are. */
  lemma SamePairsSameMap<K(!new), V(!new)>(ps: seq<(K, V)>, qs: seq<(K, V)>)
    requires DistinctKeys(ps) && DistinctKeys(qs)
    requires forall p :: p in ps <==> p in qs
    ensures ToMap(ps) == ToMap(qs)
  {
    ToMapKeys(ps);
    ToMapKeys(qs);
    forall k ensures k in ToMap(ps) <==> k in ToMap(qs) {
      if HasKey(ps, k) {
        var i :| 0 <= i < |ps| && ps[i].0 == k;
        assert ps[i] in qs;
      }
      if HasKey(qs, k) {
        var i :| 0 <= i < |qs| && qs[i].0 == k;
        assert qs[i] in ps;
      }
    }
    forall k | k in ToMap(ps) ensures ToMap(ps)[k] == ToMap(qs)[k] {
      var i :| 0 <= i < |ps| && ps[i].0 == k;
      assert ps[i] in qs;
      var j :| 0 <= j < |qs| && qs[j] == ps[i];
      ToMapAt(ps, i);
      ToMapAt(qs, j);
    }
  }
}
