/**
 * PHP arrays keep their keys in insertion order; assigning to a key that is already
 * present replaces the value in place, assigning to a new key appends it. `getServices`
 * builds its result this way (src/ServiceManager.php:606-616).
 */
module OrderedMaps {

  /** The keys of an ordered map, in order. */
  function Keys<K, V>(m: seq<(K, V)>): (ks: seq<K>)
    ensures |ks| == |m|
    ensures forall i :: 0 <= i < |m| ==> ks[i] == m[i].0
  {
    if m == [] then [] else [m[0].0] + Keys(m[1..])
  }

  /** No key occurs twice. */
  ghost predicate UniqueKeys<K, V>(m: seq<(K, V)>) {
    forall i, j :: 0 <= i < j < |m| ==> m[i].0 != m[j].0
  }

  /** `$m[$k] = $v`. */
  function Put<K(==), V>(m: seq<(K, V)>, k: K, v: V): (r: seq<(K, V)>)
    ensures k in Keys(m) ==> |r| == |m| && Keys(r) == Keys(m)
    ensures k !in Keys(m) ==> r == m + [(k, v)]
    ensures (k, v) in r
    ensures forall i :: 0 <= i < |m| && m[i].0 != k ==> i < |r| && r[i] == m[i]
  {
    if m == [] then [(k, v)]
    else if m[0].0 == k then [(k, v)] + m[1..]
    else
      var rest := Put(m[1..], k, v);
      assert Keys(m) == [m[0].0] + Keys(m[1..]);
      assert forall i :: 1 <= i < |m| && m[i].0 != k ==> m[i] == m[1..][i - 1];
      [m[0]] + rest
  }

  /** The value stored under k, if any (the first one, as keys are unique). */
  function Get<K(==), V>(m: seq<(K, V)>, k: K): (r: V)
    requires k in Keys(m)
    ensures (k, r) in m
  {
    if m[0].0 == k then m[0].1 else Get(m[1..], k)
  }

  /** Put keeps keys unique. */
  lemma PutKeepsUnique<K, V>(m: seq<(K, V)>, k: K, v: V)
    requires UniqueKeys(m)
    ensures UniqueKeys(Put(m, k, v))
  {
    var r := Put(m, k, v);
    if k in Keys(m) {
      assert Keys(r) == Keys(m);
      forall i, j | 0 <= i < j < |r| ensures r[i].0 != r[j].0 {
        assert r[i].0 == Keys(m)[i] == m[i].0 && r[j].0 == Keys(m)[j] == m[j].0;
      }
    } else {
      forall i, j | 0 <= i < j < |r| ensures r[i].0 != r[j].0 {
        if j == |m| {
          assert r[i].0 == Keys(m)[i];
        }
      }
    }
  }

  /** A lookup after Put returns the value just stored. */
  lemma {:induction false} PutThenGet<K, V>(m: seq<(K, V)>, k: K, v: V)
    ensures k in Keys(Put(m, k, v)) && Get(Put(m, k, v), k) == v
  {
    var r := Put(m, k, v);
    assert r[..1] + r[1..] == r;
    if m != [] && m[0].0 != k {
      PutThenGet(m[1..], k, v);
      assert r == [m[0]] + Put(m[1..], k, v);
      assert r[1..] == Put(m[1..], k, v);
      assert Keys(r)[1..] == Keys(r[1..]);
    }
  }

  /** Putting the same key twice keeps only the later value, at the earlier position. */
  lemma {:induction false} PutTwice<K, V>(m: seq<(K, V)>, k: K, v1: V, v2: V)
    ensures Put(Put(m, k, v1), k, v2) == Put(m, k, v2)
  {
    if m != [] && m[0].0 != k {
      PutTwice(m[1..], k, v1, v2);
      var once := Put(m, k, v1);
      assert once[0] == m[0] && once[1..] == Put(m[1..], k, v1);
    }
  }

  /** A lookup of another key is not affected by Put. */
  lemma {:induction false} PutOtherGet<K, V>(m: seq<(K, V)>, k: K, v: V, other: K)
    requires other in Keys(m) && other != k
    ensures other in Keys(Put(m, k, v)) && Get(Put(m, k, v), other) == Get(m, other)
  {
    var r := Put(m, k, v);
    if m[0].0 == other {
      assert r[0] == m[0];
      assert Keys(r)[0] == other;
    } else if m[0].0 == k {
      assert r == [(k, v)] + m[1..] && r[1..] == m[1..];
      assert Keys(m)[1..] == Keys(m[1..]);
      assert Keys(r)[1..] == Keys(r[1..]);
    } else {
      assert Keys(m)[1..] == Keys(m[1..]);
      assert other in Keys(m[1..]);
      PutOtherGet(m[1..], k, v, other);
      assert r == [m[0]] + Put(m[1..], k, v) && r[1..] == Put(m[1..], k, v);
      assert Keys(r)[1..] == Keys(r[1..]);
    }
  }

  /** `foreach ($pairs as $k => $v) $m[$k] = $v;` starting from an empty array. */
  function Assign<K(==), V>(pairs: seq<(K, V)>): seq<(K, V)>
  {
    if pairs == [] then []
    else Put(Assign(pairs[..|pairs| - 1]), pairs[|pairs| - 1].0, pairs[|pairs| - 1].1)
  }

  /** Assigning one more pair is one more Put. */
  lemma AssignSnoc<K, V>(pairs: seq<(K, V)>, k: K, v: V)
    ensures Assign(pairs + [(k, v)]) == Put(Assign(pairs), k, v)
  {
    assert (pairs + [(k, v)])[..|pairs|] == pairs;
  }

  /** A non-empty list is its prefix and its last pair. */
  lemma LastSplit<K, V>(pairs: seq<(K, V)>)
    requires pairs != []
    ensures pairs == pairs[..|pairs| - 1] + [pairs[|pairs| - 1]]
  {
  }

  /** Put adds its key to the keys and no other. */
  lemma PutKeys<K, V>(m: seq<(K, V)>, k: K, v: V)
    ensures forall key :: key in Keys(Put(m, k, v)) <==> key in Keys(m) || key == k
  {
    var r := Put(m, k, v);
    PutThenGet(m, k, v);
    if k !in Keys(m) {
      assert Keys(r) == Keys(m) + [k] by {
        assert forall i :: 0 <= i < |m| ==> Keys(r)[i] == Keys(m)[i];
      }
    }
  }

  /** The assigned array has unique keys. */
  lemma {:induction false} AssignUnique<K, V>(pairs: seq<(K, V)>)
    ensures UniqueKeys(Assign(pairs))
  {
    if pairs != [] {
      var init := pairs[..|pairs| - 1];
      LastSplit(pairs);
      AssignSnoc(init, pairs[|pairs| - 1].0, pairs[|pairs| - 1].1);
      AssignUnique(init);
      PutKeepsUnique(Assign(init), pairs[|pairs| - 1].0, pairs[|pairs| - 1].1);
    }
  }

  /** The keys of one more pair are the keys before and the new key. */
  lemma KeysSnoc<K, V>(pairs: seq<(K, V)>, p: (K, V))
    ensures forall key :: key in Keys(pairs + [p]) <==> key in Keys(pairs) || key == p.0
  {
    var ks := Keys(pairs + [p]);
    assert ks == Keys(pairs) + [p.0] by {
      assert forall i :: 0 <= i < |pairs| ==> ks[i] == Keys(pairs)[i];
    }
  }

  /** The assigned array has exactly the keys assigned. */
  lemma {:induction false} AssignKeys<K, V>(pairs: seq<(K, V)>)
    ensures forall k :: k in Keys(Assign(pairs)) <==> k in Keys(pairs)
  {
    if pairs != [] {
      var init := pairs[..|pairs| - 1];
      var last := pairs[|pairs| - 1];
      LastSplit(pairs);
      AssignSnoc(init, last.0, last.1);
      AssignKeys(init);
      PutKeys(Assign(init), last.0, last.1);
      KeysSnoc(init, last);
    }
  }

  /** Each key ends up holding the value of its last assignment. */
  lemma {:induction false} AssignLast<K, V>(pairs: seq<(K, V)>, i: nat)
    requires i < |pairs|
    requires forall j :: i < j < |pairs| ==> pairs[j].0 != pairs[i].0
    ensures pairs[i].0 in Keys(Assign(pairs)) && Get(Assign(pairs), pairs[i].0) == pairs[i].1
  {
    var init := pairs[..|pairs| - 1];
    var last := pairs[|pairs| - 1];
    LastSplit(pairs);
    AssignSnoc(init, last.0, last.1);
    var a := Assign(init);
    assert Assign(pairs) == Put(a, last.0, last.1);
    if i == |pairs| - 1 {
      PutThenGet(a, last.0, last.1);
    } else {
      assert init[i] == pairs[i];
      forall j | i < j < |init| ensures init[j].0 != init[i].0 {
        assert init[j] == pairs[j];
      }
      AssignLast(init, i);
      PutOtherGet(a, last.0, last.1, pairs[i].0);
    }
  }
}
