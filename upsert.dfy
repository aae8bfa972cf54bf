/** `INSERT ... ON CONFLICT (key) DO NOTHING`, one statement after another, on a table
    modelled as a map from the conflict key to the stored row. */
module Upsert {

  /** One statement: the row is stored under its key unless the key is already taken,
      in which case the table is left as it was. */
  function InsertIfAbsent<K, V>(m: map<K, V>, k: K, v: V): (r: map<K, V>)
    ensures r.Keys == m.Keys + {k}
    ensures forall x :: x in m ==> r[x] == m[x]
    ensures k !in m ==> r[k] == v
  {
    if k in m then m else m[k := v]
  }

  /** The statements for `vs`, executed in order. */
  function InsertAll<K, V>(m: map<K, V>, vs: seq<V>, key: V -> K): map<K, V>
  {
    if vs == [] then m
    else InsertIfAbsent(InsertAll(m, vs[..|vs| - 1], key), key(vs[|vs| - 1]), vs[|vs| - 1])
  }

  /** The keys of the rows `vs`. */
  function KeysOf<K, V>(vs: seq<V>, key: V -> K): set<K> {
    set i | 0 <= i < |vs| :: key(vs[i])
  }

  /** Executing one more statement is inserting that row into the table built so far. */
  lemma InsertAllStep<K, V>(m: map<K, V>, vs: seq<V>, key: V -> K, i: nat)
    requires i < |vs|
    ensures InsertAll(m, vs[..i + 1], key) == InsertIfAbsent(InsertAll(m, vs[..i], key), key(vs[i]), vs[i])
  {
    assert vs[..i + 1][..i] == vs[..i];
  }

  /** The keys taken afterwards are the keys taken before and the keys of the rows. */
  lemma {:induction false} InsertAllKeys<K, V>(m: map<K, V>, vs: seq<V>, key: V -> K)
    ensures InsertAll(m, vs, key).Keys == m.Keys + KeysOf(vs, key)
  {
    if vs != [] {
      var init := vs[..|vs| - 1];
      InsertAllKeys(m, init, key);
      assert forall i :: 0 <= i < |init| ==> init[i] == vs[i];
      assert KeysOf(vs, key) == KeysOf(init, key) + {key(vs[|vs| - 1])};
    }
  }

  /** A row already in the table is never overwritten. */
  lemma {:induction false} InsertAllKeeps<K, V>(m: map<K, V>, vs: seq<V>, key: V -> K)
    ensures forall x :: x in m ==> x in InsertAll(m, vs, key) && InsertAll(m, vs, key)[x] == m[x]
  {
    if vs != [] {
      InsertAllKeeps(m, vs[..|vs| - 1], key);
    }
  }

  /** Among the rows for a key that was free, the first one is stored. */
  lemma {:induction false} InsertAllFirstWins<K, V>(m: map<K, V>, vs: seq<V>, key: V -> K, i: nat)
    requires i < |vs| && key(vs[i]) !in m
    requires forall j :: 0 <= j < i ==> key(vs[j]) != key(vs[i])
    ensures key(vs[i]) in InsertAll(m, vs, key) && InsertAll(m, vs, key)[key(vs[i])] == vs[i]
  {
    var init := vs[..|vs| - 1];
    if i == |vs| - 1 {
      InsertAllKeys(m, init, key);
      assert key(vs[i]) !in KeysOf(init, key);
    } else {
      assert init[i] == vs[i];
      assert forall j :: 0 <= j < i ==> init[j] == vs[j];
      InsertAllFirstWins(m, init, key, i);
    }
  }

  /** Every stored row that was not there before is one of the rows inserted, under its own key. */
  lemma {:induction false} InsertAllNew<K, V>(m: map<K, V>, vs: seq<V>, key: V -> K, x: K)
    requires x in InsertAll(m, vs, key) && x !in m
    ensures exists i :: 0 <= i < |vs| && key(vs[i]) == x && InsertAll(m, vs, key)[x] == vs[i]
  {
    var init := vs[..|vs| - 1];
    var n := |vs| - 1;
    if x in InsertAll(m, init, key) {
      InsertAllNew(m, init, key, x);
      var i :| 0 <= i < |init| && key(init[i]) == x && InsertAll(m, init, key)[x] == init[i];
      assert vs[i] == init[i];
    } else {
      assert key(vs[n]) == x && InsertAll(m, vs, key)[x] == vs[n];
    }
  }

  /** Statements whose keys are all taken change nothing. */
  lemma {:induction false} InsertAllPresent<K, V>(m: map<K, V>, vs: seq<V>, key: V -> K)
    requires forall i :: 0 <= i < |vs| ==> key(vs[i]) in m
    ensures InsertAll(m, vs, key) == m
  {
    if vs != [] {
      var init := vs[..|vs| - 1];
      assert forall i :: 0 <= i < |init| ==> init[i] == vs[i];
      InsertAllPresent(m, init, key);
    }
  }

  /** Running the same statements a second time changes nothing. */
  lemma InsertAllIdempotent<K, V>(m: map<K, V>, vs: seq<V>, key: V -> K)
    ensures InsertAll(InsertAll(m, vs, key), vs, key) == InsertAll(m, vs, key)
  {
    InsertAllKeys(m, vs, key);
    assert forall i :: 0 <= i < |vs| ==> key(vs[i]) in KeysOf(vs, key);
    InsertAllPresent(InsertAll(m, vs, key), vs, key);
  }
}
