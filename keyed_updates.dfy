/**
 * Writing a sequence of (key, value) pairs into a dictionary one after the
 * other, as `d[k] = v` inside a loop does. The inventory fetcher merges item
 * descriptions this way and the pricing composer builds its price map this way.
 */
module KeyedUpdates {

  /** The dictionary after writing every pair of `kvs`, in order, into `m`. */
  function Upsert<K, V>(m: map<K, V>, kvs: seq<(K, V)>): map<K, V>
    decreases |kvs|
  {
    if kvs == [] then m
    else Upsert(m, kvs[..|kvs| - 1])[kvs[|kvs| - 1].0 := kvs[|kvs| - 1].1]
  }

  /** Writing `a` and then `b` is writing `a + b`. */
  lemma {:induction false} UpsertAppend<K, V>(m: map<K, V>, a: seq<(K, V)>, b: seq<(K, V)>)
    ensures Upsert(m, a + b) == Upsert(Upsert(m, a), b)
    decreases |b|
  {
    if b == [] {
      assert a + b == a;
    } else {
      var b' := b[..|b| - 1];
      assert (a + b)[..|a + b| - 1] == a + b';
      UpsertAppend(m, a, b');
    }
  }

  /**
   * Last write wins: a key is present exactly when it was present before or
   * some pair writes it, and then it holds the value of the LAST pair that
   * writes it; a key no pair writes keeps its old value.
   */
  lemma {:induction false} UpsertLastWins<K, V>(m: map<K, V>, kvs: seq<(K, V)>, k: K)
    ensures k in Upsert(m, kvs) <==> k in m || exists i :: 0 <= i < |kvs| && kvs[i].0 == k
    ensures forall i :: 0 <= i < |kvs| && kvs[i].0 == k && (forall j :: i < j < |kvs| ==> kvs[j].0 != k) ==>
              Upsert(m, kvs)[k] == kvs[i].1
    ensures (forall i :: 0 <= i < |kvs| ==> kvs[i].0 != k) && k in m ==> Upsert(m, kvs)[k] == m[k]
    decreases |kvs|
  {
    if kvs != [] {
      var n := |kvs| - 1;
      var prefix := kvs[..n];
      UpsertLastWins(m, prefix, k);
      assert forall i :: 0 <= i < n ==> prefix[i] == kvs[i];
      if kvs[n].0 == k {
        assert exists i :: 0 <= i < |kvs| && kvs[i].0 == k by { assert kvs[n].0 == k; }
      }
    }
  }
}
