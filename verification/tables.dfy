/** A plain JavaScript object used as a dictionary (the users database, the URL
    database), seen as the (key, value) pairs its `for...in` loop enumerates, in
    that order. JavaScript fixes that order (integer-like keys ascending, then the
    other keys in insertion order); the model takes the order as given. */
module Tables {
  import opened Wrappers

  type Table<V> = seq<(string, V)>

  /** `k` is an own key of the object. */
  predicate HasKey<V>(t: Table<V>, k: string) {
    exists i :: 0 <= i < |t| && t[i].0 == k
  }

  /** An object never holds the same key twice. */
  ghost predicate DistinctKeys<V>(t: Table<V>) {
    forall i, j :: 0 <= i < j < |t| ==> t[i].0 != t[j].0
  }

  /** Property access `t[k]`; a missing key reads as `None` (JavaScript's `undefined`). */
  function Get<V>(t: Table<V>, k: string): (r: Option<V>)
    ensures r.None? <==> !HasKey(t, k)
    ensures r.Some? ==> (k, r.value) in t
    ensures DistinctKeys(t) ==> forall i :: 0 <= i < |t| && t[i].0 == k ==> r == Some(t[i].1)
  {
    if |t| == 0 then None
    else if t[0].0 == k then Some(t[0].1)
    else
      assert forall i :: 1 <= i < |t| ==> t[1..][i - 1] == t[i];
      Get(t[1..], k)
  }
}
