/** Values that may be missing, and maps seen as functions to them. */
module Options {

  datatype Option<T> = None | Some(value: T)

  function Lookup<V>(m: map<int, V>, k: int): Option<V> {
    if k in m then Some(m[k]) else None
  }

  lemma SameLookups<V>(m: map<int, V>, n: map<int, V>)
    requires forall k :: Lookup(m, k) == Lookup(n, k)
    ensures m == n
  {
    forall k ensures k in m <==> k in n
             ensures k in m ==> m[k] == n[k]
    {
      assert Lookup(m, k) == Lookup(n, k);
    }
  }
}
