/** PHP's string-keyed arrays, as far as the model reads and writes them:
    a list of key/value pairs in insertion order. */
module PhpArray {
  import opened Wrappers

  type Assoc<V> = seq<(string, V)>

  /** `array_keys($a)`. */
  function Keys<V>(a: Assoc<V>): (r: seq<string>)
    ensures |r| == |a| && forall i :: 0 <= i < |a| ==> r[i] == a[i].0
  {
    seq(|a|, i requires 0 <= i < |a| => a[i].0)
  }

  /** `$a[$key] ?? null`, for a key that is present with a non-null value or absent. */
  function Lookup<V>(a: Assoc<V>, key: string): Option<V> {
    if a == [] then None
    else if a[0].0 == key then Some(a[0].1)
    else Lookup(a[1..], key)
  }

  /** Lookup finds the first entry with the key. */
  lemma {:induction false} LookupAt<V>(a: Assoc<V>, i: int)
    requires 0 <= i < |a|
    requires forall j :: 0 <= j < i ==> a[j].0 != a[i].0
    ensures Lookup(a, a[i].0) == Some(a[i].1)
  {
    if i > 0 {
      assert a[0].0 != a[i].0;
      assert a[1..][i - 1] == a[i];
      LookupAt(a[1..], i - 1);
    }
  }

  /** A key that is not among the keys is not found. */
  lemma {:induction false} LookupAbsent<V>(a: Assoc<V>, key: string)
    requires key !in Keys(a)
    ensures Lookup(a, key) == None
  {
    if a != [] {
      assert Keys(a)[0] == a[0].0;
      assert Keys(a[1..]) == Keys(a)[1..];
      LookupAbsent(a[1..], key);
    }
  }
}
