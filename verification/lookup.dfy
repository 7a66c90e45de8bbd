/** The `Map<number, V>` idiom of the components: `map.set(key(x), x)` for
    every element in list order, then `map.get(k)`. A later element with
    the same key overwrites an earlier one, so a lookup finds the LAST
    element with that key. */
module Lookup {
  import opened Results

  /** Index of the element a lookup of `k` returns, or `None` when no
      element has key `k`. */
  function LastIndexOf<T>(s: seq<T>, key: T -> int, k: int): (r: Option<nat>)
    ensures r.Some? ==> r.value < |s| && key(s[r.value]) == k
    ensures r.Some? ==> forall j :: r.value < j < |s| ==> key(s[j]) != k
    ensures r.None? <==> forall j :: 0 <= j < |s| ==> key(s[j]) != k
    decreases |s|
  {
    if |s| == 0 then None
    else if key(s[|s| - 1]) == k then Some(|s| - 1)
    else LastIndexOf(s[..|s| - 1], key, k)
  }

  /** One more `set`: it overwrites the entry for its own key and leaves
      every other key's entry alone. */
  lemma LastIndexOfSet<T>(s: seq<T>, x: T, key: T -> int, k: int)
    ensures LastIndexOf(s + [x], key, k) == if key(x) == k then Some(|s|) else LastIndexOf(s, key, k)
  {
    assert (s + [x])[..|s|] == s;
  }

  /** With distinct keys nothing is overwritten: the lookup of an element's
      key finds that element. */
  lemma LastIndexOfDistinct<T>(s: seq<T>, key: T -> int, i: nat)
    requires i < |s|
    requires forall a, b :: 0 <= a < b < |s| ==> key(s[a]) != key(s[b])
    ensures LastIndexOf(s, key, key(s[i])) == Some(i)
  {
  }
}
