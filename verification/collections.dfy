/**
 * What the document store's array operators and queries do to a list:
 * `$addToSet`, `$pull`, a collection scan in natural order, `.limit(n)`,
 * and the random reordering the player handler applies.
 */
module Collections {

  predicate NoDuplicates<T(==)>(s: seq<T>)
  {
    forall i, j :: 0 <= i < j < |s| ==> s[i] != s[j]
  }

  predicate Increasing(s: seq<nat>)
  {
    forall i, j :: 0 <= i < j < |s| ==> s[i] < s[j]
  }

  /** `$addToSet` on a list of ids: appends `x` unless it is already there. */
  function AddToSet(s: seq<nat>, x: nat): (r: seq<nat>)
    ensures forall y :: y in r <==> y in s || y == x
    ensures x in s ==> r == s
    ensures s <= r && |r| <= |s| + 1
    ensures NoDuplicates(s) ==> NoDuplicates(r)
  {
    if x in s then s else s + [x]
  }

  /** `$pull` on a list of ids: removes every occurrence of `x` and keeps the rest in order. */
  function Pull(s: seq<nat>, x: nat): (r: seq<nat>)
    ensures forall y :: y in r <==> y in s && y != x
    ensures |r| <= |s|
    ensures x !in s ==> r == s
    ensures NoDuplicates(s) ==> NoDuplicates(r)
  {
    if s == [] then []
    else if s[0] == x then Pull(s[1..], x)
    else
      var rest := Pull(s[1..], x);
      assert s[0] !in s[1..] ==> s[0] !in rest;
      [s[0]] + rest
  }

  /**
   * The ids in [lo, hi) of the documents of `m` that `keep` selects, in
   * ascending order: what a scan of the collection in natural order returns.
   */
  function Select<T>(m: map<nat, T>, keep: (nat, T) -> bool, lo: nat, hi: nat): (r: seq<nat>)
    ensures forall i :: 0 <= i < |r| ==> lo <= r[i] < hi && r[i] in m && keep(r[i], m[r[i]])
    ensures forall k :: lo <= k < hi && k in m && keep(k, m[k]) ==> k in r
    ensures Increasing(r)
    decreases hi - lo
  {
    if hi <= lo then []
    else if lo in m && keep(lo, m[lo]) then [lo] + Select(m, keep, lo + 1, hi)
    else Select(m, keep, lo + 1, hi)
  }

  /** `.limit(n)`: the first `n` elements, or all of them if there are fewer. */
  function Limit<T>(s: seq<T>, n: nat): (r: seq<T>)
    ensures |r| <= n && r <= s
    ensures |r| < n ==> r == s
    ensures |s| <= n ==> r == s
  {
    if |s| <= n then s else s[..n]
  }

  /**
   * A random reordering driven by `picks` (the random draws): each step moves
   * the element at `picks[0] % |s|` to the output; whatever the draws, the
   * result is a permutation of the input.
   */
  function Shuffle<T>(s: seq<T>, picks: seq<nat>): (r: seq<T>)
    ensures multiset(r) == multiset(s)
    ensures |r| == |s|
    decreases |s|
  {
    if s == [] then []
    else
      var k := (if picks == [] then 0 else picks[0]) % |s|;
      var rest := s[..k] + s[k + 1..];
      assert s == s[..k] + [s[k]] + s[k + 1..];
      [s[k]] + Shuffle(rest, if picks == [] then [] else picks[1..])
  }
}
