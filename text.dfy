/**
 The two `std::string` searches the command loop relies on, written as
 functions over `seq<char>`: `find(c, pos)` and the prefix test
 `rfind(p, 0) == 0`.
 */
module Text {
  import opened Optional

  /** `s.find(c, from)`: the first index at or after `from` that holds `c`,
      or `None` (the C++ `npos`) when there is none, including when `from`
      lies past the end of `s`. */
  function Find(s: string, c: char, from: nat): (r: Option<nat>)
    decreases |s| - from
    ensures r.Some? ==> from <= r.value < |s| && s[r.value] == c
    ensures r.Some? ==> forall j :: from <= j < r.value ==> s[j] != c
    ensures r.None? ==> forall j :: from <= j < |s| ==> s[j] != c
  {
    if from >= |s| then None
    else if s[from] == c then Some(from)
    else Find(s, c, from + 1)
  }

  /** Find returns exactly the first occurrence at or after `from`. */
  lemma FindFirst(s: string, c: char, from: nat, k: nat)
    requires from <= k < |s| && s[k] == c
    requires forall j :: from <= j < k ==> s[j] != c
    ensures Find(s, c, from) == Some(k)
  {
  }

  /** `s.rfind(p, 0) == 0`: the last occurrence of `p` starting at or before
      index 0 starts at 0, that is, `p` is a prefix of `s`. */
  predicate HasPrefix(s: string, p: string)
    ensures HasPrefix(s, p) <==> |p| <= |s| && forall i :: 0 <= i < |p| ==> s[i] == p[i]
  {
    |p| <= |s| && s[..|p|] == p
  }

  /** A prefix test only looks at the first |p| characters. */
  lemma HasPrefixAppend(p: string, rest: string)
    ensures HasPrefix(p + rest, p)
  {
    assert (p + rest)[..|p|] == p;
  }
}
