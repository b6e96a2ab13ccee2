/** Grouping a sequence by a key, groups in order of first appearance, as a Python dict of lists does. */
module Grouping {
  import opened Ordering

  function Members<T(!new), K(==)>(s: seq<T>, key: T -> K, k: K): (r: seq<T>)
    ensures forall x :: x in r <==> x in s && key(x) == k
  {
    if s == [] then []
    else
      var n := |s| - 1;
      assert s == s[..n] + [s[n]];
      Members(s[..n], key, k) + (if key(s[n]) == k then [s[n]] else [])
  }

  lemma {:induction false} MembersDistinct<T(!new), K(!new)>(s: seq<T>, key: T -> K, k: K)
    requires Distinct(s)
    ensures Distinct(Members(s, key, k))
  {
    if s != [] {
      var n := |s| - 1;
      MembersDistinct(s[..n], key, k);
      if key(s[n]) == k {
        assert s[n] !in s[..n];
        DistinctAppend(Members(s[..n], key, k), s[n]);
      }
    }
  }

  ghost predicate Grouped<T(!new), K(!new)>(s: seq<T>, key: T -> K, groups: map<K, seq<T>>) {
    && (forall k :: k in groups ==> groups[k] == Members(s, key, k) && groups[k] != [])
    && (forall x :: x in s ==> key(x) in groups)
  }

  lemma GroupedNext<T(!new), K(!new)>(s: seq<T>, key: T -> K, groups: map<K, seq<T>>, x: T)
    requires Grouped(s, key, groups)
    ensures Grouped(s + [x], key, groups[key(x) := (if key(x) in groups then groups[key(x)] else []) + [x]])
  {
    var groups' := groups[key(x) := (if key(x) in groups then groups[key(x)] else []) + [x]];
    assert (s + [x])[..|s|] == s;
    forall k | k in groups' ensures groups'[k] == Members(s + [x], key, k) && groups'[k] != [] {
      if k !in groups && Members(s, key, k) != [] {
        assert Members(s, key, k)[0] in Members(s, key, k);
      }
    }
    forall y | y in s + [x] ensures key(y) in groups' {}
  }

  method GroupBy<T(!new), K(==, !new)>(s: seq<T>, key: T -> K) returns (keys: seq<K>, groups: map<K, seq<T>>)
    ensures Distinct(keys) && forall k :: k in keys <==> k in groups
    ensures Grouped(s, key, groups)
  {
    keys, groups := [], map[];
    for i := 0 to |s|
      invariant Distinct(keys) && forall k :: k in keys <==> k in groups
      invariant Grouped(s[..i], key, groups)
    {
      var k := key(s[i]);
      GroupedNext(s[..i], key, groups, s[i]);
      assert s[..i + 1] == s[..i] + [s[i]];
      if k in groups {
        groups := groups[k := groups[k] + [s[i]]];
      } else {
        DistinctAppend(keys, k);
        keys := keys + [k];
        groups := groups[k := [s[i]]];
      }
    }
    assert s[..|s|] == s;
  }
}
