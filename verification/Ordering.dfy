/** Orders and stable sorting, as Python's `sorted` and `list.sort` provide them. */
module Ordering {

  /** Code-point order on strings. */
  predicate StrLess(a: string, b: string) {
    if b == "" then false
    else if a == "" then true
    else a[0] < b[0] || (a[0] == b[0] && StrLess(a[1..], b[1..]))
  }

  predicate StrLeq(a: string, b: string) {
    a == b || StrLess(a, b)
  }

  lemma {:induction false} StrTrichotomy(a: string, b: string)
    ensures a == b || StrLess(a, b) || StrLess(b, a)
    ensures !(StrLess(a, b) && StrLess(b, a))
    ensures a == b ==> !StrLess(a, b)
  {
    if a != "" && b != "" {
      StrTrichotomy(a[1..], b[1..]);
      assert a == [a[0]] + a[1..] && b == [b[0]] + b[1..];
    }
  }

  lemma {:induction false} StrTransitive(a: string, b: string, c: string)
    requires StrLess(a, b) && StrLess(b, c)
    ensures StrLess(a, c)
  {
    if a != "" && a[0] == b[0] && b[0] == c[0] {
      StrTransitive(a[1..], b[1..], c[1..]);
    }
  }

  /** One string is less exactly if it is a proper beginning of the other or smaller where they first differ. */
  lemma {:induction false} StrLessIff(a: string, b: string)
    ensures StrLess(a, b) <==> a < b || exists i :: 0 <= i < |a| && i < |b| && a[..i] == b[..i] && a[i] < b[i]
  {
    if a != "" && b != "" {
      var s, t := a[1..], b[1..];
      StrLessIff(s, t);
      assert a == [a[0]] + s && b == [b[0]] + t;
      if a[0] == b[0] {
        assert a < b <==> s < t;
        if i :| 0 <= i < |s| && i < |t| && s[..i] == t[..i] && s[i] < t[i] {
          assert a[..i + 1] == [a[0]] + s[..i] && b[..i + 1] == [b[0]] + t[..i] && a[i + 1] < b[i + 1];
        }
        if i :| 0 <= i < |a| && i < |b| && a[..i] == b[..i] && a[i] < b[i] {
          assert i > 0 && s[..i - 1] == a[..i][1..] && t[..i - 1] == b[..i][1..] && s[i - 1] < t[i - 1];
        }
      } else if a[0] < b[0] {
        assert a[..0] == b[..0];
      } else {
        forall i | 0 < i <= |a| && i <= |b| ensures a[..i] != b[..i] {
          assert a[..i][0] == a[0] && b[..i][0] == b[0];
        }
      }
    }
  }

  ghost predicate TotalPreorder<T(!new)>(leq: (T, T) -> bool) {
    && (forall a, b :: leq(a, b) || leq(b, a))
    && (forall a, b, c :: leq(a, b) && leq(b, c) ==> leq(a, c))
  }

  ghost predicate SortedBy<T>(s: seq<T>, leq: (T, T) -> bool) {
    forall i, j :: 0 <= i < j < |s| ==> leq(s[i], s[j])
  }

  /** Puts `x` in front of the first element that it does not exceed, so equal keys keep their order. */
  function Insert<T>(x: T, s: seq<T>, leq: (T, T) -> bool): (r: seq<T>)
    ensures multiset(r) == multiset([x]) + multiset(s)
  {
    if s == [] then [x]
    else if leq(x, s[0]) then [x] + s
    else
      assert s == [s[0]] + s[1..];
      [s[0]] + Insert(x, s[1..], leq)
  }

  function Sort<T>(s: seq<T>, leq: (T, T) -> bool): (r: seq<T>)
    ensures multiset(r) == multiset(s)
  {
    if s == [] then []
    else
      assert s == [s[0]] + s[1..];
      Insert(s[0], Sort(s[1..], leq), leq)
  }

  lemma {:induction false} InsertSorted<T(!new)>(x: T, s: seq<T>, leq: (T, T) -> bool)
    requires TotalPreorder(leq) && SortedBy(s, leq)
    ensures SortedBy(Insert(x, s, leq), leq)
  {
    if s != [] && !leq(x, s[0]) {
      var tail := Insert(x, s[1..], leq);
      InsertSorted(x, s[1..], leq);
      forall j | 0 <= j < |tail| ensures leq(s[0], tail[j]) {
        assert tail[j] in multiset(tail);
        assert tail[j] in multiset([x]) + multiset(s[1..]);
        if tail[j] != x {
          assert tail[j] in s[1..];
        }
      }
    }
  }

  lemma {:induction false} SortSorted<T(!new)>(s: seq<T>, leq: (T, T) -> bool)
    requires TotalPreorder(leq)
    ensures SortedBy(Sort(s, leq), leq)
  {
    if s != [] {
      SortSorted(s[1..], leq);
      InsertSorted(s[0], Sort(s[1..], leq), leq);
    }
  }

  function OwnRank<T>(x: T, y: T, leq: (T, T) -> bool): seq<T> {
    if leq(x, y) && leq(y, x) then [x] else []
  }

  /** The elements that rank with `y`, in their order. */
  function RankedWith<T>(s: seq<T>, y: T, leq: (T, T) -> bool): seq<T> {
    if s == [] then [] else OwnRank(s[0], y, leq) + RankedWith(s[1..], y, leq)
  }

  lemma OtherRank<T(!new)>(x: T, e: T, leq: (T, T) -> bool, y: T)
    requires TotalPreorder(leq) && !leq(x, e)
    ensures !(leq(x, y) && leq(y, e))
  {
  }

  lemma RankedCons<T>(x: T, s: seq<T>, y: T, leq: (T, T) -> bool)
    ensures RankedWith([x] + s, y, leq) == OwnRank(x, y, leq) + RankedWith(s, y, leq)
  {
    assert ([x] + s)[1..] == s;
  }

  lemma {:induction false} InsertStable<T>(x: T, s: seq<T>, leq: (T, T) -> bool, y: T)
    requires leq(x, y) ==> forall e :: e in s && !leq(x, e) ==> !leq(y, e)
    ensures RankedWith(Insert(x, s, leq), y, leq) == OwnRank(x, y, leq) + RankedWith(s, y, leq)
  {
    if s == [] || leq(x, s[0]) {
      assert Insert(x, s, leq) == [x] + s;
      RankedCons(x, s, y, leq);
    } else {
      InsertStable(x, s[1..], leq, y);
      assert s == [s[0]] + s[1..];
      RankedCons(s[0], s[1..], y, leq);
      RankedCons(s[0], Insert(x, s[1..], leq), y, leq);
    }
  }

  /** Elements of one rank keep their order. */
  lemma {:induction false} SortStable<T(!new)>(s: seq<T>, leq: (T, T) -> bool, y: T)
    requires TotalPreorder(leq)
    ensures RankedWith(Sort(s, leq), y, leq) == RankedWith(s, y, leq)
  {
    if s != [] {
      SortStable(s[1..], leq, y);
      forall e | leq(s[0], y) && !leq(s[0], e) ensures !leq(y, e) {
        OtherRank(s[0], e, leq, y);
      }
      InsertStable(s[0], Sort(s[1..], leq), leq, y);
    }
  }

  /** A sequence and its rearrangement have the same members and the same length. */
  lemma SameMembers<T>(s: seq<T>, r: seq<T>)
    requires multiset(s) == multiset(r)
    ensures |s| == |r|
    ensures forall x :: x in s <==> x in r
  {
    assert |s| == |multiset(s)| == |multiset(r)| == |r|;
    forall x ensures x in s <==> x in r {
      assert x in s <==> x in multiset(s);
      assert x in r <==> x in multiset(r);
    }
  }

  /** Taking the same element out of two arrangements leaves two arrangements. */
  lemma WithoutOne<T>(a: seq<T>, b: seq<T>, k: nat)
    requires multiset(a) == multiset(b) && a != [] && k < |b| && b[k] == a[0]
    ensures multiset(a[1..]) == multiset(b[..k] + b[k + 1..])
  {
    assert a == [a[0]] + a[1..];
    assert b == b[..k] + [b[k]] + b[k + 1..];
    var x, left, right := multiset{a[0]}, multiset(a[1..]), multiset(b[..k] + b[k + 1..]);
    assert multiset(a) == x + left && multiset(b) == x + right;
    assert left == x + left - x == x + right - x == right;
  }

  lemma TakeNext<T>(s: seq<T>, i: nat)
    requires i < |s|
    ensures s[..i + 1] == s[..i] + [s[i]]
  {
  }

  lemma Associate<T>(a: seq<T>, b: seq<T>, c: seq<T>)
    ensures a + b + c == a + (b + c)
  {
  }

  ghost predicate Distinct<T>(s: seq<T>) {
    forall i, j :: 0 <= i < j < |s| ==> s[i] != s[j]
  }

  lemma DistinctAppend<T>(s: seq<T>, x: T)
    requires Distinct(s) && x !in s
    ensures Distinct(s + [x])
  {
  }

  function SetOf<T(==)>(s: seq<T>): set<T> {
    set x | x in s
  }

  /** A sequence without repetition has as many members as entries. */
  lemma {:induction false} DistinctSize<T>(s: seq<T>)
    requires Distinct(s)
    ensures |SetOf(s)| == |s|
  {
    if s != [] {
      var last := s[|s| - 1];
      var front := s[..|s| - 1];
      DistinctSize(front);
      assert SetOf(s) == SetOf(front) + {last};
      assert last !in front;
    }
  }

  lemma {:induction false} DistinctCounts<T>(s: seq<T>)
    ensures Distinct(s) <==> forall x :: multiset(s)[x] <= 1
  {
    if s != [] {
      var last, front := s[|s| - 1], s[..|s| - 1];
      DistinctCounts(front);
      assert s == front + [last];
      assert multiset(s) == multiset(front) + multiset{last};
      assert last in front <==> multiset(front)[last] >= 1;
      if Distinct(s) {
        assert last !in front;
      } else if Distinct(front) {
        var i, j :| 0 <= i < j < |s| && s[i] == s[j];
        assert j == |s| - 1 && last == front[i];
        assert multiset(s)[last] >= 2;
      } else {
        var x :| multiset(front)[x] > 1;
        assert multiset(s)[x] > 1;
      }
    }
  }

  /** A rearrangement of a sequence without repetition has none either. */
  lemma DistinctPermutes<T>(s: seq<T>, r: seq<T>)
    requires multiset(s) == multiset(r) && Distinct(s)
    ensures Distinct(r)
  {
    DistinctCounts(s);
    DistinctCounts(r);
  }

  lemma {:induction false} SubsetSize<T>(a: set<T>, b: set<T>)
    requires a <= b
    ensures |a| <= |b|
  {
    if a != {} {
      var x :| x in a;
      SubsetSize(a - {x}, b - {x});
    }
  }
}
