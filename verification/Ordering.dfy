/**
 Sorting and ranking.  The program sorts with Go's sort package (sort.Strings and the
 unstable sort.Slice) and turns sorted positions into ranks.  Here a sort promises no
 more than that package does, and a rank has a definition of its own: the number of
 elements that come before.
 */
module Ordering {

  /** Go's order on strings, character by character. */
  predicate StrLess(a: string, b: string)
  {
    b != [] && (a == [] || a[0] < b[0] || (a[0] == b[0] && StrLess(a[1..], b[1..])))
  }

  ghost predicate Asymmetric<T(!new)>(less: (T, T) -> bool)
  {
    forall x, y :: less(x, y) ==> !less(y, x)
  }

  ghost predicate NegativelyTransitive<T(!new)>(less: (T, T) -> bool)
  {
    forall x, y, z :: !less(y, x) && !less(z, y) ==> !less(z, x)
  }

  /** What sort.Slice needs of its comparison: ties are allowed. */
  ghost predicate WeakOrder<T(!new)>(less: (T, T) -> bool)
  {
    Asymmetric(less) && NegativelyTransitive(less)
  }

  /** No two different elements of `S` tie. */
  ghost predicate NoTies<T(!new)>(less: (T, T) -> bool, S: set<T>)
  {
    forall x, y :: x in S && y in S && x != y ==> less(x, y) || less(y, x)
  }

  ghost predicate Sorted<T(!new)>(less: (T, T) -> bool, s: seq<T>)
  {
    forall i, j :: 0 <= i < j < |s| ==> !less(s[j], s[i])
  }

  ghost predicate Distinct<T>(s: seq<T>)
  {
    forall i, j :: 0 <= i < j < |s| ==> s[i] != s[j]
  }

  ghost function Elements<T>(s: seq<T>): set<T>
  {
    set x | x in s
  }

  /** Up to position `k` the strings agree, and there `a` has ended or has the smaller character. */
  ghost predicate FirstAt(a: string, b: string, k: nat)
  {
    && k <= |a| && k < |b| && (forall i :: 0 <= i < k ==> a[i] == b[i])
    && (k == |a| || a[k] < b[k])
  }

  lemma OneOn(a: string, b: string, k: nat)
    requires a != [] && b != [] && a[0] == b[0]
    ensures FirstAt(a, b, k + 1) <==> FirstAt(a[1..], b[1..], k)
  {
    if FirstAt(a, b, k + 1) {
      assert forall i :: 0 <= i < k ==> a[1..][i] == a[i + 1] && b[1..][i] == b[i + 1];
    }
    if FirstAt(a[1..], b[1..], k) {
      forall i | 0 <= i < k + 1 ensures a[i] == b[i] {
        if i > 0 {
          assert a[1..][i - 1] == b[1..][i - 1];
        }
      }
    }
  }

  lemma DecidedAtOnce(a: string, b: string, k: nat)
    requires a == [] || b == [] || a[0] != b[0]
    ensures FirstAt(a, b, k) ==> k == 0
    ensures FirstAt(a, b, 0) <==> StrLess(a, b)
  {
  }

  /** The order is that of dictionaries: what decides is the first position at which the strings differ. */
  lemma {:induction false} StrLessMeaning(a: string, b: string)
    ensures StrLess(a, b) <==> exists k: nat :: FirstAt(a, b, k)
  {
    if a == [] || b == [] || a[0] != b[0] {
      DecidedAtOnce(a, b, 0);
      forall k: nat ensures FirstAt(a, b, k) ==> k == 0 {
        DecidedAtOnce(a, b, k);
      }
    } else {
      StrLessMeaning(a[1..], b[1..]);
      forall k: nat ensures FirstAt(a, b, k + 1) <==> FirstAt(a[1..], b[1..], k) {
        OneOn(a, b, k);
      }
      if k: nat :| FirstAt(a, b, k) {
        assert k - 1 + 1 == k && FirstAt(a[1..], b[1..], k - 1);
      }
      if k: nat :| FirstAt(a[1..], b[1..], k) {
        assert FirstAt(a, b, k + 1);
      }
    }
  }

  lemma {:induction false} StrLessAsymmetric(a: string, b: string)
    requires StrLess(a, b)
    ensures !StrLess(b, a)
  {
    if a != [] && a[0] == b[0] {
      StrLessAsymmetric(a[1..], b[1..]);
    }
  }

  lemma {:induction false} StrLessConnected(a: string, b: string)
    ensures a == b || StrLess(a, b) || StrLess(b, a)
  {
    if a != [] && b != [] && a[0] == b[0] {
      StrLessConnected(a[1..], b[1..]);
      assert a == [a[0]] + a[1..] && b == [b[0]] + b[1..];
    }
  }

  lemma {:induction false} StrLessNegativelyTransitive(a: string, b: string, c: string)
    requires !StrLess(b, a) && !StrLess(c, b)
    ensures !StrLess(c, a)
  {
    if a != [] && b != [] && c != [] && a[0] == b[0] == c[0] {
      StrLessNegativelyTransitive(a[1..], b[1..], c[1..]);
    }
  }

  /** Go's string order is a strict total order, so sorting strings has one answer. */
  lemma StrLessIsTotal()
    ensures WeakOrder(StrLess)
    ensures forall S: set<string> :: NoTies(StrLess, S)
  {
    forall a, b | StrLess(a, b) ensures !StrLess(b, a) {
      StrLessAsymmetric(a, b);
    }
    forall a, b, c | !StrLess(b, a) && !StrLess(c, b) ensures !StrLess(c, a) {
      StrLessNegativelyTransitive(a, b, c);
    }
    forall S: set<string>, a, b | a in S && b in S && a != b ensures StrLess(a, b) || StrLess(b, a) {
      StrLessConnected(a, b);
    }
  }

  // ---------------------------------------------------------------- sorting

  lemma InsertKeepsSorted<T(!new)>(less: (T, T) -> bool, r: seq<T>, i: nat, x: T)
    requires WeakOrder(less) && Sorted(less, r) && i <= |r|
    requires forall j :: i <= j < |r| ==> less(x, r[j])
    requires i > 0 ==> !less(x, r[i - 1])
    ensures Sorted(less, r[..i] + [x] + r[i..])
  {
    forall j | 0 <= j < i ensures !less(x, r[j]) {
      assert j < i - 1 ==> !less(r[i - 1], r[j]);
    }
  }

  lemma InsertKeepsElements<T>(r: seq<T>, i: nat, x: T)
    requires i <= |r|
    ensures multiset(r[..i] + [x] + r[i..]) == multiset(r) + multiset{x}
  {
    assert r == r[..i] + r[i..];
  }

  /**
   A sort in the sense of Go's sort.Slice: some permutation in which no element is less
   than an earlier one.  Nothing is promised about the order of ties.
   */
  method Sort<T(!new, ==)>(s: seq<T>, less: (T, T) -> bool) returns (r: seq<T>)
    requires WeakOrder(less)
    ensures multiset(r) == multiset(s)
    ensures Sorted(less, r)
  {
    r := [];
    for n := 0 to |s|
      invariant multiset(r) == multiset(s[..n])
      invariant Sorted(less, r)
    {
      var x, i := s[n], |r|;
      while i > 0 && less(x, r[i - 1])
        invariant 0 <= i <= |r|
        invariant forall j :: i <= j < |r| ==> less(x, r[j])
      {
        i := i - 1;
      }
      InsertKeepsSorted(less, r, i, x);
      InsertKeepsElements(r, i, x);
      assert s[..n + 1] == s[..n] + [x];
      r := r[..i] + [x] + r[i..];
    }
    assert s[..|s|] == s;
  }

  /** Sorting is possible: what the method Sort finds exists. */
  lemma {:induction false} SortedPermutation<T(!new)>(less: (T, T) -> bool, s: seq<T>) returns (r: seq<T>)
    requires WeakOrder(less)
    ensures multiset(r) == multiset(s) && Sorted(less, r)
  {
    if s == [] {
      r := [];
    } else {
      var x := s[|s| - 1];
      var before := SortedPermutation(less, s[..|s| - 1]);
      assert s == s[..|s| - 1] + [x];
      var i := |before|;
      while i > 0 && less(x, before[i - 1])
        invariant 0 <= i <= |before|
        invariant forall j :: i <= j < |before| ==> less(x, before[j])
      {
        i := i - 1;
      }
      InsertKeepsSorted(less, before, i, x);
      InsertKeepsElements(before, i, x);
      r := before[..i] + [x] + before[i..];
    }
  }

  lemma TailMultiset<T>(s: seq<T>)
    requires s != []
    ensures multiset(s[1..]) == multiset(s) - multiset{s[0]}
  {
    assert s == [s[0]] + s[1..];
  }

  /** Without ties, two sorted permutations of the same elements are the same sequence. */
  lemma {:induction false} SortedIsUnique<T(!new)>(less: (T, T) -> bool, s: seq<T>, t: seq<T>)
    requires WeakOrder(less) && NoTies(less, Elements(s))
    requires Sorted(less, s) && Sorted(less, t)
    requires multiset(s) == multiset(t)
    ensures s == t
  {
    if s == [] {
      assert |multiset(t)| == 0;
    } else {
      assert s[0] in multiset(t) && s[0] in t;
      assert |t| == |multiset(t)| == |s|;
      var k :| 0 <= k < |t| && t[k] == s[0];
      assert t[0] in multiset(s) && t[0] in s;
      var l :| 0 <= l < |s| && s[l] == t[0];
      assert s[0] in Elements(s) && t[0] in Elements(s);
      assert s[0] == t[0];
      TailMultiset(s);
      TailMultiset(t);
      assert Elements(s[1..]) <= Elements(s);
      SortedIsUnique(less, s[1..], t[1..]);
      assert s == [s[0]] + s[1..] && t == [t[0]] + t[1..];
    }
  }

  lemma SameElements<T>(s: seq<T>, t: seq<T>)
    requires multiset(s) == multiset(t) && Distinct(t)
    ensures Elements(s) == Elements(t) && Distinct(s)
  {
    forall x ensures x in s <==> x in t {
      assert x in multiset(s) <==> x in multiset(t);
    }
    if i, j :| 0 <= i < j < |s| && s[i] == s[j] {
      TwiceInMultiset(s, i, j);
      DistinctMultiset(t, s[i]);
    }
  }

  lemma TwiceInMultiset<T>(s: seq<T>, i: nat, j: nat)
    requires i < j < |s| && s[i] == s[j]
    ensures multiset(s)[s[i]] >= 2
  {
    assert s == s[..j] + [s[j]] + s[j + 1..];
    assert s[..j][i] == s[j];
    assert s[j] in multiset(s[..j]);
  }

  lemma {:induction false} DistinctMultiset<T>(t: seq<T>, x: T)
    requires Distinct(t)
    ensures multiset(t)[x] <= 1
  {
    if t == [] {
    } else {
      DistinctMultiset(t[1..], x);
      assert t == [t[0]] + t[1..];
      if x == t[0] {
        assert x !in t[1..];
      }
    }
  }

  // ---------------------------------------------------------------- ranks

  ghost function Below<T(!new)>(S: set<T>, less: (T, T) -> bool, x: T): set<T>
  {
    set y | y in S && less(y, x)
  }

  /** The rank of `x` in `S`: how many elements of `S` come before it. */
  ghost function RankOf<T(!new)>(S: set<T>, less: (T, T) -> bool, x: T): nat
  {
    |Below(S, less, x)|
  }

  /** `m` numbers the elements of `S` from 0 in the order `less`, each number used once. */
  ghost predicate RanksInOrder<T(!new)>(m: map<T, nat>, S: set<T>, less: (T, T) -> bool)
  {
    && m.Keys == S
    && (forall x :: x in S ==> m[x] < |S|)
    && (forall x, y :: x in S && y in S ==> (less(x, y) <==> m[x] < m[y]))
    && (forall k: nat | k < |S| :: k in m.Values)
  }

  lemma SubsetSize<T>(a: set<T>, b: set<T>)
    requires a <= b
    ensures |a| <= |b|
    ensures |a| == |b| ==> a == b
  {
    assert b == a + (b - a);
  }

  lemma {:induction false} DistinctSize<T>(s: seq<T>)
    requires Distinct(s)
    ensures |Elements(s)| == |s|
  {
    if s == [] {
    } else {
      DistinctSize(s[..|s| - 1]);
      assert s == s[..|s| - 1] + [s[|s| - 1]];
      assert Elements(s) == Elements(s[..|s| - 1]) + {s[|s| - 1]};
    }
  }

  /** In a sorted sequence of different elements, position and rank are the same number. */
  lemma PositionIsRank<T(!new)>(less: (T, T) -> bool, s: seq<T>, k: nat)
    requires WeakOrder(less) && NoTies(less, Elements(s))
    requires Sorted(less, s) && Distinct(s) && k < |s|
    ensures RankOf(Elements(s), less, s[k]) == k
  {
    forall x | x in Elements(s)
      ensures x in Below(Elements(s), less, s[k]) <==> x in Elements(s[..k])
    {
      var i :| 0 <= i < |s| && s[i] == x;
      if i < k {
        assert s[..k][i] == x;
      }
    }
    assert Below(Elements(s), less, s[k]) == Elements(s[..k]);
    DistinctSize(s[..k]);
  }

  /** `m` maps every element of `s` to its position. */
  ghost predicate Positions<T>(m: map<T, nat>, s: seq<T>)
  {
    && (forall k :: 0 <= k < |s| ==> s[k] in m && m[s[k]] == k)
    && (forall x :: x in m ==> m[x] < |s| && s[m[x]] == x)
  }

  lemma PositionsArePositions<T>(m: map<T, nat>, s: seq<T>)
    requires m.Keys == Elements(s)
    requires forall k :: 0 <= k < |s| ==> m[s[k]] == k
    ensures Positions(m, s)
  {
    forall x | x in m ensures m[x] < |s| && s[m[x]] == x {
      var k :| 0 <= k < |s| && s[k] == x;
    }
    forall k | 0 <= k < |s| ensures s[k] in m {
      assert s[k] in Elements(s);
    }
  }

  lemma PositionsAreUsed<T>(m: map<T, nat>, s: seq<T>, k: nat)
    requires Positions(m, s) && k < |s|
    ensures k in m.Values
  {
    assert s[k] in m && m[s[k]] == k;
  }

  lemma PositionsFollowOrder<T(!new)>(less: (T, T) -> bool, s: seq<T>, m: map<T, nat>, x: T, y: T)
    requires WeakOrder(less) && NoTies(less, Elements(s)) && Sorted(less, s)
    requires Positions(m, s) && x in m && y in m
    ensures less(x, y) <==> m[x] < m[y]
  {
    assert s[m[x]] == x && s[m[y]] == y;
    assert x in Elements(s) && y in Elements(s);
    if m[x] < m[y] {
      assert !less(s[m[y]], s[m[x]]);
    } else if m[y] < m[x] {
      assert !less(s[m[x]], s[m[y]]);
    }
  }

  /** Any sorted listing of different elements, read as a position map, numbers them in order. */
  lemma PositionsRankInOrder<T(!new)>(less: (T, T) -> bool, s: seq<T>, m: map<T, nat>)
    requires WeakOrder(less) && NoTies(less, Elements(s))
    requires Sorted(less, s) && Distinct(s)
    requires m.Keys == Elements(s)
    requires forall k :: 0 <= k < |s| ==> m[s[k]] == k
    ensures RanksInOrder(m, Elements(s), less)
    ensures forall x :: x in m ==> m[x] == RankOf(Elements(s), less, x)
  {
    PositionsArePositions(m, s);
    DistinctSize(s);
    var S := Elements(s);
    forall x | x in m ensures m[x] == RankOf(S, less, x) && m[x] < |S| {
      PositionIsRank(less, s, m[x]);
    }
    forall x, y | x in S && y in S ensures less(x, y) <==> m[x] < m[y] {
      PositionsFollowOrder(less, s, m, x, y);
    }
    forall k: nat | k < |S| ensures k in m.Values {
      PositionsAreUsed(m, s, k);
    }
  }

  lemma {:induction false} SortedListing<T(!new)>(S: set<T>, less: (T, T) -> bool) returns (s: seq<T>)
    requires WeakOrder(less)
    ensures Sorted(less, s) && Distinct(s) && Elements(s) == S
  {
    if S == {} {
      s := [];
    } else {
      var m := Last(S, less);
      var r := SortedListing(S - {m}, less);
      s := r + [m];
      assert forall i :: 0 <= i < |r| ==> r[i] in Elements(r);
      assert Elements(s) == Elements(r) + {m};
    }
  }

  lemma {:induction false} Last<T(!new)>(S: set<T>, less: (T, T) -> bool) returns (m: T)
    requires WeakOrder(less) && S != {}
    ensures m in S && forall x :: x in S ==> !less(m, x)
  {
    var x :| x in S;
    if S == {x} {
      m := x;
    } else {
      var n := Last(S - {x}, less);
      m := if less(n, x) then x else n;
      assert S == (S - {x}) + {x};
    }
  }

  /** Ranks by counting number any finite set in order, without gaps and without repetition. */
  lemma RanksExist<T(!new)>(S: set<T>, less: (T, T) -> bool)
    requires WeakOrder(less) && NoTies(less, S)
    ensures RanksInOrder(map x | x in S :: RankOf(S, less, x), S, less)
  {
    var s := SortedListing(S, less);
    var m := map x | x in S :: RankOf(S, less, x);
    forall k: nat | k < |s| ensures s[k] in m && m[s[k]] == k {
      assert s[k] in Elements(s);
      PositionIsRank(less, s, k);
    }
    PositionsRankInOrder(less, s, m);
  }

  /**
   Ranks under partial views.  If the view `SB` holds `a` and everything below `a` that
   the view `SA` holds, and `a` comes before `b`, then `b` ranks strictly higher in `SB`
   than `a` does in `SA`.
   */
  lemma PartialViewsRankApart<T(!new)>(less: (T, T) -> bool, SA: set<T>, a: T, SB: set<T>, b: T)
    requires WeakOrder(less)
    requires less(a, b) && a in SB && Below(SA, less, a) <= SB
    ensures RankOf(SA, less, a) < RankOf(SB, less, b)
  {
    var lower := Below(SA, less, a);
    assert a !in lower;
    assert lower + {a} <= Below(SB, less, b);
    SubsetSize(lower + {a}, Below(SB, less, b));
  }
}
