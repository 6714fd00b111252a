/** The language's stable array sort, as a function. */
module Sorting {

  predicate NoDup<T(==)>(s: seq<T>) {
    forall i, j | 0 <= i < j < |s| :: s[i] != s[j]
  }

  /** A comparison that any two values answer, consistently. */
  ghost predicate TotalPreorder<T(!new)>(le: (T, T) -> bool) {
    && (forall a, b :: le(a, b) || le(b, a))
    && (forall a, b, c :: le(a, b) && le(b, c) ==> le(a, c))
  }

  ghost predicate Sorted<T>(le: (T, T) -> bool, s: seq<T>) {
    forall i, j | 0 <= i < j < |s| :: le(s[i], s[j])
  }

  function Insert<T>(le: (T, T) -> bool, x: T, s: seq<T>): (r: seq<T>)
    ensures multiset(r) == multiset(s) + multiset{x}
  {
    if s == [] then [x]
    else
      var init, last := s[..|s| - 1], s[|s| - 1];
      assert s == init + [last];
      if le(last, x) then s + [x] else Insert(le, x, init) + [last]
  }

  function Sort<T>(le: (T, T) -> bool, s: seq<T>): (r: seq<T>)
    ensures multiset(r) == multiset(s)
  {
    if s == [] then []
    else
      assert s == s[..|s| - 1] + [s[|s| - 1]];
      Insert(le, s[|s| - 1], Sort(le, s[..|s| - 1]))
  }

  lemma InsertMembers<T>(le: (T, T) -> bool, x: T, s: seq<T>)
    ensures forall y :: y in Insert(le, x, s) <==> y == x || y in s
  {
    forall y ensures y in Insert(le, x, s) <==> y == x || y in s {
      assert y in Insert(le, x, s) <==> y in multiset(Insert(le, x, s));
      assert y in s <==> y in multiset(s);
    }
  }

  lemma {:induction false} InsertSorted<T(!new)>(le: (T, T) -> bool, x: T, s: seq<T>)
    requires TotalPreorder(le) && Sorted(le, s)
    ensures Sorted(le, Insert(le, x, s))
  {
    if s != [] {
      var init, last := s[..|s| - 1], s[|s| - 1];
      if le(last, x) {
        forall i | 0 <= i < |s| ensures le(s[i], x) {
          assert i < |s| - 1 ==> le(s[i], s[|s| - 1]);
        }
      } else {
        InsertSorted(le, x, init);
        InsertMembers(le, x, init);
        assert forall y | y in init :: le(y, last);
      }
    }
  }

  lemma {:induction false} SortSorted<T(!new)>(le: (T, T) -> bool, s: seq<T>)
    requires TotalPreorder(le)
    ensures Sorted(le, Sort(le, s))
  {
    if s != [] {
      SortSorted(le, s[..|s| - 1]);
      InsertSorted(le, s[|s| - 1], Sort(le, s[..|s| - 1]));
    }
  }

  lemma SameElems<T>(a: seq<T>, b: seq<T>)
    requires multiset(a) == multiset(b)
    ensures |a| == |b|
    ensures forall x :: x in a <==> x in b
  {
    assert forall x :: x in a <==> x in multiset(a);
    assert forall x :: x in b <==> x in multiset(b);
    assert |a| == |multiset(a)| && |b| == |multiset(b)|;
  }

  lemma {:induction false} NoDupCount<T>(s: seq<T>)
    ensures NoDup(s) <==> forall x :: multiset(s)[x] <= 1
  {
    if s != [] {
      var init, last := s[..|s| - 1], s[|s| - 1];
      assert s == init + [last];
      NoDupCount(init);
      assert last in init <==> multiset(init)[last] > 0;
      if NoDup(s) {
        assert last !in init;
      } else if NoDup(init) {
        var i, j :| 0 <= i < j < |s| && s[i] == s[j];
        assert init[i] == last;
        assert multiset(s)[last] > 1;
      } else {
        var x :| multiset(init)[x] > 1;
        assert multiset(s)[x] > 1;
      }
    }
  }

  /** The entries that tie with `x`, in order. */
  function TiesWith<T>(le: (T, T) -> bool, x: T, s: seq<T>): seq<T> {
    if s == [] then []
    else
      var last := s[|s| - 1];
      TiesWith(le, x, s[..|s| - 1]) + if le(x, last) && le(last, x) then [last] else []
  }

  lemma {:induction false} TiesSnoc<T>(le: (T, T) -> bool, x: T, s: seq<T>, y: T)
    ensures TiesWith(le, x, s + [y]) == TiesWith(le, x, s) + if le(x, y) && le(y, x) then [y] else []
  {
    assert (s + [y])[..|s|] == s;
  }

  /** Of two neighbours that are out of order at most one ties with `x`, so exchanging them changes nothing. */
  lemma {:induction false} TiesSwap<T(!new)>(le: (T, T) -> bool, x: T, s: seq<T>, y: T, z: T)
    requires TotalPreorder(le) && !le(z, y)
    ensures TiesWith(le, x, s + [y] + [z]) == TiesWith(le, x, s + [z] + [y])
  {
    TiesSnoc(le, x, s, y);
    TiesSnoc(le, x, s, z);
    TiesSnoc(le, x, s + [y], z);
    TiesSnoc(le, x, s + [z], y);
    assert le(z, x) && le(x, y) ==> le(z, y);
  }

  lemma {:induction false} TiesOnEqual<T>(le: (T, T) -> bool, x: T, a: seq<T>, b: seq<T>, z: T)
    requires TiesWith(le, x, a) == TiesWith(le, x, b)
    ensures TiesWith(le, x, a + [z]) == TiesWith(le, x, b + [z])
  {
    TiesSnoc(le, x, a, z);
    TiesSnoc(le, x, b, z);
  }

  lemma {:induction false} InsertUnfolds<T>(le: (T, T) -> bool, y: T, s: seq<T>)
    ensures
      Insert(le, y, s) ==
      if s == [] || le(s[|s| - 1], y) then s + [y] else Insert(le, y, s[..|s| - 1]) + [s[|s| - 1]]
  {
  }

  lemma {:induction false} InsertStable<T(!new)>(le: (T, T) -> bool, x: T, y: T, s: seq<T>)
    requires TotalPreorder(le)
    ensures TiesWith(le, x, Insert(le, y, s)) == TiesWith(le, x, s + [y])
  {
    InsertUnfolds(le, y, s);
    if s != [] && !le(s[|s| - 1], y) {
      var init, last := s[..|s| - 1], s[|s| - 1];
      InsertStable(le, x, y, init);
      TiesOnEqual(le, x, Insert(le, y, init), init + [y], last);
      TiesSwap(le, x, init, y, last);
      assert init + [last] == s;
    }
  }

  /** Entries that tie stay in their order. */
  lemma {:induction false} SortStable<T(!new)>(le: (T, T) -> bool, x: T, s: seq<T>)
    requires TotalPreorder(le)
    ensures TiesWith(le, x, Sort(le, s)) == TiesWith(le, x, s)
  {
    if s != [] {
      var init, last := s[..|s| - 1], s[|s| - 1];
      SortStable(le, x, init);
      InsertStable(le, x, last, Sort(le, init));
      TiesSnoc(le, x, Sort(le, init), last);
    }
  }

  lemma SortNoDup<T>(le: (T, T) -> bool, s: seq<T>)
    requires NoDup(s)
    ensures NoDup(Sort(le, s))
  {
    NoDupCount(s);
    NoDupCount(Sort(le, s));
  }

  /** With no ties, the sorted listing of a set is unique. */
  lemma {:induction false} SortedUnique<T>(le: (T, T) -> bool, a: seq<T>, b: seq<T>)
    requires Sorted(le, a) && Sorted(le, b) && NoDup(a) && NoDup(b) && |a| == |b|
    requires forall x :: x in a <==> x in b
    requires forall x, y | x in a && y in a && le(x, y) && le(y, x) :: x == y
    ensures a == b
  {
    if a != [] {
      assert a[0] in b;
      assert b[0] in a;
      assert a[0] == b[0] by {
        var i :| 0 <= i < |b| && b[i] == a[0];
        var j :| 0 <= j < |a| && a[j] == b[0];
      }
      forall x ensures x in a[1..] <==> x in b[1..] {
        assert x in a[1..] <==> x in a && x != a[0];
        assert x in b[1..] <==> x in b && x != b[0];
      }
      SortedUnique(le, a[1..], b[1..]);
    }
  }

  /** `s` without its entry at `k`. */
  function RemoveAt<T>(s: seq<T>, k: nat): seq<T>
    requires k < |s|
  {
    s[..k] + s[k + 1..]
  }

  lemma RemoveAtCounts<T>(s: seq<T>, k: nat)
    requires k < |s|
    ensures multiset(s) == multiset(RemoveAt(s, k)) + multiset{s[k]}
  {
    assert s == s[..k] + [s[k]] + s[k + 1..];
  }

  lemma LastCounts<T>(s: seq<T>)
    requires s != []
    ensures multiset(s) == multiset(s[..|s| - 1]) + multiset{s[|s| - 1]}
  {
    assert s == s[..|s| - 1] + [s[|s| - 1]];
  }

  lemma CancelOne<T>(a: multiset<T>, b: multiset<T>, x: T)
    requires a + multiset{x} == b + multiset{x}
    ensures a == b
  {
    forall e ensures a[e] == b[e] {
      assert (a + multiset{x})[e] == (b + multiset{x})[e];
    }
  }

  /** One step of an induction over two permutations of each other. */
  lemma TakeLast<T>(a: seq<T>, b: seq<T>) returns (k: nat)
    requires multiset(a) == multiset(b) && a != []
    ensures k < |b| && b[k] == a[|a| - 1]
    ensures multiset(a[..|a| - 1]) == multiset(RemoveAt(b, k))
  {
    SameElems(a, b);
    assert a[|a| - 1] in b;
    k :| 0 <= k < |b| && b[k] == a[|a| - 1];
    LastCounts(a);
    RemoveAtCounts(b, k);
    CancelOne(multiset(a[..|a| - 1]), multiset(RemoveAt(b, k)), b[k]);
  }

  lemma NoDupSnoc<T>(s: seq<T>, x: T)
    ensures NoDup(s + [x]) <==> NoDup(s) && x !in s
  {
    var t := s + [x];
    if NoDup(t) {
      forall i, j | 0 <= i < j < |s| ensures s[i] != s[j] {
        assert t[i] != t[j];
      }
      forall i | 0 <= i < |s| ensures s[i] != x {
        assert t[i] != t[|s|];
      }
    }
  }

  lemma PrefixOn<T>(s: seq<T>, k: nat)
    requires k < |s|
    ensures s[..k] + [s[k]] == s[..k + 1]
  {
  }

  lemma PrefixAll<T>(s: seq<T>)
    ensures s[..|s|] == s
  {
  }

  lemma SubsetSize<T>(a: set<T>, b: set<T>)
    requires a <= b
    ensures |a| <= |b|
  {
    assert b == a + (b - a);
  }

  /** The naturals below `n`. */
  ghost function Below(n: nat): (r: set<nat>)
    ensures |r| == n && forall k: nat :: k in r <==> k < n
  {
    if n == 0 then {} else Below(n - 1) + {n - 1}
  }

  ghost function Members<T>(s: seq<T>): set<T> {
    set x | x in s
  }

  lemma {:induction false} NoDupMembers<T>(s: seq<T>)
    requires NoDup(s)
    ensures |Members(s)| == |s|
  {
    if s != [] {
      var init, last := s[..|s| - 1], s[|s| - 1];
      assert s == init + [last];
      NoDupSnoc(init, last);
      NoDupMembers(init);
      assert Members(s) == Members(init) + {last};
    }
  }

  /** Distinct naturals below `n` are at most `n` many. */
  lemma FewBelow(s: seq<nat>, n: nat)
    requires NoDup(s) && forall k | k in s :: k < n
    ensures |s| <= n
  {
    NoDupMembers(s);
    assert Below(n) == Members(s) + (Below(n) - Members(s));
  }
}
