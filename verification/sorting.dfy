/** Stable sorting by a comparator, as `Array.prototype.sort` does it.

    A JavaScript comparator `c(a, b)` is modelled by the relation
    `le(a, b)`, "`c(a, b) <= 0`": `a` may be placed before `b`. The
    language requires `sort` to be stable, and for a consistent comparator
    (one whose `le` is a total preorder) that fixes the output: the unique
    permutation that is sorted and keeps every class of equivalent
    elements in input order. `SortBy` computes it by insertion. */
module Sorting {
  import opened Seqs

  ghost predicate TotalPreorder<T(!new)>(le: (T, T) -> bool)
  {
    && (forall a, b :: le(a, b) || le(b, a))
    && (forall a, b, c :: le(a, b) && le(b, c) ==> le(a, c))
  }

  /** Every element may be placed before every later one. */
  ghost predicate Sorted<T>(s: seq<T>, le: (T, T) -> bool)
  {
    forall i, j :: 0 <= i < j < |s| ==> le(s[i], s[j])
  }

  /** The elements the comparator cannot tell apart from `c`. */
  function EquivTo<T>(le: (T, T) -> bool, c: T): T -> bool
  {
    y => le(c, y) && le(y, c)
  }

  /** The output keeps each class of equivalent elements of `s` in the
      order they have in `s`. */
  ghost predicate StableWrt<T(!new)>(r: seq<T>, s: seq<T>, le: (T, T) -> bool)
  {
    forall c :: Filter(r, EquivTo(le, c)) == Filter(s, EquivTo(le, c))
  }

  /** Places `x` before the first element it may precede. */
  function Insert<T>(x: T, s: seq<T>, le: (T, T) -> bool): (r: seq<T>)
    ensures multiset(r) == multiset(s) + multiset{x}
  {
    if |s| == 0 then [x]
    else if le(x, s[0]) then [x] + s
    else
      assert s == [s[0]] + s[1..];
      [s[0]] + Insert(x, s[1..], le)
  }

  /** Insertion sort: the head is inserted into the sorted tail, ahead of
      every element equivalent to it, which keeps the sort stable. */
  function SortBy<T>(s: seq<T>, le: (T, T) -> bool): (r: seq<T>)
    ensures multiset(r) == multiset(s)
    ensures |r| == |s|
  {
    if |s| == 0 then []
    else
      assert s == [s[0]] + s[1..];
      Insert(s[0], SortBy(s[1..], le), le)
  }

  lemma {:induction false} InsertSorted<T(!new)>(x: T, s: seq<T>, le: (T, T) -> bool)
    requires TotalPreorder(le)
    requires Sorted(s, le)
    ensures Sorted(Insert(x, s, le), le)
  {
    if |s| > 0 && !le(x, s[0]) {
      var tail := Insert(x, s[1..], le);
      InsertSorted(x, s[1..], le);
      forall y | y in tail
        ensures le(s[0], y)
      {
        assert y in multiset(tail);
        if y != x {
          assert y in multiset(s[1..]);
          var k :| 0 <= k < |s[1..]| && s[1..][k] == y;
          assert s[k + 1] == y;
        }
      }
      var r := Insert(x, s, le);
      assert r == [s[0]] + tail;
      forall i, j | 0 <= i < j < |r|
        ensures le(r[i], r[j])
      {
        if i == 0 {
          assert r[j] == tail[j - 1];
          assert tail[j - 1] in tail;
        } else {
          assert r[i] == tail[i - 1] && r[j] == tail[j - 1];
        }
      }
    }
  }

  /** Under a total preorder the output of `SortBy` is sorted. */
  lemma {:induction false} SortBySorted<T(!new)>(s: seq<T>, le: (T, T) -> bool)
    requires TotalPreorder(le)
    ensures Sorted(SortBy(s, le), le)
  {
    if |s| > 0 {
      SortBySorted(s[1..], le);
      InsertSorted(s[0], SortBy(s[1..], le), le);
    }
  }

  /** Inserting `x` adds it at the front of its own class and leaves every
      other class as it was. */
  lemma FilterInsert<T(!new)>(x: T, s: seq<T>, le: (T, T) -> bool, c: T)
    requires TotalPreorder(le)
    ensures Filter(Insert(x, s, le), EquivTo(le, c))
         == (if EquivTo(le, c)(x) then [x] else []) + Filter(s, EquivTo(le, c))
  {
    var p := EquivTo(le, c);
    forall y | y in s && p(x) && p(y)
      ensures le(x, y)
    {
      assert le(x, c) && le(c, y);
    }
    FilterInsertSkipping(x, s, le, p);
  }

  /** The same, for any class `p` none of whose members `x` is placed
      after once it belongs to `p`. */
  lemma {:induction false} FilterInsertSkipping<T(!new)>(x: T, s: seq<T>, le: (T, T) -> bool, p: T -> bool)
    requires forall y :: y in s && p(x) && p(y) ==> le(x, y)
    ensures Filter(Insert(x, s, le), p) == (if p(x) then [x] else []) + Filter(s, p)
  {
    var headX := if p(x) then [x] else [];
    if |s| == 0 {
      FilterCons(x, [], p);
      assert [x] + [] == [x];
    } else if le(x, s[0]) {
      FilterCons(x, s, p);
    } else {
      assert s == [s[0]] + s[1..];
      var tail := Insert(x, s[1..], le);
      assert Insert(x, s, le) == [s[0]] + tail;
      forall y | y in s[1..] && p(x) && p(y)
        ensures le(x, y)
      {
        assert y in s;
      }
      FilterInsertSkipping(x, s[1..], le, p);
      FilterCons(s[0], tail, p);
      FilterCons(s[0], s[1..], p);
      var headS := if p(s[0]) then [s[0]] else [];
      if p(x) {
        // x joins the class only ahead of elements it may precede, so the
        // skipped head s[0] is not in it.
        assert s[0] in s;
        assert headS == [];
      } else {
        assert headX == [];
      }
      assert Filter(Insert(x, s, le), p) == headS + (headX + Filter(s[1..], p));
    }
  }

  /** `SortBy` is stable. */
  lemma {:induction false} SortByStable<T(!new)>(s: seq<T>, le: (T, T) -> bool)
    requires TotalPreorder(le)
    ensures StableWrt(SortBy(s, le), s, le)
  {
    if |s| > 0 {
      SortByStable(s[1..], le);
      forall c
        ensures Filter(SortBy(s, le), EquivTo(le, c)) == Filter(s, EquivTo(le, c))
      {
        FilterInsert(s[0], SortBy(s[1..], le), le, c);
      }
    }
  }

  /** An input that is already sorted comes back unchanged; the insertion
      never moves an element past one it may precede. */
  lemma {:induction false} SortBySortedInput<T>(s: seq<T>, le: (T, T) -> bool)
    requires Sorted(s, le)
    ensures SortBy(s, le) == s
  {
    if |s| > 0 {
      SortBySortedInput(s[1..], le);
      if |s| > 1 {
        assert le(s[0], s[1]);
        assert s[1..][0] == s[1];
      }
      assert s == [s[0]] + s[1..];
    }
  }

  lemma SortByIdempotent<T(!new)>(s: seq<T>, le: (T, T) -> bool)
    requires TotalPreorder(le)
    ensures SortBy(SortBy(s, le), le) == SortBy(s, le)
  {
    SortBySorted(s, le);
    SortBySortedInput(SortBy(s, le), le);
  }

  /** Two sorted sequences with the same elements and the same order inside
      every class of equivalent elements are equal. */
  lemma {:induction false} SortedStableUnique<T(!new)>(r1: seq<T>, r2: seq<T>, le: (T, T) -> bool)
    requires TotalPreorder(le)
    requires Sorted(r1, le) && Sorted(r2, le)
    requires multiset(r1) == multiset(r2)
    requires StableWrt(r1, r2, le)
    ensures r1 == r2
  {
    if |r1| == 0 {
      assert |multiset(r2)| == 0;
    } else {
      assert |r2| == |multiset(r2)| == |multiset(r1)| == |r1|;
      SortedHeadsEquivalent(r1, r2, le);
      SameHead(r1, r2, le);
      StableTails(r1, r2, le);
      SortedTail(r1, le);
      SortedTail(r2, le);
      SameTailElements(r1, r2);
      SortedStableUnique(r1[1..], r2[1..], le);
      assert r1 == [r1[0]] + r1[1..] && r2 == [r2[0]] + r2[1..];
    }
  }

  lemma SortedTail<T>(s: seq<T>, le: (T, T) -> bool)
    requires Sorted(s, le) && |s| > 0
    ensures Sorted(s[1..], le)
  {
    forall i, j | 0 <= i < j < |s[1..]|
      ensures le(s[1..][i], s[1..][j])
    {
      assert s[1..][i] == s[i + 1] && s[1..][j] == s[j + 1];
    }
  }

  /** Permutations of each other with the same head have tails that are
      permutations of each other. */
  lemma SameTailElements<T>(r1: seq<T>, r2: seq<T>)
    requires |r1| > 0 && |r2| > 0 && r1[0] == r2[0]
    requires multiset(r1) == multiset(r2)
    ensures multiset(r1[1..]) == multiset(r2[1..])
  {
    var h := r1[0];
    assert r1 == [h] + r1[1..] && r2 == [h] + r2[1..];
    assert multiset(r1[1..]) == multiset(r1) - multiset{h};
    assert multiset(r2[1..]) == multiset(r2) - multiset{h};
  }

  /** The heads of two sorted permutations of each other are equivalent. */
  lemma SortedHeadsEquivalent<T(!new)>(r1: seq<T>, r2: seq<T>, le: (T, T) -> bool)
    requires TotalPreorder(le)
    requires Sorted(r1, le) && Sorted(r2, le)
    requires multiset(r1) == multiset(r2) && |r1| > 0
    ensures |r2| > 0 && EquivTo(le, r1[0])(r2[0])
  {
    assert r1[0] in multiset(r2);
    var h1, h2 := r1[0], r2[0];
    assert h2 in multiset(r1);
    assert le(h1, h2) by {
      var k :| 0 <= k < |r1| && r1[k] == h2;
      assert k == 0 || le(r1[0], r1[k]);
    }
    assert le(h2, h1) by {
      var k :| 0 <= k < |r2| && r2[k] == h1;
      assert k == 0 || le(r2[0], r2[k]);
    }
  }

  /** When the heads are equivalent, stability forces them to be equal: each
      is the first element of their common class. */
  lemma SameHead<T(!new)>(r1: seq<T>, r2: seq<T>, le: (T, T) -> bool)
    requires TotalPreorder(le)
    requires |r1| > 0 && |r2| > 0 && EquivTo(le, r1[0])(r2[0])
    requires StableWrt(r1, r2, le)
    ensures r1[0] == r2[0]
  {
    var h1, h2 := r1[0], r2[0];
    var e := EquivTo(le, h1);
    assert e(h1);
    assert r1 == [h1] + r1[1..] && r2 == [h2] + r2[1..];
    FilterCons(h1, r1[1..], e);
    FilterCons(h2, r2[1..], e);
    assert Filter(r1, e) == Filter(r2, e);
    assert h1 == Filter(r1, e)[0] == Filter(r2, e)[0] == h2;
  }

  /** Stability survives dropping a common head. */
  lemma StableTails<T(!new)>(r1: seq<T>, r2: seq<T>, le: (T, T) -> bool)
    requires |r1| > 0 && |r2| > 0 && r1[0] == r2[0]
    requires StableWrt(r1, r2, le)
    ensures StableWrt(r1[1..], r2[1..], le)
  {
    var h := r1[0];
    assert r1 == [h] + r1[1..] && r2 == [h] + r2[1..];
    forall c
      ensures Filter(r1[1..], EquivTo(le, c)) == Filter(r2[1..], EquivTo(le, c))
    {
      var p := EquivTo(le, c);
      var head := if p(h) then [h] else [];
      FilterCons(h, r1[1..], p);
      FilterCons(h, r2[1..], p);
      assert Filter(r1, p) == Filter(r2, p);
      assert Filter(r1[1..], p) == (head + Filter(r1[1..], p))[|head|..];
      assert Filter(r2[1..], p) == (head + Filter(r2[1..], p))[|head|..];
    }
  }

  /** `SortBy` is the stable sort: any sorted permutation of `s` that keeps
      every class of equivalent elements in input order is `SortBy(s)`. */
  lemma SortByIsTheStableSort<T(!new)>(s: seq<T>, r: seq<T>, le: (T, T) -> bool)
    requires TotalPreorder(le)
    requires multiset(r) == multiset(s)
    requires Sorted(r, le)
    requires StableWrt(r, s, le)
    ensures r == SortBy(s, le)
  {
    SortBySorted(s, le);
    SortByStable(s, le);
    SortedStableUnique(r, SortBy(s, le), le);
  }

  /** Rewriting every element with a function the comparator cannot see
      commutes with sorting. */
  lemma {:induction false} SortByMap<T>(s: seq<T>, f: T -> T, le: (T, T) -> bool)
    requires forall a, b :: le(f(a), f(b)) == le(a, b)
    ensures SortBy(MapSeq(s, f), le) == MapSeq(SortBy(s, le), f)
  {
    if |s| > 0 {
      SortByMap(s[1..], f, le);
      assert MapSeq(s, f)[0] == f(s[0]) && MapSeq(s, f)[1..] == MapSeq(s[1..], f);
      InsertMap(s[0], SortBy(s[1..], le), f, le);
    }
  }

  lemma {:induction false} InsertMap<T>(x: T, s: seq<T>, f: T -> T, le: (T, T) -> bool)
    requires forall a, b :: le(f(a), f(b)) == le(a, b)
    ensures Insert(f(x), MapSeq(s, f), le) == MapSeq(Insert(x, s, le), f)
  {
    if |s| > 0 {
      var ms := MapSeq(s, f);
      assert ms[0] == f(s[0]) && ms[1..] == MapSeq(s[1..], f);
      if !le(x, s[0]) {
        InsertMap(x, s[1..], f, le);
        var r := Insert(x, s, le);
        assert r == [s[0]] + Insert(x, s[1..], le);
        assert MapSeq(r, f) == [f(s[0])] + MapSeq(Insert(x, s[1..], le), f) by {
          assert r[1..] == Insert(x, s[1..], le);
        }
      } else {
        var r := [x] + s;
        assert MapSeq(r, f) == [f(x)] + MapSeq(s, f) by {
          assert r[1..] == s;
        }
      }
    }
  }
}
