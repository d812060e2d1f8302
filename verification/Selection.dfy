/** The bounded sample of a report as a one-shot selection: the first of every class, then the first others up to a
    limit; and why taking it one observation at a time gives the same (src/media/reconciliation.ts:91-110). */
module Selection {
  import opened SortedLists

  predicate Seen<T, C(==)>(cls: T -> C, l: seq<T>, c: C) { exists i :: 0 <= i < |l| && cls(l[i]) == c }

  /** The first element of every class. */
  function Champions<T, C(==)>(cls: T -> C, l: seq<T>): seq<T> {
    if l == [] then []
    else
      var n := |l| - 1;
      Champions(cls, l[..n]) + if Seen(cls, l[..n], cls(l[n])) then [] else [l[n]]
  }

  /** Everything else, in order. */
  function Others<T, C(==)>(cls: T -> C, l: seq<T>): seq<T> {
    if l == [] then []
    else
      var n := |l| - 1;
      Others(cls, l[..n]) + if Seen(cls, l[..n], cls(l[n])) then [l[n]] else []
  }

  function Min(a: int, b: int): int { if a < b then a else b }

  function Select<T, C(==)>(cls: T -> C, l: seq<T>, limit: nat): seq<T>
    requires |Champions(cls, l)| <= limit
  {
    Champions(cls, l) + Others(cls, l)[..Min(|Others(cls, l)|, limit - |Champions(cls, l)|)]
  }

  /** First of its class in a sorted list: no other element of the class is smaller. */
  ghost predicate IsFirst<T, C>(less: Less<T>, cls: T -> C, l: seq<T>, x: T) {
    x in l && forall y :: y in l && cls(y) == cls(x) ==> y == x || less(x, y)
  }

  lemma {:induction false} SplitSorted<T(!new), C>(less: Less<T>, cls: T -> C, l: seq<T>)
    requires StrictTotal(less) && Sorted(less, l)
    ensures Sorted(less, Champions(cls, l)) && Sorted(less, Others(cls, l))
    ensures forall x :: x in Champions(cls, l) <==> IsFirst(less, cls, l, x)
    ensures forall x :: x in Others(cls, l) <==> x in l && !IsFirst(less, cls, l, x)
    ensures |Champions(cls, l)| + |Others(cls, l)| == |l|
  {
    if l != [] {
      var n := |l| - 1;
      var front, last := l[..n], l[n];
      SplitSorted(less, cls, front);
      assert l == front + [last];
      LastLargest(less, front, last);
      AppendLarger(less, Champions(cls, front), last);
      AppendLarger(less, Others(cls, front), last);
      forall x ensures IsFirst(less, cls, l, x) <==> IsFirst(less, cls, front, x) || (x == last && !Seen(cls, front, cls(last))) {
        FirstOfNext(less, cls, front, last, x);
      }
    }
  }

  lemma LastLargest<T(!new)>(less: Less<T>, front: seq<T>, last: T)
    requires StrictTotal(less) && Sorted(less, front + [last])
    ensures forall y :: y in front ==> less(y, last)
  {
    var l := front + [last];
    forall y | y in front ensures less(y, last) {
      var i :| 0 <= i < |front| && front[i] == y;
      assert l[i] == y && l[|front|] == last;
    }
  }

  lemma FirstOfNext<T(!new), C>(less: Less<T>, cls: T -> C, front: seq<T>, last: T, x: T)
    requires StrictTotal(less) && forall y :: y in front ==> less(y, last)
    ensures IsFirst(less, cls, front + [last], x) <==> IsFirst(less, cls, front, x) || (x == last && !Seen(cls, front, cls(last)))
  {
    var l := front + [last];
    assert forall y :: y in l <==> y in front || y == last;
    if x == last {
      if Seen(cls, front, cls(last)) {
        var i :| 0 <= i < |front| && cls(front[i]) == cls(last);
        assert front[i] in l && less(front[i], last);
      } else {
        forall y | y in front ensures cls(y) != cls(last) {
          var i :| 0 <= i < |front| && front[i] == y;
        }
      }
    } else if x in front && !IsFirst(less, cls, front, x) {
      var y :| y in front && cls(y) == cls(x) && y != x && !less(x, y);
      assert y in l;
    }
  }

  lemma AppendLarger<T(!new)>(less: Less<T>, l: seq<T>, x: T)
    requires Sorted(less, l) && forall y :: y in l ==> less(y, x)
    ensures Sorted(less, l + [x])
  {
  }

  /** A champion exists for every class met. */
  lemma {:induction false} ChampionOf<T(!new), C>(less: Less<T>, cls: T -> C, l: seq<T>, y: T) returns (x: T)
    requires StrictTotal(less) && Sorted(less, l) && y in l
    ensures IsFirst(less, cls, l, x) && cls(x) == cls(y) && (x == y || less(x, y))
  {
    var k :| 0 <= k < |l| && l[k] == y;
    var i := 0;
    while i < k && cls(l[i]) != cls(y)
      invariant 0 <= i <= k && forall j :: 0 <= j < i ==> cls(l[j]) != cls(y)
    {
      i := i + 1;
    }
    x := l[i];
    forall z | z in l && cls(z) == cls(x) ensures z == x || less(x, z) {
      var j :| 0 <= j < |l| && l[j] == z;
    }
  }

  // ---------------------------------------------------------------- one more observation

  /** `kept` is what was selected from `all`; `next` and `whole` list them with x added. */
  ghost predicate OneMore<T(!new), C(!new)>(less: Less<T>, cls: T -> C, limit: nat, all: seq<T>, x: T, next: seq<T>, whole: seq<T>) {
    && StrictTotal(less) && Sorted(less, all) && Sorted(less, next) && Sorted(less, whole)
    && |Champions(cls, all)| <= limit && |Champions(cls, whole)| <= limit
    && (forall y :: y in whole <==> y in all || y == x)
    && (forall y :: y in next <==> y in Select(cls, all, limit) || y == x)
  }

  lemma NextWithin<T(!new), C(!new)>(less: Less<T>, cls: T -> C, limit: nat, all: seq<T>, x: T, next: seq<T>, whole: seq<T>)
    requires OneMore(less, cls, limit, all, x, next, whole)
    ensures forall y :: y in next ==> y in whole
    ensures forall y :: IsFirst(less, cls, all, y) ==> y in next
  {
    SplitSorted(less, cls, all);
    var others := Others(cls, all);
    forall y | y in Select(cls, all, limit) ensures y in all {
      if y in others[..Min(|others|, limit - |Champions(cls, all)|)] {
        assert y in others;
      }
    }
  }

  lemma SameFirsts<T(!new), C(!new)>(less: Less<T>, cls: T -> C, limit: nat, all: seq<T>, x: T, next: seq<T>, whole: seq<T>, y: T)
    requires OneMore(less, cls, limit, all, x, next, whole)
    ensures IsFirst(less, cls, next, y) <==> IsFirst(less, cls, whole, y)
  {
    NextWithin(less, cls, limit, all, x, next, whole);
    if y in whole {
      var z := ChampionOf(less, cls, whole, y);
      if z != x {
        assert IsFirst(less, cls, all, z);
      }
      assert z in next;
    }
  }

  /** An other of the old list among the first others of the whole was selected. */
  lemma OtherWasKept<T(!new), C(!new)>(less: Less<T>, cls: T -> C, limit: nat, all: seq<T>, x: T, whole: seq<T>, j: nat)
    requires StrictTotal(less) && Sorted(less, all) && Sorted(less, whole)
    requires |Champions(cls, all)| <= limit && forall y :: y in whole <==> y in all || y == x
    requires j < |Others(cls, whole)| && j < limit - |Champions(cls, whole)| && Others(cls, whole)[j] in Others(cls, all)
    ensures Others(cls, whole)[j] in Select(cls, all, limit)
  {
    var kept, others := Others(cls, all), Others(cls, whole);
    var i :| 0 <= i < |kept| && kept[i] == others[j];
    OthersSorted(less, cls, whole);
    OthersSorted(less, cls, all);
    OthersStay(less, cls, all, x, whole);
    EarlierInPart(less, others, kept, j, i);
    FewerChampions(less, cls, all, x, whole);
    InPrefix(kept, Min(|kept|, limit - |Champions(cls, all)|), i);
  }

  lemma OthersSorted<T(!new), C>(less: Less<T>, cls: T -> C, l: seq<T>)
    requires StrictTotal(less) && Sorted(less, l)
    ensures Sorted(less, Others(cls, l))
  {
    SplitSorted(less, cls, l);
  }

  lemma InPrefix<T>(l: seq<T>, k: nat, i: nat)
    requires i < k <= |l|
    ensures l[i] in l[..k]
  {
    assert l[..k][i] == l[i];
  }

  /** The first others of the whole are still at hand. */
  lemma FirstOthersKept<T(!new), C(!new)>(less: Less<T>, cls: T -> C, limit: nat, all: seq<T>, x: T, next: seq<T>, whole: seq<T>, j: nat)
    requires OneMore(less, cls, limit, all, x, next, whole)
    requires j < |Others(cls, whole)| && j < limit - |Champions(cls, whole)|
    ensures Others(cls, whole)[j] in Others(cls, next)
  {
    var y := Others(cls, whole)[j];
    SplitSorted(less, cls, whole);
    SplitSorted(less, cls, next);
    SplitSorted(less, cls, all);
    NextWithin(less, cls, limit, all, x, next, whole);
    SameFirsts(less, cls, limit, all, x, next, whole, y);
    assert y in Others(cls, whole);
    if y != x && !IsFirst(less, cls, all, y) {
      OtherWasKept(less, cls, limit, all, x, whole, j);
    }
  }

  /** What was no champion is none of a larger list. */
  lemma OthersStay<T(!new), C(!new)>(less: Less<T>, cls: T -> C, all: seq<T>, x: T, whole: seq<T>)
    requires StrictTotal(less) && Sorted(less, all) && Sorted(less, whole)
    requires forall y :: y in whole <==> y in all || y == x
    ensures forall z :: z in Others(cls, all) ==> z in Others(cls, whole)
  {
    SplitSorted(less, cls, all);
    SplitSorted(less, cls, whole);
    forall z | z in Others(cls, all) ensures z in Others(cls, whole) {
      var f := ChampionOf(less, cls, all, z);
      assert f in whole && f != z;
    }
  }

  function Classes<T, C(==)>(cls: T -> C, l: seq<T>): set<C> {
    if l == [] then {} else Classes(cls, l[..|l| - 1]) + {cls(l[|l| - 1])}
  }

  lemma {:induction false} InClasses<T, C>(cls: T -> C, l: seq<T>, c: C)
    ensures c in Classes(cls, l) <==> Seen(cls, l, c)
  {
    if l != [] {
      var n := |l| - 1;
      InClasses(cls, l[..n], c);
      if Seen(cls, l[..n], c) {
        var i :| 0 <= i < n && cls(l[..n][i]) == c;
        assert cls(l[i]) == c;
      }
    }
  }

  /** As many champions as classes. */
  lemma {:induction false} ChampionClasses<T, C>(cls: T -> C, l: seq<T>)
    ensures |Champions(cls, l)| == |Classes(cls, l)|
  {
    if l != [] {
      var n := |l| - 1;
      ChampionClasses(cls, l[..n]);
      var before, c := Classes(cls, l[..n]), cls(l[n]);
      InClasses(cls, l[..n], c);
      if c in before {
        assert before + {c} == before;
      } else {
        assert |before + {c}| == |before| + 1;
      }
    }
  }

  /** Adding an element loses no class. */
  lemma FewerChampions<T(!new), C(!new)>(less: Less<T>, cls: T -> C, all: seq<T>, x: T, whole: seq<T>)
    requires forall y :: y in whole <==> y in all || y == x
    ensures |Champions(cls, all)| <= |Champions(cls, whole)|
  {
    ChampionClasses(cls, all);
    ChampionClasses(cls, whole);
    forall c | c in Classes(cls, all) ensures c in Classes(cls, whole) {
      InClasses(cls, all, c);
      InClasses(cls, whole, c);
      var i :| 0 <= i < |all| && cls(all[i]) == c;
      assert all[i] in whole;
      var j :| 0 <= j < |whole| && whole[j] == all[i];
    }
    SubsetSize(Classes(cls, all), Classes(cls, whole));
  }

  lemma SubsetSize<T>(a: set<T>, b: set<T>)
    requires a <= b
    ensures |a| <= |b|
  {
    if a != {} {
      var x :| x in a;
      SubsetSize(a - {x}, b - {x});
    }
  }

  /** Selecting again after each observation is selecting once from everything observed. */
  lemma SelectStep<T(!new), C(!new)>(less: Less<T>, cls: T -> C, limit: nat, all: seq<T>, x: T, next: seq<T>, whole: seq<T>)
    requires OneMore(less, cls, limit, all, x, next, whole)
    ensures |Champions(cls, next)| <= limit && Select(cls, next, limit) == Select(cls, whole, limit)
  {
    SplitSorted(less, cls, whole);
    SplitSorted(less, cls, next);
    NextWithin(less, cls, limit, all, x, next, whole);
    forall y ensures IsFirst(less, cls, next, y) <==> IsFirst(less, cls, whole, y) {
      SameFirsts(less, cls, limit, all, x, next, whole, y);
    }
    ListingUnique(less, Champions(cls, next), Champions(cls, whole));
    var a, b := Others(cls, whole), Others(cls, next);
    var k := Min(|a|, limit - |Champions(cls, whole)|);
    forall j | 0 <= j < k ensures a[j] in b { FirstOthersKept(less, cls, limit, all, x, next, whole, j); }
    SharedPrefix(less, a, b, k);
    if k == |a| {
      assert a[..k] == a;
      ListingUnique(less, a, b);
    }
  }

  /** Nothing is left out of a small list. */
  lemma SelectAll<T(!new), C(!new)>(less: Less<T>, cls: T -> C, limit: nat, l: seq<T>)
    requires StrictTotal(less) && Sorted(less, l) && |l| <= limit
    ensures |Champions(cls, l)| <= limit && forall x :: x in Select(cls, l, limit) <==> x in l
  {
    SplitSorted(less, cls, l);
    assert Others(cls, l)[..|Others(cls, l)|] == Others(cls, l);
  }
}
