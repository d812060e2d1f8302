/** Strictly sorted lists over a total order: a set has one listing, and listings of nested sets share prefixes. */
module SortedLists {

  type Less<!T> = (T, T) -> bool

  ghost predicate StrictTotal<T(!new)>(less: Less<T>) {
    && (forall a :: !less(a, a))
    && (forall a, b, c :: less(a, b) && less(b, c) ==> less(a, c))
    && (forall a, b :: a == b || less(a, b) || less(b, a))
  }

  predicate Sorted<T>(less: Less<T>, l: seq<T>) { forall i, j :: 0 <= i < j < |l| ==> less(l[i], l[j]) }

  function SetOf<T>(l: seq<T>): set<T> { set x | x in l }

  /** Sorted, duplicates allowed: what sorting leaves. */
  predicate Ordered<T>(less: Less<T>, l: seq<T>) { forall i, j :: 0 <= i < j < |l| ==> !less(l[j], l[i]) }

  lemma SortedTail<T>(less: Less<T>, l: seq<T>)
    requires Sorted(less, l) && l != []
    ensures Sorted(less, l[1..]) && forall x :: x in l[1..] ==> less(l[0], x)
  {
  }

  lemma HoldsSome<T>(l: seq<T>)
    ensures l == [] || exists x :: x in l
  {
    if l != [] {
      assert l[0] in l;
    }
  }

  /** A set has at most one listing. */
  lemma {:induction false} ListingUnique<T(!new)>(less: Less<T>, a: seq<T>, b: seq<T>)
    requires StrictTotal(less) && Sorted(less, a) && Sorted(less, b) && (forall x :: x in a <==> x in b)
    ensures a == b
    decreases |a|
  {
    HoldsSome(a);
    HoldsSome(b);
    if a != [] && b != [] {
      SortedTail(less, a);
      SortedTail(less, b);
      assert a[0] in b && b[0] in a;
      assert a == [a[0]] + a[1..] && b == [b[0]] + b[1..];
      forall x ensures x in a[1..] <==> x in b[1..] {
        assert x in a <==> x in b;
      }
      ListingUnique(less, a[1..], b[1..]);
    }
  }

  /** A list drawn from another that contains its first k elements starts with them. */
  lemma {:induction false} SharedPrefix<T(!new)>(less: Less<T>, whole: seq<T>, part: seq<T>, k: nat)
    requires StrictTotal(less) && Sorted(less, whole) && Sorted(less, part) && k <= |whole|
    requires forall x :: x in part ==> x in whole
    requires forall j :: 0 <= j < k ==> whole[j] in part
    ensures k <= |part| && part[..k] == whole[..k]
    decreases k
  {
    if k > 0 {
      SortedTail(less, whole);
      assert whole[0] in part && part[0] in whole;
      SortedTail(less, part);
      assert part == [part[0]] + part[1..] && whole == [whole[0]] + whole[1..];
      forall j | 0 <= j < k - 1 ensures whole[1..][j] in part[1..] {
        assert whole[j + 1] in part && less(whole[0], whole[j + 1]);
      }
      forall x | x in part[1..] ensures x in whole[1..] {
        assert x in part && less(part[0], x);
      }
      SharedPrefix(less, whole[1..], part[1..], k - 1);
    }
  }

  /** An element stands no later in a list drawn from another than in the other. */
  lemma {:induction false} EarlierInPart<T(!new)>(less: Less<T>, whole: seq<T>, part: seq<T>, j: nat, i: nat)
    requires StrictTotal(less) && Sorted(less, whole) && Sorted(less, part) && j < |whole| && i < |part|
    requires (forall x :: x in part ==> x in whole) && part[i] == whole[j]
    ensures i <= j
    decreases j
  {
    if i > 0 {
      SortedTail(less, part);
      SortedTail(less, whole);
      assert part[0] in whole && less(part[0], part[i]);
      assert whole == [whole[0]] + whole[1..] && part == [part[0]] + part[1..];
      var first :| 0 <= first < |whole| && whole[first] == part[0];
      assert first < j;
      forall x | x in part[1..] ensures x in whole[1..] {
        assert x in part && less(part[0], x);
        var m :| 0 <= m < |whole| && whole[m] == part[0];
      }
      EarlierInPart(less, whole[1..], part[1..], j - 1, i - 1);
    }
  }

  // ---------------------------------------------------------------- sorting

  function Insert<T>(less: Less<T>, l: seq<T>, x: T): seq<T> {
    if l == [] then [x] else if less(x, l[0]) then [x] + l else [l[0]] + Insert(less, l[1..], x)
  }

  function Sort<T>(less: Less<T>, l: seq<T>): seq<T> {
    if l == [] then [] else Insert(less, Sort(less, l[..|l| - 1]), l[|l| - 1])
  }

  lemma {:induction false} InsertHolds<T>(less: Less<T>, l: seq<T>, x: T)
    ensures forall y :: y in Insert(less, l, x) <==> y in l || y == x
  {
    if l != [] {
      InsertHolds(less, l[1..], x);
      assert l == [l[0]] + l[1..];
    }
  }

  lemma {:induction false} InsertOrdered<T(!new)>(less: Less<T>, l: seq<T>, x: T)
    requires StrictTotal(less) && Ordered(less, l)
    ensures Ordered(less, Insert(less, l, x))
  {
    if l != [] {
      var rest := l[1..];
      assert Ordered(less, rest);
      InsertOrdered(less, rest, x);
      InsertHolds(less, rest, x);
      var m := Insert(less, l, x);
      if less(x, l[0]) {
        forall i, j | 0 <= i < j < |m| ensures !less(m[j], m[i]) {
          if i == 0 && j > 1 {
            assert !less(l[j - 1], l[0]);
          }
        }
      } else {
        forall j | 0 < j < |m| ensures !less(m[j], m[0]) {
          var y := Insert(less, rest, x)[j - 1];
          assert y in Insert(less, rest, x);
          if y != x {
            var k :| 0 <= k < |rest| && rest[k] == y;
            assert l[k + 1] == y;
          }
        }
      }
    }
  }

  lemma {:induction false} SortOrders<T(!new)>(less: Less<T>, l: seq<T>)
    requires StrictTotal(less)
    ensures Ordered(less, Sort(less, l)) && forall x :: x in Sort(less, l) <==> x in l
  {
    if l != [] {
      var n := |l| - 1;
      SortOrders(less, l[..n]);
      InsertOrdered(less, Sort(less, l[..n]), l[n]);
      InsertHolds(less, Sort(less, l[..n]), l[n]);
      assert l == l[..n] + [l[n]];
    }
  }

  /** Repeats left out. */
  function Dedup<T(==)>(l: seq<T>): seq<T> {
    if l == [] then []
    else
      var n := |l| - 1;
      var front := Dedup(l[..n]);
      if l[n] in front then front else front + [l[n]]
  }

  lemma {:induction false} DedupSorts<T(!new)>(less: Less<T>, l: seq<T>)
    requires StrictTotal(less) && Ordered(less, l)
    ensures Sorted(less, Dedup(l)) && forall x :: x in Dedup(l) <==> x in l
  {
    if l != [] {
      var n := |l| - 1;
      var front := Dedup(l[..n]);
      DedupSorts(less, l[..n]);
      assert l == l[..n] + [l[n]];
      if l[n] !in front {
        forall i | 0 <= i < |front| ensures less(front[i], l[n]) {
          assert front[i] in l[..n];
          var k :| 0 <= k < n && l[k] == front[i];
          assert front[i] != l[n];
        }
      }
    }
  }

  /** The listing of the elements of a list. */
  function Listing<T(==)>(less: Less<T>, l: seq<T>): seq<T> { Dedup(Sort(less, l)) }

  lemma ListingSorted<T(!new)>(less: Less<T>, l: seq<T>)
    requires StrictTotal(less)
    ensures Sorted(less, Listing(less, l)) && forall x :: x in Listing(less, l) <==> x in l
  {
    SortOrders(less, l);
    DedupSorts(less, Sort(less, l));
  }
}
