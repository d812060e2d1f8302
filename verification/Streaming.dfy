/** Selecting again after every observation, for any order, classes and limit. */
module Streaming {
  import opened SortedLists
  import opened Selection

  /** The retained samples and whether any were left out. */
  datatype Kept<T> = Kept(samples: seq<T>, truncated: bool)

  datatype Sampling<!T(==), !C(==)> = Sampling(less: Less<T>, listing: seq<T> -> seq<T>, cls: T -> C, ordinary: T -> bool, limit: nat)
  {
    /** The samples with one more observation: sorted, repeats dropped. */
    function Choices(samples: seq<T>, o: T): seq<T> { listing(samples + [o]) }

    /** The classes alone fit the limit. */
    predicate Fits(samples: seq<T>, o: T) { |Champions(cls, Choices(samples, o))| <= limit }

    function Next(k: Kept<T>, o: T): Kept<T> {
      if ordinary(o) || !Fits(k.samples, o) then k
      else Kept(Select(cls, Choices(k.samples, o), limit), k.truncated || |Choices(k.samples, o)| > limit)
    }

    /** What is kept after all of these observations, in the order they came. */
    function Scan(os: seq<T>): Kept<T> {
      if os == [] then Kept([], false) else Next(Scan(os[..|os| - 1]), os[|os| - 1])
    }

    function Notable(os: seq<T>): seq<T> {
      if os == [] then [] else Notable(os[..|os| - 1]) + if ordinary(os[|os| - 1]) then [] else [os[|os| - 1]]
    }
  }

  /** The order is total and `listing` lists by it. */
  ghost predicate Lists<T(!new), C>(rules: Sampling<T, C>) {
    StrictTotal(rules.less) && forall l: seq<T> :: IsListing(rules.less, rules.listing(l), l)
  }

  ghost predicate IsListing<T(!new)>(less: Less<T>, listing: seq<T>, l: seq<T>) {
    Sorted(less, listing) && forall x :: x in listing <==> x in l
  }

  /** No list of these observations has more classes than the limit. */
  ghost predicate AlwaysFits<T(!new), C>(rules: Sampling<T, C>, os: seq<T>) {
    forall l: seq<T> :: (forall o :: o in l ==> o in os) ==> |Champions(rules.cls, l)| <= rules.limit
  }

  lemma {:induction false} NotableHolds<T, C>(rules: Sampling<T, C>, os: seq<T>)
    ensures forall o :: o in rules.Notable(os) <==> o in os && !rules.ordinary(o)
  {
    if os != [] {
      NotableHolds(rules, os[..|os| - 1]);
      assert os == os[..|os| - 1] + [os[|os| - 1]];
    }
  }

  /** `all` lists what `before` lists, and o. */
  ghost predicate Extends<T(!new), C(!new)>(rules: Sampling<T, C>, before: seq<T>, o: T, all: seq<T>) {
    && Lists(rules) && Sorted(rules.less, before) && Sorted(rules.less, all)
    && |Champions(rules.cls, before)| <= rules.limit && |Champions(rules.cls, all)| <= rules.limit
    && forall y :: y in all <==> y in before || y == o
  }

  lemma ChoicesOneMore<T(!new), C(!new)>(rules: Sampling<T, C>, before: seq<T>, o: T, all: seq<T>, kept: seq<T>)
    requires Extends(rules, before, o, all) && kept == Select(rules.cls, before, rules.limit)
    ensures OneMore(rules.less, rules.cls, rules.limit, before, o, rules.Choices(kept, o), all)
  {
    assert IsListing(rules.less, rules.listing(kept + [o]), kept + [o]);
    assert forall y :: y in rules.Choices(kept, o) <==> y in kept || y == o;
  }

  lemma NextGives<T, C>(rules: Sampling<T, C>, k: Kept<T>, o: T, samples: seq<T>, truncated: bool)
    requires !rules.ordinary(o) && rules.Fits(k.samples, o)
    requires Select(rules.cls, rules.Choices(k.samples, o), rules.limit) == samples
    requires truncated == (k.truncated || |rules.Choices(k.samples, o)| > rules.limit)
    ensures rules.Next(k, o) == Kept(samples, truncated)
  {
  }

  lemma ScanTurn<T(!new), C(!new)>(rules: Sampling<T, C>, before: seq<T>, o: T, all: seq<T>, k: Kept<T>)
    requires Extends(rules, before, o, all) && !rules.ordinary(o)
    requires k.samples == Select(rules.cls, before, rules.limit) && k.truncated == (|before| > rules.limit)
    ensures rules.Next(k, o) == Kept(Select(rules.cls, all, rules.limit), |all| > rules.limit)
  {
    ChoicesOneMore(rules, before, o, all, k.samples);
    NextIs(rules, before, o, rules.Choices(k.samples, o), all);
    NextGives(rules, k, o, Select(rules.cls, all, rules.limit), |all| > rules.limit);
  }

  lemma NextIs<T(!new), C(!new)>(rules: Sampling<T, C>, before: seq<T>, o: T, choices: seq<T>, all: seq<T>)
    requires OneMore(rules.less, rules.cls, rules.limit, before, o, choices, all)
    ensures |Champions(rules.cls, choices)| <= rules.limit
    ensures Kept(Select(rules.cls, choices, rules.limit), |before| > rules.limit || |choices| > rules.limit) ==
            Kept(Select(rules.cls, all, rules.limit), |all| > rules.limit)
  {
    SelectStep(rules.less, rules.cls, rules.limit, before, o, choices, all);
    TruncationTurn(rules, before, o, choices, all);
  }

  lemma TruncationTurn<T(!new), C(!new)>(rules: Sampling<T, C>, before: seq<T>, o: T, choices: seq<T>, all: seq<T>)
    requires OneMore(rules.less, rules.cls, rules.limit, before, o, choices, all)
    ensures (|before| > rules.limit || |choices| > rules.limit) <==> |all| > rules.limit
  {
    if |before| <= rules.limit {
      SelectAll(rules.less, rules.cls, rules.limit, before);
      ListingUnique(rules.less, choices, all);
    } else {
      SortedSizes(rules.less, before, all);
    }
  }

  lemma {:induction false} SortedSet<T(!new)>(less: Less<T>, l: seq<T>)
    requires StrictTotal(less) && Sorted(less, l)
    ensures |SetOf(l)| == |l|
  {
    if l != [] {
      var n := |l| - 1;
      SortedSet(less, l[..n]);
      assert l == l[..n] + [l[n]];
      assert SetOf(l) == SetOf(l[..n]) + {l[n]};
      LastLargest(less, l[..n], l[n]);
    }
  }

  lemma SortedSizes<T(!new)>(less: Less<T>, a: seq<T>, b: seq<T>)
    requires StrictTotal(less) && Sorted(less, a) && Sorted(less, b) && forall x :: x in a ==> x in b
    ensures |a| <= |b|
  {
    SortedSet(less, a);
    SortedSet(less, b);
    SubsetSize(SetOf(a), SetOf(b));
  }

  lemma FitsPrefix<T(!new), C(!new)>(rules: Sampling<T, C>, os: seq<T>)
    requires AlwaysFits(rules, os) && os != []
    ensures AlwaysFits(rules, os[..|os| - 1])
  {
    assert forall o :: o in os[..|os| - 1] ==> o in os;
  }

  /** After any scan the one-shot selection from all notable observations is kept. */
  lemma {:induction false} ScanSelects<T(!new), C(!new)>(rules: Sampling<T, C>, os: seq<T>)
    requires Lists(rules) && AlwaysFits(rules, os)
    ensures var all := rules.listing(rules.Notable(os));
            |Champions(rules.cls, all)| <= rules.limit &&
            rules.Scan(os) == Kept(Select(rules.cls, all, rules.limit), |all| > rules.limit)
  {
    var all := rules.listing(rules.Notable(os));
    NotableHolds(rules, os);
    assert IsListing(rules.less, rules.listing(rules.Notable(os)), rules.Notable(os));
    if os != [] {
      var front, o := os[..|os| - 1], os[|os| - 1];
      var before := rules.listing(rules.Notable(front));
      FitsPrefix(rules, os);
      ScanSelects(rules, front);
      assert IsListing(rules.less, rules.listing(rules.Notable(front)), rules.Notable(front));
      if !rules.ordinary(o) {
        assert rules.Notable(os) == rules.Notable(front) + [o];
        ScanTurn(rules, before, o, all, rules.Scan(front));
      } else {
        assert rules.Notable(os) == rules.Notable(front);
      }
    } else {
      HoldsSome(all);
    }
  }

  /** The samples are observations of the scan. */
  lemma ScanWithin<T(!new), C(!new)>(rules: Sampling<T, C>, os: seq<T>)
    requires Lists(rules) && AlwaysFits(rules, os)
    ensures forall o :: o in rules.Scan(os).samples ==> o in os
  {
    var all := rules.listing(rules.Notable(os));
    ScanSelects(rules, os);
    NotableHolds(rules, os);
    assert IsListing(rules.less, rules.listing(rules.Notable(os)), rules.Notable(os));
    SplitSorted(rules.less, rules.cls, all);
    forall o | o in rules.Scan(os).samples ensures o in all {
      if o in Others(rules.cls, all)[..Min(|Others(rules.cls, all)|, rules.limit - |Champions(rules.cls, all)|)] {
        assert o in Others(rules.cls, all);
      }
    }
  }

  lemma SameScan<T(!new), C(!new)>(rules: Sampling<T, C>, a: seq<T>, b: seq<T>)
    requires Lists(rules) && AlwaysFits(rules, a) && AlwaysFits(rules, b)
    requires forall o :: !rules.ordinary(o) ==> (o in a <==> o in b)
    ensures rules.Scan(a) == rules.Scan(b)
  {
    ScanSelects(rules, a);
    ScanSelects(rules, b);
    NotableHolds(rules, a);
    NotableHolds(rules, b);
    assert IsListing(rules.less, rules.listing(rules.Notable(a)), rules.Notable(a));
    assert IsListing(rules.less, rules.listing(rules.Notable(b)), rules.Notable(b));
    ListingUnique(rules.less, rules.listing(rules.Notable(a)), rules.listing(rules.Notable(b)));
  }
}
