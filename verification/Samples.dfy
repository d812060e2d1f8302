/** The counters and bounded samples of a reconciliation report (`record`, src/media/reconciliation.ts:79-111). */
module Samples {
  import opened Prelude
  import opened SortedLists
  import opened Selection
  import opened Streaming

  const SAMPLE_LIMIT: nat := 50

  datatype Classification = ActiveExists | ActiveMissing | PendingUpload | IncompleteUpload | UploadedUnverified
                          | Quarantined | DeletionInProgress | ReconciliationRequired | PurgedAbsent | PurgedObjectPresent
                          | MetadataObject | OrphanCandidate | OrphanObservation | InventoryChanged | LifecycleChanged
                          | Uncertain

  datatype Failure = AccessDenied | NotFound | RateLimited | ProviderFailure | Timeout | NetworkFailure | ProtocolFailure
                   | Cancelled | Configuration | DatabaseFailure | MetadataConfiguration

  datatype Presence = Exists | Missing | Unknown

  /** A redacted observation. `held` is false when the report has none: the sample order reads it so. */
  datatype Observation = Observation(ref: string, classification: Classification, storage: Presence, held: bool,
                                     failure: Option<Failure>)

  /** `sampleClass`. */
  datatype Class = Failed(classification: Classification, failure: Failure) | HeldMissing | Plain(classification: Classification)

  function ClassOf(o: Observation): Class {
    if o.failure.Some? then Failed(o.classification, o.failure.value)
    else if o.classification.ActiveMissing? && o.held then HeldMissing
    else Plain(o.classification)
  }

  /** `samplePriority`, 4 for the classes without one. */
  function Priority(o: Observation): nat {
    var c := ClassOf(o);
    if c.HeldMissing? then 0
    else if c == Plain(PurgedObjectPresent) then 1
    else if c == Plain(ReconciliationRequired) then 2
    else if c == Plain(ActiveMissing) then 3
    else 4
  }

  /** `compareSamples`; `locale` compares the order keys, which spell out every field. */
  function Before(locale: Less<Observation>): Less<Observation> {
    (a, b) => Priority(a) < Priority(b) || (Priority(a) == Priority(b) && locale(a, b))
  }

  /** Counted, never sampled. */
  predicate Ordinary(o: Observation) {
    o.classification.ActiveExists? || o.classification.MetadataObject? || o.classification.PurgedAbsent?
  }

  /** The observations the scan makes: a failure is recorded as uncertain and with nothing else. */
  predicate Declared(o: Observation) { o.failure.Some? ==> o.classification.Uncertain? }

  function Increment<K>(m: map<K, nat>, k: K): map<K, nat> { m[k := if k in m then m[k] + 1 else 1] }

  /** How the scan samples. */
  function Rules(locale: Less<Observation>): Sampling<Observation, Class> {
    Sampling(Before(locale), l => Listing(Before(locale), l), ClassOf, Ordinary, SAMPLE_LIMIT)
  }

  /** A report under construction. */
  class Recorder {
    var counts: map<Classification, nat>
    var failures: map<Failure, nat>
    var samples: seq<Observation>
    var samplesTruncated: bool
    var heldMissing: bool
    const rules: Sampling<Observation, Class>

    constructor (locale: Less<Observation>)
      ensures rules == Rules(locale)
      ensures counts == map[] && failures == map[] && samples == [] && !samplesTruncated && !heldMissing
    {
      rules := Rules(locale);
      counts, failures, samples, samplesTruncated, heldMissing := map[], map[], [], false, false;
    }

    /** False stands for the error thrown when the classes alone exceed the limit. */
    method Record(o: Observation) returns (ok: bool)
      requires Lists(rules)
      modifies this
      ensures counts == Increment(old(counts), o.classification)
      ensures failures == if o.failure.Some? then Increment(old(failures), o.failure.value) else old(failures)
      ensures heldMissing == (old(heldMissing) || (o.classification.ActiveMissing? && o.held))
      ensures ok == (rules.ordinary(o) || rules.Fits(old(samples), o))
      ensures Kept(samples, samplesTruncated) == rules.Next(Kept(old(samples), old(samplesTruncated)), o)
    {
      counts := Increment(counts, o.classification);
      if o.failure.Some? {
        failures := Increment(failures, o.failure.value);
      }
      if o.classification.ActiveMissing? && o.held {
        heldMissing := true;
      }
      if rules.ordinary(o) {
        return true;
      }
      var next := Reselect(rules, samples, o);
      if next.None? {
        return false;
      }
      samples := next.value.0;
      if next.value.1 {
        samplesTruncated := true;
      }
      ok := true;
    }
  }

  /** The new samples, and whether anything was left out; None stands for too many classes. */
  method Reselect<T(!new, ==), C(!new, ==)>(rules: Sampling<T, C>, samples: seq<T>, o: T) returns (r: Option<(seq<T>, bool)>)
    requires Lists(rules)
    ensures r.Some? <==> rules.Fits(samples, o)
    ensures r.Some? ==> r.value.0 == Select(rules.cls, rules.Choices(samples, o), rules.limit)
    ensures r.Some? ==> r.value.1 == (|rules.Choices(samples, o)| > rules.limit)
  {
    var choices := Sort(rules.less, samples + [o]);
    SortedChoices(rules, samples + [o], choices);
    var champions := PickChampions(rules.cls, choices);
    if |champions| > rules.limit {
      return None;
    }
    var retained, truncated := FillUp(rules.less, rules.cls, choices, champions, rules.limit);
    r := Some((retained, truncated));
  }

  lemma SortedChoices<T(!new), C(!new)>(rules: Sampling<T, C>, l: seq<T>, choices: seq<T>)
    requires Lists(rules) && choices == Sort(rules.less, l)
    ensures Ordered(rules.less, choices) && Dedup(choices) == rules.listing(l)
    ensures Champions(rules.cls, choices) == Champions(rules.cls, Dedup(choices))
  {
    SortOrders(rules.less, l);
    DedupSorts(rules.less, choices);
    assert IsListing(rules.less, rules.listing(l), l);
    ListingUnique(rules.less, Dedup(choices), rules.listing(l));
    ChampionsOfDedup(rules.cls, choices);
  }

  /** The first loop: the first choice of every class, in order. */
  method PickChampions<T, C(==)>(cls: T -> C, choices: seq<T>) returns (retained: seq<T>)
    ensures retained == Champions(cls, choices)
  {
    var classes: set<C>, i := {}, 0;
    retained := [];
    assert choices[..0] == [];
    while i < |choices|
      invariant 0 <= i <= |choices| && retained == Champions(cls, choices[..i]) && classes == Classes(cls, choices[..i])
    {
      assert choices[..i + 1][..i] == choices[..i];
      InClasses(cls, choices[..i], cls(choices[i]));
      if cls(choices[i]) !in classes {
        retained, classes := retained + [choices[i]], classes + {cls(choices[i])};
      }
      i := i + 1;
    }
    assert choices[..i] == choices;
  }

  /** The second loop: the remaining places go to the smallest others. */
  method FillUp<T(!new, ==), C(!new)>(ghost less: Less<T>, ghost cls: T -> C, choices: seq<T>, champions: seq<T>, limit: nat)
      returns (retained: seq<T>, truncated: bool)
    requires StrictTotal(less) && Ordered(less, choices) && champions == Champions(cls, Dedup(choices))
    requires |champions| <= limit
    ensures retained == Select(cls, Dedup(choices), limit)
    ensures truncated == (|Dedup(choices)| > limit)
  {
    var identities, i := SetOf(champions), 0;
    retained, truncated := champions, false;
    FillStart(cls, choices, champions, limit);
    while i < |choices|
      invariant 0 <= i <= |choices| && identities == SetOf(retained)
      invariant Filled(cls, choices, i, champions, limit, retained, truncated)
    {
      var sample := choices[i];
      FillStep(less, cls, choices, i, champions, limit, retained, truncated);
      if sample !in identities {
        if |retained| == limit {
          truncated := true;
        } else {
          retained, identities := retained + [sample], identities + {sample};
        }
      }
      i := i + 1;
    }
    FillEnd(less, cls, choices, champions, limit, retained, truncated);
  }

  lemma FillEnd<T(!new), C>(less: Less<T>, cls: T -> C, choices: seq<T>, champions: seq<T>, limit: nat, retained: seq<T>, truncated: bool)
    requires StrictTotal(less) && Ordered(less, choices) && champions == Champions(cls, Dedup(choices))
    requires |champions| <= limit && Filled(cls, choices, |choices|, champions, limit, retained, truncated)
    ensures retained == Select(cls, Dedup(choices), limit) && truncated == (|Dedup(choices)| > limit)
  {
    assert choices[..|choices|] == choices;
    DedupSorts(less, choices);
    SplitSorted(less, cls, Dedup(choices));
  }

  /** What the second loop has retained and left out after i choices. */
  ghost predicate Filled<T, C>(cls: T -> C, choices: seq<T>, i: nat, champions: seq<T>, limit: nat, retained: seq<T>, truncated: bool)
    requires i <= |choices| && |champions| <= limit
  {
    var others := Others(cls, Dedup(choices[..i]));
    retained == champions + Prefix(others, limit - |champions|) && truncated == (|others| > limit - |champions|)
  }

  lemma FillStart<T, C>(cls: T -> C, choices: seq<T>, champions: seq<T>, limit: nat)
    requires |champions| <= limit
    ensures Filled(cls, choices, 0, champions, limit, champions, false)
  {
    assert choices[..0] == [] && Others(cls, Dedup(choices[..0])) == [];
  }

  lemma FillStep<T(!new), C>(less: Less<T>, cls: T -> C, choices: seq<T>, i: nat, champions: seq<T>, limit: nat,
                             retained: seq<T>, truncated: bool)
    requires StrictTotal(less) && Ordered(less, choices) && champions == Champions(cls, Dedup(choices))
    requires i < |choices| && |champions| <= limit && Filled(cls, choices, i, champions, limit, retained, truncated)
    ensures choices[i] in retained ==> Filled(cls, choices, i + 1, champions, limit, retained, truncated)
    ensures choices[i] !in retained && |retained| == limit ==> Filled(cls, choices, i + 1, champions, limit, retained, true)
    ensures choices[i] !in retained && |retained| != limit ==>
            Filled(cls, choices, i + 1, champions, limit, retained + [choices[i]], truncated)
  {
    var others := Others(cls, Dedup(choices[..i]));
    FillTurn(less, cls, choices, i, champions);
    OthersApart(less, cls, choices, i, champions);
    InRetained(champions, others, limit - |champions|, choices[i]);
  }

  function Prefix<T>(l: seq<T>, k: nat): seq<T> { l[..Min(|l|, k)] }

  /** Who is retained so far, and what one more other does to that. */
  lemma InRetained<T>(champions: seq<T>, others: seq<T>, room: nat, x: T)
    ensures x in champions + Prefix(others, room) ==> x in champions || x in others
    ensures x in champions ==> x in champions + Prefix(others, room)
    ensures x in others && |others| <= room ==> x in champions + Prefix(others, room)
    ensures |others| < room ==> champions + Prefix(others + [x], room) == champions + Prefix(others, room) + [x]
    ensures |others| >= room ==> Prefix(others + [x], room) == Prefix(others, room)
  {
    assert others[..|others|] == others && (others + [x])[..|others| + 1] == others + [x];
    if x in Prefix(others, room) {
      assert x in others;
    }
  }

  lemma {:induction false} ChampionsOfDedup<T, C>(cls: T -> C, l: seq<T>)
    ensures Champions(cls, Dedup(l)) == Champions(cls, l)
  {
    if l != [] {
      var n := |l| - 1;
      var front := Dedup(l[..n]);
      ChampionsOfDedup(cls, l[..n]);
      DedupHolds(l[..n]);
      SameSeen(cls, front, l[..n], cls(l[n]));
      if l[n] in front {
        var k :| 0 <= k < n && l[..n][k] == l[n];
      } else {
        assert (front + [l[n]])[..|front|] == front;
      }
    }
  }

  lemma SameSeen<T, C>(cls: T -> C, a: seq<T>, b: seq<T>, c: C)
    requires forall x :: x in a <==> x in b
    ensures Seen(cls, a, c) <==> Seen(cls, b, c)
  {
    if Seen(cls, a, c) {
      var i :| 0 <= i < |a| && cls(a[i]) == c;
      assert a[i] in b;
      var j :| 0 <= j < |b| && b[j] == a[i];
    }
    if Seen(cls, b, c) {
      var i :| 0 <= i < |b| && cls(b[i]) == c;
      assert b[i] in a;
      var j :| 0 <= j < |a| && a[j] == b[i];
    }
  }

  lemma {:induction false} DedupHolds<T>(l: seq<T>)
    ensures forall x :: x in Dedup(l) <==> x in l
  {
    if l != [] {
      DedupHolds(l[..|l| - 1]);
      assert l == l[..|l| - 1] + [l[|l| - 1]];
    }
  }

  /** What comes later in sorted order changes no first. */
  lemma FirstByPrefix<T(!new), C>(less: Less<T>, cls: T -> C, choices: seq<T>, m: nat, x: T)
    requires StrictTotal(less) && Ordered(less, choices) && m <= |choices| && x in choices[..m]
    ensures IsFirst(less, cls, choices, x) <==> IsFirst(less, cls, choices[..m], x)
  {
    var j :| 0 <= j < m && choices[..m][j] == x;
    if IsFirst(less, cls, choices[..m], x) {
      forall y | y in choices && cls(y) == cls(x) ensures y == x || less(x, y) {
        var k :| 0 <= k < |choices| && choices[k] == y;
        if k < m {
          assert choices[..m][k] == y;
        } else {
          assert !less(choices[k], choices[j]);
        }
      }
    }
    if IsFirst(less, cls, choices, x) {
      forall y | y in choices[..m] && cls(y) == cls(x) ensures y == x || less(x, y) {
        assert y in choices;
      }
    }
  }

  lemma FirstBySet<T(!new), C>(less: Less<T>, cls: T -> C, a: seq<T>, b: seq<T>, x: T)
    requires forall y :: y in a <==> y in b
    ensures IsFirst(less, cls, a, x) <==> IsFirst(less, cls, b, x)
  {
  }

  /** What the list without repeats says of an element of the first m choices. */
  lemma FirstOfChoices<T(!new), C>(less: Less<T>, cls: T -> C, choices: seq<T>, m: nat, x: T)
    requires StrictTotal(less) && Ordered(less, choices) && m <= |choices| && x in choices[..m]
    ensures x in Champions(cls, Dedup(choices)) <==> IsFirst(less, cls, choices[..m], x)
    ensures x in Others(cls, Dedup(choices[..m])) <==> !IsFirst(less, cls, choices[..m], x)
  {
    assert Ordered(less, choices[..m]);
    DedupSorts(less, choices);
    DedupSorts(less, choices[..m]);
    SplitSorted(less, cls, Dedup(choices));
    SplitSorted(less, cls, Dedup(choices[..m]));
    FirstByPrefix(less, cls, choices, m, x);
    FirstBySet(less, cls, Dedup(choices), choices, x);
    FirstBySet(less, cls, Dedup(choices[..m]), choices[..m], x);
  }

  lemma OthersApart<T(!new), C>(less: Less<T>, cls: T -> C, choices: seq<T>, i: nat, champions: seq<T>)
    requires StrictTotal(less) && Ordered(less, choices) && i <= |choices| && champions == Champions(cls, Dedup(choices))
    ensures forall x :: x in Others(cls, Dedup(choices[..i])) ==> x !in champions
  {
    DedupHolds(choices[..i]);
    forall x | x in Others(cls, Dedup(choices[..i])) ensures x !in champions {
      OthersWithin(cls, Dedup(choices[..i]), x);
      FirstOfChoices(less, cls, choices, i, x);
    }
  }

  /** One turn of the second loop: a champion or a repeat changes nothing, anything else is one more other. */
  lemma FillTurn<T(!new), C>(less: Less<T>, cls: T -> C, choices: seq<T>, i: nat, champions: seq<T>)
    requires StrictTotal(less) && Ordered(less, choices) && i < |choices| && champions == Champions(cls, Dedup(choices))
    ensures var s, o := choices[i], Others(cls, Dedup(choices[..i]));
            Others(cls, Dedup(choices[..i + 1])) == if s in champions || s in o then o else o + [s]
  {
    DedupOfNext(choices, i);
    if choices[i] in choices[..i] {
      FirstOfChoices(less, cls, choices, i, choices[i]);
    } else {
      NewTurn(less, cls, choices, i, champions);
    }
  }

  lemma DedupOfNext<T>(choices: seq<T>, i: nat)
    requires i < |choices|
    ensures Dedup(choices[..i + 1]) == if choices[i] in choices[..i] then Dedup(choices[..i]) else Dedup(choices[..i]) + [choices[i]]
    ensures choices[i] in choices[..i + 1]
  {
    assert choices[..i + 1][..i] == choices[..i] && choices[..i + 1][i] == choices[i];
    DedupHolds(choices[..i]);
  }

  lemma NewTurn<T(!new), C>(less: Less<T>, cls: T -> C, choices: seq<T>, i: nat, champions: seq<T>)
    requires StrictTotal(less) && Ordered(less, choices) && i < |choices| && champions == Champions(cls, Dedup(choices))
    requires choices[i] !in choices[..i]
    ensures var s, o := choices[i], Others(cls, Dedup(choices[..i]));
            s !in o && Others(cls, Dedup(choices[..i + 1])) == if s in champions then o else o + [s]
  {
    var s, d := choices[i], Dedup(choices[..i]);
    DedupOfNext(choices, i);
    DedupHolds(choices[..i]);
    OtherAppended(cls, d, s);
    NewIsOther(cls, d, s);
    FirstOfChoices(less, cls, choices, i + 1, s);
  }

  lemma NewIsOther<T, C>(cls: T -> C, d: seq<T>, s: T)
    requires s !in d
    ensures s !in Others(cls, d)
    ensures s in Others(cls, d + [s]) <==> Seen(cls, d, cls(s))
  {
    OtherAppended(cls, d, s);
    OthersWithin(cls, d, s);
  }

  lemma OtherAppended<T, C>(cls: T -> C, d: seq<T>, s: T)
    ensures Others(cls, d + [s]) == Others(cls, d) + if Seen(cls, d, cls(s)) then [s] else []
  {
    assert (d + [s])[..|d|] == d;
  }

  lemma {:induction false} OthersWithin<T, C>(cls: T -> C, l: seq<T>, x: T)
    ensures x in Others(cls, l) ==> x in l
  {
    if l != [] {
      OthersWithin(cls, l[..|l| - 1], x);
    }
  }

  // ---------------------------------------------------------------- whole scans

  lemma BeforeTotal(locale: Less<Observation>)
    requires StrictTotal(locale)
    ensures StrictTotal(Before(locale))
  {
  }

  /** The rules list observations in a total order whenever the locale order is one. */
  lemma RulesList(locale: Less<Observation>)
    requires StrictTotal(locale)
    ensures Lists(Rules(locale))
  {
    var rules := Rules(locale);
    BeforeTotal(locale);
    forall l: seq<Observation> ensures IsListing(rules.less, rules.listing(l), l) {
      ListingSorted(Before(locale), l);
    }
  }

  // ---------------------------------------------------------------- the capacity error

  function ClassificationIndex(c: Classification): (i: nat)
    ensures i < 16
  {
    match c
    case ActiveExists => 0 case ActiveMissing => 1 case PendingUpload => 2 case IncompleteUpload => 3
    case UploadedUnverified => 4 case Quarantined => 5 case DeletionInProgress => 6 case ReconciliationRequired => 7
    case PurgedAbsent => 8 case PurgedObjectPresent => 9 case MetadataObject => 10 case OrphanCandidate => 11
    case OrphanObservation => 12 case InventoryChanged => 13 case LifecycleChanged => 14 case Uncertain => 15
  }

  function FailureIndex(f: Failure): (i: nat)
    ensures i < 11
  {
    match f
    case AccessDenied => 0 case NotFound => 1 case RateLimited => 2 case ProviderFailure => 3 case Timeout => 4
    case NetworkFailure => 5 case ProtocolFailure => 6 case Cancelled => 7 case Configuration => 8
    case DatabaseFailure => 9 case MetadataConfiguration => 10
  }

  predicate DeclaredClass(c: Class) { c.Failed? ==> c.classification.Uncertain? }

  /** The declared classes are numbered below 28. */
  function ClassIndex(c: Class): (i: nat)
    requires DeclaredClass(c)
    ensures i < 28
  {
    match c
    case Plain(classification) => ClassificationIndex(classification)
    case Failed(_, failure) => 16 + FailureIndex(failure)
    case HeldMissing => 27
  }

  lemma ClassIndexInjective(a: Class, b: Class)
    requires DeclaredClass(a) && DeclaredClass(b) && ClassIndex(a) == ClassIndex(b)
    ensures a == b
  {
  }

  lemma {:induction false} FewClasses(classes: set<Class>, n: nat)
    requires forall c :: c in classes ==> DeclaredClass(c) && ClassIndex(c) < n
    ensures |classes| <= n
    decreases n
  {
    if n > 0 {
      if c :| c in classes && ClassIndex(c) == n - 1 {
        forall d | d in classes - {c} ensures ClassIndex(d) < n - 1 {
          if ClassIndex(d) == n - 1 {
            ClassIndexInjective(c, d);
          }
        }
        FewClasses(classes - {c}, n - 1);
      } else {
        FewClasses(classes, n - 1);
      }
    } else {
      assert forall c :: c !in classes;
      assert classes == {};
    }
  }

  /** Whatever is observed, there are at most 28 classes: the error is never thrown. */
  lemma FewChampions(l: seq<Observation>)
    requires forall o :: o in l ==> Declared(o)
    ensures |Champions(ClassOf, l)| <= 28 <= SAMPLE_LIMIT
  {
    ChampionClasses(ClassOf, l);
    forall c | c in Classes(ClassOf, l) ensures DeclaredClass(c) && ClassIndex(c) < 28 {
      InClasses(ClassOf, l, c);
      var i :| 0 <= i < |l| && ClassOf(l[i]) == c;
      assert Declared(l[i]);
    }
    FewClasses(Classes(ClassOf, l), 28);
  }

  lemma DeclaredFit(locale: Less<Observation>, os: seq<Observation>)
    requires forall o :: o in os ==> Declared(o)
    ensures AlwaysFits(Rules(locale), os)
  {
    forall l: seq<Observation> | forall o :: o in l ==> o in os ensures |Champions(ClassOf, l)| <= SAMPLE_LIMIT {
      FewChampions(l);
    }
  }

  /** After any scan the report keeps the one-shot selection from all notable observations, and says truncated exactly
      when there were more than fifty different ones. */
  lemma ScanIsOneShot(locale: Less<Observation>, os: seq<Observation>)
    requires StrictTotal(locale) && forall o :: o in os ==> Declared(o)
    ensures var rules := Rules(locale); var all := rules.listing(rules.Notable(os));
            |Champions(ClassOf, all)| <= SAMPLE_LIMIT &&
            rules.Scan(os) == Kept(Select(ClassOf, all, SAMPLE_LIMIT), |all| > SAMPLE_LIMIT)
  {
    RulesList(locale);
    DeclaredFit(locale, os);
    ScanSelects(Rules(locale), os);
  }

  /** The samples do not depend on the order, or on repeats, of what was observed. */
  lemma OrderIndependent(locale: Less<Observation>, a: seq<Observation>, b: seq<Observation>)
    requires StrictTotal(locale) && (forall o :: o in a ==> Declared(o)) && (forall o :: o in b ==> Declared(o))
    requires forall o :: !Ordinary(o) ==> (o in a <==> o in b)
    ensures Rules(locale).Scan(a) == Rules(locale).Scan(b)
  {
    RulesList(locale);
    DeclaredFit(locale, a);
    DeclaredFit(locale, b);
    SameScan(Rules(locale), a, b);
  }

  /** The capacity error is never thrown, whatever was observed before. */
  lemma AlwaysActionable(locale: Less<Observation>, os: seq<Observation>, o: Observation)
    requires StrictTotal(locale) && (forall p :: p in os ==> Declared(p)) && Declared(o)
    ensures Rules(locale).Fits(Rules(locale).Scan(os).samples, o)
  {
    RulesList(locale);
    DeclaredFit(locale, os);
    ScanWithin(Rules(locale), os);
    var choices := Rules(locale).Choices(Rules(locale).Scan(os).samples, o);
    assert IsListing(Rules(locale).less, choices, Rules(locale).Scan(os).samples + [o]);
    FewChampions(choices);
  }

  // ---------------------------------------------------------------- what the samples show

  /** How severe an observation is: a held file that is missing; an object that should be gone; reconciliation to be done;
      any other missing file; the rest. */
  function Severity(o: Observation): nat {
    if o.failure.Some? then 4
    else match o.classification
      case ActiveMissing => if o.held then 0 else 3
      case PurgedObjectPresent => 1
      case ReconciliationRequired => 2
      case _ => 4
  }

  /** Of one class: the same classification and failure, and a missing file that is held like no other. */
  predicate Alike(a: Observation, b: Observation) {
    && a.classification == b.classification && a.failure == b.failure
    && (a.classification.ActiveMissing? && a.failure.None? ==> a.held == b.held)
  }

  lemma ClassExact(a: Observation, b: Observation)
    ensures ClassOf(a) == ClassOf(b) <==> Alike(a, b)
  {
  }

  lemma SeverityIs(o: Observation)
    ensures Priority(o) == Severity(o)
  {
    match o.classification
    case ActiveMissing =>
    case PurgedObjectPresent =>
    case ReconciliationRequired =>
    case _ =>
  }

  /** Samples are ordered by severity, and those of one severity by their keys. */
  lemma SeverityExact(locale: Less<Observation>, a: Observation, b: Observation)
    ensures Before(locale)(a, b) <==> Severity(a) < Severity(b) || (Severity(a) == Severity(b) && locale(a, b))
  {
    SeverityIs(a);
    SeverityIs(b);
  }

  predicate Notable(o: Observation) { o.classification !in {ActiveExists, MetadataObject, PurgedAbsent} }

  /** Whatever notable was observed, the samples hold one of its class, the first one, and the first sample is at least as
      severe. */
  lemma SamplesShow(locale: Less<Observation>, os: seq<Observation>, y: Observation) returns (x: Observation)
    requires StrictTotal(locale) && (forall o :: o in os ==> Declared(o)) && y in os && Notable(y)
    ensures x in Rules(locale).Scan(os).samples && Alike(x, y)
    ensures x == y || Severity(x) < Severity(y) || (Severity(x) == Severity(y) && locale(x, y))
    ensures Rules(locale).Scan(os).samples != [] && Severity(Rules(locale).Scan(os).samples[0]) <= Severity(y)
  {
    var rules, less := Rules(locale), Before(locale);
    var all := rules.listing(rules.Notable(os));
    ScanIsOneShot(locale, os);
    RulesList(locale);
    NotableHolds(rules, os);
    assert IsListing(rules.less, all, rules.Notable(os));
    BeforeTotal(locale);
    x := ChampionOf(less, ClassOf, all, y);
    SplitSorted(less, ClassOf, all);
    ClassExact(x, y);
    SeverityExact(locale, x, y);
    var first := Champions(ClassOf, all)[0];
    SeverityExact(locale, first, x);
    var i :| 0 <= i < |Champions(ClassOf, all)| && Champions(ClassOf, all)[i] == x;
  }

  /** Every sample was observed, and none of them is ordinary. */
  lemma SamplesSeen(locale: Less<Observation>, os: seq<Observation>, x: Observation)
    requires StrictTotal(locale) && (forall o :: o in os ==> Declared(o)) && x in Rules(locale).Scan(os).samples
    ensures x in os && Notable(x)
  {
    var rules := Rules(locale);
    var all := rules.listing(rules.Notable(os));
    ScanIsOneShot(locale, os);
    RulesList(locale);
    NotableHolds(rules, os);
    assert IsListing(rules.less, all, rules.Notable(os));
    BeforeTotal(locale);
    SplitSorted(Before(locale), ClassOf, all);
    var others := Others(ClassOf, all);
    if x !in Champions(ClassOf, all) {
      var few := others[..Min(|others|, SAMPLE_LIMIT - |Champions(ClassOf, all)|)];
      assert x in few;
      assert x in others;
    }
    assert x in all;
  }
}
