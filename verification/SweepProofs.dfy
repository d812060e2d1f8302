/** What every run of the sweep keeps, and what its report says. */
module SweepProofs {
  import opened Prelude
  import opened Samples
  import opened Sweep

  // ---------------------------------------------------------------- the ledger

  /** Handed to the run: rows fetched, keys listed. */
  predicate Known(fetched: set<Source>, seen: set<Key>, x: Source) {
    (x.RowOf? && x in fetched) || (x.KeyOf? && x.key in seen)
  }

  predicate ToDo(w: Work, id: Id, i: nat) { i < |w.rows| && w.rows[i].id == id && (i >= w.taken || i in w.open) }

  /** Known and not recorded yet. */
  ghost predicate Pending(phase: Phase, tenant: nat, w: Work, provisional: seq<Key>, x: Source) {
    match x
    case RowOf(t, id) => phase.Batch? && t == tenant && exists i :: ToDo(w, id, i)
    case KeyOf(k) => !phase.Report? && (k in provisional || (phase.Matching? && k in phase.keys))
    case Failing => false
  }

  ghost function PendingOf(phase: Phase, tenant: nat, w: Work, provisional: seq<Key>): iset<Source> {
    iset x | Pending(phase, tenant, w, provisional, x)
  }

  ghost function PendingSet(s: State): iset<Source> { PendingOf(s.phase, s.pages.tenant, s.work, s.keys.provisional) }

  ghost function KnownSet(s: State): iset<Source> { iset x | Known(s.pages.fetched, s.keys.seen, x) }

  ghost predicate Logged(log: seq<Entry>, x: Source) { exists n :: 0 <= n < |log| && log[n].source == x }

  predicate NoRepeats(log: seq<Entry>) {
    forall m, n :: 0 <= m < n < |log| && log[m].source == log[n].source ==> log[m].source == Failing
  }

  /** Nothing is recorded twice, or recorded and pending; without failure or abort nothing is forgotten. */
  ghost predicate Balanced(log: seq<Entry>, pending: iset<Source>, known: iset<Source>, f: Flags) {
    && NoRepeats(log)
    && (forall x :: x in pending ==> x in known && !Logged(log, x))
    && (forall x :: Logged(log, x) && x != Failing ==> x in known)
    && (Clean(f) ==> !Logged(log, Failing))
    && (Clean(f) && !f.aborted ==> forall x :: x in known ==> x in pending || Logged(log, x))
  }

  ghost predicate Ledger(s: State) { Balanced(s.book.log, PendingSet(s), KnownSet(s), s.flags) }

  lemma LoggedNext(log: seq<Entry>, e: Entry, x: Source)
    ensures Logged(log + [e], x) <==> Logged(log, x) || e.source == x
  {
    var more := log + [e];
    if Logged(log, x) {
      var n :| 0 <= n < |log| && log[n].source == x;
      assert more[n].source == x;
    }
    if e.source == x {
      assert more[|log|].source == x;
    }
  }

  lemma NoRepeatsNext(log: seq<Entry>, e: Entry)
    requires NoRepeats(log) && (e.source == Failing || !Logged(log, e.source))
    ensures NoRepeats(log + [e])
  {
  }

  /** Flags are never taken back. */
  predicate FlagsKept(f: Flags, g: Flags) { (Clean(g) ==> Clean(f)) && (!g.aborted ==> !f.aborted) }

  /** A pending source is recorded. */
  lemma BalancedRecord(log: seq<Entry>, e: Entry, pending: iset<Source>, known: iset<Source>, f: Flags, g: Flags)
    requires Balanced(log, pending, known, f) && e.source in pending && e.source != Failing && FlagsKept(f, g)
    ensures Balanced(log + [e], pending - iset{e.source}, known, g)
  {
    NoRepeatsNext(log, e);
    forall x ensures Logged(log + [e], x) <==> Logged(log, x) || e.source == x { LoggedNext(log, e, x); }
  }

  /** A call failed: whatever was pending may be dropped. */
  lemma BalancedFailure(log: seq<Entry>, e: Entry, pending: iset<Source>, left: iset<Source>, known: iset<Source>, f: Flags, g: Flags)
    requires Balanced(log, pending, known, f) && left <= pending && !Clean(g) && Failing !in pending && e.source == Failing
    ensures Balanced(log + [e], left, known, g)
  {
    NoRepeatsNext(log, e);
    forall x ensures Logged(log + [e], x) <==> Logged(log, x) || e.source == x { LoggedNext(log, e, x); }
  }

  /** Nothing is recorded; pending sources are dropped only under a failure or an abort. */
  lemma BalancedSame(log: seq<Entry>, pending: iset<Source>, left: iset<Source>, known: iset<Source>, f: Flags, g: Flags)
    requires Balanced(log, pending, known, f) && left <= pending && FlagsKept(f, g)
    requires Clean(g) && !g.aborted ==> left == pending
    ensures Balanced(log, left, known, g)
  {
  }

  /** More is known, and all of it pending. */
  lemma BalancedMore(log: seq<Entry>, pending: iset<Source>, known: iset<Source>, more: iset<Source>, f: Flags)
    requires Balanced(log, pending, known, f) && more !! known && Failing !in more
    ensures Balanced(log, pending + more, known + more, f)
  {
  }

  // ---------------------------------------------------------------- shape of the state

  predicate ShapeOf(phase: Phase, w: Work, provisional: seq<Key>) {
    && (forall i :: i in w.open ==> i < w.taken)
    && (phase.Batch? ==> w.taken <= |w.rows|) && (phase.Recheck? ==> w.taken <= |provisional|)
    && (w.open != map[] ==> phase.Batch? || phase.Recheck?)
    && Distinct(provisional)
    && (phase.Matching? ==> Distinct(phase.keys) && forall k :: k in phase.keys ==> k !in provisional)
  }

  predicate Shape(s: State) { ShapeOf(s.phase, s.work, s.keys.provisional) }

  /** Rows of the tenant at hand: fetched ones end where the next page begins. */
  ghost predicate OrderOf(phase: Phase, p: Pages, rows: seq<Row>) {
    && (phase.Batch? ==> Increasing(rows, p.after))
    && (forall x :: x in p.fetched ==> x.RowOf? && x.tenant <= p.tenant)
    && (phase.Database? ==> forall x :: x in p.fetched && x.tenant == p.tenant ==> p.after.Some? && x.id <= p.after.value)
    && (phase.Batch? ==> forall x :: x in p.fetched && x.tenant == p.tenant ==>
          (p.after.Some? && x.id <= p.after.value) || exists i :: 0 <= i < |rows| && rows[i].id == x.id)
  }

  ghost predicate RowOrder(s: State) { OrderOf(s.phase, s.pages, s.work.rows) }

  /** Each candidate is a provisional key of a finished item, once; a complete recheck leaves none out. */
  predicate CandidatesOf(phase: Phase, w: Work, provisional: seq<Key>, cs: seq<Candidate>, all: bool) {
    && (cs != [] ==> phase.Recheck? || phase.Report?)
    && (forall c :: 0 <= c < |cs| ==> cs[c].key in provisional)
    && (forall c, d :: 0 <= c < d < |cs| ==> cs[c].key != cs[d].key)
    && (phase.Recheck? ==> forall i :: 0 <= i < |provisional| && (i >= w.taken || i in w.open) ==> !Processed(cs, provisional[i]))
    && (phase.Recheck? && all ==> forall i :: 0 <= i < |provisional| && i < w.taken && i !in w.open ==> Processed(cs, provisional[i]))
  }

  predicate CandidateKeys(s: State) {
    CandidatesOf(s.phase, s.work, s.keys.provisional, s.candidates, MayRecheck(s) && Clean(s.flags))
  }

  predicate Sizes(s: State) { |s.pages.fetched| == s.pages.databaseRows && |s.keys.seen| == s.keys.objects }

  ghost predicate Inv(s: State) { Ledger(s) && Shape(s) && RowOrder(s) && CandidateKeys(s) && Sizes(s) }

  lemma {:induction false} IncreasingOrder(rows: seq<Row>, after: Option<Id>, i: nat, j: nat)
    requires Increasing(rows, after) && i <= j < |rows|
    ensures rows[i].id <= rows[j].id && (i < j ==> rows[i].id < rows[j].id)
    ensures after.Some? ==> rows[i].id > after.value
    decreases j
  {
    if i < j {
      IncreasingOrder(rows, after, i, j - 1);
      assert rows[j - 1].id < rows[j - 1 + 1].id;
    } else if i > 0 {
      IncreasingOrder(rows, after, i - 1, i - 1);
      assert rows[i - 1].id < rows[i - 1 + 1].id;
    }
  }

  // ---------------------------------------------------------------- pages

  lemma RowSourcesNext(tenant: nat, rows: seq<Row>, n: nat)
    requires n < |rows|
    ensures RowSources(tenant, rows[..n + 1]) == RowSources(tenant, rows[..n]) + {RowOf(tenant, rows[n].id)}
  {
    var front, more := rows[..n], rows[..n + 1];
    forall x | x in RowSources(tenant, front) ensures x in RowSources(tenant, more) {
      var i :| 0 <= i < n && RowOf(tenant, front[i].id) == x;
      assert RowOf(tenant, more[i].id) == x;
    }
    assert RowOf(tenant, more[n].id) in RowSources(tenant, more);
    forall x | x in RowSources(tenant, more) ensures x in RowSources(tenant, front) + {RowOf(tenant, rows[n].id)} {
      var i :| 0 <= i < |more| && RowOf(tenant, more[i].id) == x;
      if i < n {
        assert RowOf(tenant, front[i].id) == x;
      }
    }
  }

  lemma RowIsNew(tenant: nat, rows: seq<Row>, n: nat, after: Option<Id>)
    requires Increasing(rows, after) && n < |rows|
    ensures RowOf(tenant, rows[n].id) !in RowSources(tenant, rows[..n])
  {
    var front := rows[..n];
    if RowOf(tenant, rows[n].id) in RowSources(tenant, front) {
      var i :| 0 <= i < n && RowOf(tenant, front[i].id) == RowOf(tenant, rows[n].id);
      assert front[i] == rows[i];
      IncreasingOrder(rows, after, i, n);
    }
  }

  lemma {:induction false} RowSourcesCount(tenant: nat, rows: seq<Row>, n: nat, after: Option<Id>)
    requires Increasing(rows, after) && n <= |rows|
    ensures |RowSources(tenant, rows[..n])| == n
  {
    if n > 0 {
      RowSourcesCount(tenant, rows, n - 1, after);
      RowSourcesNext(tenant, rows, n - 1);
      RowIsNew(tenant, rows, n - 1, after);
    }
  }

  lemma NewRows(p: Pages, rows: seq<Row>)
    requires OrderOf(Database, p, []) && Increasing(rows, p.after)
    ensures p.fetched !! RowSources(p.tenant, rows) && |RowSources(p.tenant, rows)| == |rows|
  {
    forall x | x in RowSources(p.tenant, rows) ensures x !in p.fetched {
      var i :| 0 <= i < |rows| && RowOf(p.tenant, rows[i].id) == x;
      IncreasingOrder(rows, p.after, i, i);
    }
    assert rows[..|rows|] == rows;
    RowSourcesCount(p.tenant, rows, |rows|, p.after);
  }

  lemma PageOrder(p: Pages, rows: seq<Row>)
    requires OrderOf(Database, p, []) && Increasing(rows, p.after)
    ensures OrderOf(Batch, Fetch(p, rows), rows)
  {
    var q := Fetch(p, rows);
    forall x | x in q.fetched ensures x.RowOf? && x.tenant <= q.tenant {
    }
    forall x | x in q.fetched && x.tenant == q.tenant
      ensures (q.after.Some? && x.id <= q.after.value) || exists i :: 0 <= i < |rows| && rows[i].id == x.id
    {
      if x in RowSources(p.tenant, rows) {
        var i :| 0 <= i < |rows| && RowOf(p.tenant, rows[i].id) == x;
      }
    }
  }

  lemma NewRowsPending(tenant: nat, rows: seq<Row>, provisional: seq<Key>, w: Work, x: Source)
    ensures Pending(Batch, tenant, Work(rows, 0, map[]), provisional, x) <==>
            Pending(Database, tenant, w, provisional, x) || x in RowSources(tenant, rows)
  {
    var opening := Work(rows, 0, map[]);
    if x in RowSources(tenant, rows) {
      var i :| 0 <= i < |rows| && RowOf(tenant, rows[i].id) == x;
      assert ToDo(opening, x.id, i);
    }
    if x.RowOf? && Pending(Batch, tenant, opening, provisional, x) {
      var i: nat :| ToDo(opening, x.id, i);
      assert RowOf(tenant, rows[i].id) == x;
    }
  }

  lemma PageLedger(l: Limits, s: State, rows: seq<Row>)
    requires Ledger(s) && s.phase.Database? && |rows| <= l.pageSize && Increasing(rows, s.pages.after)
    requires s.pages.fetched !! RowSources(s.pages.tenant, rows)
    ensures Ledger(TakePage(l, s, Some(rows)))
  {
    var t := TakePage(l, s, Some(rows));
    var more := iset x | x in RowSources(s.pages.tenant, rows);
    forall x ensures x in PendingSet(t) <==> x in PendingSet(s) || x in more {
      NewRowsPending(s.pages.tenant, rows, s.keys.provisional, s.work, x);
    }
    assert PendingSet(t) == PendingSet(s) + more;
    assert KnownSet(t) == KnownSet(s) + more;
    BalancedMore(s.book.log, PendingSet(s), KnownSet(s), more, s.flags);
  }

  lemma PageKeeps(l: Limits, s: State, answer: Option<seq<Row>>)
    requires Inv(s) && s.phase.Database?
    ensures Inv(TakePage(l, s, answer))
  {
    var t := TakePage(l, s, answer);
    if t.phase.Batch? {
      NewRows(s.pages, answer.value);
      PageLedger(l, s, answer.value);
      PageOrder(s.pages, answer.value);
    } else {
      assert PendingSet(t) == PendingSet(s) && KnownSet(t) == KnownSet(s);
      BalancedFailure(s.book.log, t.book.log[|s.book.log|], PendingSet(s), PendingSet(t), KnownSet(s), s.flags, t.flags);
    }
  }

  // ---------------------------------------------------------------- batches

  lemma RowsDistinct(rows: seq<Row>, after: Option<Id>, i: nat, j: nat)
    requires Increasing(rows, after) && i < |rows| && j < |rows| && rows[i].id == rows[j].id
    ensures i == j
  {
    if i < j {
      IncreasingOrder(rows, after, i, j);
    } else if j < i {
      IncreasingOrder(rows, after, j, i);
    }
  }

  /** Item i leaves the items still to do; -1 stands for none. */
  predicate Leaves(w: Work, v: Work, i: int) {
    v.rows == w.rows && forall j :: 0 <= j < |w.rows| ==> ((j >= v.taken || j in v.open) <==> (j >= w.taken || j in w.open) && j != i)
  }

  lemma PendingAfter(tenant: nat, w: Work, v: Work, provisional: seq<Key>, after: Option<Id>, i: int, x: Source)
    requires Leaves(w, v, i) && Increasing(w.rows, after) && -1 <= i < |w.rows|
    ensures Pending(Batch, tenant, v, provisional, x) <==>
            Pending(Batch, tenant, w, provisional, x) && (i == -1 || x != RowOf(tenant, w.rows[i].id))
  {
    if x.RowOf? {
      if Pending(Batch, tenant, v, provisional, x) {
        var j: nat :| ToDo(v, x.id, j);
        assert ToDo(w, x.id, j);
        if i != -1 && w.rows[i].id == x.id {
          RowsDistinct(w.rows, after, i, j);
        }
      }
      if Pending(Batch, tenant, w, provisional, x) {
        var j: nat :| ToDo(w, x.id, j);
        assert j != i ==> ToDo(v, x.id, j);
      }
    }
  }

  lemma RowDone(s: State, t: State, i: nat, c: Finding)
    requires Ledger(s) && s.phase.Batch? && Increasing(s.work.rows, s.pages.after) && i < |s.work.rows|
    requires (i >= s.work.taken || i in s.work.open) && Leaves(s.work, t.work, i) && FlagsKept(s.flags, t.flags)
    requires t.phase == Batch && t.pages == s.pages && t.keys == s.keys
    requires t.book.log == s.book.log + [Entry(RowOf(s.pages.tenant, s.work.rows[i].id), c)]
    ensures Ledger(t)
  {
    var x := RowOf(s.pages.tenant, s.work.rows[i].id);
    assert ToDo(s.work, s.work.rows[i].id, i);
    forall y ensures y in PendingSet(t) <==> y in PendingSet(s) && y != x {
      PendingAfter(s.pages.tenant, s.work, t.work, s.keys.provisional, s.pages.after, i, y);
    }
    assert PendingSet(t) == PendingSet(s) - iset{x};
    assert KnownSet(t) == KnownSet(s);
    BalancedRecord(s.book.log, Entry(x, c), PendingSet(s), KnownSet(s), s.flags, t.flags);
  }

  lemma TakeRowLedger(s: State)
    requires Ledger(s) && Shape(s) && s.phase.Batch? && Increasing(s.work.rows, s.pages.after) && s.work.taken < |s.work.rows|
    ensures Ledger(TakeRow(s))
  {
    var t := TakeRow(s);
    if s.work.rows[s.work.taken].configured {
      assert Leaves(s.work, t.work, -1);
      forall y ensures y in PendingSet(t) <==> y in PendingSet(s) {
        PendingAfter(s.pages.tenant, s.work, t.work, s.keys.provisional, s.pages.after, -1, y);
      }
      assert PendingSet(t) == PendingSet(s) && KnownSet(t) == KnownSet(s);
    } else {
      assert Leaves(s.work, t.work, s.work.taken);
      RowDone(s, t, s.work.taken, FailedCall(MetadataConfiguration, Itself));
    }
  }

  lemma TakeRowKeeps(s: State)
    requires Inv(s) && s.phase.Batch? && s.work.taken < |s.work.rows|
    ensures Inv(TakeRow(s))
  {
    TakeRowLedger(s);
  }

  /** A call failed: its item is dropped. */
  lemma FailureLedger(s: State, t: State, e: Entry)
    requires Ledger(s) && t.pages.fetched == s.pages.fetched && t.pages.tenant == s.pages.tenant && !Clean(t.flags)
    requires t.keys.seen == s.keys.seen && t.keys.provisional == s.keys.provisional
    requires t.book.log == s.book.log + [e] && e.source == Failing
    requires t.phase == s.phase || (t.phase.Inventory? && s.phase.Matching?)
    requires t.work.rows == s.work.rows && t.work.taken == s.work.taken && forall i :: i in t.work.open ==> i in s.work.open
    ensures Ledger(t)
  {
    forall x | x in PendingSet(t) ensures x in PendingSet(s) {
      if x.RowOf? {
        var j: nat :| ToDo(t.work, x.id, j);
        assert ToDo(s.work, x.id, j);
      }
    }
    assert KnownSet(t) == KnownSet(s);
    BalancedFailure(s.book.log, e, PendingSet(s), PendingSet(t), KnownSet(s), s.flags, t.flags);
  }

  lemma CloseKeepsCandidates(phase: Phase, w: Work, i: nat, provisional: seq<Key>, cs: seq<Candidate>)
    requires CandidatesOf(phase, w, provisional, cs, false)
    ensures CandidatesOf(phase, w.(open := w.open - {i}), provisional, cs, false)
  {
  }

  lemma ItemFailedKeeps(s: State, t: State, i: nat, f: Failure, site: Site)
    requires Inv(s) && (t == StorageFailure(Close(s, i), f, site) || (t == DbFailure(Close(s, i)) && f == DatabaseFailure && site == Scan))
    ensures Inv(t)
  {
    FailureLedger(s, t, Entry(Failing, FailedCall(f, site)));
    CloseKeepsCandidates(s.phase, s.work, i, s.keys.provisional, s.candidates);
  }

  lemma HeadLedger(s: State, i: nat, present: bool, site: Site)
    requires Ledger(s) && i in s.work.open && (s.phase.Batch? ==> Increasing(s.work.rows, s.pages.after))
    ensures Ledger(AfterHead(s, i, Ok(present), site))
  {
    var t := AfterHead(s, i, Ok(present), site);
    assert Leaves(s.work, t.work, -1);
    forall y ensures y in PendingSet(t) <==> y in PendingSet(s) {
      if s.phase.Batch? {
        PendingAfter(s.pages.tenant, s.work, t.work, s.keys.provisional, s.pages.after, -1, y);
      }
    }
    assert PendingSet(t) == PendingSet(s) && KnownSet(t) == KnownSet(s);
  }

  lemma HeadKeeps(s: State, i: nat, answer: Result<bool, Failure>, site: Site)
    requires Inv(s) && i in s.work.open
    ensures Inv(AfterHead(s, i, answer, site))
  {
    if answer.Err? {
      ItemFailedKeeps(s, AfterHead(s, i, answer, site), i, answer.error, site);
    } else {
      HeadLedger(s, i, answer.value, site);
    }
  }

  lemma RereadKeeps(s: State, i: nat, present: bool, answer: Option<Option<Row>>)
    requires Inv(s) && s.phase.Batch? && i < |s.work.rows| && i in s.work.open
    ensures Inv(AfterReread(s, i, present, answer))
  {
    var t := AfterReread(s, i, present, answer);
    if answer.None? {
      ItemFailedKeeps(s, t, i, DatabaseFailure, Scan);
    } else {
      assert Leaves(s.work, t.work, i);
      RowDone(s, t, i, RereadFinding(s.work.rows[i], answer.value, present));
    }
  }

  lemma EndBatchLedger(l: Limits, s: State)
    requires Ledger(s) && s.phase.Batch? && BatchOver(s, |s.work.rows|)
    ensures Ledger(NextPage(l, s))
  {
    var t := NextPage(l, s);
    if !s.flags.aborted {
      assert forall id: Id, j: nat :: !ToDo(s.work, id, j);
      assert PendingSet(t) == PendingSet(s);
    }
    assert PendingSet(t) <= PendingSet(s) && KnownSet(t) == KnownSet(s);
    BalancedSame(s.book.log, PendingSet(s), PendingSet(t), KnownSet(s), s.flags, t.flags);
  }

  lemma EndBatchOrder(p: Pages, rows: seq<Row>, completes: bool)
    requires OrderOf(Batch, p, rows)
    ensures OrderOf(Database, Advance(p, rows, completes), [])
  {
    var q := Advance(p, rows, completes);
    if !completes {
      forall x | x in q.fetched && x.tenant == q.tenant ensures q.after.Some? && x.id <= q.after.value {
        if rows != [] {
          var last := |rows| - 1;
          IncreasingOrder(rows, p.after, last, last);
          if i :| 0 <= i < |rows| && rows[i].id == x.id {
            IncreasingOrder(rows, p.after, i, last);
          }
        }
      }
    }
  }

  lemma EndBatchKeeps(l: Limits, s: State)
    requires Inv(s) && s.phase.Batch? && BatchOver(s, |s.work.rows|)
    ensures Inv(NextPage(l, s))
  {
    EndBatchLedger(l, s);
    EndBatchOrder(s.pages, s.work.rows, |s.work.rows| < l.pageSize && !s.flags.aborted && !s.flags.dbFailed);
  }

  lemma EndDatabaseKeeps(l: Limits, s: State)
    requires Inv(s) && Enabled(l, s, EndDatabase)
    ensures Inv(Step(l, s, EndDatabase))
  {
    var t := Step(l, s, EndDatabase);
    assert PendingSet(t) == PendingSet(s) && KnownSet(t) == KnownSet(s);
  }

  // ---------------------------------------------------------------- inventory

  lemma FreshKeys(s: State, keys: seq<Key>)
    requires Ledger(s) && s.phase.Inventory? && Fresh(keys, s.keys.seen)
    ensures forall k :: k in keys ==> k !in s.keys.seen && k !in s.keys.provisional
  {
    forall k | k in keys ensures k !in s.keys.seen && k !in s.keys.provisional {
      var i :| 0 <= i < |keys| && keys[i] == k;
      assert KeyOf(k) in PendingSet(s) ==> KeyOf(k) in KnownSet(s);
    }
  }

  lemma {:induction false} KeySetSize(keys: seq<Key>)
    requires Distinct(keys)
    ensures |set k | k in keys| == |keys|
  {
    if keys != [] {
      var n := |keys| - 1;
      KeySetSize(keys[..n]);
      assert keys == keys[..n] + [keys[n]];
      assert (set k | k in keys) == (set k | k in keys[..n]) + {keys[n]};
      assert keys[n] !in keys[..n];
    }
  }

  lemma ListingLedger(l: Limits, s: State, keys: seq<Key>, last: bool, tokenFresh: bool)
    requires Ledger(s) && s.phase.Inventory? && ListingAllowed(l, s.keys, keys, last, tokenFresh)
    ensures Ledger(TakeListing(l, s, Ok(keys), last, tokenFresh))
  {
    var t := TakeListing(l, s, Ok(keys), last, tokenFresh);
    var more := iset k | k in keys :: KeyOf(k);
    FreshKeys(s, keys);
    forall x ensures x in PendingSet(t) <==> x in PendingSet(s) || x in more {
    }
    assert PendingSet(t) == PendingSet(s) + more;
    forall x ensures x in KnownSet(t) <==> x in KnownSet(s) || x in more {
    }
    assert KnownSet(t) == KnownSet(s) + more;
    BalancedMore(s.book.log, PendingSet(s), KnownSet(s), more, s.flags);
  }

  lemma ListingKeeps(l: Limits, s: State, keys: Result<seq<Key>, Failure>, last: bool, tokenFresh: bool)
    requires Inv(s) && s.phase.Inventory?
    ensures Inv(TakeListing(l, s, keys, last, tokenFresh))
  {
    var t := TakeListing(l, s, keys, last, tokenFresh);
    if t.phase.Inventory? {
      FailureLedger(s, t, Entry(Failing, FailedCall(if keys.Err? then keys.error else ProtocolFailure, AtListing)));
    } else {
      ListingLedger(l, s, keys.value, last, tokenFresh);
      FreshKeys(s, keys.value);
      KeySetSize(keys.value);
      assert s.keys.seen !! (set k | k in keys.value);
    }
  }

  lemma {:induction false} SortBalanced(b: Book, provisional: seq<Key>, keys: seq<Key>, found: seq<bool>, last: bool,
                                        tenant: nat, w: Work, known: iset<Source>, f: Flags)
    requires |keys| == |found| && ShapeOf(Matching(keys, last), w, provisional)
    requires Balanced(b.log, PendingOf(Matching(keys, last), tenant, w, provisional), known, f)
    ensures var (c, p) := SortKeys(b, provisional, keys, found);
            ShapeOf(Inventory, w, p) && Balanced(c.log, PendingOf(Inventory, tenant, w, p), known, f)
    decreases |keys|
  {
    if keys == [] {
      assert PendingOf(Matching(keys, last), tenant, w, provisional) == PendingOf(Inventory, tenant, w, provisional);
    } else {
      var before, rest := PendingOf(Matching(keys, last), tenant, w, provisional), Matching(keys[1..], last);
      assert keys == [keys[0]] + keys[1..];
      assert forall k :: k in keys <==> k == keys[0] || k in keys[1..];
      assert keys[0] !in keys[1..];
      if found[0] {
        var after := PendingOf(rest, tenant, w, provisional);
        assert after == before - iset{KeyOf(keys[0])};
        assert KeyOf(keys[0]) in before;
        BalancedRecord(b.log, Entry(KeyOf(keys[0]), METADATA_FOUND), before, known, f, f);
        SortBalanced(Enter(b, KeyOf(keys[0]), METADATA_FOUND), provisional, keys[1..], found[1..], last, tenant, w, known, f);
      } else {
        var more := provisional + [keys[0]];
        assert PendingOf(rest, tenant, w, more) == before;
        SortBalanced(b, more, keys[1..], found[1..], last, tenant, w, known, f);
      }
    }
  }

  lemma MatchesKeep(l: Limits, s: State, found: Option<seq<bool>>)
    requires Inv(s) && s.phase.Matching?
    ensures Inv(TakeMatches(l, s, s.phase.keys, s.phase.last, found))
  {
    var keys, t := s.phase.keys, TakeMatches(l, s, s.phase.keys, s.phase.last, found);
    if found.None? || |found.value| != |keys| {
      FailureLedger(s, t, Entry(Failing, FailedCall(DatabaseFailure, Scan)));
    } else {
      SortBalanced(s.book, s.keys.provisional, keys, found.value, s.phase.last, s.pages.tenant, s.work, KnownSet(s), s.flags);
      assert KnownSet(t) == KnownSet(s);
    }
  }

  lemma EndInventoryKeeps(l: Limits, s: State)
    requires Inv(s) && Enabled(l, s, EndInventory)
    ensures Inv(Step(l, s, EndInventory))
  {
    var t := Step(l, s, EndInventory);
    assert PendingSet(t) == PendingSet(s) && KnownSet(t) == KnownSet(s);
  }

  // ---------------------------------------------------------------- recheck

  lemma TakeKeyKeeps(s: State)
    requires Inv(s) && s.phase.Recheck? && s.work.taken < |s.keys.provisional|
    ensures Inv(s.(work := Taken(s.work, true)))
  {
    var t := s.(work := Taken(s.work, true));
    assert PendingSet(t) == PendingSet(s) && KnownSet(t) == KnownSet(s);
    assert forall i :: i in t.work.open <==> i in s.work.open || i == s.work.taken;
  }

  lemma ProcessedNext(cs: seq<Candidate>, c: Candidate, key: Key)
    ensures Processed(cs + [c], key) <==> Processed(cs, key) || c.key == key
  {
    var more := cs + [c];
    if Processed(cs, key) {
      var i :| 0 <= i < |cs| && cs[i].key == key;
      assert more[i].key == key;
    }
    if c.key == key {
      assert more[|cs|].key == key;
    }
  }

  lemma ProbeCandidates(w: Work, i: nat, provisional: seq<Key>, cs: seq<Candidate>, all: bool, c: Finding)
    requires CandidatesOf(Recheck, w, provisional, cs, all) && ShapeOf(Recheck, w, provisional)
    requires i < |provisional| && i in w.open
    ensures CandidatesOf(Recheck, w.(open := w.open - {i}), provisional, cs + [Candidate(provisional[i], c)], all)
  {
    var more := cs + [Candidate(provisional[i], c)];
    forall key ensures Processed(more, key) <==> Processed(cs, key) || key == provisional[i] {
      ProcessedNext(cs, Candidate(provisional[i], c), key);
    }
    assert !Processed(cs, provisional[i]);
  }

  lemma ProbeKeeps(s: State, i: nat, present: bool, found: Option<bool>)
    requires Inv(s) && s.phase.Recheck? && i < |s.keys.provisional| && i in s.work.open
    ensures Inv(AfterProbe(s, i, present, found))
  {
    var t := AfterProbe(s, i, present, found);
    if found.None? {
      ItemFailedKeeps(s, t, i, DatabaseFailure, Scan);
    } else {
      ProbeCandidates(s.work, i, s.keys.provisional, s.candidates, MayRecheck(s) && Clean(s.flags), ProbeFinding(present, found.value));
      assert PendingSet(t) == PendingSet(s) && KnownSet(t) == KnownSet(s);
    }
  }

  // ---------------------------------------------------------------- the report

  /** What is pending once the candidates, or the keys that are none, are recorded. */
  ghost function WithoutCandidates(pending: iset<Source>, cs: seq<Candidate>): iset<Source> {
    iset x | x in pending && !(x.KeyOf? && Processed(cs, x.key))
  }

  ghost function WithoutOthers(pending: iset<Source>, keys: seq<Key>, cs: seq<Candidate>): iset<Source> {
    iset x | x in pending && !(x.KeyOf? && x.key in keys && !Processed(cs, x.key))
  }

  lemma {:induction false} CandidatesBooked(b: Book, cs: seq<Candidate>, promote: bool, pending: iset<Source>, known: iset<Source>, f: Flags)
    requires Balanced(b.log, pending, known, f)
    requires forall c :: 0 <= c < |cs| ==> KeyOf(cs[c].key) in pending
    requires forall c, d :: 0 <= c < d < |cs| ==> cs[c].key != cs[d].key
    ensures Balanced(BookCandidates(b, cs, promote).log, WithoutCandidates(pending, cs), known, f)
    decreases |cs|
  {
    if cs == [] {
      assert WithoutCandidates(pending, cs) == pending;
    } else {
      var x, rest := KeyOf(cs[0].key), cs[1..];
      var left := pending - iset{x};
      assert forall c :: 0 <= c < |rest| ==> rest[c] == cs[c + 1];
      BalancedRecord(b.log, Entry(x, Promoted(cs[0].finding, promote)), pending, known, f, f);
      CandidatesBooked(Enter(b, x, Promoted(cs[0].finding, promote)), rest, promote, left, known, f);
      forall key ensures Processed(cs, key) <==> key == cs[0].key || Processed(rest, key) {
        if Processed(cs, key) && key != cs[0].key {
          var i :| 0 <= i < |cs| && cs[i].key == key;
          assert rest[i - 1].key == key;
        }
        if Processed(rest, key) {
          var i :| 0 <= i < |rest| && rest[i].key == key;
          assert cs[i + 1].key == key;
        }
      }
      assert WithoutCandidates(left, rest) ==
             WithoutCandidates(pending, cs);
    }
  }

  lemma {:induction false} UnprocessedBooked(b: Book, keys: seq<Key>, cs: seq<Candidate>, pending: iset<Source>, known: iset<Source>, f: Flags)
    requires Balanced(b.log, pending, known, f) && Distinct(keys)
    requires forall k :: k in keys && !Processed(cs, k) ==> KeyOf(k) in pending
    ensures Balanced(BookUnprocessed(b, keys, cs).log, WithoutOthers(pending, keys, cs), known, f)
    decreases |keys|
  {
    if keys == [] {
      assert WithoutOthers(pending, keys, cs) == pending;
    } else {
      var x, rest := KeyOf(keys[0]), keys[1..];
      assert keys == [keys[0]] + rest && keys[0] !in rest;
      assert forall k :: k in keys <==> k == keys[0] || k in rest;
      if Processed(cs, keys[0]) {
        UnprocessedBooked(b, rest, cs, pending, known, f);
        assert WithoutOthers(pending, rest, cs) ==
               WithoutOthers(pending, keys, cs);
      } else {
        var left := pending - iset{x};
        BalancedRecord(b.log, Entry(x, NOT_RECHECKED), pending, known, f, f);
        UnprocessedBooked(Enter(b, x, NOT_RECHECKED), rest, cs, left, known, f);
        assert WithoutOthers(left, rest, cs) ==
               WithoutOthers(pending, keys, cs);
      }
    }
  }

  lemma ReportLedger(s: State)
    requires Inv(s) && s.phase.Recheck?
    ensures Ledger(MakeReport(s))
  {
    var t, cs, keys := MakeReport(s), s.candidates, s.keys.provisional;
    var pending := PendingSet(s);
    forall c | 0 <= c < |cs| ensures KeyOf(cs[c].key) in pending {
    }
    CandidatesBooked(s.book, cs, CanPromote(s), pending, KnownSet(s), s.flags);
    var left := WithoutCandidates(pending, cs);
    UnprocessedBooked(BookCandidates(s.book, cs, CanPromote(s)), keys, cs, left, KnownSet(s), s.flags);
    assert WithoutOthers(left, keys, cs) == PendingSet(t);
    assert KnownSet(t) == KnownSet(s);
  }

  lemma FinishKeeps(s: State)
    requires Inv(s) && s.phase.Recheck? && BatchOver(s, |s.keys.provisional|)
    ensures Inv(MakeReport(s))
  {
    ReportLedger(s);
  }

  // ---------------------------------------------------------------- runs

  lemma StepKeeps(l: Limits, s: State, e: Event)
    requires Inv(s) && Enabled(l, s, e)
    ensures Inv(Step(l, s, e))
  {
    match e
    case Abort =>
      var t := Step(l, s, e);
      assert PendingSet(t) == PendingSet(s) && KnownSet(t) == KnownSet(s);
    case Page(rows) => PageKeeps(l, s, rows);
    case Take => if s.phase.Batch? { TakeRowKeeps(s); } else { TakeKeyKeeps(s); }
    case HeadRow(i, answer) => HeadKeeps(s, i, answer, AtRow(s.work.rows[i].id));
    case Reread(i, answer) => RereadKeeps(s, i, s.work.open[i].present, answer);
    case EndBatch => EndBatchKeeps(l, s);
    case EndDatabase => EndDatabaseKeeps(l, s);
    case List(keys, last, tokenFresh) => ListingKeeps(l, s, keys, last, tokenFresh);
    case Matches(found) => MatchesKeep(l, s, found);
    case EndInventory => EndInventoryKeeps(l, s);
    case HeadKey(i, answer) => HeadKeeps(s, i, answer, AtCandidate);
    case Probe(i, found) => ProbeKeeps(s, i, s.work.open[i].present, found);
    case Finish => FinishKeeps(s);
  }

  lemma StartInv()
    ensures Inv(START)
  {
    assert PendingSet(START) == iset{} && KnownSet(START) == iset{};
  }

  lemma {:induction false} RunInv(l: Limits, es: seq<Event>, ss: seq<State>, k: nat)
    requires Run(l, es, ss) && k <= |es|
    ensures Inv(ss[k])
  {
    if k == 0 {
      StartInv();
    } else {
      RunInv(l, es, ss, k - 1);
      StepKeeps(l, ss[k - 1], es[k - 1]);
      assert ss[k - 1 + 1] == Step(l, ss[k - 1], es[k - 1]);
    }
  }

  // ---------------------------------------------------------------- what a complete report says

  function ClassAt(i: nat): Classification
    requires i < 16
  {
    [ActiveExists, ActiveMissing, PendingUpload, IncompleteUpload, UploadedUnverified, Quarantined, DeletionInProgress,
     ReconciliationRequired, PurgedAbsent, PurgedObjectPresent, MetadataObject, OrphanCandidate, OrphanObservation,
     InventoryChanged, LifecycleChanged, Uncertain][i]
  }

  function CountOf(counts: map<Classification, nat>, c: Classification): nat { if c in counts then counts[c] else 0 }

  /** The counts of the first n classes together. */
  function Total(counts: map<Classification, nat>, n: nat): nat
    requires n <= 16
  {
    if n == 0 then 0 else Total(counts, n - 1) + CountOf(counts, ClassAt(n - 1))
  }

  lemma ClassAtIndex(i: nat)
    requires i < 16
    ensures ClassificationIndex(ClassAt(i)) == i
  {
  }

  lemma ClassIndexed(c: Classification)
    ensures ClassAt(ClassificationIndex(c)) == c
  {
  }

  lemma {:induction false} TotalNext(counts: map<Classification, nat>, c: Classification, n: nat)
    requires n <= 16
    ensures Total(Increment(counts, c), n) == Total(counts, n) + if ClassificationIndex(c) < n then 1 else 0
  {
    if n > 0 {
      TotalNext(counts, c, n - 1);
      ClassAtIndex(n - 1);
      ClassIndexed(c);
    }
  }

  /** How many entries are of a class. */
  function Occurrences(log: seq<Entry>, c: Classification): nat {
    if log == [] then 0
    else Occurrences(log[..|log| - 1], c) + if log[|log| - 1].finding.classification == c then 1 else 0
  }

  lemma OccurrencesNext(log: seq<Entry>, e: Entry, c: Classification)
    ensures Occurrences(log + [e], c) == Occurrences(log, c) + if e.finding.classification == c then 1 else 0
  {
    assert (log + [e])[..|log|] == log;
  }

  /** The counters count the entries, class by class and together. */
  predicate Counted(b: Book) { Total(b.counts, 16) == |b.log| && forall c :: CountOf(b.counts, c) == Occurrences(b.log, c) }

  lemma EnterCounted(b: Book, x: Source, f: Finding)
    requires Counted(b)
    ensures Counted(Enter(b, x, f))
  {
    TotalNext(b.counts, f.classification, 16);
    forall d ensures CountOf(Enter(b, x, f).counts, d) == Occurrences(Enter(b, x, f).log, d) {
      OccurrencesNext(b.log, Entry(x, f), d);
    }
  }

  lemma {:induction false} SortCounted(b: Book, provisional: seq<Key>, keys: seq<Key>, found: seq<bool>)
    requires |keys| == |found| && Counted(b)
    ensures Counted(SortKeys(b, provisional, keys, found).0)
    decreases |keys|
  {
    if keys != [] {
      if found[0] {
        EnterCounted(b, KeyOf(keys[0]), METADATA_FOUND);
        SortCounted(Enter(b, KeyOf(keys[0]), METADATA_FOUND), provisional, keys[1..], found[1..]);
      } else {
        SortCounted(b, provisional + [keys[0]], keys[1..], found[1..]);
      }
    }
  }

  lemma {:induction false} CandidatesCounted(b: Book, cs: seq<Candidate>, promote: bool)
    requires Counted(b)
    ensures Counted(BookCandidates(b, cs, promote))
    decreases |cs|
  {
    if cs != [] {
      EnterCounted(b, KeyOf(cs[0].key), Promoted(cs[0].finding, promote));
      CandidatesCounted(Enter(b, KeyOf(cs[0].key), Promoted(cs[0].finding, promote)), cs[1..], promote);
    }
  }

  lemma {:induction false} UnprocessedCounted(b: Book, keys: seq<Key>, cs: seq<Candidate>)
    requires Counted(b)
    ensures Counted(BookUnprocessed(b, keys, cs))
    decreases |keys|
  {
    if keys != [] {
      if Processed(cs, keys[0]) {
        UnprocessedCounted(b, keys[1..], cs);
      } else {
        EnterCounted(b, KeyOf(keys[0]), NOT_RECHECKED);
        UnprocessedCounted(Enter(b, KeyOf(keys[0]), NOT_RECHECKED), keys[1..], cs);
      }
    }
  }

  lemma StepCounted(l: Limits, s: State, e: Event)
    requires Counted(s.book) && Enabled(l, s, e)
    ensures Counted(Step(l, s, e).book)
  {
    EnterCounted(s.book, Failing, FailedCall(DatabaseFailure, Scan));
    match e
    case HeadRow(i, answer) => if answer.Err? { EnterCounted(s.book, Failing, FailedCall(answer.error, AtRow(s.work.rows[i].id))); }
    case HeadKey(i, answer) => if answer.Err? { EnterCounted(s.book, Failing, FailedCall(answer.error, AtCandidate)); }
    case List(keys, last, tokenFresh) =>
      EnterCounted(s.book, Failing, FailedCall(if keys.Err? then keys.error else ProtocolFailure, AtListing));
    case Take =>
      if s.phase.Batch? {
        EnterCounted(s.book, RowOf(s.pages.tenant, s.work.rows[s.work.taken].id), FailedCall(MetadataConfiguration, Itself));
      }
    case Reread(i, answer) =>
      if answer.Some? {
        EnterCounted(s.book, RowOf(s.pages.tenant, s.work.rows[i].id), RereadFinding(s.work.rows[i], answer.value, s.work.open[i].present));
      }
    case Matches(found) =>
      if found.Some? && |found.value| == |s.phase.keys| {
        SortCounted(s.book, s.keys.provisional, s.phase.keys, found.value);
      }
    case Finish =>
      CandidatesCounted(s.book, s.candidates, CanPromote(s));
      UnprocessedCounted(BookCandidates(s.book, s.candidates, CanPromote(s)), s.keys.provisional, s.candidates);
    case _ =>
  }

  lemma {:induction false} TotalOfNothing(n: nat)
    requires n <= 16
    ensures Total(map[], n) == 0
  {
    if n > 0 {
      TotalOfNothing(n - 1);
    }
  }

  lemma {:induction false} RunCounted(l: Limits, es: seq<Event>, ss: seq<State>, k: nat)
    requires Run(l, es, ss) && k <= |es|
    ensures Counted(ss[k].book)
  {
    if k == 0 {
      TotalOfNothing(16);
    } else {
      RunCounted(l, es, ss, k - 1);
      StepCounted(l, ss[k - 1], es[k - 1]);
      assert ss[k - 1 + 1] == Step(l, ss[k - 1], es[k - 1]);
    }
  }

  function Sources(log: seq<Entry>): set<Source> { set n | 0 <= n < |log| :: log[n].source }

  lemma {:induction false} SourcesCount(log: seq<Entry>)
    requires NoRepeats(log) && !Logged(log, Failing)
    ensures |Sources(log)| == |log|
  {
    if log != [] {
      var n := |log| - 1;
      var front, last := log[..n], log[n];
      assert log == front + [last];
      forall x ensures Logged(log, x) <==> Logged(front, x) || x == last.source { LoggedNext(front, last, x); }
      SourcesCount(front);
      forall x ensures x in Sources(log) <==> x in Sources(front) + {last.source} {
        assert x in Sources(log) <==> Logged(log, x);
        assert x in Sources(front) <==> Logged(front, x);
      }
      assert Sources(log) == Sources(front) + {last.source};
      assert last.source !in Sources(front);
    }
  }

  lemma {:induction false} KeySources(seen: set<Key>)
    ensures |set k | k in seen :: KeyOf(k)| == |seen|
  {
    if seen != {} {
      var k :| k in seen;
      KeySources(seen - {k});
      assert (set j | j in seen :: KeyOf(j)) == (set j | j in seen - {k} :: KeyOf(j)) + {KeyOf(k)};
    }
  }

  /** The sweep is called complete only when every tenant was finished, and only after it. */
  predicate SweptAll(l: Limits, s: State) {
    s.pages.complete ==> s.pages.finished == l.tenants && !s.phase.Database? && !s.phase.Batch? && !s.phase.DatabaseOver?
  }

  lemma StepComplete(l: Limits, s: State, e: Event)
    requires Enabled(l, s, e) && SweptAll(l, s) && !s.complete
    ensures var t := Step(l, s, e);
            SweptAll(l, t) && (t.complete <==> t.phase.Report? && CanPromote(t)) && !s.phase.Report?
  {
  }

  /** The report is complete exactly on full evidence: no abort, no failure, every tenant swept and the inventory listed to
      its end. */
  lemma {:induction false} CompleteExact(l: Limits, es: seq<Event>, ss: seq<State>, k: nat)
    requires Run(l, es, ss) && k <= |es|
    ensures ss[k].complete <==> ss[k].phase.Report? && ss[k].pages.complete && ss[k].keys.complete && Clean(ss[k].flags) && !ss[k].flags.aborted
    ensures ss[k].pages.complete ==> ss[k].pages.finished == l.tenants
    ensures SweptAll(l, ss[k])
  {
    if k > 0 {
      CompleteExact(l, es, ss, k - 1);
      StepComplete(l, ss[k - 1], es[k - 1]);
      assert ss[k - 1 + 1] == Step(l, ss[k - 1], es[k - 1]);
    }
  }

  lemma KnownCount(s: State)
    requires RowOrder(s) && Sizes(s) && Ledger(s) && s.phase.Report? && Clean(s.flags) && !s.flags.aborted
    ensures |s.book.log| == s.pages.databaseRows + s.keys.objects
    ensures forall x :: Known(s.pages.fetched, s.keys.seen, x) <==> Logged(s.book.log, x)
  {
    var keySources := set k | k in s.keys.seen :: KeyOf(k);
    forall x ensures x in KnownSet(s) <==> Logged(s.book.log, x) {
    }
    KeySources(s.keys.seen);
    SourcesCount(s.book.log);
    forall x ensures x in Sources(s.book.log) <==> x in s.pages.fetched + keySources {
      assert x in Sources(s.book.log) <==> Logged(s.book.log, x);
      assert x in KnownSet(s) <==> Known(s.pages.fetched, s.keys.seen, x);
    }
    assert Sources(s.book.log) == s.pages.fetched + keySources;
    assert s.pages.fetched !! keySources;
  }

  /** In a complete report, however the workers were scheduled, every row and every key is recorded exactly once, every
      class is counted as often as it was recorded, and the counts add up to rows plus objects. */
  lemma CompleteReport(l: Limits, es: seq<Event>, ss: seq<State>)
    requires Run(l, es, ss) && ss[|es|].complete
    ensures var s := ss[|es|];
            && (forall c :: CountOf(s.book.counts, c) == Occurrences(s.book.log, c))
            && Total(s.book.counts, 16) == s.pages.databaseRows + s.keys.objects
            && |s.pages.fetched| == s.pages.databaseRows && |s.keys.seen| == s.keys.objects
            && NoRepeats(s.book.log)
            && (forall x :: Known(s.pages.fetched, s.keys.seen, x) <==> Logged(s.book.log, x))
  {
    RunInv(l, es, ss, |es|);
    RunCounted(l, es, ss, |es|);
    CompleteExact(l, es, ss, |es|);
    KnownCount(ss[|es|]);
  }

  /** In any report, complete or not, no row or key is recorded twice. */
  lemma NothingTwice(l: Limits, es: seq<Event>, ss: seq<State>)
    requires Run(l, es, ss)
    ensures NoRepeats(ss[|es|].book.log)
  {
    RunInv(l, es, ss, |es|);
  }

  // ---------------------------------------------------------------- orphan candidates

  /** At event i of the recheck the provider had provisional key number `item`. */
  predicate SeenPresent(es: seq<Event>, ss: seq<State>, item: nat, key: Key, i: nat)
    requires |ss| == |es| + 1 && i < |es|
  {
    && ss[i].phase.Recheck? && ss[i].keys.complete && ss[i].pages.complete
    && item < |ss[i].keys.provisional| && ss[i].keys.provisional[item] == key && es[i] == HeadKey(item, Ok(true))
  }

  /** Before event k: the provider had the key after the listing, and after that no metadata did. */
  predicate Confirmed(es: seq<Event>, ss: seq<State>, key: Key, k: nat)
    requires |ss| == |es| + 1 && k <= |es|
  {
    exists i, j :: 0 <= i < j < k && es[j].Probe? && es[j].metadata == Some(false) && SeenPresent(es, ss, es[j].i, key, i)
  }

  predicate NoOrphans(log: seq<Entry>) { forall n :: 0 <= n < |log| ==> !log[n].finding.classification.OrphanCandidate? }

  /** Only the recheck works on provisional keys, and only on complete evidence. */
  predicate RecheckEarned(s: State) {
    s.phase.Recheck? && !(s.keys.complete && s.pages.complete) ==>
      s.work.taken >= |s.keys.provisional| && s.work.open == map[] && s.candidates == []
  }

  ghost predicate PresenceSeen(es: seq<Event>, ss: seq<State>, k: nat)
    requires |ss| == |es| + 1 && k <= |es|
  {
    ss[k].phase.Recheck? ==>
      forall item :: item in ss[k].work.open && ss[k].work.open[item] == Observed(true) && item < |ss[k].keys.provisional|
        ==> exists i :: 0 <= i < k && SeenPresent(es, ss, item, ss[k].keys.provisional[item], i)
  }

  ghost predicate CandidatesConfirmed(es: seq<Event>, ss: seq<State>, k: nat)
    requires |ss| == |es| + 1 && k <= |es|
  {
    forall c :: 0 <= c < |ss[k].candidates| && ss[k].candidates[c].finding.classification.OrphanCandidate? ==>
      Confirmed(es, ss, ss[k].candidates[c].key, k)
  }

  lemma {:induction false} SortNoOrphans(b: Book, provisional: seq<Key>, keys: seq<Key>, found: seq<bool>)
    requires |keys| == |found| && NoOrphans(b.log)
    ensures NoOrphans(SortKeys(b, provisional, keys, found).0.log)
    decreases |keys|
  {
    if keys != [] {
      if found[0] {
        SortNoOrphans(Enter(b, KeyOf(keys[0]), METADATA_FOUND), provisional, keys[1..], found[1..]);
      } else {
        SortNoOrphans(b, provisional + [keys[0]], keys[1..], found[1..]);
      }
    }
  }

  lemma StepNoOrphans(l: Limits, s: State, e: Event)
    requires NoOrphans(s.book.log) && Enabled(l, s, e) && !e.Finish?
    ensures NoOrphans(Step(l, s, e).book.log)
  {
    if e.Matches? && e.found.Some? && |e.found.value| == |s.phase.keys| {
      SortNoOrphans(s.book, s.keys.provisional, s.phase.keys, e.found.value);
    }
  }

  /** The recheck never changes what was listed or swept, and only the listing answers open items before it. */
  lemma StepPresence(l: Limits, es: seq<Event>, ss: seq<State>, k: nat)
    requires Run(l, es, ss) && k < |es| && PresenceSeen(es, ss, k) && RecheckEarned(ss[k])
    ensures PresenceSeen(es, ss, k + 1)
  {
    var s, t := ss[k], ss[k + 1];
    assert t == Step(l, s, es[k]);
    if t.phase.Recheck? && s.phase.Recheck? {
      assert t.keys == s.keys;
      forall item | item in t.work.open && t.work.open[item] == Observed(true) && item < |t.keys.provisional|
        ensures exists i :: 0 <= i < k + 1 && SeenPresent(es, ss, item, t.keys.provisional[item], i)
      {
        if item in s.work.open && s.work.open[item] == Observed(true) {
          var i :| 0 <= i < k && SeenPresent(es, ss, item, s.keys.provisional[item], i);
        } else {
          assert SeenPresent(es, ss, item, t.keys.provisional[item], k);
        }
      }
    }
  }

  lemma ConfirmedLater(es: seq<Event>, ss: seq<State>, key: Key, k: nat)
    requires |ss| == |es| + 1 && k < |es| && Confirmed(es, ss, key, k)
    ensures Confirmed(es, ss, key, k + 1)
  {
    var i, j :| 0 <= i < j < k && es[j].Probe? && es[j].metadata == Some(false) && SeenPresent(es, ss, es[j].i, key, i);
  }

  lemma StepConfirmed(l: Limits, es: seq<Event>, ss: seq<State>, k: nat)
    requires Run(l, es, ss) && k < |es| && PresenceSeen(es, ss, k) && CandidatesConfirmed(es, ss, k)
    ensures CandidatesConfirmed(es, ss, k + 1)
  {
    var s, t, e := ss[k], ss[k + 1], es[k];
    assert t == Step(l, s, e);
    forall c | 0 <= c < |t.candidates| && t.candidates[c].finding.classification.OrphanCandidate?
      ensures Confirmed(es, ss, t.candidates[c].key, k + 1)
    {
      if c < |s.candidates| {
        assert t.candidates[c] == s.candidates[c];
        ConfirmedLater(es, ss, s.candidates[c].key, k);
      } else {
        assert e.Probe? && e.metadata == Some(false) && s.work.open[e.i] == Observed(true);
        var i :| 0 <= i < k && SeenPresent(es, ss, e.i, s.keys.provisional[e.i], i);
        assert 0 <= i < k < k + 1 && SeenPresent(es, ss, es[k].i, t.candidates[c].key, i);
      }
    }
  }

  lemma {:induction false} CandidateEntries(b: Book, cs: seq<Candidate>, promote: bool, n: nat)
    requires n < |BookCandidates(b, cs, promote).log| && BookCandidates(b, cs, promote).log[n].finding.classification.OrphanCandidate?
    requires NoOrphans(b.log)
    ensures promote && exists c :: 0 <= c < |cs| && cs[c].finding.classification.OrphanCandidate? && BookCandidates(b, cs, promote).log[n].source == KeyOf(cs[c].key)
    decreases |cs|
  {
    CandidateLog(b, cs, promote);
    assert n >= |b.log|;
    var c := n - |b.log|;
    assert BookCandidates(b, cs, promote).log[n] == Entry(KeyOf(cs[c].key), Promoted(cs[c].finding, promote));
  }

  lemma {:induction false} CandidateLog(b: Book, cs: seq<Candidate>, promote: bool)
    ensures BookCandidates(b, cs, promote).log ==
            b.log + seq(|cs|, c requires 0 <= c < |cs| => Entry(KeyOf(cs[c].key), Promoted(cs[c].finding, promote)))
    decreases |cs|
  {
    if cs != [] {
      CandidateLog(Enter(b, KeyOf(cs[0].key), Promoted(cs[0].finding, promote)), cs[1..], promote);
    }
  }

  lemma {:induction false} UnprocessedLog(b: Book, keys: seq<Key>, cs: seq<Candidate>, n: nat)
    requires n < |BookUnprocessed(b, keys, cs).log| && BookUnprocessed(b, keys, cs).log[n].finding.classification.OrphanCandidate?
    ensures n < |b.log| && b.log[n] == BookUnprocessed(b, keys, cs).log[n]
    decreases |keys|
  {
    if keys != [] {
      var c := if Processed(cs, keys[0]) then b else Enter(b, KeyOf(keys[0]), NOT_RECHECKED);
      UnprocessedLog(c, keys[1..], cs, n);
    }
  }

  /** Everything the runs keep about orphan candidates. */
  ghost predicate OrphansEarned(es: seq<Event>, ss: seq<State>, k: nat)
    requires |ss| == |es| + 1 && k <= |es|
  {
    && RecheckEarned(ss[k]) && PresenceSeen(es, ss, k) && CandidatesConfirmed(es, ss, k)
    && (!ss[k].phase.Report? ==> NoOrphans(ss[k].book.log))
    && forall n :: 0 <= n < |ss[k].book.log| && ss[k].book.log[n].finding.classification.OrphanCandidate? ==>
         ss[k].complete && ss[k].book.log[n].source.KeyOf? && Confirmed(es, ss, ss[k].book.log[n].source.key, k)
  }

  lemma FinishOrphans(l: Limits, es: seq<Event>, ss: seq<State>, k: nat, n: nat)
    requires Run(l, es, ss) && k < |es| && es[k].Finish? && OrphansEarned(es, ss, k)
    requires n < |ss[k + 1].book.log| && ss[k + 1].book.log[n].finding.classification.OrphanCandidate?
    ensures ss[k + 1].complete && ss[k + 1].book.log[n].source.KeyOf?
    ensures Confirmed(es, ss, ss[k + 1].book.log[n].source.key, k + 1)
  {
    var s := ss[k];
    assert ss[k + 1] == MakeReport(s);
    var b := BookCandidates(s.book, s.candidates, CanPromote(s));
    UnprocessedLog(b, s.keys.provisional, s.candidates, n);
    CandidateEntries(s.book, s.candidates, CanPromote(s), n);
    var c :| 0 <= c < |s.candidates| && s.candidates[c].finding.classification.OrphanCandidate? && b.log[n].source == KeyOf(s.candidates[c].key);
    ConfirmedLater(es, ss, s.candidates[c].key, k);
  }

  lemma StepRecheckEarned(l: Limits, s: State, e: Event)
    requires RecheckEarned(s) && Enabled(l, s, e) && CandidateKeys(s) && Shape(s)
    ensures RecheckEarned(Step(l, s, e))
  {
  }

  lemma {:induction false} RunOrphans(l: Limits, es: seq<Event>, ss: seq<State>, k: nat)
    requires Run(l, es, ss) && k <= |es|
    ensures OrphansEarned(es, ss, k)
  {
    if k > 0 {
      RunOrphans(l, es, ss, k - 1);
      RunInv(l, es, ss, k - 1);
      var s, e := ss[k - 1], es[k - 1];
      assert ss[k - 1 + 1] == Step(l, s, e);
      StepRecheckEarned(l, s, e);
      StepPresence(l, es, ss, k - 1);
      StepConfirmed(l, es, ss, k - 1);
      if e.Finish? {
        forall n | 0 <= n < |ss[k].book.log| && ss[k].book.log[n].finding.classification.OrphanCandidate?
          ensures ss[k].complete && ss[k].book.log[n].source.KeyOf? && Confirmed(es, ss, ss[k].book.log[n].source.key, k)
        {
          FinishOrphans(l, es, ss, k - 1, n);
        }
      } else {
        StepNoOrphans(l, s, e);
      }
    }
  }

  /** An orphan candidate is recorded only in a complete report, for a key seen present, and then without metadata,
      after the listing. */
  lemma OrphanCandidates(l: Limits, es: seq<Event>, ss: seq<State>, n: nat)
    requires Run(l, es, ss) && n < |ss[|es|].book.log| && ss[|es|].book.log[n].finding.classification.OrphanCandidate?
    ensures ss[|es|].complete && ss[|es|].book.log[n].source.KeyOf?
    ensures Confirmed(es, ss, ss[|es|].book.log[n].source.key, |es|)
  {
    RunOrphans(l, es, ss, |es|);
  }
}
