/** What the entries of a sweep say of the rows and keys they are about (`lifecycle` and `reconcileMedia`,
    src/media/reconciliation.ts:44-56, 130-199): every class has its condition on what was observed, and every entry of a
    run rests on such an observation. */
module SweepJudgement {
  import opened Prelude
  import opened Samples
  import opened Sweep
  import opened SweepProofs
  import opened SweepReport

  // ---------------------------------------------------------------- the classes

  predicate BeingDeleted(row: Row) { row.deleted || row.deletionRequested || row.status.DeletedStatus? }

  /** No job, no purge, no deletion and no upload under way: the status alone decides. */
  predicate Settled(row: Row) { !row.jobNeedsReconciliation && !row.purged && !BeingDeleted(row) && !row.pending }

  /** The condition of each class. */
  predicate Means(c: Classification, row: Row, present: bool) {
    match c
    case ReconciliationRequired => row.jobNeedsReconciliation
    case PurgedObjectPresent => row.purged && present && !row.jobNeedsReconciliation
    case PurgedAbsent => row.purged && !present && !row.jobNeedsReconciliation
    case DeletionInProgress => BeingDeleted(row) && !row.purged && !row.jobNeedsReconciliation
    case PendingUpload => row.pending && !BeingDeleted(row) && !row.purged && !row.jobNeedsReconciliation
    case IncompleteUpload => row.status == PendingStatus && Settled(row)
    case Quarantined => row.status == QuarantinedStatus && Settled(row)
    case UploadedUnverified => row.status == UploadedStatus && Settled(row)
    case ActiveExists => row.status == ActiveStatus && present && Settled(row)
    case ActiveMissing => row.status == ActiveStatus && !present && Settled(row)
    case Uncertain => row.status == OtherStatus && Settled(row)
    case _ => false
  }

  /** Every class is given exactly under its condition, and always one of them is. */
  lemma LifecycleExact(row: Row, present: bool, c: Classification)
    ensures Lifecycle(row, present) == c <==> Means(c, row, present)
  {
  }

  // ---------------------------------------------------------------- rows

  /** Event j: the provider said of item i of the batch that row has an object, or has none. */
  predicate RowSeen(es: seq<Event>, ss: seq<State>, j: nat, i: nat, tenant: nat, row: Row, present: bool) {
    && j < |es| < |ss| && ss[j].phase.Batch? && ss[j].pages.tenant == tenant
    && i < |ss[j].work.rows| && ss[j].work.rows[i] == row && es[j] == HeadRow(i, Ok(present))
  }

  /** What is known of the open items of a batch was answered in it. */
  ghost predicate RowsAnswered(es: seq<Event>, ss: seq<State>, k: nat)
    requires k < |ss|
  {
    ss[k].phase.Batch? ==>
      forall i :: i in ss[k].work.open && ss[k].work.open[i].Observed? && i < |ss[k].work.rows| ==>
        exists j :: 0 <= j < k && RowSeen(es, ss, j, i, ss[k].pages.tenant, ss[k].work.rows[i], ss[k].work.open[i].present)
  }

  lemma StepBatch(l: Limits, s: State, e: Event, i: nat)
    requires Enabled(l, s, e) && Step(l, s, e).phase.Batch?
    requires i in Step(l, s, e).work.open && Step(l, s, e).work.open[i].Observed? && i < |Step(l, s, e).work.rows|
    ensures var t := Step(l, s, e);
            && s.phase.Batch? && t.work.rows == s.work.rows && t.pages.tenant == s.pages.tenant
            && ((i in s.work.open && s.work.open[i] == t.work.open[i]) || e == HeadRow(i, Ok(t.work.open[i].present)))
  {
  }

  lemma RowsAnsweredNext(l: Limits, es: seq<Event>, ss: seq<State>, k: nat)
    requires Run(l, es, ss) && k < |es| && RowsAnswered(es, ss, k)
    ensures RowsAnswered(es, ss, k + 1)
  {
    var s, t, e := ss[k], ss[k + 1], es[k];
    assert t == Step(l, s, e);
    if t.phase.Batch? {
      forall i | i in t.work.open && t.work.open[i].Observed? && i < |t.work.rows|
        ensures exists j :: 0 <= j < k + 1 && RowSeen(es, ss, j, i, t.pages.tenant, t.work.rows[i], t.work.open[i].present)
      {
        StepBatch(l, s, e, i);
        if i in s.work.open && s.work.open[i] == t.work.open[i] {
          var j :| 0 <= j < k && RowSeen(es, ss, j, i, s.pages.tenant, s.work.rows[i], s.work.open[i].present);
        } else {
          assert RowSeen(es, ss, k, i, t.pages.tenant, t.work.rows[i], t.work.open[i].present);
        }
      }
    }
  }

  lemma {:induction false} RunAnswered(l: Limits, es: seq<Event>, ss: seq<State>, k: nat)
    requires Run(l, es, ss) && k <= |es|
    ensures RowsAnswered(es, ss, k)
  {
    if k > 0 {
      RunAnswered(l, es, ss, k - 1);
      RowsAnsweredNext(l, es, ss, k - 1);
    }
  }

  /** What may be said of a row after its object was looked for and the row was read again. */
  predicate Judges(f: Finding, before: Row, now: Option<Row>, present: bool) {
    if now.Some? && now.value.version == before.version then
      f.failure.None? && f.storage == (if present then Exists else Missing) && f.held == now.value.held && Means(f.classification, now.value, present)
    else f == Seen(LifecycleChanged, Unknown, false)
  }

  /** Event k reads row i of the batch again, after event j looked for its object, and records what that shows. */
  predicate RowJudged(es: seq<Event>, ss: seq<State>, j: nat, k: nat, i: nat, x: Entry) {
    && j < k < |es| < |ss| && ss[k].phase.Batch? && i < |ss[k].work.rows|
    && es[k].Reread? && es[k].i == i && es[k].row.Some? && x.source == RowOf(ss[k].pages.tenant, ss[k].work.rows[i].id)
    && exists present: bool ::
         RowSeen(es, ss, j, i, ss[k].pages.tenant, ss[k].work.rows[i], present) &&
         Judges(x.finding, ss[k].work.rows[i], es[k].row.value, present)
  }

  /** Event k takes a row that is not stored here. */
  predicate RowMisplaced(es: seq<Event>, ss: seq<State>, k: nat, x: Entry) {
    && k < |es| < |ss| && ss[k].phase.Batch? && ss[k].work.taken < |ss[k].work.rows| && es[k] == Take
    && var row := ss[k].work.rows[ss[k].work.taken];
       !row.configured && x == Entry(RowOf(ss[k].pages.tenant, row.id), FailedCall(MetadataConfiguration, Itself))
  }

  lemma RereadRecords(l: Limits, s: State, e: Event)
    requires Enabled(l, s, e) && e.Reread? && e.row.Some?
    ensures var x := Entry(RowOf(s.pages.tenant, s.work.rows[e.i].id), RereadFinding(s.work.rows[e.i], e.row.value, s.work.open[e.i].present));
            Step(l, s, e).book.log == s.book.log + [x]
  {
  }

  /** Reading a row again records exactly one entry, of that row: a lifecycle class exactly when the version is the same,
      and then the one that the row read again and the answer about its object call for. */
  lemma RereadJudges(l: Limits, es: seq<Event>, ss: seq<State>, k: nat)
    requires Run(l, es, ss) && k < |es| && es[k].Reread? && es[k].row.Some?
    ensures exists x, j :: ss[k + 1].book.log == ss[k].book.log + [x] && RowJudged(es, ss, j, k, es[k].i, x)
  {
    var s, e := ss[k], es[k];
    assert ss[k + 1] == Step(l, s, e);
    RunAnswered(l, es, ss, k);
    var row, present := s.work.rows[e.i], s.work.open[e.i].present;
    var j :| 0 <= j < k && RowSeen(es, ss, j, e.i, s.pages.tenant, row, present);
    var f := RereadFinding(row, e.row.value, present);
    if e.row.value.Some? {
      LifecycleExact(e.row.value.value, present, f.classification);
    }
    RereadRecords(l, s, e);
    assert Judges(f, row, e.row.value, present);
    assert RowJudged(es, ss, j, k, e.i, Entry(RowOf(s.pages.tenant, row.id), f));
  }

  // ---------------------------------------------------------------- where entries come from

  lemma {:induction false} SortEntries(b: Book, provisional: seq<Key>, keys: seq<Key>, found: seq<bool>, n: nat) returns (x: nat)
    requires |keys| == |found| && |b.log| <= n < |SortKeys(b, provisional, keys, found).0.log|
    ensures x < |keys| && found[x] && SortKeys(b, provisional, keys, found).0.log[n] == Entry(KeyOf(keys[x]), METADATA_FOUND)
    decreases |keys|
  {
    if found[0] {
      var c := Enter(b, KeyOf(keys[0]), METADATA_FOUND);
      if n == |b.log| {
        var added := SortAdds(c, provisional, keys[1..], found[1..]);
        assert c.log[n] == Entry(KeyOf(keys[0]), METADATA_FOUND);
        x := 0;
      } else {
        x := SortEntries(c, provisional, keys[1..], found[1..], n);
        x := x + 1;
      }
    } else {
      x := SortEntries(b, provisional + [keys[0]], keys[1..], found[1..], n);
      x := x + 1;
    }
  }

  lemma {:induction false} UnprocessedEntries(b: Book, keys: seq<Key>, cs: seq<Candidate>, n: nat) returns (x: nat)
    requires |b.log| <= n < |BookUnprocessed(b, keys, cs).log|
    ensures x < |keys| && !Processed(cs, keys[x]) && BookUnprocessed(b, keys, cs).log[n] == Entry(KeyOf(keys[x]), NOT_RECHECKED)
    decreases |keys|
  {
    if Processed(cs, keys[0]) {
      x := UnprocessedEntries(b, keys[1..], cs, n);
      x := x + 1;
    } else {
      var c := Enter(b, KeyOf(keys[0]), NOT_RECHECKED);
      if n == |b.log| {
        var added := UnprocessedAdd(c, keys[1..], cs);
        assert c.log[n] == Entry(KeyOf(keys[0]), NOT_RECHECKED);
        x := 0;
      } else {
        x := UnprocessedEntries(c, keys[1..], cs, n);
        x := x + 1;
      }
    }
  }

  /** Event k recorded entry n. */
  predicate Recorded(ss: seq<State>, k: nat, n: nat) { k + 1 < |ss| && |ss[k].book.log| <= n < |ss[k + 1].book.log| }

  lemma {:induction false} RecordedBy(l: Limits, es: seq<Event>, ss: seq<State>, k: nat, n: nat) returns (j: nat)
    requires Run(l, es, ss) && k <= |es| && n < |ss[k].book.log|
    ensures j < k && Recorded(ss, j, n) && ss[j + 1].book.log[n] == ss[k].book.log[n]
    decreases k
  {
    if n < |ss[k - 1].book.log| {
      LogGrows(l, es, ss, k - 1, k);
      j := RecordedBy(l, es, ss, k - 1, n);
      assert ss[k].book.log[..|ss[k - 1].book.log|][n] == ss[k].book.log[n];
    } else {
      j := k - 1;
    }
  }

  lemma WorkerRecords(l: Limits, s: State, e: Event, n: nat)
    requires Enabled(l, s, e) && Single(s, e) && |s.book.log| <= n < |Step(l, s, e).book.log|
    ensures var x := Step(l, s, e).book.log[n];
            && n == |s.book.log| && !x.source.KeyOf?
            && (x.source.RowOf? ==> (e == Take && s.phase.Batch? && !s.work.rows[s.work.taken].configured) || (e.Reread? && e.row.Some?))
    ensures e == Take && s.phase.Batch? ==>
              Step(l, s, e).book.log[n] ==
              Entry(RowOf(s.pages.tenant, s.work.rows[s.work.taken].id), FailedCall(MetadataConfiguration, Itself))
  {
  }

  /** Every entry about a row rests on a look at its object and a second look at the row, or says that it is not stored here. */
  lemma RowEntryExact(l: Limits, es: seq<Event>, ss: seq<State>, n: nat)
    requires Run(l, es, ss) && n < |ss[|es|].book.log| && ss[|es|].book.log[n].source.RowOf?
    ensures var x := ss[|es|].book.log[n];
            exists k :: Recorded(ss, k, n) &&
              (RowMisplaced(es, ss, k, x) || exists j, i :: RowJudged(es, ss, j, k, i, x))
  {
    var x := ss[|es|].book.log[n];
    var k := RecordedBy(l, es, ss, |es|, n);
    var s, e := ss[k], es[k];
    assert ss[k + 1] == Step(l, s, e);
    if e.Matches? && !Single(s, e) {
      var y := SortEntries(s.book, s.keys.provisional, s.phase.keys, e.found.value, n);
      assert false;
    } else if e.Finish? {
      FinishEntries(s, n);
      assert false;
    } else {
      WorkerRecords(l, s, e, n);
      if e == Take {
        assert RowMisplaced(es, ss, k, x);
      } else {
        RereadJudges(l, es, ss, k);
        var y, j :| ss[k + 1].book.log == s.book.log + [y] && RowJudged(es, ss, j, k, e.i, y);
        assert y == x;
      }
    }
  }

  // ---------------------------------------------------------------- keys

  /** What the recheck of a key shows: its object was there or not, and metadata was found or not. */
  predicate Shows(f: Finding, present: bool, found: bool) {
    && f.failure.None? && f.storage == (if present then Exists else Missing) && !f.held
    && (f.classification == MetadataObject <==> found)
    && (f.classification == InventoryChanged <==> !found && !present)
    && (f.classification == OrphanCandidate <==> !found && present)
  }

  lemma FinishEntries(s: State, n: nat)
    requires |s.book.log| <= n < |MakeReport(s).book.log|
    ensures MakeReport(s).book.log[n].source.KeyOf?
    ensures (exists c :: 0 <= c < |s.candidates| && MakeReport(s).book.log[n] ==
              Entry(KeyOf(s.candidates[c].key), Promoted(s.candidates[c].finding, CanPromote(s)))) ||
            (exists x :: 0 <= x < |s.keys.provisional| && !Processed(s.candidates, s.keys.provisional[x]) &&
              MakeReport(s).book.log[n] == Entry(KeyOf(s.keys.provisional[x]), NOT_RECHECKED))
  {
    var b := BookCandidates(s.book, s.candidates, CanPromote(s));
    CandidateLog(s.book, s.candidates, CanPromote(s));
    var added := UnprocessedAdd(b, s.keys.provisional, s.candidates);
    if n < |b.log| {
      var c := n - |s.book.log|;
      assert b.log[n] == Entry(KeyOf(s.candidates[c].key), Promoted(s.candidates[c].finding, CanPromote(s)));
    } else {
      var x := UnprocessedEntries(b, s.keys.provisional, s.candidates, n);
    }
  }

  /** Event j: the provider said of provisional key number i that it has an object, or has none. */
  predicate KeySeen(es: seq<Event>, ss: seq<State>, j: nat, i: nat, key: Key, present: bool) {
    && j < |es| < |ss| && ss[j].phase.Recheck? && i < |ss[j].keys.provisional| && ss[j].keys.provisional[i] == key
    && es[j] == HeadKey(i, Ok(present))
  }

  ghost predicate KeysAnswered(es: seq<Event>, ss: seq<State>, k: nat)
    requires k < |ss|
  {
    ss[k].phase.Recheck? ==>
      forall i :: i in ss[k].work.open && ss[k].work.open[i].Observed? && i < |ss[k].keys.provisional| ==>
        exists j :: 0 <= j < k && KeySeen(es, ss, j, i, ss[k].keys.provisional[i], ss[k].work.open[i].present)
  }

  /** A candidate rests on a look at the object of its key and a later look for metadata, after the listing. */
  predicate Rechecked(es: seq<Event>, ss: seq<State>, k: nat, c: Candidate) {
    exists j, p, present, found: bool ::
      0 <= j < p < k && p < |es| && es[p].Probe? && es[p].metadata == Some(found) &&
      KeySeen(es, ss, j, es[p].i, c.key, present) && Shows(c.finding, present, found)
  }

  ghost predicate CandidatesRechecked(es: seq<Event>, ss: seq<State>, k: nat)
    requires k < |ss|
  {
    forall c :: 0 <= c < |ss[k].candidates| ==> Rechecked(es, ss, k, ss[k].candidates[c])
  }

  lemma StepRecheck(l: Limits, s: State, e: Event, i: nat)
    requires Enabled(l, s, e) && Step(l, s, e).phase.Recheck?
    requires i in Step(l, s, e).work.open && Step(l, s, e).work.open[i].Observed?
    ensures var t := Step(l, s, e);
            && s.phase.Recheck? && t.keys == s.keys
            && ((i in s.work.open && s.work.open[i] == t.work.open[i]) || e == HeadKey(i, Ok(t.work.open[i].present)))
  {
  }

  lemma StepCandidates(l: Limits, s: State, e: Event)
    requires Enabled(l, s, e)
    ensures var t := Step(l, s, e);
            t.candidates == s.candidates ||
            (e.Probe? && e.metadata.Some? &&
             t.candidates == s.candidates + [Candidate(s.keys.provisional[e.i], ProbeFinding(s.work.open[e.i].present, e.metadata.value))])
  {
  }

  lemma RecheckedLater(es: seq<Event>, ss: seq<State>, k: nat, c: Candidate)
    requires Rechecked(es, ss, k, c)
    ensures Rechecked(es, ss, k + 1, c)
  {
  }

  lemma KeysAnsweredNext(l: Limits, es: seq<Event>, ss: seq<State>, k: nat)
    requires Run(l, es, ss) && k < |es| && KeysAnswered(es, ss, k)
    ensures KeysAnswered(es, ss, k + 1)
  {
    var s, t, e := ss[k], ss[k + 1], es[k];
    assert t == Step(l, s, e);
    if t.phase.Recheck? {
      forall i | i in t.work.open && t.work.open[i].Observed? && i < |t.keys.provisional|
        ensures exists j :: 0 <= j < k + 1 && KeySeen(es, ss, j, i, t.keys.provisional[i], t.work.open[i].present)
      {
        StepRecheck(l, s, e, i);
        if i in s.work.open && s.work.open[i] == t.work.open[i] {
          var j :| 0 <= j < k && KeySeen(es, ss, j, i, s.keys.provisional[i], s.work.open[i].present);
        } else {
          assert KeySeen(es, ss, k, i, t.keys.provisional[i], t.work.open[i].present);
        }
      }
    }
  }

  lemma CandidatesNext(l: Limits, es: seq<Event>, ss: seq<State>, k: nat)
    requires Run(l, es, ss) && k < |es| && KeysAnswered(es, ss, k) && CandidatesRechecked(es, ss, k)
    ensures CandidatesRechecked(es, ss, k + 1)
  {
    var s, t, e := ss[k], ss[k + 1], es[k];
    assert t == Step(l, s, e);
    StepCandidates(l, s, e);
    forall c | 0 <= c < |t.candidates| ensures Rechecked(es, ss, k + 1, t.candidates[c]) {
      if c < |s.candidates| {
        assert t.candidates[c] == s.candidates[c];
        RecheckedLater(es, ss, k, s.candidates[c]);
      } else {
        var key, present := s.keys.provisional[e.i], s.work.open[e.i].present;
        var j :| 0 <= j < k && KeySeen(es, ss, j, e.i, key, present);
        assert Shows(t.candidates[c].finding, present, e.metadata.value);
        assert 0 <= j < k < k + 1 && es[k].metadata == Some(e.metadata.value) && KeySeen(es, ss, j, es[k].i, t.candidates[c].key, present);
      }
    }
  }

  lemma {:induction false} RunRechecked(l: Limits, es: seq<Event>, ss: seq<State>, k: nat)
    requires Run(l, es, ss) && k <= |es|
    ensures KeysAnswered(es, ss, k) && CandidatesRechecked(es, ss, k)
  {
    if k > 0 {
      RunRechecked(l, es, ss, k - 1);
      KeysAnsweredNext(l, es, ss, k - 1);
      CandidatesNext(l, es, ss, k - 1);
    }
  }

  /** Event k said that a listed key has metadata. */
  predicate KeyMatched(es: seq<Event>, ss: seq<State>, k: nat, x: Entry) {
    && k < |es| < |ss| && es[k].Matches? && ss[k].phase.Matching? && es[k].found.Some? && |es[k].found.value| == |ss[k].phase.keys|
    && x.source.KeyOf? && x.finding == METADATA_FOUND
    && exists y :: 0 <= y < |ss[k].phase.keys| && ss[k].phase.keys[y] == x.source.key && es[k].found.value[y]
  }

  /** The report at event k books a rechecked key; an orphan is a candidate only when the report can be complete. */
  ghost predicate KeyBooked(es: seq<Event>, ss: seq<State>, k: nat, x: Entry) {
    && k < |es| < |ss| && es[k] == Finish && x.source.KeyOf?
    && exists f: Finding ::
         Rechecked(es, ss, k, Candidate(x.source.key, f)) &&
         x.finding == if f.classification == OrphanCandidate && !CanPromote(ss[k]) then f.(classification := OrphanObservation) else f
  }

  /** The report at event k books a key that was not rechecked. */
  predicate KeyUnchecked(es: seq<Event>, ss: seq<State>, k: nat, x: Entry) {
    && k < |es| < |ss| && es[k] == Finish && x.source.KeyOf? && x.finding == Seen(OrphanObservation, Unknown, false)
    && x.source.key in ss[k].keys.provisional && !Processed(ss[k].candidates, x.source.key)
  }

  lemma FinishBooks(es: seq<Event>, ss: seq<State>, k: nat, n: nat)
    requires k < |es| < |ss| && es[k] == Finish && CandidatesRechecked(es, ss, k)
    requires |ss[k].book.log| <= n < |MakeReport(ss[k]).book.log|
    ensures var x := MakeReport(ss[k]).book.log[n]; KeyBooked(es, ss, k, x) || KeyUnchecked(es, ss, k, x)
  {
    var s, x := ss[k], MakeReport(ss[k]).book.log[n];
    FinishEntries(s, n);
    if c :| 0 <= c < |s.candidates| && x == Entry(KeyOf(s.candidates[c].key), Promoted(s.candidates[c].finding, CanPromote(s))) {
      assert Rechecked(es, ss, k, s.candidates[c]) && s.candidates[c] == Candidate(x.source.key, s.candidates[c].finding);
    }
  }

  /** Every entry about a key rests on the metadata found at its listing, on both rechecks, or says that it was not rechecked. */
  lemma KeyEntryExact(l: Limits, es: seq<Event>, ss: seq<State>, n: nat)
    requires Run(l, es, ss) && n < |ss[|es|].book.log| && ss[|es|].book.log[n].source.KeyOf?
    ensures var x := ss[|es|].book.log[n];
            exists k :: Recorded(ss, k, n) && (KeyMatched(es, ss, k, x) || KeyBooked(es, ss, k, x) || KeyUnchecked(es, ss, k, x))
  {
    var x := ss[|es|].book.log[n];
    var k := RecordedBy(l, es, ss, |es|, n);
    var s, e := ss[k], es[k];
    assert ss[k + 1] == Step(l, s, e);
    if e.Matches? && !Single(s, e) {
      var y := SortEntries(s.book, s.keys.provisional, s.phase.keys, e.found.value, n);
      assert KeyMatched(es, ss, k, x);
    } else if e.Finish? {
      RunRechecked(l, es, ss, k);
      FinishBooks(es, ss, k, n);
    } else {
      WorkerRecords(l, s, e, n);
      assert false;
    }
  }
}
