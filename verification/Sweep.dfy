/** One reconciliation run (`reconcileMedia`, src/media/reconciliation.ts:118-202) as a machine driven by the answers of
    the database and the provider. Workers of a batch interleave: their answers arrive in any order. */
module Sweep {
  import opened Prelude
  import opened Samples

  type Id = nat
  type Key = string

  datatype Status = PendingStatus | QuarantinedStatus | UploadedStatus | ActiveStatus | DeletedStatus | OtherStatus

  /** The columns of an asset the run looks at. Ids are compared only by their order. */
  datatype Row = Row(id: Id, configured: bool, key: Key, version: string, jobNeedsReconciliation: bool, purged: bool,
                     deleted: bool, deletionRequested: bool, pending: bool, held: bool, status: Status)

  /** `lifecycle`: what an asset should look like against what storage has. */
  function Lifecycle(row: Row, present: bool): Classification {
    if row.jobNeedsReconciliation then ReconciliationRequired
    else if row.purged then if present then PurgedObjectPresent else PurgedAbsent
    else if row.deleted || row.deletionRequested || row.status.DeletedStatus? then DeletionInProgress
    else if row.pending then PendingUpload
    else if row.status.PendingStatus? then IncompleteUpload
    else if row.status.QuarantinedStatus? then Quarantined
    else if row.status.UploadedStatus? then UploadedUnverified
    else if row.status.ActiveStatus? then if present then ActiveExists else ActiveMissing
    else Uncertain
  }

  datatype Limits = Limits(tenants: nat, pageSize: nat, maxDatabasePages: nat, maxInventoryPages: nat, concurrency: nat)

  /** Where the run stands; `Report` once it has returned. */
  datatype Phase = Database | Batch | DatabaseOver | Inventory | Matching(keys: seq<Key>, last: bool) | Recheck | Report

  /** What a report entry is about. */
  datatype Source = RowOf(tenant: nat, id: Id) | KeyOf(key: Key) | Failing

  /** What the reference of an entry names: its row or key, or the call that failed. */
  datatype Site = Itself | Scan | AtRow(id: Id) | AtListing | AtCandidate

  /** What an entry says. */
  datatype Finding = Finding(classification: Classification, storage: Presence, held: bool, failure: Option<Failure>, site: Site)

  function Seen(c: Classification, storage: Presence, held: bool): Finding { Finding(c, storage, held, None, Itself) }

  function FailedCall(failure: Failure, site: Site): Finding { Finding(Uncertain, Unknown, false, Some(failure), site) }

  /** The failure codes of the provider. */
  predicate FromStorage(f: Failure) { !f.DatabaseFailure? && !f.MetadataConfiguration? }

  function PresenceOf(present: bool): Presence { if present then Exists else Missing }

  datatype Entry = Entry(source: Source, finding: Finding)

  datatype Candidate = Candidate(key: Key, finding: Finding)

  /** A worker's item: nothing known yet, or the provider's answer known. */
  datatype Progress = Started | Observed(present: bool)

  /** What went wrong so far. */
  datatype Flags = Flags(aborted: bool, dbFailed: bool, storageFailed: bool, configurationFailed: bool)

  /** The database sweep. `fetched` is history: every row handed to a batch. */
  datatype Pages = Pages(tenant: nat, after: Option<Id>, pages: nat, finished: nat, databaseRows: nat, complete: bool,
                         fetched: set<Source>)

  /** The current batch: its rows, how many items were taken, the items with a call outstanding. */
  datatype Work = Work(rows: seq<Row>, taken: nat, open: map<nat, Progress>)

  /** The inventory. */
  datatype Keys = Keys(listings: nat, seen: set<Key>, objects: nat, complete: bool, provisional: seq<Key>)

  /** The counters of the report; `log` is history: everything recorded. */
  datatype Book = Book(counts: map<Classification, nat>, log: seq<Entry>)

  datatype State = State(phase: Phase, flags: Flags, pages: Pages, work: Work, keys: Keys, candidates: seq<Candidate>,
                         complete: bool, book: Book)

  const START: State := State(Database, Flags(false, false, false, false), Pages(0, None, 0, 0, 0, false, {}),
                              Work([], 0, map[]), Keys(0, {}, 0, false, []), [], false, Book(map[], []))

  /** Answers, and the scheduler's choices. None is a failed call to the database, Err one to the provider. */
  datatype Event =
    | Abort
    | Page(rows: Option<seq<Row>>)
    | Take
    | HeadRow(i: nat, answer: Result<bool, Failure>)
    | Reread(i: nat, row: Option<Option<Row>>)
    | EndBatch
    | EndDatabase
    | List(keys: Result<seq<Key>, Failure>, last: bool, tokenFresh: bool)
    | Matches(found: Option<seq<bool>>)
    | EndInventory
    | HeadKey(i: nat, answer: Result<bool, Failure>)
    | Probe(i: nat, metadata: Option<bool>)
    | Finish

  // ---------------------------------------------------------------- recording

  function Enter(b: Book, source: Source, f: Finding): Book {
    Book(Increment(b.counts, f.classification), b.log + [Entry(source, f)])
  }

  function Record(s: State, source: Source, f: Finding): State { s.(book := Enter(s.book, source, f)) }

  function DbFailure(s: State): State {
    Record(s, Failing, FailedCall(DatabaseFailure, Scan)).(flags := s.flags.(dbFailed := true))
  }

  function StorageFailure(s: State, failure: Failure, site: Site): State {
    Record(s, Failing, FailedCall(failure, site)).(flags := s.flags.(storageFailed := true))
  }

  // ---------------------------------------------------------------- database phase

  /** Each row after the one before it, the first after the last row of the page before. */
  predicate Increasing(rows: seq<Row>, after: Option<Id>) {
    && (rows != [] && after.Some? ==> rows[0].id > after.value)
    && forall i :: 0 <= i < |rows| - 1 ==> rows[i].id < rows[i + 1].id
  }

  function RowSources(tenant: nat, rows: seq<Row>): set<Source> { set i | 0 <= i < |rows| :: RowOf(tenant, rows[i].id) }

  function Fetch(p: Pages, rows: seq<Row>): Pages {
    p.(pages := p.pages + 1, databaseRows := p.databaseRows + |rows|, fetched := p.fetched + RowSources(p.tenant, rows))
  }

  function TakePage(l: Limits, s: State, answer: Option<seq<Row>>): State {
    if answer.None? then DbFailure(s).(phase := DatabaseOver)
    else if |answer.value| > l.pageSize || !Increasing(answer.value, s.pages.after) then
      DbFailure(s).(phase := DatabaseOver, pages := s.pages.(pages := s.pages.pages + 1))
    else s.(phase := Batch, pages := Fetch(s.pages, answer.value), work := Work(answer.value, 0, map[]))
  }

  function Taken(w: Work, open: bool): Work {
    w.(taken := w.taken + 1, open := if open then w.open[w.taken := Started] else w.open)
  }

  /** A worker takes the next item; one that is not stored here is recorded at once. */
  function TakeRow(s: State): State
    requires s.work.taken < |s.work.rows|
  {
    var row := s.work.rows[s.work.taken];
    if row.configured then s.(work := Taken(s.work, true))
    else
      Record(s, RowOf(s.pages.tenant, row.id), FailedCall(MetadataConfiguration, Itself))
        .(work := Taken(s.work, false), flags := s.flags.(configurationFailed := true))
  }

  function Close(s: State, i: nat): State { s.(work := s.work.(open := s.work.open - {i})) }

  function AfterHead(s: State, i: nat, answer: Result<bool, Failure>, site: Site): State {
    if answer.Err? then StorageFailure(Close(s, i), answer.error, site)
    else s.(work := s.work.(open := s.work.open[i := Observed(answer.value)]))
  }

  /** A row gone or changed since the page was read is only that; otherwise its state is judged. */
  function RereadFinding(before: Row, now: Option<Row>, present: bool): Finding {
    if now.None? || now.value.version != before.version then Seen(LifecycleChanged, Unknown, false)
    else Seen(Lifecycle(now.value, present), PresenceOf(present), now.value.held)
  }

  function AfterReread(s: State, i: nat, present: bool, answer: Option<Option<Row>>): State
    requires i < |s.work.rows|
  {
    if answer.None? then DbFailure(Close(s, i))
    else
      Record(Close(s, i), RowOf(s.pages.tenant, s.work.rows[i].id), RereadFinding(s.work.rows[i], answer.value, present))
  }

  /** A short page completes the tenant; otherwise the next page starts after the last row. */
  function Advance(p: Pages, rows: seq<Row>, completes: bool): Pages {
    if completes then p.(finished := p.finished + 1, tenant := p.tenant + 1, after := None)
    else if rows == [] then p
    else p.(after := Some(rows[|rows| - 1].id))
  }

  function NextPage(l: Limits, s: State): State {
    s.(phase := Database, work := Work([], 0, map[]),
       pages := Advance(s.pages, s.work.rows, |s.work.rows| < l.pageSize && !s.flags.aborted && !s.flags.dbFailed))
  }

  // ---------------------------------------------------------------- inventory phase

  predicate Distinct(keys: seq<Key>) { forall i, j :: 0 <= i < j < |keys| ==> keys[i] != keys[j] }

  predicate Fresh(keys: seq<Key>, seen: set<Key>) { forall i :: 0 <= i < |keys| ==> keys[i] != "" && keys[i] !in seen }

  predicate ListingAllowed(l: Limits, k: Keys, keys: seq<Key>, last: bool, tokenFresh: bool) {
    |keys| <= l.pageSize && Fresh(keys, k.seen) && Distinct(keys) && (last || (tokenFresh && keys != []))
  }

  function Over(l: Limits, k: Keys): Keys { k.(listings := l.maxInventoryPages) }

  function See(k: Keys, keys: seq<Key>): Keys {
    k.(listings := k.listings + 1, seen := k.seen + (set x | x in keys), objects := k.objects + |keys|)
  }

  function TakeListing(l: Limits, s: State, keys: Result<seq<Key>, Failure>, last: bool, tokenFresh: bool): State {
    if keys.Err? || !ListingAllowed(l, s.keys, keys.value, last, tokenFresh) then
      StorageFailure(s, if keys.Err? then keys.error else ProtocolFailure, AtListing).(keys := Over(l, s.keys))
    else s.(phase := Matching(keys.value, last), keys := See(s.keys, keys.value))
  }

  const METADATA_FOUND: Finding := Seen(MetadataObject, Exists, false)

  const NOT_RECHECKED: Finding := Seen(OrphanObservation, Unknown, false)

  /** Keys with metadata are recorded, the others wait. */
  function SortKeys(b: Book, provisional: seq<Key>, keys: seq<Key>, found: seq<bool>): (Book, seq<Key>)
    requires |keys| == |found|
    decreases |keys|
  {
    if keys == [] then (b, provisional)
    else if found[0] then SortKeys(Enter(b, KeyOf(keys[0]), METADATA_FOUND), provisional, keys[1..], found[1..])
    else SortKeys(b, provisional + [keys[0]], keys[1..], found[1..])
  }

  function TakeMatches(l: Limits, s: State, keys: seq<Key>, last: bool, found: Option<seq<bool>>): State {
    if found.None? || |found.value| != |keys| then DbFailure(s).(phase := Inventory, keys := Over(l, s.keys))
    else
      var (book, provisional) := SortKeys(s.book, s.keys.provisional, keys, found.value);
      var k := s.keys.(provisional := provisional);
      s.(phase := Inventory, book := book, keys := if last then Over(l, k).(complete := true) else k)
  }

  /** The recheck happens only on complete evidence. */
  predicate MayRecheck(s: State) { s.keys.complete && s.pages.complete && !s.flags.dbFailed && !s.flags.aborted }

  function ProbeFinding(present: bool, found: bool): Finding {
    Seen(if found then MetadataObject else if !present then InventoryChanged else OrphanCandidate, PresenceOf(present), false)
  }

  function AfterProbe(s: State, i: nat, present: bool, found: Option<bool>): State
    requires i < |s.keys.provisional|
  {
    if found.None? then DbFailure(Close(s, i))
    else Close(s, i).(candidates := s.candidates + [Candidate(s.keys.provisional[i], ProbeFinding(present, found.value))])
  }

  // ---------------------------------------------------------------- the report

  predicate Clean(f: Flags) { !f.dbFailed && !f.storageFailed && !f.configurationFailed }

  predicate CanPromote(s: State) { s.pages.complete && s.keys.complete && Clean(s.flags) && !s.flags.aborted }

  function Promoted(f: Finding, promote: bool): Finding {
    if f.classification.OrphanCandidate? && !promote then f.(classification := OrphanObservation) else f
  }

  function BookCandidates(b: Book, cs: seq<Candidate>, promote: bool): Book
    decreases |cs|
  {
    if cs == [] then b
    else BookCandidates(Enter(b, KeyOf(cs[0].key), Promoted(cs[0].finding, promote)), cs[1..], promote)
  }

  predicate Processed(cs: seq<Candidate>, key: Key) { exists i :: 0 <= i < |cs| && cs[i].key == key }

  function BookUnprocessed(b: Book, keys: seq<Key>, cs: seq<Candidate>): Book
    decreases |keys|
  {
    if keys == [] then b
    else BookUnprocessed(if Processed(cs, keys[0]) then b else Enter(b, KeyOf(keys[0]), NOT_RECHECKED), keys[1..], cs)
  }

  function MakeReport(s: State): State {
    s.(phase := Report, complete := CanPromote(s),
       book := BookUnprocessed(BookCandidates(s.book, s.candidates, CanPromote(s)), s.keys.provisional, s.candidates))
  }

  // ---------------------------------------------------------------- steps

  predicate BatchOver(s: State, items: nat) { s.work.open == map[] && (s.work.taken >= items || s.flags.aborted) }

  predicate Enabled(l: Limits, s: State, e: Event) {
    match e
    case Abort => s.phase != Report
    case Page(_) =>
      s.phase.Database? && s.pages.tenant < l.tenants && !s.flags.aborted && s.pages.pages < l.maxDatabasePages
    case Take =>
      && !s.flags.aborted && |s.work.open| < l.concurrency
      && ((s.phase.Batch? && s.work.taken < |s.work.rows|) || (s.phase.Recheck? && s.work.taken < |s.keys.provisional|))
    case HeadRow(i, answer) =>
      s.phase.Batch? && i < |s.work.rows| && i in s.work.open && s.work.open[i].Started? && (answer.Err? ==> FromStorage(answer.error))
    case Reread(i, _) => s.phase.Batch? && i < |s.work.rows| && i in s.work.open && s.work.open[i].Observed?
    case EndBatch => s.phase.Batch? && BatchOver(s, |s.work.rows|)
    case EndDatabase =>
      || s.phase.DatabaseOver?
      || (s.phase.Database? &&
          (s.pages.tenant >= l.tenants || s.flags.aborted || s.pages.pages >= l.maxDatabasePages))
    case List(keys, _, _) =>
      && s.phase.Inventory? && s.keys.listings < l.maxInventoryPages && !s.flags.aborted
      && (keys.Err? ==> FromStorage(keys.error))
    case Matches(_) => s.phase.Matching?
    case EndInventory => s.phase.Inventory? && (s.keys.listings >= l.maxInventoryPages || s.flags.aborted)
    case HeadKey(i, answer) =>
      s.phase.Recheck? && i in s.work.open && s.work.open[i].Started? && (answer.Err? ==> FromStorage(answer.error))
    case Probe(i, _) => s.phase.Recheck? && i < |s.keys.provisional| && i in s.work.open && s.work.open[i].Observed?
    case Finish => s.phase.Recheck? && BatchOver(s, |s.keys.provisional|)
  }

  function Step(l: Limits, s: State, e: Event): State
    requires Enabled(l, s, e)
  {
    match e
    case Abort => s.(flags := s.flags.(aborted := true))
    case Page(rows) => TakePage(l, s, rows)
    case Take => if s.phase.Batch? then TakeRow(s) else s.(work := Taken(s.work, true))
    case HeadRow(i, answer) => AfterHead(s, i, answer, AtRow(s.work.rows[i].id))
    case Reread(i, answer) => AfterReread(s, i, s.work.open[i].present, answer)
    case EndBatch => NextPage(l, s)
    case EndDatabase =>
      s.(phase := Inventory,
         pages := s.pages.(complete := s.pages.finished == l.tenants && !s.flags.dbFailed && !s.flags.aborted))
    case List(keys, last, tokenFresh) => TakeListing(l, s, keys, last, tokenFresh)
    case Matches(found) => TakeMatches(l, s, s.phase.keys, s.phase.last, found)
    case EndInventory =>
      s.(phase := Recheck, work := Work([], if MayRecheck(s) then 0 else |s.keys.provisional|, map[]))
    case HeadKey(i, answer) => AfterHead(s, i, answer, AtCandidate)
    case Probe(i, metadata) => AfterProbe(s, i, s.work.open[i].present, metadata)
    case Finish => MakeReport(s)
  }

  /** The states of a run, one more than its events. */
  predicate Run(l: Limits, es: seq<Event>, ss: seq<State>) {
    && |ss| == |es| + 1 && ss[0] == START
    && forall k :: 0 <= k < |es| ==> Enabled(l, ss[k], es[k]) && ss[k + 1] == Step(l, ss[k], es[k])
  }
}
