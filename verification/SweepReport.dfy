/** The samples and failure counters of whole sweeps (src/media/reconciliation.ts:75-202): everything a run records goes
    through `record`, so what `Samples` says of declared observations holds of every run. */
module SweepReport {
  import opened Prelude
  import opened SortedLists
  import opened Selection
  import opened Streaming
  import opened Samples
  import opened Sweep
  import opened SweepProofs

  /** The keyed hash of what an entry is about. */
  type Reference = (Source, Site) -> string

  function ObservationOf(ref: Reference, e: Entry): Observation {
    Observation(ref(e.source, e.finding.site), e.finding.classification, e.finding.storage, e.finding.held, e.finding.failure)
  }

  function Observations(ref: Reference, log: seq<Entry>): (os: seq<Observation>)
    ensures |os| == |log| && forall n :: 0 <= n < |log| ==> os[n] == ObservationOf(ref, log[n])
  {
    seq(|log|, n requires 0 <= n < |log| => ObservationOf(ref, log[n]))
  }

  // ---------------------------------------------------------------- what a step records

  /** Who a failure is counted against. */
  datatype Cause = DatabaseCause | StorageCause | ConfigurationCause

  function CauseOf(f: Failure): Cause {
    if f.DatabaseFailure? then DatabaseCause else if f.MetadataConfiguration? then ConfigurationCause else StorageCause
  }

  predicate Flagged(f: Flags, c: Cause) {
    match c case DatabaseCause => f.dbFailed case StorageCause => f.storageFailed case ConfigurationCause => f.configurationFailed
  }

  /** Some entry has a failure of this cause. */
  predicate Caused(log: seq<Entry>, c: Cause) {
    exists n :: 0 <= n < |log| && log[n].finding.failure.Some? && CauseOf(log[n].finding.failure.value) == c
  }

  predicate DeclaredEntry(e: Entry) { e.finding.failure.Some? ==> e.finding.classification.Uncertain? }

  predicate AllDeclared(log: seq<Entry>) { forall n :: 0 <= n < |log| ==> DeclaredEntry(log[n]) }

  predicate Plain(log: seq<Entry>) { forall n :: 0 <= n < |log| ==> log[n].finding.failure.None? }

  predicate PlainCandidates(cs: seq<Candidate>) { forall n :: 0 <= n < |cs| ==> cs[n].finding.failure.None? }

  lemma CausedMore(log: seq<Entry>, added: seq<Entry>, c: Cause)
    ensures Caused(log + added, c) <==> Caused(log, c) || Caused(added, c)
  {
    var all := log + added;
    if Caused(log, c) {
      var n :| 0 <= n < |log| && log[n].finding.failure.Some? && CauseOf(log[n].finding.failure.value) == c;
      assert all[n] == log[n];
    }
    if Caused(added, c) {
      var n :| 0 <= n < |added| && added[n].finding.failure.Some? && CauseOf(added[n].finding.failure.value) == c;
      assert all[|log| + n] == added[n];
    }
  }

  lemma CausedOne(e: Entry, c: Cause)
    ensures Caused([e], c) <==> e.finding.failure.Some? && CauseOf(e.finding.failure.value) == c
  {
    assert [e][0] == e;
  }

  lemma {:induction false} SortAdds(b: Book, provisional: seq<Key>, keys: seq<Key>,
                                    found: seq<bool>) returns (added: seq<Entry>)
    requires |keys| == |found|
    ensures SortKeys(b, provisional, keys, found).0.log == b.log + added && Plain(added)
    decreases |keys|
  {
    if keys == [] {
      added := [];
    } else if found[0] {
      var e := Entry(KeyOf(keys[0]), METADATA_FOUND);
      var more := SortAdds(Enter(b, e.source, e.finding), provisional, keys[1..], found[1..]);
      added := [e] + more;
      assert b.log + [e] + more == b.log + added;
    } else {
      added := SortAdds(b, provisional + [keys[0]], keys[1..], found[1..]);
    }
  }

  lemma {:induction false} CandidatesAdd(b: Book, cs: seq<Candidate>, promote: bool) returns (added: seq<Entry>)
    requires PlainCandidates(cs)
    ensures BookCandidates(b, cs, promote).log == b.log + added && Plain(added)
    decreases |cs|
  {
    if cs == [] {
      added := [];
    } else {
      var e := Entry(KeyOf(cs[0].key), Promoted(cs[0].finding, promote));
      var more := CandidatesAdd(Enter(b, e.source, e.finding), cs[1..], promote);
      added := [e] + more;
      assert b.log + [e] + more == b.log + added;
    }
  }

  lemma {:induction false} UnprocessedAdd(b: Book, keys: seq<Key>, cs: seq<Candidate>) returns (added: seq<Entry>)
    ensures BookUnprocessed(b, keys, cs).log == b.log + added && Plain(added)
    decreases |keys|
  {
    if keys == [] {
      added := [];
    } else if Processed(cs, keys[0]) {
      added := UnprocessedAdd(b, keys[1..], cs);
    } else {
      var e := Entry(KeyOf(keys[0]), NOT_RECHECKED);
      var more := UnprocessedAdd(Enter(b, e.source, e.finding), keys[1..], cs);
      added := [e] + more;
      assert b.log + [e] + more == b.log + added;
    }
  }

  lemma FinishAdds(s: State) returns (added: seq<Entry>)
    requires PlainCandidates(s.candidates)
    ensures MakeReport(s).book.log == s.book.log + added && Plain(added)
  {
    var first := CandidatesAdd(s.book, s.candidates, CanPromote(s));
    var second := UnprocessedAdd(BookCandidates(s.book, s.candidates, CanPromote(s)), s.keys.provisional, s.candidates);
    added := first + second;
    assert s.book.log + first + second == s.book.log + added;
  }

  /** What one step adds to the log: nothing, one entry, or entries without failures. */
  predicate Adds(before: Flags, after: Flags, added: seq<Entry>) {
    (Plain(added) && Unraised(before, after)) || (|added| == 1 && AddsFailure(before, after, added[0]))
  }

  predicate Unraised(before: Flags, after: Flags) {
    && after.dbFailed == before.dbFailed && after.storageFailed == before.storageFailed
    && after.configurationFailed == before.configurationFailed
  }

  predicate AddsFailure(before: Flags, after: Flags, e: Entry) {
    && DeclaredEntry(e) && e.finding.failure.Some?
    && var c := CauseOf(e.finding.failure.value);
       && after.dbFailed == (before.dbFailed || c.DatabaseCause?)
       && after.storageFailed == (before.storageFailed || c.StorageCause?)
       && after.configurationFailed == (before.configurationFailed || c.ConfigurationCause?)
  }

  /** A step that neither sorts a listing nor makes the report. */
  predicate Single(s: State,
                   e: Event) { !(e.Matches? && s.phase.Matching? && e.found.Some? && |e.found.value| == |s.phase.keys|) && !e.Finish? }

  predicate OneMore(s: State, t: State, x: Entry) {
    t.book.log == s.book.log + [x] && (AddsFailure(s.flags, t.flags, x) || (x.finding.failure.None? && Unraised(s.flags, t.flags)))
  }

  predicate AtMostOne(s: State, t: State) {
    (t.book.log == s.book.log && Unraised(s.flags, t.flags)) || (|t.book.log| == |s.book.log| + 1 && OneMore(s, t, t.book.log[|s.book.log|]))
  }

  predicate OfWorker(e: Event) { e.Take? || e.HeadRow? || e.Reread? || e.HeadKey? || e.Probe? }

  lemma WorkerAdds(l: Limits, s: State, e: Event)
    requires Enabled(l, s, e) && OfWorker(e)
    ensures AtMostOne(s, Step(l, s, e))
  {
  }

  lemma PageAdds(l: Limits, s: State, e: Event)
    requires Enabled(l, s, e) && Single(s, e) && !OfWorker(e)
    ensures AtMostOne(s, Step(l, s, e))
  {
  }

  lemma CandidatesStayPlain(l: Limits, s: State, e: Event)
    requires Enabled(l, s, e) && PlainCandidates(s.candidates)
    ensures PlainCandidates(Step(l, s, e).candidates)
  {
  }

  lemma StepAdds(l: Limits, s: State, e: Event) returns (added: seq<Entry>)
    requires Enabled(l, s, e) && PlainCandidates(s.candidates)
    ensures Step(l, s, e).book.log == s.book.log + added && Adds(s.flags, Step(l, s, e).flags, added)
  {
    if !Single(s, e) {
      if e.Finish? {
        added := FinishAdds(s);
      } else {
        added := SortAdds(s.book, s.keys.provisional, s.phase.keys, e.found.value);
      }
    } else {
      var t := Step(l, s, e);
      if OfWorker(e) {
        WorkerAdds(l, s, e);
      } else {
        PageAdds(l, s, e);
      }
      added := if t.book.log == s.book.log then [] else [t.book.log[|s.book.log|]];
    }
  }

  lemma AddsDeclared(before: Flags, after: Flags, log: seq<Entry>, added: seq<Entry>)
    requires Adds(before, after, added) && AllDeclared(log) && forall c :: Flagged(before, c) <==> Caused(log, c)
    ensures AllDeclared(log + added) && forall c :: Flagged(after, c) <==> Caused(log + added, c)
  {
    forall c ensures Flagged(after, c) <==> Caused(log + added, c) {
      CausedMore(log, added, c);
      if |added| == 1 {
        CausedOne(added[0], c);
        assert added == [added[0]];
      }
    }
  }

  // ---------------------------------------------------------------- runs

  lemma {:induction false} RunDeclared(l: Limits, es: seq<Event>, ss: seq<State>, k: nat)
    requires Run(l, es, ss) && k <= |es|
    ensures AllDeclared(ss[k].book.log) && PlainCandidates(ss[k].candidates)
    ensures forall c :: Flagged(ss[k].flags, c) <==> Caused(ss[k].book.log, c)
  {
    if k > 0 {
      var j := k - 1;
      RunDeclared(l, es, ss, j);
      assert ss[j + 1] == Step(l, ss[j], es[j]);
      var added := StepAdds(l, ss[j], es[j]);
      CandidatesStayPlain(l, ss[j], es[j]);
      AddsDeclared(ss[j].flags, ss[k].flags, ss[j].book.log, added);
    }
  }

  /** Nothing recorded is taken back or changed. */
  lemma {:induction false} LogGrows(l: Limits, es: seq<Event>, ss: seq<State>, j: nat, k: nat)
    requires Run(l, es, ss) && j <= k <= |es|
    ensures |ss[j].book.log| <= |ss[k].book.log| && ss[k].book.log[..|ss[j].book.log|] == ss[j].book.log
    decreases k
  {
    if j < k {
      var i := k - 1;
      LogGrows(l, es, ss, j, i);
      RunDeclared(l, es, ss, i);
      assert ss[i + 1] == Step(l, ss[i], es[i]);
      var added := StepAdds(l, ss[i], es[i]);
    }
  }

  /** Each of the three failure flags is set exactly when a failure of its kind has been recorded, so a report is promoted
      exactly when its counters show none. */
  lemma FlagsAreFailures(l: Limits, es: seq<Event>, ss: seq<State>, k: nat)
    requires Run(l, es, ss) && k <= |es|
    ensures ss[k].flags.dbFailed <==> Caused(ss[k].book.log, DatabaseCause)
    ensures ss[k].flags.storageFailed <==> Caused(ss[k].book.log, StorageCause)
    ensures ss[k].flags.configurationFailed <==> Caused(ss[k].book.log, ConfigurationCause)
  {
    RunDeclared(l, es, ss, k);
    assert Flagged(ss[k].flags, DatabaseCause) == ss[k].flags.dbFailed;
    assert Flagged(ss[k].flags, StorageCause) == ss[k].flags.storageFailed;
    assert Flagged(ss[k].flags, ConfigurationCause) == ss[k].flags.configurationFailed;
  }

  lemma ObservationsDeclared(ref: Reference, log: seq<Entry>)
    requires AllDeclared(log)
    ensures forall o :: o in Observations(ref, log) ==> Declared(o)
  {
    var os := Observations(ref, log);
    forall o | o in os ensures Declared(o) {
      var n :| 0 <= n < |os| && os[n] == o;
      assert DeclaredEntry(log[n]);
    }
  }

  /** In no run, whatever the database and the provider answer and however the workers are scheduled, does recording throw:
      every observation still fits the samples kept from the ones before it. */
  lemma NeverThrows(l: Limits, es: seq<Event>, ss: seq<State>, ref: Reference, locale: Less<Observation>, n: nat)
    requires Run(l, es, ss) && StrictTotal(locale) && n < |ss[|es|].book.log|
    ensures var os := Observations(ref, ss[|es|].book.log);
            Rules(locale).Fits(Rules(locale).Scan(os[..n]).samples, os[n])
  {
    var log := ss[|es|].book.log;
    var os := Observations(ref, log);
    RunDeclared(l, es, ss, |es|);
    ObservationsDeclared(ref, log);
    forall p | p in os[..n] ensures Declared(p) {
      var i :| 0 <= i < n && os[..n][i] == p;
      assert os[i] == p;
    }
    AlwaysActionable(locale, os[..n], os[n]);
  }

  /** The samples of any run are the one-shot selection from its notable entries, and say truncated exactly when there
      were more than fifty different ones. */
  lemma ReportSamples(l: Limits, es: seq<Event>, ss: seq<State>, ref: Reference, locale: Less<Observation>)
    requires Run(l, es, ss) && StrictTotal(locale)
    ensures var os, rules := Observations(ref, ss[|es|].book.log), Rules(locale); var all := rules.listing(rules.Notable(os));
            |Champions(ClassOf, all)| <= SAMPLE_LIMIT &&
            rules.Scan(os) == Kept(Select(ClassOf, all, SAMPLE_LIMIT), |all| > SAMPLE_LIMIT)
  {
    RunDeclared(l, es, ss, |es|);
    ObservationsDeclared(ref, ss[|es|].book.log);
    ScanIsOneShot(locale, Observations(ref, ss[|es|].book.log));
  }

  /** Whatever notable a run records, its samples hold one of that class, and the first sample is at least as severe. */
  lemma ReportShows(l: Limits, es: seq<Event>, ss: seq<State>, ref: Reference, locale: Less<Observation>, n: nat)
      returns (x: Observation)
    requires Run(l, es, ss) && StrictTotal(locale) && n < |ss[|es|].book.log|
    requires Samples.Notable(ObservationOf(ref, ss[|es|].book.log[n]))
    ensures var samples, y := Rules(locale).Scan(Observations(ref, ss[|es|].book.log)).samples, ObservationOf(ref, ss[|es|].book.log[n]);
            x in samples && Alike(x, y) && Severity(samples[0]) <= Severity(y)
  {
    var os := Observations(ref, ss[|es|].book.log);
    RunDeclared(l, es, ss, |es|);
    ObservationsDeclared(ref, ss[|es|].book.log);
    assert os[n] in os;
    x := SamplesShow(locale, os, os[n]);
  }

  /** Two runs that record the same notable things, whatever their order, report the same samples. */
  lemma SameSamples(l: Limits, es: seq<Event>, ss: seq<State>, fs: seq<Event>, ts: seq<State>, ref: Reference,
                    locale: Less<Observation>)
    requires Run(l, es, ss) && Run(l, fs, ts) && StrictTotal(locale)
    requires var a, b := Observations(ref, ss[|es|].book.log), Observations(ref, ts[|fs|].book.log);
             forall o :: !Ordinary(o) ==> (o in a <==> o in b)
    ensures Rules(locale).Scan(Observations(ref, ss[|es|].book.log)) == Rules(locale).Scan(Observations(ref, ts[|fs|].book.log))
  {
    RunDeclared(l, es, ss, |es|);
    RunDeclared(l, fs, ts, |fs|);
    ObservationsDeclared(ref, ss[|es|].book.log);
    ObservationsDeclared(ref, ts[|fs|].book.log);
    OrderIndependent(locale, Observations(ref, ss[|es|].book.log), Observations(ref, ts[|fs|].book.log));
  }
}
