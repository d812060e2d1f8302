/** How a sweep goes through its pages and listings (`reconcileMedia`, src/media/reconciliation.ts:118-180), over all runs. */
module SweepPaging {
  import opened Prelude
  import opened Samples
  import opened Sweep

  /** Event j: a listing that was accepted. */
  predicate Listed(es: seq<Event>, ss: seq<State>, j: nat)
    requires j < |es| < |ss|
  {
    es[j].List? && es[j].keys.Ok? && ss[j + 1].phase.Matching?
  }

  predicate ListedBefore(es: seq<Event>, ss: seq<State>, k: nat, key: Key)
    requires k <= |es| < |ss|
  {
    exists j :: 0 <= j < k && Listed(es, ss, j) && key in es[j].keys.value
  }

  lemma StepSees(l: Limits, s: State, e: Event)
    requires Enabled(l, s, e)
    ensures var t := Step(l, s, e);
            t.keys.seen == s.keys.seen + if e.List? && e.keys.Ok? && t.phase.Matching? then set x | x in e.keys.value else {}
  {
  }

  lemma ListedNext(es: seq<Event>, ss: seq<State>, k: nat, key: Key)
    requires k < |es| < |ss|
    ensures ListedBefore(es, ss, k + 1, key) <==> ListedBefore(es, ss, k, key) || (Listed(es, ss, k) && key in es[k].keys.value)
  {
    if ListedBefore(es, ss, k, key) {
      var j :| 0 <= j < k && Listed(es, ss, j) && key in es[j].keys.value;
      assert 0 <= j < k + 1;
    }
  }

  lemma {:induction false} SeenExact(l: Limits, es: seq<Event>, ss: seq<State>, k: nat, key: Key)
    requires Run(l, es, ss) && k <= |es|
    ensures key in ss[k].keys.seen <==> ListedBefore(es, ss, k, key)
    decreases k
  {
    if k > 0 {
      var j := k - 1;
      SeenExact(l, es, ss, j, key);
      assert ss[j + 1] == Step(l, ss[j], es[j]);
      StepSees(l, ss[j], es[j]);
      ListedNext(es, ss, j, key);
    }
  }

  /** A listing is accepted exactly when it is no longer than asked for, names no empty key, none twice and none listed
      before, and is the last one or brings keys and a token that is new. Any other answer is a storage failure. */
  lemma ListingExact(l: Limits, es: seq<Event>, ss: seq<State>, k: nat)
    requires Run(l, es, ss) && k < |es| && es[k].List?
    ensures Listed(es, ss, k) <==>
            es[k].keys.Ok? && var keys := es[k].keys.value;
            && |keys| <= l.pageSize && "" !in keys && (forall key :: key in keys ==> !ListedBefore(es, ss, k, key))
            && (forall i, j :: 0 <= i < j < |keys| ==> keys[i] != keys[j])
            && (es[k].last || (es[k].tokenFresh && keys != []))
    ensures !Listed(es, ss, k) ==>
              ss[k + 1].flags.storageFailed &&
              ss[k + 1].book.log ==
              ss[k].book.log + [Entry(Failing, Finding(Uncertain, Unknown, false,
                                                       Some(if es[k].keys.Err? then es[k].keys.error else ProtocolFailure), AtListing))]
  {
    var s, e := ss[k], es[k];
    assert ss[k + 1] == Step(l, s, e);
    if e.keys.Ok? {
      FreshExact(l, es, ss, k, e.keys.value);
    }
  }

  lemma FreshExact(l: Limits, es: seq<Event>, ss: seq<State>, k: nat, keys: seq<Key>)
    requires Run(l, es, ss) && k <= |es|
    ensures Fresh(keys, ss[k].keys.seen) <==> "" !in keys && forall key :: key in keys ==> !ListedBefore(es, ss, k, key)
  {
    forall key | key in keys ensures key in ss[k].keys.seen <==> ListedBefore(es, ss, k, key) { SeenExact(l, es, ss, k, key); }
    if Fresh(keys, ss[k].keys.seen) {
      forall key | key in keys ensures key != "" && key !in ss[k].keys.seen {
        var i :| 0 <= i < |keys| && keys[i] == key;
      }
    }
    if "" !in keys && forall key :: key in keys ==> !ListedBefore(es, ss, k, key) {
      forall i | 0 <= i < |keys| ensures keys[i] != "" && keys[i] !in ss[k].keys.seen { assert keys[i] in keys; }
    }
  }

  /** A tenant is finished by a page shorter than asked for, when nothing was aborted or failed; after any other page that
      has rows the sweep goes on behind its last row. */
  lemma PageEnds(l: Limits, es: seq<Event>, ss: seq<State>, k: nat)
    requires Run(l, es, ss) && k < |es| && es[k].EndBatch?
    ensures var rows, short := ss[k].work.rows, |ss[k].work.rows| < l.pageSize && !ss[k].flags.aborted && !ss[k].flags.dbFailed;
            && ss[k + 1].pages.finished == ss[k].pages.finished + (if short then 1 else 0)
            && ss[k + 1].pages.tenant == ss[k].pages.tenant + (if short then 1 else 0)
            && (short ==> ss[k + 1].pages.after == None)
            && (!short && rows != [] ==> ss[k + 1].pages.after == Some(rows[|rows| - 1].id))
  {
    assert ss[k + 1] == Step(l, ss[k], es[k]);
  }

  lemma StepOpens(l: Limits, s: State, e: Event)
    requires Enabled(l, s, e) && |s.work.open| <= l.concurrency
    ensures |Step(l, s, e).work.open| <= l.concurrency
  {
    match e
    case Take => assert |s.work.open[s.work.taken := Started]| <= |s.work.open| + 1;
    case _ =>
  }

  lemma StepWithin(l: Limits, s: State, e: Event)
    requires Enabled(l, s, e) && s.pages.pages <= l.maxDatabasePages && |s.work.rows| <= l.pageSize
    requires s.keys.listings <= l.maxInventoryPages && (s.phase.Matching? ==> |s.phase.keys| <= l.pageSize)
    ensures var t := Step(l, s, e);
            && t.pages.pages <= l.maxDatabasePages && |t.work.rows| <= l.pageSize
            && t.keys.listings <= l.maxInventoryPages && (t.phase.Matching? ==> |t.phase.keys| <= l.pageSize)
  {
  }

  /** No run asks for more pages or listings than it may, or for larger ones, or has more calls outstanding at a time. */
  lemma {:induction false} WithinBudget(l: Limits, es: seq<Event>, ss: seq<State>, k: nat)
    requires Run(l, es, ss) && k <= |es|
    ensures |ss[k].work.open| <= l.concurrency && |ss[k].work.rows| <= l.pageSize
    ensures ss[k].pages.pages <= l.maxDatabasePages && ss[k].keys.listings <= l.maxInventoryPages
    ensures ss[k].phase.Matching? ==> |ss[k].phase.keys| <= l.pageSize
    decreases k
  {
    if k > 0 {
      var j := k - 1;
      WithinBudget(l, es, ss, j);
      assert ss[j + 1] == Step(l, ss[j], es[j]);
      StepOpens(l, ss[j], es[j]);
      StepWithin(l, ss[j], es[j]);
    }
  }
}
