/** Delivery leases of one invitation (src/invitations/email.ts:424-482 and the functions of
    drizzle/0009_s1_04_invitation_delivery_lease.sql): attempts of any number of workers, the database that grants at most
    one lease at a time, and the terminal transitions it refuses meanwhile. Time is in milliseconds. Every worker has a
    clock of its own that runs at the rate of the database's. */
module InvitationLease {
  import opened Prelude

  const SAFETY_MS := 2000
  const MIN_WINDOW_MS := 1000
  const MIN_LEASE_SECONDS := 2
  const MAX_LEASE_SECONDS := 120
  const MARGIN_SECONDS := 15
  const MAX_SEND_TIMEOUT_MS := 30000

  /** How an attempt is set up: requested lease, request timeout, and how far its clock is from the database's. */
  datatype Worker = Worker(leaseSeconds: int, sendTimeoutMs: int, offset: int)

  /** The lease an attempt asks for by default. */
  function DefaultLeaseSeconds(sendTimeoutMs: nat): nat { (sendTimeoutMs + 999) / 1000 + MARGIN_SECONDS }

  /** What came back from the provider. */
  datatype Response = NoAnswer | Http(status: nat, concurrent: bool, idValid: bool)

  datatype Outcome = Delivered | Refused | Ambiguous

  /** `send`: a definite refusal is an answered request with another client error; everything else that is not a usable
      acceptance may have been accepted. */
  function Classify(r: Response): Outcome {
    match r
    case NoAnswer => Ambiguous
    case Http(status, concurrent, idValid) =>
      if 200 <= status < 300 then if idValid then Delivered else Ambiguous
      else if status == 409 && concurrent then Ambiguous
      else if status == 408 || status >= 500 then Ambiguous
      else Refused
  }

  /** Progress of an attempt: message read; lease call under way since a clock reading; lease granted; sending decided at
      a time with a window; request in flight; request over; finished. */
  datatype Attempt =
    | Reading
    | Calling(hasMessage: bool, startedAt: int)
    | Granted(hasMessage: bool, startedAt: int, since: int)
    | Decided(at: int, window: int, since: int)
    | Sending(start: int, until: int, since: int)
    | Answered(outcome: Outcome)
    | Done

  datatype Status = Pending | Accepted | Revoked | Expired

  datatype Lease = Lease(owner: nat, since: int, until: int)

  /** The delivery row. */
  datatype Row = Row(lease: Option<Lease>, sent: bool)

  datatype State = State(now: int, status: Status, expiresAt: int, row: Row, workers: seq<Worker>, attempts: seq<Attempt>)

  datatype Event =
    | Passes(ms: nat)
    | Joins(worker: Worker)
    | Reads(i: nat)
    | Acquires(i: nat, claimed: bool)
    | Decides(i: nat)
    | Starts(i: nat)
    | Ends(i: nat, response: Response)
    | Releases(i: nat, claimed: bool)
    | Completes(i: nat, claimed: bool)
    | Dies(i: nat)
    | Terminates(status: Status)

  function Length(w: Worker): int { w.leaseSeconds * 1000 }

  /** A reading of the attempt's own clock. */
  function Clock(s: State, i: nat): int
    requires i < |s.workers|
  {
    s.now + s.workers[i].offset
  }

  predicate Active(row: Row, now: int) { row.lease.Some? && row.lease.value.until > now }

  function Put(s: State, i: nat, a: Attempt): State
    requires i < |s.attempts|
  {
    s.(attempts := s.attempts[i := a])
  }

  // ---------------------------------------------------------------- the database

  datatype Grant = Acquired | Skipped | AlreadySent | Busy | NotClaimed | Raised

  /** `worker_acquire_invitation_email_lease`. */
  function GrantOf(s: State, leaseSeconds: int, claimed: bool): Grant {
    if leaseSeconds < MIN_LEASE_SECONDS || leaseSeconds > MAX_LEASE_SECONDS then Raised
    else if !claimed then NotClaimed
    else if s.row.sent then AlreadySent
    else if s.status != Pending then Skipped
    else if Active(s.row, s.now) then Busy
    else if s.expiresAt <= s.now + leaseSeconds * 1000 then Skipped
    else Acquired
  }

  function Acquire(s: State, i: nat, claimed: bool): State
    requires i < |s.attempts| == |s.workers| && s.attempts[i].Calling?
  {
    var a, w := s.attempts[i], s.workers[i];
    if GrantOf(s, w.leaseSeconds, claimed).Acquired? then
      Put(s, i, Granted(a.hasMessage, a.startedAt, s.now)).(row := s.row.(lease := Some(Lease(i, s.now, s.now + Length(w)))))
    else Put(s, i, Done)
  }

  function Clear(row: Row, i: nat): Row {
    if row.lease.Some? && row.lease.value.owner == i then row.(lease := None) else row
  }

  /** `worker_release_invitation_email_lease`. */
  function Released(row: Row, i: nat, claimed: bool): Row { if claimed && !row.sent then Clear(row, i) else row }

  /** `worker_complete_invitation_email_delivery`: the acceptance is recorded once, our lease goes either way. */
  function Complete(row: Row, i: nat, claimed: bool): Row { if claimed then Clear(row, i).(sent := true) else row }

  // ---------------------------------------------------------------- the worker

  /** The send window: the request timeout, or what is left of the lease after the safety margin. */
  function Window(w: Worker, startedAt: int, clock: int): int {
    var left := startedAt + Length(w) - SAFETY_MS - clock;
    if left < w.sendTimeoutMs then left else w.sendTimeoutMs
  }

  function Decide(s: State, i: nat): State
    requires i < |s.attempts| == |s.workers| && s.attempts[i].Granted?
  {
    var a := s.attempts[i];
    var window := Window(s.workers[i], a.startedAt, Clock(s, i));
    if !a.hasMessage || window < MIN_WINDOW_MS then Put(s, i, Answered(Refused)) else Put(s, i, Decided(s.now, window, a.since))
  }

  predicate Enabled(s: State, e: Event) {
    match e
    case Passes(ms) => forall i :: 0 <= i < |s.attempts| && s.attempts[i].Sending? ==> s.now + ms <= s.attempts[i].until
    case Joins(_) => true
    case Reads(i) => i < |s.attempts| && s.attempts[i].Reading?
    case Acquires(i, _) => i < |s.attempts| && s.attempts[i].Calling?
    case Decides(i) => i < |s.attempts| && s.attempts[i].Granted?
    case Starts(i) => i < |s.attempts| && s.attempts[i].Decided? && s.now - s.attempts[i].at < SAFETY_MS
    case Ends(i, _) => i < |s.attempts| && s.attempts[i].Sending?
    case Releases(i, _) => i < |s.attempts| && s.attempts[i] == Answered(Refused)
    case Completes(i, _) => i < |s.attempts| && s.attempts[i] == Answered(Delivered)
    case Dies(i) => i < |s.attempts|
    case Terminates(status) =>
      && status != Pending && s.status == Pending && !Active(s.row, s.now)
      && (status == Expired ==> s.expiresAt <= s.now) && (status == Accepted ==> s.expiresAt > s.now)
  }

  /** A request ends at the latest with its timeout, its window; it starts within the safety margin of the decision; the
      death of a worker ends its request. */
  function Step(s: State, e: Event): State
    requires |s.attempts| == |s.workers| && Enabled(s, e)
  {
    match e
    case Passes(ms) => s.(now := s.now + ms)
    case Joins(worker) => s.(workers := s.workers + [worker], attempts := s.attempts + [Reading])
    case Reads(i) => Put(s, i, Calling(s.status == Pending && s.expiresAt > s.now, Clock(s, i)))
    case Acquires(i, claimed) => Acquire(s, i, claimed)
    case Decides(i) => Decide(s, i)
    case Starts(i) => Put(s, i, Sending(s.now, s.now + s.attempts[i].window, s.attempts[i].since))
    case Ends(i, response) => Put(s, i, Answered(Classify(response)))
    case Releases(i, claimed) => Put(s, i, Done).(row := Released(s.row, i, claimed))
    case Completes(i, claimed) => Put(s, i, Done).(row := Complete(s.row, i, claimed))
    case Dies(i) => Put(s, i, Done)
    case Terminates(status) => s.(status := status)
  }

  // ---------------------------------------------------------------- what every step keeps

  /** The lease of an attempt that may still send. */
  predicate MaySend(a: Attempt) { a.Granted? || a.Decided? || a.Sending? }

  function Since(a: Attempt): int
    requires MaySend(a)
  {
    a.since
  }

  /** The attempt's timing against its own lease: decided early enough, over before the lease is. */
  predicate InTime(w: Worker, a: Attempt, now: int) {
    match a
    case Calling(_, startedAt) => startedAt <= now + w.offset
    case Granted(_, startedAt, since) => startedAt - w.offset <= since <= now
    case Decided(at, window, since) =>
      since <= at <= now && MIN_WINDOW_MS <= window && at + window + SAFETY_MS <= since + Length(w)
    case Sending(start, until, since) => since <= start <= now <= until < since + Length(w)
    case _ => true
  }

  /** Its lease is the one in the row, or has run out. */
  predicate LeaseHeld(s: State, i: nat)
    requires i < |s.attempts| == |s.workers|
  {
    MaySend(s.attempts[i]) ==>
      var end := Since(s.attempts[i]) + Length(s.workers[i]);
      end <= s.now ||
      (s.row.lease == Some(Lease(i, Since(s.attempts[i]), end)) && s.status == Pending && s.expiresAt > end)
  }

  predicate Inv(s: State) {
    && |s.attempts| == |s.workers|
    && (forall i :: 0 <= i < |s.attempts| ==> InTime(s.workers[i], s.attempts[i], s.now) && LeaseHeld(s, i))
    && (s.row.lease.Some? ==> s.row.lease.value.owner < |s.attempts|)
  }

  lemma TimingKept(s: State, e: Event, i: nat)
    requires Inv(s) && Enabled(s, e) && i < |s.attempts|
    ensures InTime(Step(s, e).workers[i], Step(s, e).attempts[i], Step(s, e).now)
  {
    assert InTime(s.workers[i], s.attempts[i], s.now);
  }

  lemma LeaseKept(s: State, e: Event, i: nat)
    requires Inv(s) && Enabled(s, e) && i < |s.attempts|
    ensures LeaseHeld(Step(s, e), i)
  {
    assert InTime(s.workers[i], s.attempts[i], s.now) && LeaseHeld(s, i);
  }

  lemma StepKeeps(s: State, e: Event)
    requires Inv(s) && Enabled(s, e)
    ensures Inv(Step(s, e))
  {
    var t := Step(s, e);
    forall i | 0 <= i < |t.attempts| ensures InTime(t.workers[i], t.attempts[i], t.now) && LeaseHeld(t, i) {
      if i < |s.attempts| {
        TimingKept(s, e, i);
        LeaseKept(s, e, i);
      }
    }
  }

  /** A request in flight lies inside its own lease, which is active and in the row, on a pending, unexpired invitation. */
  lemma FlightInsideLease(s: State, i: nat)
    requires Inv(s) && i < |s.attempts| && s.attempts[i].Sending?
    ensures Active(s.row, s.now) && s.row.lease.value.owner == i
    ensures s.row.lease.value.since <= s.attempts[i].start <= s.attempts[i].until < s.row.lease.value.until
    ensures s.status == Pending && s.expiresAt > s.attempts[i].until
  {
    assert InTime(s.workers[i], s.attempts[i], s.now) && LeaseHeld(s, i);
  }

  /** A request starts only under its own active lease. */
  lemma StartNeedsPending(s: State, i: nat)
    requires Inv(s) && Enabled(s, Starts(i))
    ensures s.status == Pending && Active(s.row, s.now) && s.row.lease.value.owner == i
  {
    assert InTime(s.workers[i], s.attempts[i], s.now) && LeaseHeld(s, i);
  }

  predicate Run(es: seq<Event>, ss: seq<State>, start: int, expiresAt: int) {
    && |ss| == |es| + 1 && ss[0] == State(start, Pending, expiresAt, Row(None, false), [], [])
    && forall k :: 0 <= k < |es| ==>
         |ss[k].attempts| == |ss[k].workers| && Enabled(ss[k], es[k]) && ss[k + 1] == Step(ss[k], es[k])
  }

  lemma {:induction false} RunInv(es: seq<Event>, ss: seq<State>, start: int, expiresAt: int, k: nat)
    requires Run(es, ss, start, expiresAt) && k <= |es|
    ensures Inv(ss[k])
  {
    if k > 0 {
      RunInv(es, ss, start, expiresAt, k - 1);
      StepKeeps(ss[k - 1], es[k - 1]);
      assert ss[k - 1 + 1] == Step(ss[k - 1], es[k - 1]);
    }
  }

  /** At every moment of every run at most one request is in flight, inside its own active lease, and only for a pending
      invitation that outlives it. */
  lemma DeliverySafe(es: seq<Event>, ss: seq<State>, start: int, expiresAt: int, k: nat, i: nat, j: nat)
    requires Run(es, ss, start, expiresAt) && k <= |es|
    requires i < |ss[k].attempts| && j < |ss[k].attempts| && ss[k].attempts[i].Sending? && ss[k].attempts[j].Sending?
    ensures i == j && ss[k].status == Pending && ss[k].expiresAt > ss[k].now && ss[k].attempts[i].until < ss[k].expiresAt
    ensures ss[k].row.lease.Some? && ss[k].row.lease.value.owner == i
    ensures ss[k].row.lease.value.since <= ss[k].attempts[i].start <= ss[k].now <= ss[k].attempts[i].until < ss[k].row.lease.value.until
  {
    RunInv(es, ss, start, expiresAt, k);
    FlightInsideLease(ss[k], i);
    FlightInsideLease(ss[k], j);
    assert InTime(ss[k].workers[i], ss[k].attempts[i], ss[k].now);
  }

  /** When a terminal transition commits nothing is in flight, and nothing starts afterwards. */
  lemma {:induction false} NothingAfterTerminal(es: seq<Event>, ss: seq<State>, start: int, expiresAt: int, m: nat, k: nat)
    requires Run(es, ss, start, expiresAt) && m <= k < |es| && es[m].Terminates?
    ensures forall i :: 0 <= i < |ss[k].attempts| ==> !ss[k].attempts[i].Sending?
    ensures !es[k].Starts? && (k > m ==> ss[k].status != Pending)
  {
    RunInv(es, ss, start, expiresAt, m);
    forall i | 0 <= i < |ss[m].attempts| ensures !ss[m].attempts[i].Sending? {
      if ss[m].attempts[i].Sending? {
        FlightInsideLease(ss[m], i);
      }
    }
    if k > m {
      StaysTerminal(es, ss, start, expiresAt, m + 1, k);
      RunInv(es, ss, start, expiresAt, k);
      forall i | 0 <= i < |ss[k].attempts| ensures !ss[k].attempts[i].Sending? {
        if ss[k].attempts[i].Sending? {
          FlightInsideLease(ss[k], i);
        }
      }
      if es[k].Starts? {
        StartNeedsPending(ss[k], es[k].i);
      }
    }
  }

  lemma {:induction false} StaysTerminal(es: seq<Event>, ss: seq<State>, start: int, expiresAt: int, m: nat, k: nat)
    requires Run(es, ss, start, expiresAt) && 0 < m <= k <= |es| && es[m - 1].Terminates?
    ensures ss[k].status != Pending
    decreases k
  {
    if k > m {
      StaysTerminal(es, ss, start, expiresAt, m, k - 1);
    }
    assert ss[k - 1 + 1] == Step(ss[k - 1], es[k - 1]);
  }

  /** A lease is given back early only when no request of its attempt can still be answered. */
  lemma ReleaseOnlyWhenSettled(s: State, i: nat, claimed: bool)
    requires Inv(s) && Enabled(s, Releases(i, claimed))
    ensures forall j :: 0 <= j < |s.attempts| && s.attempts[j].Sending? ==> Released(s.row, i, claimed) == s.row
  {
    forall j | 0 <= j < |s.attempts| && s.attempts[j].Sending? ensures Released(s.row, i, claimed) == s.row {
      FlightInsideLease(s, j);
    }
  }

  /** The default lease leaves room for a whole request: right after the clock reading the window is the full timeout.
      Every timeout that the configuration admits gives a lease the database accepts. */
  lemma DefaultLeaseFits(sendTimeoutMs: nat, offset: int, startedAt: int)
    ensures Window(Worker(DefaultLeaseSeconds(sendTimeoutMs), sendTimeoutMs, offset), startedAt, startedAt) == sendTimeoutMs
    ensures sendTimeoutMs + 15000 <= DefaultLeaseSeconds(sendTimeoutMs) * 1000 < sendTimeoutMs + 16000
    ensures 1 <= sendTimeoutMs <= MAX_SEND_TIMEOUT_MS ==>
              MIN_LEASE_SECONDS <= DefaultLeaseSeconds(sendTimeoutMs) <= MAX_LEASE_SECONDS
  {
  }

  /** The requested length is never clamped: outside the range every call raises and leaves the row alone, and what is
      granted runs exactly as long as it was asked for. */
  lemma LeaseNotClamped(s: State, i: nat, claimed: bool)
    requires i < |s.attempts| == |s.workers| && s.attempts[i].Calling?
    ensures var seconds := s.workers[i].leaseSeconds;
            && (GrantOf(s, seconds, claimed).Raised? <==> !(MIN_LEASE_SECONDS <= seconds <= MAX_LEASE_SECONDS))
            && (!(MIN_LEASE_SECONDS <= seconds <= MAX_LEASE_SECONDS) ==>
                 Acquire(s, i, claimed).row == s.row && Acquire(s, i, claimed).attempts[i].Done?)
            && (Acquire(s, i, claimed).attempts[i].Granted? ==>
                 Acquire(s, i, claimed).row.lease == Some(Lease(i, s.now, s.now + seconds * 1000)))
  {
  }

  // ---------------------------------------------------------------- what the outcomes rest on

  predicate AnsweredWith(r: Response, low: nat, high: nat) { r.Http? && low <= r.status < high }

  /** An answer is a definite refusal exactly when it is neither an acceptance, nor a timeout of the provider, nor a
      conflict with a request of the same key, nor a server error; it is a delivery exactly when an id came with it. */
  lemma ClassifyExact(r: Response)
    ensures Classify(r) == Delivered <==> AnsweredWith(r, 200, 300) && r.idValid
    ensures Classify(r) == Refused <==>
            r.Http? && r.status < 500 && !AnsweredWith(r, 200, 300) && r.status != 408 && !(r.status == 409 && r.concurrent)
  {
  }

  /** A lease is granted exactly to the claimed attempt of a pending, unsent invitation that outlives it, while no other
      lease is active, for 2 to 120 seconds. */
  lemma GrantExact(s: State, leaseSeconds: int, claimed: bool)
    ensures GrantOf(s, leaseSeconds, claimed) == Acquired <==>
            2 <= leaseSeconds <= 120 && claimed && !s.row.sent && s.status == Pending
            && (s.row.lease.Some? ==> s.row.lease.value.until <= s.now) && s.expiresAt > s.now + leaseSeconds * 1000
  {
  }

  /** An attempt under a lease goes on to send exactly when it has a message and, a safety margin of two seconds taken off,
      at least one second is left of its lease and of its timeout; it may send for the shorter of the two. */
  lemma DecideExact(s: State, i: nat)
    requires i < |s.attempts| == |s.workers| && s.attempts[i].Granted?
    ensures var a, w, t := s.attempts[i], s.workers[i], Decide(s, i).attempts[i];
            var left := a.startedAt + w.leaseSeconds * 1000 - 2000 - (s.now + w.offset);
            && (t.Decided? <==> a.hasMessage && left >= 1000 && w.sendTimeoutMs >= 1000)
            && (t.Decided? ==> t.window <= left && t.window <= w.sendTimeoutMs && (t.window == left || t.window == w.sendTimeoutMs))
            && (!t.Decided? ==> t == Answered(Refused))
  {
  }

  /** Before event k attempt i decided not to send, or its request was definitely refused. */
  predicate Settled(es: seq<Event>, i: nat, k: nat)
    requires k <= |es|
  {
    exists j :: 0 <= j < k && (es[j] == Decides(i) || (es[j].Ends? && es[j].i == i && Classify(es[j].response) == Refused))
  }

  /** Before event k the provider accepted the request of attempt i, with an id. */
  predicate AcceptedBy(es: seq<Event>, i: nat, k: nat)
    requires k <= |es|
  {
    exists j :: 0 <= j < k && es[j].Ends? && es[j].i == i && AnsweredWith(es[j].response, 200, 300) && es[j].response.idValid
  }

  lemma SettledNext(es: seq<Event>, i: nat, k: nat)
    requires k < |es|
    ensures Settled(es, i, k) ==> Settled(es, i, k + 1)
    ensures AcceptedBy(es, i, k) ==> AcceptedBy(es, i, k + 1)
    ensures es[k] == Decides(i) || (es[k].Ends? && es[k].i == i && Classify(es[k].response) == Refused) ==> Settled(es, i, k + 1)
    ensures es[k].Ends? && es[k].i == i && Classify(es[k].response) == Delivered ==> AcceptedBy(es, i, k + 1)
  {
    if es[k].Ends? {
      ClassifyExact(es[k].response);
    }
  }

  lemma StepAnswers(s: State, e: Event, i: nat)
    requires |s.attempts| == |s.workers| && Enabled(s, e) && i < |Step(s, e).attempts| && Step(s, e).attempts[i].Answered?
    ensures i < |s.attempts|
    ensures s.attempts[i] == Step(s, e).attempts[i]
            || (e == Decides(i) && Step(s, e).attempts[i] == Answered(Refused))
            || (e.Ends? && e.i == i && Step(s, e).attempts[i] == Answered(Classify(e.response)))
  {
  }

  lemma StepSent(s: State, e: Event)
    requires |s.attempts| == |s.workers| && Enabled(s, e)
    ensures Step(s, e).row.sent ==> s.row.sent || (e.Completes? && e.i < |s.attempts| && s.attempts[e.i] == Answered(Delivered))
  {
  }

  lemma {:induction false} AnswersKnown(es: seq<Event>, ss: seq<State>, start: int, expiresAt: int, k: nat, i: nat)
    requires Run(es, ss, start, expiresAt) && k <= |es| && i < |ss[k].attempts|
    ensures ss[k].attempts[i] == Answered(Refused) ==> Settled(es, i, k)
    ensures ss[k].attempts[i] == Answered(Delivered) ==> AcceptedBy(es, i, k)
  {
    if k > 0 && ss[k].attempts[i].Answered? {
      var j := k - 1;
      assert ss[j + 1] == Step(ss[j], es[j]);
      StepAnswers(ss[j], es[j], i);
      AnswersKnown(es, ss, start, expiresAt, j, i);
      SettledNext(es, i, j);
    }
  }

  /** A lease is given back early only after a decision not to send or a definite refusal, and a delivery is completed only
      after an acceptance. */
  lemma EndsRest(es: seq<Event>, ss: seq<State>, start: int, expiresAt: int, k: nat)
    requires Run(es, ss, start, expiresAt) && k < |es|
    ensures es[k].Releases? ==> Settled(es, es[k].i, k)
    ensures es[k].Completes? ==> AcceptedBy(es, es[k].i, k)
  {
    if es[k].Releases? || es[k].Completes? {
      AnswersKnown(es, ss, start, expiresAt, k, es[k].i);
    }
  }

  /** The delivery is recorded as sent only when the provider accepted a request for it. */
  lemma {:induction false} SentIsAccepted(es: seq<Event>, ss: seq<State>, start: int, expiresAt: int, k: nat) returns (i: nat)
    requires Run(es, ss, start, expiresAt) && k <= |es| && ss[k].row.sent
    ensures AcceptedBy(es, i, k)
  {
    var j := k - 1;
    assert ss[j + 1] == Step(ss[j], es[j]);
    StepSent(ss[j], es[j]);
    if ss[j].row.sent {
      i := SentIsAccepted(es, ss, start, expiresAt, j);
    } else {
      i := es[j].i;
      AnswersKnown(es, ss, start, expiresAt, j, i);
    }
    SettledNext(es, i, j);
  }

  // ---------------------------------------------------------------- the delivery row

  /** How each event changes the row: a lease is set by a grant, and ends early only by its own attempt while its job is
      claimed; an acceptance is recorded once, by an attempt whose job is claimed. */
  lemma RowExact(es: seq<Event>, ss: seq<State>, start: int, expiresAt: int, k: nat)
    requires Run(es, ss, start, expiresAt) && k < |es|
    ensures var before, after, e := ss[k].row, ss[k + 1].row, es[k];
            && (after.sent <==> before.sent || (e.Completes? && e.claimed))
            && (e.Acquires? && GrantOf(ss[k], ss[k].workers[e.i].leaseSeconds, e.claimed) == Acquired ==>
                 after.lease == Some(Lease(e.i, ss[k].now, ss[k].now + ss[k].workers[e.i].leaseSeconds * 1000)))
            && (e.Acquires? && GrantOf(ss[k], ss[k].workers[e.i].leaseSeconds, e.claimed) != Acquired ==> after == before)
            && (!e.Acquires? ==>
                 after.lease ==
                 if before.lease.Some? && e == Releases(before.lease.value.owner, true) && !before.sent then None
                 else if before.lease.Some? && e == Completes(before.lease.value.owner, true) then None
                 else before.lease)
  {
    assert ss[k + 1] == Step(ss[k], es[k]);
  }

  /** An invitation ends only once, while nothing can be sent for it: it is accepted in time, and expires when it is over. */
  lemma TerminalExact(es: seq<Event>, ss: seq<State>, start: int, expiresAt: int, k: nat)
    requires Run(es, ss, start, expiresAt) && k < |es| && ss[k + 1].status != ss[k].status
    ensures ss[k].status == Pending && es[k] == Terminates(ss[k + 1].status)
    ensures ss[k].row.lease.Some? ==> ss[k].row.lease.value.until <= ss[k].now
    ensures ss[k + 1].status == Accepted ==> ss[k].now < ss[k].expiresAt
    ensures ss[k + 1].status == Expired ==> ss[k].now >= ss[k].expiresAt
  {
    assert ss[k + 1] == Step(ss[k], es[k]);
  }

  // ---------------------------------------------------------------- the message

  predicate HasMessage(a: Attempt) {
    match a
    case Calling(hasMessage, _) => hasMessage
    case Granted(hasMessage, _, _) => hasMessage
    case _ => a.Decided? || a.Sending?
  }

  /** Before event k attempt i read its invitation while that was pending and not over. */
  predicate ReadPending(es: seq<Event>, ss: seq<State>, i: nat, k: nat)
    requires k <= |es| < |ss|
  {
    exists j :: 0 <= j < k && es[j] == Reads(i) && ss[j].status == Pending && ss[j].now < ss[j].expiresAt
  }

  lemma StepMessage(s: State, e: Event, i: nat)
    requires |s.attempts| == |s.workers| && Enabled(s, e) && i < |Step(s, e).attempts| && HasMessage(Step(s, e).attempts[i])
    ensures (i < |s.attempts| && HasMessage(s.attempts[i])) || (e == Reads(i) && s.status == Pending && s.now < s.expiresAt)
  {
  }

  lemma {:induction false} MessageRead(es: seq<Event>, ss: seq<State>, start: int, expiresAt: int, k: nat, i: nat)
    requires Run(es, ss, start, expiresAt) && k <= |es| && i < |ss[k].attempts| && HasMessage(ss[k].attempts[i])
    ensures ReadPending(es, ss, i, k)
    decreases k
  {
    var j := k - 1;
    assert ss[j + 1] == Step(ss[j], es[j]);
    StepMessage(ss[j], es[j], i);
    if i < |ss[j].attempts| && HasMessage(ss[j].attempts[i]) {
      MessageRead(es, ss, start, expiresAt, j, i);
    }
  }

  /** A request starts only for an attempt that found its invitation pending and not over when it prepared the message. */
  lemma StartsRead(es: seq<Event>, ss: seq<State>, start: int, expiresAt: int, k: nat)
    requires Run(es, ss, start, expiresAt) && k < |es| && es[k].Starts?
    ensures ReadPending(es, ss, es[k].i, k)
  {
    MessageRead(es, ss, start, expiresAt, k, es[k].i);
  }
}
