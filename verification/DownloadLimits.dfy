/** Admission of media downloads (src/media/download-limits.ts:28-111): a counter, a first-come queue, and requests that
    go through waiting, reserving a connection, and holding it. Requests are numbered in order of arrival. */
module DownloadLimits {

  const MAX_WAITERS := 64
  const ADMISSION_WAIT_MS := 1000

  /** Where a request stands: in the queue, admitted but not resumed, waiting for its native reservation (already
      answered or not), holding a connection, or finished. */
  datatype Phase = Queued | Leased | Reserving(abandoned: bool) | Holding | Ended

  /** `settled`, `leased` and `returned` count: promises settled, leases taken, leases given back. */
  datatype Request = Request(phase: Phase, aborted: bool, settled: nat, leased: nat, returned: nat)

  datatype Waiter = Waiter(id: nat, deadline: int)

  /** `grants` is history: the requests admitted, in order. */
  datatype State = State(active: int, capacity: nat, waiters: seq<Waiter>, requests: seq<Request>, grants: seq<nat>)

  // ---------------------------------------------------------------- what each call does to the state

  function Arrive(s: State, aborted: bool): State {
    s.(requests := s.requests + [Request(Queued, aborted, 0, 0, 0)])
  }

  function With(s: State, id: nat, r: Request): State
    requires id < |s.requests|
  {
    s.(requests := s.requests[id := r])
  }

  /** The promise of the request is rejected and nothing is left to do for it. */
  function Reject(s: State, id: nat): State
    requires id < |s.requests|
  {
    With(s, id, s.requests[id].(phase := Ended, settled := s.requests[id].settled + 1))
  }

  /** `lease` and the resolution of the waiter. */
  function Grant(s: State, id: nat): State
    requires id < |s.requests|
  {
    With(s, id, s.requests[id].(phase := Leased, leased := s.requests[id].leased + 1))
      .(active := s.active + 1, grants := s.grants + [id])
  }

  /** The queue knows only requests that arrived. */
  predicate WaitersKnown(s: State) { forall k :: 0 <= k < |s.waiters| ==> s.waiters[k].id < |s.requests| }

  /** Hand out places to the head of the queue while there are any; who comes too late is turned away. */
  function Drain(s: State, now: int): State
    requires WaitersKnown(s)
    decreases |s.waiters|
  {
    if s.active < s.capacity && s.waiters != [] then
      var w, t := s.waiters[0], s.(waiters := s.waiters[1..]);
      Drain(if s.requests[w.id].aborted || now >= w.deadline then Reject(t, w.id) else Grant(t, w.id), now)
    else s
  }

  /** The closure a lease hands out: the first call gives the lease back and hands its place on, the others do nothing. */
  function GiveBack(s: State, id: nat, now: int): State
    requires id < |s.requests| && WaitersKnown(s)
  {
    if s.requests[id].returned > 0 then s
    else Drain(With(s, id, s.requests[id].(phase := Ended, returned := s.requests[id].returned + 1)).(active := s.active - 1), now)
  }

  /** `acquireAdmission` for the newest request. */
  function Acquire(s: State, id: nat, now: int): State
    requires id < |s.requests| && WaitersKnown(s)
  {
    if s.requests[id].aborted then Reject(s, id)
    else if s.waiters == [] && s.active < s.capacity then Grant(s, id)
    else if |s.waiters| >= MAX_WAITERS then Reject(s, id)
    else Drain(s.(waiters := s.waiters + [Waiter(id, now + ADMISSION_WAIT_MS)]), now)
  }

  function Without(ws: seq<Waiter>, id: nat): seq<Waiter> {
    if ws == [] then [] else if ws[0].id == id then ws[1..] else [ws[0]] + Without(ws[1..], id)
  }

  /** Timer or disconnect while waiting. */
  function Cancel(s: State, id: nat): State
    requires id < |s.requests|
  {
    if !s.requests[id].phase.Queued? then s else Reject(s.(waiters := Without(s.waiters, id)), id)
  }

  /** The promise is rejected but the native reservation keeps the lease until it settles. */
  function Abandon(s: State, id: nat): State
    requires id < |s.requests|
  {
    if s.requests[id].phase != Reserving(false) then s
    else With(s, id, s.requests[id].(phase := Reserving(true), settled := s.requests[id].settled + 1))
  }

  function Disconnect(s: State, id: nat): State
    requires id < |s.requests|
  {
    var t := With(s, id, s.requests[id].(aborted := true));
    if t.requests[id].phase.Queued? then Cancel(t, id) else Abandon(t, id)
  }

  /** Settle the promise and give the lease back. */
  function RejectAndReturn(s: State, id: nat, now: int): State
    requires id < |s.requests| && WaitersKnown(s)
  {
    GiveBack(With(s, id, s.requests[id].(settled := s.requests[id].settled + 1)), id, now)
  }

  /** The admitted request resumes; asking for the native reservation may fail at once. */
  function Resume(s: State, id: nat, throws: bool, now: int): State
    requires id < |s.requests| && WaitersKnown(s)
  {
    if s.requests[id].aborted || throws then RejectAndReturn(s, id, now)
    else With(s, id, s.requests[id].(phase := Reserving(false)))
  }

  /** The native reservation arrived, or failed. */
  function Settled(s: State, id: nat, connected: bool, now: int): State
    requires id < |s.requests| && WaitersKnown(s)
  {
    var r := s.requests[id];
    if r.phase == Reserving(true) then GiveBack(s, id, now)
    else if !connected || r.aborted then RejectAndReturn(s, id, now)
    else With(s, id, r.(phase := Holding, settled := r.settled + 1))
  }

  /** `releaseAdmission`, in the hands of a request that got its connection, and called any number of times. */
  function Release(s: State, id: nat, now: int): State
    requires id < |s.requests| && WaitersKnown(s)
  {
    if s.requests[id].phase.Holding? || (s.requests[id].phase.Ended? && s.requests[id].leased > 0) then GiveBack(s, id, now) else s
  }

  lemma {:induction false} DrainKeepsKnown(s: State, now: int)
    requires WaitersKnown(s)
    ensures WaitersKnown(Drain(s, now)) && |Drain(s, now).requests| == |s.requests|
    decreases |s.waiters|
  {
    if s.active < s.capacity && s.waiters != [] {
      var w, t := s.waiters[0], s.(waiters := s.waiters[1..]);
      DrainKeepsKnown(if s.requests[w.id].aborted || now >= w.deadline then Reject(t, w.id) else Grant(t, w.id), now);
    }
  }

  // ---------------------------------------------------------------- the admission object

  /** The admission record of one database, with the requests made to it. */
  class Admission {
    var active: int
    const capacity: nat
    var waiters: seq<Waiter>
    var requests: seq<Request>
    ghost var grants: seq<nat>

    ghost function View(): State
      reads this
    {
      State(active, capacity, waiters, requests, grants)
    }

    ghost predicate Valid()
      reads this
    {
      WaitersKnown(View())
    }

    constructor (poolMax: int)
      ensures Valid() && View() == State(0, if poolMax > 2 then poolMax - 1 else 1, [], [], [])
    {
      active, waiters, requests, grants := 0, [], [], [];
      capacity := if poolMax > 2 then poolMax - 1 else 1;
    }

    method RejectRequest(id: nat)
      requires id < |requests|
      modifies this
      ensures View() == Reject(old(View()), id)
    {
      requests := requests[id := requests[id].(phase := Ended, settled := requests[id].settled + 1)];
    }

    method Lease(id: nat)
      requires id < |requests|
      modifies this
      ensures View() == Grant(old(View()), id)
    {
      active := active + 1;
      grants := grants + [id];
      requests := requests[id := requests[id].(phase := Leased, leased := requests[id].leased + 1)];
    }

    method DrainQueue(now: int)
      requires Valid()
      modifies this
      ensures Valid() && View() == Drain(old(View()), now)
    {
      while active < capacity && waiters != []
        invariant WaitersKnown(View()) && Drain(View(), now) == old(Drain(View(), now))
        decreases |waiters|
      {
        var waiter := waiters[0];
        waiters := waiters[1..];
        if requests[waiter.id].aborted || now >= waiter.deadline {
          RejectRequest(waiter.id);
        } else {
          Lease(waiter.id);
        }
      }
    }

    method ReleaseLease(id: nat, now: int)
      requires Valid() && id < |requests|
      modifies this
      ensures Valid() && View() == GiveBack(old(View()), id, now)
    {
      if requests[id].returned > 0 {
        return;
      }
      requests := requests[id := requests[id].(phase := Ended, returned := requests[id].returned + 1)];
      active := active - 1;
      DrainQueue(now);
    }

    method ReleaseAdmission(id: nat, now: int)
      requires Valid() && id < |requests|
      modifies this
      ensures Valid() && View() == Release(old(View()), id, now)
    {
      if requests[id].phase.Holding? || (requests[id].phase.Ended? && requests[id].leased > 0) {
        ReleaseLease(id, now);
      }
    }

    /** A request arrives and asks for admission. */
    method AcquireAdmission(aborted: bool, now: int) returns (id: nat)
      requires Valid()
      modifies this
      ensures Valid() && id == |old(requests)| && View() == Acquire(Arrive(old(View()), aborted), id, now)
    {
      id := |requests|;
      requests := requests + [Request(Queued, aborted, 0, 0, 0)];
      if aborted {
        RejectRequest(id);
      } else if waiters == [] && active < capacity {
        Lease(id);
      } else if |waiters| >= MAX_WAITERS {
        RejectRequest(id);
      } else {
        waiters := waiters + [Waiter(id, now + ADMISSION_WAIT_MS)];
        DrainQueue(now);
      }
    }

    method CancelWaiter(id: nat)
      requires Valid() && id < |requests|
      modifies this
      ensures Valid() && View() == Cancel(old(View()), id)
    {
      if requests[id].phase.Queued? {
        WithoutKeeps(waiters, id);
        waiters := Without(waiters, id);
        RejectRequest(id);
        forall k | 0 <= k < |waiters| ensures waiters[k].id < |requests| { assert waiters[k] in old(waiters); }
      }
    }

    method DisconnectRequest(id: nat)
      requires Valid() && id < |requests|
      modifies this
      ensures Valid() && View() == Disconnect(old(View()), id)
    {
      requests := requests[id := requests[id].(aborted := true)];
      if requests[id].phase.Queued? {
        CancelWaiter(id);
      } else if requests[id].phase == Reserving(false) {
        requests := requests[id := requests[id].(phase := Reserving(true), settled := requests[id].settled + 1)];
      }
    }

    method ResumeRequest(id: nat, throws: bool, now: int)
      requires Valid() && id < |requests|
      modifies this
      ensures Valid() && View() == Resume(old(View()), id, throws, now)
    {
      if requests[id].aborted || throws {
        requests := requests[id := requests[id].(settled := requests[id].settled + 1)];
        ReleaseLease(id, now);
      } else {
        requests := requests[id := requests[id].(phase := Reserving(false))];
      }
    }

    method ReservationSettled(id: nat, connected: bool, now: int)
      requires Valid() && id < |requests|
      modifies this
      ensures Valid() && View() == Settled(old(View()), id, connected, now)
    {
      if requests[id].phase == Reserving(true) {
        ReleaseLease(id, now);
      } else if !connected || requests[id].aborted {
        requests := requests[id := requests[id].(settled := requests[id].settled + 1)];
        ReleaseLease(id, now);
      } else {
        requests := requests[id := requests[id].(phase := Holding, settled := requests[id].settled + 1)];
      }
    }
  }

  lemma {:induction false} WithoutKeeps(ws: seq<Waiter>, id: nat)
    ensures |Without(ws, id)| <= |ws| && forall w :: w in Without(ws, id) ==> w in ws
  {
    if ws != [] {
      WithoutKeeps(ws[1..], id);
    }
  }

  // ---------------------------------------------------------------- runs

  datatype Event =
    | Arrival(aborted: bool)
    | TimerFires(id: nat)
    | Disconnects(id: nat)
    | Resumes(id: nat, throws: bool)
    | TimesOut(id: nat)
    | Settles(id: nat, connected: bool)
    | Releases(id: nat)

  /** When an event can happen: a resumption follows its grant, a reservation is asked for once and settles once, and
      the release handle exists only after delivery. */
  predicate Enabled(s: State, e: Event) {
    match e
    case Arrival(_) => true
    case TimerFires(id) => id < |s.requests|
    case Disconnects(id) => id < |s.requests| && !s.requests[id].aborted
    case Resumes(id, _) => id < |s.requests| && s.requests[id].phase.Leased?
    case TimesOut(id) => id < |s.requests|
    case Settles(id, _) => id < |s.requests| && s.requests[id].phase.Reserving?
    case Releases(id) => id < |s.requests|
  }

  function Step(s: State, e: Event, now: int): State
    requires Enabled(s, e) && WaitersKnown(s)
  {
    match e
    case Arrival(aborted) => Acquire(Arrive(s, aborted), |s.requests|, now)
    case TimerFires(id) => Cancel(s, id)
    case Disconnects(id) => Disconnect(s, id)
    case Resumes(id, throws) => Resume(s, id, throws, now)
    case TimesOut(id) => Abandon(s, id)
    case Settles(id, connected) => Settled(s, id, connected, now)
    case Releases(id) => Release(s, id, now)
  }

  predicate HoldsLease(r: Request) { r.phase.Leased? || r.phase.Reserving? || r.phase.Holding? }

  /** Leases taken and not given back. */
  function Outstanding(rs: seq<Request>): nat {
    if rs == [] then 0 else Outstanding(rs[..|rs| - 1]) + if HoldsLease(rs[|rs| - 1]) then 1 else 0
  }

  /** The books of one request: at most one lease, given back at most once and exactly when the request ends; a promise
      settled at most once and exactly when it was answered. */
  predicate Accounted(r: Request) {
    && r.leased == r.returned + (if HoldsLease(r) then 1 else 0) && r.leased <= 1
    && (!r.phase.Ended? ==> r.returned == 0)
    && r.settled == (if r.phase.Queued? || r.phase.Leased? || r.phase == Reserving(false) then 0 else 1)
  }

  predicate AllAccounted(rs: seq<Request>) { forall id :: 0 <= id < |rs| ==> Accounted(rs[id]) }

  predicate InQueue(ws: seq<Waiter>, id: nat) { exists k :: 0 <= k < |ws| && ws[k].id == id }

  /** The queue holds the waiting requests in order of arrival. */
  predicate QueueOrdered(ws: seq<Waiter>, rs: seq<Request>) {
    && (forall k :: 0 <= k < |ws| ==> ws[k].id < |rs| && rs[ws[k].id].phase.Queued?)
    && (forall j, k :: 0 <= j < k < |ws| ==> ws[j].id < ws[k].id)
  }

  predicate Ascending(xs: seq<nat>) { forall i, j :: 0 <= i < j < |xs| ==> xs[i] < xs[j] }

  /** Grants in order of arrival, and nobody still waiting arrived before one of them. */
  predicate GrantsOrdered(grants: seq<nat>, ws: seq<Waiter>, n: nat) {
    && Ascending(grants) && (forall g :: 0 <= g < |grants| ==> grants[g] < n)
    && forall g, k :: 0 <= g < |grants| && 0 <= k < |ws| ==> grants[g] < ws[k].id
  }

  /** What holds while a place may still be free. */
  predicate Core(s: State) {
    && AllAccounted(s.requests) && QueueOrdered(s.waiters, s.requests) && GrantsOrdered(s.grants, s.waiters, |s.requests|)
    && s.active == Outstanding(s.requests) <= s.capacity && |s.waiters| <= MAX_WAITERS
  }

  /** Every waiting request is in the queue. */
  predicate AllQueued(s: State) {
    forall id :: 0 <= id < |s.requests| && s.requests[id].phase.Queued? ==> InQueue(s.waiters, id)
  }

  /** Between calls nobody waits while a place is free. */
  predicate Inv(s: State) { Core(s) && AllQueued(s) && (s.waiters != [] ==> s.active == s.capacity) }

  lemma {:induction false} OutstandingUpdate(rs: seq<Request>, id: nat, r: Request)
    requires id < |rs|
    ensures Outstanding(rs[id := r]) ==
            Outstanding(rs) - (if HoldsLease(rs[id]) then 1 else 0) + (if HoldsLease(r) then 1 else 0)
  {
    var n := |rs| - 1;
    if id == n {
      assert rs[id := r][..n] == rs[..n];
    } else {
      OutstandingUpdate(rs[..n], id, r);
      assert rs[id := r][..n] == rs[..n][id := r];
    }
  }

  lemma OutstandingNext(rs: seq<Request>, r: Request)
    ensures Outstanding(rs + [r]) == Outstanding(rs) + if HoldsLease(r) then 1 else 0
  {
    assert (rs + [r])[..|rs|] == rs;
  }

  /** A request outside the queue changes phase, its lease and its books with it. */
  lemma CoreUpdate(s: State, id: nat, r: Request, active: int)
    requires Core(s) && id < |s.requests| && !InQueue(s.waiters, id) && Accounted(r)
    requires active == s.active - (if HoldsLease(s.requests[id]) then 1 else 0) + (if HoldsLease(r) then 1 else 0) <= s.capacity
    ensures Core(With(s, id, r).(active := active))
  {
    OutstandingUpdate(s.requests, id, r);
    forall k | 0 <= k < |s.waiters| ensures s.waiters[k].id != id {
    }
  }

  lemma QueuedUpdate(s: State, id: nat, r: Request, active: int)
    requires AllQueued(s) && id < |s.requests| && !r.phase.Queued?
    ensures AllQueued(With(s, id, r).(active := active))
  {
  }

  /** A grant is logged behind all earlier ones and ahead of everyone waiting. */
  lemma GrantLogged(s: State, id: nat)
    requires Core(s) && id < |s.requests|
    requires (forall g :: 0 <= g < |s.grants| ==> s.grants[g] < id) && (forall k :: 0 <= k < |s.waiters| ==> id < s.waiters[k].id)
    ensures Core(s.(grants := s.grants + [id]))
  {
  }

  lemma HeadDropped(s: State)
    requires Core(s) && s.waiters != []
    ensures var id, t := s.waiters[0].id, s.(waiters := s.waiters[1..]);
            Core(t) && !InQueue(t.waiters, id) && Accounted(s.requests[id]) && s.requests[id].phase.Queued?
    ensures (forall g :: 0 <= g < |s.grants| ==> s.grants[g] < s.waiters[0].id)
    ensures forall k :: 0 <= k < |s.waiters[1..]| ==> s.waiters[0].id < s.waiters[1..][k].id
  {
  }

  lemma OthersQueued(s: State, u: State)
    requires s.waiters != [] && AllQueued(s) && u.waiters == s.waiters[1..] && |u.requests| == |s.requests|
    requires forall id :: 0 <= id < |s.requests| && u.requests[id].phase.Queued? ==>
               s.requests[id].phase.Queued? && id != s.waiters[0].id
    ensures AllQueued(u)
  {
    forall id | 0 <= id < |u.requests| && u.requests[id].phase.Queued? ensures InQueue(u.waiters, id) {
      var k :| 0 <= k < |s.waiters| && s.waiters[k].id == id;
      assert u.waiters[k - 1].id == id;
    }
  }

  /** The head of the queue is taken off and turned away. */
  lemma HeadRejected(s: State)
    requires Core(s) && AllQueued(s) && s.waiters != []
    ensures var w, t := s.waiters[0], s.(waiters := s.waiters[1..]); Core(Reject(t, w.id)) && AllQueued(Reject(t, w.id))
  {
    var w, t := s.waiters[0], s.(waiters := s.waiters[1..]);
    HeadDropped(s);
    CoreUpdate(t, w.id, s.requests[w.id].(phase := Ended, settled := s.requests[w.id].settled + 1), s.active);
    OthersQueued(s, Reject(t, w.id));
  }

  lemma GrantBooks(r: Request)
    requires Accounted(r) && r.phase.Queued?
    ensures var after := r.(phase := Leased, leased := r.leased + 1); Accounted(after) && HoldsLease(after) && !HoldsLease(r)
  {
  }

  lemma GrantCore(t: State, id: nat)
    requires Core(t) && id < |t.requests| && !InQueue(t.waiters, id) && t.requests[id].phase.Queued? && t.active < t.capacity
    requires (forall g :: 0 <= g < |t.grants| ==> t.grants[g] < id) && (forall k :: 0 <= k < |t.waiters| ==> id < t.waiters[k].id)
    ensures Core(Grant(t, id))
  {
    var r := t.requests[id].(phase := Leased, leased := t.requests[id].leased + 1);
    var u := With(t, id, r).(active := t.active + 1);
    assert Accounted(t.requests[id]);
    GrantBooks(t.requests[id]);
    CoreUpdate(t, id, r, t.active + 1);
    GrantLogged(u, id);
    assert Grant(t, id) == u.(grants := u.grants + [id]);
  }

  /** The head of the queue is taken off and admitted. */
  lemma HeadGranted(s: State)
    requires Core(s) && AllQueued(s) && s.waiters != [] && s.active < s.capacity
    ensures var w, t := s.waiters[0], s.(waiters := s.waiters[1..]); Core(Grant(t, w.id)) && AllQueued(Grant(t, w.id))
  {
    var w, t := s.waiters[0], s.(waiters := s.waiters[1..]);
    HeadDropped(s);
    GrantCore(t, w.id);
    OthersQueued(s, Grant(t, w.id));
  }

  lemma {:induction false} DrainRestores(s: State, now: int)
    requires Core(s) && AllQueued(s)
    ensures WaitersKnown(s) && Inv(Drain(s, now))
    decreases |s.waiters|
  {
    if s.active < s.capacity && s.waiters != [] {
      var w, t := s.waiters[0], s.(waiters := s.waiters[1..]);
      if s.requests[w.id].aborted || now >= w.deadline {
        HeadRejected(s);
      } else {
        HeadGranted(s);
      }
      DrainRestores(if s.requests[w.id].aborted || now >= w.deadline then Reject(t, w.id) else Grant(t, w.id), now);
    }
  }

  /** A request that is answered at once: the queue is as it was. */
  lemma NewcomerOutside(s: State, aborted: bool)
    requires Inv(s)
    ensures var t := Arrive(s, aborted);
            Core(t) && !InQueue(t.waiters, |s.requests|) && t.requests[|s.requests|] == Request(Queued, aborted, 0, 0, 0)
    ensures forall k :: 0 <= k < |s.requests| && Arrive(s, aborted).requests[k].phase.Queued? ==> InQueue(s.waiters, k)
  {
    var t := Arrive(s, aborted);
    OutstandingNext(s.requests, Request(Queued, aborted, 0, 0, 0));
    assert forall k :: 0 <= k < |s.requests| ==> t.requests[k] == s.requests[k];
  }

  lemma ArrivalRejected(s: State, aborted: bool)
    requires Inv(s)
    ensures Inv(Reject(Arrive(s, aborted), |s.requests|))
  {
    var id, t := |s.requests|, Arrive(s, aborted);
    NewcomerOutside(s, aborted);
    CoreUpdate(t, id, t.requests[id].(phase := Ended, settled := 1), t.active);
  }

  lemma ArrivalGranted(s: State, aborted: bool)
    requires Inv(s) && s.waiters == [] && s.active < s.capacity
    ensures Inv(Grant(Arrive(s, aborted), |s.requests|))
  {
    var id, t := |s.requests|, Arrive(s, aborted);
    NewcomerOutside(s, aborted);
    GrantCore(t, id);
  }

  lemma ArrivalQueued(s: State, aborted: bool, w: Waiter)
    requires Inv(s) && |s.waiters| < MAX_WAITERS && w.id == |s.requests|
    ensures var u := Arrive(s, aborted).(waiters := s.waiters + [w]); Core(u) && AllQueued(u)
  {
    var u := Arrive(s, aborted).(waiters := s.waiters + [w]);
    NewcomerOutside(s, aborted);
    assert u.waiters[|s.waiters|].id == w.id;
    forall k | 0 <= k < |u.requests| && u.requests[k].phase.Queued? ensures InQueue(u.waiters, k) {
      if k < w.id {
        var j :| 0 <= j < |s.waiters| && s.waiters[j].id == k;
        assert u.waiters[j].id == k;
      }
    }
  }

  lemma ArrivalKeeps(s: State, aborted: bool, now: int)
    requires Inv(s)
    ensures WaitersKnown(s) && Inv(Step(s, Arrival(aborted), now))
  {
    ArrivalRejected(s, aborted);
    if s.waiters == [] && s.active < s.capacity {
      ArrivalGranted(s, aborted);
    } else if |s.waiters| < MAX_WAITERS {
      var w := Waiter(|s.requests|, now + ADMISSION_WAIT_MS);
      ArrivalQueued(s, aborted, w);
      DrainRestores(Arrive(s, aborted).(waiters := s.waiters + [w]), now);
    }
  }

  lemma {:induction false} WithoutAt(ws: seq<Waiter>, id: nat, k: nat)
    requires k < |ws| && ws[k].id == id && forall i, j :: 0 <= i < j < |ws| ==> ws[i].id < ws[j].id
    ensures |Without(ws, id)| == |ws| - 1
    ensures forall m :: 0 <= m < |ws| - 1 ==> Without(ws, id)[m] == ws[if m < k then m else m + 1]
  {
    if k > 0 {
      assert ws[0].id < ws[k].id;
      var rest := ws[1..];
      WithoutAt(rest, id, k - 1);
      forall m | 0 <= m < |ws| - 1 ensures Without(ws, id)[m] == ws[if m < k then m else m + 1] {
        if m > 0 {
          assert Without(ws, id)[m] == Without(rest, id)[m - 1];
        }
      }
    }
  }

  lemma StaysQueued(ws: seq<Waiter>, id: nat, k: nat, j: nat)
    requires k < |ws| && ws[k].id == id && forall i, m :: 0 <= i < m < |ws| ==> ws[i].id < ws[m].id
    requires j != id && InQueue(ws, j)
    ensures InQueue(Without(ws, id), j)
  {
    var m :| 0 <= m < |ws| && ws[m].id == j;
    WithoutAt(ws, id, k);
    assert Without(ws, id)[if m < k then m else m - 1].id == j;
  }

  lemma WaiterDropped(s: State, id: nat, k: nat, left: seq<Waiter>)
    requires Core(s) && k < |s.waiters| && s.waiters[k].id == id && |left| == |s.waiters| - 1
    requires forall m :: 0 <= m < |left| ==> left[m] == s.waiters[if m < k then m else m + 1]
    ensures Core(s.(waiters := left)) && !InQueue(left, id)
  {
    assert QueueOrdered(left, s.requests);
    forall m | 0 <= m < |left| ensures left[m].id != id {
      assert left[m] == s.waiters[if m < k then m else m + 1];
    }
  }

  lemma CancelCore(s: State, id: nat, k: nat)
    requires Core(s) && id < |s.requests| && s.requests[id].phase.Queued? && k < |s.waiters| && s.waiters[k].id == id
    ensures Core(Cancel(s, id)) && |Cancel(s, id).waiters| < |s.waiters|
  {
    WithoutAt(s.waiters, id, k);
    WaiterDropped(s, id, k, Without(s.waiters, id));
    assert Accounted(s.requests[id]);
    CoreUpdate(s.(waiters := Without(s.waiters, id)), id,
               s.requests[id].(phase := Ended, settled := s.requests[id].settled + 1), s.active);
  }

  lemma CancelKeeps(s: State, id: nat)
    requires Inv(s) && id < |s.requests|
    ensures Inv(Cancel(s, id))
  {
    if s.requests[id].phase.Queued? {
      var k :| 0 <= k < |s.waiters| && s.waiters[k].id == id;
      CancelCore(s, id, k);
      var t := Cancel(s, id);
      forall j | 0 <= j < |t.requests| && t.requests[j].phase.Queued? ensures InQueue(t.waiters, j) {
        StaysQueued(s.waiters, id, k, j);
      }
    }
  }

  lemma NotInQueue(s: State, id: nat)
    requires Core(s) && id < |s.requests| && !s.requests[id].phase.Queued?
    ensures !InQueue(s.waiters, id)
  {
  }

  /** A request that is not waiting changes without touching the queue or its lease. */
  lemma RequestKeeps(s: State, id: nat, r: Request)
    requires Inv(s) && id < |s.requests| && !s.requests[id].phase.Queued? && !r.phase.Queued?
    requires Accounted(r) && HoldsLease(r) == HoldsLease(s.requests[id])
    ensures Inv(With(s, id, r))
  {
    NotInQueue(s, id);
    CoreUpdate(s, id, r, s.active);
  }

  lemma AbandonKeeps(s: State, id: nat)
    requires Inv(s) && id < |s.requests|
    ensures Inv(Abandon(s, id))
  {
    var r := s.requests[id];
    assert Accounted(r);
    if r.phase == Reserving(false) {
      RequestKeeps(s, id, r.(phase := Reserving(true), settled := r.settled + 1));
    }
  }

  lemma AbortedKeeps(s: State, id: nat)
    requires Inv(s) && id < |s.requests|
    ensures Inv(With(s, id, s.requests[id].(aborted := true)))
  {
    var r := s.requests[id].(aborted := true);
    var t := With(s, id, r);
    OutstandingUpdate(s.requests, id, r);
    assert Accounted(s.requests[id]);
    assert forall k :: 0 <= k < |s.requests| ==> t.requests[k].phase == s.requests[k].phase;
    assert AllAccounted(t.requests) && QueueOrdered(t.waiters, t.requests);
  }

  lemma DisconnectKeeps(s: State, id: nat)
    requires Inv(s) && id < |s.requests|
    ensures Inv(Disconnect(s, id))
  {
    var t := With(s, id, s.requests[id].(aborted := true));
    AbortedKeeps(s, id);
    if t.requests[id].phase.Queued? {
      CancelKeeps(t, id);
    } else {
      AbandonKeeps(t, id);
    }
  }

  lemma ReturnBooks(r: Request)
    requires Accounted(r) && HoldsLease(r)
    ensures var done := r.(settled := 1, phase := Ended, returned := r.returned + 1); Accounted(done) && !HoldsLease(done)
    ensures r.returned == 0
  {
  }

  /** A request that leaves with its lease: nothing else changes until the queue is drained. */
  lemma LeaseReturned(s: State, id: nat, done: Request)
    requires Inv(s) && id < |s.requests| && HoldsLease(s.requests[id])
    requires done == s.requests[id].(settled := 1, phase := Ended, returned := s.requests[id].returned + 1)
    ensures var u := With(s, id, done).(active := s.active - 1); Core(u) && AllQueued(u)
  {
    assert Accounted(s.requests[id]);
    ReturnBooks(s.requests[id]);
    NotInQueue(s, id);
    CoreUpdate(s, id, done, s.active - 1);
    QueuedUpdate(s, id, done, s.active - 1);
  }

  /** A lease is given back by a request whose promise is settled. */
  lemma GiveBackKeeps(s: State, id: nat, r: Request, now: int)
    requires Inv(s) && id < |s.requests| && HoldsLease(s.requests[id])
    requires r == s.requests[id].(settled := 1)
    ensures WaitersKnown(With(s, id, r)) && Inv(GiveBack(With(s, id, r), id, now))
  {
    var t, done := With(s, id, r), r.(phase := Ended, returned := r.returned + 1);
    var u := With(s, id, done).(active := s.active - 1);
    assert Accounted(s.requests[id]);
    ReturnBooks(s.requests[id]);
    LeaseReturned(s, id, done);
    assert s.requests[id := r][id := done] == s.requests[id := done];
    assert With(t, id, done).(active := t.active - 1) == u;
    DrainRestores(u, now);
  }

  lemma ResumeKeeps(s: State, id: nat, throws: bool, now: int)
    requires Inv(s) && WaitersKnown(s) && id < |s.requests| && s.requests[id].phase.Leased?
    ensures Inv(Resume(s, id, throws, now))
  {
    assert Accounted(s.requests[id]);
    if s.requests[id].aborted || throws {
      GiveBackKeeps(s, id, s.requests[id].(settled := s.requests[id].settled + 1), now);
    } else {
      RequestKeeps(s, id, s.requests[id].(phase := Reserving(false)));
    }
  }

  lemma SettledKeeps(s: State, id: nat, connected: bool, now: int)
    requires Inv(s) && WaitersKnown(s) && id < |s.requests| && s.requests[id].phase.Reserving?
    ensures Inv(Settled(s, id, connected, now))
  {
    var r := s.requests[id];
    assert Accounted(r);
    if r.phase == Reserving(true) {
      assert With(s, id, r) == s;
      GiveBackKeeps(s, id, r, now);
    } else if !connected || r.aborted {
      GiveBackKeeps(s, id, r.(settled := r.settled + 1), now);
    } else {
      RequestKeeps(s, id, r.(phase := Holding, settled := r.settled + 1));
    }
  }

  lemma ReleaseKeeps(s: State, id: nat, now: int)
    requires Inv(s) && WaitersKnown(s) && id < |s.requests|
    ensures Inv(Release(s, id, now))
  {
    assert Accounted(s.requests[id]);
    if s.requests[id].phase.Holding? {
      assert With(s, id, s.requests[id]) == s;
      GiveBackKeeps(s, id, s.requests[id], now);
    }
  }

  lemma StepKeeps(s: State, e: Event, now: int)
    requires Inv(s) && Enabled(s, e)
    ensures WaitersKnown(s) && Inv(Step(s, e, now))
  {
    match e
    case Arrival(aborted) => ArrivalKeeps(s, aborted, now);
    case TimerFires(id) => CancelKeeps(s, id);
    case Disconnects(id) => DisconnectKeeps(s, id);
    case TimesOut(id) => AbandonKeeps(s, id);
    case Resumes(id, throws) => ResumeKeeps(s, id, throws, now);
    case Settles(id, connected) => SettledKeeps(s, id, connected, now);
    case Releases(id) => ReleaseKeeps(s, id, now);
  }

  /** A run: events with the times at which they happen. */
  predicate Run(capacity: nat, es: seq<(Event, int)>, ss: seq<State>) {
    && |ss| == |es| + 1 && ss[0] == State(0, capacity, [], [], [])
    && forall k :: 0 <= k < |es| ==>
         WaitersKnown(ss[k]) && Enabled(ss[k], es[k].0) && ss[k + 1] == Step(ss[k], es[k].0, es[k].1)
  }

  lemma {:induction false} RunInv(capacity: nat, es: seq<(Event, int)>, ss: seq<State>, k: nat)
    requires Run(capacity, es, ss) && k <= |es|
    ensures Inv(ss[k]) && ss[k].capacity == capacity
  {
    if k > 0 {
      RunInv(capacity, es, ss, k - 1);
      StepKeeps(ss[k - 1], es[k - 1].0, es[k - 1].1);
      assert ss[k - 1 + 1] == Step(ss[k - 1], es[k - 1].0, es[k - 1].1);
      StepCapacity(ss[k - 1], es[k - 1].0, es[k - 1].1);
    }
  }

  lemma {:induction false} DrainCapacity(s: State, now: int)
    requires WaitersKnown(s)
    ensures Drain(s, now).capacity == s.capacity
    decreases |s.waiters|
  {
    if s.active < s.capacity && s.waiters != [] {
      var w, t := s.waiters[0], s.(waiters := s.waiters[1..]);
      DrainCapacity(if s.requests[w.id].aborted || now >= w.deadline then Reject(t, w.id) else Grant(t, w.id), now);
    }
  }

  lemma StepCapacity(s: State, e: Event, now: int)
    requires WaitersKnown(s) && Enabled(s, e)
    ensures Step(s, e, now).capacity == s.capacity
  {
    match e
    case Arrival(aborted) =>
      var t := Arrive(s, aborted);
      DrainCapacity(t.(waiters := t.waiters + [Waiter(|s.requests|, now + ADMISSION_WAIT_MS)]), now);
    case Resumes(id, throws) => ReturnCapacity(s, id, now);
    case Settles(id, connected) => ReturnCapacity(s, id, now);
    case Releases(id) => ReturnCapacity(s, id, now);
    case _ =>
  }

  lemma ReturnCapacity(s: State, id: nat, now: int)
    requires WaitersKnown(s) && id < |s.requests|
    ensures GiveBack(s, id, now).capacity == s.capacity && RejectAndReturn(s, id, now).capacity == s.capacity
  {
    var t := With(s, id, s.requests[id].(settled := s.requests[id].settled + 1));
    DrainCapacity(With(s, id, s.requests[id].(phase := Ended, returned := s.requests[id].returned + 1)).(active := s.active - 1), now);
    DrainCapacity(With(t, id, t.requests[id].(phase := Ended, returned := t.requests[id].returned + 1)).(active := t.active - 1), now);
  }

  /** Under any interleaving: the counter equals the outstanding leases and stays within capacity, at most 64 wait, nobody
      waits while a place is free, and admissions follow the order of arrival. */
  lemma AdmissionSafe(capacity: nat, es: seq<(Event, int)>, ss: seq<State>)
    requires Run(capacity, es, ss)
    ensures var s := ss[|es|];
            && s.active == Outstanding(s.requests) <= capacity && |s.waiters| <= MAX_WAITERS
            && (s.waiters != [] ==> s.active == capacity)
            && Ascending(s.grants)
            && forall g, k :: 0 <= g < |s.grants| && 0 <= k < |s.waiters| ==> s.grants[g] < s.waiters[k].id
  {
    RunInv(capacity, es, ss, |es|);
  }

  /** Every promise is settled at most once, and every finished request settled it and gave back the lease it had. */
  lemma SettledOnce(capacity: nat, es: seq<(Event, int)>, ss: seq<State>, id: nat)
    requires Run(capacity, es, ss) && id < |ss[|es|].requests|
    ensures var r := ss[|es|].requests[id];
            && r.settled <= 1 && r.returned <= r.leased <= 1
            && (r.phase.Ended? ==> r.settled == 1 && r.returned == r.leased)
            && (!r.phase.Ended? ==> r.returned == 0)
            && (r.phase == Reserving(true) ==> r.settled == 1 && r.leased == 1)
            && (r.phase.Queued? <==> InQueue(ss[|es|].waiters, id))
  {
    RunInv(capacity, es, ss, |es|);
    assert Accounted(ss[|es|].requests[id]);
  }
}
