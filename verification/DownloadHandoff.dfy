/** Who gets a free place, and who is turned away (src/media/download-limits.ts:43-79): the arrival, the queue and the
    handing over of places in whole runs, with the times at which requests arrived. */
module DownloadHandoff {
  import opened DownloadLimits

  /** The waiter may still be admitted. */
  predicate InTime(s: State, w: Waiter, now: int)
    requires w.id < |s.requests|
  {
    !s.requests[w.id].aborted && now < w.deadline
  }

  predicate Outside(ws: seq<Waiter>, id: nat) { forall k :: 0 <= k < |ws| ==> ws[k].id != id }

  predicate SameRequest(s: State, t: State, id: nat) {
    id < |s.requests| == |t.requests| && t.requests[id] == s.requests[id]
  }

  // ---------------------------------------------------------------- one handing over

  /** The first j waiters are gone, the ones in time admitted and the others turned away; nobody else is touched. */
  predicate Drained(s: State, now: int, j: nat, t: State) {
    && j <= |s.waiters| && WaitersKnown(s) && |t.requests| == |s.requests| && t.waiters == s.waiters[j..]
    && (forall k :: 0 <= k < j ==>
         t.requests[s.waiters[k].id].phase == if InTime(s, s.waiters[k], now) then Leased else Ended)
    && (forall id :: 0 <= id < |s.requests| ==> t.requests[id].aborted == s.requests[id].aborted)
    && (forall id :: 0 <= id < |s.requests| && Outside(s.waiters[..j], id) ==> t.requests[id] == s.requests[id])
  }

  /** The head of the queue taken off, admitted or turned away. */
  function HeadTurn(s: State, now: int): State
    requires s.waiters != [] && WaitersKnown(s)
  {
    var w, t := s.waiters[0], s.(waiters := s.waiters[1..]);
    if s.requests[w.id].aborted || now >= w.deadline then Reject(t, w.id) else Grant(t, w.id)
  }

  lemma HeadTurned(s: State, now: int)
    requires s.waiters != [] && QueueOrdered(s.waiters, s.requests)
    ensures var t, w := HeadTurn(s, now), s.waiters[0];
            && t.waiters == s.waiters[1..] && t.capacity == s.capacity && QueueOrdered(t.waiters, t.requests)
            && |t.requests| == |s.requests| && t.requests[w.id].phase == (if InTime(s, w, now) then Leased else Ended)
            && t.active == s.active + (if InTime(s, w, now) then 1 else 0)
            && t.requests[w.id].aborted == s.requests[w.id].aborted
            && (forall id :: 0 <= id < |s.requests| && id != w.id ==> t.requests[id] == s.requests[id])
            && (forall k :: 0 <= k < |t.waiters| ==> t.waiters[k].id != w.id)
    ensures s.active < s.capacity ==> Drain(s, now) == Drain(HeadTurn(s, now), now)
  {
    var t := HeadTurn(s, now);
    forall k | 0 <= k < |t.waiters| ensures t.waiters[k].id != s.waiters[0].id { assert t.waiters[k] == s.waiters[k + 1]; }
  }

  lemma DrainedMore(s: State, now: int, j: nat, t: State)
    requires s.waiters != [] && QueueOrdered(s.waiters, s.requests) && Drained(HeadTurn(s, now), now, j, t)
    ensures Drained(s, now, j + 1, t)
  {
    var u, w := HeadTurn(s, now), s.waiters[0];
    HeadTurned(s, now);
    assert u.waiters[j..] == s.waiters[j + 1..];
    forall k | 0 <= k < j + 1 ensures t.requests[s.waiters[k].id].phase == if InTime(s, s.waiters[k], now) then Leased else Ended {
      if k > 0 {
        assert u.waiters[k - 1] == s.waiters[k];
        assert u.requests[s.waiters[k].id] == s.requests[s.waiters[k].id];
      } else {
        assert Outside(u.waiters[..j], w.id);
      }
    }
    forall id | 0 <= id < |s.requests| && Outside(s.waiters[..j + 1], id) ensures t.requests[id] == s.requests[id] {
      assert s.waiters[..j + 1][0] == w;
      forall k | 0 <= k < j ensures u.waiters[..j][k].id != id { assert u.waiters[..j][k] == s.waiters[..j + 1][k + 1]; }
    }
  }

  /** Handing over takes waiters from the front only, and does nothing but admit and turn away. */
  lemma {:induction false} DrainHands(s: State, now: int) returns (j: nat)
    requires QueueOrdered(s.waiters, s.requests)
    ensures WaitersKnown(s) && Drained(s, now, j, Drain(s, now))
    decreases |s.waiters|
  {
    if s.active < s.capacity && s.waiters != [] {
      HeadTurned(s, now);
      var i := DrainHands(HeadTurn(s, now), now);
      DrainedMore(s, now, i, Drain(HeadTurn(s, now), now));
      j := i + 1;
    } else {
      j := 0;
    }
  }

  /** A free place goes to the first waiter in time. */
  lemma {:induction false} FirstServed(s: State, now: int, q: nat)
    requires QueueOrdered(s.waiters, s.requests) && s.active < s.capacity && q < |s.waiters|
    requires InTime(s, s.waiters[q], now) && forall k :: 0 <= k < q ==> !InTime(s, s.waiters[k], now)
    ensures WaitersKnown(s) && s.waiters[q].id < |Drain(s, now).requests|
    ensures Drain(s, now).requests[s.waiters[q].id].phase.Leased?
    decreases q
  {
    var u := HeadTurn(s, now);
    HeadTurned(s, now);
    if q == 0 {
      var j := DrainHands(u, now);
      assert Outside(u.waiters[..j], s.waiters[0].id);
    } else {
      forall k | 0 <= k < q ensures u.waiters[k] == s.waiters[k + 1] && u.requests[u.waiters[k].id] == s.requests[u.waiters[k].id] {
        assert u.waiters[k].id != s.waiters[0].id;
      }
      assert !InTime(s, s.waiters[0], now);
      forall k | 0 <= k < q - 1 ensures !InTime(u, u.waiters[k], now) { assert !InTime(s, s.waiters[k + 1], now); }
      FirstServed(u, now, q - 1);
    }
  }

  // ---------------------------------------------------------------- events

  /** Some request gives its place back. */
  predicate PlaceReturned(s: State, t: State) {
    exists id :: 0 <= id < |s.requests| && id < |t.requests| && t.requests[id].returned > s.requests[id].returned
  }

  /** The state between giving a place back and handing it over: nobody in the queue has changed. */
  predicate Freed(s: State, u: State) {
    && u.waiters == s.waiters && u.capacity == s.capacity && u.active == s.active - 1 && |u.requests| == |s.requests|
    && forall id :: 0 <= id < |s.requests| && s.requests[id].phase.Queued? ==> u.requests[id] == s.requests[id]
  }

  lemma FreedOrdered(s: State, u: State)
    requires Inv(s) && Freed(s, u)
    ensures QueueOrdered(u.waiters, u.requests)
  {
  }

  /** The events that end a lease. */
  predicate Ends(s: State, e: Event)
    requires Enabled(s, e)
  {
    match e
    case Resumes(id, throws) => s.requests[id].aborted || throws
    case Settles(id, connected) => s.requests[id].phase == Reserving(true) || !connected || s.requests[id].aborted
    case Releases(id) => s.requests[id].phase.Holding?
    case _ => false
  }

  /** Request id has ended; nothing else about the requests is different. */
  predicate LeftBy(s: State, u: State, id: nat) {
    && id < |s.requests| == |u.requests| && u.requests[id].phase.Ended? && u.requests[id].aborted == s.requests[id].aborted
    && forall k :: 0 <= k < |s.requests| && k != id ==> u.requests[k] == s.requests[k]
  }

  lemma GiveBackFrees(s: State, v: State, id: nat, now: int) returns (u: State)
    requires Inv(s) && id < |s.requests| && HoldsLease(s.requests[id])
    requires id < |v.requests| && v.requests == s.requests[id := v.requests[id]]
    requires v == s.(requests := v.requests) && v.requests[id].returned == 0 && v.requests[id].aborted == s.requests[id].aborted
    ensures Freed(s, u) && WaitersKnown(v) && WaitersKnown(u) && GiveBack(v, id, now) == Drain(u, now)
    ensures id < |u.requests| && u.requests[id].returned == 1 && LeftBy(s, u, id)
  {
    u := With(v, id, v.requests[id].(phase := Ended, returned := v.requests[id].returned + 1)).(active := v.active - 1);
  }

  lemma EndFrees(s: State, e: Event, now: int) returns (u: State, id: nat)
    requires Inv(s) && Enabled(s, e) && Ends(s, e)
    ensures WaitersKnown(s) && WaitersKnown(u) && Freed(s, u) && Step(s, e, now) == Drain(u, now)
    ensures id < |s.requests| && !s.requests[id].phase.Queued? && s.requests[id].returned == 0
    ensures id < |u.requests| && u.requests[id].returned == 1 && LeftBy(s, u, id)
    ensures !e.Arrival? && id == e.id
  {
    id := e.id;
    assert Accounted(s.requests[id]);
    var r := s.requests[id];
    var rejected := With(s, id, r.(settled := r.settled + 1));
    if e.Resumes? || (e.Settles? && r.phase != Reserving(true)) {
      u := GiveBackFrees(s, rejected, id, now);
    } else {
      u := GiveBackFrees(s, s, id, now);
    }
  }

  /** An event that ends no lease and is no arrival admits nobody, and turns away only whose timer or disconnect it is. */
  lemma OthersWait(s: State, e: Event, now: int)
    requires Inv(s) && Enabled(s, e) && !Ends(s, e) && !e.Arrival?
    ensures WaitersKnown(s) && |Step(s, e, now).requests| == |s.requests| && !PlaceReturned(s, Step(s, e, now))
    ensures forall id :: 0 <= id < |s.requests| && s.requests[id].phase.Queued? ==>
              Step(s, e, now).requests[id] ==
              if e == TimerFires(id) then s.requests[id].(phase := Ended, settled := s.requests[id].settled + 1)
              else if e == Disconnects(id) then s.requests[id].(phase := Ended, settled := s.requests[id].settled + 1, aborted := true)
              else s.requests[id]
  {
    if !e.Arrival? {
      assert Accounted(s.requests[e.id]);
    }
  }

  /** An arrival touches nobody else, since nobody waits while a place is free. */
  lemma ArrivalAlone(s: State, aborted: bool, now: int)
    requires Inv(s)
    ensures WaitersKnown(s)
    ensures var t, id := Step(s, Arrival(aborted), now), |s.requests|;
            && |t.requests| == id + 1 && (forall k :: 0 <= k < id ==> t.requests[k] == s.requests[k])
            && (t.requests[id].phase.Leased? <==> !aborted && s.waiters == [] && s.active < s.capacity)
            && (t.requests[id].phase.Queued? <==> !aborted && s.active == s.capacity && |s.waiters| < 64)
            && (t.requests[id].phase.Leased? || t.requests[id].phase.Queued? || t.requests[id].phase.Ended?)
            && t.waiters == s.waiters + (if t.requests[id].phase.Queued? then [Waiter(id, now + 1000)] else [])
            && t.requests[id].aborted == aborted && !PlaceReturned(s, t)
  {
    var u := Arrive(s, aborted);
    assert forall k :: 0 <= k < |s.requests| ==> u.requests[k] == s.requests[k];
  }

  // ---------------------------------------------------------------- runs

  /** When the requests arrived, in their order. */
  function Times(es: seq<(Event, int)>, k: nat): seq<int>
    requires k <= |es|
  {
    if k == 0 then [] else Times(es, k - 1) + if es[k - 1].0.Arrival? then [es[k - 1].1] else []
  }

  /** When request id arrived. */
  function TimeOf(es: seq<(Event, int)>, k: nat, id: nat): int
    requires k <= |es|
  {
    if id < |Times(es, k)| then Times(es, k)[id] else 0
  }

  /** Every waiter has a second from its arrival, and its client is still there. */
  predicate Dated(s: State, times: seq<int>) {
    && |times| == |s.requests| && WaitersKnown(s)
    && forall k :: 0 <= k < |s.waiters| ==>
         s.waiters[k].deadline == times[s.waiters[k].id] + 1000 && !s.requests[s.waiters[k].id].aborted
  }

  lemma WithoutOthers(s: State, id: nat)
    requires Inv(s) && id < |s.requests| && s.requests[id].phase.Queued?
    ensures forall w :: w in Without(s.waiters, id) ==> w in s.waiters && w.id != id
  {
    var k :| 0 <= k < |s.waiters| && s.waiters[k].id == id;
    WithoutAt(s.waiters, id, k);
    forall w | w in Without(s.waiters, id) ensures w in s.waiters && w.id != id {
      var m :| 0 <= m < |Without(s.waiters, id)| && Without(s.waiters, id)[m] == w;
      assert w == s.waiters[if m < k then m else m + 1];
    }
  }

  lemma QueueSame(s: State, e: Event, now: int)
    requires Inv(s) && Enabled(s, e) && !e.Arrival? && !Ends(s, e)
    ensures WaitersKnown(s)
    ensures Step(s, e, now).waiters ==
            if (e.TimerFires? || e.Disconnects?) && s.requests[e.id].phase.Queued? then Without(s.waiters, e.id) else s.waiters
  {
    assert Accounted(s.requests[e.id]);
  }

  lemma HandingShrinks(u: State, now: int, w: Waiter)
    requires QueueOrdered(u.waiters, u.requests) && WaitersKnown(u) && w in Drain(u, now).waiters
    ensures w in u.waiters && w.id < |u.requests| == |Drain(u, now).requests| && Drain(u, now).requests[w.id] == u.requests[w.id]
  {
    var t := Drain(u, now);
    var j := DrainHands(u, now);
    var k :| 0 <= k < |t.waiters| && t.waiters[k] == w;
    assert u.waiters[j + k] == w;
    forall i | 0 <= i < j ensures u.waiters[..j][i].id != w.id { assert u.waiters[i].id < u.waiters[j + k].id; }
  }

  lemma WaitingShrinks(s: State, e: Event, now: int, w: Waiter)
    requires Inv(s) && Enabled(s, e) && !e.Arrival? && !Ends(s, e) && WaitersKnown(s) && w in Step(s, e, now).waiters
    ensures w in s.waiters && w.id < |s.requests| == |Step(s, e, now).requests|
    ensures Step(s, e, now).requests[w.id] == s.requests[w.id]
  {
    OthersWait(s, e, now);
    QueueSame(s, e, now);
    if (e.TimerFires? || e.Disconnects?) && s.requests[e.id].phase.Queued? {
      WithoutOthers(s, e.id);
    }
    var k :| 0 <= k < |s.waiters| && s.waiters[k] == w;
    assert s.requests[w.id].phase.Queued?;
  }

  /** Nobody joins the queue but an arrival, and whoever stays in it is as before. */
  lemma QueueShrinks(s: State, e: Event, now: int, w: Waiter)
    requires Inv(s) && Enabled(s, e) && !e.Arrival? && WaitersKnown(s) && w in Step(s, e, now).waiters
    ensures w in s.waiters && w.id < |s.requests| == |Step(s, e, now).requests|
    ensures Step(s, e, now).requests[w.id] == s.requests[w.id]
  {
    if Ends(s, e) {
      var u, id := EndFrees(s, e, now);
      FreedOrdered(s, u);
      HandingShrinks(u, now, w);
      var k :| 0 <= k < |s.waiters| && s.waiters[k] == w;
      assert s.requests[w.id].phase.Queued?;
    } else {
      WaitingShrinks(s, e, now, w);
    }
  }

  lemma RequestsKept(s: State, e: Event, now: int)
    requires Inv(s) && Enabled(s, e) && !e.Arrival?
    ensures WaitersKnown(s) && |Step(s, e, now).requests| == |s.requests|
  {
    if Ends(s, e) {
      var u, id := EndFrees(s, e, now);
      FreedOrdered(s, u);
      var j := DrainHands(u, now);
    } else {
      OthersWait(s, e, now);
    }
  }

  lemma StepDated(s: State, e: Event, now: int, times: seq<int>)
    requires Inv(s) && Enabled(s, e) && Dated(s, times)
    ensures Dated(Step(s, e, now), times + if e.Arrival? then [now] else [])
  {
    var t, more := Step(s, e, now), times + if e.Arrival? then [now] else [];
    StepKeeps(s, e, now);
    if e.Arrival? {
      ArrivalAlone(s, e.aborted, now);
    } else {
      RequestsKept(s, e, now);
      forall k | 0 <= k < |t.waiters|
        ensures t.waiters[k].deadline == more[t.waiters[k].id] + 1000 && !t.requests[t.waiters[k].id].aborted
      {
        assert t.waiters[k] in t.waiters;
        QueueShrinks(s, e, now, t.waiters[k]);
        var m :| 0 <= m < |s.waiters| && s.waiters[m] == t.waiters[k];
      }
    }
  }

  lemma {:induction false} RunDated(capacity: nat, es: seq<(Event, int)>, ss: seq<State>, k: nat)
    requires Run(capacity, es, ss) && k <= |es|
    ensures Inv(ss[k]) && ss[k].capacity == capacity && Dated(ss[k], Times(es, k))
  {
    RunInv(capacity, es, ss, k);
    if k > 0 {
      var j := k - 1;
      RunDated(capacity, es, ss, j);
      assert ss[j + 1] == Step(ss[j], es[j].0, es[j].1);
      StepDated(ss[j], es[j].0, es[j].1, Times(es, j));
    }
  }

  /** Whoever arrives and is still there is admitted at once exactly when nobody waits and a place is free, queued when not
      and fewer than 64 wait, and otherwise refused; nobody else is touched. */
  lemma ArrivalExact(capacity: nat, es: seq<(Event, int)>, ss: seq<State>, k: nat)
    requires Run(capacity, es, ss) && k < |es| && es[k].0.Arrival?
    ensures var s, t, id := ss[k], ss[k + 1], |ss[k].requests|;
            && |t.requests| == id + 1 && (forall i :: 0 <= i < id ==> t.requests[i] == s.requests[i])
            && (t.requests[id].phase.Leased? <==>
                 !es[k].0.aborted && s.waiters == [] && Outstanding(s.requests) < capacity)
            && (t.requests[id].phase.Queued? <==>
                 !es[k].0.aborted && Outstanding(s.requests) == capacity && |s.waiters| < 64)
            && (t.requests[id].phase.Leased? || t.requests[id].phase.Queued? || t.requests[id].phase.Ended?)
  {
    RunInv(capacity, es, ss, k);
    assert ss[k + 1] == Step(ss[k], es[k].0, es[k].1);
    ArrivalAlone(ss[k], es[k].0.aborted, es[k].1);
  }

  /** Who waits is admitted only when a place is given back within a second of the arrival, and is turned away only by its
      own timer, by its own client, or when a place is given back after that second. */
  lemma WaitEnds(capacity: nat, es: seq<(Event, int)>, ss: seq<State>, k: nat, id: nat)
    requires Run(capacity, es, ss) && k < |es| && id < |ss[k].requests| && ss[k].requests[id].phase.Queued?
    ensures id < |ss[k + 1].requests|
    ensures var phase, late := ss[k + 1].requests[id].phase, es[k].1 >= TimeOf(es, k, id) + 1000;
            && (phase.Leased? ==> PlaceReturned(ss[k], ss[k + 1]) && !late)
            && (phase.Ended? ==> es[k].0 == TimerFires(id) || es[k].0 == Disconnects(id) || (PlaceReturned(ss[k], ss[k + 1]) && late))
            && (phase.Leased? || phase.Ended? || phase.Queued?)
  {
    var s, t, e, now := ss[k], ss[k + 1], es[k].0, es[k].1;
    RunDated(capacity, es, ss, k);
    assert t == Step(s, e, now);
    if e.Arrival? {
      ArrivalAlone(s, e.aborted, now);
    } else if Ends(s, e) {
      var u, i := EndFrees(s, e, now);
      PlaceHandedOver(s, u, now, i, Times(es, k), id);
    } else {
      OthersWait(s, e, now);
    }
  }

  /** What becomes of waiter q when the first j waiters are handed over. */
  lemma WaiterTurned(u: State, now: int, q: nat, j: nat)
    requires QueueOrdered(u.waiters, u.requests) && WaitersKnown(u) && q < |u.waiters| && Drained(u, now, j, Drain(u, now))
    ensures var w, t := u.waiters[q], Drain(u, now);
            && w.id < |t.requests|
            && (q < j ==> t.requests[w.id].phase == if InTime(u, w, now) then Leased else Ended)
            && (q >= j ==> t.requests[w.id] == u.requests[w.id])
  {
    if q >= j {
      var id := u.waiters[q].id;
      forall k | 0 <= k < j ensures u.waiters[..j][k].id != id { assert u.waiters[k].id < u.waiters[q].id; }
    }
  }

  /** Handing over leaves the request alone that gave its place back. */
  lemma ReturnStands(s: State, u: State, now: int, i: nat, j: nat)
    requires Inv(s) && Freed(s, u) && WaitersKnown(u) && i < |s.requests| && Drained(u, now, j, Drain(u, now))
    requires i < |u.requests| && !s.requests[i].phase.Queued?
    ensures i < |Drain(u, now).requests| && Drain(u, now).requests[i] == u.requests[i]
  {
    forall k | 0 <= k < j ensures u.waiters[..j][k].id != i { assert s.requests[s.waiters[k].id].phase.Queued?; }
    assert Outside(u.waiters[..j], i);
  }

  lemma PlaceHandedOver(s: State, u: State, now: int, i: nat, times: seq<int>, id: nat)
    requires Inv(s) && Freed(s, u) && WaitersKnown(u) && Dated(s, times) && id < |s.requests| && s.requests[id].phase.Queued?
    requires i < |u.requests| && !s.requests[i].phase.Queued? && s.requests[i].returned == 0 && u.requests[i].returned == 1
    ensures var t := Drain(u, now);
            && |t.requests| == |s.requests| && PlaceReturned(s, t)
            && (t.requests[id].phase.Leased? ==> now < times[id] + 1000)
            && (t.requests[id].phase.Ended? ==> now >= times[id] + 1000)
            && (t.requests[id].phase.Leased? || t.requests[id].phase.Ended? || t.requests[id].phase.Queued?)
  {
    var t := Drain(u, now);
    FreedOrdered(s, u);
    var j := DrainHands(u, now);
    assert InQueue(s.waiters, id);
    var q :| 0 <= q < |s.waiters| && s.waiters[q].id == id;
    WaiterTurned(u, now, q, j);
    ReturnStands(s, u, now, i, j);
    assert t.requests[i].returned > s.requests[i].returned;
  }

  /** When a place is given back, the first waiter who came less than a second ago gets it. */
  lemma FirstInTimeServed(capacity: nat, es: seq<(Event, int)>, ss: seq<State>, k: nat, q: nat)
    requires Run(capacity, es, ss) && k < |es| && PlaceReturned(ss[k], ss[k + 1]) && q < |ss[k].waiters|
    requires es[k].1 < TimeOf(es, k, ss[k].waiters[q].id) + 1000
    requires forall i :: 0 <= i < q ==> es[k].1 >= TimeOf(es, k, ss[k].waiters[i].id) + 1000
    ensures ss[k].waiters[q].id < |ss[k + 1].requests| && ss[k + 1].requests[ss[k].waiters[q].id].phase.Leased?
  {
    var s, e, now := ss[k], es[k].0, es[k].1;
    RunDated(capacity, es, ss, k);
    assert ss[k + 1] == Step(s, e, now);
    if e.Arrival? {
      ArrivalAlone(s, e.aborted, now);
    } else if !Ends(s, e) {
      OthersWait(s, e, now);
    } else {
      var u, id := EndFrees(s, e, now);
      FreedOrdered(s, u);
      forall i | 0 <= i < |s.waiters| ensures u.requests[s.waiters[i].id] == s.requests[s.waiters[i].id] {
        assert s.requests[s.waiters[i].id].phase.Queued?;
      }
      FirstServed(u, now, q);
    }
  }

  // ---------------------------------------------------------------- delivery

  /** The client went away, or was gone when the request came. */
  predicate Gone(es: seq<(Event, int)>, ss: seq<State>, id: nat, k: nat)
    requires k <= |es| < |ss|
  {
    exists j :: 0 <= j < k && (es[j].0 == Disconnects(id) || (es[j].0 == Arrival(true) && |ss[j].requests| == id))
  }

  /** The request timed out, or its client went away, while its native reservation was outstanding. */
  predicate Abandoned(es: seq<(Event, int)>, ss: seq<State>, id: nat, k: nat)
    requires k <= |es| < |ss|
  {
    exists j :: 0 <= j < k && (es[j].0 == TimesOut(id) || es[j].0 == Disconnects(id)) &&
                id < |ss[j].requests| && ss[j].requests[id].phase.Reserving?
  }

  lemma GoneNext(es: seq<(Event, int)>, ss: seq<State>, id: nat, k: nat)
    requires k < |es| < |ss|
    ensures Gone(es, ss, id, k + 1) <==>
            Gone(es, ss, id, k) || es[k].0 == Disconnects(id) || (es[k].0 == Arrival(true) && |ss[k].requests| == id)
    ensures Abandoned(es, ss, id, k + 1) <==>
            Abandoned(es, ss, id, k) || ((es[k].0 == TimesOut(id) || es[k].0 == Disconnects(id)) &&
                                         id < |ss[k].requests| && ss[k].requests[id].phase.Reserving?)
  {
  }

  /** A request keeps its place in the protocol when another one ends; one that waits may be admitted or turned away. */
  predicate MovedByEnd(s: State, t: State, ended: nat, id: nat) {
    && id < |s.requests| == |t.requests| && t.requests[id].aborted == s.requests[id].aborted
    && (s.requests[id].phase.Queued? ==>
         t.requests[id].phase.Queued? || t.requests[id].phase.Leased? || t.requests[id].phase.Ended?)
    && (!s.requests[id].phase.Queued? ==> t.requests[id].phase == if id == ended then Ended else s.requests[id].phase)
  }

  lemma EndMoves(s: State, e: Event, now: int, id: nat)
    requires Inv(s) && Enabled(s, e) && Ends(s, e) && id < |s.requests|
    ensures WaitersKnown(s) && !e.Arrival? && MovedByEnd(s, Step(s, e, now), e.id, id)
  {
    var u, i := EndFrees(s, e, now);
    FreedOrdered(s, u);
    var j := DrainHands(u, now);
    if Outside(u.waiters[..j], id) {
    } else {
      var k :| 0 <= k < j && u.waiters[..j][k].id == id;
      assert u.waiters[k].id == id && s.requests[s.waiters[k].id].phase.Queued?;
    }
  }

  /** The phase after an event that ends no lease. */
  function PhaseAfter(r: Request, e: Event, id: nat): Phase {
    match r.phase
    case Queued => if e == TimerFires(id) || e == Disconnects(id) then Ended else Queued
    case Leased => if e.Resumes? && e.id == id then Reserving(false) else Leased
    case Reserving(abandoned) =>
      if abandoned then r.phase
      else if e == TimesOut(id) || e == Disconnects(id) then Reserving(true)
      else if e.Settles? && e.id == id then Holding
      else r.phase
    case _ => r.phase
  }

  lemma OthersMove(s: State, e: Event, now: int, id: nat)
    requires Inv(s) && Enabled(s, e) && !Ends(s, e) && !e.Arrival? && id < |s.requests|
    ensures WaitersKnown(s) && id < |Step(s, e, now).requests| == |s.requests|
    ensures Step(s, e, now).requests[id].phase == PhaseAfter(s.requests[id], e, id)
    ensures Step(s, e, now).requests[id].aborted == (s.requests[id].aborted || e == Disconnects(id))
  {
    assert Accounted(s.requests[id]) && Accounted(s.requests[e.id]);
  }

  /** What is known of a request is what happened to it. */
  predicate Traced(es: seq<(Event, int)>, ss: seq<State>, k: nat, id: nat)
    requires k <= |es| < |ss| && id < |ss[k].requests|
  {
    var r := ss[k].requests[id];
    && (r.aborted <==> Gone(es, ss, id, k)) && (r.phase == Reserving(false) ==> !r.aborted)
    && (r.phase.Reserving? ==> (r.phase.abandoned <==> Abandoned(es, ss, id, k)))
    && (r.phase.Queued? || r.phase.Leased? ==> !Abandoned(es, ss, id, k))
  }

  lemma NobodyYet(capacity: nat, es: seq<(Event, int)>, ss: seq<State>, id: nat, k: nat)
    requires Run(capacity, es, ss) && k <= |es| && id >= |ss[k].requests|
    ensures !Gone(es, ss, id, k) && !Abandoned(es, ss, id, k)
  {
    forall j | 0 <= j < k
      ensures |ss[j].requests| <= |ss[k].requests| && (es[j].0.Arrival? ==> |ss[j].requests| < |ss[k].requests|)
      ensures es[j].0 != Disconnects(id)
    {
      Grows(capacity, es, ss, j, k);
      assert Enabled(ss[j], es[j].0);
    }
  }

  lemma {:induction false} Grows(capacity: nat, es: seq<(Event, int)>, ss: seq<State>, j: nat, k: nat)
    requires Run(capacity, es, ss) && j < k <= |es|
    ensures |ss[j].requests| + (if es[j].0.Arrival? then 1 else 0) <= |ss[k].requests|
    decreases k
  {
    var i := k - 1;
    RunInv(capacity, es, ss, i);
    assert ss[i + 1] == Step(ss[i], es[i].0, es[i].1);
    if es[i].0.Arrival? {
      ArrivalAlone(ss[i], es[i].0.aborted, es[i].1);
    } else {
      RequestsKept(ss[i], es[i].0, es[i].1);
    }
    if j < i {
      Grows(capacity, es, ss, j, i);
    }
  }

  lemma TracedNext(capacity: nat, es: seq<(Event, int)>, ss: seq<State>, k: nat, id: nat)
    requires Run(capacity, es, ss) && k < |es| && id < |ss[k].requests| && Traced(es, ss, k, id)
    ensures id < |ss[k + 1].requests| && Traced(es, ss, k + 1, id)
  {
    var s, e, now := ss[k], es[k].0, es[k].1;
    RunInv(capacity, es, ss, k);
    assert ss[k + 1] == Step(s, e, now);
    GoneNext(es, ss, id, k);
    if e.Arrival? {
      ArrivalAlone(s, e.aborted, now);
    } else if Ends(s, e) {
      EndMoves(s, e, now, id);
    } else {
      OthersMove(s, e, now, id);
    }
  }

  lemma {:induction false} RunTraced(capacity: nat, es: seq<(Event, int)>, ss: seq<State>, k: nat, id: nat)
    requires Run(capacity, es, ss) && k <= |es| && id < |ss[k].requests|
    ensures Traced(es, ss, k, id)
  {
    if k > 0 {
      var j := k - 1;
      if id < |ss[j].requests| {
        RunTraced(capacity, es, ss, j, id);
        TracedNext(capacity, es, ss, j, id);
      } else {
        NobodyYet(capacity, es, ss, id, j);
        GoneNext(es, ss, id, j);
        RunInv(capacity, es, ss, j);
        assert ss[j + 1] == Step(ss[j], es[j].0, es[j].1);
        if es[j].0.Arrival? {
          ArrivalAlone(ss[j], es[j].0.aborted, es[j].1);
        } else {
          RequestsKept(ss[j], es[j].0, es[j].1);
        }
      }
    }
  }

  /** A request gets a connection exactly when its native reservation arrives and until then its client stayed and it did
      not time out. */
  lemma DeliveredExact(capacity: nat, es: seq<(Event, int)>, ss: seq<State>, k: nat, id: nat)
    requires Run(capacity, es, ss) && k < |es| && id < |ss[k].requests| && !ss[k].requests[id].phase.Holding?
    ensures id < |ss[k + 1].requests|
    ensures ss[k + 1].requests[id].phase.Holding? <==>
            es[k].0 == Settles(id, true) && !Gone(es, ss, id, k) && !Abandoned(es, ss, id, k)
  {
    var s, e, now := ss[k], es[k].0, es[k].1;
    RunInv(capacity, es, ss, k);
    RunTraced(capacity, es, ss, k, id);
    assert ss[k + 1] == Step(s, e, now);
    if e.Arrival? {
      ArrivalAlone(s, e.aborted, now);
    } else if Ends(s, e) {
      EndMoves(s, e, now, id);
    } else {
      OthersMove(s, e, now, id);
    }
  }
}
