/** The transaction of one tenant request (src/api/tenant-request.ts:229-524, src/authz/resource-authorization.ts): hooks,
    client aborts, whole-transaction retries and the inspection gap around one reserved connection at a time. Each event
    is what runs between two awaits. */
module TenantRequest {
  import opened Prelude

  // ---------------------------------------------------------------- resource check

  datatype Scope = Assigned | QualityControl

  /** The tripwire of a restricted grant. */
  datatype Check = NotRequired | Required(scopes: set<Scope>) | Satisfied

  /** `markResourceAuthorizationSatisfied`; None is the error for a scope that was not granted. */
  function Mark(c: Check, via: Scope): Option<Check> {
    if !c.Required? then Some(c) else if via in c.scopes then Some(Satisfied) else None
  }

  predicate Complete(c: Check) { !c.Required? }

  // ---------------------------------------------------------------- state

  type Code = string

  const DURABLE_STATUS: map<Code, int> := map[
    "UPLOAD_SESSION_EXPIRED" := 409, "MEDIA_SIZE_INVALID" := 422, "MEDIA_METADATA_MISMATCH" := 422,
    "MEDIA_CONTENT_INVALID" := 422, "INVITATION_ROLE_NOT_ALLOWED" := 403, "ROLE_ASSIGNMENT_NOT_ALLOWED" := 403,
    "SELF_ROLE_MODIFICATION_FORBIDDEN" := 403, "DOMAIN_ACTION_FORBIDDEN" := 403]

  /** What the route declared: its durable codes, and which gap it may use. */
  datatype Route = Route(durable: set<Code>, retries: bool, inspects: bool)

  datatype Who = Who(tenant: string, user: string, membership: string)

  datatype Action = Commit | Rollback

  datatype Status = Open | Closing(action: Action) | Closed(action: Action)

  /** One reserved connection with its transaction. `releases` counts; `reply` is the status code COMMIT was decided for. */
  datatype Session = Session(status: Status, who: Who, check: Check, durable: Option<Code>, routeStarted: bool,
                             reopens: bool, releases: nat, reply: Option<int>)

  /** What the handler is waiting for: the request to be opened; nothing; work of a retried transaction; the end of a
      transaction it gives up; an inspection; a new transaction for the same people; the end of a transaction opened for
      somebody else. */
  datatype Handler =
    | Fresh
    | Idle
    | Working(turn: nat)
    | GivingUp(attempt: Option<nat>, session: nat)
    | Inspecting(who: Who)
    | Reopening(attempt: Option<nat>, who: Who)
    | Discarding(session: nat)

  datatype State = State(sessions: seq<Session>, current: Option<nat>, handler: Handler)

  const START: State := State([], None, Fresh)

  /** The outcome of `openTenantRequest`: refused, with or without a connection to give back, or open. */
  datatype Opening = Refused(reserved: bool) | Granted(who: Who, check: Check)

  datatype Event =
    | Opens(opening: Opening, aborted: bool)
    | StartsRoute
    | MarksResource(via: Scope)
    | MarksOutcome(code: Code)
    | BeginsWork
    | WorkEnds
    | LineageChanged
    | LeavesForInspection
    | InspectionEnds(ok: bool)
    | Reopens(opening: Opening)
    | Ended(session: nat)
    | RollbackHook
    | AbortHook
    | Finalizes(statusCode: int, late: bool)

  function NewSession(who: Who, check: Check, routeStarted: bool, reopens: bool): Session {
    Session(Open, who, check, None, routeStarted, reopens, 0, None)
  }

  predicate CurrentOpen(s: State) {
    s.current.Some? && s.current.value < |s.sessions| && s.sessions[s.current.value].status.Open?
  }

  function Current(s: State): Session
    requires CurrentOpen(s)
  {
    s.sessions[s.current.value]
  }

  function WithCurrent(s: State, c: Session): State
    requires CurrentOpen(s)
  {
    s.(sessions := s.sessions[s.current.value := c])
  }

  // ---------------------------------------------------------------- ending transactions

  /** `endTransaction` up to its await: only an open transaction is ended, once. */
  function End(s: State, i: nat, action: Action): State
    requires i < |s.sessions|
  {
    if !s.sessions[i].status.Open? then s else s.(sessions := s.sessions[i := s.sessions[i].(status := Closing(action))])
  }

  /** The statement finished or failed; either way the connection is released. */
  function Release(s: State, i: nat): State
    requires i < |s.sessions| && s.sessions[i].status.Closing?
  {
    var c := s.sessions[i];
    s.(sessions := s.sessions[i := c.(status := Closed(c.status.action), releases := c.releases + 1)])
  }

  /** `rollbackTenantRequest`. */
  function RollbackNow(s: State): State { if CurrentOpen(s) then End(s, s.current.value, Rollback) else s }

  function AddSession(s: State, c: Session): State { s.(sessions := s.sessions + [c]) }

  /** A refused opening rolls back and releases what it had reserved. */
  function AddRefused(s: State, reserved: bool): State {
    if reserved then
      AddSession(s, Session(Closed(Rollback), Who("", "", ""), NotRequired, None, false, false, 1, None))
    else s
  }

  predicate Success(statusCode: int) { 200 <= statusCode < 300 }

  /** The reply has the status of the durable outcome that was marked. */
  predicate DurableReply(c: Session, statusCode: int) {
    400 <= statusCode < 500 && c.durable.Some? && c.durable.value in DURABLE_STATUS && DURABLE_STATUS[c.durable.value] == statusCode
  }

  /** Whether COMMIT is due: the check is complete, and the reply is a success or the marked durable outcome. */
  predicate CommitDue(c: Session, statusCode: int) {
    Complete(c.check) && (Success(statusCode) || DurableReply(c, statusCode))
  }

  /** The last onSend hook. An incomplete check, or a success past its deadline, is an error: the error hook rolls back. */
  function Finalize(s: State, statusCode: int, late: bool): State {
    if !CurrentOpen(s) then s
    else
      var c := Current(s);
      if Success(statusCode) && late then s
      else if !Success(statusCode) && !DurableReply(c, statusCode) then End(s, s.current.value, Rollback)
      else if !Complete(c.check) then s
      else End(WithCurrent(s, c.(reply := Some(statusCode))), s.current.value, Commit)
  }

  /** `markDurableTenantOutcome`: declared by the route, and only one. */
  function MarkOutcome(r: Route, s: State, code: Code): State {
    if !CurrentOpen(s) || code !in DURABLE_STATUS || code !in r.durable || Current(s).durable.Some? then s
    else WithCurrent(s, Current(s).(durable := Some(code)))
  }

  // ---------------------------------------------------------------- the handler

  /** A new transaction takes over only for the same tenant, user and membership. */
  function TakeOver(s: State, attempt: Option<nat>, before: Who, who: Who, check: Check): State {
    var i := |s.sessions|;
    if who == before then
      AddSession(s, NewSession(who, check, true, attempt.Some?))
        .(current := Some(i), handler := if attempt.Some? then Working(attempt.value) else Idle)
    else End(AddSession(s, NewSession(who, check, false, false)), i, Rollback).(handler := Discarding(i))
  }

  predicate Enabled(r: Route, s: State, e: Event) {
    match e
    case Opens(_, _) => s.handler.Fresh?
    case StartsRoute => true
    case MarksResource(_) => true
    case MarksOutcome(_) => true
    case BeginsWork => s.handler.Idle? && r.retries
    case WorkEnds => s.handler.Working?
    case LineageChanged => s.handler.Working?
    case LeavesForInspection => s.handler.Idle?
    case InspectionEnds(_) => s.handler.Inspecting?
    case Reopens(_) => s.handler.Reopening?
    case Ended(i) => i < |s.sessions| && s.sessions[i].status.Closing?
    case RollbackHook => true
    case AbortHook => true
    case Finalizes(_, _) => s.handler.Idle?
  }

  /** After a transaction ends: whoever waited for it goes on. */
  function AfterEnd(s: State, i: nat): State
    requires i < |s.sessions|
  {
    if s.handler.GivingUp? && s.handler.session == i then
      s.(handler := if s.handler.attempt.Some? then Reopening(s.handler.attempt, s.sessions[i].who) else Inspecting(s.sessions[i].who))
    else if s.handler.Discarding? && s.handler.session == i then s.(handler := Idle)
    else s
  }

  /** The handler rolls its transaction back and waits; one already being ended is not waited for. */
  function GiveUp(s: State, i: nat, attempt: Option<nat>): State
    requires i < |s.sessions|
  {
    if s.sessions[i].status.Open? then End(s, i, Rollback).(handler := GivingUp(attempt, i))
    else s.(handler := if attempt.Some? then Reopening(attempt, s.sessions[i].who) else Inspecting(s.sessions[i].who))
  }

  function Step(r: Route, s: State, e: Event): State
    requires Enabled(r, s, e) && (s.handler.Working? ==> s.current.Some? && s.current.value < |s.sessions|)
  {
    match e
    case Opens(opening, aborted) =>
      (match opening
       case Refused(reserved) => AddRefused(s, reserved).(handler := Idle)
       case Granted(who, check) =>
         var t := AddSession(s, NewSession(who, check, false, true)).(handler := Idle);
         if aborted then End(t, |s.sessions|, Rollback) else t.(current := Some(|s.sessions|)))
    case StartsRoute =>
      if s.current.Some? && s.current.value < |s.sessions| then
        s.(sessions := s.sessions[s.current.value := s.sessions[s.current.value].(routeStarted := true)])
      else s
    case MarksResource(via) =>
      if !CurrentOpen(s) || Mark(Current(s).check, via).None? then s
      else WithCurrent(s, Current(s).(check := Mark(Current(s).check, via).value))
    case MarksOutcome(code) => MarkOutcome(r, s, code)
    case BeginsWork => if CurrentOpen(s) && Current(s).reopens then s.(handler := Working(0)) else s
    case WorkEnds => s.(handler := Idle)
    case LineageChanged =>
      if s.handler.turn >= 2 then s.(handler := Idle) else GiveUp(s, s.current.value, Some(s.handler.turn + 1))
    case LeavesForInspection =>
      if !r.inspects || !CurrentOpen(s) || !Current(s).reopens || Current(s).durable.Some? || !Complete(Current(s).check) then s
      else GiveUp(s, s.current.value, None)
    case InspectionEnds(ok) => s.(handler := if ok then Reopening(None, s.handler.who) else Idle)
    case Reopens(opening) =>
      (match opening
       case Refused(reserved) => AddRefused(s, reserved).(handler := Idle)
       case Granted(who, check) => TakeOver(s, s.handler.attempt, s.handler.who, who, check))
    case Ended(i) => AfterEnd(Release(s, i), i)
    case RollbackHook => RollbackNow(s)
    case AbortHook => if CurrentOpen(s) && !Current(s).routeStarted then End(s, s.current.value, Rollback) else s
    case Finalizes(statusCode, late) => Finalize(s, statusCode, late)
  }

  // ---------------------------------------------------------------- the request object

  /** The entry of one request: the parts of the hooks that run between two awaits. */
  class Request {
    const route: Route
    var sessions: seq<Session>
    var current: Option<nat>
    var handler: Handler

    ghost function View(): State
      reads this
    {
      State(sessions, current, handler)
    }

    constructor (route: Route)
      ensures View() == START && this.route == route
    {
      this.route := route;
      sessions, current, handler := [], None, Fresh;
    }

    /** Whether the caller has to wait for the statement. */
    method EndTransaction(i: nat, action: Action) returns (started: bool)
      requires i < |sessions|
      modifies this`sessions
      ensures started == old(sessions[i].status.Open?) && View() == End(old(View()), i, action)
    {
      started := sessions[i].status.Open?;
      if started {
        sessions := sessions[i := sessions[i].(status := Closing(action))];
      }
    }

    method MarkDurableOutcome(code: Code) returns (ok: bool)
      modifies this`sessions
      ensures View() == MarkOutcome(route, old(View()), code)
      ensures ok == old(CurrentOpen(View()) && code in DURABLE_STATUS && code in route.durable && Current(View()).durable.None?)
      ensures !ok ==> sessions == old(sessions)
    {
      if current.None? || current.value >= |sessions| || !sessions[current.value].status.Open?
         || code !in DURABLE_STATUS || code !in route.durable || sessions[current.value].durable.Some? {
        return false;
      }
      sessions := sessions[current.value := sessions[current.value].(durable := Some(code))];
      ok := true;
    }

    method FinalizeTransaction(statusCode: int, late: bool) returns (error: bool)
      modifies this`sessions
      ensures View() == Finalize(old(View()), statusCode, late)
      ensures error ==> sessions == old(sessions)
    {
      if current.None? || current.value >= |sessions| || !sessions[current.value].status.Open? {
        return false;
      }
      var c := sessions[current.value];
      if Success(statusCode) {
        if late || !Complete(c.check) {
          return true;
        }
        sessions := sessions[current.value := c.(reply := Some(statusCode))];
        var started := EndTransaction(current.value, Commit);
      } else if DurableReply(c, statusCode) {
        if !Complete(c.check) {
          return true;
        }
        sessions := sessions[current.value := c.(reply := Some(statusCode))];
        var started := EndTransaction(current.value, Commit);
      } else {
        var started := EndTransaction(current.value, Rollback);
      }
      error := false;
    }
  }

  /** An open transaction that is ended closes with that action, and its connection is released once; whoever calls
      again, meanwhile or later and with whatever action, changes nothing. Other transactions stay as they are. */
  lemma EndReleases(s: State, i: nat, action: Action, again: Action)
    requires i < |s.sessions| && s.sessions[i].status.Open?
    ensures var ending := End(s, i, action);
            && ending.sessions[i].status == Closing(action) && ending.sessions[i].releases == s.sessions[i].releases
            && End(ending, i, again) == ending
            && Release(ending, i).sessions[i] == s.sessions[i].(status := Closed(action), releases := s.sessions[i].releases + 1)
            && End(Release(ending, i), i, again) == Release(ending, i)
            && Release(ending, i) == s.(sessions := s.sessions[i := Release(ending, i).sessions[i]])
  {
  }

  // ---------------------------------------------------------------- what every run keeps

  /** COMMIT only for a decided reply; released exactly when closed. */
  predicate SessionSound(r: Route, c: Session) {
    && c.releases == (if c.status.Closed? then 1 else 0)
    && ((c.status == Closing(Commit) || c.status == Closed(Commit)) ==> c.reply.Some? && CommitDue(c, c.reply.value))
    && (c.durable.Some? ==> c.durable.value in r.durable && c.durable.value in DURABLE_STATUS)
  }

  /** Who still owes an end to session i: it is the request's current one, or its end is under way. */
  predicate Owned(s: State, i: nat)
    requires i < |s.sessions|
  {
    s.sessions[i].status.Open? ==> s.current == Some(i)
  }

  predicate InRange(s: State) {
    && (s.current.Some? ==> s.current.value < |s.sessions|) && (s.handler.Working? ==> s.current.Some?)
    && (s.handler.GivingUp? ==> s.handler.session < |s.sessions| && s.sessions[s.handler.session].status.Closing?)
    && (s.handler.Discarding? ==> s.handler.session < |s.sessions| && s.sessions[s.handler.session].status.Closing?)
    && (!s.handler.Idle? && !s.handler.Working? ==> !CurrentOpen(s)) && (s.handler.Fresh? ==> s.current.None?)
  }

  predicate Attempts(s: State) {
    && (s.handler.Working? ==> s.handler.turn <= 2)
    && (s.handler.GivingUp? && s.handler.attempt.Some? ==> s.handler.attempt.value <= 2)
    && (s.handler.Reopening? && s.handler.attempt.Some? ==> s.handler.attempt.value <= 2)
  }

  /** Everyone the request has acted for, and the one a pending reopening is for. */
  predicate SamePeople(s: State, who: Who) {
    && (s.current.Some? && s.current.value < |s.sessions| ==> s.sessions[s.current.value].who == who)
    && (s.handler.GivingUp? && s.handler.session < |s.sessions| ==> s.sessions[s.handler.session].who == who)
    && (s.handler.Inspecting? ==> s.handler.who == who) && (s.handler.Reopening? ==> s.handler.who == who)
  }

  predicate Inv(r: Route, s: State) {
    && InRange(s) && Attempts(s)
    && (forall i :: 0 <= i < |s.sessions| ==> SessionSound(r, s.sessions[i]) && Owned(s, i))
  }

  lemma StepSound(r: Route, s: State, e: Event, i: nat)
    requires Inv(r, s) && Enabled(r, s, e) && i < |Step(r, s, e).sessions|
    ensures SessionSound(r, Step(r, s, e).sessions[i])
  {
    if i < |s.sessions| {
      assert SessionSound(r, s.sessions[i]);
    }
  }

  lemma StepOwned(r: Route, s: State, e: Event, i: nat)
    requires Inv(r, s) && Enabled(r, s, e) && i < |Step(r, s, e).sessions|
    ensures Owned(Step(r, s, e), i)
  {
    if i < |s.sessions| {
      assert Owned(s, i);
    }
  }

  lemma StepKeeps(r: Route, s: State, e: Event)
    requires Inv(r, s) && Enabled(r, s, e)
    ensures Inv(r, Step(r, s, e))
  {
    forall i | 0 <= i < |Step(r, s, e).sessions| ensures SessionSound(r, Step(r, s, e).sessions[i]) && Owned(Step(r, s, e), i) {
      StepSound(r, s, e, i);
      StepOwned(r, s, e, i);
    }
  }

  predicate Run(r: Route, es: seq<Event>, ss: seq<State>) {
    && |ss| == |es| + 1 && ss[0] == START
    && forall k :: 0 <= k < |es| ==> InRange(ss[k]) && Enabled(r, ss[k], es[k]) && ss[k + 1] == Step(r, ss[k], es[k])
  }

  lemma {:induction false} RunInv(r: Route, es: seq<Event>, ss: seq<State>, k: nat)
    requires Run(r, es, ss) && k <= |es|
    ensures Inv(r, ss[k])
  {
    if k > 0 {
      RunInv(r, es, ss, k - 1);
      StepKeeps(r, ss[k - 1], es[k - 1]);
      assert ss[k - 1 + 1] == Step(r, ss[k - 1], es[k - 1]);
    }
  }

  /** In every run each reserved connection is released at most once, exactly when its transaction is over. One that is
      neither released nor being ended belongs to the request, and only there while the handler or a hook can end it. */
  lemma ReleasedOnce(r: Route, es: seq<Event>, ss: seq<State>, i: nat)
    requires Run(r, es, ss) && i < |ss[|es|].sessions|
    ensures var s := ss[|es|];
            && s.sessions[i].releases == (if s.sessions[i].status.Closed? then 1 else 0)
            && (s.sessions[i].status.Open? ==> s.current == Some(i) && (s.handler.Idle? || s.handler.Working?))
  {
    RunInv(r, es, ss, |es|);
    assert SessionSound(r, ss[|es|].sessions[i]) && Owned(ss[|es|], i);
  }

  /** The handler is done and every transaction has ended or is being ended. */
  predicate AllEnding(s: State) { s.handler.Idle? && forall i :: 0 <= i < |s.sessions| ==> !s.sessions[i].status.Open? }

  lemma EndingStays(r: Route, s: State, e: Event)
    requires Inv(r, s) && Enabled(r, s, e) && AllEnding(s)
    ensures AllEnding(Step(r, s, e)) && |Step(r, s, e).sessions| == |s.sessions|
  {
    assert !CurrentOpen(s);
  }

  lemma HookEnds(r: Route, s: State)
    requires Inv(r, s) && s.handler.Idle?
    ensures AllEnding(RollbackNow(s)) && |RollbackNow(s).sessions| == |s.sessions|
  {
    var t := RollbackNow(s);
    forall i | 0 <= i < |t.sessions| ensures !t.sessions[i].status.Open? { assert Owned(s, i); }
  }

  lemma {:induction false} EndingAfterHook(r: Route, es: seq<Event>, ss: seq<State>, m: nat, k: nat)
    requires Run(r, es, ss) && m < k <= |es| && es[m].RollbackHook? && ss[m].handler.Idle?
    ensures AllEnding(ss[k]) && |ss[k].sessions| == |ss[m].sessions|
    decreases k
  {
    if m < k - 1 {
      EndingAfterHook(r, es, ss, m, k - 1);
      EndingNext(r, es, ss, k - 1);
    } else {
      HookNext(r, es, ss, m);
    }
  }

  lemma EndingNext(r: Route, es: seq<Event>, ss: seq<State>, k: nat)
    requires Run(r, es, ss) && k < |es| && AllEnding(ss[k])
    ensures AllEnding(ss[k + 1]) && |ss[k + 1].sessions| == |ss[k].sessions|
  {
    RunStep(r, es, ss, k);
    EndingStays(r, ss[k], es[k]);
  }

  lemma HookNext(r: Route, es: seq<Event>, ss: seq<State>, k: nat)
    requires Run(r, es, ss) && k < |es| && es[k].RollbackHook? && ss[k].handler.Idle?
    ensures AllEnding(ss[k + 1]) && |ss[k + 1].sessions| == |ss[k].sessions|
  {
    RunStep(r, es, ss, k);
    HookEnds(r, ss[k]);
  }

  /** Once the handler is done and the error or response hook has run, whatever happens afterwards reserves nothing, and
      when no statement is pending every connection of the request has been released, once. */
  lemma NothingLeaks(r: Route, es: seq<Event>, ss: seq<State>, m: nat, k: nat, i: nat)
    requires Run(r, es, ss) && m < k <= |es| && es[m].RollbackHook? && ss[m].handler.Idle? && i < |ss[k].sessions|
    requires forall j :: 0 <= j < |ss[k].sessions| ==> !ss[k].sessions[j].status.Closing?
    ensures |ss[k].sessions| == |ss[m].sessions| && ss[k].sessions[i].status.Closed? && ss[k].sessions[i].releases == 1
  {
    EndingAfterHook(r, es, ss, m, k);
    RunInv(r, es, ss, k);
    assert SessionSound(r, ss[k].sessions[i]);
  }

  /** Exactly when the last hook commits, rolls back, or leaves the transaction to the error hook; other sessions stay. */
  lemma FinalizeExact(s: State, statusCode: int, late: bool)
    requires CurrentOpen(s)
    ensures var c, t := Current(s), Finalize(s, statusCode, late);
            && |t.sessions| == |s.sessions| && t.current == s.current && t.handler == s.handler
            && (forall i :: 0 <= i < |s.sessions| && i != s.current.value ==> t.sessions[i] == s.sessions[i])
            && (t.sessions[s.current.value].status == Closing(Commit) <==> CommitDue(c, statusCode) && !(Success(statusCode) && late))
            && (t.sessions[s.current.value].status == Closing(Rollback) <==> !Success(statusCode) && !DurableReply(c, statusCode))
            && (t.sessions[s.current.value].status.Open? ==> t == s)
  {
    var t := Finalize(s, statusCode, late);
    forall i | 0 <= i < |s.sessions| && i != s.current.value ensures |t.sessions| == |s.sessions| && t.sessions[i] == s.sessions[i] {
    }
  }

  // ---------------------------------------------------------------- the same people

  lemma StepSamePeople(r: Route, s: State, e: Event, who: Who)
    requires Inv(r, s) && Enabled(r, s, e) && SamePeople(s, who) && !e.Opens?
    ensures SamePeople(Step(r, s, e), who) && (!s.handler.Fresh? ==> !Step(r, s, e).handler.Fresh?)
  {
  }

  lemma OpensForWho(r: Route, s: State, e: Event)
    requires InRange(s) && Enabled(r, s, e) && e.Opens? && e.opening.Granted?
    ensures SamePeople(Step(r, s, e), e.opening.who) && !Step(r, s, e).handler.Fresh?
  {
  }

  lemma RunStep(r: Route, es: seq<Event>, ss: seq<State>, k: nat)
    requires Run(r, es, ss) && k < |es|
    ensures Inv(r, ss[k]) && Enabled(r, ss[k], es[k]) && ss[k + 1] == Step(r, ss[k], es[k])
  {
    RunInv(r, es, ss, k);
  }

  /** A transaction that takes over after a retry or an inspection has the tenant, user and membership of the first. */
  lemma {:induction false} ReopenedForTheSame(r: Route, es: seq<Event>, ss: seq<State>, m: nat, k: nat)
    requires Run(r, es, ss) && m < k <= |es| && es[m].Opens? && es[m].opening.Granted?
    ensures SamePeople(ss[k], es[m].opening.who) && !ss[k].handler.Fresh?
    decreases k
  {
    RunStep(r, es, ss, k - 1);
    if m < k - 1 {
      ReopenedForTheSame(r, es, ss, m, k - 1);
      StepSamePeople(r, ss[k - 1], es[k - 1], es[m].opening.who);
    } else {
      OpensForWho(r, ss[m], es[m]);
    }
  }

  // ---------------------------------------------------------------- at most one commit

  predicate Committed(s: State, i: nat) {
    i < |s.sessions| && (s.sessions[i].status == Closing(Commit) || s.sessions[i].status == Closed(Commit))
  }

  /** A transaction begins to commit in the last hook and nowhere else, and there exactly when it is the open one, COMMIT
      is due for the reply, and a success is in time. */
  lemma CommitExact(r: Route, es: seq<Event>, ss: seq<State>, k: nat, i: nat)
    requires Run(r, es, ss) && k < |es|
    ensures Committed(ss[k + 1], i) && !Committed(ss[k], i) <==>
            && es[k].Finalizes? && CurrentOpen(ss[k]) && ss[k].current == Some(i)
            && CommitDue(Current(ss[k]), es[k].statusCode) && !(200 <= es[k].statusCode < 300 && es[k].late)
  {
    RunStep(r, es, ss, k);
    StepCommits(r, ss[k], es[k], i);
  }

  lemma StepCommits(r: Route, s: State, e: Event, i: nat)
    requires Inv(r, s) && Enabled(r, s, e)
    ensures Committed(Step(r, s, e), i) && !Committed(s, i) <==>
            && e.Finalizes? && CurrentOpen(s) && s.current == Some(i)
            && CommitDue(Current(s), e.statusCode) && !(Success(e.statusCode) && e.late)
  {
    if e.Finalizes? && CurrentOpen(s) {
      FinalizeExact(s, e.statusCode, e.late);
    }
  }

  // ---------------------------------------------------------------- what opens and reopens a transaction

  lemma RolledBackKept(r: Route, s: State, e: Event, i: nat)
    requires Inv(r, s) && Enabled(r, s, e) && i < |s.sessions|
    requires s.sessions[i].status == Closing(Rollback) || s.sessions[i].status == Closed(Rollback)
    ensures i < |Step(r, s, e).sessions|
    ensures Step(r, s, e).sessions[i].status == Closing(Rollback) || Step(r, s, e).sessions[i].status == Closed(Rollback)
  {
  }

  lemma {:induction false} RolledBackStays(r: Route, es: seq<Event>, ss: seq<State>, m: nat, k: nat, i: nat)
    requires Run(r, es, ss) && m <= k <= |es| && i < |ss[m].sessions|
    requires ss[m].sessions[i].status == Closing(Rollback) || ss[m].sessions[i].status == Closed(Rollback)
    ensures i < |ss[k].sessions| && !Committed(ss[k], i)
    ensures ss[k].sessions[i].status == Closing(Rollback) || ss[k].sessions[i].status == Closed(Rollback)
    decreases k
  {
    if m < k {
      var j := k - 1;
      RolledBackStays(r, es, ss, m, j, i);
      RunStep(r, es, ss, j);
      RolledBackKept(r, ss[j], es[j], i);
    }
  }

  /** What opening leaves: a refusal nothing but the connection it had reserved, released; an opened transaction for the
      handler while the client is there, and for a client that had gone one that is rolled back and never commits. */
  lemma OpeningExact(r: Route, es: seq<Event>, ss: seq<State>, k: nat, n: nat)
    requires Run(r, es, ss) && k < n <= |es| && es[k].Opens?
    ensures var i, opening := |ss[k].sessions|, es[k].opening;
            && (opening.Refused? ==>
                 && |ss[k + 1].sessions| == i + (if opening.reserved then 1 else 0) && ss[k + 1].current == ss[k].current
                 && (opening.reserved ==> ss[k + 1].sessions[i].status == Closed(Rollback) && ss[k + 1].sessions[i].releases == 1))
            && (opening.Granted? && !es[k].aborted ==>
                 |ss[k + 1].sessions| == i + 1 && CurrentOpen(ss[k + 1]) && ss[k + 1].current == Some(i))
            && (opening.Granted? && es[k].aborted ==> ss[k + 1].current == ss[k].current && i < |ss[n].sessions| && !Committed(ss[n], i))
  {
    RunStep(r, es, ss, k);
    if es[k].opening.Granted? && es[k].aborted {
      RolledBackStays(r, es, ss, k + 1, n, |ss[k].sessions|);
    }
  }

  /** The handler was stopped by a changed lineage, or left for an inspection, and nothing was opened since. */
  predicate StoppedBy(es: seq<Event>, k: nat, retries: bool)
    requires k <= |es|
  {
    exists j :: 0 <= j < k && (if retries then es[j].LineageChanged? else es[j].LeavesForInspection?) && NoneReopens(es, j, k)
  }

  /** An inspection went well, and nothing was opened since. */
  predicate Inspected(es: seq<Event>, k: nat)
    requires k <= |es|
  {
    exists j :: 0 <= j < k && es[j] == InspectionEnds(true) && NoneReopens(es, j, k)
  }

  predicate NoneReopens(es: seq<Event>, j: nat, k: nat)
    requires k <= |es|
  {
    forall i :: j < i < k ==> !es[i].Reopens?
  }

  predicate HandlerTraced(es: seq<Event>, k: nat, h: Handler)
    requires k <= |es|
  {
    match h
    case GivingUp(attempt, _) => StoppedBy(es, k, attempt.Some?)
    case Inspecting(_) => StoppedBy(es, k, false)
    case Reopening(attempt, _) => if attempt.Some? then StoppedBy(es, k, true) else Inspected(es, k)
    case _ => true
  }

  lemma StoppedNext(es: seq<Event>, k: nat)
    requires k < |es|
    ensures !es[k].Reopens? && StoppedBy(es, k, true) ==> StoppedBy(es, k + 1, true)
    ensures !es[k].Reopens? && StoppedBy(es, k, false) ==> StoppedBy(es, k + 1, false)
    ensures !es[k].Reopens? && Inspected(es, k) ==> Inspected(es, k + 1)
    ensures es[k].LineageChanged? ==> StoppedBy(es, k + 1, true)
    ensures es[k].LeavesForInspection? ==> StoppedBy(es, k + 1, false)
    ensures es[k] == InspectionEnds(true) ==> Inspected(es, k + 1)
  {
    if !es[k].Reopens? && StoppedBy(es, k, true) {
      var j :| 0 <= j < k && es[j].LineageChanged? && NoneReopens(es, j, k);
      assert NoneReopens(es, j, k + 1);
    }
    if !es[k].Reopens? && StoppedBy(es, k, false) {
      var j :| 0 <= j < k && es[j].LeavesForInspection? && NoneReopens(es, j, k);
      assert NoneReopens(es, j, k + 1);
    }
    if !es[k].Reopens? && Inspected(es, k) {
      var j :| 0 <= j < k && es[j] == InspectionEnds(true) && NoneReopens(es, j, k);
      assert NoneReopens(es, j, k + 1);
    }
    assert NoneReopens(es, k, k + 1);
  }

  /** How a step changes what the handler waits for. */
  lemma StepWaits(r: Route, s: State, e: Event)
    requires Inv(r, s) && Enabled(r, s, e)
    ensures var h := Step(r, s, e).handler;
            && (h.GivingUp? ==> h == s.handler || (if h.attempt.Some? then e.LineageChanged? else e.LeavesForInspection?))
            && (h.Inspecting? ==> h == s.handler || e.LeavesForInspection? || (s.handler.GivingUp? && s.handler.attempt.None?))
            && (h.Reopening? && h.attempt.Some? ==> h == s.handler || e.LineageChanged? || (s.handler.GivingUp? && s.handler.attempt.Some?))
            && (h.Reopening? && h.attempt.None? ==> h == s.handler || e == InspectionEnds(true))
            && (e.Reopens? ==> !h.GivingUp? && !h.Inspecting? && !h.Reopening? && (h.Working? ==> s.handler.attempt.Some?))
  {
  }

  lemma {:induction false} RunWaits(r: Route, es: seq<Event>, ss: seq<State>, k: nat)
    requires Run(r, es, ss) && k <= |es|
    ensures HandlerTraced(es, k, ss[k].handler)
    decreases k
  {
    if k > 0 {
      var j := k - 1;
      RunWaits(r, es, ss, j);
      RunStep(r, es, ss, j);
      StepWaits(r, ss[j], es[j]);
      StoppedNext(es, j);
    }
  }

  /** Another transaction is opened only after a changed lineage gave the first one up, or after an inspection that went
      well, once each; and work goes on in it only in the first case. */
  lemma ReopenJustified(r: Route, es: seq<Event>, ss: seq<State>, k: nat)
    requires Run(r, es, ss) && k < |es| && es[k].Reopens?
    ensures StoppedBy(es, k, true) || Inspected(es, k)
    ensures ss[k + 1].handler.Working? ==> StoppedBy(es, k, true)
  {
    RunWaits(r, es, ss, k);
    RunStep(r, es, ss, k);
    StepWaits(r, ss[k], es[k]);
  }

  // ---------------------------------------------------------------- what the handler marked

  /** Event m opened transaction i, with this tripwire. */
  predicate OpenedAt(es: seq<Event>, ss: seq<State>, m: nat, i: nat, check: Check) {
    && m < |es| < |ss| && |ss[m].sessions| == i && (es[m].Opens? || es[m].Reopens?)
    && es[m].opening.Granted? && es[m].opening.check == check
  }

  predicate CurrentIs(s: State, i: nat) { CurrentOpen(s) && s.current == Some(i) }

  /** After event m and before k the handler marked one of these scopes while transaction i was the open one. */
  predicate Marked(es: seq<Event>, ss: seq<State>, m: nat, k: nat, i: nat, scopes: set<Scope>)
    requires k <= |es| < |ss|
  {
    exists j :: m < j < k && es[j].MarksResource? && es[j].via in scopes && CurrentIs(ss[j], i)
  }

  /** The tripwire that a transaction opened with `check` has once a granted scope was marked, or was not. */
  function CheckAfter(check: Check, marked: bool): Check { if check.Required? && marked then Satisfied else check }

  predicate MarkedAny(es: seq<Event>, ss: seq<State>, m: nat, k: nat, i: nat, check: Check)
    requires k <= |es| < |ss|
  {
    check.Required? && Marked(es, ss, m, k, i, check.scopes)
  }

  lemma StepCheck(r: Route, s: State, e: Event, i: nat)
    requires Inv(r, s) && Enabled(r, s, e) && i < |s.sessions|
    ensures i < |Step(r, s, e).sessions|
    ensures Step(r, s, e).sessions[i].check ==
            if e.MarksResource? && CurrentIs(s, i) then
              CheckAfter(s.sessions[i].check, s.sessions[i].check.Required? && e.via in s.sessions[i].check.scopes)
            else s.sessions[i].check
  {
  }

  lemma OpeningCheck(r: Route, s: State, e: Event)
    requires Inv(r, s) && Enabled(r, s, e) && (e.Opens? || e.Reopens?) && e.opening.Granted?
    ensures |Step(r, s, e).sessions| == |s.sessions| + 1 && Step(r, s, e).sessions[|s.sessions|].check == e.opening.check
    ensures Step(r, s, e).sessions[|s.sessions|].durable.None?
  {
  }

  lemma MarkedNext(es: seq<Event>, ss: seq<State>, m: nat, k: nat, i: nat, scopes: set<Scope>)
    requires m < k < |es| < |ss|
    ensures Marked(es, ss, m, k + 1, i, scopes) <==>
            Marked(es, ss, m, k, i, scopes) || (es[k].MarksResource? && es[k].via in scopes && CurrentIs(ss[k], i))
  {
  }

  lemma {:induction false} RunCheck(r: Route, es: seq<Event>, ss: seq<State>, m: nat, k: nat, i: nat, check: Check)
    requires Run(r, es, ss) && OpenedAt(es, ss, m, i, check) && m < k <= |es|
    ensures i < |ss[k].sessions| && ss[k].sessions[i].check == CheckAfter(check, MarkedAny(es, ss, m, k, i, check))
    decreases k
  {
    var j := k - 1;
    RunStep(r, es, ss, j);
    if m < j {
      RunCheck(r, es, ss, m, j, i, check);
      StepCheck(r, ss[j], es[j], i);
      if check.Required? {
        MarkedNext(es, ss, m, j, i, check.scopes);
      }
    } else {
      OpeningCheck(r, ss[m], es[m]);
    }
  }

  /** A tripwire is complete exactly when it was never needed, or one of its own scopes was marked on the open transaction
      since that was opened. */
  lemma CheckExact(r: Route, es: seq<Event>, ss: seq<State>, m: nat, k: nat, i: nat, check: Check)
    requires Run(r, es, ss) && OpenedAt(es, ss, m, i, check) && m < k <= |es|
    ensures i < |ss[k].sessions|
    ensures Complete(ss[k].sessions[i].check) <==> !check.Required? || Marked(es, ss, m, k, i, check.scopes)
  {
    RunCheck(r, es, ss, m, k, i, check);
  }

  /** A success commits exactly when it is in time and, under a restricted grant, a granted scope was marked before. */
  lemma SuccessCommits(r: Route, es: seq<Event>, ss: seq<State>, m: nat, k: nat, i: nat, check: Check)
    requires Run(r, es, ss) && OpenedAt(es, ss, m, i, check) && m < k < |es| && CurrentIs(ss[k], i)
    requires es[k].Finalizes? && 200 <= es[k].statusCode < 300
    ensures Committed(ss[k + 1], i) <==> !es[k].late && (check.Required? ==> Marked(es, ss, m, k, i, check.scopes))
  {
    CheckExact(r, es, ss, m, k, i, check);
    CommitExact(r, es, ss, k, i);
  }

  lemma {:induction false} ClosedStays(r: Route, es: seq<Event>, ss: seq<State>, m: nat, k: nat, i: nat)
    requires Run(r, es, ss) && m <= k <= |es| && i < |ss[m].sessions| && ss[m].sessions[i].status.Closed?
    ensures i < |ss[k].sessions| && ss[k].sessions[i].status == ss[m].sessions[i].status
    decreases k
  {
    if m < k {
      var j := k - 1;
      ClosedStays(r, es, ss, m, j, i);
      RunStep(r, es, ss, j);
      ClosedKept(r, ss[j], es[j], i);
    }
  }

  lemma ClosedKept(r: Route, s: State, e: Event, i: nat)
    requires Inv(r, s) && Enabled(r, s, e) && i < |s.sessions| && s.sessions[i].status.Closed?
    ensures i < |Step(r, s, e).sessions| && Step(r, s, e).sessions[i].status == s.sessions[i].status
  {
  }

  /** Every transaction that was not refused has an opening. */
  lemma {:induction false} Origin(r: Route, es: seq<Event>, ss: seq<State>, k: nat, i: nat) returns (m: nat, check: Check)
    requires Run(r, es, ss) && k <= |es| && i < |ss[k].sessions| && ss[k].sessions[i].status != Closed(Rollback)
    ensures m < k && OpenedAt(es, ss, m, i, check)
    decreases k
  {
    var j := k - 1;
    RunStep(r, es, ss, j);
    if i < |ss[j].sessions| {
      if ss[j].sessions[i].status == Closed(Rollback) {
        ClosedStays(r, es, ss, j, k, i);
        assert false;
      }
      m, check := Origin(r, es, ss, j, i);
    } else {
      NewIsOpened(r, ss[j], es[j]);
      m, check := j, es[j].opening.check;
    }
  }

  lemma NewIsOpened(r: Route, s: State, e: Event)
    requires Inv(r, s) && Enabled(r, s, e) && |Step(r, s, e).sessions| > |s.sessions|
    ensures |Step(r, s, e).sessions| == |s.sessions| + 1 && (e.Opens? || e.Reopens?)
    ensures e.opening.Granted? || Step(r, s, e).sessions[|s.sessions|].status == Closed(Rollback)
  {
  }

  /** COMMIT is issued only when the resource check is complete, which under a restricted grant takes a mark of a granted
      scope since the transaction was opened, and when the reply is a success, or the one durable outcome that the handler
      marked and the route declared. */
  lemma CommitJustified(r: Route, es: seq<Event>, ss: seq<State>, i: nat)
    requires Run(r, es, ss) && i < |ss[|es|].sessions|
    requires ss[|es|].sessions[i].status == Closing(Commit) || ss[|es|].sessions[i].status == Closed(Commit)
    ensures var c := ss[|es|].sessions[i];
            && Complete(c.check) && c.reply.Some?
            && (200 <= c.reply.value < 300 || (DurableReply(c, c.reply.value) && c.durable.value in r.durable))
    ensures exists m, check :: OpenedAt(es, ss, m, i, check) && (check.Required? ==> Marked(es, ss, m, |es|, i, check.scopes))
  {
    RunInv(r, es, ss, |es|);
    assert SessionSound(r, ss[|es|].sessions[i]);
    var m, check := Origin(r, es, ss, |es|, i);
    CheckExact(r, es, ss, m, |es|, i, check);
  }

  /** Between m and k the handler marked this durable outcome on transaction i, which the route allows. */
  predicate OutcomeMarked(r: Route, es: seq<Event>, ss: seq<State>, m: nat, j: nat, i: nat, code: Code)
    requires j < |es| < |ss|
  {
    m < j && es[j] == MarksOutcome(code) && CurrentIs(ss[j], i) && code in r.durable && code in DURABLE_STATUS
  }

  ghost predicate NoneMarked(r: Route, es: seq<Event>, ss: seq<State>, m: nat, k: nat, i: nat)
    requires k <= |es| < |ss|
  {
    forall j, code :: m < j < k ==> !OutcomeMarked(r, es, ss, m, j, i, code)
  }

  /** The first allowed mark before k. */
  ghost predicate FirstMarked(r: Route, es: seq<Event>, ss: seq<State>, m: nat, k: nat, i: nat, code: Code)
    requires k <= |es| < |ss|
  {
    exists j :: m < j < k && OutcomeMarked(r, es, ss, m, j, i, code) && NoneMarked(r, es, ss, m, j, i)
  }

  lemma StepDurable(r: Route, s: State, e: Event, i: nat)
    requires Inv(r, s) && Enabled(r, s, e) && i < |s.sessions|
    ensures i < |Step(r, s, e).sessions|
    ensures Step(r, s, e).sessions[i].durable ==
            if e.MarksOutcome? && CurrentIs(s, i) && e.code in r.durable && e.code in DURABLE_STATUS && s.sessions[i].durable.None?
            then Some(e.code) else s.sessions[i].durable
  {
  }

  /** A transaction has the first durable outcome that was marked on it and that the route allows; none when none was. */
  lemma {:induction false} OutcomeExact(r: Route, es: seq<Event>, ss: seq<State>, m: nat, k: nat, i: nat, check: Check)
    requires Run(r, es, ss) && OpenedAt(es, ss, m, i, check) && m < k <= |es|
    ensures i < |ss[k].sessions|
    ensures ss[k].sessions[i].durable.None? <==> NoneMarked(r, es, ss, m, k, i)
    ensures ss[k].sessions[i].durable.Some? ==> FirstMarked(r, es, ss, m, k, i, ss[k].sessions[i].durable.value)
    decreases k
  {
    var j := k - 1;
    RunStep(r, es, ss, j);
    if m < j {
      OutcomeExact(r, es, ss, m, j, i, check);
      StepDurable(r, ss[j], es[j], i);
      if ss[j].sessions[i].durable.Some? {
        var f :| m < f < j && OutcomeMarked(r, es, ss, m, f, i, ss[j].sessions[i].durable.value) && NoneMarked(r, es, ss, m, f, i);
        assert !NoneMarked(r, es, ss, m, k, i);
      } else if ss[k].sessions[i].durable.Some? {
        assert OutcomeMarked(r, es, ss, m, j, i, es[j].code);
      }
    } else {
      OpeningCheck(r, ss[m], es[m]);
    }
  }

  /** The statuses that commit for a marked outcome, by number. */
  lemma DurableReplies(c: Session, statusCode: int)
    requires c.durable.Some?
    ensures DurableReply(c, statusCode) <==>
            (match c.durable.value
             case "UPLOAD_SESSION_EXPIRED" => statusCode == 409
             case "MEDIA_SIZE_INVALID" => statusCode == 422
             case "MEDIA_METADATA_MISMATCH" => statusCode == 422
             case "MEDIA_CONTENT_INVALID" => statusCode == 422
             case "INVITATION_ROLE_NOT_ALLOWED" => statusCode == 403
             case "ROLE_ASSIGNMENT_NOT_ALLOWED" => statusCode == 403
             case "SELF_ROLE_MODIFICATION_FORBIDDEN" => statusCode == 403
             case "DOMAIN_ACTION_FORBIDDEN" => statusCode == 403
             case _ => false)
  {
  }

  /** A committed transaction is the request's last one, and no other is coming. */
  predicate CommitIsLast(s: State) {
    forall i :: 0 <= i < |s.sessions| && Committed(s, i) ==> s.current == Some(i) && s.handler.Idle?
  }

  lemma StepCommitIsLast(r: Route, s: State, e: Event)
    requires Inv(r, s) && Enabled(r, s, e) && CommitIsLast(s)
    ensures CommitIsLast(Step(r, s, e))
  {
    var t := Step(r, s, e);
    forall i | 0 <= i < |t.sessions| && Committed(t, i) ensures t.current == Some(i) && t.handler.Idle? {
      if i < |s.sessions| && Committed(s, i) {
        assert s.current == Some(i);
      }
    }
  }

  /** At most one transaction of a request commits. */
  lemma {:induction false} OneCommit(r: Route, es: seq<Event>, ss: seq<State>, k: nat)
    requires Run(r, es, ss) && k <= |es|
    ensures CommitIsLast(ss[k])
    ensures forall i, j :: 0 <= i < |ss[k].sessions| && 0 <= j < |ss[k].sessions| && Committed(ss[k], i) && Committed(ss[k], j) ==> i == j
  {
    if k > 0 {
      OneCommit(r, es, ss, k - 1);
      RunInv(r, es, ss, k - 1);
      assert ss[k - 1 + 1] == Step(r, ss[k - 1], es[k - 1]);
      StepCommitIsLast(r, ss[k - 1], es[k - 1]);
    }
  }

  /** The work of a retried transaction starts: for the first time, or in a transaction opened for it. */
  predicate WorkStarts(before: State, after: State) { !before.handler.Working? && after.handler.Working? }

  /** How often work was started by the events m to k. */
  function Executions(ss: seq<State>, m: nat, k: nat): nat
    requires m <= k < |ss|
    decreases k
  {
    if m == k then 0 else Executions(ss, m, k - 1) + if WorkStarts(ss[k - 1], ss[k]) then 1 else 0
  }

  /** The handler's own count of its attempts is the number of executions. */
  predicate AttemptsCounted(s: State, n: nat) {
    && n <= 3 && (s.handler.Working? ==> n == s.handler.turn + 1)
    && (s.handler.GivingUp? && s.handler.attempt.Some? ==> n == s.handler.attempt.value)
    && (s.handler.Reopening? && s.handler.attempt.Some? ==> n == s.handler.attempt.value)
  }

  lemma StepCounts(r: Route, s: State, e: Event, n: nat)
    requires Inv(r, s) && Enabled(r, s, e) && AttemptsCounted(s, n)
    requires e.BeginsWork? ==> !Step(r, s, e).handler.Working?
    ensures AttemptsCounted(Step(r, s, e), n + if WorkStarts(s, Step(r, s, e)) then 1 else 0)
  {
  }

  lemma ExecutionsNext(ss: seq<State>, m: nat, k: nat)
    requires m <= k && k + 1 < |ss|
    ensures Executions(ss, m, k + 1) == Executions(ss, m, k) + if WorkStarts(ss[k], ss[k + 1]) then 1 else 0
    ensures Executions(ss, m, m) == 0
  {
  }

  /** No retried transaction begins between m and k. */
  predicate NoneBegins(es: seq<Event>, ss: seq<State>, m: nat, k: nat)
    requires k <= |es| < |ss|
  {
    forall j :: m < j < k && es[j].BeginsWork? ==> !ss[j + 1].handler.Working?
  }

  lemma {:induction false} RunCounted(r: Route, es: seq<Event>, ss: seq<State>, m: nat, k: nat)
    requires Run(r, es, ss) && m < k <= |es| && es[m].BeginsWork? && ss[m + 1].handler.Working? && NoneBegins(es, ss, m, k)
    ensures AttemptsCounted(ss[k], Executions(ss, m, k)) && Executions(ss, m, k) >= 1
    decreases k
  {
    var j := k - 1;
    var n := Executions(ss, m, j);
    ExecutionsNext(ss, m, j);
    if m < j {
      assert NoneBegins(es, ss, m, j);
      RunCounted(r, es, ss, m, j);
      CountedNext(r, es, ss, j, n);
    } else {
      FirstCounted(r, es, ss, m);
    }
  }

  /** From the call that begins a retried transaction until the next one its work is started at most three times, and in
      the attempt called n it has been started n + 1 times. */
  lemma AtMostThreeAttempts(r: Route, es: seq<Event>, ss: seq<State>, m: nat, k: nat)
    requires Run(r, es, ss) && m < k <= |es| && es[m].BeginsWork? && ss[m + 1].handler.Working? && NoneBegins(es, ss, m, k)
    ensures 1 <= Executions(ss, m, k) <= 3
    ensures ss[k].handler.Working? ==> Executions(ss, m, k) == ss[k].handler.turn + 1
    ensures AttemptsCounted(ss[k], Executions(ss, m, k))
  {
    RunCounted(r, es, ss, m, k);
  }

  lemma CountedNext(r: Route, es: seq<Event>, ss: seq<State>, k: nat, n: nat)
    requires Run(r, es, ss) && k < |es| && AttemptsCounted(ss[k], n) && (es[k].BeginsWork? ==> !ss[k + 1].handler.Working?)
    ensures AttemptsCounted(ss[k + 1], n + if WorkStarts(ss[k], ss[k + 1]) then 1 else 0)
  {
    RunStep(r, es, ss, k);
    StepCounts(r, ss[k], es[k], n);
  }

  lemma FirstCounted(r: Route, es: seq<Event>, ss: seq<State>, k: nat)
    requires Run(r, es, ss) && k < |es| && es[k].BeginsWork? && ss[k + 1].handler.Working?
    ensures WorkStarts(ss[k], ss[k + 1]) && AttemptsCounted(ss[k + 1], 1)
  {
    RunStep(r, es, ss, k);
  }

  /** A third execution that finds the lineage changed is the last: its transaction stays with the handler's caller. An
      earlier one is given up before another transaction is opened. */
  lemma GivesUpAfterThird(r: Route, es: seq<Event>, ss: seq<State>, k: nat)
    requires Run(r, es, ss) && k < |es| && es[k].LineageChanged?
    ensures ss[k].handler.turn <= 2 && (ss[k].handler.turn == 2 <==> ss[k + 1].handler.Idle?)
    ensures ss[k].handler.turn < 2 ==>
            (ss[k + 1].handler.Reopening? || ss[k + 1].handler.GivingUp?) && ss[k + 1].handler.attempt == Some(ss[k].handler.turn + 1)
            && !CurrentOpen(ss[k + 1])
  {
    RunStep(r, es, ss, k);
    RunInv(r, es, ss, k + 1);
  }

  /** Client aborts never end a transaction that route code may be using. */
  lemma AbortLeavesRoute(r: Route, s: State)
    requires CurrentOpen(s) && Current(s).routeStarted && InRange(s)
    ensures Step(r, s, AbortHook) == s
  {
  }
}
