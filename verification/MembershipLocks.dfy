/** Concurrent membership commands as transactions in steps: owner-set lock, fresh permissions, target row, roles, checks,
    write, commit (src/memberships/roles-service.ts:189-314, src/memberships/lifecycle-service.ts:230-316). Uncommitted
    writes are seen only by their own transaction. Every run of any number of them has the effect and the outcomes of the
    commands one after the other, in the order in which they ended. */
module MembershipLocks {
  import opened Prelude
  import opened Memberships

  /** How far a transaction is and what it has read. `Over` tells the position among the ended ones; `Broken` is the
      status update that matches no row. */
  datatype Phase =
    | Waiting
    | Locked
    | Permitted(permissions: set<Permission>)
    | Targeted(permissions: set<Permission>, status: Status)
    | Informed(permissions: set<Permission>, target: Member)
    | Checked(target: Member)
    | Written(outcome: Outcome, change: Option<Member>, row: Audit)
    | Over(outcome: Outcome, at: nat)
    | Aborted
    | Broken

  datatype Transaction = Transaction(command: Command, phase: Phase)

  /** `ended` and `history` are history variables: the transactions that ended, in order, and their commands. */
  datatype State = State(db: Database, holder: Option<nat>, all: seq<Transaction>, ended: seq<nat>, history: seq<Command>)

  datatype Event =
    | Begin(command: Command)
    | DenySelf(t: nat)
    | Lock(t: nat)
    | ReadPermissions(t: nat)
    | LockTarget(t: nat)
    | ReadRoles(t: nat)
    | Check(t: nat)
    | Write(t: nat)
    | Commit(t: nat)
    | Abort(t: nat)

  function Start(members: Members): State { State(Database(members, []), None, [], [], []) }

  // ---------------------------------------------------------------- steps

  function At(s: State, t: nat, phase: Phase): State
    requires t < |s.all|
  {
    s.(all := s.all[t := s.all[t].(phase := phase)])
  }

  function Unlocked(s: State, t: nat): State { if s.holder == Some(t) then s.(holder := None) else s }

  /** The transaction ends with an outcome and lets go of its locks. */
  function End(s: State, t: nat, outcome: Outcome): State
    requires t < |s.all|
  {
    Unlocked(At(s, t, Over(outcome, |s.history|)).(ended := s.ended + [t], history := s.history + [s.all[t].command]), t)
  }

  predicate Ended(p: Phase) { p.Over? || p.Aborted? || p.Broken? }

  predicate Can(s: State, e: Event) {
    e.Begin? ||
    (e.t < |s.all| &&
     var x := s.all[e.t];
     match e
     case DenySelf(_) => x.phase.Waiting? && x.command.actor == x.command.target
     case Lock(_) => x.phase.Waiting? && x.command.actor != x.command.target && s.holder.None?
     case ReadPermissions(_) => x.phase.Locked?
     case LockTarget(_) => x.phase.Permitted?
     case ReadRoles(_) => x.phase.Targeted?
     case Check(_) => x.phase.Informed?
     case Write(_) => x.phase.Checked?
     case Commit(_) => x.phase.Written?
     case Abort(_) => !Ended(x.phase))
  }

  /** The target row is read under its lock. */
  function LockedTarget(s: State, t: nat): State
    requires t < |s.all| && s.all[t].phase.Permitted?
  {
    var c := s.all[t].command;
    if c.target !in s.db.members then End(s, t, NotFound)
    else At(s, t, Targeted(s.all[t].phase.permissions, s.db.members[c.target].status))
  }

  function RolesRead(s: State, t: nat): State
    requires t < |s.all| && s.all[t].phase.Targeted?
  {
    var x := s.all[t];
    At(s, t, Informed(x.phase.permissions, Member(x.phase.status,
                                                 if x.command.target in s.db.members then s.db.members[x.command.target].roles else {})))
  }

  /** The checks on what was read; the count of the other owners is read now. */
  function CheckDone(s: State, t: nat): State
    requires t < |s.all| && s.all[t].phase.Informed?
  {
    var x := s.all[t];
    var outcome := Decide(x.command, x.phase.permissions, x.phase.target, ActiveOwners(s.db.members));
    if outcome == Done then At(s, t, Checked(x.phase.target))
    else if outcome == AuthorityDenied then At(s, t, Written(AuthorityDenied, None, Denied(x.command)))
    else End(s, t, outcome)
  }

  /** The statement that writes, on the rows as they are now, and what it leaves to be committed. */
  function WriteDone(s: State, t: nat): State
    requires t < |s.all| && s.all[t].phase.Checked?
  {
    var c, read := s.all[t].command, s.all[t].phase.target;
    if c.target !in s.db.members then At(Unlocked(s, t), t, Broken)
    else
      var row := s.db.members[c.target];
      match c
      case Assign(_, _, role) =>
        if role in row.roles then End(s, t, AlreadyAssigned)
        else At(s, t, Written(Done, Some(Changed(c, row)), RolesChanged(c, read.roles, Changed(c, row).roles)))
      case Remove(_, _, role) =>
        if role !in row.roles then End(s, t, NotAssigned)
        else At(s, t, Written(Done, Some(Changed(c, row)), RolesChanged(c, read.roles, Changed(c, row).roles)))
      case _ =>
        if row.status != read.status then At(Unlocked(s, t), t, Broken)
        else At(s, t, Written(Done, Some(Changed(c, row)), StatusChanged(c, read.status, Changed(c, row).status)))
  }

  function Committed(s: State, t: nat): State
    requires t < |s.all| && s.all[t].phase.Written?
  {
    var p, target := s.all[t].phase, s.all[t].command.target;
    var members := if p.change.Some? then s.db.members[target := p.change.value] else s.db.members;
    End(s.(db := Database(members, s.db.audit + [p.row])), t, p.outcome)
  }

  function Do(s: State, e: Event): State
    requires Can(s, e)
  {
    match e
    case Begin(command) => s.(all := s.all + [Transaction(command, Waiting)])
    case DenySelf(t) => At(s, t, Written(SelfDenied, None, Denied(s.all[t].command)))
    case Lock(t) => At(s.(holder := Some(t)), t, Locked)
    case ReadPermissions(t) => At(s, t, Permitted(Permissions(s.db.members, s.all[t].command.actor)))
    case LockTarget(t) => LockedTarget(s, t)
    case ReadRoles(t) => RolesRead(s, t)
    case Check(t) => CheckDone(s, t)
    case Write(t) => WriteDone(s, t)
    case Commit(t) => Committed(s, t)
    case Abort(t) => At(Unlocked(s, t), t, Aborted)
  }

  // ---------------------------------------------------------------- what every step keeps

  /** The commands that ended before position k, applied to the first database. */
  function Before(first: Database, history: seq<Command>, k: nat): Database
    requires k <= |history|
  {
    After(first, history[..k])
  }

  /** What a transaction in some phase may rely on: what it read under the lock is what is there. */
  predicate TransactionOk(first: Database, members: Members, holder: Option<nat>, ended: seq<nat>, history: seq<Command>,
                          t: nat, x: Transaction) {
    var c := x.command;
    match x.phase
    case Waiting => holder != Some(t)
    case Locked => holder == Some(t) && c.actor != c.target
    case Permitted(permissions) => holder == Some(t) && c.actor != c.target && permissions == Permissions(members, c.actor)
    case Targeted(permissions, status) =>
      && holder == Some(t) && c.actor != c.target && permissions == Permissions(members, c.actor)
      && c.target in members && status == members[c.target].status
    case Informed(permissions, target) =>
      && holder == Some(t) && c.actor != c.target && permissions == Permissions(members, c.actor)
      && c.target in members && target == members[c.target]
    case Checked(target) => holder == Some(t) && c.target in members && target == members[c.target] && OutcomeOf(members, c) == Done
    case Written(outcome, change, row) =>
      && (holder == Some(t) || c.actor == c.target)
      && OutcomeOf(members, c) == outcome && RowsOf(members, c) == [row]
      && (if outcome == Done then change == Some(Changed(c, members[c.target])) else change == None)
    case Over(outcome, at) =>
      && holder != Some(t) && |ended| == |history| && at < |history| && history[at] == c && ended[at] == t
      && OutcomeOf(Before(first, history, at).members, c) == outcome
    case Aborted => holder != Some(t)
    case Broken => false
  }

  /** The order of the ended transactions names each of them once. */
  predicate EndedOnce(s: State) {
    && |s.ended| == |s.history|
    && forall k :: 0 <= k < |s.ended| ==> s.ended[k] < |s.all| && s.all[s.ended[k]].phase.Over? && s.all[s.ended[k]].phase.at == k
  }

  ghost predicate Inv(first: Database, s: State) {
    && s.db == After(first, s.history)
    && (s.holder.Some? ==> s.holder.value < |s.all|)
    && (forall t :: 0 <= t < |s.all| ==> TransactionOk(first, s.db.members, s.holder, s.ended, s.history, t, s.all[t]))
    && EndedOnce(s)
  }

  /** Another transaction keeps what it relies on, as long as the members change only when it does not hold the lock. */
  lemma OthersKeep(first: Database, members: Members, holder: Option<nat>, ended: seq<nat>, history: seq<Command>, t: nat, x: Transaction,
                   members2: Members, holder2: Option<nat>, ended2: seq<nat>, history2: seq<Command>)
    requires TransactionOk(first, members, holder, ended, history, t, x) && |ended| == |history|
    requires if holder == Some(t) then members2 == members && holder2 == holder else holder2 != Some(t)
    requires |ended2| == |history2| && |history| <= |history2|
    requires history2[..|history|] == history && ended2[..|ended|] == ended
    ensures TransactionOk(first, members2, holder2, ended2, history2, t, x)
  {
    if x.phase.Over? {
      assert history2[..x.phase.at] == history[..x.phase.at];
      assert history2[x.phase.at] == history[x.phase.at] && ended2[x.phase.at] == ended[x.phase.at];
    }
  }

  /** A step inside a transaction: nothing committed changes. */
  lemma InsideKeeps(first: Database, s: State, s2: State, t: nat, phase: Phase)
    requires Inv(first, s) && t < |s.all| && !s.all[t].phase.Over? && !phase.Over?
    requires s2.db == s.db && s2.history == s.history && s2.ended == s.ended && s2.all == s.all[t := s.all[t].(phase := phase)]
    requires if s.holder == Some(t) || s.holder == None then s2.holder == None || s2.holder == Some(t) else s2.holder == s.holder
    requires TransactionOk(first, s2.db.members, s2.holder, s2.ended, s2.history, t, s2.all[t])
    ensures Inv(first, s2)
  {
    forall u | 0 <= u < |s2.all| ensures TransactionOk(first, s2.db.members, s2.holder, s2.ended, s2.history, u, s2.all[u]) {
      if u != t {
        assert s.history[..|s.history|] == s.history && s.ended[..|s.ended|] == s.ended;
        OthersKeep(first, s.db.members, s.holder, s.ended, s.history, u, s.all[u], s2.db.members, s2.holder, s2.ended, s2.history);
      }
    }
  }

  lemma AppliedLast(first: Database, history: seq<Command>, c: Command)
    ensures After(first, history + [c]) == Apply(After(first, history), c)
    ensures Before(first, history + [c], |history|) == After(first, history)
  {
    assert (history + [c])[..|history|] == history;
  }

  lemma OtherAfterEnd(first: Database, s: State, db: Database, t: nat, outcome: Outcome, u: nat)
    requires Inv(first, s) && t < |s.all| && u < |s.all| && u != t
    requires s.holder == Some(t) || db.members == s.db.members
    ensures var s2 := End(s.(db := db), t, outcome);
            TransactionOk(first, s2.db.members, s2.holder, s2.ended, s2.history, u, s2.all[u])
  {
    var s2 := End(s.(db := db), t, outcome);
    assert s2.history[..|s.history|] == s.history && s2.ended[..|s.ended|] == s.ended;
    OthersKeep(first, s.db.members, s.holder, s.ended, s.history, u, s.all[u], s2.db.members, s2.holder, s2.ended, s2.history);
  }

  /** A transaction ends with the outcome of the atomic command, leaving the database that command leaves. */
  lemma EndKeeps(first: Database, s: State, db: Database, t: nat, outcome: Outcome)
    requires Inv(first, s) && t < |s.all| && !Ended(s.all[t].phase)
    requires s.holder == Some(t) || db.members == s.db.members
    requires outcome == OutcomeOf(s.db.members, s.all[t].command) && db == Apply(s.db, s.all[t].command)
    ensures Inv(first, End(s.(db := db), t, outcome))
  {
    var s2 := End(s.(db := db), t, outcome);
    AppliedLast(first, s.history, s.all[t].command);
    forall u | 0 <= u < |s2.all| ensures TransactionOk(first, s2.db.members, s2.holder, s2.ended, s2.history, u, s2.all[u]) {
      if u != t {
        OtherAfterEnd(first, s, db, t, outcome, u);
      }
    }
  }

  lemma NothingWritten(db: Database, c: Command)
    requires OutcomeOf(db.members, c) !in {Done, SelfDenied, AuthorityDenied}
    ensures Apply(db, c) == db
  {
    assert db.audit + [] == db.audit;
  }

  /** A command that fails without a durable row ends by rolling back. */
  lemma RollBackKeeps(first: Database, s: State, t: nat, outcome: Outcome)
    requires Inv(first, s) && t < |s.all| && s.holder == Some(t) && !Ended(s.all[t].phase)
    requires outcome == OutcomeOf(s.db.members, s.all[t].command) && outcome !in {Done, SelfDenied, AuthorityDenied}
    ensures Inv(first, End(s, t, outcome))
  {
    NothingWritten(s.db, s.all[t].command);
    EndKeeps(first, s, s.db, t, outcome);
    assert s.(db := s.db) == s;
  }

  lemma BeginKeeps(first: Database, s: State, c: Command)
    requires Inv(first, s)
    ensures Inv(first, Do(s, Begin(c)))
  {
  }

  lemma CommitKeeps(first: Database, s: State, t: nat)
    requires Inv(first, s) && Can(s, Commit(t))
    ensures Inv(first, Do(s, Commit(t)))
  {
    var x := s.all[t];
    assert TransactionOk(first, s.db.members, s.holder, s.ended, s.history, t, x);
    EndKeeps(first, s, Apply(s.db, x.command), t, x.phase.outcome);
  }

  lemma CheckKeeps(first: Database, s: State, t: nat)
    requires Inv(first, s) && Can(s, Check(t))
    ensures Inv(first, Do(s, Check(t)))
  {
    var x := s.all[t];
    assert TransactionOk(first, s.db.members, s.holder, s.ended, s.history, t, x);
    var outcome := OutcomeOf(s.db.members, x.command);
    if outcome == Done {
      InsideKeeps(first, s, Do(s, Check(t)), t, Checked(x.phase.target));
    } else if outcome == AuthorityDenied {
      InsideKeeps(first, s, Do(s, Check(t)), t, Written(AuthorityDenied, None, Denied(x.command)));
    } else {
      RollBackKeeps(first, s, t, outcome);
    }
  }

  /** The write always finds the row it checked: no other writer came between. */
  lemma WriteKeeps(first: Database, s: State, t: nat)
    requires Inv(first, s) && Can(s, Write(t))
    ensures Inv(first, Do(s, Write(t)))
  {
    var x := s.all[t];
    assert TransactionOk(first, s.db.members, s.holder, s.ended, s.history, t, x);
    var m := s.db.members[x.command.target];
    InsideKeeps(first, s, Do(s, Write(t)), t, Written(Done, Some(Changed(x.command, m)), SuccessRow(x.command, m)));
  }

  lemma LockTargetKeeps(first: Database, s: State, t: nat)
    requires Inv(first, s) && Can(s, LockTarget(t))
    ensures Inv(first, Do(s, LockTarget(t)))
  {
    var x := s.all[t];
    assert TransactionOk(first, s.db.members, s.holder, s.ended, s.history, t, x);
    if x.command.target in s.db.members {
      InsideKeeps(first, s, Do(s, LockTarget(t)), t, Targeted(x.phase.permissions, s.db.members[x.command.target].status));
    } else {
      RollBackKeeps(first, s, t, NotFound);
    }
  }

  lemma StepKeeps(first: Database, s: State, e: Event)
    requires Inv(first, s) && Can(s, e)
    ensures Inv(first, Do(s, e))
  {
    if e.Begin? {
      BeginKeeps(first, s, e.command);
    } else {
      var x := s.all[e.t];
      assert TransactionOk(first, s.db.members, s.holder, s.ended, s.history, e.t, x);
      match e
      case DenySelf(t) => InsideKeeps(first, s, Do(s, e), t, Written(SelfDenied, None, Denied(x.command)));
      case Lock(t) => InsideKeeps(first, s, Do(s, e), t, Locked);
      case ReadPermissions(t) => InsideKeeps(first, s, Do(s, e), t, Permitted(Permissions(s.db.members, x.command.actor)));
      case LockTarget(t) => LockTargetKeeps(first, s, t);
      case ReadRoles(t) => InsideKeeps(first, s, Do(s, e), t, Informed(x.phase.permissions, s.db.members[x.command.target]));
      case Check(t) => CheckKeeps(first, s, t);
      case Write(t) => WriteKeeps(first, s, t);
      case Commit(t) => CommitKeeps(first, s, t);
      case Abort(t) => InsideKeeps(first, s, Do(s, e), t, Aborted);
      case Begin(_) =>
    }
  }

  // ---------------------------------------------------------------- runs

  /** The state after a run, as long as every event could happen. */
  function Run(members: Members, events: seq<Event>): Option<State> {
    if events == [] then Some(Start(members))
    else
      var before := Run(members, events[..|events| - 1]);
      if before.Some? && Can(before.value, events[|events| - 1]) then Some(Do(before.value, events[|events| - 1])) else None
  }

  lemma {:induction false} RunInv(members: Members, events: seq<Event>)
    requires Run(members, events).Some?
    ensures Inv(Database(members, []), Run(members, events).value)
  {
    if events != [] {
      RunInv(members, events[..|events| - 1]);
      StepKeeps(Database(members, []), Run(members, events[..|events| - 1]).value, events[|events| - 1]);
    }
  }

  /** Any interleaving is the serial run of the ended commands: the committed rows and audit trail are those it leaves, and
      every ended transaction has the outcome it has at its place there; the write that matches no row never happens. */
  lemma Serializable(members: Members, events: seq<Event>)
    requires Run(members, events).Some?
    ensures var s := Run(members, events).value;
            && s.db == After(Database(members, []), s.history) && EndedOnce(s)
            && forall t :: 0 <= t < |s.all| ==>
                 && !s.all[t].phase.Broken?
                 && (s.all[t].phase.Over? ==>
                       var k := s.all[t].phase.at;
                       && k < |s.history| && s.ended[k] == t && s.history[k] == s.all[t].command
                       && s.all[t].phase.outcome == OutcomeOf(Before(Database(members, []), s.history, k).members, s.all[t].command))
  {
    RunInv(members, events);
    var s := Run(members, events).value;
    assert forall t :: 0 <= t < |s.all| ==> TransactionOk(Database(members, []), s.db.members, s.holder, s.ended, s.history, t, s.all[t]);
  }

  /** At every moment of every interleaving an active owner is committed, and no command fails for want of one. */
  lemma ActiveOwnerAlways(members: Members, events: seq<Event>)
    requires Run(members, events).Some? && ActiveOwners(members) != {}
    ensures ActiveOwners(Run(members, events).value.db.members) != {}
    ensures forall x :: x in Run(members, events).value.all && x.phase.Over? ==> x.phase.outcome != LastOwner
  {
    Serializable(members, events);
    var s := Run(members, events).value;
    OwnerRemains(Database(members, []), s.history);
    forall x | x in s.all && x.phase.Over? ensures x.phase.outcome != LastOwner {
      var t :| 0 <= t < |s.all| && s.all[t] == x;
      NeverLastOwner(Before(Database(members, []), s.history, x.phase.at).members, x.command);
    }
  }

  /** As long as none of the acting members is an owner, interleaved commands leave the seniors alone. */
  lemma SeniorsUntouched(members: Members, events: seq<Event>, actors: iset<Id>)
    requires Run(members, events).Some? && NoOwners(members, actors)
    requires forall e :: e in events && e.Begin? ==> e.command.actor in actors
    ensures SameSeniors(members, Run(members, events).value.db.members)
  {
    Serializable(members, events);
    var s := Run(members, events).value;
    CommandsBegan(members, events, actors);
    forall k | 0 <= k < |s.history| ensures s.history[k].actor in actors {
      assert s.all[s.ended[k]] in s.all && s.all[s.ended[k]].command == s.history[k];
    }
    AuthorityClosed(Database(members, []), s.history, actors);
  }

  /** Every transaction was begun. */
  lemma {:induction false} CommandsBegan(members: Members, events: seq<Event>, actors: iset<Id>)
    requires Run(members, events).Some? && forall e :: e in events && e.Begin? ==> e.command.actor in actors
    ensures forall x :: x in Run(members, events).value.all ==> x.command.actor in actors
  {
    if events != [] {
      var n := |events| - 1;
      assert forall e :: e in events[..n] ==> e in events;
      CommandsBegan(members, events[..n], actors);
      assert events[n] in events;
      StepCommands(Run(members, events[..n]).value, events[n], actors);
    }
  }

  lemma StepCommands(s: State, e: Event, actors: iset<Id>)
    requires Can(s, e) && (forall x :: x in s.all ==> x.command.actor in actors) && (e.Begin? ==> e.command.actor in actors)
    ensures forall x :: x in Do(s, e).all ==> x.command.actor in actors
  {
    forall k | 0 <= k < |Do(s, e).all| ensures Do(s, e).all[k].command.actor in actors {
      if k < |s.all| {
        assert s.all[k] in s.all && Do(s, e).all[k].command == s.all[k].command;
      }
    }
  }
}
