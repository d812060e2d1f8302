/** Concurrent closes as transactions in steps (src/receptions/close.ts:38-119): reception lock, vehicle lock, number lock of
    the tenant, update, insert, commit. Locks are kept to the end of the transaction. Number locks are keyed by a hash of
    the tenant, which may collide. Beside them receptions are opened and edited. */
module ReceptionLocks {
  import opened Prelude
  import opened ReceptionClose

  datatype Lock = OfReception(id: Id) | OfVehicle(id: Id) | OfNumbers(key: nat)

  /** How far a transaction is, with the reception row it read; `Inserted` has written everything and not committed. */
  datatype Phase =
    | Waiting
    | Retrying(row: Reception)
    | Opened(row: Reception)
    | Measured(row: Reception)
    | Numbered(row: Reception)
    | Updated(row: Reception)
    | Inserted(row: Reception, number: nat)
    | Over(outcome: Outcome)
    | Aborted

  datatype Transaction = Transaction(tenant: Id, reception: Id, phase: Phase)

  datatype State = State(db: Database, locks: map<Lock, nat>, all: seq<Transaction>)

  datatype Event =
    | Begin(tenant: Id, reception: Id)
    | LockReception(t: nat)
    | ReadOrder(t: nat)
    | LockVehicle(t: nat)
    | LockNumbers(t: nat)
    | Update(t: nat)
    | Insert(t: nat)
    | Commit(t: nat)
    | Abort(t: nat)
    | OpenReception(id: Id, row: Reception)
    | EditReception(id: Id, mileage: nat)

  predicate Ended(p: Phase) { p.Over? || p.Aborted? }

  function At(s: State, t: nat, phase: Phase): State
    requires t < |s.all|
  {
    s.(all := s.all[t := s.all[t].(phase := phase)])
  }

  function Taken(s: State, k: Lock, t: nat): State { s.(locks := s.locks[k := t]) }

  function Released(locks: map<Lock, nat>, t: nat): map<Lock, nat> { map k | k in locks && locks[k] != t :: locks[k] }

  /** The transaction ends; its locks are free. */
  function End(s: State, t: nat, phase: Phase): State
    requires t < |s.all|
  {
    At(s, t, phase).(locks := Released(s.locks, t))
  }

  /** Some row of the tenant is there to lock. */
  predicate Visible(s: State, x: Transaction) { x.reception in s.db.receptions && s.db.receptions[x.reception].tenant == x.tenant }

  predicate VehicleVisible(s: State, r: Reception) { r.vehicle in s.db.vehicles && s.db.vehicles[r.vehicle].tenant == r.tenant }

  /** When a step of a transaction can be taken: its phase is reached and the lock it asks for is free. */
  predicate CanStep(key: Id -> nat, s: State, x: Transaction, e: Event) {
    match e
    case LockReception(_) => x.phase.Waiting? && (Visible(s, x) ==> OfReception(x.reception) !in s.locks)
    case ReadOrder(_) => x.phase.Retrying?
    case LockVehicle(_) => x.phase.Opened? && (VehicleVisible(s, x.phase.row) ==> OfVehicle(x.phase.row.vehicle) !in s.locks)
    case LockNumbers(_) => x.phase.Measured? && OfNumbers(key(x.tenant)) !in s.locks
    case Update(_) => x.phase.Numbered?
    case Insert(_) => x.phase.Updated?
    case Commit(_) => x.phase.Inserted? && x.phase.row.vehicle in s.db.vehicles
    case Abort(_) => !Ended(x.phase)
    case _ => false
  }

  /** Opening inserts an open row; editing needs the locks of the row and of its vehicle and respects its mileage. */
  predicate Can(key: Id -> nat, s: State, e: Event) {
    match e
    case Begin(_, _) => true
    case OpenReception(id, row) => id !in s.db.receptions && row.status == Open
    case EditReception(id, mileage) =>
      && id in s.db.receptions && s.db.receptions[id].status == Open && OfReception(id) !in s.locks
      && OfVehicle(s.db.receptions[id].vehicle) !in s.locks
      && (s.db.receptions[id].vehicle in s.db.vehicles ==> !Below(mileage, s.db.vehicles[s.db.receptions[id].vehicle]))
    case _ => e.t < |s.all| && CanStep(key, s, s.all[e.t], e)
  }

  /** The row is read once it is locked. */
  function ReceptionLocked(s: State, t: nat): State
    requires t < |s.all|
  {
    var x := s.all[t];
    if !Visible(s, x) then End(s, t, Over(NotFound))
    else
      var r := s.db.receptions[x.reception];
      if r.status == Closed then At(Taken(s, OfReception(x.reception), t), t, Retrying(r))
      else if r.status != Open then End(s, t, Over(NotClosable))
      else At(Taken(s, OfReception(x.reception), t), t, Opened(r))
  }

  function VehicleLocked(s: State, t: nat): State
    requires t < |s.all| && s.all[t].phase.Opened?
  {
    var r := s.all[t].phase.row;
    if !VehicleVisible(s, r) then End(s, t, Over(Integrity))
    else if Below(r.mileage, s.db.vehicles[r.vehicle]) then End(s, t, Over(MileageConflict))
    else At(Taken(s, OfVehicle(r.vehicle), t), t, Measured(r))
  }

  /** The update finds the row still open, or the close fails. */
  function UpdateDone(s: State, t: nat): State
    requires t < |s.all| && s.all[t].phase.Numbered?
  {
    var x := s.all[t];
    if Visible(s, x) && s.db.receptions[x.reception].status == Open then At(s, t, Updated(s.db.receptions[x.reception]))
    else End(s, t, Over(Integrity))
  }

  function Committed(s: State, t: nat): State
    requires t < |s.all| && s.all[t].phase.Inserted? && s.all[t].phase.row.vehicle in s.db.vehicles
  {
    var x, r, n := s.all[t], s.all[t].phase.row, s.all[t].phase.number;
    End(s.(db := WithOrder(s.db, x.tenant, x.reception, r, n)), t,
        Over(Answer(Order(x.tenant, x.reception, r.vehicle, r.customer, n))))
  }

  function Do(key: Id -> nat, s: State, e: Event): State
    requires Can(key, s, e)
  {
    match e
    case Begin(tenant, reception) => s.(all := s.all + [Transaction(tenant, reception, Waiting)])
    case LockReception(t) => ReceptionLocked(s, t)
    case ReadOrder(t) => End(s, t, Over(Repeated(s.db, s.all[t].tenant, s.all[t].reception, s.all[t].phase.row)))
    case LockVehicle(t) => VehicleLocked(s, t)
    case LockNumbers(t) => At(Taken(s, OfNumbers(key(s.all[t].tenant)), t), t, Numbered(s.all[t].phase.row))
    case Update(t) => UpdateDone(s, t)
    case Insert(t) => At(s, t, Inserted(s.all[t].phase.row, NextNumber(s.db.orders, s.all[t].tenant)))
    case Commit(t) => Committed(s, t)
    case Abort(t) => End(s, t, Aborted)
    case OpenReception(id, row) => s.(db := s.db.(receptions := s.db.receptions[id := row]))
    case EditReception(id, mileage) =>
      s.(db := s.db.(receptions := s.db.receptions[id := s.db.receptions[id].(mileage := mileage)]))
  }

  // ---------------------------------------------------------------- what every step keeps

  predicate Holds(locks: map<Lock, nat>, t: nat, k: Lock) { k in locks && locks[k] == t }

  /** The locked reception is as it was read. */
  predicate ReadRow(db: Database, locks: map<Lock, nat>, t: nat, x: Transaction, r: Reception) {
    Holds(locks, t, OfReception(x.reception)) && x.reception in db.receptions && r == db.receptions[x.reception] && r.tenant == x.tenant
  }

  /** The locked vehicle admits the mileage. */
  predicate ReadVehicle(db: Database, locks: map<Lock, nat>, t: nat, r: Reception) {
    && Holds(locks, t, OfVehicle(r.vehicle)) && r.vehicle in db.vehicles && db.vehicles[r.vehicle].tenant == r.tenant
    && !Below(r.mileage, db.vehicles[r.vehicle])
  }

  predicate HoldsNumbers(key: Id -> nat, locks: map<Lock, nat>, t: nat, x: Transaction) { Holds(locks, t, OfNumbers(key(x.tenant))) }

  predicate TransactionOk(key: Id -> nat, db: Database, locks: map<Lock, nat>, t: nat, x: Transaction) {
    match x.phase
    case Waiting => true
    case Retrying(r) => ReadRow(db, locks, t, x, r) && r.status == Closed
    case Opened(r) => ReadRow(db, locks, t, x, r) && r.status == Open
    case Measured(r) => ReadRow(db, locks, t, x, r) && r.status == Open && ReadVehicle(db, locks, t, r)
    case Numbered(r) => ReadRow(db, locks, t, x, r) && r.status == Open && ReadVehicle(db, locks, t, r) && HoldsNumbers(key, locks, t, x)
    case Updated(r) => ReadRow(db, locks, t, x, r) && r.status == Open && ReadVehicle(db, locks, t, r) && HoldsNumbers(key, locks, t, x)
    case Inserted(r, n) =>
      && ReadRow(db, locks, t, x, r) && r.status == Open && ReadVehicle(db, locks, t, r) && HoldsNumbers(key, locks, t, x)
      && n == NextNumber(db.orders, x.tenant)
    case Over(outcome) =>
      outcome.Answer? ==> outcome.order in db.orders && outcome.order.tenant == x.tenant && outcome.order.reception == x.reception
    case Aborted => true
  }

  /** Who holds a lock has come as far as taking it. */
  predicate LockOk(s: State, k: Lock) {
    k in s.locks ==>
      && s.locks[k] < |s.all|
      && var p := s.all[s.locks[k]].phase;
         match k
         case OfReception(id) => !p.Waiting? && !Ended(p) && s.all[s.locks[k]].reception == id
         case OfVehicle(_) => p.Measured? || p.Numbered? || p.Updated? || p.Inserted?
         case OfNumbers(_) => p.Numbered? || p.Updated? || p.Inserted?
  }

  ghost predicate Inv(key: Id -> nat, s: State) {
    && TablesOk(s.db)
    && (forall k :: LockOk(s, k))
    && (forall t :: 0 <= t < |s.all| ==> TransactionOk(key, s.db, s.locks, t, s.all[t]))
  }

  /** A transaction keeps what it relies on while others release and take free locks. */
  ghost predicate SameFor(a: map<Lock, nat>, b: map<Lock, nat>, u: nat) { forall k :: Holds(a, u, k) ==> Holds(b, u, k) }

  lemma LocksChange(key: Id -> nat, db: Database, a: map<Lock, nat>, b: map<Lock, nat>, u: nat, x: Transaction)
    requires TransactionOk(key, db, a, u, x) && SameFor(a, b, u)
    ensures TransactionOk(key, db, b, u, x)
  {
  }

  /** A step inside a transaction that takes at most one free lock. */
  lemma InsideKeeps(key: Id -> nat, s: State, t: nat, phase: Phase, locks: map<Lock, nat>, k: Lock)
    requires Inv(key, s) && t < |s.all| && !phase.Waiting? && !Ended(phase)
    requires locks == s.locks || (k !in s.locks && locks == s.locks[k := t])
    requires TransactionOk(key, s.db, locks, t, s.all[t].(phase := phase))
    requires forall l :: l in locks && locks[l] == t ==> LockOk(State(s.db, locks, s.all[t := s.all[t].(phase := phase)]), l)
    ensures Inv(key, State(s.db, locks, s.all[t := s.all[t].(phase := phase)]))
  {
    var s2 := State(s.db, locks, s.all[t := s.all[t].(phase := phase)]);
    forall u | 0 <= u < |s2.all| ensures TransactionOk(key, s2.db, s2.locks, u, s2.all[u]) {
      if u != t {
        LocksChange(key, s.db, s.locks, locks, u, s.all[u]);
      }
    }
    forall l ensures LockOk(s2, l) {
      assert LockOk(s, l);
    }
  }

  /** Ending frees the locks and leaves the tables alone. */
  lemma EndKeeps(key: Id -> nat, s: State, t: nat, phase: Phase)
    requires Inv(key, s) && t < |s.all| && Ended(phase)
    requires TransactionOk(key, s.db, Released(s.locks, t), t, s.all[t].(phase := phase))
    ensures Inv(key, End(s, t, phase))
  {
    var s2 := End(s, t, phase);
    forall u | 0 <= u < |s2.all| ensures TransactionOk(key, s2.db, s2.locks, u, s2.all[u]) {
      if u != t {
        LocksChange(key, s.db, s.locks, s2.locks, u, s.all[u]);
      }
    }
    forall l ensures LockOk(s2, l) {
      assert LockOk(s, l);
    }
  }

  /** What a commit of t leaves alone of what another transaction relies on. */
  lemma OtherAfterCommit(key: Id -> nat, s: State, t: nat, u: nat)
    requires Inv(key, s) && t < |s.all| && u < |s.all| && u != t && s.all[t].phase.Inserted? && s.all[t].phase.row.vehicle in s.db.vehicles
    ensures TransactionOk(key, Committed(s, t).db, s.locks, u, s.all[u])
  {
    var x, y, s2 := s.all[t], s.all[u], Committed(s, t);
    assert TransactionOk(key, s.db, s.locks, t, x) && TransactionOk(key, s.db, s.locks, u, y);
    if y.phase.Over? && y.phase.outcome.Answer? {
      var k :| 0 <= k < |s.db.orders| && s.db.orders[k] == y.phase.outcome.order;
      assert s2.db.orders[k] == y.phase.outcome.order;
    } else if y.phase.Inserted? {
      assert x.tenant != y.tenant;
      MaxOfMore(s.db.orders, Order(x.tenant, x.reception, x.phase.row.vehicle, x.phase.row.customer, x.phase.number), y.tenant);
    }
  }

  /** A commit is an atomic close. */
  lemma CommitIsClose(key: Id -> nat, s: State, t: nat)
    requires Inv(key, s) && Can(key, s, Commit(t))
    ensures var x, s2 := s.all[t], Do(key, s, Commit(t));
            s2.db == Close(s.db, x.tenant, x.reception) && s2.all[t].phase == Over(OutcomeOf(s.db, x.tenant, x.reception))
  {
    assert TransactionOk(key, s.db, s.locks, t, s.all[t]);
  }

  lemma CommitKeeps(key: Id -> nat, s: State, t: nat)
    requires Inv(key, s) && Can(key, s, Commit(t))
    ensures Inv(key, Do(key, s, Commit(t)))
  {
    var x, s2 := s.all[t], Do(key, s, Commit(t));
    CommitIsClose(key, s, t);
    CloseKeeps(s.db, x.tenant, x.reception);
    forall u | 0 <= u < |s2.all| ensures TransactionOk(key, s2.db, s2.locks, u, s2.all[u]) {
      if u != t {
        OtherAfterCommit(key, s, t, u);
        LocksChange(key, s2.db, s.locks, s2.locks, u, s.all[u]);
      } else {
        assert s2.db.orders[|s.db.orders|] == s2.all[t].phase.outcome.order;
      }
    }
    forall l ensures LockOk(s2, l) {
      assert LockOk(s, l);
    }
  }

  /** Opening or editing a reception that nobody has locked. */
  lemma RowKeeps(key: Id -> nat, s: State, id: Id, row: Reception)
    requires Inv(key, s) && OfReception(id) !in s.locks && row.status == Open
    requires id in s.db.receptions ==> s.db.receptions[id].status == Open
    ensures Inv(key, s.(db := s.db.(receptions := s.db.receptions[id := row])))
  {
    var s2 := s.(db := s.db.(receptions := s.db.receptions[id := row]));
    forall u | 0 <= u < |s2.all| ensures TransactionOk(key, s2.db, s2.locks, u, s2.all[u]) {
      assert TransactionOk(key, s.db, s.locks, u, s.all[u]);
    }
    forall l ensures LockOk(s2, l) {
      assert LockOk(s, l);
    }
    forall k | 0 <= k < |s2.db.orders| ensures OrderOk(s2.db, s2.db.orders[k]) {
      assert OrderOk(s.db, s.db.orders[k]);
    }
    assert forall tenant :: Dense(s.db.orders, tenant);
  }

  /** Only a reception that exists is locked. */
  lemma LockedExists(key: Id -> nat, s: State, id: Id)
    requires Inv(key, s) && OfReception(id) in s.locks
    ensures id in s.db.receptions
  {
    assert LockOk(s, OfReception(id));
    assert TransactionOk(key, s.db, s.locks, s.locks[OfReception(id)], s.all[s.locks[OfReception(id)]]);
  }

  lemma ReceptionKeeps(key: Id -> nat, s: State, t: nat)
    requires Inv(key, s) && Can(key, s, LockReception(t))
    ensures Inv(key, Do(key, s, LockReception(t)))
  {
    var x := s.all[t];
    if Visible(s, x) && s.db.receptions[x.reception].status != Other {
      var r := s.db.receptions[x.reception];
      assert forall l :: l in s.locks && s.locks[l] == t ==> LockOk(s, l);
      InsideKeeps(key, s, t, if r.status == Closed then Retrying(r) else Opened(r), s.locks[OfReception(x.reception) := t],
                  OfReception(x.reception));
    } else {
      EndKeeps(key, s, t, Over(if Visible(s, x) then NotClosable else NotFound));
    }
  }

  lemma ReadOrderKeeps(key: Id -> nat, s: State, t: nat)
    requires Inv(key, s) && Can(key, s, ReadOrder(t))
    ensures Inv(key, Do(key, s, ReadOrder(t)))
  {
    var x := s.all[t];
    assert TransactionOk(key, s.db, s.locks, t, x);
    CloseAgain(s.db, x.tenant, x.reception);
    FoundIs(s.db.orders, x.tenant, x.reception);
    EndKeeps(key, s, t, Over(Repeated(s.db, x.tenant, x.reception, x.phase.row)));
  }

  /** What is found belongs to the tenant. */
  lemma {:induction false} FoundIs(orders: seq<Order>, tenant: Id, id: Id)
    ensures Find(orders, tenant, id).Some? ==> Find(orders, tenant, id).value in orders && Find(orders, tenant, id).value.tenant == tenant
  {
    if orders != [] {
      FoundIs(orders[1..], tenant, id);
    }
  }

  lemma VehicleKeeps(key: Id -> nat, s: State, t: nat)
    requires Inv(key, s) && Can(key, s, LockVehicle(t))
    ensures Inv(key, Do(key, s, LockVehicle(t)))
  {
    var x, r := s.all[t], s.all[t].phase.row;
    assert TransactionOk(key, s.db, s.locks, t, x);
    if VehicleVisible(s, r) && !Below(r.mileage, s.db.vehicles[r.vehicle]) {
      assert forall l :: l in s.locks && s.locks[l] == t ==> LockOk(s, l);
      InsideKeeps(key, s, t, Measured(r), s.locks[OfVehicle(r.vehicle) := t], OfVehicle(r.vehicle));
    } else {
      EndKeeps(key, s, t, Over(if VehicleVisible(s, r) then MileageConflict else Integrity));
    }
  }

  lemma NumbersKeeps(key: Id -> nat, s: State, t: nat)
    requires Inv(key, s) && Can(key, s, LockNumbers(t))
    ensures Inv(key, Do(key, s, LockNumbers(t)))
  {
    var x := s.all[t];
    assert TransactionOk(key, s.db, s.locks, t, x);
    assert forall l :: l in s.locks && s.locks[l] == t ==> LockOk(s, l);
    InsideKeeps(key, s, t, Numbered(x.phase.row), s.locks[OfNumbers(key(x.tenant)) := t], OfNumbers(key(x.tenant)));
  }

  /** The update and the insert find what was read: the row is open, and the number is the next one. */
  lemma WritesKeep(key: Id -> nat, s: State, t: nat, e: Event)
    requires Inv(key, s) && Can(key, s, e) && (e == Update(t) || e == Insert(t))
    ensures Inv(key, Do(key, s, e))
  {
    var x := s.all[t];
    assert TransactionOk(key, s.db, s.locks, t, x);
    assert forall l :: l in s.locks && s.locks[l] == t ==> LockOk(s, l);
    InsideKeeps(key, s, t, if e.Update? then Updated(x.phase.row) else Inserted(x.phase.row, NextNumber(s.db.orders, x.tenant)), s.locks,
                OfReception(x.reception));
  }

  lemma BeginKeeps(key: Id -> nat, s: State, tenant: Id, reception: Id)
    requires Inv(key, s)
    ensures Inv(key, Do(key, s, Begin(tenant, reception)))
  {
    var s2 := Do(key, s, Begin(tenant, reception));
    forall l ensures LockOk(s2, l) {
      assert LockOk(s, l);
    }
  }

  lemma StepKeeps(key: Id -> nat, s: State, e: Event)
    requires Inv(key, s) && Can(key, s, e)
    ensures Inv(key, Do(key, s, e))
  {
    match e
    case Begin(tenant, reception) => BeginKeeps(key, s, tenant, reception);
    case LockReception(t) => ReceptionKeeps(key, s, t);
    case ReadOrder(t) => ReadOrderKeeps(key, s, t);
    case LockVehicle(t) => VehicleKeeps(key, s, t);
    case LockNumbers(t) => NumbersKeeps(key, s, t);
    case Update(t) => WritesKeep(key, s, t, e);
    case Insert(t) => WritesKeep(key, s, t, e);
    case Commit(t) => CommitKeeps(key, s, t);
    case Abort(t) => EndKeeps(key, s, t, Aborted);
    case OpenReception(id, row) =>
      if OfReception(id) in s.locks {
        LockedExists(key, s, id);
      }
      RowKeeps(key, s, id, row);
    case EditReception(id, mileage) => RowKeeps(key, s, id, s.db.receptions[id].(mileage := mileage));
  }

  // ---------------------------------------------------------------- runs

  /** The state after a run over some tables, as long as every event could happen. */
  function Run(key: Id -> nat, db: Database, events: seq<Event>): Option<State> {
    if events == [] then Some(State(db, map[], []))
    else
      var before := Run(key, db, events[..|events| - 1]);
      if before.Some? && Can(key, before.value, events[|events| - 1]) then Some(Do(key, before.value, events[|events| - 1])) else None
  }

  lemma {:induction false} RunInv(key: Id -> nat, db: Database, events: seq<Event>)
    requires TablesOk(db) && Run(key, db, events).Some?
    ensures Inv(key, Run(key, db, events).value)
  {
    if events != [] {
      RunInv(key, db, events[..|events| - 1]);
      StepKeeps(key, Run(key, db, events[..|events| - 1]).value, events[|events| - 1]);
    }
  }

  /** At every moment of every run: the numbers of every tenant are 1 to n, every closed reception has exactly one order and
      it agrees with it, and two transactions answered for one reception were answered with the same order. */
  lemma ClosesSafe(key: Id -> nat, db: Database, events: seq<Event>)
    requires TablesOk(db) && Run(key, db, events).Some?
    ensures TablesOk(Run(key, db, events).value.db)
    ensures var all := Run(key, db, events).value.all;
            forall t, u :: 0 <= t < |all| && 0 <= u < |all| && BothAnswered(all[t], all[u]) ==>
              all[t].phase.outcome == all[u].phase.outcome
  {
    RunInv(key, db, events);
    var s := Run(key, db, events).value;
    forall t, u | 0 <= t < |s.all| && 0 <= u < |s.all| && BothAnswered(s.all[t], s.all[u])
      ensures s.all[t].phase.outcome == s.all[u].phase.outcome
    {
      assert TransactionOk(key, s.db, s.locks, t, s.all[t]) && TransactionOk(key, s.db, s.locks, u, s.all[u]);
      SameOrder(s.db, s.all[t].phase.outcome.order, s.all[u].phase.outcome.order);
    }
  }

  predicate Answered(x: Transaction) { x.phase.Over? && x.phase.outcome.Answer? }

  predicate BothAnswered(x: Transaction, y: Transaction) { Answered(x) && Answered(y) && x.reception == y.reception }

  lemma SameOrder(db: Database, a: Order, b: Order)
    requires TablesOk(db) && a in db.orders && b in db.orders && a.reception == b.reception
    ensures a == b
  {
    var j :| 0 <= j < |db.orders| && db.orders[j] == a;
    var k :| 0 <= k < |db.orders| && db.orders[k] == b;
    assert j == k;
  }

  /** The steps that end a transaction without writing. */
  lemma RefusalIsClose(key: Id -> nat, s: State, e: Event, t: nat)
    requires Inv(key, s) && Can(key, s, e) && t < |s.all| && e in {LockReception(t), ReadOrder(t), LockVehicle(t), Update(t)}
    requires Do(key, s, e).all[t].phase.Over?
    ensures var x, s2 := s.all[t], Do(key, s, e);
            s2.db == Close(s.db, x.tenant, x.reception) && s2.all[t].phase == Over(OutcomeOf(s.db, x.tenant, x.reception))
  {
    assert TransactionOk(key, s.db, s.locks, t, s.all[t]);
  }

  /** Whenever a transaction ends other than by being aborted, its outcome and the tables are those of an atomic close at
      that moment. */
  lemma EndsLikeClose(key: Id -> nat, s: State, e: Event, t: nat)
    requires Inv(key, s) && Can(key, s, e) && t < |s.all| && !s.all[t].phase.Over? && Do(key, s, e).all[t].phase.Over?
    ensures var x, s2 := s.all[t], Do(key, s, e);
            s2.db == Close(s.db, x.tenant, x.reception) && s2.all[t].phase == Over(OutcomeOf(s.db, x.tenant, x.reception))
  {
    if e.Commit? {
      CommitIsClose(key, s, t);
    } else {
      RefusalIsClose(key, s, e, t);
    }
  }

  /** No other step touches orders, vehicles or closed receptions. */
  lemma OnlyCommitsClose(key: Id -> nat, s: State, e: Event)
    requires Can(key, s, e) && !e.Commit?
    ensures Do(key, s, e).db.orders == s.db.orders && Do(key, s, e).db.vehicles == s.db.vehicles
    ensures forall id :: id in s.db.receptions && s.db.receptions[id].status == Closed ==>
              id in Do(key, s, e).db.receptions && Do(key, s, e).db.receptions[id] == s.db.receptions[id]
  {
  }

  /** The mileage of b is known and no less whenever that of a is. */
  predicate NoLess(a: map<Id, Vehicle>, b: map<Id, Vehicle>) {
    forall id :: id in a && a[id].mileage.Some? ==> id in b && b[id].mileage.Some? && a[id].mileage.value <= b[id].mileage.value
  }

  lemma StepNoLess(key: Id -> nat, s: State, e: Event)
    requires Inv(key, s) && Can(key, s, e)
    ensures NoLess(s.db.vehicles, Do(key, s, e).db.vehicles) && s.db.orders == Do(key, s, e).db.orders[..|s.db.orders|]
  {
    if e.Commit? {
      assert TransactionOk(key, s.db, s.locks, e.t, s.all[e.t]);
    } else {
      OnlyCommitsClose(key, s, e);
    }
  }

  /** While a run goes on the mileage of no vehicle decreases and no order changes or disappears. */
  lemma {:induction false} NothingGoesBack(key: Id -> nat, db: Database, events: seq<Event>, k: nat)
    requires TablesOk(db) && Run(key, db, events).Some? && k <= |events|
    ensures Run(key, db, events[..k]).Some?
    ensures var early, late := Run(key, db, events[..k]).value.db, Run(key, db, events).value.db;
            NoLess(early.vehicles, late.vehicles) && |early.orders| <= |late.orders| && early.orders == late.orders[..|early.orders|]
  {
    if k == |events| {
      assert events[..k] == events;
    } else {
      var n := |events| - 1;
      assert events[..n][..k] == events[..k];
      NothingGoesBack(key, db, events[..n], k);
      RunInv(key, db, events[..n]);
      StepNoLess(key, Run(key, db, events[..n]).value, events[n]);
    }
  }

  // ---------------------------------------------------------------- no deadlock

  /** The step a transaction takes next. */
  function Next(t: nat, p: Phase): Event {
    match p
    case Waiting => LockReception(t)
    case Retrying(_) => ReadOrder(t)
    case Opened(_) => LockVehicle(t)
    case Measured(_) => LockNumbers(t)
    case Numbered(_) => Update(t)
    case Updated(_) => Insert(t)
    case Inserted(_, _) => Commit(t)
    case _ => Abort(t)
  }

  /** The transaction a blocked one waits for has come further. */
  lemma BlockerIsFurther(key: Id -> nat, s: State, t: nat) returns (u: nat)
    requires Inv(key, s) && t < |s.all| && !Ended(s.all[t].phase) && !Can(key, s, Next(t, s.all[t].phase))
    ensures u < |s.all| && !Ended(s.all[u].phase) && Progress(s.all[t].phase) < Progress(s.all[u].phase)
  {
    var x := s.all[t];
    assert TransactionOk(key, s.db, s.locks, t, x);
    var k := match x.phase
      case Waiting => OfReception(x.reception)
      case Opened(r) => OfVehicle(r.vehicle)
      case _ => OfNumbers(key(x.tenant));
    assert LockOk(s, k);
    u := s.locks[k];
  }

  function Progress(p: Phase): nat {
    match p
    case Waiting => 0
    case Retrying(_) => 1
    case Opened(_) => 1
    case Measured(_) => 2
    case _ => 3
  }

  /** While some transaction has not ended, one of them can take its next step. */
  lemma {:induction false} NoDeadlock(key: Id -> nat, s: State, t: nat) returns (u: nat)
    requires Inv(key, s) && t < |s.all| && !Ended(s.all[t].phase)
    ensures u < |s.all| && !Ended(s.all[u].phase) && Can(key, s, Next(u, s.all[u].phase)) && !Next(u, s.all[u].phase).Abort?
    decreases 3 - Progress(s.all[t].phase)
  {
    if Can(key, s, Next(t, s.all[t].phase)) {
      u := t;
    } else {
      var v := BlockerIsFurther(key, s, t);
      u := NoDeadlock(key, s, v);
    }
  }
}
