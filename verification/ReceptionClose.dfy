/** Closing receptions (src/receptions/close.ts:38-119): every close locks the reception, then its vehicle, then the
    numbering of its tenant, and leaves one numbered service order. Any number of transactions of any number of tenants
    run side by side, together with those that open and edit receptions (src/receptions/service.ts, and the lifecycle
    trigger of drizzle/0024_reception_close_without_signature.sql). Writes become visible when they are committed. */
module ReceptionClose {
  import opened Prelude

  type Id = nat

  datatype Status = Open | Closed | Other

  datatype Reception = Reception(tenant: Id, vehicle: Id, customer: Id, mileage: nat, status: Status)

  datatype Vehicle = Vehicle(tenant: Id, mileage: Option<nat>)

  datatype Order = Order(tenant: Id, reception: Id, vehicle: Id, customer: Id, number: nat)

  /** Orders are kept in the order of their commits. */
  datatype Database = Database(receptions: map<Id, Reception>, vehicles: map<Id, Vehicle>, orders: seq<Order>)

  datatype Outcome = NotFound | NotClosable | MileageConflict | Integrity | Answer(order: Order)

  // ---------------------------------------------------------------- one close at a time

  /** The order numbers of a tenant, in order of commit. */
  function Numbers(orders: seq<Order>, tenant: Id): seq<nat> {
    if orders == [] then []
    else
      var o := orders[|orders| - 1];
      Numbers(orders[..|orders| - 1], tenant) + if o.tenant == tenant then [o.number] else []
  }

  function Max(numbers: seq<nat>): nat {
    if numbers == [] then 0
    else
      var before, last := Max(numbers[..|numbers| - 1]), numbers[|numbers| - 1];
      if last > before then last else before
  }

  /** COALESCE(MAX(order_number), 0) + 1. */
  function NextNumber(orders: seq<Order>, tenant: Id): nat { Max(Numbers(orders, tenant)) + 1 }

  /** The order found for a reception of a tenant. */
  function Find(orders: seq<Order>, tenant: Id, reception: Id): Option<Order> {
    if orders == [] then None
    else if orders[0].tenant == tenant && orders[0].reception == reception then Some(orders[0])
    else Find(orders[1..], tenant, reception)
  }

  /** `response` on a closed reception. */
  function Respond(id: Id, r: Reception, o: Order): Outcome {
    if o.reception != id || o.vehicle != r.vehicle || o.customer != r.customer then Integrity else Answer(o)
  }

  function Repeated(db: Database, tenant: Id, id: Id, r: Reception): Outcome {
    var o := Find(db.orders, tenant, id);
    if o.None? then Integrity else Respond(id, r, o.value)
  }

  predicate Below(mileage: nat, v: Vehicle) { v.mileage.Some? && mileage < v.mileage.value }

  /** The rows after a close with this number. */
  function WithOrder(db: Database, tenant: Id, id: Id, r: Reception, number: nat): Database
    requires r.vehicle in db.vehicles
  {
    Database(db.receptions[id := r.(status := Closed)], db.vehicles[r.vehicle := db.vehicles[r.vehicle].(mileage := Some(r.mileage))],
             db.orders + [Order(tenant, id, r.vehicle, r.customer, number)])
  }

  function OutcomeOf(db: Database, tenant: Id, id: Id): Outcome {
    if id !in db.receptions || db.receptions[id].tenant != tenant then NotFound
    else
      var r := db.receptions[id];
      if r.status == Closed then Repeated(db, tenant, id, r)
      else if r.status != Open then NotClosable
      else if r.vehicle !in db.vehicles || db.vehicles[r.vehicle].tenant != tenant then Integrity
      else if Below(r.mileage, db.vehicles[r.vehicle]) then MileageConflict
      else Answer(Order(tenant, id, r.vehicle, r.customer, NextNumber(db.orders, tenant)))
  }

  /** `closeReception` as one atomic change. */
  function Close(db: Database, tenant: Id, id: Id): Database {
    var outcome := OutcomeOf(db, tenant, id);
    if outcome.Answer? && db.receptions[id].status == Open then WithOrder(db, tenant, id, db.receptions[id], outcome.order.number) else db
  }

  /** The tables, changed in place. */
  class Workshop {
    var receptions: map<Id, Reception>
    var vehicles: map<Id, Vehicle>
    var orders: seq<Order>

    ghost function View(): Database
      reads this
    {
      Database(receptions, vehicles, orders)
    }

    constructor (db: Database)
      ensures View() == db
    {
      receptions, vehicles, orders := db.receptions, db.vehicles, db.orders;
    }

    /** The highest number of a tenant, and one more. */
    method Allocate(tenant: Id) returns (number: nat)
      ensures number == NextNumber(orders, tenant)
    {
      var highest, i := 0, 0;
      assert orders[..0] == [];
      while i < |orders|
        invariant 0 <= i <= |orders| && highest == Max(Numbers(orders[..i], tenant))
      {
        MaxOfPrefix(orders, i, tenant);
        if orders[i].tenant == tenant && orders[i].number > highest {
          highest := orders[i].number;
        }
        i := i + 1;
      }
      assert orders[..i] == orders;
      number := highest + 1;
    }

    method FindOrder(tenant: Id, id: Id) returns (order: Option<Order>)
      ensures order == Find(orders, tenant, id)
    {
      var i := 0;
      while i < |orders|
        invariant 0 <= i <= |orders| && Find(orders, tenant, id) == Find(orders[i..], tenant, id)
      {
        if orders[i].tenant == tenant && orders[i].reception == id {
          return Some(orders[i]);
        }
        assert orders[i..][1..] == orders[i + 1..];
        i := i + 1;
      }
      order := None;
    }

    method CloseReception(tenant: Id, id: Id) returns (outcome: Outcome)
      modifies this
      ensures outcome == OutcomeOf(old(View()), tenant, id) && View() == Close(old(View()), tenant, id)
    {
      if id !in receptions || receptions[id].tenant != tenant {
        return NotFound;
      }
      var r := receptions[id];
      if r.status == Closed {
        var known := FindOrder(tenant, id);
        if known.None? {
          return Integrity;
        }
        return Respond(id, r, known.value);
      }
      if r.status != Open {
        return NotClosable;
      }
      if r.vehicle !in vehicles || vehicles[r.vehicle].tenant != tenant {
        return Integrity;
      }
      if Below(r.mileage, vehicles[r.vehicle]) {
        return MileageConflict;
      }
      if vehicles[r.vehicle].mileage != Some(r.mileage) {
        vehicles := vehicles[r.vehicle := vehicles[r.vehicle].(mileage := Some(r.mileage))];
      }
      receptions := receptions[id := r.(status := Closed)];
      var number := Allocate(tenant);
      orders := orders + [Order(tenant, id, r.vehicle, r.customer, number)];
      outcome := Answer(Order(tenant, id, r.vehicle, r.customer, number));
    }
  }

  lemma NumbersOfMore(orders: seq<Order>, o: Order, tenant: Id)
    ensures Numbers(orders + [o], tenant) == Numbers(orders, tenant) + if o.tenant == tenant then [o.number] else []
  {
    assert (orders + [o])[..|orders|] == orders;
  }

  lemma MaxOfMore(orders: seq<Order>, o: Order, tenant: Id)
    ensures Max(Numbers(orders + [o], tenant)) ==
            if o.tenant == tenant && o.number > Max(Numbers(orders, tenant)) then o.number else Max(Numbers(orders, tenant))
  {
    var numbers := Numbers(orders, tenant);
    NumbersOfMore(orders, o, tenant);
    if o.tenant == tenant {
      assert (numbers + [o.number])[..|numbers|] == numbers;
    } else {
      assert numbers + [] == numbers;
    }
  }

  lemma MaxOfPrefix(orders: seq<Order>, i: nat, tenant: Id)
    requires i < |orders|
    ensures Max(Numbers(orders[..i + 1], tenant)) ==
            if orders[i].tenant == tenant && orders[i].number > Max(Numbers(orders[..i], tenant)) then orders[i].number
            else Max(Numbers(orders[..i], tenant))
  {
    MaxOfMore(orders[..i], orders[i], tenant);
    assert orders[..i + 1] == orders[..i] + [orders[i]];
  }

  // ---------------------------------------------------------------- what the tables keep

  /** The orders of a tenant are numbered 1, 2, ... in the order of their commits. */
  predicate Dense(orders: seq<Order>, tenant: Id) {
    forall k :: 0 <= k < |Numbers(orders, tenant)| ==> Numbers(orders, tenant)[k] == k + 1
  }

  predicate OrderOk(db: Database, o: Order) {
    && o.reception in db.receptions
    && var r := db.receptions[o.reception];
       r.status == Closed && o.tenant == r.tenant && o.vehicle == r.vehicle && o.customer == r.customer
  }

  predicate HasOrder(orders: seq<Order>, id: Id) { exists k :: 0 <= k < |orders| && orders[k].reception == id }

  /** Every order belongs to a closed reception of the same tenant, vehicle and customer; every closed reception has one
      order and not two; numbers are dense for every tenant. */
  ghost predicate TablesOk(db: Database) {
    && (forall k :: 0 <= k < |db.orders| ==> OrderOk(db, db.orders[k]))
    && (forall j, k :: 0 <= j < k < |db.orders| ==> db.orders[j].reception != db.orders[k].reception)
    && (forall id :: id in db.receptions && db.receptions[id].status == Closed ==> HasOrder(db.orders, id))
    && (forall tenant :: Dense(db.orders, tenant))
  }

  lemma {:induction false} MaxOfCount(numbers: seq<nat>)
    requires forall k :: 0 <= k < |numbers| ==> numbers[k] == k + 1
    ensures Max(numbers) == |numbers|
  {
    if numbers != [] {
      MaxOfCount(numbers[..|numbers| - 1]);
    }
  }

  /** The next number is the count of the tenant's orders plus one. */
  lemma NextIsCount(orders: seq<Order>, tenant: Id)
    requires Dense(orders, tenant)
    ensures NextNumber(orders, tenant) == |Numbers(orders, tenant)| + 1
  {
    MaxOfCount(Numbers(orders, tenant));
  }

  lemma DenseGrows(orders: seq<Order>, o: Order, tenant: Id)
    requires Dense(orders, tenant) && (o.tenant == tenant ==> o.number == NextNumber(orders, tenant))
    ensures Dense(orders + [o], tenant)
  {
    NumbersOfMore(orders, o, tenant);
    NextIsCount(orders, tenant);
  }

  /** A closed reception has its order found, and the answer is that order. */
  lemma {:induction false} FindsIt(orders: seq<Order>, tenant: Id, id: Id, k: nat)
    requires k < |orders| && orders[k].reception == id && orders[k].tenant == tenant
    requires forall i, j :: 0 <= i < j < |orders| ==> orders[i].reception != orders[j].reception
    ensures Find(orders, tenant, id) == Some(orders[k])
  {
    if k > 0 {
      FindsIt(orders[1..], tenant, id, k - 1);
    }
  }

  lemma OrdersDistinctAfter(db: Database, o: Order)
    requires TablesOk(db) && o.reception in db.receptions && db.receptions[o.reception].status != Closed
    ensures forall j, k :: 0 <= j < k < |db.orders + [o]| ==> (db.orders + [o])[j].reception != (db.orders + [o])[k].reception
  {
    forall j | 0 <= j < |db.orders| ensures db.orders[j].reception != o.reception {
      assert OrderOk(db, db.orders[j]);
    }
  }

  lemma OrdersCoverAfter(db: Database, o: Order, id: Id)
    requires HasOrder(db.orders, id) || id == o.reception
    ensures HasOrder(db.orders + [o], id)
  {
    if id == o.reception {
      assert (db.orders + [o])[|db.orders|].reception == id;
    } else {
      var k :| 0 <= k < |db.orders| && db.orders[k].reception == id;
      assert (db.orders + [o])[k].reception == id;
    }
  }

  /** An atomic close keeps the tables in order. */
  lemma CloseKeeps(db: Database, tenant: Id, id: Id)
    requires TablesOk(db)
    ensures TablesOk(Close(db, tenant, id))
  {
    var outcome := OutcomeOf(db, tenant, id);
    if outcome.Answer? && db.receptions[id].status == Open {
      var db2, o := Close(db, tenant, id), outcome.order;
      OrdersDistinctAfter(db, o);
      forall x | x in db2.receptions && db2.receptions[x].status == Closed ensures HasOrder(db2.orders, x) {
        OrdersCoverAfter(db, o, x);
      }
      forall other ensures Dense(db2.orders, other) {
        DenseGrows(db.orders, o, other);
      }
      forall k | 0 <= k < |db2.orders| ensures OrderOk(db2, db2.orders[k]) {
        if k < |db.orders| {
          assert OrderOk(db, db.orders[k]);
        }
      }
    }
  }

  /** Closing again changes nothing and answers with the order there is; no integrity error is possible for a reception
      that is closed. */
  lemma CloseAgain(db: Database, tenant: Id, id: Id)
    requires TablesOk(db) && id in db.receptions && db.receptions[id].tenant == tenant && db.receptions[id].status == Closed
    ensures Close(db, tenant, id) == db
    ensures OutcomeOf(db, tenant, id).Answer? && OutcomeOf(db, tenant, id).order in db.orders
    ensures OutcomeOf(db, tenant, id).order.reception == id
  {
    var k :| 0 <= k < |db.orders| && db.orders[k].reception == id;
    assert OrderOk(db, db.orders[k]);
    FindsIt(db.orders, tenant, id, k);
  }

  /** A close answered with an order, repeated: the same answer, the same tables. */
  lemma CloseTwice(db: Database, tenant: Id, id: Id)
    requires TablesOk(db) && OutcomeOf(db, tenant, id).Answer?
    ensures var after := Close(db, tenant, id);
            OutcomeOf(after, tenant, id) == OutcomeOf(db, tenant, id) && Close(after, tenant, id) == after
  {
    var after, o := Close(db, tenant, id), OutcomeOf(db, tenant, id).order;
    CloseKeeps(db, tenant, id);
    CloseAgain(after, tenant, id);
    if db.receptions[id].status == Open {
      assert after.orders[|db.orders|] == o;
      FindsIt(after.orders, tenant, id, |db.orders|);
    }
  }

  /** What a close of an open reception does, when it is answered: the reception is closed and otherwise as it was, its vehicle
      has its mileage, which is no less than before, the one new order has the next number, and nothing else changes. */
  lemma CloseExact(db: Database, tenant: Id, id: Id)
    requires TablesOk(db) && OutcomeOf(db, tenant, id).Answer? && db.receptions[id].status == Open
    ensures var after, r := Close(db, tenant, id), db.receptions[id];
            && after.receptions.Keys == db.receptions.Keys && after.vehicles.Keys == db.vehicles.Keys
            && (forall x :: x in db.receptions ==> after.receptions[x] == if x == id then r.(status := Closed) else db.receptions[x])
            && (forall v :: v in db.vehicles ==>
                  after.vehicles[v] == if v == r.vehicle then Vehicle(tenant, Some(r.mileage)) else db.vehicles[v])
            && r.vehicle in db.vehicles && !Below(r.mileage, db.vehicles[r.vehicle])
            && after.orders == db.orders + [Order(tenant, id, r.vehicle, r.customer, |Numbers(db.orders, tenant)| + 1)]
  {
    NextIsCount(db.orders, tenant);
  }

  /** The outcomes are told apart by the rows: which close is answered with an order. */
  lemma AnswerExact(db: Database, tenant: Id, id: Id)
    requires TablesOk(db)
    ensures OutcomeOf(db, tenant, id).Answer? <==>
            && id in db.receptions && db.receptions[id].tenant == tenant
            && var r := db.receptions[id];
               r.status == Closed ||
               (r.status == Open && r.vehicle in db.vehicles && db.vehicles[r.vehicle].tenant == tenant &&
                !Below(r.mileage, db.vehicles[r.vehicle]))
  {
    if id in db.receptions && db.receptions[id].tenant == tenant && db.receptions[id].status == Closed {
      CloseAgain(db, tenant, id);
    }
  }

  predicate Known(db: Database, tenant: Id, id: Id) { id in db.receptions && db.receptions[id].tenant == tenant }

  /** Why a close is refused: an unknown reception is not found, whatever its tenant; a mileage below the one known is a
      conflict of an open reception only; the tables show an integrity error only by a vehicle that is not there. */
  lemma RefusalExact(db: Database, tenant: Id, id: Id)
    requires TablesOk(db)
    ensures var outcome := OutcomeOf(db, tenant, id);
            && (outcome == NotFound <==> !Known(db, tenant, id))
            && (Known(db, tenant, id) ==>
                 var r := db.receptions[id];
                 var there := r.vehicle in db.vehicles && db.vehicles[r.vehicle].tenant == tenant;
                 && (outcome == NotClosable <==> r.status == Status.Other)
                 && (outcome == Integrity <==> r.status == Open && !there)
                 && (outcome == MileageConflict <==>
                      r.status == Open && there && exists m: nat :: db.vehicles[r.vehicle].mileage == Some(m) && r.mileage < m))
  {
    AnswerExact(db, tenant, id);
    if Known(db, tenant, id) && db.receptions[id].vehicle in db.vehicles {
      var v := db.vehicles[db.receptions[id].vehicle];
      if v.mileage.Some? {
        assert v.mileage == Some(v.mileage.value);
      }
    }
  }
}
