/** Row locks of media retention (`lockMediaRetention` and `state`, src/media/retention.ts:115-189): transactions lock
    receptions, damages, orders, sessions and assets in this order, sorted by id inside a tier, and revalidate the link
    graph before they rely on what they hold. */
module RetentionLocks {
  type Id = nat

  const RECEPTION: nat := 0
  const DAMAGE: nat := 1
  const ORDER: nat := 2
  const SESSION: nat := 3
  const ASSET: nat := 4

  datatype Row = Row(tier: nat, id: Id)

  predicate Before(a: Row, b: Row) { a.tier < b.tier || (a.tier == b.tier && a.id < b.id) }

  /** Damages are locked FOR SHARE; the other modes exclude each other. */
  predicate Exclusive(r: Row) { r.tier != DAMAGE }

  predicate Ascending(rows: seq<Row>) { forall i, j :: 0 <= i < j < |rows| ==> Before(rows[i], rows[j]) }

  /** The link graph: the parents each asset is attached or bound to, its upload sessions, and the orders of receptions. */
  datatype Graph = Graph(parents: map<Id, set<Row>>, sessions: map<Id, set<Id>>, orders: map<Id, set<Id>>)

  function Find<T>(m: map<Id, set<T>>, id: Id): set<T> { if id in m then m[id] else {} }

  function ParentsOf(g: Graph, ids: set<Id>): set<Row> { set id, r | id in ids && r in Find(g.parents, id) :: r }

  function SessionsOf(g: Graph, ids: set<Id>): set<Row> { set id, s | id in ids && s in Find(g.sessions,
                      id) :: Row(SESSION, s) }

  function OrdersOf(g: Graph, receptions: set<Row>): set<Row> {
    set r, o | r in receptions && r.tier == RECEPTION && o in Find(g.orders, r.id) :: Row(ORDER, o)
  }

  function AssetRows(ids: set<Id>): set<Row> { set id | id in ids :: Row(ASSET, id) }

  /** What discovery decides to lock above the sessions: the parents found or given, among the given ones the receptions
      looked up for them, and the orders of all receptions. */
  function Wanted(g: Graph, ids: set<Id>, given: set<Row>): set<Row> {
    var parents := ParentsOf(g, ids) + given;
    parents + OrdersOf(g, parents)
  }

  /** `Locking(next)`: the statement of tier `next` comes after the one being worked off. */
  datatype Phase = Fresh | Locking(next: nat) | Proven | Over

  /** A transaction: its assets, the parents and sessions its token remembers, the rows of the current statement still to
      lock, and the rows it holds. */
  datatype Txn = Txn(phase: Phase, ids: set<Id>, wanted: set<Row>, sessions: set<Row>, todo: seq<Row>, held: set<Row>)

  const ENDED: Txn := Txn(Over, {}, {}, {}, [], {})

  datatype State = State(txns: seq<Txn>, graph: Graph)

  datatype Event =
    | Joins
    | Discovers(t: nat, ids: set<Id>, given: set<Row>)
    | Opens(t: nat, rows: seq<Row>)
    | Locks(t: nat)
    | Validates(t: nat)
    | Ends(t: nat)
    | Attaches(t: nat, asset: Id, parent: Row)
    | Detaches(t: nat, asset: Id, parent: Row)
    | Uploads(t: nat, asset: Id, session: Id)
    | Orders(t: nat, reception: Id, order: Id)

  predicate InTier(rows: seq<Row>, tier: nat) { forall i :: 0 <= i < |rows| ==> rows[i].tier == tier }

  /** The rows of one statement: the wanted rows of its tier, the assets, or sessions of the assets as they are now. */
  ghost predicate Statement(g: Graph, x: Txn, tier: nat, rows: seq<Row>) {
    && Ascending(rows) && InTier(rows, tier)
    && (tier < SESSION ==> forall r: Row :: r in rows <==> r in x.wanted && r.tier == tier)
    && (tier == SESSION ==> forall r: Row :: r in rows ==> r in SessionsOf(g, x.ids))
    && (tier == ASSET ==> forall r: Row :: r in rows <==> r in AssetRows(x.ids))
  }

  /** Another transaction holds the row in a conflicting mode. */
  predicate Blocks(s: State, t: nat, r: Row) {
    Exclusive(r) && exists u :: 0 <= u < |s.txns| && u != t && r in s.txns[u].held
  }

  /** `state`: every parent and session of the current graph, and every order of a remembered reception, is remembered. */
  ghost predicate Remembered(g: Graph, x: Txn) {
    && (forall id, r :: id in x.ids && r in Find(g.parents, id) ==> r in x.wanted)
    && (forall id, n :: id in x.ids && n in Find(g.sessions, id) ==> Row(SESSION, n) in x.sessions)
    && (forall id, n :: Row(RECEPTION, id) in x.wanted && n in Find(g.orders, id) ==> Row(ORDER, n) in x.wanted)
  }

  /** Every parent and session of the current graph, and every order of a locked reception, is locked. */
  ghost predicate Covered(g: Graph, x: Txn) {
    && (forall id, r :: id in x.ids && r in Find(g.parents, id) ==> r in x.held)
    && (forall id, n :: id in x.ids && n in Find(g.sessions, id) ==> Row(SESSION, n) in x.held)
    && (forall id, n :: Row(RECEPTION, id) in x.held && n in Find(g.orders, id) ==> Row(ORDER, n) in x.held)
    && (forall id :: id in x.ids ==> Row(ASSET, id) in x.held)
  }

  ghost predicate Enabled(s: State, e: Event) {
    match e
    case Joins => true
    case Discovers(t, _, given) =>
      t < |s.txns| && s.txns[t].phase.Fresh? && forall r :: r in given ==> r.tier <= ORDER
    case Opens(t, rows) =>
      && t < |s.txns| && s.txns[t].phase.Locking? && s.txns[t].todo == [] && s.txns[t].phase.next <= ASSET
      && Statement(s.graph, s.txns[t], s.txns[t].phase.next, rows)
    case Locks(t) => t < |s.txns| && s.txns[t].todo != [] && !Blocks(s, t, s.txns[t].todo[0])
    case Validates(t) => t < |s.txns| && s.txns[t].phase == Locking(ASSET + 1) && s.txns[t].todo == []
    case Ends(t) => t < |s.txns|
    case Attaches(t, asset, parent) =>
      && t < |s.txns| && s.txns[t].phase.Proven? && Row(ASSET, asset) in s.txns[t].held
      && parent in s.txns[t].held && parent.tier <= ORDER
    case Detaches(t, asset, parent) => t < |s.txns| && s.txns[t].phase.Proven? && Row(ASSET, asset) in s.txns[t].held
    case Uploads(t, asset, session) =>
      && t < |s.txns| && s.txns[t].phase.Proven? && Row(ASSET, asset) in s.txns[t].held && !Taken(s, Row(SESSION, session))
    case Orders(t, reception, order) =>
      && t < |s.txns| && s.txns[t].phase.Proven? && Row(RECEPTION, reception) in s.txns[t].held
      && !Taken(s, Row(ORDER, order))
  }

  /** A new row is locked by nobody: its id is not one that any transaction holds. */
  predicate Taken(s: State, r: Row) { exists u :: 0 <= u < |s.txns| && r in s.txns[u].held }

  function Put(s: State, t: nat, x: Txn): State
    requires t < |s.txns|
  {
    s.(txns := s.txns[t := x])
  }

  function Add<T>(m: map<Id, set<T>>, id: Id, x: T): map<Id, set<T>> { m[id := Find(m, id) + {x}] }

  /** The next statement; the one on sessions is remembered. */
  function Opened(x: Txn, rows: seq<Row>): Txn
    requires x.phase.Locking?
  {
    x.(phase := Locking(x.phase.next + 1), todo := rows,
       sessions := if x.phase.next == SESSION then set r | r in rows else x.sessions)
  }

  ghost function Step(s: State, e: Event): State
    requires Enabled(s, e)
  {
    match e
    case Joins => s.(txns := s.txns + [Txn(Fresh, {}, {}, {}, [], {})])
    case Discovers(t, ids, given) =>
      Put(s, t, Txn(Locking(RECEPTION), ids, Wanted(s.graph, ids, given), {}, [], {}))
    case Opens(t, rows) => Put(s, t, Opened(s.txns[t], rows))
    case Locks(t) => Put(s, t, s.txns[t].(todo := s.txns[t].todo[1..], held := s.txns[t].held + {s.txns[t].todo[0]}))
    case Validates(t) =>
      Put(s, t, if Remembered(s.graph, s.txns[t]) then s.txns[t].(phase := Proven) else ENDED)
    case Ends(t) => Put(s, t, ENDED)
    case Attaches(t, asset, parent) => s.(graph := s.graph.(parents := Add(s.graph.parents, asset, parent)))
    case Detaches(t, asset, parent) =>
      s.(graph := s.graph.(parents := s.graph.parents[asset := Find(s.graph.parents, asset) - {parent}]))
    case Uploads(t, asset, session) =>
      Put(s, t, s.txns[t].(held := s.txns[t].held + {Row(SESSION, session)}))
        .(graph := s.graph.(sessions := Add(s.graph.sessions, asset, session)))
    case Orders(t, reception, order) =>
      Put(s, t, s.txns[t].(held := s.txns[t].held + {Row(ORDER, order)}))
        .(graph := s.graph.(orders := Add(s.graph.orders, reception, order)))
  }

  // ---------------------------------------------------------------- what every run keeps

  /** Locks are taken in ascending order: what is held comes before what is waited for. */
  predicate InOrder(x: Txn) {
    && Ascending(x.todo) && (x.todo != [] ==> x.phase.Locking?)
    && (x.phase.Locking? ==>
         (forall r, i :: r in x.held && 0 <= i < |x.todo| ==> Before(r, x.todo[i])) &&
         (forall r :: r in x.held ==> r.tier < x.phase.next) && (forall i :: 0 <= i < |x.todo| ==> x.todo[i].tier < x.phase.next))
    && (x.phase.Fresh? || x.phase.Over? ==> x.held == {})
  }

  /** What is locked, or about to be, is what the token remembers of the tiers begun, and the assets. */
  ghost predicate Planned(x: Txn) {
    x.phase.Locking? ==>
      && (forall r: Row :: r.tier <= ORDER ==> ((r in x.held || r in x.todo) <==> r in x.wanted && r.tier < x.phase.next))
      && (forall r: Row :: r in x.sessions ==> r in x.held || r in x.todo)
      && (x.phase.next > ASSET ==> forall id :: id in x.ids ==> Row(ASSET, id) in x.held || Row(ASSET, id) in x.todo)
  }

  /** Assets are attached to receptions, damages and orders. */
  ghost predicate LinksParents(g: Graph) { forall id, r :: r in Find(g.parents, id) ==> r.tier <= ORDER }

  /** No row is held twice in excluding modes. */
  predicate HeldOnce(s: State) {
    forall t, u, r :: 0 <= t < u < |s.txns| && r in s.txns[t].held && r in s.txns[u].held ==> !Exclusive(r)
  }

  ghost predicate Inv(s: State) {
    && (forall t :: 0 <= t < |s.txns| ==> InOrder(s.txns[t]) && Planned(s.txns[t]) && (s.txns[t].phase.Proven? ==> Covered(s.graph, s.txns[t])))
    && HeldOnce(s) && LinksParents(s.graph)
  }

  lemma OrderKept(s: State, e: Event, t: nat)
    requires Inv(s) && Enabled(s, e) && t < |Step(s, e).txns|
    ensures InOrder(Step(s, e).txns[t])
  {
    if t < |s.txns| {
      assert InOrder(s.txns[t]);
    }
  }

  lemma PlanKept(s: State, e: Event, t: nat)
    requires Inv(s) && Enabled(s, e) && t < |Step(s, e).txns|
    ensures Planned(Step(s, e).txns[t])
  {
    if t < |s.txns| {
      var x, y := s.txns[t], Step(s, e).txns[t];
      assert Planned(x) && InOrder(x);
      if y.phase.Locking? && e.Locks? && e.t == t {
        assert x.todo == [x.todo[0]] + x.todo[1..];
      }
    }
  }

  lemma HeldOnceKept(s: State, e: Event)
    requires Inv(s) && Enabled(s, e)
    ensures HeldOnce(Step(s, e))
  {
    var v := Step(s, e);
    forall t, u, r | 0 <= t < u < |v.txns| && r in v.txns[t].held && r in v.txns[u].held ensures !Exclusive(r) {
      assert u < |s.txns| && r in s.txns[t].held && r in s.txns[u].held ==> !Exclusive(r);
    }
  }

  lemma OthersRow(s: State, t: nat, u: nat, r: Row)
    requires HeldOnce(s) && t < |s.txns| && u < |s.txns| && t != u && r in s.txns[u].held && Exclusive(r)
    ensures r !in s.txns[t].held
  {
    var a, b := if t < u then t else u, if t < u then u else t;
    assert r in s.txns[a].held && r in s.txns[b].held ==> !Exclusive(r);
  }

  lemma AttachCovered(s: State, e: Event, t: nat)
    requires Inv(s) && Enabled(s, e) && (e.Attaches? || e.Detaches?) && t < |s.txns| && Covered(s.graph, s.txns[t])
    ensures Covered(Step(s, e).graph, Step(s, e).txns[t])
  {
    var x, g := s.txns[t], Step(s, e).graph;
    if e.Attaches? && e.t != t {
      OthersRow(s, t, e.t, Row(ASSET, e.asset));
    }
    forall id, r | id in x.ids && r in Find(g.parents, id) ensures r in x.held {
      assert r in Find(s.graph.parents, id) || (e.Attaches? && id == e.asset && r == e.parent);
    }
  }

  lemma GrowthCovered(s: State, e: Event, t: nat)
    requires Inv(s) && Enabled(s, e) && (e.Uploads? || e.Orders?) && t < |s.txns| && Covered(s.graph, s.txns[t])
    ensures Covered(Step(s, e).graph, Step(s, e).txns[t])
  {
    if e.t != t {
      OthersRow(s, t, e.t, if e.Uploads? then Row(ASSET, e.asset) else Row(RECEPTION, e.reception));
    }
  }

  /** The graph of a proven transaction changes only under its own locks, and then what changes is locked too. */
  lemma CoveredKept(s: State, e: Event, t: nat)
    requires Inv(s) && Enabled(s, e) && t < |s.txns| && s.txns[t].phase.Proven? && Step(s, e).txns[t].phase.Proven?
    ensures Covered(Step(s, e).graph, Step(s, e).txns[t])
  {
    assert Covered(s.graph, s.txns[t]);
    if e.Attaches? || e.Detaches? {
      AttachCovered(s, e, t);
    } else if e.Uploads? || e.Orders? {
      GrowthCovered(s, e, t);
    }
  }

  /** What is remembered is held, so a transaction that validates by what it remembers holds the link graph. */
  lemma RememberedHeld(s: State, t: nat)
    requires Inv(s) && Enabled(s, Validates(t)) && Remembered(s.graph, s.txns[t])
    ensures Covered(s.graph, s.txns[t])
  {
    assert Planned(s.txns[t]);
  }

  lemma LinksKept(s: State, e: Event)
    requires Inv(s) && Enabled(s, e)
    ensures LinksParents(Step(s, e).graph)
  {
    var g := Step(s, e).graph;
    forall id, r | r in Find(g.parents, id) ensures r.tier <= ORDER {
      assert r in Find(s.graph.parents, id) || (e.Attaches? && r == e.parent);
    }
  }

  lemma StepKeeps(s: State, e: Event)
    requires Inv(s) && Enabled(s, e)
    ensures Inv(Step(s, e))
  {
    var v := Step(s, e);
    forall t | 0 <= t < |v.txns| ensures InOrder(v.txns[t]) && Planned(v.txns[t]) && (v.txns[t].phase.Proven? ==> Covered(v.graph, v.txns[t])) {
      OrderKept(s, e, t);
      PlanKept(s, e, t);
      if v.txns[t].phase.Proven? {
        if s.txns[t].phase.Proven? {
          CoveredKept(s, e, t);
        } else {
          RememberedHeld(s, t);
        }
      }
    }
    HeldOnceKept(s, e);
    LinksKept(s, e);
  }

  // ---------------------------------------------------------------- no deadlock

  function Awaited(s: State, a: nat): Row {
    if a < |s.txns| && s.txns[a].todo != [] then s.txns[a].todo[0] else Row(RECEPTION, 0)
  }

  /** The order in which transactions came to the locks they wait for: any numbering. */
  type Arrival = nat -> nat

  /** a waits for a row that b holds, or stands behind b in the queue for a row. */
  predicate WaitsFor(s: State, arrival: Arrival, a: nat, b: nat) {
    && a < |s.txns| && b < |s.txns| && a != b && s.txns[a].todo != [] && Exclusive(s.txns[a].todo[0])
    && (s.txns[a].todo[0] in s.txns[b].held ||
        (s.txns[b].todo != [] && s.txns[b].todo[0] == s.txns[a].todo[0] && arrival(b) < arrival(a)))
  }

  predicate Path(s: State, arrival: Arrival, p: seq<nat>) {
    |p| >= 2 && forall k :: 0 <= k < |p| - 1 ==> WaitsFor(s, arrival, p[k], p[k + 1])
  }

  /** b awaits a later row than a, or the same one from further ahead in its queue. */
  predicate Ahead(s: State, arrival: Arrival, a: nat, b: nat) {
    Before(Awaited(s, a), Awaited(s, b)) || (Awaited(s, a) == Awaited(s, b) && arrival(b) < arrival(a))
  }

  lemma WaiterAhead(s: State, arrival: Arrival, a: nat, b: nat)
    requires Inv(s) && WaitsFor(s, arrival, a, b) && s.txns[b].todo != []
    ensures Ahead(s, arrival, a, b)
  {
    assert InOrder(s.txns[b]);
  }

  /** Along a chain of waiting transactions everyone is ahead of the first. */
  lemma {:induction false} AwaitedAscend(s: State, arrival: Arrival, p: seq<nat>, k: nat)
    requires Inv(s) && Path(s, arrival, p) && 0 < k < |p| - 1
    ensures Ahead(s, arrival, p[0], p[k])
  {
    assert WaitsFor(s, arrival, p[k - 1], p[k - 1 + 1]) && WaitsFor(s, arrival, p[k], p[k + 1]);
    WaiterAhead(s, arrival, p[k - 1], p[k]);
    if k > 1 {
      AwaitedAscend(s, arrival, p, k - 1);
    }
  }

  ghost predicate Run(es: seq<Event>, ss: seq<State>, graph: Graph) { |ss| == |es| + 1 && ss[0] == State([],
                      graph) && LinksParents(graph) }

  ghost predicate Follows(es: seq<Event>, ss: seq<State>, graph: Graph) {
    Run(es, ss, graph) && forall k :: 0 <= k < |es| ==> Enabled(ss[k], es[k]) && ss[k + 1] == Step(ss[k], es[k])
  }

  lemma {:induction false} RunInv(es: seq<Event>, ss: seq<State>, graph: Graph, k: nat)
    requires Follows(es, ss, graph) && k <= |es|
    ensures Inv(ss[k])
  {
    if k > 0 {
      RunInv(es, ss, graph, k - 1);
      StepKeeps(ss[k - 1], es[k - 1]);
      assert ss[k - 1 + 1] == Step(ss[k - 1], es[k - 1]);
    }
  }

  lemma WaiterHoldsEarlier(s: State, a: nat, r: Row)
    requires Inv(s) && a < |s.txns| && s.txns[a].todo != [] && !Before(r, Awaited(s, a))
    ensures r !in s.txns[a].held
  {
    assert InOrder(s.txns[a]);
  }

  /** In every interleaving the wait-for graph is acyclic, queues for locks included. */
  lemma NoDeadlock(es: seq<Event>, ss: seq<State>, graph: Graph, k: nat, arrival: Arrival, p: seq<nat>)
    requires Follows(es, ss, graph) && k <= |es| && Path(ss[k], arrival, p)
    ensures p[0] != p[|p| - 1]
  {
    var s, m := ss[k], |p| - 2;
    RunInv(es, ss, graph, k);
    assert WaitsFor(s, arrival, p[m], p[m + 1]) && WaitsFor(s, arrival, p[0], p[0 + 1]);
    if m > 0 {
      AwaitedAscend(s, arrival, p, m);
      WaiterHoldsEarlier(s, p[0], Awaited(s, p[m]));
    }
  }

  /** When a transaction validates, the parents it holds are exactly those its token remembers, and it holds every session
      the token remembers. */
  lemma HoldsWhatWasWanted(es: seq<Event>, ss: seq<State>, graph: Graph, k: nat, t: nat, r: Row)
    requires Follows(es, ss, graph) && k <= |es| && Enabled(ss[k], Validates(t))
    ensures r.tier <= ORDER ==> (r in ss[k].txns[t].held <==> r in ss[k].txns[t].wanted)
    ensures r in ss[k].txns[t].sessions ==> r in ss[k].txns[t].held
  {
    RunInv(es, ss, graph, k);
    assert Planned(ss[k].txns[t]);
  }

  /** A validated transaction holds every parent and every session of the link graph, and every order of a locked
      reception, for as long as it lasts. */
  lemma ProofHolds(es: seq<Event>, ss: seq<State>, graph: Graph, k: nat, t: nat)
    requires Follows(es, ss, graph) && k <= |es| && t < |ss[k].txns| && ss[k].txns[t].phase.Proven?
    ensures var x, g := ss[k].txns[t], ss[k].graph;
            && (forall id, r :: id in x.ids && r in Find(g.parents, id) ==> r in x.held)
            && (forall id, n :: id in x.ids && n in Find(g.sessions, id) ==> Row(SESSION, n) in x.held)
            && (forall id, n :: Row(RECEPTION, id) in x.held && n in Find(g.orders, id) ==> Row(ORDER, n) in x.held)
            && (forall id :: id in x.ids ==> Row(ASSET, id) in x.held)
  {
    RunInv(es, ss, graph, k);
    assert Covered(ss[k].graph, ss[k].txns[t]);
  }

  // ---------------------------------------------------------------- when the proof succeeds

  /** A transaction that began with this discovery: it still works off what was decided then. */
  predicate Began(s: State, t: nat, ids: set<Id>, wanted: set<Row>) {
    t < |s.txns| && s.txns[t].phase.Locking? && s.txns[t].ids == ids && s.txns[t].wanted == wanted
  }

  lemma {:induction false} StillBegun(es: seq<Event>, ss: seq<State>, graph: Graph, m: nat, k: nat, t: nat,
                                      ids: set<Id>, given: set<Row>)
    requires Follows(es, ss, graph) && m < k <= |es| && es[m] == Discovers(t, ids, given)
    requires t < |ss[k].txns| && ss[k].txns[t].phase.Locking?
    ensures Began(ss[k], t, ids, Wanted(ss[m].graph, ids, given))
    decreases k
  {
    var j := k - 1;
    assert ss[j + 1] == Step(ss[j], es[j]) && Enabled(ss[j], es[j]);
    if m < j {
      StaysBusy(es, ss, graph, m, j, t);
      StillBegun(es, ss, graph, m, j, t, ids, given);
    }
  }

  /** A transaction that has begun is never fresh again, and once it stops locking it does not lock any more. */
  lemma {:induction false} StaysBusy(es: seq<Event>, ss: seq<State>, graph: Graph, m: nat, k: nat, t: nat)
    requires Follows(es, ss, graph) && m < k < |es| && (es[m].Discovers? || es[m].Opens?) && es[m].t == t
    ensures t < |ss[k].txns| && !ss[k].txns[t].phase.Fresh?
    ensures t < |ss[k + 1].txns| && (ss[k + 1].txns[t].phase.Locking? ==> ss[k].txns[t].phase.Locking?)
    decreases k
  {
    var j := k - 1;
    assert ss[j + 1] == Step(ss[j], es[j]) && Enabled(ss[j], es[j]);
    assert ss[k + 1] == Step(ss[k], es[k]) && Enabled(ss[k], es[k]);
    if m < j {
      StaysBusy(es, ss, graph, m, j, t);
    }
  }

  /** The sessions a transaction remembers are the rows of its session statement. */
  lemma {:induction false} SessionsRemembered(es: seq<Event>, ss: seq<State>, graph: Graph, n: nat, k: nat, t: nat,
                                              rows: seq<Row>)
    requires Follows(es, ss, graph) && n < k <= |es| && es[n] == Opens(t, rows) && ss[n].txns[t].phase == Locking(SESSION)
    requires t < |ss[k].txns| && ss[k].txns[t].phase.Locking?
    ensures ss[k].txns[t].sessions == (set r | r in rows) && ss[k].txns[t].phase.next > SESSION
    decreases k
  {
    var j := k - 1;
    assert ss[j + 1] == Step(ss[j], es[j]) && Enabled(ss[j], es[j]);
    if n < j {
      StaysBusy(es, ss, graph, n, j, t);
      SessionsRemembered(es, ss, graph, n, j, t, rows);
    }
  }

  /** What discovery wants covers the graph it saw: parents, and the orders of every reception among them. */
  lemma WantedCovers(g: Graph, ids: set<Id>, given: set<Row>)
    ensures forall id, r :: id in ids && r in Find(g.parents, id) ==> r in Wanted(g, ids, given)
    ensures forall r :: r in given ==> r in Wanted(g, ids, given)
    ensures forall id, n :: Row(RECEPTION, id) in Wanted(g, ids, given) && n in Find(g.orders, id) ==> Row(ORDER, n) in Wanted(g, ids, given)
  {
    var parents := ParentsOf(g, ids) + given;
    forall id, n | Row(RECEPTION, id) in Wanted(g, ids, given) && n in Find(g.orders, id) ensures Row(ORDER, n) in OrdersOf(g, parents) {
      assert Row(RECEPTION, id) in parents;
    }
  }

  /** A transaction whose links nobody changed since its discovery, and that locked all sessions, does not retry: its
      validation succeeds. */
  lemma UnchangedIsProven(es: seq<Event>, ss: seq<State>, graph: Graph, m: nat, n: nat, k: nat, t: nat, ids: set<Id>,
                          given: set<Row>, rows: seq<Row>)
    requires Follows(es, ss, graph) && m < n < k < |es| && es[m] == Discovers(t, ids, given)
    requires es[n] == Opens(t, rows) && ss[n].txns[t].phase == Locking(SESSION)
    requires forall r :: r in SessionsOf(ss[n].graph, ids) ==> r in rows
    requires es[k] == Validates(t) && ss[n].graph == ss[m].graph && ss[k].graph == ss[m].graph
    ensures ss[k + 1].txns[t].phase.Proven?
  {
    var g, x := ss[k].graph, ss[k].txns[t];
    assert Enabled(ss[k], es[k]) && ss[k + 1] == Step(ss[k], es[k]);
    StillBegun(es, ss, graph, m, k, t, ids, given);
    SessionsRemembered(es, ss, graph, n, k, t, rows);
    WantedCovers(g, ids, given);
    forall id, s | id in x.ids && s in Find(g.sessions, id) ensures Row(SESSION, s) in x.sessions {
      assert Row(SESSION, s) in SessionsOf(g, ids);
    }
    assert Remembered(g, x);
  }
}
