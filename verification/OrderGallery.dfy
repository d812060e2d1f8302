/** The media gallery of an order: which assets may be shown (`eligibleGraph`, src/media/assigned-authorization.ts:54-119)
    and how keyset windows walk over them (`candidates`, `listOrderMedia`, src/media/order-query.ts). Ids are compared
    only by their order; purposes are numbered in theirs. */
module OrderGallery {
  import opened Prelude
  import opened SortedLists

  type Id = nat

  const DAMAGE_EVIDENCE: nat := 0
  const INTAKE_EVIDENCE: nat := 1

  // ---------------------------------------------------------------- the link graph

  /** A row of reception_media or damage_media. */
  datatype Link = OnReception(parent: Id, asset: Id, purpose: nat, sort: nat) | OnDamage(parent: Id, asset: Id, purpose: nat, sort: nat)

  datatype Target = Target(reception: Id, damage: Option<Id>)

  /** The binding of an upload session; `lineage` says that its consent, reception, damage and times agree. */
  datatype Binding = Binding(target: Target, lineage: bool)

  datatype Session = Session(asset: Id, completed: bool, binding: Option<Binding>)

  /** The rows the checks read: associations, existing receptions, the reception of every damage, upload sessions, assets
      in an active operational state, assets referenced by other families, receptions whose order the reader is assigned to. */
  datatype Database = Database(links: set<Link>, receptions: set<Id>, damages: map<Id, Id>, sessions: set<Session>,
                               operational: set<Id>, elsewhere: set<Id>, staffed: set<Id>)

  predicate SameKey(a: Link, b: Link) {
    a.OnReception? == b.OnReception? && a.parent == b.parent && a.asset == b.asset && a.purpose == b.purpose
  }

  /** The primary keys of the association tables. */
  ghost predicate KeysUnique(db: Database) {
    forall a, b :: a in db.links && b in db.links && SameKey(a, b) ==> a == b
  }

  /** Where a link leads, when its lineage is whole and its purpose the one of its family. */
  function TargetOf(db: Database, l: Link): Option<Target> {
    match l
    case OnReception(r, _, purpose, _) => if r in db.receptions && purpose == INTAKE_EVIDENCE then Some(Target(r, None)) else None
    case OnDamage(d, _, purpose, _) =>
      if d in db.damages && db.damages[d] in db.receptions && purpose == DAMAGE_EVIDENCE then Some(Target(db.damages[d], Some(d))) else None
  }

  function LinksOf(db: Database, asset: Id): set<Link> { set l | l in db.links && l.asset == asset }

  function SessionsOf(db: Database, asset: Id): set<Session> { set s | s in db.sessions && s.asset == asset }

  /** A completed session whose whole lineage agrees. */
  predicate Valid(s: Session) { s.completed && s.binding.Some? && s.binding.value.lineage }

  /** All sessions prove one target, every link leads there, and there is a link. */
  predicate Consensus(db: Database, asset: Id) {
    && SessionsOf(db, asset) != {}
    && (forall s :: s in SessionsOf(db, asset) ==> Valid(s))
    && (forall s, t :: s in SessionsOf(db, asset) && t in SessionsOf(db, asset) && Valid(s) && Valid(t) ==>
          s.binding.value.target == t.binding.value.target)
    && (forall s, l :: s in SessionsOf(db, asset) && l in LinksOf(db, asset) && Valid(s) ==>
          TargetOf(db, l) == Some(s.binding.value.target))
  }

  /** `eligibleGraph`. */
  predicate Eligible(db: Database, asset: Id, tenantWide: bool) {
    && asset in db.operational && asset !in db.elsewhere
    && LinksOf(db, asset) != {} && (forall l :: l in LinksOf(db, asset) ==> TargetOf(db, l).Some?)
    && if tenantWide && |LinksOf(db, asset)| == 1 && (forall s :: s in SessionsOf(db, asset) ==> s.completed && s.binding.None?)
       then true
       else
         Consensus(db, asset) &&
         (tenantWide || forall l :: l in LinksOf(db, asset) && TargetOf(db, l).Some? ==> TargetOf(db, l).value.reception in db.staffed)
  }

  function EligibleIn(db: Database, tenantWide: bool): Id -> bool { (asset: Id) => Eligible(db, asset, tenantWide) }

  lemma SingletonElements<T>(s: set<T>, a: T, b: T)
    requires |s| == 1 && a in s && b in s
    ensures a == b
  {
    assert |s - {a}| == 0;
    assert b !in s - {a};
  }

  /** An eligible asset has exactly one association link. */
  lemma OneLink(db: Database, asset: Id, tenantWide: bool, a: Link, b: Link)
    requires KeysUnique(db) && Eligible(db, asset, tenantWide) && a in LinksOf(db, asset) && b in LinksOf(db, asset)
    ensures a == b
  {
    if tenantWide && |LinksOf(db, asset)| == 1 && (forall s :: s in SessionsOf(db, asset) ==> s.completed && s.binding.None?) {
      SingletonElements(LinksOf(db, asset), a, b);
    } else {
      var s :| s in SessionsOf(db, asset);
      assert Valid(s) && TargetOf(db, a) == TargetOf(db, b) == Some(s.binding.value.target);
    }
  }

  // ---------------------------------------------------------------- who may see what

  /** The rows a link needs are there, and its purpose is the one of its family. */
  predicate Whole(db: Database, l: Link) {
    if l.OnReception? then l.purpose == INTAKE_EVIDENCE && l.parent in db.receptions
    else l.purpose == DAMAGE_EVIDENCE && l.parent in db.damages && db.damages[l.parent] in db.receptions
  }

  /** The reception a link leads to. */
  function ReceptionOf(db: Database, l: Link): Id {
    if l.OnDamage? && l.parent in db.damages then db.damages[l.parent] else l.parent
  }

  /** The upload was bound to the very parent that the link names. */
  predicate BoundTo(db: Database, s: Session, l: Link) {
    && s.completed && s.binding.Some? && s.binding.value.lineage
    && s.binding.value.target.reception == ReceptionOf(db, l)
    && s.binding.value.target.damage == if l.OnDamage? then Some(l.parent) else None
  }

  /** l is the only link of the asset, and whole. */
  predicate OnlyLink(db: Database, asset: Id, l: Link) {
    && l in db.links && l.asset == asset && Whole(db, l)
    && forall o :: o in db.links && o.asset == asset ==> o == l
  }

  /** The asset was uploaded, and every upload was for that link. */
  predicate UploadedFor(db: Database, asset: Id, l: Link) {
    && (exists s :: s in db.sessions && s.asset == asset)
    && forall s :: s in db.sessions && s.asset == asset ==> BoundTo(db, s, l)
  }

  /** Every upload is complete and none was bound to anything. */
  predicate NeverBound(db: Database, asset: Id) {
    forall s :: s in db.sessions && s.asset == asset ==> s.completed && s.binding.None?
  }

  lemma TargetExact(db: Database, l: Link)
    ensures TargetOf(db, l).Some? <==> Whole(db, l)
    ensures Whole(db, l) ==>
            TargetOf(db, l).value == Target(ReceptionOf(db, l), if l.OnDamage? then Some(l.parent) else None)
  {
  }

  lemma LinkAndSessions(db: Database, asset: Id)
    ensures forall l :: l in LinksOf(db, asset) <==> l in db.links && l.asset == asset
    ensures forall s :: s in SessionsOf(db, asset) <==> s in db.sessions && s.asset == asset
  {
  }

  lemma ConsensusExact(db: Database, asset: Id, l: Link)
    requires OnlyLink(db, asset, l)
    ensures Consensus(db, asset) <==> UploadedFor(db, asset, l)
  {
    LinkAndSessions(db, asset);
    TargetExact(db, l);
    assert LinksOf(db, asset) == {l};
    if UploadedFor(db, asset, l) {
      var s :| s in db.sessions && s.asset == asset;
      assert s in SessionsOf(db, asset);
      forall s, o | s in SessionsOf(db, asset) && o in LinksOf(db, asset) ensures TargetOf(db, o) == Some(s.binding.value.target) {
        assert BoundTo(db, s, l);
      }
    }
    if Consensus(db, asset) {
      var s :| s in SessionsOf(db, asset);
      assert s in db.sessions && s.asset == asset;
      forall s | s in db.sessions && s.asset == asset ensures BoundTo(db, s, l) {
        assert s in SessionsOf(db, asset) && l in LinksOf(db, asset);
      }
    }
  }

  /** An eligible asset has a link that is its only one. */
  lemma EligibleLink(db: Database, asset: Id, tenantWide: bool) returns (l: Link)
    requires KeysUnique(db) && Eligible(db, asset, tenantWide)
    ensures OnlyLink(db, asset, l)
  {
    LinkAndSessions(db, asset);
    l :| l in LinksOf(db, asset);
    TargetExact(db, l);
    forall o | o in db.links && o.asset == asset ensures o == l { OneLink(db, asset, tenantWide, o, l); }
  }

  /** Whoever is not let in tenant-wide sees an asset exactly when it is operational and referenced nowhere else, has one
      link and that a whole one, was uploaded for that link only, and the reader is staff of the link's reception. */
  lemma EligibleExact(db: Database, asset: Id)
    requires KeysUnique(db)
    ensures Eligible(db, asset, false) <==>
            asset in db.operational && asset !in db.elsewhere &&
            exists l :: OnlyLink(db, asset, l) && UploadedFor(db, asset, l) && ReceptionOf(db, l) in db.staffed
  {
    if Eligible(db, asset, false) {
      var l := EligibleLink(db, asset, false);
      ConsensusExact(db, asset, l);
      TargetExact(db, l);
      assert l in LinksOf(db, asset);
    }
    if l :| OnlyLink(db, asset, l) && UploadedFor(db, asset, l) && ReceptionOf(db, l) in db.staffed {
      ConsensusExact(db, asset, l);
      TargetExact(db, l);
      assert l in LinksOf(db, asset);
    }
  }

  /** Tenant-wide an asset is seen under the same conditions without the staff, or when its uploads are complete and
      unbound. */
  lemma EligibleTenantWide(db: Database, asset: Id)
    requires KeysUnique(db)
    ensures Eligible(db, asset, true) <==>
            asset in db.operational && asset !in db.elsewhere &&
            exists l :: OnlyLink(db, asset, l) && (UploadedFor(db, asset, l) || NeverBound(db, asset))
  {
    LinkAndSessions(db, asset);
    if Eligible(db, asset, true) {
      var l := EligibleLink(db, asset, true);
      ConsensusExact(db, asset, l);
    }
    if l :| OnlyLink(db, asset, l) && (UploadedFor(db, asset, l) || NeverBound(db, asset)) {
      ConsensusExact(db, asset, l);
      TargetExact(db, l);
      assert LinksOf(db, asset) == {l};
      if NeverBound(db, asset) {
        forall s | s in SessionsOf(db, asset) ensures s.completed && s.binding.None? { assert s in db.sessions && s.asset == asset; }
      }
    }
  }

  // ---------------------------------------------------------------- keyset order

  /** A candidate and its cursor position. */
  datatype Position = Position(rank: nat, source: Id, sort: nat, asset: Id, purpose: nat)

  function PositionOf(l: Link): Position {
    Position(if l.OnReception? then 0 else 1, l.parent, l.sort, l.asset, l.purpose)
  }

  /** Row comparison: source rank, source id, sort order, asset id, purpose. */
  predicate Precedes(a: Position, b: Position) {
    if a.rank != b.rank then a.rank < b.rank
    else if a.source != b.source then a.source < b.source
    else if a.sort != b.sort then a.sort < b.sort
    else if a.asset != b.asset then a.asset < b.asset
    else a.purpose < b.purpose
  }

  function Order(): Less<Position> { (a, b) => Precedes(a, b) }

  lemma OrderTotal()
    ensures StrictTotal(Order())
  {
  }

  /** The links of a reception and of its damages. */
  predicate OfReception(db: Database, reception: Id, l: Link) {
    match l
    case OnReception(r, _, _, _) => r == reception
    case OnDamage(d, _, _, _) => d in db.damages && db.damages[d] == reception
  }

  /** The whole candidate list of a reception, in order. */
  ghost predicate Lists(db: Database, reception: Id, all: seq<Position>) {
    && Sorted(Order(), all)
    && forall p :: p in all <==> exists l :: l in db.links && OfReception(db, reception, l) && PositionOf(l) == p
  }

  /** The rows behind a position. */
  function Behind(all: seq<Position>, after: Option<Position>): seq<Position> {
    if after.None? || all == [] || Precedes(after.value, all[0]) then all else Behind(all[1..], after)
  }

  function Take(l: seq<Position>, n: nat): seq<Position> { if |l| <= n then l else l[..n] }

  /** `candidates`: at most limit + 1 rows behind the cursor. */
  function Candidates(all: seq<Position>, limit: nat, after: Option<Position>): seq<Position> { Take(Behind(all, after), limit + 1) }

  datatype Page = Page(window: seq<Position>, media: seq<Position>, next: Option<Position>)

  /** The rows shown: eligible ones, an asset only once. */
  function Shown(rows: seq<Position>, eligible: Id -> bool): seq<Position> {
    if rows == [] then []
    else
      var n := |rows| - 1;
      var before := Shown(rows[..n], eligible);
      if eligible(rows[n].asset) && forall p :: p in before ==> p.asset != rows[n].asset then before + [rows[n]] else before
  }

  function PageAt(all: seq<Position>, limit: nat, after: Option<Position>, eligible: Id -> bool): Page {
    var current := Candidates(all, limit, after);
    var window := Take(current, limit);
    Page(window, Shown(window, eligible),
         if |current| > limit && window != [] then Some(window[|window| - 1]) else None)
  }

  /** The loop of `listOrderMedia` over an unchanged window. */
  method ListPage(all: seq<Position>, limit: nat, after: Option<Position>, eligible: Id -> bool) returns (page: Page)
    ensures page == PageAt(all, limit, after, eligible)
  {
    var current := Candidates(all, limit, after);
    var window := Take(current, limit);
    var media: seq<Position>, seen: set<Id>, i := [], {}, 0;
    assert window[..0] == [];
    while i < |window|
      invariant 0 <= i <= |window| && media == Shown(window[..i], eligible)
      invariant forall asset :: asset in seen <==> exists p :: p in media && p.asset == asset
    {
      var row := window[i];
      assert window[..i + 1][..i] == window[..i] && window[..i + 1][i] == row;
      if row.asset !in seen && eligible(row.asset) {
        media, seen := media + [row], seen + {row.asset};
        assert row in media;
      }
      i := i + 1;
    }
    assert window[..i] == window;
    page := Page(window, media, if |current| > limit && window != [] then Some(window[|window| - 1]) else None);
  }

  // ---------------------------------------------------------------- traversal

  /** Everything up to a position is skipped. */
  lemma {:induction false} SkipTo(rest: seq<Position>, p: Position, k: nat)
    requires k <= |rest| && (forall j :: 0 <= j < k ==> !Precedes(p, rest[j])) && (k < |rest| ==> Precedes(p, rest[k]))
    ensures Behind(rest, Some(p)) == rest[k..]
  {
    if k > 0 {
      assert forall j :: 0 <= j < |rest[1..]| ==> rest[1..][j] == rest[j + 1];
      SkipTo(rest[1..], p, k - 1);
      assert rest[1..][k - 1..] == rest[k..];
    }
  }

  /** The rows behind row i are those after it. */
  lemma BehindRow(all: seq<Position>, i: nat)
    requires Sorted(Order(), all) && i < |all|
    ensures Behind(all, Some(all[i])) == all[i + 1..]
  {
    forall j | 0 <= j < i + 1 ensures !Precedes(all[i], all[j]) {
      if j < i {
        assert Order()(all[j], all[i]);
      }
    }
    if i + 1 < |all| {
      assert Order()(all[i], all[i + 1]);
    }
    SkipTo(all, all[i], i + 1);
  }

  /** Whatever the cursor, the rows behind it are a tail of the list. */
  lemma {:induction false} BehindIsTail(all: seq<Position>, after: Option<Position>) returns (i: nat)
    ensures i <= |all| && Behind(all, after) == all[i..]
  {
    if after.None? || all == [] || Precedes(after.value, all[0]) {
      i := 0;
    } else {
      var j := BehindIsTail(all[1..], after);
      i := j + 1;
      assert all[1..][j..] == all[i..];
    }
  }

  /** A page at row i: the next limit rows, and the cursor behind them while there are more. */
  lemma PageAtRow(all: seq<Position>, limit: nat, after: Option<Position>, eligible: Id -> bool, i: nat)
    requires Sorted(Order(), all) && limit > 0 && i <= |all| && Behind(all, after) == all[i..]
    ensures var page := PageAt(all, limit, after, eligible);
            && page.window == Take(all[i..], limit)
            && (page.next.Some? <==> |all| - i > limit)
            && (page.next.Some? ==> Behind(all, page.next) == all[i + limit..])
  {
    var rest, current := all[i..], Candidates(all, limit, after);
    assert Take(current, limit) == Take(rest, limit);
    if |rest| > limit {
      assert Take(current, limit)[limit - 1] == all[i + limit - 1];
      BehindRow(all, i + limit - 1);
    }
  }

  /** The pages of a traversal: follow the cursor until there is none. */
  function Traverse(all: seq<Position>, limit: nat, after: Option<Position>, eligible: Id -> bool): seq<Page>
    requires Sorted(Order(), all) && limit > 0
    decreases |Behind(all, after)|
  {
    var page := PageAt(all, limit, after, eligible);
    if page.next.None? then [page]
    else
      NextIsShorter(all, limit, after, eligible);
      [page] + Traverse(all, limit, page.next, eligible)
  }

  lemma NextIsShorter(all: seq<Position>, limit: nat, after: Option<Position>, eligible: Id -> bool)
    requires Sorted(Order(), all) && limit > 0 && PageAt(all, limit, after, eligible).next.Some?
    ensures |Behind(all, PageAt(all, limit, after, eligible).next)| < |Behind(all, after)|
  {
    var i := BehindIsTail(all, after);
    PageAtRow(all, limit, after, eligible, i);
  }

  function Windows(pages: seq<Page>): seq<Position> { if pages == [] then [] else pages[0].window + Windows(pages[1..]) }

  function Media(pages: seq<Page>): seq<Position> { if pages == [] then [] else pages[0].media + Media(pages[1..]) }

  lemma WindowsOfOne(page: Page)
    ensures Windows([page]) == page.window
  {
    assert [page][1..] == [];
  }

  lemma WindowsOfMore(page: Page, pages: seq<Page>)
    ensures Windows([page] + pages) == page.window + Windows(pages)
  {
    assert ([page] + pages)[1..] == pages;
  }

  lemma SplitAt(all: seq<Position>, i: nat, limit: nat)
    requires i + limit <= |all|
    ensures all[i..] == all[i..][..limit] + all[i + limit..]
  {
  }

  /** The windows of a traversal laid end to end are the rows behind its cursor, each exactly once. */
  lemma {:induction false} WindowsPartition(all: seq<Position>, limit: nat, after: Option<Position>, eligible: Id -> bool)
    requires Sorted(Order(), all) && limit > 0
    ensures Windows(Traverse(all, limit, after, eligible)) == Behind(all, after)
    decreases |Behind(all, after)|
  {
    var page := PageAt(all, limit, after, eligible);
    var i := BehindIsTail(all, after);
    PageAtRow(all, limit, after, eligible, i);
    if page.next.None? {
      WindowsOfOne(page);
    } else {
      NextIsShorter(all, limit, after, eligible);
      WindowsPartition(all, limit, page.next, eligible);
      WindowsOfMore(page, Traverse(all, limit, page.next, eligible));
      SplitAt(all, i, limit);
    }
  }

  // ---------------------------------------------------------------- what is shown

  /** The eligible rows, in order. */
  function Filter(rows: seq<Position>, eligible: Id -> bool): seq<Position> {
    if rows == [] then []
    else Filter(rows[..|rows| - 1], eligible) + if eligible(rows[|rows| - 1].asset) then [rows[|rows| - 1]] else []
  }

  predicate OnceEach(rows: seq<Position>, eligible: Id -> bool) {
    forall i, j :: 0 <= i < j < |rows| && eligible(rows[i].asset) ==> rows[i].asset != rows[j].asset
  }

  lemma {:induction false} FilterHolds(rows: seq<Position>, eligible: Id -> bool)
    ensures forall p :: p in Filter(rows, eligible) <==> p in rows && eligible(p.asset)
  {
    if rows != [] {
      var n := |rows| - 1;
      FilterHolds(rows[..n], eligible);
      assert rows == rows[..n] + [rows[n]];
    }
  }

  lemma {:induction false} FilterOfConcat(a: seq<Position>, b: seq<Position>, eligible: Id -> bool)
    ensures Filter(a + b, eligible) == Filter(a, eligible) + Filter(b, eligible)
  {
    if b == [] {
      assert a + b == a;
    } else {
      var n := |b| - 1;
      assert (a + b)[..|a + b| - 1] == a + b[..n];
      FilterOfConcat(a, b[..n], eligible);
    }
  }

  /** When no eligible asset has two rows, the seen set never hides one. */
  lemma {:induction false} ShownIsFilter(rows: seq<Position>, eligible: Id -> bool)
    requires OnceEach(rows, eligible)
    ensures Shown(rows, eligible) == Filter(rows, eligible)
  {
    if rows != [] {
      var n := |rows| - 1;
      ShownIsFilter(rows[..n], eligible);
      FilterHolds(rows[..n], eligible);
      forall p | p in Filter(rows[..n], eligible) ensures p.asset != rows[n].asset {
        var i :| 0 <= i < n && rows[..n][i] == p;
      }
    }
  }

  /** One page shows the eligible rows of its window. */
  lemma PageShows(all: seq<Position>, limit: nat, after: Option<Position>, eligible: Id -> bool, i: nat)
    requires Sorted(Order(), all) && limit > 0 && OnceEach(all, eligible) && i <= |all| && Behind(all, after) == all[i..]
    ensures PageAt(all, limit, after, eligible).media == Filter(Take(all[i..], limit), eligible)
  {
    PageAtRow(all, limit, after, eligible, i);
    ShownIsFilter(Take(all[i..], limit), eligible);
  }

  lemma FilterSplits(rest: seq<Position>, a: seq<Position>, b: seq<Position>, eligible: Id -> bool)
    requires rest == a + b
    ensures Filter(rest, eligible) == Filter(a, eligible) + Filter(b, eligible)
  {
    FilterOfConcat(a, b, eligible);
  }

  lemma MediaOfOne(page: Page)
    ensures Media([page]) == page.media
  {
    assert [page][1..] == [];
  }

  lemma MediaOfMore(page: Page, pages: seq<Page>)
    ensures Media([page] + pages) == page.media + Media(pages)
  {
    assert ([page] + pages)[1..] == pages;
  }

  lemma {:induction false} MediaIsFilter(all: seq<Position>, limit: nat, after: Option<Position>, eligible: Id -> bool)
    requires Sorted(Order(), all) && limit > 0 && OnceEach(all, eligible)
    ensures Media(Traverse(all, limit, after, eligible)) == Filter(Behind(all, after), eligible)
    decreases |Behind(all, after)|
  {
    var page := PageAt(all, limit, after, eligible);
    var i := BehindIsTail(all, after);
    PageAtRow(all, limit, after, eligible, i);
    PageShows(all, limit, after, eligible, i);
    if page.next.None? {
      MediaOfOne(page);
    } else {
      NextIsShorter(all, limit, after, eligible);
      MediaIsFilter(all, limit, page.next, eligible);
      MediaOfMore(page, Traverse(all, limit, page.next, eligible));
      SplitAt(all, i, limit);
      FilterSplits(all[i..], all[i..][..limit], all[i + limit..], eligible);
    }
  }

  /** Candidates of one eligible asset are one candidate. */
  lemma CandidatesOnceEach(db: Database, reception: Id, all: seq<Position>, tenantWide: bool)
    requires KeysUnique(db) && Lists(db, reception, all)
    ensures OnceEach(all, EligibleIn(db, tenantWide))
  {
    OrderTotal();
    forall i, j | 0 <= i < j < |all| && Eligible(db, all[i].asset, tenantWide) ensures all[i].asset != all[j].asset {
      assert all[i] in all && all[j] in all && Order()(all[i], all[j]);
      var a :| a in db.links && OfReception(db, reception, a) && PositionOf(a) == all[i];
      var b :| b in db.links && OfReception(db, reception, b) && PositionOf(b) == all[j];
      assert a.asset == all[i].asset && b.asset == all[j].asset;
      if a.asset == b.asset {
        OneLink(db, a.asset, tenantWide, a, b);
      }
    }
  }

  /** On unchanged data a traversal shows every eligible candidate of the reception exactly once, in order, and shows no
      asset twice; its windows partition the candidate list. */
  lemma GalleryComplete(db: Database, reception: Id, all: seq<Position>, limit: nat, tenantWide: bool)
    requires KeysUnique(db) && Lists(db, reception, all) && limit > 0
    ensures var eligible := EligibleIn(db, tenantWide);
            var pages := Traverse(all, limit, None, eligible);
            && Windows(pages) == all && Media(pages) == Filter(all, eligible)
            && (forall i, j :: 0 <= i < j < |Media(pages)| ==> Media(pages)[i].asset != Media(pages)[j].asset)
            && (!tenantWide && Media(pages) != [] ==> reception in db.staffed)
  {
    var eligible := EligibleIn(db, tenantWide);
    CandidatesOnceEach(db, reception, all, tenantWide);
    WindowsPartition(all, limit, None, eligible);
    MediaIsFilter(all, limit, None, eligible);
    FilterDistinct(all, eligible);
    if !tenantWide && Filter(all, eligible) != [] {
      ShownAreStaffed(db, reception, all, Filter(all, eligible)[0]);
    }
  }

  lemma ShownAreStaffed(db: Database, reception: Id, all: seq<Position>, p: Position)
    requires KeysUnique(db) && Lists(db, reception, all) && p in Filter(all, EligibleIn(db, false))
    ensures reception in db.staffed
  {
    FilterHolds(all, EligibleIn(db, false));
    var l :| l in db.links && OfReception(db, reception, l) && PositionOf(l) == p;
    assert Eligible(db, l.asset, false);
    EligibleExact(db, l.asset);
    var o :| OnlyLink(db, l.asset, o) && ReceptionOf(db, o) in db.staffed;
    assert o == l;
  }

  /** What a candidate list looks like: the media of the reception first, then those of its damages by damage; of one
      parent by their sort numbers, equal ones by asset. */
  lemma GalleryOrder(db: Database, reception: Id, all: seq<Position>, a: Link, b: Link, i: nat, j: nat)
    requires Lists(db, reception, all) && i < j < |all| && PositionOf(a) == all[i] && PositionOf(b) == all[j]
    requires a in db.links && b in db.links
    ensures b.OnReception? ==> a.OnReception?
    ensures a.OnReception? == b.OnReception? ==> a.parent <= b.parent
    ensures a.OnReception? == b.OnReception? && a.parent == b.parent ==> a.sort <= b.sort
    ensures a.OnReception? == b.OnReception? && a.parent == b.parent && a.sort == b.sort ==> a.asset <= b.asset
  {
    assert Order()(all[i], all[j]);
  }

  lemma {:induction false} FilterDistinct(rows: seq<Position>, eligible: Id -> bool)
    requires OnceEach(rows, eligible)
    ensures forall i, j :: 0 <= i < j < |Filter(rows, eligible)| ==> Filter(rows, eligible)[i].asset != Filter(rows, eligible)[j].asset
  {
    if rows != [] {
      var n := |rows| - 1;
      var before := Filter(rows[..n], eligible);
      FilterDistinct(rows[..n], eligible);
      FilterHolds(rows[..n], eligible);
      forall i | 0 <= i < |before| ensures before[i].asset != rows[n].asset {
        assert before[i] in before;
        var k :| 0 <= k < n && rows[..n][k] == before[i];
      }
    }
  }
}
