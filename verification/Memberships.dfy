/** Role and status administration of the memberships of one tenant (src/memberships/roles-service.ts,
    src/memberships/lifecycle-service.ts, src/memberships/membership-access.ts). First every command as one atomic change,
    then the transactions that carry them out in steps under the owner-set lock. */
module Memberships {
  import opened Prelude

  type Id = nat

  datatype Role = Owner | Admin | ServiceAdvisor | Technician

  datatype Permission = ManageStaff | AssignStaff | AssignAdmin | AssignOwner

  datatype Status = Active | Suspended | Revoked

  datatype Member = Member(status: Status, roles: set<Role>)

  type Members = map<Id, Member>

  datatype Command =
    | Assign(actor: Id, target: Id, role: Role)
    | Remove(actor: Id, target: Id, role: Role)
    | Suspend(actor: Id, target: Id)
    | Revoke(actor: Id, target: Id)

  datatype Outcome =
    | Done | SelfDenied | NotFound | PermissionDenied | AuthorityDenied
    | NotActive | AlreadyAssigned | NotAssigned | LastOwner | InvalidTransition

  /** Rows of audit_logs: denied attempts, and successful changes with what was there before and after. */
  datatype Audit =
    | Denied(command: Command)
    | RolesChanged(command: Command, rolesBefore: set<Role>, rolesAfter: set<Role>)
    | StatusChanged(command: Command, statusBefore: Status, statusAfter: Status)

  datatype Database = Database(members: Members, audit: seq<Audit>)

  // ---------------------------------------------------------------- authority

  /** `ROLE_ASSIGNMENT_PERMISSION`. */
  function AssignmentPermission(r: Role): Permission {
    match r
    case Owner => AssignOwner
    case Admin => AssignAdmin
    case ServiceAdvisor => AssignStaff
    case Technician => AssignStaff
  }

  /** The rows of the permission matrix for these codes. */
  predicate Grants(r: Role, p: Permission) {
    match p
    case ManageStaff => r == Owner || r == Admin
    case AssignStaff => r == Owner || r == Admin
    case AssignAdmin => r == Owner
    case AssignOwner => r == Owner
  }

  predicate Granted(roles: set<Role>, p: Permission) { exists r :: r in roles && Grants(r, p) }

  /** `freshActorPermissions`: what the roles of an active member grant. */
  function Permissions(members: Members, actor: Id): set<Permission> {
    if actor in members && members[actor].status == Active then
      set p | Granted(members[actor].roles, p)
    else {}
  }

  /** `remainingActiveOwners`, before the exclusion. */
  function ActiveOwners(members: Members): set<Id> {
    set id | id in members && members[id].status == Active && Owner in members[id].roles
  }

  predicate RoleCommand(c: Command) { c.Assign? || c.Remove? }

  /** The roles whose assignment permission a command needs. */
  function Concerned(c: Command, held: set<Role>): set<Role> { if RoleCommand(c) then held + {c.role} else held }

  function Required(roles: set<Role>): set<Permission> { set r | r in roles :: AssignmentPermission(r) }

  // ---------------------------------------------------------------- one command

  /** The checks after the locks, in order. */
  function Decide(c: Command, permissions: set<Permission>, target: Member, owners: set<Id>): Outcome {
    if ManageStaff !in permissions then PermissionDenied
    else if !(Required(Concerned(c, target.roles)) <= permissions) then AuthorityDenied
    else
      match c
      case Assign(_, _, role) =>
        if target.status != Active then NotActive else if role in target.roles then AlreadyAssigned else Done
      case Remove(_, id, role) =>
        if target.status != Active then NotActive
        else if role !in target.roles then NotAssigned
        else if role == Owner && owners - {id} == {} then LastOwner
        else Done
      case Suspend(_, _) => if target.status == Active then Done else InvalidTransition
      case Revoke(_, _) => if target.status == Active || target.status == Suspended then Done else InvalidTransition
  }

  function Changed(c: Command, m: Member): Member {
    match c
    case Assign(_, _, role) => m.(roles := m.roles + {role})
    case Remove(_, _, role) => m.(roles := m.roles - {role})
    case Suspend(_, _) => m.(status := Suspended)
    case Revoke(_, _) => m.(status := Revoked)
  }

  function SuccessRow(c: Command, m: Member): Audit {
    if RoleCommand(c) then RolesChanged(c, m.roles, Changed(c, m).roles) else StatusChanged(c, m.status, Changed(c, m).status)
  }

  function OutcomeOf(members: Members, c: Command): Outcome {
    if c.actor == c.target then SelfDenied
    else if c.target !in members then NotFound
    else Decide(c, Permissions(members, c.actor), members[c.target], ActiveOwners(members))
  }

  function MembersAfter(members: Members, c: Command): Members {
    if OutcomeOf(members, c) == Done then members[c.target := Changed(c, members[c.target])] else members
  }

  /** The audit rows a command commits: denials of authority are durable, other errors roll back. */
  function RowsOf(members: Members, c: Command): seq<Audit> {
    match OutcomeOf(members, c)
    case Done => [SuccessRow(c, members[c.target])]
    case SelfDenied => [Denied(c)]
    case AuthorityDenied => [Denied(c)]
    case _ => []
  }

  function Apply(db: Database, c: Command): Database {
    Database(MembersAfter(db.members, c), db.audit + RowsOf(db.members, c))
  }

  /** The rows of one tenant, changed in place by the commands. */
  class Tenant {
    var members: Members
    var audit: seq<Audit>

    ghost function View(): Database
      reads this
    {
      Database(members, audit)
    }

    constructor (initial: Members)
      ensures View() == Database(initial, [])
    {
      members, audit := initial, [];
    }

    method InsertAudit(row: Audit)
      modifies this`audit
      ensures audit == old(audit) + [row]
    {
      audit := audit + [row];
    }

    /** `prepareChange` of a role command: None when the command may go on. */
    method PrepareChange(c: Command) returns (failure: Option<Outcome>)
      requires RoleCommand(c)
      modifies this`audit
      ensures failure.Some? ==> failure.value == OutcomeOf(members, c) != Done && audit == old(audit) + RowsOf(members, c)
      ensures failure.None? ==> audit == old(audit) && c.actor != c.target && c.target in members && members[c.target].status == Active
      ensures failure.None? ==> ManageStaff in Permissions(members, c.actor)
      ensures failure.None? ==> Required(Concerned(c, members[c.target].roles)) <= Permissions(members, c.actor)
    {
      if c.target == c.actor {
        InsertAudit(Denied(c));
        return Some(SelfDenied);
      }
      var permissions := Permissions(members, c.actor);
      if c.target !in members {
        return Some(NotFound);
      }
      var target := members[c.target];
      if ManageStaff !in permissions {
        return Some(PermissionDenied);
      }
      if !(Required(target.roles + {c.role}) <= permissions) {
        InsertAudit(Denied(c));
        return Some(AuthorityDenied);
      }
      failure := if target.status != Active then Some(NotActive) else None;
    }

    method AssignMemberRole(actor: Id, id: Id, role: Role) returns (outcome: Outcome)
      modifies this
      ensures outcome == OutcomeOf(old(members), Assign(actor, id, role)) && View() == Apply(old(View()), Assign(actor, id, role))
    {
      var failure := PrepareChange(Assign(actor, id, role));
      if failure.Some? {
        return failure.value;
      }
      var before := members[id].roles;
      if role in before {
        return AlreadyAssigned;
      }
      members := members[id := members[id].(roles := before + {role})];
      InsertAudit(RolesChanged(Assign(actor, id, role), before, members[id].roles));
      outcome := Done;
    }

    method RemoveMemberRole(actor: Id, id: Id, role: Role) returns (outcome: Outcome)
      modifies this
      ensures outcome == OutcomeOf(old(members), Remove(actor, id, role)) && View() == Apply(old(View()), Remove(actor, id, role))
    {
      var failure := PrepareChange(Remove(actor, id, role));
      if failure.Some? {
        return failure.value;
      }
      var before := members[id].roles;
      if role !in before {
        return NotAssigned;
      }
      if role == Owner && |ActiveOwners(members) - {id}| == 0 {
        return LastOwner;
      }
      members := members[id := members[id].(roles := before - {role})];
      InsertAudit(RolesChanged(Remove(actor, id, role), before, members[id].roles));
      outcome := Done;
    }

    method ChangeMembershipStatus(c: Command) returns (outcome: Outcome)
      requires !RoleCommand(c)
      modifies this
      ensures outcome == OutcomeOf(old(members), c) && View() == Apply(old(View()), c)
    {
      if c.target == c.actor {
        InsertAudit(Denied(c));
        return SelfDenied;
      }
      var permissions := Permissions(members, c.actor);
      if c.target !in members {
        return NotFound;
      }
      var target := members[c.target];
      if ManageStaff !in permissions {
        return PermissionDenied;
      }
      if !(Required(target.roles) <= permissions) {
        InsertAudit(Denied(c));
        return AuthorityDenied;
      }
      var from, to := if c.Suspend? then {Active} else {Active, Suspended}, if c.Suspend? then Suspended else Revoked;
      if target.status !in from {
        return InvalidTransition;
      }
      members := members[c.target := target.(status := to)];
      InsertAudit(StatusChanged(c, target.status, to));
      outcome := Done;
    }
  }

  // ---------------------------------------------------------------- who may do what

  predicate ActiveWith(members: Members, id: Id, r: Role) { id in members && members[id].status == Active && r in members[id].roles }

  predicate Staff(r: Role) { r == ServiceAdvisor || r == Technician }

  /** An active owner passes every authority check; an active admin one about staff roles only; nobody else any. */
  lemma AuthorityExact(members: Members, actor: Id, roles: set<Role>)
    ensures ManageStaff in Permissions(members, actor) && Required(roles) <= Permissions(members, actor) <==>
            ActiveWith(members, actor, Owner) || (ActiveWith(members, actor, Admin) && forall r :: r in roles ==> Staff(r))
  {
    var permissions := Permissions(members, actor);
    if ManageStaff in permissions && Required(roles) <= permissions && !ActiveWith(members, actor, Owner) {
      forall r | r in roles ensures Staff(r) {
        assert AssignmentPermission(r) in Required(roles);
      }
    }
    if ActiveWith(members, actor, Owner) {
      assert Owner in members[actor].roles;
    }
    if ActiveWith(members, actor, Admin) {
      assert Admin in members[actor].roles;
    }
  }

  /** Exactly which commands take effect, in terms of roles instead of permissions. */
  lemma DoneExact(members: Members, c: Command)
    ensures OutcomeOf(members, c) == Done <==>
            && c.actor != c.target && c.target in members
            && var m := members[c.target];
               && (ActiveWith(members, c.actor, Owner) ||
                   (ActiveWith(members, c.actor, Admin) && forall r :: r in Concerned(c, m.roles) ==> Staff(r)))
               && match c
                  case Assign(_, _, role) => m.status == Active && role !in m.roles
                  case Remove(_, _, role) => m.status == Active && role in m.roles
                  case Suspend(_, _) => m.status == Active
                  case Revoke(_, _) => m.status != Revoked
  {
    if c.actor != c.target && c.target in members {
      AuthorityExact(members, c.actor, Concerned(c, members[c.target].roles));
      NeverLastOwner(members, c);
    }
  }

  /** Why a command is refused, in terms of roles: who is neither an active owner nor an active admin may do nothing; an admin
      has no authority over an owner or admin, nor over these roles; only then the state of the target counts. */
  lemma RefusalExact(members: Members, c: Command)
    ensures var outcome := OutcomeOf(members, c);
            && (outcome == SelfDenied <==> c.actor == c.target)
            && (outcome == NotFound <==> c.actor != c.target && c.target !in members)
            && (c.actor != c.target && c.target in members ==>
                 var m, owner, admin := members[c.target], ActiveWith(members, c.actor, Owner), ActiveWith(members, c.actor, Admin);
                 var authority := owner || (admin && forall r :: r in Concerned(c, m.roles) ==> Staff(r));
                 && (outcome == PermissionDenied <==> !owner && !admin)
                 && (outcome == AuthorityDenied <==> admin && !authority)
                 && (outcome == NotActive <==> authority && RoleCommand(c) && m.status != Active)
                 && (outcome == AlreadyAssigned <==> authority && c.Assign? && m.status == Active && c.role in m.roles)
                 && (outcome == NotAssigned <==> authority && c.Remove? && m.status == Active && c.role !in m.roles)
                 && (outcome == InvalidTransition <==>
                      authority && ((c.Suspend? && m.status != Active) || (c.Revoke? && m.status == Revoked))))
  {
    if c.actor != c.target && c.target in members {
      AuthorityExact(members, c.actor, Concerned(c, members[c.target].roles));
      AuthorityExact(members, c.actor, {});
      NeverLastOwner(members, c);
    }
  }

  /** Whether a member holds a role, and the status of a member, after a command that took effect. */
  predicate HoldsAfter(members: Members, c: Command, id: Id, r: Role)
    requires id in members
  {
    if RoleCommand(c) && c.target == id && c.role == r then c.Assign? else r in members[id].roles
  }

  function StatusAfter(members: Members, c: Command, id: Id): Status
    requires id in members
  {
    if id != c.target || RoleCommand(c) then members[id].status else if c.Suspend? then Suspended else Revoked
  }

  /** What a command does, member by member and role by role: what it asks for when it takes effect, and nothing else. One
      audit row is written for it, none or a denial otherwise. */
  lemma EffectExact(db: Database, c: Command)
    ensures var after, done := Apply(db, c), OutcomeOf(db.members, c) == Done;
            && after.members.Keys == db.members.Keys
            && (forall id, r :: id in db.members ==>
                  (r in after.members[id].roles <==> if done then HoldsAfter(db.members, c, id, r) else r in db.members[id].roles))
            && (forall id :: id in db.members ==>
                  after.members[id].status == if done then StatusAfter(db.members, c, id) else db.members[id].status)
            && (done ==> |after.audit| == |db.audit| + 1 && !after.audit[|db.audit|].Denied?)
            && (OutcomeOf(db.members, c) in {SelfDenied, AuthorityDenied} <==> after.audit == db.audit + [Denied(c)])
  {
    DoneExact(db.members, c);
    assert db.audit + [] == db.audit;
    assert |db.audit + [Denied(c)]| == |db.audit| + 1;
  }

  /** Only an active owner may touch a membership that holds owner, or grant it; that owner is not the target. */
  lemma OwnerStays(members: Members, c: Command)
    requires c.actor != c.target && c.target in members && Owner in Concerned(c, members[c.target].roles)
    requires Required(Concerned(c, members[c.target].roles)) <= Permissions(members, c.actor)
    ensures c.actor in ActiveOwners(members) - {c.target}
  {
    assert AssignmentPermission(Owner) in Required(Concerned(c, members[c.target].roles));
  }

  /** The last-owner refusal is never reached: who got that far is an active owner and another member. */
  lemma NeverLastOwner(members: Members, c: Command)
    ensures OutcomeOf(members, c) != LastOwner
  {
    if OutcomeOf(members, c) == LastOwner {
      OwnerStays(members, c);
    }
  }

  // ---------------------------------------------------------------- runs of commands

  function After(db: Database, run: seq<Command>): Database {
    if run == [] then db else Apply(After(db, run[..|run| - 1]), run[|run| - 1])
  }

  /** One command keeps an active owner. */
  lemma StepKeepsOwner(db: Database, c: Command)
    requires ActiveOwners(db.members) != {}
    ensures ActiveOwners(Apply(db, c).members) != {}
  {
    if OutcomeOf(db.members, c) == Done && Owner in Concerned(c, db.members[c.target].roles) {
      OwnerStays(db.members, c);
      assert c.actor in ActiveOwners(Apply(db, c).members);
    } else {
      var id :| id in ActiveOwners(db.members);
      assert id in ActiveOwners(Apply(db, c).members);
    }
  }

  /** Whatever commands are given, an active owner remains; no trigger is needed for it. */
  lemma {:induction false} OwnerRemains(db: Database, run: seq<Command>)
    requires ActiveOwners(db.members) != {}
    ensures ActiveOwners(After(db, run).members) != {}
  {
    if run != [] {
      OwnerRemains(db, run[..|run| - 1]);
      StepKeepsOwner(After(db, run[..|run| - 1]), run[|run| - 1]);
    }
  }

  predicate Senior(r: Role) { r == Owner || r == Admin }

  /** None of these members holds the owner role. */
  ghost predicate NoOwners(members: Members, actors: iset<Id>) {
    forall id :: id in members && id in actors ==> Owner !in members[id].roles
  }

  /** The same members; the same holders of owner and admin; their status unchanged. */
  ghost predicate SameSeniors(a: Members, b: Members) {
    && a.Keys == b.Keys
    && (forall id, r :: id in a && Senior(r) ==> (r in a[id].roles <==> r in b[id].roles))
    && (forall id :: id in a && (Owner in a[id].roles || Admin in a[id].roles) ==> a[id].status == b[id].status)
  }

  lemma StepKeepsSeniors(db: Database, c: Command)
    requires c.actor in db.members ==> Owner !in db.members[c.actor].roles
    ensures SameSeniors(db.members, Apply(db, c).members)
  {
    DoneExact(db.members, c);
    if OutcomeOf(db.members, c) == Done {
      var m := db.members[c.target];
      assert forall r :: r in m.roles ==> Staff(r);
      assert RoleCommand(c) ==> Staff(c.role);
    }
  }

  lemma SeniorsChain(a: Members, b: Members, c: Members, actors: iset<Id>)
    requires SameSeniors(a, b) && SameSeniors(b, c) && NoOwners(b, actors)
    ensures SameSeniors(a, c) && NoOwners(c, actors)
  {
    forall id | id in a
      ensures (Owner in a[id].roles <==> Owner in c[id].roles) && (Admin in a[id].roles <==> Admin in c[id].roles)
      ensures Owner in a[id].roles || Admin in a[id].roles ==> a[id].status == c[id].status
    {
      assert Senior(Owner) && Senior(Admin);
    }
    assert Senior(Owner);
  }

  /** Commands of members without the owner role, however many and in whatever order, leave every holding of owner and
      admin and the status of those who hold them as they were; so none of the members can become an owner that way. */
  lemma {:induction false} AuthorityClosed(db: Database, run: seq<Command>, actors: iset<Id>)
    requires NoOwners(db.members, actors) && forall i :: 0 <= i < |run| ==> run[i].actor in actors
    ensures SameSeniors(db.members, After(db, run).members) && NoOwners(After(db, run).members, actors)
  {
    if run != [] {
      var n := |run| - 1;
      assert forall i :: 0 <= i < n ==> run[..n][i] == run[i];
      AuthorityClosed(db, run[..n], actors);
      var before := After(db, run[..n]);
      assert run[n].actor in actors;
      StepKeepsSeniors(before, run[n]);
      SeniorsChain(db.members, before.members, After(db, run).members, actors);
    }
  }

  /** Transitions only go forward, members never disappear, and revocation is final. */
  predicate Advanced(a: Status, b: Status) { a == b || a == Active || (a == Suspended && b == Revoked) }

  lemma {:induction false} StatusAdvances(db: Database, run: seq<Command>, id: Id)
    requires id in db.members
    ensures id in After(db, run).members && Advanced(db.members[id].status, After(db, run).members[id].status)
    ensures db.members[id].status != Active ==> After(db, run).members[id].roles == db.members[id].roles
  {
    if run != [] {
      StatusAdvances(db, run[..|run| - 1], id);
    }
  }

  // ---------------------------------------------------------------- the audit trail

  /** Applies one row to the members; None when what it says was there before was not. */
  function Replay1(members: Members, row: Audit): Option<Members> {
    match row
    case Denied(_) => Some(members)
    case RolesChanged(c, before, after) =>
      if c.target in members && members[c.target].roles == before then Some(members[c.target := members[c.target].(roles := after)])
      else None
    case StatusChanged(c, before, after) =>
      if c.target in members && members[c.target].status == before then Some(members[c.target := members[c.target].(status := after)])
      else None
  }

  function Replay(members: Members, rows: seq<Audit>): Option<Members> {
    if rows == [] then Some(members)
    else
      var m := Replay(members, rows[..|rows| - 1]);
      if m.None? then None else Replay1(m.value, rows[|rows| - 1])
  }

  /** The rows a command commits turn the members before it into the members after it. */
  lemma RowsReplay(members: Members, earlier: Members, rows: seq<Audit>, c: Command)
    requires Replay(earlier, rows) == Some(members)
    ensures Replay(earlier, rows + RowsOf(members, c)) == Some(MembersAfter(members, c))
  {
    var added := RowsOf(members, c);
    if added == [] {
      assert rows + added == rows;
    } else {
      assert (rows + added)[..|rows + added| - 1] == rows;
    }
  }

  /** The audit trail is a complete account: replayed over the first members it gives the last ones. */
  lemma {:induction false} AuditReplays(db: Database, run: seq<Command>)
    requires db.audit == []
    ensures Replay(db.members, After(db, run).audit) == Some(After(db, run).members)
  {
    if run != [] {
      var before := After(db, run[..|run| - 1]);
      AuditReplays(db, run[..|run| - 1]);
      RowsReplay(before.members, db.members, before.audit, run[|run| - 1]);
    }
  }
}
