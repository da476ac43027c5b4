/** The security catalog as a value: users, roles, the operations on them, and the decision they give. */
module CatalogState {
  import opened Bytes
  import opened Wrappers
  import opened Rbac

  datatype User = User(
    name: string,
    roles: set<string>,
    passwordHash: Option<string>,
    credentialVersion: u64,
    suspended: bool)

  datatype Role = Role(name: string, privileges: set<Privilege>, denied: set<Privilege>)

  datatype State = State(users: map<string, User>, roles: map<string, Role>)

  datatype AuthError = AlreadyExists | NotFound

  datatype Op =
    | CreateUser(name: string)
    | DropUser(name: string)
    | RenameUser(from: string, to: string)
    | CreateRole(name: string)
    | DropRole(name: string)
    | RenameRole(from: string, to: string)
    | GrantRole(user: string, role: string)
    | RevokeRole(user: string, role: string)
    | GrantPrivilege(role: string, privilege: Privilege)
    | RevokePrivilege(role: string, privilege: Privilege)
    | DenyPrivilege(role: string, privilege: Privilege)
    | RevokeDenied(role: string, privilege: Privilege)

  const EMPTY := State(map[], map[])

  // ---- The operations --------------------------------------------------------------------------

  /** Why an operation is refused, if it is. A taken name is reported before a missing one. */
  function Refusal(s: State, op: Op): Option<AuthError> {
    match op
    case CreateUser(name) => if name in s.users then Some(AlreadyExists) else None
    case DropUser(name) => if name in s.users then None else Some(NotFound)
    case RenameUser(from, to) =>
      if from != to && to in s.users then Some(AlreadyExists)
      else if from in s.users then None else Some(NotFound)
    case CreateRole(name) => if name in s.roles then Some(AlreadyExists) else None
    case DropRole(name) => if name in s.roles then None else Some(NotFound)
    case RenameRole(from, to) =>
      if from != to && to in s.roles then Some(AlreadyExists)
      else if from in s.roles then None else Some(NotFound)
    case GrantRole(user, role) => if role in s.roles && user in s.users then None else Some(NotFound)
    case RevokeRole(user, _) => if user in s.users then None else Some(NotFound)
    case GrantPrivilege(role, _) => if role in s.roles then None else Some(NotFound)
    case RevokePrivilege(role, _) => if role in s.roles then None else Some(NotFound)
    case DenyPrivilege(role, _) => if role in s.roles then None else Some(NotFound)
    case RevokeDenied(role, _) => if role in s.roles then None else Some(NotFound)
  }

  /** A user's memberships once a role has gone, or goes by another name. */
  function WithoutRole(u: User, role: string): User {
    u.(roles := u.roles - {role})
  }

  function Renamed(u: User, from: string, to: string): User {
    if from in u.roles then u.(roles := u.roles - {from} + {to}) else u
  }

  function WithUserRoles(s: State, user: string, roles: set<string>): State
    requires user in s.users
  {
    s.(users := s.users[user := s.users[user].(roles := roles)])
  }

  /** The state after an operation that is not refused. */
  function Effect(s: State, op: Op): State
    requires Refusal(s, op) == None
  {
    match op
    case CreateUser(name) => s.(users := s.users[name := User(name, {}, None, 0, false)])
    case DropUser(name) => s.(users := s.users - {name})
    case RenameUser(from, to) =>
      if from == to then s
      else s.(users := (s.users - {from})[to := s.users[from].(name := to)])
    case CreateRole(name) => s.(roles := s.roles[name := Role(name, {}, {})])
    case DropRole(name) =>
      State(map u | u in s.users :: WithoutRole(s.users[u], name), s.roles - {name})
    case RenameRole(from, to) =>
      if from == to then s
      else State(map u | u in s.users :: Renamed(s.users[u], from, to),
                 (s.roles - {from})[to := s.roles[from].(name := to)])
    case GrantRole(user, role) => WithUserRoles(s, user, s.users[user].roles + {role})
    case RevokeRole(user, role) => WithUserRoles(s, user, s.users[user].roles - {role})
    case GrantPrivilege(role, p) =>
      var r := s.roles[role];
      s.(roles := s.roles[role := r.(privileges := r.privileges + {p})])
    case RevokePrivilege(role, p) =>
      var r := s.roles[role];
      s.(roles := s.roles[role := r.(privileges := r.privileges - {p})])
    case DenyPrivilege(role, p) =>
      var r := s.roles[role];
      s.(roles := s.roles[role := r.(denied := r.denied + {p})])
    case RevokeDenied(role, p) =>
      var r := s.roles[role];
      s.(roles := s.roles[role := r.(denied := r.denied - {p})])
  }

  function Apply(s: State, op: Op): State {
    if Refusal(s, op) == None then Effect(s, op) else s
  }

  function Run(s: State, ops: seq<Op>): State {
    if ops == [] then s else Apply(Run(s, ops[..|ops| - 1]), ops[|ops| - 1])
  }

  // ---- The decision ----------------------------------------------------------------------------

  /** The user's roles as the catalog resolves them; a name without a role is passed over. */
  function ResolvedRoles(s: State, user: string): set<Role>
    requires user in s.users
  {
    set r | r in s.users[user].roles && r in s.roles :: s.roles[r]
  }

  /** The global administrator is exempt; otherwise a deny that blocks wins over any grant. */
  predicate Authorize(s: State, user: string, wanted: Privilege) {
    if user !in s.users then false
    else
      var roles := ResolvedRoles(s, user);
      if exists r | r in roles :: exists p | p in r.privileges :: IsGlobalAdmin(p) then true
      else if exists r | r in roles :: exists d | d in r.denied :: Blocks(d, wanted) then false
      else exists r | r in roles :: exists g | g in r.privileges :: Implies(g, wanted)
  }

  function EffectivePrivileges(s: State, user: string): set<Privilege> {
    if user !in s.users then {}
    else set r, p | r in s.users[user].roles && r in s.roles && p in s.roles[r].privileges :: p
  }

  function EffectiveDenies(s: State, user: string): set<Privilege> {
    if user !in s.users then {}
    else set r, p | r in s.users[user].roles && r in s.roles && p in s.roles[r].denied :: p
  }

  predicate GlobalAdmin(s: State, user: string) {
    Privilege(Admin, Database) in EffectivePrivileges(s, user)
  }

  /** Whether a snapshot of grants and denies, taken once, allows a request. */
  predicate SnapshotAllows(granted: set<Privilege>, denied: set<Privilege>, wanted: Privilege) {
    (exists g | g in granted :: Implies(g, wanted)) && !exists d | d in denied :: Blocks(d, wanted)
  }

  // ---- What every run keeps --------------------------------------------------------------------

  /** Users reference only existing roles, and everything is filed under its own name. */
  ghost predicate Integrity(s: State) {
    && (forall u | u in s.users :: s.users[u].name == u && s.users[u].roles <= s.roles.Keys)
    && (forall r | r in s.roles :: s.roles[r].name == r)
  }

  lemma StepKeepsIntegrity(s: State, op: Op)
    requires Integrity(s)
    ensures Integrity(Apply(s, op))
  {
  }

  lemma {:induction false} EveryRunKeepsIntegrity(ops: seq<Op>)
    ensures Integrity(Run(EMPTY, ops))
  {
    if ops != [] {
      EveryRunKeepsIntegrity(ops[..|ops| - 1]);
      StepKeepsIntegrity(Run(EMPTY, ops[..|ops| - 1]), ops[|ops| - 1]);
    }
  }

  // ---- The decision through snapshots ----------------------------------------------------------

  /**
   The two snapshots reproduce the decision for everyone but a global administrator, and a global
   administrator may do anything.
   */
  lemma SnapshotsDecide(s: State, user: string, wanted: Privilege)
    ensures GlobalAdmin(s, user) ==> Authorize(s, user, wanted)
    ensures !GlobalAdmin(s, user) ==>
              (Authorize(s, user, wanted)
               <==> SnapshotAllows(EffectivePrivileges(s, user), EffectiveDenies(s, user), wanted))
  {
  }

  /** Equal snapshots, equal decisions, even across catalogs and names. */
  lemma SameSnapshotsSameDecision(s: State, u: string, t: State, v: string, wanted: Privilege)
    requires EffectivePrivileges(s, u) == EffectivePrivileges(t, v)
    requires EffectiveDenies(s, u) == EffectiveDenies(t, v)
    ensures Authorize(s, u, wanted) <==> Authorize(t, v, wanted)
  {
    hide Authorize, EffectivePrivileges, EffectiveDenies, SnapshotAllows;
    SnapshotsDecide(s, u, wanted);
    SnapshotsDecide(t, v, wanted);
  }

  // ---- Renaming --------------------------------------------------------------------------------

  /** One role under its new name: held by the same users, with the same contents. */
  lemma RoleFollows(s: State, from: string, to: string, user: string, r: string)
    requires Integrity(s) && from in s.roles && to !in s.roles
    requires user in s.users && r in s.users[user].roles
    ensures var t := Effect(s, RenameRole(from, to));
            var q := if r == from then to else r;
            && q in t.users[user].roles && q in t.roles
            && t.roles[q].privileges == s.roles[r].privileges && t.roles[q].denied == s.roles[r].denied
  {
  }

  lemma RoleCameFrom(s: State, from: string, to: string, user: string, q: string)
    requires Integrity(s) && from in s.roles && to !in s.roles
    requires user in s.users && q in Effect(s, RenameRole(from, to)).users[user].roles
    ensures var t := Effect(s, RenameRole(from, to));
            var r := if q == to then from else q;
            && r in s.users[user].roles && q in t.roles
            && t.roles[q].privileges == s.roles[r].privileges && t.roles[q].denied == s.roles[r].denied
  {
  }

  lemma RenamedRoleSnapshots(s: State, from: string, to: string, user: string)
    requires Integrity(s) && from in s.roles && to !in s.roles
    ensures var t := Effect(s, RenameRole(from, to));
            && EffectivePrivileges(s, user) == EffectivePrivileges(t, user)
            && EffectiveDenies(s, user) == EffectiveDenies(t, user)
  {
    var t := Effect(s, RenameRole(from, to));
    if user in s.users {
      forall r | r in s.users[user].roles { RoleFollows(s, from, to, user, r); }
      forall q | q in t.users[user].roles { RoleCameFrom(s, from, to, user, q); }
      hide Effect;
      assert user in t.users;
      assert EffectivePrivileges(s, user) == EffectivePrivileges(t, user);
      assert EffectiveDenies(s, user) == EffectiveDenies(t, user);
    }
  }

  /** Renaming a role changes no decision for anyone, in any catalog a run can reach. */
  lemma RenameRoleKeepsDecisions(ops: seq<Op>, from: string, to: string, user: string, wanted: Privilege)
    ensures var s := Run(EMPTY, ops);
            Authorize(s, user, wanted) <==> Authorize(Apply(s, RenameRole(from, to)), user, wanted)
  {
    var s := Run(EMPTY, ops);
    EveryRunKeepsIntegrity(ops);
    if from in s.roles && to !in s.roles {
      RenamedRoleSnapshots(s, from, to, user);
      SameSnapshotsSameDecision(s, user, Effect(s, RenameRole(from, to)), user, wanted);
    }
  }

  /** The user someone's name stood for before `from` became `to`; nobody answers to `from` any more. */
  function Before(from: string, to: string, user: string): string {
    if user == to then from else user
  }

  /** Renaming a user carries every decision to the new name and leaves everyone else's alone. */
  lemma RenameUserCarriesDecisions(s: State, from: string, to: string, user: string, wanted: Privilege)
    requires from in s.users && to !in s.users
    ensures var t := Apply(s, RenameUser(from, to));
            && (user != from ==> (Authorize(t, user, wanted) <==> Authorize(s, Before(from, to, user), wanted)))
            && !Authorize(t, from, wanted)
  {
  }

  // ---- Order and precedence --------------------------------------------------------------------

  /** At a fixed resource a decision extends to every weaker action, denies notwithstanding. */
  lemma ClosedDownwardInAction(s: State, user: string, strong: Action, weak: Action, r: Resource)
    requires Authorize(s, user, Privilege(strong, r)) && ActionImplies(strong, weak)
    ensures Authorize(s, user, Privilege(weak, r))
  {
  }

  /** Towards a narrower resource the same holds exactly where no deny blocks the narrower request. */
  lemma NarrowerResourceUnlessDenied(s: State, user: string, a: Action, wide: Resource, narrow: Resource)
    requires Authorize(s, user, Privilege(a, wide)) && Covers(wide, narrow)
    ensures Authorize(s, user, Privilege(a, narrow)) <==>
              (GlobalAdmin(s, user)
               || forall d | d in EffectiveDenies(s, user) :: !Blocks(d, Privilege(a, narrow)))
  {
  }

  /** And the condition is needed: read a whole graph, but not one label of it. */
  lemma NarrowerResourceCanBeDenied()
    ensures var ops := [CreateUser("u"), CreateRole("r"), GrantRole("u", "r"),
                        GrantPrivilege("r", Privilege(Read, Graph("g"))),
                        DenyPrivilege("r", Privilege(Read, NodeLabel("g", "n")))];
            var s := Run(EMPTY, ops);
            && Authorize(s, "u", Privilege(Read, Graph("g")))
            && Covers(Graph("g"), NodeLabel("g", "n"))
            && !Authorize(s, "u", Privilege(Read, NodeLabel("g", "n")))
  {
    var granted, denied := Privilege(Read, Graph("g")), Privilege(Read, NodeLabel("g", "n"));
    var role := Role("r", {granted}, {denied});
    var s := State(map["u" := User("u", {"r"}, None, 0, false)], map["r" := role]);
    assert ResolvedRoles(s, "u") == {role};
    RunOfFive(granted, denied);
  }

  lemma RunOfFive(granted: Privilege, denied: Privilege)
    ensures Run(EMPTY, [CreateUser("u"), CreateRole("r"), GrantRole("u", "r"),
                        GrantPrivilege("r", granted), DenyPrivilege("r", denied)])
         == State(map["u" := User("u", {"r"}, None, 0, false)], map["r" := Role("r", {granted}, {denied})])
  {
    hide Run;
    var a, b, c := CreateUser("u"), CreateRole("r"), GrantRole("u", "r");
    var d, e := GrantPrivilege("r", granted), DenyPrivilege("r", denied);
    var user, role := User("u", {}, None, 0, false), Role("r", {}, {});
    assert Run(EMPTY, []) == EMPTY by { EmptyRun(EMPTY); }
    RunSnoc(EMPTY, [], a);
    assert [] + [a] == [a] && [a] + [b] == [a, b] && [a, b] + [c] == [a, b, c];
    assert [a, b, c] + [d] == [a, b, c, d] && [a, b, c, d] + [e] == [a, b, c, d, e];
    assert Run(EMPTY, [a]) == State(map["u" := user], map[]);
    RunSnoc(EMPTY, [a], b);
    assert Run(EMPTY, [a, b]) == State(map["u" := user], map["r" := role]);
    RunSnoc(EMPTY, [a, b], c);
    var member := user.(roles := {} + {"r"});
    assert {} + {"r"} == {"r"} && {} + {granted} == {granted} && {} + {denied} == {denied};
    assert Run(EMPTY, [a, b, c]) == State(map["u" := member], map["r" := role]);
    RunSnoc(EMPTY, [a, b, c], d);
    assert Run(EMPTY, [a, b, c, d]) == State(map["u" := member], map["r" := role.(privileges := {granted})]);
    RunSnoc(EMPTY, [a, b, c, d], e);
  }

  lemma EmptyRun(s: State)
    ensures Run(s, []) == s
  {
  }

  lemma RunSnoc(s: State, ops: seq<Op>, op: Op)
    ensures Run(s, ops + [op]) == Apply(Run(s, ops), op)
  {
  }

  /** Granting and un-denying only ever widen what a user may do; denying and un-granting only narrow it. */
  predicate Widens(op: Op) {
    op.GrantPrivilege? || op.RevokeDenied?
  }

  predicate Narrows(op: Op) {
    op.DenyPrivilege? || op.RevokePrivilege?
  }

  lemma MoreGrantsFewerDenies(s: State, t: State, user: string, wanted: Privilege)
    requires EffectivePrivileges(s, user) <= EffectivePrivileges(t, user)
    requires EffectiveDenies(t, user) <= EffectiveDenies(s, user)
    requires Authorize(s, user, wanted)
    ensures Authorize(t, user, wanted)
  {
    hide Authorize, EffectivePrivileges, EffectiveDenies, Implies, Blocks;
    SnapshotsDecide(s, user, wanted);
    SnapshotsDecide(t, user, wanted);
  }

  lemma GrantsGrow(s: State, t: State, user: string)
    requires s.users == t.users && s.roles.Keys == t.roles.Keys
    requires forall r | r in s.roles :: s.roles[r].privileges <= t.roles[r].privileges
    ensures EffectivePrivileges(s, user) <= EffectivePrivileges(t, user)
  {
  }

  lemma DeniesGrow(s: State, t: State, user: string)
    requires s.users == t.users && s.roles.Keys == t.roles.Keys
    requires forall r | r in s.roles :: s.roles[r].denied <= t.roles[r].denied
    ensures EffectiveDenies(s, user) <= EffectiveDenies(t, user)
  {
  }

  lemma PrivilegeEditsAreMonotone(s: State, op: Op, user: string, wanted: Privilege)
    ensures Widens(op) && Authorize(s, user, wanted) ==> Authorize(Apply(s, op), user, wanted)
    ensures Narrows(op) && Authorize(Apply(s, op), user, wanted) ==> Authorize(s, user, wanted)
  {
    var t := Apply(s, op);
    if Widens(op) && Authorize(s, user, wanted) {
      GrantsGrow(s, t, user);
      DeniesGrow(t, s, user);
      MoreGrantsFewerDenies(s, t, user, wanted);
    }
    if Narrows(op) && Authorize(t, user, wanted) {
      GrantsGrow(t, s, user);
      DeniesGrow(s, t, user);
      MoreGrantsFewerDenies(t, s, user, wanted);
    }
  }

  /** No sequence of denies, whatever their scope, takes anything from a global administrator. */
  lemma {:induction false} AdminsCannotBeDenied(s: State, ops: seq<Op>, user: string, wanted: Privilege)
    requires GlobalAdmin(s, user) && forall op | op in ops :: op.DenyPrivilege?
    ensures GlobalAdmin(Run(s, ops), user) && Authorize(Run(s, ops), user, wanted)
  {
    if ops != [] {
      AdminsCannotBeDenied(s, ops[..|ops| - 1], user, wanted);
      assert ops[|ops| - 1].DenyPrivilege?;
      GrantsGrow(Run(s, ops[..|ops| - 1]), Run(s, ops), user);
    }
    SnapshotsDecide(Run(s, ops), user, wanted);
  }

  // ---- What each operation brings --------------------------------------------------------------

  /** A role brings its members all of its grants and denies, and takes them along when it goes. */
  lemma MembershipBringsAll(s: State, user: string, role: string)
    requires user in s.users && role in s.roles
    ensures var t := Apply(s, GrantRole(user, role));
            && EffectivePrivileges(t, user) == EffectivePrivileges(s, user) + s.roles[role].privileges
            && EffectiveDenies(t, user) == EffectiveDenies(s, user) + s.roles[role].denied
    ensures role in s.users[user].roles ==>
              var t := Apply(s, RevokeRole(user, role));
              && role !in t.users[user].roles
              && EffectivePrivileges(s, user) == EffectivePrivileges(t, user) + s.roles[role].privileges
              && EffectiveDenies(s, user) == EffectiveDenies(t, user) + s.roles[role].denied
  {
  }

  /** A grant to a role reaches every member no deny stands against. */
  lemma GrantReachesMembers(s: State, role: string, p: Privilege, user: string, wanted: Privilege)
    requires user in s.users && role in s.users[user].roles && role in s.roles && Implies(p, wanted)
    requires forall d | d in EffectiveDenies(s, user) :: !Blocks(d, wanted)
    ensures Authorize(Apply(s, GrantPrivilege(role, p)), user, wanted)
  {
    var t := Apply(s, GrantPrivilege(role, p));
    assert p in t.roles[role].privileges && p in EffectivePrivileges(t, user);
    DeniesGrow(t, s, user);
    SnapshotsDecide(t, user, wanted);
  }

  /** A deny to a role stops every member but a global administrator, whatever they are granted. */
  lemma DenyStopsMembers(s: State, role: string, p: Privilege, user: string, wanted: Privilege)
    requires user in s.users && role in s.users[user].roles && role in s.roles && Blocks(p, wanted)
    requires !GlobalAdmin(s, user)
    ensures !Authorize(Apply(s, DenyPrivilege(role, p)), user, wanted)
  {
    var t := Apply(s, DenyPrivilege(role, p));
    assert p in t.roles[role].denied && p in EffectiveDenies(t, user);
    GrantsGrow(t, s, user);
    SnapshotsDecide(t, user, wanted);
  }

  /** The operation that takes another one back; a drop has none, for it forgets what it dropped. */
  function Undo(op: Op): Op
    requires !op.DropUser? && !op.DropRole?
  {
    match op
    case CreateUser(name) => DropUser(name)
    case RenameUser(from, to) => RenameUser(to, from)
    case CreateRole(name) => DropRole(name)
    case RenameRole(from, to) => RenameRole(to, from)
    case GrantRole(user, role) => RevokeRole(user, role)
    case RevokeRole(user, role) => GrantRole(user, role)
    case GrantPrivilege(role, p) => RevokePrivilege(role, p)
    case RevokePrivilege(role, p) => GrantPrivilege(role, p)
    case DenyPrivilege(role, p) => RevokeDenied(role, p)
    case RevokeDenied(role, p) => DenyPrivilege(role, p)
  }

  lemma AddAndRemove<T>(a: set<T>, x: T)
    ensures x !in a ==> a + {x} - {x} == a && a - {x} == a
    ensures x in a ==> a - {x} + {x} == a && a + {x} == a
  {
  }

  /** Whatever an operation changed, its opposite restores to the letter. */
  lemma UndoRestores(s: State, op: Op)
    requires Integrity(s) && !op.DropUser? && !op.DropRole? && Apply(s, op) != s
    ensures Apply(Apply(s, op), Undo(op)) == s
  {
    hide Effect, Integrity;
    match op
    case CreateUser(_) => UserUndone(s, op);
    case RenameUser(_, _) => UserUndone(s, op);
    case CreateRole(name) => CreatedRoleDropped(s, name);
    case RenameRole(from, to) =>
      SelfRename(s, from);
      RoleRenamedBack(s, from, to);
    case GrantRole(_, _) => UserUndone(s, op);
    case RevokeRole(_, _) => UserUndone(s, op);
    case _ => RoleUndone(s, op);
  }

  lemma SelfRename(s: State, name: string)
    ensures Apply(s, RenameRole(name, name)) == s
  {
  }

  /** Edits of one user's record. */
  lemma UserUndone(s: State, op: Op)
    requires Integrity(s) && Apply(s, op) != s
    requires op.CreateUser? || op.RenameUser? || op.GrantRole? || op.RevokeRole?
    ensures Apply(Apply(s, op), Undo(op)) == s
  {
    match op
    case GrantRole(user, role) => AddAndRemove(s.users[user].roles, role);
    case RevokeRole(user, role) => AddAndRemove(s.users[user].roles, role);
    case _ =>
  }

  /** Edits of one role's privileges. */
  lemma RoleUndone(s: State, op: Op)
    requires Apply(s, op) != s
    requires op.GrantPrivilege? || op.RevokePrivilege? || op.DenyPrivilege? || op.RevokeDenied?
    ensures Apply(Apply(s, op), Undo(op)) == s
  {
    AddAndRemove(s.roles[op.role].privileges, op.privilege);
    AddAndRemove(s.roles[op.role].denied, op.privilege);
  }

  lemma CreatedRoleDropped(s: State, name: string)
    requires Integrity(s) && name !in s.roles
    ensures Apply(Apply(s, CreateRole(name)), DropRole(name)) == s
  {
    forall u | u in s.users ensures WithoutRole(s.users[u], name) == s.users[u] {
      AddAndRemove(s.users[u].roles, name);
    }
    var t := Apply(Apply(s, CreateRole(name)), DropRole(name));
    assert t.users == s.users && t.roles == s.roles;
  }

  lemma RoleRenamedBack(s: State, from: string, to: string)
    requires Integrity(s) && from in s.roles && to !in s.roles
    ensures Apply(Apply(s, RenameRole(from, to)), RenameRole(to, from)) == s
  {
    forall u | u in s.users ensures Renamed(Renamed(s.users[u], from, to), to, from) == s.users[u] {
      var held := s.users[u].roles;
      AddAndRemove(held, from);
      AddAndRemove(held - {from}, to);
    }
    var t := Apply(Apply(s, RenameRole(from, to)), RenameRole(to, from));
    assert t.users == s.users && t.roles == s.roles;
  }

  // ---- Deny by default -------------------------------------------------------------------------

  lemma {:induction false} RolesStayBare(ops: seq<Op>)
    requires forall op | op in ops :: !op.GrantPrivilege?
    ensures forall r | r in Run(EMPTY, ops).roles :: Run(EMPTY, ops).roles[r].privileges == {}
  {
    if ops != [] {
      RolesStayBare(ops[..|ops| - 1]);
      assert !ops[|ops| - 1].GrantPrivilege?;
    }
  }

  lemma {:induction false} UsersStayRoleless(ops: seq<Op>)
    requires forall op | op in ops :: !op.GrantRole?
    ensures forall u | u in Run(EMPTY, ops).users :: Run(EMPTY, ops).users[u].roles == {}
  {
    if ops != [] {
      UsersStayRoleless(ops[..|ops| - 1]);
      assert !ops[|ops| - 1].GrantRole?;
    }
  }

  /** Nobody is authorised for anything until a privilege has been granted and a role has been granted. */
  lemma NothingWithoutGrants(ops: seq<Op>, user: string, wanted: Privilege)
    requires (forall op | op in ops :: !op.GrantPrivilege?) || (forall op | op in ops :: !op.GrantRole?)
    ensures !Authorize(Run(EMPTY, ops), user, wanted)
  {
    hide Run, Authorize;
    var s := Run(EMPTY, ops);
    if forall op | op in ops :: !op.GrantPrivilege? {
      RolesStayBare(ops);
    } else {
      UsersStayRoleless(ops);
    }
    assert EffectivePrivileges(s, user) == {};
    SnapshotsDecide(s, user, wanted);
  }
}
