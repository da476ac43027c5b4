/** The catalog that owns the maps and updates them in place. */
module Catalogs {
  import opened Wrappers
  import opened Rbac
  import opened CatalogState

  /** The specified refusal, or its absence, as the answer of an operation. */
  function Answer(refusal: Option<AuthError>): Result<(), AuthError> {
    match refusal
    case None => Success(())
    case Some(error) => Failure(error)
  }

  class Catalog {
    var users: map<string, User>
    var roles: map<string, Role>

    ghost function View(): State
      reads this
    {
      State(users, roles)
    }

    /** What every operation promises: the specified answer, the specified state, integrity kept. */
    twostate predicate Performs(op: Op, new r: Result<(), AuthError>)
      reads this
    {
      && r == Answer(Refusal(old(View()), op))
      && View() == Apply(old(View()), op)
    }

    constructor ()
      ensures View() == EMPTY
    {
      users, roles := map[], map[];
    }

    method CreateUserNamed(name: string) returns (r: Result<(), AuthError>)
      modifies this
      ensures Performs(CreateUser(name), r)
    {
      if name in users {
        return Failure(AlreadyExists);
      }
      users := users[name := User(name, {}, None, 0, false)];
      r := Success(());
    }

    method DropUserNamed(name: string) returns (r: Result<(), AuthError>)
      modifies this
      ensures Performs(DropUser(name), r)
    {
      if name !in users {
        return Failure(NotFound);
      }
      users := users - {name};
      r := Success(());
    }

    method CreateRoleNamed(name: string) returns (r: Result<(), AuthError>)
      modifies this
      ensures Performs(CreateRole(name), r)
    {
      if name in roles {
        return Failure(AlreadyExists);
      }
      roles := roles[name := Role(name, {}, {})];
      r := Success(());
    }

    /** Removes the role, then visits every user, in no particular order, to take it from them. */
    method DropRoleNamed(name: string) returns (r: Result<(), AuthError>)
      modifies this
      ensures Performs(DropRole(name), r)
    {
      if name !in roles {
        return Failure(NotFound);
      }
      roles := roles - {name};
      var pending := users.Keys;
      while pending != {}
        invariant pending <= users.Keys == old(users).Keys
        invariant roles == old(roles) - {name}
        invariant forall u | u in pending :: users[u] == old(users)[u]
        invariant forall u | u in users.Keys - pending :: users[u] == WithoutRole(old(users)[u], name)
        decreases pending
      {
        var u :| u in pending;
        users := users[u := users[u].(roles := users[u].roles - {name})];
        pending := pending - {u};
      }
      r := Success(());
    }

    method RenameUserTo(from: string, to: string) returns (r: Result<(), AuthError>)
      modifies this
      ensures Performs(RenameUser(from, to), r)
    {
      if from == to {
        return if from in users then Success(()) else Failure(NotFound);
      }
      if to in users {
        return Failure(AlreadyExists);
      }
      if from !in users {
        return Failure(NotFound);
      }
      var user := users[from];
      users := users - {from};
      users := users[to := user.(name := to)];
      r := Success(());
    }

    /** Refiles the role, then visits every user to rewrite the memberships that named it. */
    method RenameRoleTo(from: string, to: string) returns (r: Result<(), AuthError>)
      modifies this
      ensures Performs(RenameRole(from, to), r)
    {
      if from == to {
        return if from in roles then Success(()) else Failure(NotFound);
      }
      if to in roles {
        return Failure(AlreadyExists);
      }
      if from !in roles {
        return Failure(NotFound);
      }
      var role := roles[from];
      roles := roles - {from};
      roles := roles[to := role.(name := to)];
      var pending := users.Keys;
      while pending != {}
        invariant pending <= users.Keys == old(users).Keys
        invariant roles == (old(roles) - {from})[to := old(roles)[from].(name := to)]
        invariant forall u | u in pending :: users[u] == old(users)[u]
        invariant forall u | u in users.Keys - pending :: users[u] == Renamed(old(users)[u], from, to)
        decreases pending
      {
        var u :| u in pending;
        if from in users[u].roles {
          users := users[u := users[u].(roles := users[u].roles - {from})];
          users := users[u := users[u].(roles := users[u].roles + {to})];
        }
        pending := pending - {u};
      }
      r := Success(());
    }

    method GrantRoleTo(user: string, role: string) returns (r: Result<(), AuthError>)
      modifies this
      ensures Performs(GrantRole(user, role), r)
    {
      if role !in roles || user !in users {
        return Failure(NotFound);
      }
      users := users[user := users[user].(roles := users[user].roles + {role})];
      r := Success(());
    }

    method RevokeRoleFrom(user: string, role: string) returns (r: Result<(), AuthError>)
      modifies this
      ensures Performs(RevokeRole(user, role), r)
    {
      if user !in users {
        return Failure(NotFound);
      }
      users := users[user := users[user].(roles := users[user].roles - {role})];
      r := Success(());
    }

    /** Adds to or takes from the granted privileges of a role. */
    method EditGrants(role: string, privilege: Privilege, add: bool) returns (r: Result<(), AuthError>)
      modifies this
      ensures Performs(if add then GrantPrivilege(role, privilege) else RevokePrivilege(role, privilege), r)
    {
      if role !in roles {
        return Failure(NotFound);
      }
      var held := roles[role].privileges;
      roles := roles[role := roles[role].(privileges := if add then held + {privilege} else held - {privilege})];
      r := Success(());
    }

    /** Adds to or takes from the denied privileges of a role. */
    method EditDenies(role: string, privilege: Privilege, add: bool) returns (r: Result<(), AuthError>)
      modifies this
      ensures Performs(if add then DenyPrivilege(role, privilege) else RevokeDenied(role, privilege), r)
    {
      if role !in roles {
        return Failure(NotFound);
      }
      var held := roles[role].denied;
      roles := roles[role := roles[role].(denied := if add then held + {privilege} else held - {privilege})];
      r := Success(());
    }

    /** Performs one operation, whichever it is. */
    method Perform(op: Op) returns (r: Result<(), AuthError>)
      modifies this
      ensures Performs(op, r)
      ensures old(Integrity(View())) ==> Integrity(View())
    {
      if Integrity(View()) {
        StepKeepsIntegrity(View(), op);
      }
      match op
      case CreateUser(name) => r := CreateUserNamed(name);
      case DropUser(name) => r := DropUserNamed(name);
      case RenameUser(from, to) => r := RenameUserTo(from, to);
      case CreateRole(name) => r := CreateRoleNamed(name);
      case DropRole(name) => r := DropRoleNamed(name);
      case RenameRole(from, to) => r := RenameRoleTo(from, to);
      case GrantRole(user, role) => r := GrantRoleTo(user, role);
      case RevokeRole(user, role) => r := RevokeRoleFrom(user, role);
      case GrantPrivilege(role, p) => r := EditGrants(role, p, true);
      case RevokePrivilege(role, p) => r := EditGrants(role, p, false);
      case DenyPrivilege(role, p) => r := EditDenies(role, p, true);
      case RevokeDenied(role, p) => r := EditDenies(role, p, false);
    }
  }

  /** A catalog driven through any sequence of operations is the run of the specification. */
  method PerformAll(ops: seq<Op>) returns (catalog: Catalog)
    ensures fresh(catalog)
    ensures catalog.View() == Run(EMPTY, ops) && Integrity(catalog.View())
  {
    catalog := new Catalog();
    for i := 0 to |ops|
      invariant fresh(catalog)
      invariant catalog.View() == Run(EMPTY, ops[..i])
    {
      var _ := catalog.Perform(ops[i]);
      assert ops[..i + 1] == ops[..i] + [ops[i]];
      RunSnoc(EMPTY, ops[..i], ops[i]);
    }
    assert ops[..|ops|] == ops;
    EveryRunKeepsIntegrity(ops);
  }
}
