/** Privileges: actions over resources, and what holding or denying one means for a request. */
module Rbac {
  import opened Wrappers

  datatype Action = Traverse | Read | Write | Schema | Admin

  datatype Resource =
    | Database
    | Graph(db: string)
    | NodeLabel(db: string, name: string)
    | RelType(db: string, relType: string)
    | Property(db: string, name: string, property: string)

  datatype Privilege = Privilege(action: Action, resource: Resource)

  predicate ActionImplies(held: Action, wanted: Action) {
    held.Admin? || match wanted
      case Traverse => held.Traverse? || held.Read? || held.Write?
      case Read => held.Read? || held.Write?
      case Write => held.Write?
      case Schema => held.Schema?
      case Admin => false
  }

  function DatabaseOf(r: Resource): Option<string> {
    if r.Database? then None else Some(r.db)
  }

  predicate Covers(held: Resource, wanted: Resource) {
    match held
    case Database => true
    case Graph(db) => DatabaseOf(wanted) == Some(db)
    case NodeLabel(db, name) =>
      (wanted.NodeLabel? || wanted.Property?) && wanted.db == db && wanted.name == name
    case RelType(db, relType) =>
      wanted.RelType? && wanted.db == db && wanted.relType == relType
    case Property(db, name, property) =>
      wanted.Property? && wanted.db == db && wanted.name == name && wanted.property == property
  }

  predicate IsGlobalAdmin(p: Privilege) {
    p == Privilege(Admin, Database)
  }

  predicate Implies(held: Privilege, wanted: Privilege) {
    Covers(held.resource, wanted.resource) && ActionImplies(held.action, wanted.action)
  }

  /** A deny matches resources as a grant does, but actions the other way round. */
  predicate Blocks(denied: Privilege, wanted: Privilege) {
    Covers(denied.resource, wanted.resource) && ActionImplies(wanted.action, denied.action)
  }

  // ---- Reference definitions -------------------------------------------------------------------

  /** The elementary capabilities an action stands for. */
  function Capabilities(a: Action): set<Action> {
    match a
    case Traverse => {Traverse}
    case Read => {Traverse, Read}
    case Write => {Traverse, Read, Write}
    case Schema => {Schema}
    case Admin => {Traverse, Read, Write, Schema, Admin}
  }

  datatype Segment = Db(string) | OfLabel(string) | OfType(string) | OfProperty(string)

  /** The way from the server down to a resource. */
  function Scope(r: Resource): seq<Segment> {
    match r
    case Database => []
    case Graph(db) => [Db(db)]
    case NodeLabel(db, name) => [Db(db), OfLabel(name)]
    case RelType(db, relType) => [Db(db), OfType(relType)]
    case Property(db, name, property) => [Db(db), OfLabel(name), OfProperty(property)]
  }

  lemma ActionsAreCapabilities(a: Action, b: Action)
    ensures ActionImplies(a, b) <==> Capabilities(b) <= Capabilities(a)
    ensures Capabilities(a) == Capabilities(b) ==> a == b
  {
  }

  /** One resource covers another exactly when it lies on the way to it. */
  lemma CoversIsPrefix(r: Resource, s: Resource)
    ensures Covers(r, s) <==> Scope(r) <= Scope(s)
    ensures Scope(r) == Scope(s) ==> r == s
  {
    var a, b := Scope(r), Scope(s);
    assert a <= b <==> && |a| <= |b|
                       && (|a| > 0 ==> a[0] == b[0])
                       && (|a| > 1 ==> a[1] == b[1])
                       && (|a| > 2 ==> a[2] == b[2]);
  }

  /** Holding is a partial order on privileges: reflexive, transitive, antisymmetric. */
  lemma ImpliesIsPartialOrder(p: Privilege, q: Privilege, r: Privilege)
    ensures Implies(p, p)
    ensures Implies(p, q) && Implies(q, r) ==> Implies(p, r)
    ensures Implies(p, q) && Implies(q, p) ==> p == q
  {
  }

  /** A deny stands in the way of a stronger action and of a narrower resource alike. */
  lemma BlocksSpreads(d: Privilege, p: Privilege, q: Privilege)
    requires Blocks(d, p) && ActionImplies(q.action, p.action) && Covers(p.resource, q.resource)
    ensures Blocks(d, q)
  {
  }
}
