/** Roles and permissions: seeding from a pack (permission_service.py), role CRUD and role
    assignment (main.py), and the runtime gate check_permission. A permission row is
    identified by its codename, which the table keeps unique. */
module Rbac {
  import opened Common
  import opened PackModels
  import opened ScopeClaims

  type RoleId = int
  type UserId = int
  type RowId = int

  datatype DbRole = DbRole(name: string, tenant: Option<int>, isSystem: bool, isDefault: bool)

  datatype Assignment = Assignment(user: UserId, role: RoleId)

  datatype DirectGrant = DirectGrant(
    user: UserId, codename: string, resourceType: Option<string>, resourceId: Option<string>)

  datatype Ownership = Ownership(resourceType: string, resourceId: string, owner: UserId)

  datatype Db = Db(
    permissions: set<string>,
    roles: map<RoleId, DbRole>,
    rolePermissions: set<(RoleId, string)>,
    assignments: map<RowId, Assignment>,
    directGrants: map<RowId, DirectGrant>,
    ownerships: map<RowId, Ownership>,
    nextRole: RoleId,
    nextAssignment: RowId)

  const EMPTY := Db({}, map[], {}, map[], map[], map[], 0, 0)

  // Foreign keys hold and identity columns have not been reused.
  predicate Consistent(db: Db) {
    && (forall id :: id in db.roles ==> id < db.nextRole)
    && (forall id :: id in db.assignments ==> id < db.nextAssignment)
    && (forall p :: p in db.rolePermissions ==> p.0 in db.roles && p.1 in db.permissions)
    && (forall a :: a in db.assignments ==> db.assignments[a].role in db.roles)
  }

  predicate IsSystemNamed(db: Db, id: RoleId, name: string) {
    id in db.roles && db.roles[id].isSystem && db.roles[id].name == name
  }

  function SystemRoles(db: Db, name: string): set<RoleId> {
    set id | id in db.roles && IsSystemNamed(db, id, name)
  }

  predicate IsSystemRole(db: Db, id: RoleId) {
    id in db.roles && db.roles[id].isSystem
  }

  ghost predicate UniqueSystemNames(db: Db) {
    forall a, b :: IsSystemRole(db, a) && IsSystemRole(db, b) && db.roles[a].name == db.roles[b].name ==> a == b
  }

  // ---------------------------------------------------------------- the runtime gate

  datatype Verdict = Allowed | Denied | Raised

  const ADMIN := "admin"

  // The user is assigned a role that carries the permission.
  predicate Carries(db: Db, a: RowId, user: UserId, codename: string) {
    a in db.assignments && db.assignments[a].user == user
    && db.assignments[a].role in db.roles
    && (db.assignments[a].role, codename) in db.rolePermissions
  }

  function RoleRows(db: Db, user: UserId, codename: string): set<RowId> {
    set a | a in db.assignments && Carries(db, a, user, codename)
  }

  function SystemRows(db: Db, role: string, codename: string): set<RoleId> {
    set id | id in db.roles && IsSystemNamed(db, id, role) && (id, codename) in db.rolePermissions
  }

  // An absent or empty argument does not narrow a query.
  predicate Given(argument: Option<string>) {
    argument.Some? && argument.value != ""
  }

  predicate Grants(db: Db, g: RowId, user: UserId, codename: string,
                   resourceType: Option<string>, resourceId: Option<string>) {
    g in db.directGrants && db.directGrants[g].user == user && db.directGrants[g].codename == codename
    && (Given(resourceType) ==> db.directGrants[g].resourceType == resourceType)
    && (Given(resourceId) ==> db.directGrants[g].resourceId == resourceId)
  }

  function GrantRows(db: Db, user: UserId, codename: string,
                     resourceType: Option<string>, resourceId: Option<string>): set<RowId> {
    set g | g in db.directGrants && Grants(db, g, user, codename, resourceType, resourceId)
  }

  predicate Owns(db: Db, o: RowId, user: UserId, resourceType: string, resourceId: string) {
    o in db.ownerships && db.ownerships[o] == Ownership(resourceType, resourceId, user)
  }

  function OwnershipRows(db: Db, user: UserId, resourceType: string, resourceId: string): set<RowId> {
    set o | o in db.ownerships && Owns(db, o, user, resourceType, resourceId)
  }

  // Each lookup insists on at most one row and raises on two.
  function CheckPermission(db: Db, user: UserId, role: string, codename: string,
                           resourceType: Option<string>, resourceId: Option<string>): Verdict {
    if role == ADMIN then Allowed
    else if |RoleRows(db, user, codename)| > 1 then Raised
    else if |RoleRows(db, user, codename)| == 1 then Allowed
    else if |SystemRows(db, role, codename)| > 1 then Raised
    else if |SystemRows(db, role, codename)| == 1 then Allowed
    else
      var granted := |GrantRows(db, user, codename, resourceType, resourceId)|;
      if granted > 1 then Raised
      else if granted == 1 then Allowed
      else if Given(resourceType) && Given(resourceId) then
        var owned := |OwnershipRows(db, user, resourceType.value, resourceId.value)|;
        if owned > 1 then Raised else if owned == 1 then Allowed else Denied
      else Denied
  }

  lemma AtMostOneRow<T>(rows: set<T>)
    ensures |rows| <= 1 ==> (|rows| == 1 <==> exists x :: x in rows)
  {
    if |rows| == 1 {
      var x :| x in rows;
    }
  }

  lemma GateInTermsOfRows(db: Db, user: UserId, role: string, codename: string,
                          resourceType: Option<string>, resourceId: Option<string>)
    requires |RoleRows(db, user, codename)| <= 1 && |SystemRows(db, role, codename)| <= 1
    requires |GrantRows(db, user, codename, resourceType, resourceId)| <= 1
    requires |OwnershipRows(db, user, resourceType.GetOr(""), resourceId.GetOr(""))| <= 1
    ensures CheckPermission(db, user, role, codename, resourceType, resourceId).Allowed? <==>
            || role == ADMIN
            || (exists a :: Carries(db, a, user, codename))
            || (exists id :: IsSystemNamed(db, id, role) && (id, codename) in db.rolePermissions)
            || (exists g :: Grants(db, g, user, codename, resourceType, resourceId))
            || (Given(resourceType) && Given(resourceId)
                && exists o :: Owns(db, o, user, resourceType.value, resourceId.value))
    ensures !CheckPermission(db, user, role, codename, resourceType, resourceId).Raised?
  {
    AtMostOneRow(RoleRows(db, user, codename));
    AtMostOneRow(SystemRows(db, role, codename));
    AtMostOneRow(GrantRows(db, user, codename, resourceType, resourceId));
    AtMostOneRow(OwnershipRows(db, user, resourceType.GetOr(""), resourceId.GetOr("")));
    assert forall a :: Carries(db, a, user, codename) <==> a in RoleRows(db, user, codename);
    assert forall id :: id in SystemRows(db, role, codename) <==>
                          IsSystemNamed(db, id, role) && (id, codename) in db.rolePermissions;
    assert forall g :: Grants(db, g, user, codename, resourceType, resourceId) <==>
                         g in GrantRows(db, user, codename, resourceType, resourceId);
    assert forall o :: Owns(db, o, user, resourceType.GetOr(""), resourceId.GetOr("")) <==>
                         o in OwnershipRows(db, user, resourceType.GetOr(""), resourceId.GetOr(""));
    hide RoleRows, SystemRows, GrantRows, OwnershipRows, Carries, IsSystemNamed, Grants, Owns;
  }

  /** Where no lookup finds two rows, the gate allows exactly admins, and users who hold the
      permission through an assigned role, the system role of their primary role, or a direct
      grant (narrowed by the resource, if one is given), or who own the resource in question. */
  lemma GateIsAnyOfItsFourSources(db: Db, user: UserId, role: string, codename: string,
                                  resourceType: Option<string>, resourceId: Option<string>)
    requires |RoleRows(db, user, codename)| <= 1 && |SystemRows(db, role, codename)| <= 1
    requires |GrantRows(db, user, codename, resourceType, resourceId)| <= 1
    requires |OwnershipRows(db, user, resourceType.GetOr(""), resourceId.GetOr(""))| <= 1
    ensures CheckPermission(db, user, role, codename, resourceType, resourceId).Allowed? <==>
            || role == "admin"
            || (exists a :: && a in db.assignments && db.assignments[a].user == user && db.assignments[a].role in db.roles
                            && (db.assignments[a].role, codename) in db.rolePermissions)
            || (exists id :: && id in db.roles && db.roles[id].isSystem && db.roles[id].name == role
                             && (id, codename) in db.rolePermissions)
            || (exists g :: && g in db.directGrants && db.directGrants[g].user == user
                            && db.directGrants[g].codename == codename
                            && (resourceType.GetOr("") == "" || db.directGrants[g].resourceType == resourceType)
                            && (resourceId.GetOr("") == "" || db.directGrants[g].resourceId == resourceId))
            || (&& resourceType.GetOr("") != "" && resourceId.GetOr("") != ""
                && exists o :: && o in db.ownerships
                               && db.ownerships[o] == Ownership(resourceType.value, resourceId.value, user))
    ensures !CheckPermission(db, user, role, codename, resourceType, resourceId).Raised?
  {
    GateInTermsOfRows(db, user, role, codename, resourceType, resourceId);
    hide CheckPermission, RoleRows, SystemRows, GrantRows, OwnershipRows;
    if a :| && a in db.assignments && db.assignments[a].user == user && db.assignments[a].role in db.roles
            && (db.assignments[a].role, codename) in db.rolePermissions {
      assert Carries(db, a, user, codename);
    }
    if id :| && id in db.roles && db.roles[id].isSystem && db.roles[id].name == role
             && (id, codename) in db.rolePermissions {
      assert IsSystemNamed(db, id, role);
    }
    if g :| && g in db.directGrants && db.directGrants[g].user == user && db.directGrants[g].codename == codename
            && (resourceType.GetOr("") == "" || db.directGrants[g].resourceType == resourceType)
            && (resourceId.GetOr("") == "" || db.directGrants[g].resourceId == resourceId) {
      assert Grants(db, g, user, codename, resourceType, resourceId);
    }
    if o :| && o in db.ownerships && resourceType.Some? && resourceId.Some?
            && db.ownerships[o] == Ownership(resourceType.value, resourceId.value, user) {
      assert Owns(db, o, user, resourceType.value, resourceId.value);
    }
  }

  lemma TwoRows<T>(rows: set<T>)
    ensures |rows| > 1 <==> exists x, y :: x in rows && y in rows && x != y
    ensures |rows| == 0 <==> forall x :: x !in rows
  {
    if |rows| > 1 {
      var x :| x in rows;
      assert |rows - {x}| > 0;
      var y :| y in rows - {x};
    } else if x, y :| x in rows && y in rows && x != y {
      SubsetCardinality({x, y}, rows);
    }
  }

  // What it takes for the earlier sources to have no row.
  ghost predicate NoneCarries(db: Db, user: UserId, codename: string) {
    forall a :: !Carries(db, a, user, codename)
  }

  ghost predicate NoSystemRole(db: Db, role: string, codename: string) {
    forall id :: IsSystemNamed(db, id, role) ==> (id, codename) !in db.rolePermissions
  }

  ghost predicate NoneGrants(db: Db, user: UserId, codename: string, type_: Option<string>, id_: Option<string>) {
    forall g :: !Grants(db, g, user, codename, type_, id_)
  }

  /** The gate raises, whoever else might allow, exactly when the first source that has a row for a
      user who is no admin has two. */
  lemma GateRaisesExactly(db: Db, user: UserId, role: string, codename: string,
                          resourceType: Option<string>, resourceId: Option<string>)
    ensures CheckPermission(db, user, role, codename, resourceType, resourceId).Raised? <==>
            role != ADMIN
            && (|| (exists a, b :: a != b && Carries(db, a, user, codename) && Carries(db, b, user, codename))
                || (NoneCarries(db, user, codename)
                    && exists i, j :: && i != j && IsSystemNamed(db, i, role) && IsSystemNamed(db, j, role)
                                      && (i, codename) in db.rolePermissions && (j, codename) in db.rolePermissions)
                || (NoneCarries(db, user, codename) && NoSystemRole(db, role, codename)
                    && exists g, h :: && g != h && Grants(db, g, user, codename, resourceType, resourceId)
                                      && Grants(db, h, user, codename, resourceType, resourceId))
                || (NoneCarries(db, user, codename) && NoSystemRole(db, role, codename)
                    && NoneGrants(db, user, codename, resourceType, resourceId)
                    && Given(resourceType) && Given(resourceId)
                    && exists o, p :: && o != p && Owns(db, o, user, resourceType.value, resourceId.value)
                                      && Owns(db, p, user, resourceType.value, resourceId.value)))
  {
    var carriers, systems := RoleRows(db, user, codename), SystemRows(db, role, codename);
    var grants := GrantRows(db, user, codename, resourceType, resourceId);
    var owned := OwnershipRows(db, user, resourceType.GetOr(""), resourceId.GetOr(""));
    TwoRows(carriers);
    TwoRows(systems);
    TwoRows(grants);
    TwoRows(owned);
    assert forall a :: Carries(db, a, user, codename) <==> a in carriers;
    assert forall i :: i in systems <==> IsSystemNamed(db, i, role) && (i, codename) in db.rolePermissions;
    assert forall g :: Grants(db, g, user, codename, resourceType, resourceId) <==> g in grants;
    assert forall o :: Owns(db, o, user, resourceType.GetOr(""), resourceId.GetOr("")) <==> o in owned;
    hide RoleRows, SystemRows, GrantRows, OwnershipRows, Carries, IsSystemNamed, Grants, Owns;
    assert (exists a, b :: a != b && Carries(db, a, user, codename) && Carries(db, b, user, codename)) <==> |carriers| > 1;
    assert (exists g, h :: && g != h && Grants(db, g, user, codename, resourceType, resourceId)
                           && Grants(db, h, user, codename, resourceType, resourceId)) <==> |grants| > 1;
  }

  // The codenames reachable through a user's role assignments.
  function AssignedPermissions(db: Db, user: UserId): set<string> {
    set p | p in db.rolePermissions && RoleRows(db, user, p.1) != {} :: p.1
  }

  // ---------------------------------------------------------------- seeding

  function SystemRoleRow(name: string): DbRole {
    DbRole(name, None, true, name == "pending")
  }

  function WithSystemRole(db: Db, name: string): Db {
    if SystemRoles(db, name) != {} then db
    else db.(roles := db.roles[db.nextRole := SystemRoleRow(name)], nextRole := db.nextRole + 1)
  }

  // Bindings of these roles to those of these codenames that exist.
  function Bindings(ids: set<RoleId>, codes: seq<string>, existing: set<string>): set<(RoleId, string)> {
    set id, c | id in ids && c in codes && c in existing :: (id, c)
  }

  function SeedRole(db: Db, pack: PackModel, name: string): Db {
    var db' := WithSystemRole(db, name);
    db'.(rolePermissions := db'.rolePermissions
           + Bindings(SystemRoles(db', name), pack.PermissionsForRole(name), db'.permissions))
  }

  function SeedRoles(db: Db, pack: PackModel, names: seq<string>): Db {
    if names == [] then db
    else SeedRole(SeedRoles(db, pack, names[..|names| - 1]), pack, names[|names| - 1])
  }

  function Seed(db: Db, pack: PackModel): Db {
    SeedRoles(db.(permissions := db.permissions + Elements(pack.permissions)), pack, pack.roles)
  }

  // ---------------------------------------------------------------- role CRUD and assignment

  datatype Request =
    | CreateRole(name: string, tenant: Option<int>)
    | UpdateRole(id: RoleId, newName: Option<string>, isDefault: Option<bool>)
    | DeleteRole(id: RoleId)
    | SetRolePermissions(id: RoleId, codenames: seq<string>)
    | AssignRole(user: UserId, userExists: bool, role: RoleId)
    | RemoveAssignment(user: UserId, id: RowId)

  function SameNameAndTenant(db: Db, name: string, tenant: Option<int>): set<RoleId> {
    set id | id in db.roles && db.roles[id].name == name && db.roles[id].tenant == tenant
  }

  // SQL treats null tenants as distinct, so the constraint binds only tenant-scoped roles.
  predicate RenameCollides(db: Db, id: RoleId, name: string) {
    id in db.roles && db.roles[id].tenant.Some?
    && exists other :: other in db.roles && other != id
         && db.roles[other].name == name && db.roles[other].tenant == db.roles[id].tenant
  }

  // The codenames of a request that exist, in order; unknown ones are skipped.
  function Known(db: Db, codenames: seq<string>): seq<string> {
    Filter(codenames, db.permissions)
  }

  predicate Repeats(xs: seq<string>) {
    exists i, j :: 0 <= i < j < |xs| && xs[i] == xs[j]
  }

  predicate Accepted(db: Db, r: Request) {
    match r
    case CreateRole(name, tenant) => SameNameAndTenant(db, name, tenant) == {}
    case UpdateRole(id, name, _) =>
      id in db.roles && !db.roles[id].isSystem && (name.Some? ==> !RenameCollides(db, id, name.value))
    case DeleteRole(id) => id in db.roles && !db.roles[id].isSystem
    case SetRolePermissions(id, codenames) =>
      id in db.roles && !db.roles[id].isSystem && !Repeats(Known(db, codenames))
    case AssignRole(_, userExists, role) => userExists && role in db.roles
    case RemoveAssignment(user, id) => id in db.assignments && db.assignments[id].user == user
  }

  function Without(pairs: set<(RoleId, string)>, id: RoleId): set<(RoleId, string)> {
    set p | p in pairs && p.0 != id
  }

  function Bound(id: RoleId, codenames: seq<string>): set<(RoleId, string)> {
    set c | c in codenames :: (id, c)
  }

  function Handle(db: Db, r: Request): Db {
    if !Accepted(db, r) then db
    else match r
      case CreateRole(name, tenant) =>
        db.(roles := db.roles[db.nextRole := DbRole(name, tenant, false, false)], nextRole := db.nextRole + 1)
      case UpdateRole(id, name, isDefault) =>
        var old_ := db.roles[id];
        db.(roles := db.roles[id := old_.(name := name.GetOr(old_.name), isDefault := isDefault.GetOr(old_.isDefault))])
      case DeleteRole(id) =>
        db.(roles := db.roles - {id}, rolePermissions := Without(db.rolePermissions, id),
            assignments := map a | a in db.assignments && db.assignments[a].role != id :: db.assignments[a])
      case SetRolePermissions(id, codenames) =>
        db.(rolePermissions := Without(db.rolePermissions, id) + Bound(id, Known(db, codenames)))
      case AssignRole(user, _, role) =>
        db.(assignments := db.assignments[db.nextAssignment := Assignment(user, role)],
            nextAssignment := db.nextAssignment + 1)
      case RemoveAssignment(_, id) => db.(assignments := db.assignments - {id})
  }

  // ---------------------------------------------------------------- the tables

  class RbacStore {
    var permissions: set<string>
    var roles: map<RoleId, DbRole>
    var rolePermissions: set<(RoleId, string)>
    var assignments: map<RowId, Assignment>
    var directGrants: map<RowId, DirectGrant>
    var ownerships: map<RowId, Ownership>
    var nextRole: RoleId
    var nextAssignment: RowId

    function Snapshot(): Db
      reads this
    {
      Db(permissions, roles, rolePermissions, assignments, directGrants, ownerships, nextRole, nextAssignment)
    }

    constructor ()
      ensures Snapshot() == EMPTY
    {
      permissions, roles, rolePermissions := {}, map[], {};
      assignments, directGrants, ownerships := map[], map[], map[];
      nextRole, nextAssignment := 0, 0;
    }

    // Raises, leaving its work half done, only where two system roles share a name.
    method SeedRolesAndPermissions(pack: PackModel) returns (raised: bool)
      modifies this
      ensures UniqueSystemNames(old(Snapshot())) && Consistent(old(Snapshot())) ==>
                !raised && Snapshot() == Seed(old(Snapshot()), pack)
      ensures UniqueSystemNames(old(Snapshot())) && Consistent(old(Snapshot())) && pack.Valid() ==>
                forall n, id, c :: n in pack.roles && IsSystemNamed(Snapshot(), id, n) ==>
                  ((id, c) in rolePermissions <==>
                    || (id, c) in old(rolePermissions)
                    || (&& n in pack.rolePermissions && c in pack.permissions
                        && (c in pack.rolePermissions[n] || WILDCARD in pack.rolePermissions[n])))
    {
      hide UniqueSystemNames, Consistent, IsSystemNamed, SeedRole, SystemRoles;
      ghost var before := Snapshot();
      SeedPermissions(pack.permissions);
      var allPerms := permissions;
      ghost var start := Snapshot();
      ghost var sound := UniqueSystemNames(before) && Consistent(before);
      if sound {
        VocabularyKeepsOrder(before, pack.permissions);
      }
      for i := 0 to |pack.roles|
        invariant allPerms == permissions == start.permissions
        invariant sound ==> Snapshot() == SeedRoles(start, pack, pack.roles[..i])
        invariant sound ==> UniqueSystemNames(Snapshot()) && Consistent(Snapshot())
      {
        assert pack.roles[..i + 1][..i] == pack.roles[..i];
        raised := SeedOneRole(pack, pack.roles[i], allPerms);
        if raised {
          return;
        }
        if sound {
          SeedRoleKeepsOrder(SeedRoles(start, pack, pack.roles[..i]), pack, pack.roles[i]);
        }
      }
      assert pack.roles[..|pack.roles|] == pack.roles;
      raised := false;
      if sound && pack.Valid() {
        SeedGives(before, pack);
      }
    }

    method SeedPermissions(codenames: seq<string>)
      modifies this`permissions
      ensures permissions == old(permissions) + Elements(codenames)
    {
      for i := 0 to |codenames|
        invariant permissions == old(permissions) + Elements(codenames[..i])
      {
        assert codenames[..i + 1] == codenames[..i] + [codenames[i]];
        if codenames[i] !in permissions {
          permissions := permissions + {codenames[i]};
        }
      }
      assert codenames[..|codenames|] == codenames;
    }

    // The body of the loop over the pack's roles.
    method SeedOneRole(pack: PackModel, name: string, allPerms: set<string>) returns (raised: bool)
      modifies this
      ensures permissions == old(permissions)
      ensures UniqueSystemNames(old(Snapshot())) && allPerms == old(permissions) ==>
                !raised && Snapshot() == SeedRole(old(Snapshot()), pack, name)
    {
      var existing := SystemRoles(Snapshot(), name);
      if |existing| > 1 {
        NotUnique(Snapshot(), name);
        return true;
      }
      var role: RoleId;
      if existing == {} {
        role := nextRole;
        roles := roles[nextRole := SystemRoleRow(name)];
        nextRole := nextRole + 1;
      } else {
        role :| role in existing;
        SubsetCardinality({role}, existing);
      }
      assert Snapshot() == WithSystemRole(old(Snapshot()), name);
      assert SystemRoles(Snapshot(), name) == {role};
      BindPermissions(role, pack.PermissionsForRole(name), allPerms);
      raised := false;
    }

    method BindPermissions(role: RoleId, codes: seq<string>, allPerms: set<string>)
      modifies this`rolePermissions
      ensures rolePermissions == old(rolePermissions) + Bindings({role}, codes, allPerms)
    {
      for j := 0 to |codes|
        invariant rolePermissions == old(rolePermissions) + Bindings({role}, codes[..j], allPerms)
      {
        assert codes[..j + 1] == codes[..j] + [codes[j]];
        if codes[j] in allPerms && (role, codes[j]) !in rolePermissions {
          rolePermissions := rolePermissions + {(role, codes[j])};
        }
      }
      assert codes[..|codes|] == codes;
    }

    method CreateRole(name: string, tenant: Option<int>) returns (ok: bool)
      modifies this
      ensures ok == Accepted(old(Snapshot()), Request.CreateRole(name, tenant))
      ensures Snapshot() == Handle(old(Snapshot()), Request.CreateRole(name, tenant))
    {
      ok := SameNameAndTenant(Snapshot(), name, tenant) == {};
      if ok {
        roles := roles[nextRole := DbRole(name, tenant, false, false)];
        nextRole := nextRole + 1;
      }
    }

    method DeleteRole(id: RoleId) returns (ok: bool)
      modifies this
      ensures ok == Accepted(old(Snapshot()), Request.DeleteRole(id))
      ensures Snapshot() == Handle(old(Snapshot()), Request.DeleteRole(id))
    {
      if id !in roles || roles[id].isSystem {
        return false;
      }
      roles := roles - {id};
      rolePermissions := Without(rolePermissions, id);
      assignments := map a | a in assignments && assignments[a].role != id :: assignments[a];
      return true;
    }

    // Clears, then adds one row per known codename; a repeated one breaks the primary key and
    // rolls the whole request back.
    method SetRolePermissions(id: RoleId, codenames: seq<string>) returns (ok: bool)
      modifies this
      ensures ok == Accepted(old(Snapshot()), Request.SetRolePermissions(id, codenames))
      ensures Snapshot() == Handle(old(Snapshot()), Request.SetRolePermissions(id, codenames))
    {
      if id !in roles || roles[id].isSystem {
        return false;
      }
      var saved := rolePermissions;
      ghost var before := Snapshot();
      rolePermissions := Without(saved, id);
      for i := 0 to |codenames|
        invariant !Repeats(Known(before, codenames[..i]))
        invariant Snapshot() == before.(rolePermissions :=
                                          Without(saved, id) + Bound(id, Known(before, codenames[..i])))
      {
        var c := codenames[i];
        ghost var sofar := Known(before, codenames[..i]);
        assert codenames[..i + 1][..i] == codenames[..i];
        if c in permissions {
          assert Known(before, codenames[..i + 1]) == sofar + [c];
          if (id, c) in rolePermissions {
            assert c in sofar;
            RepetitionStays(before, codenames, i);
            rolePermissions := saved;
            return false;
          }
          assert c !in sofar;
          rolePermissions := rolePermissions + {(id, c)};
        } else {
          assert Known(before, codenames[..i + 1]) == sofar;
        }
      }
      assert codenames[..|codenames|] == codenames;
      return true;
    }

    method UpdateRole(id: RoleId, name: Option<string>, isDefault: Option<bool>) returns (ok: bool)
      modifies this
      ensures ok == Accepted(old(Snapshot()), Request.UpdateRole(id, name, isDefault))
      ensures Snapshot() == Handle(old(Snapshot()), Request.UpdateRole(id, name, isDefault))
    {
      if id !in roles || roles[id].isSystem {
        return false;
      }
      if name.Some? && RenameCollides(Snapshot(), id, name.value) {
        return false;
      }
      if name.Some? {
        roles := roles[id := roles[id].(name := name.value)];
      }
      if isDefault.Some? {
        roles := roles[id := roles[id].(isDefault := isDefault.value)];
      }
      return true;
    }

    // Nothing stops the same role being assigned twice.
    method AssignUserRole(user: UserId, userExists: bool, role: RoleId) returns (ok: bool)
      modifies this
      ensures ok == Accepted(old(Snapshot()), AssignRole(user, userExists, role))
      ensures Snapshot() == Handle(old(Snapshot()), AssignRole(user, userExists, role))
    {
      ok := userExists && role in roles;
      if ok {
        assignments := assignments[nextAssignment := Assignment(user, role)];
        nextAssignment := nextAssignment + 1;
      }
    }

    method RemoveUserRole(user: UserId, id: RowId) returns (ok: bool)
      modifies this
      ensures ok == Accepted(old(Snapshot()), RemoveAssignment(user, id))
      ensures Snapshot() == Handle(old(Snapshot()), RemoveAssignment(user, id))
    {
      ok := id in assignments && assignments[id].user == user;
      if ok {
        assignments := assignments - {id};
      }
    }
  }

  // A codename that repeats among the first i + 1 still repeats in the whole request.
  lemma {:induction false} RepetitionStays(db: Db, codenames: seq<string>, i: nat)
    requires i < |codenames| && codenames[i] in db.permissions
    requires codenames[i] in Known(db, codenames[..i])
    ensures Repeats(Known(db, codenames))
    decreases |codenames|
  {
    var n := |codenames| - 1;
    var before := Known(db, codenames[..n]);
    var all := Known(db, codenames);
    assert all == before + (if codenames[n] in db.permissions then [codenames[n]] else []);
    if i == n {
      var k :| 0 <= k < |before| && before[k] == codenames[i];
      assert all[k] == all[|before|];
    } else {
      assert codenames[..n][..i] == codenames[..i];
      RepetitionStays(db, codenames[..n], i);
      var a, b :| 0 <= a < b < |before| && before[a] == before[b];
      assert all[a] == all[b];
    }
  }

  // ---------------------------------------------------------------- what seeding leaves

  lemma NotUnique(db: Db, name: string)
    ensures |SystemRoles(db, name)| > 1 ==> !UniqueSystemNames(db)
  {
    TwoRows(SystemRoles(db, name));
    assert forall a :: a in SystemRoles(db, name) ==> IsSystemRole(db, a) && db.roles[a].name == name;
  }

  lemma VocabularyKeepsOrder(db: Db, codenames: seq<string>)
    requires UniqueSystemNames(db) && Consistent(db)
    ensures var start := db.(permissions := db.permissions + Elements(codenames));
            UniqueSystemNames(start) && Consistent(start)
  {
    var start := db.(permissions := db.permissions + Elements(codenames));
    assert forall id :: IsSystemRole(start, id) ==> IsSystemRole(db, id);
  }

  lemma SeedRoleKeepsOrder(db: Db, pack: PackModel, name: string)
    requires UniqueSystemNames(db) && Consistent(db)
    ensures UniqueSystemNames(SeedRole(db, pack, name)) && Consistent(SeedRole(db, pack, name))
  {
    var after := SeedRole(db, pack, name);
    assert after.roles == WithSystemRole(db, name).roles && Consistent(after);
    hide SeedRole, Bindings, Consistent;
    assert forall x :: IsSystemRole(db, x) ==> x in SystemRoles(db, db.roles[x].name);
    assert forall x :: IsSystemRole(after, x) && x in db.roles ==> IsSystemRole(db, x);
  }

  // `after` has the roles of `before` and one system role for each name.
  ghost predicate RolesSeeded(before: Db, names: seq<string>, after: Db) {
    && UniqueSystemNames(after) && Consistent(after)
    && after == before.(roles := after.roles, rolePermissions := after.rolePermissions, nextRole := after.nextRole)
    && before.nextRole <= after.nextRole
    && (forall id :: id in before.roles ==> id in after.roles && after.roles[id] == before.roles[id])
    && (forall id :: id in after.roles && id !in before.roles ==>
          && after.roles[id] == SystemRoleRow(after.roles[id].name) && after.roles[id].name in names
          && SystemRoles(before, after.roles[id].name) == {})
    && (forall n :: n in names ==> |SystemRoles(after, n)| == 1)
  }

  // `after` has the bindings of `before` and those the pack gives the named system roles.
  ghost predicate BindingsSeeded(before: Db, pack: PackModel, names: seq<string>, after: Db) {
    forall id, c :: (id, c) in after.rolePermissions <==>
      || (id, c) in before.rolePermissions
      || (IsSystemRole(after, id) && after.roles[id].name in names
          && c in pack.PermissionsForRole(after.roles[id].name) && c in after.permissions)
  }

  ghost predicate SeededFrom(before: Db, pack: PackModel, names: seq<string>, after: Db) {
    RolesSeeded(before, names, after) && BindingsSeeded(before, pack, names, after)
  }

  lemma SystemRoleIsUnique(db: Db, name: string, id: RoleId)
    requires UniqueSystemNames(db) && IsSystemNamed(db, id, name)
    ensures SystemRoles(db, name) == {id}
  {
    forall other | other in SystemRoles(db, name)
      ensures other == id
    {
      assert IsSystemRole(db, other) && IsSystemRole(db, id);
    }
  }

  // Seeding one role: a single system role of that name, possibly new, gains its bindings.
  lemma SeedRoleEffect(db: Db, pack: PackModel, name: string) returns (role: RoleId)
    requires UniqueSystemNames(db) && Consistent(db)
    ensures var after := SeedRole(db, pack, name);
            && UniqueSystemNames(after) && Consistent(after)
            && after == db.(roles := after.roles, rolePermissions := after.rolePermissions, nextRole := after.nextRole)
            && db.nextRole <= after.nextRole
            && SystemRoles(after, name) == {role}
            && (if SystemRoles(db, name) == {} then role !in db.roles && after.roles == db.roles[role := SystemRoleRow(name)]
                else after.roles == db.roles)
            && (forall id, c :: (id, c) in after.rolePermissions <==>
                  || (id, c) in db.rolePermissions
                  || (id == role && c in pack.PermissionsForRole(name) && c in db.permissions))
  {
    var with := WithSystemRole(db, name);
    var after := SeedRole(db, pack, name);
    SeedRoleKeepsOrder(db, pack, name);
    if SystemRoles(db, name) == {} {
      role := db.nextRole;
    } else {
      role :| role in SystemRoles(db, name);
    }
    SystemRoleIsUnique(after, name, role);
    assert SystemRoles(with, name) == SystemRoles(after, name);
  }

  lemma OneRoleEach(mid: Db, pack: PackModel, names: seq<string>, name: string)
    requires UniqueSystemNames(mid) && Consistent(mid)
    requires forall n :: n in names ==> |SystemRoles(mid, n)| == 1
    ensures forall n :: n in names + [name] ==> |SystemRoles(SeedRole(mid, pack, name), n)| == 1
  {
    var role := SeedRoleEffect(mid, pack, name);
    var after := SeedRole(mid, pack, name);
    hide SeedRole, Bindings, WithSystemRole, UniqueSystemNames, Consistent;
    forall n | n in names + [name]
      ensures |SystemRoles(after, n)| == 1
    {
      if n != name {
        assert n in names;
        assert SystemRoles(after, n) == SystemRoles(mid, n);
      }
    }
  }

  lemma SeedRoleExtendsRoles(before: Db, pack: PackModel, names: seq<string>, mid: Db, name: string)
    requires Consistent(before) && RolesSeeded(before, names, mid)
    ensures RolesSeeded(before, names + [name], SeedRole(mid, pack, name))
  {
    var role := SeedRoleEffect(mid, pack, name);
    OneRoleEach(mid, pack, names, name);
    assert SystemRoles(before, name) <= SystemRoles(mid, name);
    hide SeedRole, Bindings, WithSystemRole, UniqueSystemNames, Consistent;
  }

  lemma SeedRoleExtendsBindings(before: Db, pack: PackModel, names: seq<string>, mid: Db, name: string)
    requires UniqueSystemNames(mid) && Consistent(mid)
    requires BindingsSeeded(before, pack, names, mid)
    requires forall n :: n in names ==> |SystemRoles(mid, n)| == 1
    ensures BindingsSeeded(before, pack, names + [name], SeedRole(mid, pack, name))
  {
    var role := SeedRoleEffect(mid, pack, name);
    var after := SeedRole(mid, pack, name);
    hide SeedRole, Bindings, WithSystemRole;
    forall id
      ensures IsSystemRole(after, id) && after.roles[id].name == name <==> id == role
    {
      assert id in SystemRoles(after, name) <==> id == role;
    }
    forall id | id != role
      ensures IsSystemRole(after, id) <==> IsSystemRole(mid, id)
      ensures IsSystemRole(mid, id) ==> after.roles[id] == mid.roles[id]
    {
    }
    if SystemRoles(mid, name) == {} {
      assert name !in names;
    } else {
      assert after.roles == mid.roles;
    }
  }

  lemma {:induction false} SeedRolesEffect(db: Db, pack: PackModel, names: seq<string>)
    requires UniqueSystemNames(db) && Consistent(db)
    ensures SeededFrom(db, pack, names, SeedRoles(db, pack, names))
  {
    if names == [] {
    } else {
      var n := |names| - 1;
      var mid := SeedRoles(db, pack, names[..n]);
      SeedRolesEffect(db, pack, names[..n]);
      SeedRoleExtendsRoles(db, pack, names[..n], mid, names[n]);
      SeedRoleExtendsBindings(db, pack, names[..n], mid, names[n]);
      assert names == names[..n] + [names[n]];
    }
  }

  /** Seeding leaves exactly one system role for each role of the pack, carrying what it had and what
      the pack's map lists for it, the whole vocabulary if that is the wildcard, and nothing if the
      map lists nothing; it leaves every other role and its permissions as they were. */
  lemma SeedingEffect(db: Db, pack: PackModel)
    requires UniqueSystemNames(db) && Consistent(db) && pack.Valid()
    ensures var after := Seed(db, pack);
            && UniqueSystemNames(after) && Consistent(after)
            && (forall n :: n in pack.roles ==> |SystemRoles(after, n)| == 1)
            && (forall n, id, c :: n in pack.roles && id in SystemRoles(after, n) ==>
                  ((id, c) in after.rolePermissions <==>
                    || (id, c) in db.rolePermissions
                    || (&& n in pack.rolePermissions && c in pack.permissions
                        && (c in pack.rolePermissions[n] || WILDCARD in pack.rolePermissions[n]))))
            && (forall id :: id in db.roles ==> id in after.roles && after.roles[id] == db.roles[id])
            && (forall id :: id in after.roles && !after.roles[id].isSystem ==>
                  id in db.roles && forall c :: (id, c) in after.rolePermissions <==> (id, c) in db.rolePermissions)
            && (forall id :: id in after.roles && id !in db.roles ==>
                  && after.roles[id].name in pack.roles
                  && after.roles[id] == DbRole(after.roles[id].name, None, true, after.roles[id].name == "pending"))
            && after.permissions == db.permissions + Elements(pack.permissions)
            && after.assignments == db.assignments
  {
    var start := db.(permissions := db.permissions + Elements(pack.permissions));
    VocabularyKeepsOrder(db, pack.permissions);
    SeedRolesEffect(start, pack, pack.roles);
    var after := Seed(db, pack);
    forall n, c
      ensures c in pack.PermissionsForRole(n) <==>
              && n in pack.rolePermissions && c in pack.permissions
              && (c in pack.rolePermissions[n] || WILDCARD in pack.rolePermissions[n])
    {
      pack.RolesStayWithinVocabulary(n);
    }
    assert forall c :: c in pack.permissions ==> c in after.permissions;
    hide Seed, Consistent, UniqueSystemNames;
    forall n, id | id in SystemRoles(after, n)
      ensures IsSystemNamed(after, id, n)
    {
    }
  }

  lemma SeedGives(db: Db, pack: PackModel)
    requires UniqueSystemNames(db) && Consistent(db) && pack.Valid()
    ensures forall n, id, c :: n in pack.roles && IsSystemNamed(Seed(db, pack), id, n) ==>
              ((id, c) in Seed(db, pack).rolePermissions <==>
                || (id, c) in db.rolePermissions
                || (&& n in pack.rolePermissions && c in pack.permissions
                    && (c in pack.rolePermissions[n] || WILDCARD in pack.rolePermissions[n])))
  {
    SeedingEffect(db, pack);
    assert forall n, id :: IsSystemNamed(Seed(db, pack), id, n) ==> id in SystemRoles(Seed(db, pack), n);
    hide Seed, UniqueSystemNames, Consistent, SystemRoles, IsSystemNamed;
  }

  /** Seeding the same pack again changes nothing at all. */
  lemma SeedingIsIdempotent(db: Db, pack: PackModel)
    requires UniqueSystemNames(db) && Consistent(db) && pack.Valid()
    ensures Seed(Seed(db, pack), pack) == Seed(db, pack)
  {
    var once := Seed(db, pack);
    SeedingEffect(db, pack);
    var start := db.(permissions := db.permissions + Elements(pack.permissions));
    VocabularyKeepsOrder(db, pack.permissions);
    SeedRolesEffect(start, pack, pack.roles);
    assert once.permissions + Elements(pack.permissions) == once.permissions;
    SeedingAddsNothing(once, pack, pack.roles);
  }

  // A database that already has each named system role with its permissions is left alone.
  lemma {:induction false} SeedingAddsNothing(db: Db, pack: PackModel, names: seq<string>)
    requires forall n :: n in names ==> SystemRoles(db, n) != {}
    requires forall n, id, c :: n in names && id in SystemRoles(db, n) && c in pack.PermissionsForRole(n) ==>
               (id, c) in db.rolePermissions
    ensures SeedRoles(db, pack, names) == db
  {
    if names != [] {
      var n := |names| - 1;
      SeedingAddsNothing(db, pack, names[..n]);
      assert names[n] in names;
      assert db.rolePermissions
             + Bindings(SystemRoles(db, names[n]), pack.PermissionsForRole(names[n]), db.permissions) == db.rolePermissions;
    }
  }

  /** Seeding a second pack on top of a first adds up: a system role of both ends up with the
      permissions each gives it, beside what it had before. */
  lemma TwoPacksAddUp(db: Db, pack: PackModel, other: PackModel, name: string, id: RoleId, c: string)
    requires UniqueSystemNames(db) && Consistent(db) && pack.Valid() && other.Valid()
    requires name in pack.roles && name in other.roles
    requires id in SystemRoles(Seed(Seed(db, pack), other), name)
    ensures (id, c) in Seed(Seed(db, pack), other).rolePermissions <==>
            || (id, c) in db.rolePermissions
            || pack.Gives(name, c) || other.Gives(name, c)
  {
    hide Seed;
    var first := Seed(db, pack);
    SeedingEffect(db, pack);
    SeedingEffect(first, other);
    assert |SystemRoles(first, name)| == 1;
    var role :| role in SystemRoles(first, name);
    assert role in first.roles && IsSystemNamed(Seed(first, other), role, name);
    SystemRoleIsUnique(Seed(first, other), name, role);
    hide Seed, UniqueSystemNames, Consistent, SystemRoles, IsSystemNamed;
  }

  // ---------------------------------------------------------------- the claim and the gate

  // Some of the packs seeded so far gives the role this permission.
  predicate SomePackGives(packs: seq<PackModel>, role: string, codename: string) {
    exists i :: 0 <= i < |packs| && packs[i].Gives(role, codename)
  }

  predicate SomePackDeclares(packs: seq<PackModel>, role: string) {
    exists i :: 0 <= i < |packs| && role in packs[i].roles
  }

  ghost predicate AllValid(packs: seq<PackModel>) {
    forall i :: 0 <= i < |packs| ==> packs[i].Valid()
  }

  /** What every run that seeds these packs keeps: each of their roles has one system role, which
      carries exactly the permissions some of them gives it, and there are no others. */
  ghost predicate FollowsPacks(db: Db, packs: seq<PackModel>) {
    && UniqueSystemNames(db) && Consistent(db)
    && (forall n :: SomePackDeclares(packs, n) ==> SystemRoles(db, n) != {})
    && (forall id :: IsSystemRole(db, id) ==> SomePackDeclares(packs, db.roles[id].name))
    && (forall id, c :: IsSystemRole(db, id) ==>
          ((id, c) in db.rolePermissions <==> SomePackGives(packs, db.roles[id].name, c)))
  }

  lemma OneMorePack(packs: seq<PackModel>, pack: PackModel, role: string, c: string)
    ensures SomePackGives(packs + [pack], role, c) <==> SomePackGives(packs, role, c) || pack.Gives(role, c)
    ensures SomePackDeclares(packs + [pack], role) <==> SomePackDeclares(packs, role) || role in pack.roles
  {
    var more := packs + [pack];
    assert more[|packs|] == pack;
    forall i | 0 <= i < |packs|
      ensures more[i] == packs[i]
    {
    }
  }

  // What seeding does to system roles: those of the pack appear, and gain what it gives them.
  lemma SeedingSystemRoles(db: Db, pack: PackModel)
    requires UniqueSystemNames(db) && Consistent(db) && pack.Valid()
    ensures var after := Seed(db, pack);
            && UniqueSystemNames(after) && Consistent(after)
            && (forall n :: n in pack.roles || SystemRoles(db, n) != {} ==> SystemRoles(after, n) != {})
            && (forall id :: IsSystemRole(after, id) ==>
                  (IsSystemRole(db, id) && after.roles[id] == db.roles[id])
                  || (id !in db.roles && after.roles[id].name in pack.roles && SystemRoles(db, after.roles[id].name) == {}))
            && (forall id, c :: IsSystemRole(after, id) ==>
                  ((id, c) in after.rolePermissions <==>
                    (id, c) in db.rolePermissions || pack.Gives(after.roles[id].name, c)))
            && after.directGrants == db.directGrants && after.assignments == db.assignments
  {
    var start := db.(permissions := db.permissions + Elements(pack.permissions));
    VocabularyKeepsOrder(db, pack.permissions);
    SeedRolesEffect(start, pack, pack.roles);
    var after := Seed(db, pack);
    forall id, c | IsSystemRole(after, id)
      ensures c in pack.PermissionsForRole(after.roles[id].name) <==> pack.Gives(after.roles[id].name, c)
      ensures pack.Gives(after.roles[id].name, c) ==> after.roles[id].name in pack.roles && c in after.permissions
    {
      pack.RolesStayWithinVocabulary(after.roles[id].name);
    }
    forall n | n in pack.roles || SystemRoles(db, n) != {}
      ensures SystemRoles(after, n) != {}
    {
      if n !in pack.roles {
        var id :| id in SystemRoles(db, n);
        assert id in SystemRoles(after, n);
      }
    }
  }

  // Valid packs give permissions only to roles they declare.
  lemma GivenIsDeclared(packs: seq<PackModel>, role: string, c: string)
    requires AllValid(packs) && SomePackGives(packs, role, c)
    ensures SomePackDeclares(packs, role)
  {
    var i :| 0 <= i < |packs| && packs[i].Gives(role, c);
    packs[i].RolesStayWithinVocabulary(role);
  }

  lemma SeedingFollowsPacks(db: Db, packs: seq<PackModel>, pack: PackModel)
    requires FollowsPacks(db, packs) && AllValid(packs) && pack.Valid()
    ensures FollowsPacks(Seed(db, pack), packs + [pack])
    ensures Seed(db, pack).directGrants == db.directGrants
  {
    var after := Seed(db, pack);
    SeedingSystemRoles(db, pack);
    assert forall id, c :: (id, c) in db.rolePermissions ==> id in db.roles;
    hide Seed, UniqueSystemNames, Consistent, SomePackGives, SomePackDeclares, SystemRoles, AllValid;
    forall role, c: string
      ensures SomePackGives(packs + [pack], role, c) <==>
              SomePackGives(packs, role, c) || pack.Gives(role, c)
    {
      OneMorePack(packs, pack, role, c);
    }
    forall role: string
      ensures SomePackDeclares(packs + [pack], role) <==> SomePackDeclares(packs, role) || role in pack.roles
    {
      OneMorePack(packs, pack, role, "");
    }
    forall id, c | IsSystemRole(after, id)
      ensures (id, c) in after.rolePermissions <==> SomePackGives(packs + [pack], after.roles[id].name, c)
    {
      if id !in db.roles && SomePackGives(packs, after.roles[id].name, c) {
        GivenIsDeclared(packs, after.roles[id].name, c);
      }
    }
  }

  /** No request touches a system role, its name or its permissions. */
  lemma RequestsSpareSystemRoles(db: Db, r: Request)
    requires Consistent(db)
    ensures var after := Handle(db, r);
            && Consistent(after) && after.permissions == db.permissions
            && (forall id :: IsSystemRole(after, id) <==> IsSystemRole(db, id))
            && (forall id :: IsSystemRole(db, id) ==> after.roles[id] == db.roles[id])
            && (forall id, c :: IsSystemRole(db, id) ==>
                  ((id, c) in after.rolePermissions <==> (id, c) in db.rolePermissions))
            && after.directGrants == db.directGrants
  {
    if r.SetRolePermissions? {
      FilterMembers(r.codenames, db.permissions);
    }
  }

  // Known codenames repeat exactly when the request lists one of them twice.
  lemma RepeatsExactly(db: Db, codenames: seq<string>)
    ensures Repeats(Known(db, codenames)) <==>
            exists i, j :: 0 <= i < j < |codenames| && codenames[i] == codenames[j] && codenames[i] in db.permissions
  {
    var known, at := Known(db, codenames), Positions(codenames, db.permissions);
    FilterKeepsOrder(codenames, db.permissions);
    if Repeats(known) {
      var k, l :| 0 <= k < l < |known| && known[k] == known[l];
      PositionsExactly(codenames, db.permissions, at[k]);
      assert codenames[at[k]] == codenames[at[l]] && at[k] < at[l];
    }
    if i, j :| 0 <= i < j < |codenames| && codenames[i] == codenames[j] && codenames[i] in db.permissions {
      PositionsExactly(codenames, db.permissions, i);
      PositionsExactly(codenames, db.permissions, j);
      var k :| 0 <= k < |at| && at[k] == i;
      var l :| 0 <= l < |at| && at[l] == j;
      assert known[k] == known[l] && k != l;
    }
  }

  /** Setting a custom role's permissions replaces them by the requested codenames that exist, and
      changes no other role's; a request for a system role, or one that lists an existing codename
      twice, changes nothing. */
  lemma SettingReplacesExactly(db: Db, id: RoleId, codenames: seq<string>)
    ensures var after := Handle(db, SetRolePermissions(id, codenames));
            if && id in db.roles && !db.roles[id].isSystem
               && (forall i, j :: 0 <= i < j < |codenames| && codenames[i] == codenames[j] ==> codenames[i] !in db.permissions)
            then && after == db.(rolePermissions := after.rolePermissions)
                 && forall other, c :: (other, c) in after.rolePermissions <==>
                      if other == id then c in codenames && c in db.permissions else (other, c) in db.rolePermissions
            else after == db
  {
    FilterMembers(codenames, db.permissions);
    RepeatsExactly(db, codenames);
  }

  /** Creating a role adds one custom role that carries nothing and that nobody has, unless some role
      has that name in that tenant. */
  lemma CreatingAddsExactly(db: Db, name: string, tenant: Option<int>)
    requires Consistent(db)
    ensures var after := Handle(db, CreateRole(name, tenant));
            if exists id :: id in db.roles && db.roles[id].name == name && db.roles[id].tenant == tenant then after == db
            else exists id :: && id !in db.roles && after.roles == db.roles[id := DbRole(name, tenant, false, false)]
                              && after == db.(roles := after.roles, nextRole := after.nextRole)
                              && (forall c :: (id, c) !in after.rolePermissions)
                              && (forall a :: a in after.assignments ==> after.assignments[a].role != id)
  {
    var after := Handle(db, CreateRole(name, tenant));
    var taken := SameNameAndTenant(db, name, tenant);
    assert forall id :: id in taken <==> id in db.roles && db.roles[id].name == name && db.roles[id].tenant == tenant;
    hide SameNameAndTenant;
    if taken != {} {
      var id := MemberOf(taken);
    }
    assert db.nextRole !in db.roles;
  }

  /** Updating a role rewrites what is given of its name and default flag and nothing else; a system role,
      and a tenant's role that would take another's name there, is left alone. */
  lemma UpdatingRewritesExactly(db: Db, id: RoleId, name: Option<string>, isDefault: Option<bool>)
    ensures var after := Handle(db, UpdateRole(id, name, isDefault));
            if && id in db.roles && !db.roles[id].isSystem
               && (db.roles[id].tenant.Some? && name.Some? ==>
                     forall other :: other in db.roles && other != id && db.roles[other].tenant == db.roles[id].tenant ==>
                       db.roles[other].name != name.value)
            then && after == db.(roles := after.roles) && after.roles.Keys == db.roles.Keys
                 && (forall other :: other in db.roles && other != id ==> after.roles[other] == db.roles[other])
                 && after.roles[id].name == (if name.Some? then name.value else db.roles[id].name)
                 && after.roles[id].isDefault == (if isDefault.Some? then isDefault.value else db.roles[id].isDefault)
                 && after.roles[id].tenant == db.roles[id].tenant && !after.roles[id].isSystem
            else after == db
  {
  }

  /** Deleting a custom role removes it with its bindings and assignments, so it carries nothing to anyone;
      every other role, binding and assignment stands. System roles cannot be deleted. */
  lemma DeletingLeavesNothing(db: Db, id: RoleId)
    ensures var after := Handle(db, DeleteRole(id));
            if id !in db.roles || db.roles[id].isSystem then after == db
            else && after == db.(roles := db.roles - {id}, rolePermissions := after.rolePermissions,
                                 assignments := after.assignments)
                 && (forall other, c :: (other, c) in after.rolePermissions <==>
                       other != id && (other, c) in db.rolePermissions)
                 && (forall a :: a in after.assignments <==> a in db.assignments && db.assignments[a].role != id)
                 && (forall a :: a in after.assignments ==> after.assignments[a] == db.assignments[a])
  {
  }

  /** An assignment gives its user what the role carries, beside what other assignments carry. */
  lemma AssigningAddsExactly(db: Db, user: UserId, role: RoleId, other: UserId, codename: string)
    requires Consistent(db)
    ensures var after := Handle(db, AssignRole(user, true, role));
            if role !in db.roles then after == db
            else exists a :: && a !in db.assignments && after.assignments == db.assignments[a := Assignment(user, role)]
                             && after == db.(assignments := after.assignments, nextAssignment := after.nextAssignment)
                             && RoleRows(after, other, codename)
                                == if other == user && (role, codename) in db.rolePermissions
                                   then RoleRows(db, user, codename) + {a} else RoleRows(db, other, codename)
    ensures Handle(db, AssignRole(user, false, role)) == db
  {
    if role in db.roles {
      assert db.nextAssignment !in db.assignments;
    }
  }

  /** Removing an assignment takes back exactly that: the row is gone, every other stands, and where it
      was the only thing that let its user through, the gate denies. Nobody removes another user's. */
  lemma RemovingTakesBackExactly(db: Db, user: UserId, id: RowId, role: string, codename: string)
    ensures var after := Handle(db, RemoveAssignment(user, id));
            if id !in db.assignments || db.assignments[id].user != user then after == db
            else && after == db.(assignments := db.assignments - {id})
                 && (forall other :: other != user ==> RoleRows(after, other, codename) == RoleRows(db, other, codename))
                 && RoleRows(after, user, codename) == RoleRows(db, user, codename) - {id}
                 && (&& role != ADMIN && RoleRows(db, user, codename) == {id} && NoSystemRole(db, role, codename)
                     && NoneGrants(db, user, codename, None, None) ==>
                       && CheckPermission(db, user, role, codename, None, None).Allowed?
                       && CheckPermission(after, user, role, codename, None, None).Denied?)
  {
    var after := Handle(db, RemoveAssignment(user, id));
    if id in db.assignments && db.assignments[id].user == user {
      assert RoleRows(after, user, codename) == RoleRows(db, user, codename) - {id};
      if NoSystemRole(db, role, codename) && NoneGrants(db, user, codename, None, None) {
        assert SystemRows(after, role, codename) == {};
        assert GrantRows(after, user, codename, None, None) == {} by {
          assert forall g :: Grants(after, g, user, codename, None, None) ==> Grants(db, g, user, codename, None, None);
        }
      }
    }
  }

  lemma RequestFollowsPacks(db: Db, r: Request, packs: seq<PackModel>)
    requires FollowsPacks(db, packs)
    ensures FollowsPacks(Handle(db, r), packs)
  {
    var after := Handle(db, r);
    RequestsSpareSystemRoles(db, r);
    hide Handle, SomePackGives, SomePackDeclares;
    forall n | SomePackDeclares(packs, n)
      ensures SystemRoles(after, n) != {}
    {
      var id :| id in SystemRoles(db, n);
      assert IsSystemRole(db, id);
      assert id in SystemRoles(after, n);
    }
  }

  datatype Action = SeedPack(pack: PackModel) | Serve(request: Request)

  function Next(db: Db, action: Action): Db {
    match action
    case SeedPack(pack) => Seed(db, pack)
    case Serve(request) => Handle(db, request)
  }

  function After(db: Db, actions: seq<Action>): Db
    decreases |actions|
  {
    if actions == [] then db else After(Next(db, actions[0]), actions[1..])
  }

  // The packs a run seeds, in order.
  function SeededBy(actions: seq<Action>): seq<PackModel>
    decreases |actions|
  {
    if actions == [] then []
    else (if actions[0].SeedPack? then [actions[0].pack] else []) + SeededBy(actions[1..])
  }

  lemma {:induction false} RunFollowsPacks(db: Db, packs: seq<PackModel>, actions: seq<Action>)
    requires FollowsPacks(db, packs) && AllValid(packs + SeededBy(actions))
    ensures FollowsPacks(After(db, actions), packs + SeededBy(actions))
    ensures After(db, actions).directGrants == db.directGrants
    decreases |actions|
  {
    if actions == [] {
      assert packs + SeededBy(actions) == packs;
    } else {
      var rest := SeededBy(actions[1..]);
      var next := Next(db, actions[0]);
      match actions[0] {
        case SeedPack(pack) =>
          assert packs + SeededBy(actions) == (packs + [pack]) + rest;
          ValidParts(packs, pack, rest);
          SeedingFollowsPacks(db, packs, pack);
          hide FollowsPacks, AllValid, Seed, Handle;
          RunFollowsPacks(next, packs + [pack], actions[1..]);
        case Serve(request) =>
          assert SeededBy(actions) == rest;
          RequestFollowsPacks(db, request, packs);
          assert next.directGrants == db.directGrants by {
            RequestsSpareSystemRoles(db, request);
          }
          hide FollowsPacks, AllValid, Seed, Handle;
          RunFollowsPacks(next, packs, actions[1..]);
      }
    }
  }

  lemma ValidParts(packs: seq<PackModel>, pack: PackModel, rest: seq<PackModel>)
    requires AllValid((packs + [pack]) + rest)
    ensures AllValid(packs) && pack.Valid()
  {
    var all := (packs + [pack]) + rest;
    assert all[|packs|] == pack;
    forall i | 0 <= i < |packs|
      ensures packs[i].Valid()
    {
      assert all[i] == packs[i];
    }
  }

  lemma SystemRowsFollowPacks(db: Db, packs: seq<PackModel>, role: string, codename: string)
    requires FollowsPacks(db, packs) && AllValid(packs)
    ensures |SystemRows(db, role, codename)| == if SomePackGives(packs, role, codename) then 1 else 0
  {
    if SomePackGives(packs, role, codename) {
      GivenIsDeclared(packs, role, codename);
      var id :| id in SystemRoles(db, role);
      SystemRoleIsUnique(db, role, id);
      assert IsSystemRole(db, id);
      assert SystemRows(db, role, codename) == {id};
    } else {
      forall id | id in db.roles && IsSystemNamed(db, id, role)
        ensures (id, codename) !in db.rolePermissions
      {
        assert IsSystemRole(db, id);
      }
      assert SystemRows(db, role, codename) == {};
    }
  }

  lemma AssignedExactly(db: Db, user: UserId, codename: string)
    ensures codename in AssignedPermissions(db, user) <==> |RoleRows(db, user, codename)| > 0
  {
    if RoleRows(db, user, codename) != {} {
      var a :| a in RoleRows(db, user, codename);
      var p := (db.assignments[a].role, codename);
      assert p in db.rolePermissions && RoleRows(db, user, p.1) != {};
    }
  }

  lemma ActiveIsValid(packs: seq<PackModel>, active: PackModel)
    requires AllValid(packs) && active in packs
    ensures active.Valid()
  {
  }

  /** How the gate and the claim compare in every state reached from an empty database by any run of
      seedings, of any packs, role CRUD, permission setting and role assignment, for a user who is
      no admin and has neither an override nor direct grants, asked without a resource. The gate
      raises exactly where two or more of the user's assignments carry the codename, although the
      claim advertises it. Otherwise it allows what the claim lists, and beyond that exactly what
      some other pack that was ever seeded gave the user's role. */
  lemma GateExceedsClaimExactly(actions: seq<Action>, active: PackModel, user: UserId, role: string,
                                rows: seq<string>, codename: string)
    requires AllValid(SeededBy(actions)) && active in SeededBy(actions) && role != ADMIN
    requires forall c :: c in rows <==> c in AssignedPermissions(After(EMPTY, actions), user)
    ensures var db := After(EMPTY, actions);
            var verdict := CheckPermission(db, user, role, codename, None, None);
            var claimed := codename in EffectiveScopes(active, role, Absent, rows);
            && (verdict.Raised? <==> |RoleRows(db, user, codename)| >= 2)
            && (verdict.Raised? ==> claimed)
            && (claimed ==> !verdict.Denied?)
            && (verdict.Allowed? && !claimed <==>
                  && codename !in AssignedPermissions(db, user)
                  && !(&& role in active.rolePermissions && codename in active.permissions
                       && (codename in active.rolePermissions[role] || WILDCARD in active.rolePermissions[role]))
                  && exists other :: other in SeededBy(actions) && other.Gives(role, codename))
  {
    var db, packs := After(EMPTY, actions), SeededBy(actions);
    assert FollowsPacks(EMPTY, []);
    assert [] + packs == packs;
    RunFollowsPacks(EMPTY, [], actions);
    SystemRowsFollowPacks(db, packs, role, codename);
    AssignedExactly(db, user, codename);
    EffectiveScopesShape(active, role, Absent, rows);
    assert GrantRows(db, user, codename, None, None) == {};
    ActiveIsValid(packs, active);
    active.RolesStayWithinVocabulary(role);
    assert SomePackGives(packs, role, codename) <==> exists other :: other in packs && other.Gives(role, codename);
    hide FollowsPacks, AllValid, SomePackGives, SystemRows, RoleRows, GrantRows, AssignedPermissions;
  }

  /** The claim says what the gate grants, as long as only one pack is ever seeded, however often: the
      gate allows exactly the codenames in the user's scopes, unless it raises. */
  lemma ClaimMatchesGate(pack: PackModel, actions: seq<Action>, user: UserId, role: string,
                         rows: seq<string>, codename: string)
    requires pack.Valid() && role != ADMIN && pack in SeededBy(actions)
    requires forall other :: other in SeededBy(actions) ==> other == pack
    requires forall c :: c in rows <==> c in AssignedPermissions(After(EMPTY, actions), user)
    ensures var db := After(EMPTY, actions);
            var verdict := CheckPermission(db, user, role, codename, None, None);
            var claimed := codename in EffectiveScopes(pack, role, Absent, rows);
            && (verdict.Raised? <==> |RoleRows(db, user, codename)| >= 2)
            && (!verdict.Raised? ==> (verdict.Allowed? <==> claimed))
            && (verdict.Raised? ==> claimed)
  {
    var packs := SeededBy(actions);
    assert forall i :: 0 <= i < |packs| ==> packs[i] in packs;
    GateExceedsClaimExactly(actions, pack, user, role, rows, codename);
    hide CheckPermission, EffectiveScopes, AssignedPermissions, RoleRows;
  }

  /** Assigning one role twice is all it takes: from then on the gate raises for that user and
      every permission of the role. */
  lemma AssigningTwiceRaises(db: Db, user: UserId, userRole: string, role: RoleId, codename: string)
    requires Consistent(db) && userRole != ADMIN
    requires (role, codename) in db.rolePermissions
    ensures var request := AssignRole(user, true, role);
            var twice := Handle(Handle(db, request), request);
            CheckPermission(twice, user, userRole, codename, None, None) == Raised
  {
    var request := AssignRole(user, true, role);
    var twice := Handle(Handle(db, request), request);
    var rows := {db.nextAssignment, db.nextAssignment + 1};
    assert rows <= RoleRows(twice, user, codename);
    SubsetCardinality(rows, RoleRows(twice, user, codename));
  }
}
