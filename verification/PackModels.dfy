/** The per-pack RBAC contract (pack_models/base.py). */
module PackModels {
  const WILDCARD := "*"

  datatype PackModel = PackModel(
    roles: seq<string>, permissions: seq<string>, rolePermissions: map<string, seq<string>>)
  {
    // The validator: every role mapped is declared, and so is every permission it lists
    // unless it lists the wildcard.
    predicate Valid() {
      forall role :: role in rolePermissions ==>
        && role in roles
        && (WILDCARD in rolePermissions[role] || forall p :: p in rolePermissions[role] ==> p in permissions)
    }

    function PermissionsForRole(role: string): seq<string> {
      if role !in rolePermissions then []
      else if WILDCARD in rolePermissions[role] then permissions
      else rolePermissions[role]
    }

    // What the pack's own map says: the role lists the permission, or lists the wildcard, which
    // stands for all of the pack's vocabulary.
    predicate Gives(role: string, permission: string) {
      && role in rolePermissions && permission in permissions
      && (permission in rolePermissions[role] || WILDCARD in rolePermissions[role])
    }

    /** A valid pack grants a role exactly what its map lists for it, in the order listed, or its whole
        vocabulary where the map lists the wildcard; a role it does not map gets nothing. Nothing
        granted is outside the vocabulary, or for a role the pack does not declare. */
    lemma RolesStayWithinVocabulary(role: string)
      requires Valid()
      ensures forall p :: p in PermissionsForRole(role) <==>
                          && role in rolePermissions && p in permissions
                          && (p in rolePermissions[role] || WILDCARD in rolePermissions[role])
      ensures forall p :: p in PermissionsForRole(role) <==> Gives(role, p)
      ensures role in rolePermissions && WILDCARD !in rolePermissions[role] ==>
                PermissionsForRole(role) == rolePermissions[role]
      ensures role in rolePermissions && WILDCARD in rolePermissions[role] ==> PermissionsForRole(role) == permissions
      ensures role in rolePermissions ==> role in roles
      ensures WILDCARD !in permissions ==> WILDCARD !in PermissionsForRole(role)
    {
    }
  }
}
