/** The role tables the permission seeds work on. */
module Rbac {
  import opened Tables

  datatype TenantStatus = Running | Offboarding | Purging | Purged

  datatype Role = Role(tenant: Id, code: string)

  /**
   * A grant is a row (role, permission); the tenant column repeats the role's.
   * Of property access, invitations and notification rules only the code of
   * the role each row names matters here.
   */
  datatype Db = Db(
    permissions: map<string, Id>, nextPermission: Id, tenants: map<Id, TenantStatus>,
    roles: map<Id, Role>, nextRole: Id, grants: set<(Id, Id)>,
    access: seq<string>, invitations: seq<string>, rules: seq<string>)
  {
    /** Keys and foreign keys: ids come from counters, permission ids are unique, grants refer to existing rows. */
    ghost predicate Valid() {
      && (forall k :: k in permissions ==> permissions[k] < nextPermission)
      && (forall k, l :: k in permissions && l in permissions && permissions[k] == permissions[l] ==> k == l)
      && (forall r :: r in roles ==> r < nextRole && roles[r].tenant in tenants)
      && (forall g :: g in grants ==> g.0 in roles && g.1 in permissions.Values)
    }

    /** Catalogue a permission unless it is there. */
    function WithPermission(key: string): Db {
      if key in permissions then this
      else this.(permissions := permissions[key := nextPermission], nextPermission := nextPermission + 1)
    }

    lemma WithPermissionKeepsKeys(key: string)
      requires Valid()
      ensures WithPermission(key).Valid()
    {
      var now := WithPermission(key);
      forall g | g in grants ensures g.1 in now.permissions.Values {
        var k :| k in permissions && permissions[k] == g.1;
        assert k in now.permissions && now.permissions[k] == g.1;
      }
    }

    function RolesCoded(codes: set<string>): set<Id> {
      set r | r in roles && roles[r].code in codes
    }
  }

  /** The rows a check-first grant leaves: every role of the list holds the permission. */
  function Granted(grants: set<(Id, Id)>, roles: set<Id>, permission: Id): set<(Id, Id)> {
    grants + set r | r in roles :: (r, permission)
  }

  /** Insert the grants a list of roles does not have yet, one row a role. */
  method Grant(db: Db, roles: set<Id>, permission: Id) returns (now: Db)
    ensures now == db.(grants := Granted(db.grants, roles, permission))
  {
    if roles == {} {
      assert Granted(db.grants, roles, permission) == db.grants;
      return db;
    }
    var already := set g | g in db.grants && g.0 in roles && g.1 == permission :: g.0;
    var rows := set r | r in roles && r !in already :: (r, permission);
    assert db.grants + rows == Granted(db.grants, roles, permission);
    now := db.(grants := db.grants + rows);
  }
}
