/**
 * 20261030090000: `housekeeping.operate` is granted to the housekeeping
 * staff roles and `housekeeping.manage` taken from the housekeeping role;
 * `down` gives it back.
 */
module HousekeepingPermission {
  import opened Tables
  import opened Rbac

  const OPERATE := "housekeeping.operate"
  const MANAGE := "housekeeping.manage"
  const OPERATE_ROLE_CODES: set<string> := {"housekeeping", "manager", "admin", "super_admin"}
  const HOUSEKEEPING: set<string> := {"housekeeping"}

  function Revoked(grants: set<(Id, Id)>, roles: set<Id>, permission: Id): set<(Id, Id)> {
    set g | g in grants && !(g.0 in roles && g.1 == permission)
  }

  function Upped(db: Db): Db {
    var seeded := db.WithPermission(OPERATE);
    var granted := Granted(db.grants, db.RolesCoded(OPERATE_ROLE_CODES), seeded.permissions[OPERATE]);
    var narrowed :=
      if MANAGE in db.permissions then Revoked(granted, db.RolesCoded(HOUSEKEEPING), db.permissions[MANAGE])
      else granted;
    seeded.(grants := narrowed)
  }

  function Downed(db: Db): Db {
    var granted :=
      if MANAGE in db.permissions then Granted(db.grants, db.RolesCoded(HOUSEKEEPING), db.permissions[MANAGE])
      else db.grants;
    db.(permissions := db.permissions - {OPERATE},
        grants := set g | g in granted && !(OPERATE in db.permissions && g.1 == db.permissions[OPERATE]))
  }

  class Seed {
    var db: Db

    method Up()
      modifies this
      ensures db == Upped(old(db))
    {
      db := db.WithPermission(OPERATE);
      db := Grant(db, db.RolesCoded(OPERATE_ROLE_CODES), db.permissions[OPERATE]);
      if MANAGE in db.permissions {
        db := db.(grants := Revoked(db.grants, db.RolesCoded(HOUSEKEEPING), db.permissions[MANAGE]));
      }
    }

    method Down()
      modifies this
      ensures db == Downed(old(db))
    {
      if MANAGE in db.permissions {
        db := Grant(db, db.RolesCoded(HOUSEKEEPING), db.permissions[MANAGE]);
      }
      if OPERATE in db.permissions {
        db := db.(grants := set g | g in db.grants && g.1 != db.permissions[OPERATE]);
      }
      db := db.(permissions := db.permissions - {OPERATE});
    }
  }

  /** The roles hold the permission, if there is one of this key. */
  ghost predicate AllHold(db: Db, roles: set<Id>, key: string) {
    key in db.permissions ==> forall r :: r in roles ==> (r, db.permissions[key]) in db.grants
  }

  ghost predicate NoneHold(db: Db, key: string) {
    key in db.permissions ==> forall g :: g in db.grants ==> g.1 != db.permissions[key]
  }

  lemma KeysDiffer()
    ensures OPERATE != MANAGE
  {
  }

  lemma UpKeepsKeys(db: Db)
    requires db.Valid()
    ensures Upped(db).Valid()
  {
    db.WithPermissionKeepsKeys(OPERATE);
    var seeded := db.WithPermission(OPERATE);
    assert seeded.permissions[OPERATE] in seeded.permissions.Values;
  }

  lemma DownKeepsKeys(db: Db)
    requires db.Valid()
    ensures Downed(db).Valid()
  {
    KeysDiffer();
    var now := Downed(db);
    forall g | g in now.grants ensures g.1 in now.permissions.Values {
      if MANAGE in db.permissions && g.1 == db.permissions[MANAGE] {
        assert MANAGE in now.permissions;
      } else {
        var k :| k in db.permissions && db.permissions[k] == g.1;
        assert k in now.permissions;
      }
    }
  }

  /**
   * What the upgrade is for: those roles hold `operate`, housekeeping no
   * longer holds `manage`, everyone else keeps what they had.
   */
  lemma UpNarrows(db: Db, r: Id, p: Id)
    requires db.Valid() && r in db.roles && p < db.nextPermission
    ensures var now := Upped(db);
      && OPERATE in now.permissions && AllHold(now, db.RolesCoded(OPERATE_ROLE_CODES), OPERATE)
      && (MANAGE in db.permissions ==>
            forall h :: h in db.RolesCoded(HOUSEKEEPING) ==> (h, db.permissions[MANAGE]) !in now.grants)
      && (!(MANAGE in db.permissions && p == db.permissions[MANAGE] && r in db.RolesCoded(HOUSEKEEPING))
          && !(p == now.permissions[OPERATE] && r in db.RolesCoded(OPERATE_ROLE_CODES)) ==>
            ((r, p) in now.grants <==> (r, p) in db.grants))
  {
  }

  /**
   * The round trip gives back the grants exactly when nobody held `operate`
   * and every housekeeping role held `manage`.
   */
  lemma RoundTripGrants(db: Db)
    requires db.Valid()
    ensures Downed(Upped(db)).grants == db.grants <==>
      NoneHold(db, OPERATE) && AllHold(db, db.RolesCoded(HOUSEKEEPING), MANAGE)
  {
  }

  /**
   * The whole of both tables comes back exactly when `operate` was not
   * catalogued and every housekeeping role held `manage`.
   */
  lemma RoundTrip(db: Db)
    requires db.Valid()
    ensures Downed(Upped(db)).(nextPermission := db.nextPermission) == db <==>
            OPERATE !in db.permissions && AllHold(db, db.RolesCoded(HOUSEKEEPING), MANAGE)
  {
  }

  /**
   * With any roles and grants added since, `down` leaves every housekeeping
   * role holding `manage` and nobody holding `operate`.
   */
  lemma DownAfterSignUps(db: Db)
    requires db.Valid()
    ensures var now := Downed(db);
      && OPERATE !in now.permissions && (MANAGE in now.permissions <==> MANAGE in db.permissions)
      && AllHold(now, now.RolesCoded(HOUSEKEEPING), MANAGE)
      && (OPERATE in db.permissions ==> forall g :: g in now.grants ==> g.1 != db.permissions[OPERATE])
  {
  }

  // ----- the whole, by the key and code columns -----

  /** `up`: one key is catalogued; its grants go to four roles, and one grant leaves one role. */
  lemma UpExactly(db: Db)
    requires db.Valid()
    ensures var now := Upped(db);
      && now.tenants == db.tenants && now.roles == db.roles
      && "housekeeping.operate" in now.permissions
      && now.permissions - {"housekeeping.operate"} == db.permissions - {"housekeeping.operate"}
      && ("housekeeping.operate" in db.permissions ==>
            now.permissions["housekeeping.operate"] == db.permissions["housekeeping.operate"])
      && forall r: Id, p: Id :: (r, p) in now.grants <==>
           || ((r, p) in db.grants
               && !("housekeeping.manage" in db.permissions && p == db.permissions["housekeeping.manage"]
                    && r in db.roles && db.roles[r].code == "housekeeping"))
           || (p == now.permissions["housekeeping.operate"] && r in db.roles
               && db.roles[r].code in {"housekeeping", "manager", "admin", "super_admin"})
  {
    KeysDiffer();
  }

  /** `down`: the one grant returns, the key goes with its grants. */
  lemma DownExactly(db: Db)
    requires db.Valid()
    ensures var now := Downed(db);
      && now.tenants == db.tenants && now.roles == db.roles
      && now.permissions == db.permissions - {"housekeeping.operate"}
      && forall r: Id, p: Id :: (r, p) in now.grants <==>
           && ((r, p) in db.grants
               || ("housekeeping.manage" in db.permissions && p == db.permissions["housekeeping.manage"]
                   && r in db.roles && db.roles[r].code == "housekeeping"))
           && !("housekeeping.operate" in db.permissions && p == db.permissions["housekeeping.operate"])
  {
    KeysDiffer();
  }
}
