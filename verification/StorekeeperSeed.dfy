/**
 * 20261109090000: the stock-transfer permission, the storekeeper role of
 * every tenant not deleted, and their grants. Four statements, each checking
 * first what is already there, so that a run cut short can be run again.
 */
module StorekeeperSeed {
  import opened Tables
  import opened Rbac

  const TRANSFER := "pos.stock_transfer"
  const STOCK_VIEW := "pos.stock_view"
  const STOREKEEPER := "storekeeper"
  const TRANSFER_ROLE_CODES: set<string> := {"manager", "admin", "super_admin", "storekeeper"}
  const STEPS := 4

  function LiveTenants(db: Db): set<Id> {
    set t | t in db.tenants && !db.tenants[t].Purging? && !db.tenants[t].Purged?
  }

  function Missing(db: Db): set<Id> {
    set t | t in LiveTenants(db) && forall r :: r in db.roles ==> db.roles[r] != Role(t, STOREKEEPER)
  }

  function LiveRoles(db: Db, codes: set<string>): set<Id> {
    set r | r in db.roles && db.roles[r].tenant in LiveTenants(db) && db.roles[r].code in codes
  }

  /** One multi-row insert: a storekeeper role for each of these tenants. */
  function AddRoles(roles: map<Id, Role>, next: Id, tenants: seq<Id>): map<Id, Role> {
    if tenants == [] then roles
    else AddRoles(roles, next, tenants[..|tenants| - 1])[next
      + |tenants| - 1 := Role(tenants[|tenants| - 1], STOREKEEPER)]
  }

  function WithRoles(db: Db): Db {
    var tenants := SortedIds(Missing(db));
    db.(roles := AddRoles(db.roles, db.nextRole, tenants), nextRole := db.nextRole + |tenants|)
  }

  function WithGrant(db: Db, codes: set<string>, key: string): Db {
    if key in db.permissions then db.(grants := Granted(db.grants, LiveRoles(db, codes), db.permissions[key])) else db
  }

  /** The effect of statement i. */
  function Step(db: Db, i: nat): Db {
    match i
    case 0 => db.WithPermission(TRANSFER)
    case 1 => WithRoles(db)
    case 2 => WithGrant(db, TRANSFER_ROLE_CODES, TRANSFER)
    case _ => WithGrant(db, {STOREKEEPER}, STOCK_VIEW)
  }

  /** The first n statements. */
  function UpTo(db: Db, n: nat): Db {
    if n == 0 then db else Step(UpTo(db, n - 1), n - 1)
  }

  /** `SELECT count(*) ... WHERE role = code`. */
  function Naming(rows: seq<string>, code: string): nat {
    if rows == [] then 0 else Naming(rows[..|rows| - 1], code) + if rows[|rows| - 1] == code then 1 else 0
  }

  /** `DELETE ... WHERE role = code`. */
  function Without(rows: seq<string>, code: string): seq<string> {
    if rows == [] then []
    else
      var last := rows[|rows| - 1];
      Without(rows[..|rows| - 1], code) + if last == code then [] else [last]
  }

  function Downed(db: Db): Db {
    var roles := set r | r in db.roles && db.roles[r].code == STOREKEEPER;
    db.(permissions := db.permissions - {TRANSFER},
        rules := Without(db.rules, STOREKEEPER),
        roles := db.roles - roles,
        grants := set g | g in db.grants && g.0 !in roles
          && !(TRANSFER in db.permissions && g.1 == db.permissions[TRANSFER]))
  }

  class Seed {
    var db: Db

    /** `up`, cut off before its statement number `stop`. */
    method Up(stop: nat)
      requires stop <= STEPS
      modifies this
      ensures db == UpTo(old(db), stop)
      ensures stop == STEPS && old(db).Valid() ==> SeededFrom(old(db), db)
    {
      hide UpTo, WithRoles, WithGrant, LiveRoles, SeededFrom;
      UpToSteps(db);
      ghost var db0 := db;
      if stop >= 1 && TRANSFER !in db.permissions {
        db := db.WithPermission(TRANSFER);
      }
      assert stop >= 1 ==> db == UpTo(db0, 1);
      if stop >= 2 {
        db := WithRoles(db);
      }
      if stop >= 3 {
        TransferCatalogued(db0);
        db := Grant(db, LiveRoles(db, TRANSFER_ROLE_CODES), db.permissions[TRANSFER]);
        GrantIsStep(UpTo(db0, 2), TRANSFER_ROLE_CODES, TRANSFER);
      }
      if stop >= 4 {
        if STOCK_VIEW in db.permissions {
          db := Grant(db, LiveRoles(db, {STOREKEEPER}), db.permissions[STOCK_VIEW]);
        }
        GrantIsStep(UpTo(db0, 3), {STOREKEEPER}, STOCK_VIEW);
      }
      if stop == STEPS && db0.Valid() {
        UpExactly(db0);
      }
    }

    /** `down` refuses while any user or invitation names the role. */
    method Down() returns (ok: bool)
      modifies this
      ensures ok <==> STOREKEEPER !in old(db).access && STOREKEEPER !in old(db).invitations
      ensures db == if ok then Downed(old(db)) else old(db)
    {
      NamedExactly(db.access, STOREKEEPER);
      NamedExactly(db.invitations, STOREKEEPER);
      var holders, invites := Naming(db.access, STOREKEEPER), Naming(db.invitations, STOREKEEPER);
      if holders > 0 || invites > 0 {
        return false;
      }
      db := Downed(db);
      return true;
    }
  }

  lemma {:induction false} NamedExactly(rows: seq<string>, code: string)
    ensures Naming(rows, code) == 0 <==> code !in rows
  {
    if rows != [] {
      NamedExactly(rows[..|rows| - 1], code);
      assert rows == rows[..|rows| - 1] + [rows[|rows| - 1]];
    }
  }

  /** The delete takes exactly the rows of that role, and so none exactly if there is none. */
  lemma {:induction false} WithoutExactly(rows: seq<string>, code: string)
    ensures forall r :: r in Without(rows, code) <==> r in rows && r != code
    ensures |Without(rows, code)| <= |rows|
    ensures Without(rows, code) == rows <==> code !in rows
  {
    if rows != [] {
      WithoutExactly(rows[..|rows| - 1], code);
      assert rows == rows[..|rows| - 1] + [rows[|rows| - 1]];
    }
  }

  lemma UpToSteps(db: Db)
    ensures UpTo(db, 0) == db
    ensures forall n: nat :: UpTo(db, n + 1) == Step(UpTo(db, n), n)
  {
  }

  lemma TransferCatalogued(db: Db)
    ensures TRANSFER in UpTo(db, 2).permissions
  {
  }

  lemma GrantIsStep(db: Db, codes: set<string>, key: string)
    ensures key in db.permissions ==>
      WithGrant(db, codes, key) == db.(grants := Granted(db.grants, LiveRoles(db, codes), db.permissions[key]))
    ensures key !in db.permissions ==> WithGrant(db, codes, key) == db
  {
  }

  // ----- resuming -----

  lemma {:induction false} AddRolesFacts(roles: map<Id, Role>, next: Id, tenants: seq<Id>)
    requires forall r :: r in roles ==> r < next
    ensures forall r :: r in AddRoles(roles, next, tenants) <==> r in roles || next <= r < next + |tenants|
    ensures forall r :: r in roles ==> AddRoles(roles, next, tenants)[r] == roles[r]
    ensures forall i :: 0 <= i < |tenants| ==> AddRoles(roles, next, tenants)[next + i] == Role(tenants[i], STOREKEEPER)
  {
    if tenants != [] {
      AddRolesFacts(roles, next, tenants[..|tenants| - 1]);
    }
  }

  /** After the role insert no live tenant lacks the role, and only live tenants got one. */
  lemma WithRolesFacts(db: Db)
    requires db.Valid()
    ensures var now := WithRoles(db);
      && now.Valid() && Missing(now) == {}
      && (forall r :: r in db.roles ==> r in now.roles && now.roles[r] == db.roles[r])
      && (forall r :: r in now.roles && r !in db.roles ==>
            now.roles[r].tenant in LiveTenants(db) && now.roles[r].code == STOREKEEPER)
  {
    var tenants, now := SortedIds(Missing(db)), WithRoles(db);
    SortedIdsFacts(Missing(db));
    AddRolesFacts(db.roles, db.nextRole, tenants);
    forall r | r in now.roles && r !in db.roles
      ensures now.roles[r].tenant in LiveTenants(db) && now.roles[r].code == STOREKEEPER && r < now.nextRole
    {
      var i := r - db.nextRole;
      assert now.roles[db.nextRole + i] == Role(tenants[i], STOREKEEPER);
      assert tenants[i] in Missing(db);
    }
    forall t | t in LiveTenants(db) ensures exists r :: r in now.roles && now.roles[r] == Role(t, STOREKEEPER) {
      if t in Missing(db) {
        var i :| 0 <= i < |tenants| && tenants[i] == t;
        assert now.roles[db.nextRole + i] == Role(t, STOREKEEPER);
      } else {
        var r :| r in db.roles && db.roles[r] == Role(t, STOREKEEPER);
        assert now.roles[r] == db.roles[r];
      }
    }
  }

  /** What a statement leaves needs no doing again, and the statements after it leave it so. */
  ghost predicate Done(db: Db, i: nat) {
    match i
    case 0 => TRANSFER in db.permissions
    case 1 => Missing(db) == {}
    case 2 => TRANSFER in db.permissions && forall r :: r in LiveRoles(db, TRANSFER_ROLE_CODES) ==>
      (r, db.permissions[TRANSFER]) in db.grants
    case _ => STOCK_VIEW in db.permissions ==> forall r :: r in LiveRoles(db, {STOREKEEPER}) ==>
      (r, db.permissions[STOCK_VIEW]) in db.grants
  }

  lemma StepDone(db: Db, i: nat)
    requires db.Valid() && i < STEPS && (i == 2 ==> TRANSFER in db.permissions)
    ensures Step(db, i).Valid() && Done(Step(db, i), i)
    ensures forall j: nat :: j < i && Done(db, j) ==> Done(Step(db, i), j)
  {
    if i == 0 {
      db.WithPermissionKeepsKeys(TRANSFER);
    } else if i == 1 {
      WithRolesFacts(db);
    } else {
      GrantKeepsRoles(db, if i == 2 then TRANSFER_ROLE_CODES else {STOREKEEPER},
                      if i == 2 then TRANSFER else STOCK_VIEW);
    }
  }

  lemma GrantKeepsRoles(db: Db, codes: set<string>, key: string)
    requires db.Valid()
    ensures var now := WithGrant(db, codes, key);
      && now.Valid() && now == db.(grants := now.grants) && db.grants <= now.grants
      && LiveTenants(now) == LiveTenants(db) && Missing(now) == Missing(db)
      && forall c :: LiveRoles(now, c) == LiveRoles(db, c)
  {
  }

  lemma DoneIsNoOp(db: Db, i: nat)
    requires db.Valid() && i < STEPS && Done(db, i)
    ensures Step(db, i) == db
  {
  }

  lemma {:induction false} UpToDone(db: Db, n: nat)
    requires db.Valid() && n <= STEPS
    ensures UpTo(db, n).Valid() && forall i: nat :: i < n ==> Done(UpTo(db, n), i)
  {
    hide Done, Step;
    if n > 0 {
      UpToDone(db, n - 1);
      assert n - 1 == 2 ==> Done(UpTo(db, n - 1), 0);
      DoneTransfer(UpTo(db, n - 1));
      StepDone(UpTo(db, n - 1), n - 1);
    }
  }

  lemma DoneTransfer(db: Db)
    ensures Done(db, 0) ==> TRANSFER in db.permissions
  {
  }

  lemma {:induction false} DoneStepsSkip(db: Db, n: nat)
    requires db.Valid() && n <= STEPS && forall i: nat :: i < n ==> Done(db, i)
    ensures UpTo(db, n) == db
  {
    hide Done, Step;
    if n > 0 {
      DoneStepsSkip(db, n - 1);
      DoneIsNoOp(db, n - 1);
    }
  }

  /** From any point between two statements, running `up` again reaches what one uninterrupted run reaches. */
  lemma {:induction false} ResumesAnywhere(db: Db, n: nat, m: nat)
    requires db.Valid() && n <= m <= STEPS
    ensures UpTo(UpTo(db, n), m) == UpTo(db, m)
    decreases m
  {
    hide Done, Step;
    if m == n {
      UpToDone(db, n);
      DoneStepsSkip(UpTo(db, n), n);
    } else {
      ResumesAnywhere(db, n, m - 1);
    }
  }

  /** Running it twice is running it once. */
  lemma UpTwice(db: Db)
    requires db.Valid()
    ensures UpTo(UpTo(db, STEPS), STEPS) == UpTo(db, STEPS)
  {
    ResumesAnywhere(db, STEPS, STEPS);
  }

  /** Every live tenant ends with a storekeeper who may transfer and view stock, and its managers may transfer. */
  lemma UpGrants(db: Db, t: Id)
    requires db.Valid() && t in LiveTenants(db)
    ensures var now := UpTo(db, STEPS);
      && TRANSFER in now.permissions && LiveTenants(now) == LiveTenants(db)
      && (exists r :: r in now.roles && now.roles[r] == Role(t, STOREKEEPER))
      && (forall r :: r in now.roles && now.roles[r].tenant == t && now.roles[r].code in TRANSFER_ROLE_CODES ==>
            (r, now.permissions[TRANSFER]) in now.grants)
      && (forall r :: r in now.roles && now.roles[r] == Role(t, STOREKEEPER) && STOCK_VIEW in now.permissions ==>
            (r, now.permissions[STOCK_VIEW]) in now.grants)
  {
    hide Step;
    var now := UpTo(db, STEPS);
    UpToDone(db, STEPS);
    assert Done(now, 0) && Done(now, 1) && Done(now, 2) && Done(now, 3);
    UpTouches(db, STEPS);
    assert t !in Missing(now);
  }

  /** Only rows for live tenants are added, and only what this seed is for; nothing is taken away. */
  ghost predicate Touches(db: Db, now: Db) {
    && now.tenants == db.tenants && now.access == db.access && now.invitations == db.invitations
         && now.rules == db.rules
    && (forall k :: k in db.permissions ==> k in now.permissions && now.permissions[k] == db.permissions[k])
    && (forall k :: k in now.permissions && k !in db.permissions ==> k == TRANSFER)
    && (forall r :: r in db.roles ==> r in now.roles && now.roles[r] == db.roles[r])
    && (forall r :: r in now.roles && r !in db.roles ==>
          now.roles[r].tenant in LiveTenants(db) && now.roles[r].code == STOREKEEPER)
    && db.grants <= now.grants
    && (forall g :: g in now.grants && g !in db.grants ==>
          && g.0 in now.roles && now.roles[g.0].tenant in LiveTenants(db)
          && (now.roles[g.0].code == STOREKEEPER || (TRANSFER in now.permissions && g.1 == now.permissions[TRANSFER])))
  }

  lemma TouchesMore(db: Db, last: Db, i: nat)
    requires Touches(db, last) && last.Valid() && i < STEPS && (i == 2 ==> TRANSFER in last.permissions)
    ensures Touches(db, Step(last, i))
  {
    assert LiveTenants(last) == LiveTenants(db);
    if i == 1 {
      RolesTouch(db, last);
    } else if i > 1 {
      GrantTouches(db, last, if i == 2 then TRANSFER_ROLE_CODES else {STOREKEEPER},
                   if i == 2 then TRANSFER else STOCK_VIEW);
    }
  }

  lemma RolesTouch(db: Db, last: Db)
    requires Touches(db, last) && last.Valid() && LiveTenants(last) == LiveTenants(db)
    ensures Touches(db, WithRoles(last))
  {
    hide LiveTenants, Missing, AddRoles;
    WithRolesFacts(last);
  }

  lemma GrantTouches(db: Db, last: Db, codes: set<string>, key: string)
    requires Touches(db, last) && last.Valid() && LiveTenants(last) == LiveTenants(db)
    requires key == TRANSFER || codes == {STOREKEEPER}
    ensures Touches(db, WithGrant(last, codes, key))
  {
  }

  /** Whatever rows are added, none is for a tenant being deleted or deleted. */
  lemma {:induction false} UpTouches(db: Db, n: nat)
    requires db.Valid() && n <= STEPS
    ensures Touches(db, UpTo(db, n))
  {
    hide Done, Step, Touches;
    if n > 0 {
      var last := UpTo(db, n - 1);
      UpTouches(db, n - 1);
      UpToDone(db, n - 1);
      DoneTransfer(last);
      assert n - 1 == 2 ==> Done(last, 0);
      TouchesMore(db, last, n - 1);
    } else {
      TouchesItself(db);
    }
  }

  lemma TouchesItself(db: Db)
    ensures Touches(db, db)
  {
  }

  /** `down` after `up` gives the tables back exactly when nothing named the role or the key before. */
  lemma DownAfterUp(db: Db)
    requires db.Valid()
    ensures Downed(UpTo(db, STEPS)).(nextPermission := db.nextPermission, nextRole := db.nextRole) == db <==>
            TRANSFER !in db.permissions && STOREKEEPER !in db.rules && forall r :: r in db.roles ==>
              db.roles[r].code != STOREKEEPER
  {
    hide UpTo, Touches, Downed;
    var up := UpTo(db, STEPS);
    UpTouches(db, STEPS);
    UpToDone(db, STEPS);
    DownRemoves(up);
    OthersStay(db, up);
    if TRANSFER !in db.permissions && forall r :: r in db.roles ==> db.roles[r].code != STOREKEEPER {
      TablesBack(db, up);
      GrantsGone(db, up);
    }
  }

  lemma OthersStay(db: Db, up: Db)
    requires Touches(db, up)
    ensures Downed(up).access == db.access && Downed(up).invitations == db.invitations
    ensures Downed(up).rules == db.rules <==> STOREKEEPER !in db.rules
  {
    WithoutExactly(db.rules, STOREKEEPER);
  }

  lemma DownRemoves(db: Db)
    ensures TRANSFER !in Downed(db).permissions
    ensures forall r :: r in Downed(db).roles ==> Downed(db).roles[r].code != STOREKEEPER
  {
  }

  lemma TablesBack(db: Db, up: Db)
    requires Touches(db, up) && TRANSFER !in db.permissions
    requires forall r :: r in db.roles ==> db.roles[r].code != STOREKEEPER
    ensures Downed(up).tenants == db.tenants && Downed(up).permissions == db.permissions
    ensures Downed(up).roles == db.roles
  {
  }

  lemma GrantsGone(db: Db, up: Db)
    requires db.Valid() && up.Valid() && Touches(db, up) && TRANSFER !in db.permissions
    requires forall r :: r in db.roles ==> db.roles[r].code != STOREKEEPER
    ensures Downed(up).grants == db.grants
  {
  }

  // ----- the whole, by the status and code columns -----

  /** A tenant neither being deleted nor deleted. */
  ghost predicate NotDeleted(db: Db, tenant: Id) {
    tenant in db.tenants && (db.tenants[tenant] == Running || db.tenants[tenant] == Offboarding)
  }

  /** The roles: those there were, and one for each such tenant that had none. */
  ghost predicate RolesSeeded(db: Db, now: Db) {
    && (forall r :: r in db.roles ==> r in now.roles && now.roles[r] == db.roles[r])
    && (forall r :: r in now.roles && r !in db.roles ==>
          now.roles[r].code == "storekeeper" && NotDeleted(db, now.roles[r].tenant))
    && (forall r, q :: r in now.roles && r !in db.roles && q in now.roles && now.roles[q] == now.roles[r] ==> q == r)
    && (forall t :: NotDeleted(db, t) ==> exists r :: r in now.roles && now.roles[r] == Role(t, "storekeeper"))
  }

  /** A grant the seed makes to a role of such a tenant. */
  ghost predicate Owed(db: Db, r: Id, p: Id) {
    && r in db.roles && NotDeleted(db, db.roles[r].tenant)
    && (|| ("pos.stock_transfer" in db.permissions && p == db.permissions["pos.stock_transfer"]
            && db.roles[r].code in {"manager", "admin", "super_admin", "storekeeper"})
        || ("pos.stock_view" in db.permissions && p == db.permissions["pos.stock_view"]
            && db.roles[r].code == "storekeeper"))
  }

  /** What the seed owes the tables, from the statuses, codes and keys alone. */
  ghost predicate SeededFrom(db: Db, now: Db) {
    && now.tenants == db.tenants && now.access == db.access && now.invitations == db.invitations
         && now.rules == db.rules
    && "pos.stock_transfer" in now.permissions
    && now.permissions - {"pos.stock_transfer"} == db.permissions - {"pos.stock_transfer"}
    && ("pos.stock_transfer" in db.permissions ==>
          now.permissions["pos.stock_transfer"] == db.permissions["pos.stock_transfer"])
    && RolesSeeded(db, now)
    && (forall r: Id, p: Id :: (r, p) in now.grants <==> (r, p) in db.grants || Owed(now, r, p))
  }

  lemma LiveExactly(db: Db, tenant: Id)
    ensures tenant in LiveTenants(db) <==> NotDeleted(db, tenant)
  {
  }

  /** One new role a tenant, and none for a tenant that has one. */
  lemma OneRoleEach(db: Db, r: Id, q: Id)
    requires db.Valid() && r in WithRoles(db).roles && r !in db.roles && q in WithRoles(db).roles
    requires WithRoles(db).roles[q] == WithRoles(db).roles[r]
    ensures q == r
  {
    var tenants, now := SortedIds(Missing(db)), WithRoles(db);
    SortedIdsFacts(Missing(db));
    AddRolesFacts(db.roles, db.nextRole, tenants);
    var i := r - db.nextRole;
    assert now.roles[db.nextRole + i] == Role(tenants[i], STOREKEEPER) && tenants[i] in Missing(db);
    if q !in db.roles {
      var j := q - db.nextRole;
      assert now.roles[db.nextRole + j] == Role(tenants[j], STOREKEEPER);
    }
  }

  /** What the two grant statements leave. */
  lemma GrantedExactly(db: Db, r: Id, p: Id)
    requires TRANSFER in db.permissions
    ensures var now := WithGrant(WithGrant(db, TRANSFER_ROLE_CODES, TRANSFER), {STOREKEEPER}, STOCK_VIEW);
      (r, p) in now.grants <==> (r, p) in db.grants || Owed(db, r, p)
  {
    if r in db.roles {
      LiveExactly(db, db.roles[r].tenant);
    }
  }

  lemma StaffedExactly(db: Db)
    requires db.Valid()
    ensures RolesSeeded(db, WithRoles(db))
  {
    hide WithRoles, Missing, NotDeleted, LiveTenants;
    var now := WithRoles(db);
    WithRolesFacts(db);
    WithRolesOnly(db);
    forall t ensures t in LiveTenants(db) <==> NotDeleted(db, t) {
      LiveExactly(db, t);
    }
    forall t | NotDeleted(db, t) ensures exists r :: r in now.roles && now.roles[r] == Role(t, "storekeeper") {
      NoneMissing(db, now, t);
    }
    forall r, q | r in now.roles && r !in db.roles && q in now.roles && now.roles[q] == now.roles[r] ensures q == r {
      OneRoleEach(db, r, q);
    }
  }

  /** The seed does exactly what it owes. */
  lemma UpExactly(db: Db)
    requires db.Valid()
    ensures SeededFrom(db, UpTo(db, STEPS))
  {
    hide WithRoles, WithGrant, Owed, NotDeleted;
    var catalogued := db.WithPermission(TRANSFER);
    var staffed := WithRoles(catalogued);
    StepsInOrder(db);
    db.WithPermissionKeepsKeys(TRANSFER);
    StaffedExactly(catalogued);
    WithRolesOnly(catalogued);
    GrantsOnly(staffed);
    SameRolesSeeded(db, catalogued, staffed, UpTo(db, STEPS));
    forall r: Id, p: Id
      ensures (r, p) in UpTo(db, STEPS).grants <==> (r, p) in db.grants || Owed(UpTo(db, STEPS), r, p)
    {
      GrantedExactly(staffed, r, p);
      SameOwed(staffed, UpTo(db, STEPS), r, p);
    }
  }

  lemma SameRolesSeeded(db: Db, catalogued: Db, staffed: Db, now: Db)
    requires RolesSeeded(catalogued, staffed) && catalogued.roles == db.roles && catalogued.tenants == db.tenants
    requires now.roles == staffed.roles
    ensures RolesSeeded(db, now)
  {
    assert forall t :: NotDeleted(db, t) <==> NotDeleted(catalogued, t);
  }

  lemma SameOwed(db: Db, now: Db, r: Id, p: Id)
    requires now.roles == db.roles && now.tenants == db.tenants && now.permissions == db.permissions
    ensures Owed(now, r, p) <==> Owed(db, r, p)
  {
  }

  lemma StepsInOrder(db: Db)
    ensures UpTo(db, STEPS) ==
      WithGrant(WithGrant(WithRoles(db.WithPermission(TRANSFER)), TRANSFER_ROLE_CODES, TRANSFER), {STOREKEEPER},
        STOCK_VIEW)
  {
    hide WithRoles, WithGrant;
    UpToSteps(db);
    assert UpTo(db, 1) == Step(UpTo(db, 0), 0) && UpTo(db, 2) == Step(UpTo(db, 1), 1);
    assert UpTo(db, 3) == Step(UpTo(db, 2), 2) && UpTo(db, 4) == Step(UpTo(db, 3), 3);
  }

  lemma WithRolesOnly(db: Db)
    ensures WithRoles(db) == db.(roles := WithRoles(db).roles, nextRole := WithRoles(db).nextRole)
  {
  }

  lemma GrantsOnly(db: Db)
    ensures var now := WithGrant(WithGrant(db, TRANSFER_ROLE_CODES, TRANSFER), {STOREKEEPER}, STOCK_VIEW);
      now == db.(grants := now.grants)
  {
  }

  lemma NoneMissing(db: Db, now: Db, t: Id)
    requires now == WithRoles(db) && Missing(now) == {} && t in LiveTenants(db)
    ensures exists r :: r in now.roles && now.roles[r] == Role(t, "storekeeper")
  {
    assert t in LiveTenants(now) && t !in Missing(now);
  }

  /** `down`, by the same columns. */
  lemma DownExactly(db: Db)
    ensures var now := Downed(db);
      && now.tenants == db.tenants && now.access == db.access && now.invitations == db.invitations
      && now.permissions == db.permissions - {"pos.stock_transfer"}
      && (forall r :: r in now.roles <==> r in db.roles && db.roles[r].code != "storekeeper")
      && (forall r :: r in now.roles ==> now.roles[r] == db.roles[r])
      && (forall g :: g in now.grants <==>
            && g in db.grants
            && !(g.0 in db.roles && db.roles[g.0].code == "storekeeper")
            && !("pos.stock_transfer" in db.permissions && g.1 == db.permissions["pos.stock_transfer"]))
      && (forall c :: c in now.rules <==> c in db.rules && c != "storekeeper")
  {
    WithoutExactly(db.rules, STOREKEEPER);
    var now := Downed(db);
    assert forall c: string :: c in now.rules <==> c in db.rules && c != "storekeeper";
    assert forall g :: g in now.grants ==> g in db.grants;
  }
}
