/** Datasource permissions: the inclusion table, grants that sweep away the rows they make
    redundant, and the check that decides an action. A table is a map from row ids. */
module Permissions {
  import opened Prelude

  const PERMISSION_INCLUDES: map<string, seq<string>> := map[
    "read" := [],
    "query" := ["read"],
    "download" := ["query", "read"],
    "update" := ["download", "query", "read"],
    "delete" := [],
    "manage" := ["update", "download", "query", "read", "delete"]
  ]

  const VALID_PERMISSION_TYPES: set<string> := {"read", "query", "download", "update", "delete", "manage"}

  function IsValidPermissionType(permType: string): (r: bool)
    ensures r <==> permType in PERMISSION_INCLUDES
  {
    permType in VALID_PERMISSION_TYPES
  }

  /** A row of type `held` allows the action `wanted`. */
  predicate Covers(held: string, wanted: string) {
    held == wanted || (held in PERMISSION_INCLUDES && wanted in PERMISSION_INCLUDES[held])
  }

  /** The place of a type in the chain read, query, download, update, manage. */
  function Rank(permType: string): nat {
    match permType
    case "read" => 1
    case "query" => 2
    case "download" => 3
    case "update" => 4
    case "manage" => 5
    case _ => 0
  }

  /** The table is that chain, each type including all before it, with delete on the side and
      included in manage alone. */
  lemma TableIsAChain(held: string, wanted: string)
    ensures held in PERMISSION_INCLUDES <==> Rank(held) > 0 || held == "delete"
    ensures Covers(held, wanted) <==>
      held == wanted || 0 < Rank(wanted) < Rank(held) || (held == "manage" && wanted == "delete")
  {
  }

  /** What the table includes, it includes at any depth: no closure has to be computed. */
  lemma CoversIsTransitive(a: string, b: string, c: string)
    requires Covers(a, b) && Covers(b, c)
    ensures Covers(a, c)
  {
  }

  /** The type itself and what it includes; nothing for an unknown type. */
  method GetIncludedPermissions(permType: string) returns (result: seq<string>)
    ensures !IsValidPermissionType(permType) ==> result == []
    ensures IsValidPermissionType(permType) ==> forall a :: a in result <==> Covers(permType, a)
  {
    if permType !in PERMISSION_INCLUDES {
      return [];
    }
    result := [permType];
    result := result + PERMISSION_INCLUDES[permType];
  }

  /** The types whose rows allow an action, in whatever order the table is visited. */
  method GetEffectivePermissions(permType: string, order: seq<string>) returns (result: seq<string>)
    requires forall t :: t in order <==> t in PERMISSION_INCLUDES
    ensures forall held :: held in result <==>
      Covers(held, permType) && (IsValidPermissionType(permType) ==> held in PERMISSION_INCLUDES)
    ensures result != []
  {
    if !IsValidPermissionType(permType) {
      forall held | held in PERMISSION_INCLUDES
        ensures permType !in PERMISSION_INCLUDES[held]
      {
      }
      return [permType];
    }
    result := [];
    for i := 0 to |order|
      invariant forall held :: held in result <==> held in order[..i] && Covers(held, permType)
    {
      var includes := PERMISSION_INCLUDES[order[i]];
      if order[i] == permType {
        result := result + [order[i]];
        continue;
      }
      ghost var before := result;
      for j := 0 to |includes|
        invariant result == before && permType !in includes[..j]
      {
        if includes[j] == permType {
          result := result + [order[i]];
          break;
        }
      }
      assert permType !in includes ==> result == before;
    }
    assert order[..|order|] == order;
    assert Covers(permType, permType) && permType in order;
  }

  datatype Subject = User(id: int) | Role(id: int)

  datatype Permission = Permission(datasourceID: int, roleID: Option<int>, userID: Option<int>,
                                   permissionType: string) {
    predicate Names(s: Subject) {
      match s
      case User(id) => userID == Some(id)
      case Role(id) => roleID == Some(id)
    }

    predicate NamesOne() {
      roleID.Some? <==> userID.None?
    }
  }

  type Table = map<nat, Permission>

  /** The actions a subject's rows allow on a datasource. */
  predicate Allows(t: Table, ds: int, s: Subject, action: string) {
    exists i :: i in t && t[i].datasourceID == ds && t[i].Names(s) && Covers(t[i].permissionType, action)
  }

  predicate NamesOnes(t: Table) {
    forall i :: i in t ==> t[i].NamesOne()
  }

  /** The schema's check on the column. */
  predicate ValidTypes(t: Table) {
    forall i :: i in t ==> IsValidPermissionType(t[i].permissionType)
  }

  /** A row the grant deletes before it inserts its own: rows of its user or, when it names
      no user, of its role, with a type that the new one includes. */
  predicate Swept(row: Permission, perm: Permission) {
    && row.datasourceID == perm.datasourceID
    && (if perm.userID.Some? then row.userID == perm.userID else row.roleID == perm.roleID)
    && Covers(perm.permissionType, row.permissionType)
  }

  function Survivors(t: Table, perm: Permission): Table {
    map i | i in t && !Swept(t[i], perm) :: t[i]
  }

  /** The two uniqueness constraints of the table, which do not compare missing ids. */
  predicate Clash(row: Permission, perm: Permission) {
    && row.datasourceID == perm.datasourceID && row.permissionType == perm.permissionType
    && ((perm.roleID.Some? && row.roleID == perm.roleID) || (perm.userID.Some? && row.userID == perm.userID))
  }

  predicate Clashes(t: Table, perm: Permission) {
    exists i :: i in t && Clash(t[i], perm)
  }

  datatype Error = SubjectRequired | InvalidPermissionType | GrantFailed | PermissionServiceError
  datatype Check = Decided(allowed: bool) | Failed(error: Error)

  /** A grant and whether the database refuses its delete or its insert. */
  datatype Attempt = Attempt(perm: Permission, deleteFails: bool, insertFails: bool) {
    predicate WellFormed() {
      (perm.roleID.Some? || perm.userID.Some?) && IsValidPermissionType(perm.permissionType)
    }

    /** The insert failed when the delete had already succeeded. */
    predicate Halfway() {
      WellFormed() && insertFails && !deleteFails
    }
  }

  datatype Store = Store(rows: Table, lastId: nat) {
    ghost predicate Valid() {
      forall i :: i in rows ==> i <= lastId
    }

    function Swept(a: Attempt): Table {
      if a.deleteFails then rows else Survivors(rows, a.perm)
    }

    predicate Inserts(a: Attempt) {
      a.WellFormed() && !a.insertFails && !Clashes(Swept(a), a.perm)
    }

    function Grant(a: Attempt): Store {
      if !a.WellFormed() then this
      else if Inserts(a) then Store(Swept(a)[lastId + 1 := a.perm], lastId + 1)
      else this.(rows := Swept(a))
    }
  }

  class DatasourceService {
    var db: Store
    var userRoles: set<(int, int)>

    constructor (userRoles: set<(int, int)>)
      ensures db == Store(map[], 0) && this.userRoles == userRoles
    {
      db := Store(map[], 0);
      this.userRoles := userRoles;
    }

    method GrantPermission(a: Attempt) returns (id: Option<nat>, error: Option<Error>)
      modifies this`db
      ensures db == old(db).Grant(a)
      ensures error.None? <==> old(db).Inserts(a)
      ensures id == if error.None? then Some(db.lastId) else None
    {
      var perm := a.perm;
      if perm.roleID == None && perm.userID == None {
        return None, Some(SubjectRequired);
      }
      if !IsValidPermissionType(perm.permissionType) {
        return None, Some(InvalidPermissionType);
      }
      var includedPerms := GetIncludedPermissions(perm.permissionType);
      if |includedPerms| > 0 && !a.deleteFails {
        var rows := db.rows;
        if perm.userID.Some? {
          rows := map i | i in rows && !(rows[i].datasourceID == perm.datasourceID
            && rows[i].userID == perm.userID && rows[i].permissionType in includedPerms) :: rows[i];
        } else {
          rows := map i | i in rows && !(rows[i].datasourceID == perm.datasourceID
            && rows[i].roleID == perm.roleID && rows[i].permissionType in includedPerms) :: rows[i];
        }
        assert rows == Survivors(db.rows, perm);
        db := db.(rows := rows);
      }
      assert Covers(perm.permissionType, perm.permissionType);
      if a.insertFails || Clashes(db.rows, perm) {
        return None, Some(GrantFailed);
      }
      db := Store(db.rows[db.lastId + 1 := perm], db.lastId + 1);
      return Some(db.lastId), None;
    }

    /** Decides exactly whether the rows of the user or of one of the user's roles allow
        the action. The failures of the two queries are the caller's to choose. */
    method CheckPermission(userID: int, datasourceID: int, permType: string, order: seq<string>,
                           userQueryFails: bool, roleQueryFails: bool) returns (r: Check)
      requires forall t :: t in order <==> t in PERMISSION_INCLUDES
      ensures ValidTypes(db.rows) ==>
        var own := Allows(db.rows, datasourceID, User(userID), permType);
        r == if userQueryFails || (!own && roleQueryFails) then Failed(PermissionServiceError)
             else Decided(own || exists role ::
                            (userID, role) in userRoles && Allows(db.rows, datasourceID, Role(role), permType))
    {
      var effectivePerms := GetEffectivePermissions(permType, order);
      if userQueryFails {
        return Failed(PermissionServiceError);
      }
      var rows := db.rows;
      var own := set i | i in rows && rows[i].userID == Some(userID)
        && rows[i].datasourceID == datasourceID && rows[i].permissionType in effectivePerms;
      if |own| > 0 {
        assert exists i :: i in own;
        return Decided(true);
      }
      assert forall i :: i in rows ==> i !in own;
      assert ValidTypes(rows) ==> !Allows(rows, datasourceID, User(userID), permType);
      if roleQueryFails {
        return Failed(PermissionServiceError);
      }
      var joined := set i, ur | i in rows && ur in userRoles && rows[i].roleID == Some(ur.1) && ur.0 == userID
        && rows[i].datasourceID == datasourceID && rows[i].permissionType in effectivePerms :: (i, ur);
      if |joined| > 0 {
        ghost var p :| p in joined;
        assert p.1 == (userID, p.1.1) && Allows(rows, datasourceID, Role(p.1.1), permType);
      }
      forall role | (userID, role) in userRoles && ValidTypes(rows)
        && Allows(rows, datasourceID, Role(role), permType)
        ensures |joined| > 0
      {
        var i :|
          i in rows && rows[i].datasourceID == datasourceID && rows[i].Names(Role(role))
            && Covers(rows[i].permissionType, permType);
        assert (i, (userID, role)) in joined;
      }
      return Decided(|joined| > 0);
    }
  }

  // ---- One grant

  /** What a grant deletes: rows on its datasource that name its user (its role, when it names
      no user) and have its type or one that the type includes. So after a successful grant
      none of these is left beside the new row. */
  lemma GrantSweepsExactly(db: Store, a: Attempt, i: nat)
    requires db.Valid() && a.WellFormed() && i in db.rows
    ensures var row, p := db.rows[i], a.perm;
      var swept := !a.deleteFails && row.datasourceID == p.datasourceID
                   && (if p.userID.Some? then row.userID == p.userID else row.roleID == p.roleID)
                   && (row.permissionType == p.permissionType
                       || row.permissionType in PERMISSION_INCLUDES[p.permissionType]);
      (i in db.Grant(a).rows <==> !swept) && (!swept ==> db.Grant(a).rows[i] == row)
    ensures db.Grant(a).rows.Keys <= db.rows.Keys + {db.lastId + 1}
    ensures db.Inserts(a) ==> db.lastId + 1 in db.Grant(a).rows && db.Grant(a).rows[db.lastId + 1] == a.perm
  {
  }

  /** A grant that inserts its row gives every subject it names exactly what the subject
      had and what the new type includes, in any table. */
  lemma GrantAddsExactly(db: Store, a: Attempt, s: Subject, action: string)
    requires db.Valid() && db.Inserts(a) && a.perm.Names(s)
    ensures var ds := a.perm.datasourceID;
      Allows(db.Grant(a).rows, ds, s, action)
      <==> Allows(db.rows, ds, s, action) || Covers(a.perm.permissionType, action)
  {
    var ds, rows := a.perm.datasourceID, db.Grant(a).rows;
    assert rows[db.lastId + 1] == a.perm;
    if Allows(db.rows, ds, s, action) {
      var i :|
        i in db.rows && db.rows[i].datasourceID == ds && db.rows[i].Names(s)
          && Covers(db.rows[i].permissionType, action);
      if db.Swept(a) == db.rows || !Swept(db.rows[i], a.perm) {
        assert rows[i] == db.rows[i];
      } else {
        CoversIsTransitive(a.perm.permissionType, db.rows[i].permissionType, action);
      }
    }
  }

  /** Whatever becomes of a grant, a subject it does not name gains nothing, and loses
      nothing exactly when each of its swept rows is covered by one of its survivors. */
  lemma StrangerKeepsExactly(db: Store, a: Attempt, ds: int, s: Subject)
    requires db.Valid() && a.WellFormed() && (ds != a.perm.datasourceID || !a.perm.Names(s))
    ensures forall action :: Allows(db.Grant(a).rows, ds, s, action) ==> Allows(db.rows, ds, s, action)
    ensures (forall action :: Allows(db.rows, ds, s, action) ==> Allows(db.Grant(a).rows, ds, s, action))
       <==> a.deleteFails || Covered(db.rows, a.perm, ds, s)
  {
    var rows := db.Grant(a).rows;
    forall action
      ensures Allows(rows, ds, s, action) <==> Allows(db.Swept(a), ds, s, action)
    {
      var swept := db.Swept(a);
      if Allows(swept, ds, s, action) {
        var i :|
          i in swept && swept[i].datasourceID == ds && swept[i].Names(s) && Covers(swept[i].permissionType, action);
        assert rows[i] == db.Swept(a)[i];
      }
    }
    if !a.deleteFails {
      SweepLosesExactly(db.rows, a.perm, ds, s);
    }
  }

  /** A caller can see before a grant whether its sweep takes an action from a subject. */
  predicate Covered(t: Table, perm: Permission, ds: int, s: Subject) {
    forall i :: i in t && Swept(t[i], perm) && t[i].datasourceID == ds && t[i].Names(s) ==>
      Allows(Survivors(t, perm), ds, s, t[i].permissionType)
  }

  lemma SweepLosesExactly(t: Table, perm: Permission, ds: int, s: Subject)
    ensures forall action :: Allows(Survivors(t, perm), ds, s, action) ==> Allows(t, ds, s, action)
    ensures (forall action :: Allows(t, ds, s, action) ==> Allows(Survivors(t, perm), ds, s, action))
       <==> Covered(t, perm, ds, s)
  {
    var left := Survivors(t, perm);
    if Covered(t, perm, ds, s) {
      forall action | Allows(t, ds, s, action)
        ensures Allows(left, ds, s, action)
      {
        var i :|
          i in t && t[i].datasourceID == ds && t[i].Names(s) && Covers(t[i].permissionType, action);
        if Swept(t[i], perm) {
          var j :|
            j in left && left[j].datasourceID == ds && left[j].Names(s)
              && Covers(left[j].permissionType, t[i].permissionType);
          CoversIsTransitive(left[j].permissionType, t[i].permissionType, action);
        } else {
          assert left[i] == t[i];
        }
      }
    }
    forall i | i in t && t[i].datasourceID == ds && t[i].Names(s)
      ensures Allows(t, ds, s, t[i].permissionType)
    {
      assert Covers(t[i].permissionType, t[i].permissionType);
    }
  }

  /** A grant that stops between its two statements leaves a subject it names with less
      exactly when a swept row is not covered by a survivor. */
  lemma HalfwayGrantLoses(db: Store, a: Attempt, ds: int, s: Subject)
    requires a.Halfway()
    ensures (forall action :: Allows(db.rows, ds, s, action) ==> Allows(db.Grant(a).rows, ds, s, action))
       <==> Covered(db.rows, a.perm, ds, s)
  {
    SweepLosesExactly(db.rows, a.perm, ds, s);
  }

  /** Granting a role `query` can take `read` from a user: a row naming both goes with it. */
  lemma SharedRowIsLost()
    ensures var db := Store(map[1 := Permission(7, Some(2), Some(3), "read")], 1);
      var a := Attempt(Permission(7, Some(2), None, "query"), false, false);
      db.Valid() && db.Inserts(a) && Allows(db.rows, 7, User(3), "read")
        && !Allows(db.Grant(a).rows, 7, User(3), "read")
  {
    var row := Permission(7, Some(2), Some(3), "read");
    var db := Store(map[1 := row], 1);
    var a := Attempt(Permission(7, Some(2), None, "query"), false, false);
    assert db.rows[1] == row;
    assert Covers("query", "read") && Covers("read", "read");
    assert Swept(row, a.perm);
    assert Survivors(db.rows, a.perm) == map[];
  }

  // ---- Runs of grants

  function RunGrants(db: Store, attempts: seq<Attempt>): Store {
    if attempts == [] then db
    else RunGrants(db, attempts[..|attempts| - 1]).Grant(attempts[|attempts| - 1])
  }

  /** The grant reached the database. */
  predicate Granted(a: Attempt, ds: int, s: Subject, action: string) {
    a.WellFormed() && !a.insertFails && a.perm.datasourceID == ds && a.perm.Names(s)
      && Covers(a.perm.permissionType, action)
  }

  predicate SomeGranted(attempts: seq<Attempt>, ds: int, s: Subject, action: string) {
    exists i :: 0 <= i < |attempts| && Granted(attempts[i], ds, s, action)
  }

  /** One attempt on a table whose rows name one subject each: also a refused insert
      leaves the granted actions, because the row it clashes with allows them. */
  lemma GrantStep(db: Store, a: Attempt, ds: int, s: Subject, action: string)
    requires db.Valid() && NamesOnes(db.rows) && a.perm.NamesOne() && !a.Halfway()
    ensures db.Grant(a).Valid() && NamesOnes(db.Grant(a).rows)
    ensures Allows(db.Grant(a).rows, ds, s, action) <==> Allows(db.rows, ds, s, action) || Granted(a, ds, s, action)
  {
    if !a.WellFormed() {
    } else if ds != a.perm.datasourceID || !a.perm.Names(s) {
      StrangerKeepsExactly(db, a, ds, s);
      assert Covered(db.rows, a.perm, ds, s);
    } else if db.Inserts(a) {
      GrantAddsExactly(db, a, s, action);
    } else {
      ClashMeansAllowed(db, a, s, action);
    }
  }

  lemma ClashMeansAllowed(db: Store, a: Attempt, s: Subject, action: string)
    requires NamesOnes(db.rows) && a.perm.NamesOne() && a.perm.Names(s) && a.WellFormed() && !a.Halfway()
      && !db.Inserts(a)
    ensures db.Grant(a) == db
    ensures !a.insertFails && Covers(a.perm.permissionType, action) ==>
      Allows(db.rows, a.perm.datasourceID, s, action)
  {
    if !a.insertFails {
      var i :| i in db.Swept(a) && Clash(db.Swept(a)[i], a.perm);
      assert Covers(a.perm.permissionType, a.perm.permissionType);
      assert Swept(db.rows[i], a.perm);
      assert a.deleteFails;
    }
  }

  /** After any sequence of grants that each name one user or one role, every subject may
      do on every datasource exactly what it could do before and what the grants to it
      include: the sweeps never cost anything. */
  lemma {:induction false} GrantsLoseNothing(db: Store, attempts: seq<Attempt>, ds: int, s: Subject, action: string)
    requires db.Valid() && NamesOnes(db.rows)
    requires forall i :: 0 <= i < |attempts| ==> attempts[i].perm.NamesOne() && !attempts[i].Halfway()
    ensures var after := RunGrants(db, attempts);
      && after.Valid() && NamesOnes(after.rows)
      && (Allows(after.rows, ds, s, action)
          <==> Allows(db.rows, ds, s, action) || SomeGranted(attempts, ds, s, action))
  {
    if attempts != [] {
      var n := |attempts| - 1;
      GrantsLoseNothing(db, attempts[..n], ds, s, action);
      GrantStep(RunGrants(db, attempts[..n]), attempts[n], ds, s, action);
    }
  }

  /** Every row a grant leaves has a valid type, which is what the check relies on. */
  lemma {:induction false} GrantsKeepTypes(db: Store, attempts: seq<Attempt>)
    requires ValidTypes(db.rows)
    ensures ValidTypes(RunGrants(db, attempts).rows)
  {
    if attempts != [] {
      GrantsKeepTypes(db, attempts[..|attempts| - 1]);
      var before, a := RunGrants(db, attempts[..|attempts| - 1]), attempts[|attempts| - 1];
      var rows := before.Grant(a).rows;
      forall i | i in rows
        ensures IsValidPermissionType(rows[i].permissionType)
      {
        assert rows[i] == a.perm || (i in before.rows && rows[i] == before.rows[i]);
      }
    }
  }
}
