/**
 * The administration page (src/pages/Admin.tsx): the admin gate, adding
 * and removing role rows, creating a user, and the list of role rows
 * grouped by user.
 */
module Admin {
  import opened Types
  import opened SeqUtil

  function RowId(r: UserRoleRow): nat { r.id }
  function RowUser(r: UserRoleRow): UserId { r.userId }
  function RowPair(r: UserRoleRow): (UserId, Role) { (r.userId, r.role) }

  /** The row is one a `.eq("user_id", userId).eq("role", roleName)` query selects. */
  predicate Holds(r: UserRoleRow, userId: UserId, roleName: string)
  {
    r.userId == userId && RoleName(r.role) == roleName
  }

  function HoldsFn(userId: UserId, roleName: string): UserRoleRow -> bool
  {
    (r: UserRoleRow) => Holds(r, userId, roleName)
  }

  /** Some row grants the role to the user. */
  ghost predicate Held(rows: seq<UserRoleRow>, userId: UserId, roleName: string)
  {
    exists r :: r in rows && Holds(r, userId, roleName)
  }

  /** Two different rows grant the same role to the user; the schema has no constraint against it. */
  ghost predicate HeldTwice(rows: seq<UserRoleRow>, userId: UserId, roleName: string)
  {
    exists i, j :: 0 <= i < j < |rows| && Holds(rows[i], userId, roleName) && Holds(rows[j], userId, roleName)
  }

  /** What `.maybeSingle()` returns: no row, the one row, or an error when several match. */
  datatype Lookup = NoRow | OneRow | QueryError

  function MaybeSingle(rows: seq<UserRoleRow>, userId: UserId, roleName: string): Lookup
  {
    var n := Count(rows, HoldsFn(userId, roleName));
    if n == 0 then NoRow else if n == 1 then OneRow else QueryError
  }

  /** The lookup finds nothing when no row matches, errs when two rows match, and finds the row when exactly one does. */
  lemma MaybeSingleMeaning(rows: seq<UserRoleRow>, userId: UserId, roleName: string)
    ensures MaybeSingle(rows, userId, roleName) == NoRow <==> !Held(rows, userId, roleName)
    ensures MaybeSingle(rows, userId, roleName) == QueryError <==> HeldTwice(rows, userId, roleName)
    ensures MaybeSingle(rows, userId, roleName) == OneRow <==>
            Held(rows, userId, roleName) && !HeldTwice(rows, userId, roleName)
  {
    FilterEmptyIff(rows, HoldsFn(userId, roleName));
    CountAtLeastTwo(rows, HoldsFn(userId, roleName));
  }

  /** Without duplicate (user, role) rows the lookup never errs, and finds a row exactly when one exists. */
  lemma MaybeSingleOnDistinctRows(rows: seq<UserRoleRow>, userId: UserId, roleName: string)
    requires Injective(rows, RowPair)
    ensures MaybeSingle(rows, userId, roleName) != QueryError
    ensures MaybeSingle(rows, userId, roleName) == OneRow <==>
            exists r :: r in rows && r.userId == userId && RoleName(r.role) == roleName
  {
    var p := HoldsFn(userId, roleName);
    FilterEmptyIff(rows, p);
    match ParseRole(roleName)
    case Some(role) =>
      AtMostOneWithKey(rows, p, RowPair, (userId, role));
    case None =>
      forall r | r in rows ensures !p(r) {
        assert ParseRole(RoleName(r.role)) == Some(r.role);
      }
  }

  function KeepFn(roleId: nat): UserRoleRow -> bool
  {
    (r: UserRoleRow) => r.id != roleId
  }

  function DropFn(roleId: nat): UserRoleRow -> bool
  {
    (r: UserRoleRow) => r.id == roleId
  }

  function AnyFn(): UserRoleRow -> bool
  {
    (r: UserRoleRow) => true
  }

  /**
   * `after` is `before` without the row whose id is `roleId`: the other
   * rows stay, in order, and exactly one row goes when the id is present.
   */
  ghost predicate RemovedById(after: seq<UserRoleRow>, before: seq<UserRoleRow>, roleId: nat)
  {
    && (forall r :: r in after <==> r in before && r.id != roleId)
    && Subseq(after, before)
    && |after| == |before| - (if exists r :: r in before && r.id == roleId then 1 else 0)
  }

  /**
   * Deleting by id from rows with distinct ids removes one row when the id
   * is present, none otherwise, and keeps ids distinct, and (user, role)
   * pairs too when they were.
   */
  lemma RemoveByIdKeeps(rows: seq<UserRoleRow>, roleId: nat, freeId: nat)
    requires Injective(rows, RowId) && (forall r :: r in rows ==> r.id < freeId)
    ensures RemovedById(Filter(rows, KeepFn(roleId)), rows, roleId)
    ensures Injective(Filter(rows, KeepFn(roleId)), RowId) && (forall r :: r in Filter(rows, KeepFn(roleId)) ==> r.id < freeId)
    ensures Injective(rows, RowPair) ==> Injective(Filter(rows, KeepFn(roleId)), RowPair)
  {
    AtMostOneWithKey(rows, DropFn(roleId), RowId, roleId);
    CountSplit(rows, AnyFn(), KeepFn(roleId), DropFn(roleId));
    FilterKeepsAll(rows, AnyFn());
    FilterEmptyIff(rows, DropFn(roleId));
    FilterInjective(rows, KeepFn(roleId), RowId);
    if Injective(rows, RowPair) {
      FilterInjective(rows, KeepFn(roleId), RowPair);
    }
  }

  /** With a valid role name, the role is held exactly when a row has that (user, role) pair, and never twice when pairs are distinct. */
  lemma PairLookup(rows: seq<UserRoleRow>, userId: UserId, roleName: string)
    requires ParseRole(roleName).Some?
    ensures Held(rows, userId, roleName) <==> exists r :: r in rows && RowPair(r) == (userId, ParseRole(roleName).value)
    ensures Injective(rows, RowPair) ==> !HeldTwice(rows, userId, roleName)
  {
    forall r | r in rows ensures Holds(r, userId, roleName) <==> RowPair(r) == (userId, ParseRole(roleName).value) {
    }
  }

  /** Prepending a row with a fresh id and a pair no row has keeps ids, and pairs when they were, distinct. */
  lemma PrependFresh(rows: seq<UserRoleRow>, row: UserRoleRow, freeId: nat)
    requires Injective(rows, RowId) && (forall r :: r in rows ==> r.id < freeId)
    requires row.id == freeId
    requires Injective(rows, RowPair) ==> forall r :: r in rows ==> RowPair(r) != RowPair(row)
    ensures Injective([row] + rows, RowId) && (forall r :: r in [row] + rows ==> r.id < freeId + 1)
    ensures Injective(rows, RowPair) ==> Injective([row] + rows, RowPair)
  {
    InjectivePrepend(row, rows, RowId);
    if Injective(rows, RowPair) {
      InjectivePrepend(row, rows, RowPair);
    }
  }

  datatype AdminError =
    | SelectionMissing  // no user or no role selected
    | RoleAlreadyHeld   // the selected user already holds the selected role
    | InsertRejected    // the store refused the row (the role is not an app_role, or the insert failed)
    | DeleteRejected    // the store refused to delete the row
    | FieldsMissing     // email, password or full name left empty
    | AuthRejected      // the auth service refused to create the user

  datatype AdminOutcome = Done | Refused(error: AdminError)

  /** One user's entry of the grouped role list: the user id and its rows. */
  datatype RoleGroup = RoleGroup(userId: UserId, roles: seq<UserRoleRow>)

  function Flatten(groups: seq<RoleGroup>): seq<UserRoleRow>
  {
    if groups == [] then [] else Flatten(groups[..|groups| - 1]) + groups[|groups| - 1].roles
  }

  lemma {:induction false} FlattenIsConcatGroups(groups: seq<RoleGroup>, ks: seq<UserId>, rows: seq<UserRoleRow>)
    requires |groups| == |ks|
    requires forall j :: 0 <= j < |groups| ==> groups[j].roles == KeyFilter(rows, RowUser, ks[j])
    ensures Flatten(groups) == ConcatGroups(ks, rows, RowUser)
  {
    if groups != [] {
      FlattenIsConcatGroups(groups[..|groups| - 1], ks[..|ks| - 1], rows);
    }
  }

  /** The record built so far: its keys in insertion order, and each key's rows in input order. */
  ghost predicate GroupedSoFar(keys: seq<UserId>, acc: map<UserId, seq<UserRoleRow>>, prefix: seq<UserRoleRow>)
  {
    && keys == Keys(prefix, RowUser)
    && (forall k :: k in acc <==> k in keys)
    && (forall k :: k in acc ==> acc[k] == KeyFilter(prefix, RowUser, k))
  }

  /** A reduce step for a user already in the record pushes the row onto that user's array. */
  lemma GroupPush(keys: seq<UserId>, acc: map<UserId, seq<UserRoleRow>>, prefix: seq<UserRoleRow>, ur: UserRoleRow)
    requires GroupedSoFar(keys, acc, prefix)
    requires ur.userId in acc
    ensures GroupedSoFar(keys, acc[ur.userId := acc[ur.userId] + [ur]], prefix + [ur])
  {
    KeysAppend(prefix, ur, RowUser);
    var next := acc[ur.userId := acc[ur.userId] + [ur]];
    forall k | k in next ensures next[k] == KeyFilter(prefix + [ur], RowUser, k) {
      KeyFilterAppend(prefix, ur, RowUser, k);
    }
  }

  /** A reduce step for a new user creates that user's array holding the row. */
  lemma GroupCreate(keys: seq<UserId>, acc: map<UserId, seq<UserRoleRow>>, prefix: seq<UserRoleRow>, ur: UserRoleRow)
    requires GroupedSoFar(keys, acc, prefix)
    requires ur.userId !in acc
    ensures GroupedSoFar(keys + [ur.userId], acc[ur.userId := [ur]], prefix + [ur])
  {
    KeysAppend(prefix, ur, RowUser);
    KeyFilterEmpty(prefix, RowUser, ur.userId);
    var next := acc[ur.userId := [ur]];
    forall k | k in next ensures next[k] == KeyFilter(prefix + [ur], RowUser, k) {
      KeyFilterAppend(prefix, ur, RowUser, k);
    }
  }

  /**
   * The grouped role list: `reduce` into a record keyed by user_id, then
   * `Object.entries`, which lists the keys in insertion order.
   */
  method GroupByUser(rows: seq<UserRoleRow>) returns (entries: seq<RoleGroup>)
    ensures |entries| == |Keys(rows, RowUser)|
    ensures forall j :: 0 <= j < |entries| ==>
              entries[j].userId == Keys(rows, RowUser)[j] && entries[j].roles == KeyFilter(rows, RowUser, entries[j].userId)
    ensures forall j, k :: 0 <= j < k < |entries| ==> entries[j].userId != entries[k].userId
    ensures forall j :: 0 <= j < |entries| ==>
              (forall r :: r in entries[j].roles <==> r in rows && r.userId == entries[j].userId) &&
              Subseq(entries[j].roles, rows)
    ensures multiset(Flatten(entries)) == multiset(rows)
  {
    var keys: seq<UserId> := [];
    var acc: map<UserId, seq<UserRoleRow>> := map[];
    var i := 0;
    while i < |rows|
      invariant 0 <= i <= |rows|
      invariant GroupedSoFar(keys, acc, rows[..i])
    {
      var ur := rows[i];
      assert rows[..i + 1] == rows[..i] + [ur];
      if ur.userId in acc {
        GroupPush(keys, acc, rows[..i], ur);
        acc := acc[ur.userId := acc[ur.userId] + [ur]];
      } else {
        GroupCreate(keys, acc, rows[..i], ur);
        acc := acc[ur.userId := [ur]];
        keys := keys + [ur.userId];
      }
      i := i + 1;
    }
    assert rows[..i] == rows;
    entries := Entries(keys, acc);
    GroupedEntries(keys, acc, rows);
  }

  /** The entries of the finished record are the groups of the rows, in first-appearance order. */
  lemma GroupedEntries(keys: seq<UserId>, acc: map<UserId, seq<UserRoleRow>>, rows: seq<UserRoleRow>)
    requires GroupedSoFar(keys, acc, rows)
    ensures |Entries(keys, acc)| == |Keys(rows, RowUser)|
    ensures forall j :: 0 <= j < |Entries(keys, acc)| ==>
              Entries(keys, acc)[j].userId == Keys(rows, RowUser)[j] &&
              Entries(keys, acc)[j].roles == KeyFilter(rows, RowUser, Entries(keys, acc)[j].userId)
    ensures forall j, k :: 0 <= j < k < |Entries(keys, acc)| ==> Entries(keys, acc)[j].userId != Entries(keys, acc)[k].userId
    ensures forall j :: 0 <= j < |Entries(keys, acc)| ==>
              (forall r :: r in Entries(keys, acc)[j].roles <==> r in rows && r.userId == Entries(keys, acc)[j].userId) &&
              Subseq(Entries(keys, acc)[j].roles, rows)
    ensures multiset(Flatten(Entries(keys, acc))) == multiset(rows)
  {
    var entries := Entries(keys, acc);
    FlattenIsConcatGroups(entries, keys, rows);
    GroupsPartition(rows, RowUser);
    GroupsSelectRows(entries, rows);
  }

  /** A group holding its user's rows holds exactly those rows, in input order. */
  lemma GroupsSelectRows(groups: seq<RoleGroup>, rows: seq<UserRoleRow>)
    requires forall j :: 0 <= j < |groups| ==> groups[j].roles == KeyFilter(rows, RowUser, groups[j].userId)
    ensures forall j :: 0 <= j < |groups| ==>
              (forall r :: r in groups[j].roles <==> r in rows && r.userId == groups[j].userId) &&
              Subseq(groups[j].roles, rows)
  {
    forall j | 0 <= j < |groups| {
      KeyFilterSelects(rows, RowUser, groups[j].userId);
    }
  }

  /** Object.entries of the record, in key order. */
  function Entries(keys: seq<UserId>, acc: map<UserId, seq<UserRoleRow>>): (r: seq<RoleGroup>)
    requires forall k :: k in keys ==> k in acc
    ensures |r| == |keys|
    ensures forall j :: 0 <= j < |r| ==> r[j] == RoleGroup(keys[j], acc[keys[j]])
  {
    seq(|keys|, j requires 0 <= j < |keys| => RoleGroup(keys[j], acc[keys[j]]))
  }

  /** What the page renders: the "Accès refusé" card, or the administration content. */
  datatype AdminView = AccessDenied | AdminContent

  /** The state of the administration page. */
  class AdminPage {
    /** The user_roles rows, newest first as the page loads them. */
    var userRoles: seq<UserRoleRow>
    /** The id the store gives the next inserted row. */
    var nextId: nat
    var isAdmin: bool
    var selectedUser: string
    var selectedRole: string
    var newUserEmail: string
    var newUserPassword: string
    var newUserFullName: string

    /** Role rows have distinct ids below nextId (the id is the table's primary key). */
    ghost predicate Valid()
      reads this
    {
      && Injective(userRoles, RowId)
      && (forall r :: r in userRoles ==> r.id < nextId)
    }

    constructor (rows: seq<UserRoleRow>, firstFreeId: nat)
      requires Injective(rows, RowId)
      requires forall r :: r in rows ==> r.id < firstFreeId
      ensures Valid()
      ensures userRoles == rows && nextId == firstFreeId && !isAdmin
      ensures View() == AccessDenied
      ensures selectedUser == "" && selectedRole == ""
      ensures newUserEmail == "" && newUserPassword == "" && newUserFullName == ""
    {
      userRoles := rows;
      nextId := firstFreeId;
      isAdmin := false;
      selectedUser := "";
      selectedRole := "";
      newUserEmail := "";
      newUserPassword := "";
      newUserFullName := "";
    }

    /**
     * checkAdminAccess, run again whenever the signed-in user changes: the
     * page opens when the lookup of an `admin` row for the user finds
     * exactly one; no row, or the error two rows cause, only shows a
     * message, and the page stays as it was.
     */
    method CheckAdminAccess(userId: UserId)
      requires Valid()
      modifies this
      ensures Valid()
      ensures isAdmin <==> old(isAdmin) || (Held(userRoles, userId, "admin") && !HeldTwice(userRoles, userId, "admin"))
      ensures Injective(userRoles, RowPair) ==>
                (isAdmin <==> old(isAdmin) || exists r :: r in userRoles && r.userId == userId && r.role == Admin)
      ensures View() == AdminContent <==>
                old(View()) == AdminContent || (Held(userRoles, userId, "admin") && !HeldTwice(userRoles, userId, "admin"))
      ensures userRoles == old(userRoles) && nextId == old(nextId)
      ensures selectedUser == old(selectedUser) && selectedRole == old(selectedRole)
      ensures newUserEmail == old(newUserEmail) && newUserPassword == old(newUserPassword)
      ensures newUserFullName == old(newUserFullName)
    {
      var found := MaybeSingle(userRoles, userId, "admin");
      MaybeSingleMeaning(userRoles, userId, "admin");
      if Injective(userRoles, RowPair) {
        MaybeSingleOnDistinctRows(userRoles, userId, "admin");
        forall r | r in userRoles ensures RoleName(r.role) == "admin" <==> r.role == Admin {
          assert ParseRole(RoleName(r.role)) == Some(r.role);
        }
      }
      if found == OneRow {
        isAdmin := true;
      }
    }

    /**
     * addRole: refused without a selection, or when the lookup finds the
     * pair held once; the lookup's error on a duplicated pair is ignored.
     * Otherwise the row is inserted (`insertAccepted` is the store's
     * answer; a role that is not an app_role is always refused); on
     * success both selections are cleared and the list is reloaded with
     * the new row first.
     */
    method AddRole(insertAccepted: bool) returns (outcome: AdminOutcome)
      requires Valid()
      modifies this
      ensures Valid()
      ensures isAdmin == old(isAdmin)
      ensures newUserEmail == old(newUserEmail) && newUserPassword == old(newUserPassword)
      ensures newUserFullName == old(newUserFullName)
      ensures old(selectedUser) == "" || old(selectedRole) == "" ==> outcome == Refused(SelectionMissing)
      ensures old(selectedUser) != "" && old(selectedRole) != "" &&
              Held(old(userRoles), old(selectedUser), old(selectedRole)) &&
              !HeldTwice(old(userRoles), old(selectedUser), old(selectedRole)) ==>
                outcome == Refused(RoleAlreadyHeld)
      ensures outcome != Done ==>
                userRoles == old(userRoles) && nextId == old(nextId) &&
                selectedUser == old(selectedUser) && selectedRole == old(selectedRole)
      ensures outcome == Done <==>
                && old(selectedUser) != "" && ParseRole(old(selectedRole)).Some? && insertAccepted
                && (!Held(old(userRoles), old(selectedUser), old(selectedRole)) ||
                    HeldTwice(old(userRoles), old(selectedUser), old(selectedRole)))
      ensures outcome == Done ==>
                && userRoles == [UserRoleRow(old(nextId), old(selectedUser), ParseRole(old(selectedRole)).value)] + old(userRoles)
                && nextId == old(nextId) + 1
                && selectedUser == "" && selectedRole == ""
      ensures Injective(old(userRoles), RowPair) ==>
                && Injective(userRoles, RowPair)
                && (outcome == Done <==>
                      old(selectedUser) != "" && ParseRole(old(selectedRole)).Some? && insertAccepted &&
                      forall r :: r in old(userRoles) ==> RowPair(r) != (old(selectedUser), ParseRole(old(selectedRole)).value))
    {
      if selectedUser == "" || selectedRole == "" {
        return Refused(SelectionMissing);
      }
      var existing := MaybeSingle(userRoles, selectedUser, selectedRole);
      MaybeSingleMeaning(userRoles, selectedUser, selectedRole);
      var role := ParseRole(selectedRole);
      if role.Some? {
        PairLookup(userRoles, selectedUser, selectedRole);
      }
      if existing == OneRow {
        return Refused(RoleAlreadyHeld);
      }
      if role.None? {
        return Refused(InsertRejected);
      }
      if !insertAccepted {
        return Refused(InsertRejected);
      }
      var row := UserRoleRow(nextId, selectedUser, role.value);
      PrependFresh(userRoles, row, nextId);
      userRoles := [row] + userRoles;
      nextId := nextId + 1;
      selectedUser := "";
      selectedRole := "";
      outcome := Done;
    }

    /**
     * removeRole: ask the store to delete the row with the given id
     * (`deleteAccepted` is its answer); on success the list is reloaded
     * without that row and the others stay in order, and on a refusal
     * nothing changes.
     */
    method RemoveRole(roleId: nat, deleteAccepted: bool) returns (outcome: AdminOutcome)
      requires Valid()
      modifies this
      ensures Valid()
      ensures outcome == Done <==> deleteAccepted
      ensures outcome != Done ==> outcome == Refused(DeleteRejected) && userRoles == old(userRoles)
      ensures outcome == Done ==> RemovedById(userRoles, old(userRoles), roleId)
      ensures Injective(old(userRoles), RowPair) ==> Injective(userRoles, RowPair)
      ensures nextId == old(nextId) && isAdmin == old(isAdmin)
      ensures selectedUser == old(selectedUser) && selectedRole == old(selectedRole)
      ensures newUserEmail == old(newUserEmail) && newUserPassword == old(newUserPassword)
      ensures newUserFullName == old(newUserFullName)
    {
      if !deleteAccepted {
        return Refused(DeleteRejected);
      }
      var kept := Filter(userRoles, KeepFn(roleId));
      RemoveByIdKeeps(userRoles, roleId, nextId);
      userRoles := kept;
      outcome := Done;
    }

    /**
     * createUser: refused while a field is empty; otherwise the auth
     * service is asked (its answer is `authAccepted`) and, when it accepts,
     * the three fields are cleared.
     */
    method CreateUser(authAccepted: bool) returns (outcome: AdminOutcome)
      requires Valid()
      modifies this
      ensures Valid()
      ensures old(newUserEmail) == "" || old(newUserPassword) == "" || old(newUserFullName) == "" ==>
                outcome == Refused(FieldsMissing)
      ensures outcome == Done <==>
                old(newUserEmail) != "" && old(newUserPassword) != "" && old(newUserFullName) != "" && authAccepted
      ensures outcome == Done ==> newUserEmail == "" && newUserPassword == "" && newUserFullName == ""
      ensures outcome != Done ==>
                newUserEmail == old(newUserEmail) && newUserPassword == old(newUserPassword) &&
                newUserFullName == old(newUserFullName)
      ensures userRoles == old(userRoles) && nextId == old(nextId) && isAdmin == old(isAdmin)
      ensures selectedUser == old(selectedUser) && selectedRole == old(selectedRole)
    {
      if newUserEmail == "" || newUserPassword == "" || newUserFullName == "" {
        return Refused(FieldsMissing);
      }
      if !authAccepted {
        return Refused(AuthRejected);
      }
      newUserEmail := "";
      newUserPassword := "";
      newUserFullName := "";
      outcome := Done;
    }

    /** The page renders its administration content for an admin and the refusal card otherwise. */
    function View(): (v: AdminView)
      reads this
      ensures v == AdminContent <==> isAdmin
      ensures v == AccessDenied <==> !isAdmin
    {
      if isAdmin then AdminContent else AccessDenied
    }
  }
}
