/**
 * The admin routes of server.js, every one behind requireAdmin: the
 * registration switch, the user list, user deletion, the admin toggle and
 * the system counts.
 */
module Admin {
  import opened Common
  import opened Schema
  import Accounts

  const SelfDelete: Status := Fail(400, "Cannot delete your own account")
  const UserNotFound: Status := Fail(404, "User not found")

  /** GET /api/admin/settings: a missing row reads as allow_registration = 1. */
  function GetSystemSettings(db: Db, s: Option<Session>): (r: Answer<bool>)
    ensures r.status == Ok <==> AdminSession(s)
    ensures r.status != Ok ==> r == Answer(AdminRequired, None)
    ensures r.status == Ok ==> r.body == Some(db.systemSettings != Some(false))
  {
    AdminGuarded(s, if db.systemSettings.Some? then db.systemSettings.value else true)
  }

  /**
   * PUT /api/admin/settings: an UPDATE of row 1 with the truthiness of the
   * request's flag; without the row it changes nothing and returns no row.
   */
  function UpdateSystemSettings(db: Db, s: Option<Session>, allow: bool): (r: Step<Option<bool>>)
    ensures !AdminSession(s) ==> r == Step(AdminRequired, db, None)
    ensures AdminSession(s) ==>
              && r.status == Ok
              && r.db == db.(systemSettings := r.db.systemSettings)
              && r.db.systemSettings == (if db.systemSettings.Some? then Some(allow) else None)
              && r.out == r.db.systemSettings
    ensures db.Valid() ==> r.db.Valid()
  {
    if !AdminSession(s) then Step(AdminRequired, db, None)
    else
      var row := if db.systemSettings.Some? then Some(allow) else None;
      Step(Ok, db.(systemSettings := row), row)
  }

  /** A user as the admin list shows it: no password hash. */
  datatype UserView = UserView(username: string, isAdmin: bool)

  /** GET /api/admin/users (its created_at order is not modelled). */
  function ListUsers(db: Db, s: Option<Session>): (r: Answer<map<UserId, UserView>>)
    ensures r.status == Ok <==> AdminSession(s)
    ensures r.status != Ok ==> r == Answer(AdminRequired, None)
    ensures r.status == Ok ==>
              && r.body.Some?
              && r.body.value.Keys == db.users.Keys
              && forall id :: id in r.body.value ==>
                   r.body.value[id] == UserView(db.users[id].username, db.users[id].isAdmin)
  {
    AdminGuarded(s, map id | id in db.users :: UserView(db.users[id].username, db.users[id].isAdmin))
  }

  /**
   * DELETE /api/admin/users/:id: an admin cannot delete their own account;
   * any other id is deleted with everything it owns (an unknown id is a
   * successful no-op).
   */
  function DeleteUser(db: Db, s: Option<Session>, id: UserId): (r: Step<()>)
    ensures !AdminSession(s) ==> r == Step(AdminRequired, db, ())
    ensures AdminSession(s) && id == s.value.userId ==> r == Step(SelfDelete, db, ())
    ensures r.status == Ok <==> AdminSession(s) && id != s.value.userId
    ensures r.status == Ok ==>
              && id !in r.db.users
              && Own(r.db, id) == UserRows(None, map[], map[], {})
              && r.db.users == db.users - {id}
              && r.db == DeleteUserRow(db, id)
              && r.db.systemSettings == db.systemSettings
              && r.db.nextUserId == db.nextUserId && r.db.nextBillId == db.nextBillId
    ensures r.status != Ok ==> r.db == db
    ensures db.Valid() ==> r.db.Valid()
  {
    if !AdminSession(s) then Step(AdminRequired, db, ())
    else if id == s.value.userId then Step(SelfDelete, db, ())
    else
      var after := DeleteUserRow(db, id);
      DeleteUserRowValid(db, id);
      assert Own(after, id).bills == map[];
      assert Own(after, id).overrides == map[];
      assert Own(after, id).cleared == {};
      Step(Ok, after, ())
  }

  /** Deleting one user leaves every other user, and every row they own, as it was. */
  lemma DeleteUserKeepsOthers(db: Db, s: Option<Session>, id: UserId, other: UserId)
    requires db.Valid()
    requires other != id
    ensures var after := DeleteUser(db, s, id).db;
            && (other in after.users <==> other in db.users)
            && (other in db.users ==> after.users[other] == db.users[other])
            && Own(after, other) == Own(db, other)
  {
    if AdminSession(s) && id != s.value.userId {
      var after := DeleteUserRow(db, id);
      DeleteUserRowValid(db, id);
      var a, b := Own(after, other), Own(db, other);
      assert a.bills == b.bills;
      forall k | k in b.overrides
        ensures k in a.overrides
      {
        assert k in after.overrides;
      }
      assert a.overrides == b.overrides;
      assert a.cleared == b.cleared;
      assert a.settings == b.settings;
    }
  }

  /**
   * POST /api/admin/users/:id/toggle-admin: 404 for an unknown id, otherwise
   * is_admin flips and the new value is returned.
   */
  function ToggleAdmin(db: Db, s: Option<Session>, id: UserId): (r: Step<Option<bool>>)
    ensures !AdminSession(s) ==> r == Step(AdminRequired, db, None)
    ensures AdminSession(s) && id !in db.users ==> r == Step(UserNotFound, db, None)
    ensures AdminSession(s) && id in db.users ==>
              && r.status == Ok
              && r.out == Some(!db.users[id].isAdmin)
              && r.db.users.Keys == db.users.Keys
              && r.db.users[id] == db.users[id].(isAdmin := r.out.value)
              && (forall other :: other in db.users && other != id ==> r.db.users[other] == db.users[other])
              && r.db == db.(users := r.db.users)
    ensures db.Valid() ==> r.db.Valid()
  {
    if !AdminSession(s) then Step(AdminRequired, db, None)
    else if id !in db.users then Step(UserNotFound, db, None)
    else
      var flipped := !db.users[id].isAdmin;
      var after := db.(users := db.users[id := db.users[id].(isAdmin := flipped)]);
      assert db.Valid() ==> after.Valid() by {
        if db.Valid() {
          forall a, b | a in after.users && b in after.users && after.users[a].username == after.users[b].username
            ensures a == b
          {
            assert db.users[a].username == after.users[a].username;
            assert db.users[b].username == after.users[b].username;
          }
        }
      }
      Step(Ok, after, Some(flipped))
  }

  /** Toggling the same user twice restores the database. */
  lemma ToggleAdminTwice(db: Db, s: Option<Session>, id: UserId)
    ensures ToggleAdmin(ToggleAdmin(db, s, id).db, s, id).db == db
  {
    if AdminSession(s) && id in db.users {
      var once := ToggleAdmin(db, s, id).db;
      var twice := ToggleAdmin(once, s, id).db;
      assert twice.users == db.users;
    }
  }

  datatype SystemStats = SystemStats(totalUsers: nat, totalAdmins: nat, totalBills: nat)

  /** The ids of the users whose is_admin is 1. */
  function Admins(db: Db): (r: set<UserId>)
    ensures r <= db.users.Keys
    ensures forall id :: id in r <==> id in db.users && db.users[id].isAdmin
  {
    set id | id in db.users && db.users[id].isAdmin
  }

  lemma {:induction false} SubsetCardinality<T>(a: set<T>, b: set<T>)
    requires a <= b
    ensures |a| <= |b|
  {
    if a != {} {
      var x :| x in a;
      SubsetCardinality(a - {x}, b - {x});
    }
  }

  /** GET /api/admin/stats. */
  function Stats(db: Db, s: Option<Session>): (r: Answer<SystemStats>)
    ensures r.status == Ok <==> AdminSession(s)
    ensures r.status != Ok ==> r == Answer(AdminRequired, None)
    ensures r.status == Ok ==>
              && r.body.Some?
              && r.body.value.totalUsers == |db.users|
              && r.body.value.totalAdmins == |Admins(db)|
              && r.body.value.totalBills == |db.bills|
              && r.body.value.totalAdmins <= r.body.value.totalUsers
  {
    var admins := Admins(db);
    SubsetCardinality(admins, db.users.Keys);
    AdminGuarded(s, SystemStats(|db.users|, |admins|, |db.bills|))
  }

  /**
   * With the system_settings row in place, once an admin sets the flag,
   * registration is forbidden exactly when the flag is off.
   */
  lemma SwitchThenRegister(db: Db, s: Option<Session>, allow: bool, hash: string -> Digest,
                           username: string, password: string,
                           settings: Option<SettingsValues>, bills: seq<BillInput>)
    requires AdminSession(s) && db.systemSettings.Some?
    ensures var after := UpdateSystemSettings(db, s, allow).db;
            Accounts.Register(after, hash, username, password, settings, bills).status == Accounts.RegistrationDisabled
            <==> !allow
  {
  }
}
