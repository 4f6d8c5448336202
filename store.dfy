/**
 * The SQLite database handle of database.js together with the route
 * handlers of server.js that run statements against it. Each table is a
 * field the handlers update in place; each handler is a method whose reply
 * and new tables are those its route function in Accounts, Admin or
 * UserData prescribes, so every property proved about those functions holds
 * of the store.
 */
module Server {
  import opened Common
  import opened Schema
  import opened Ordering
  import Accounts
  import Admin
  import UserData

  class Store {
    var users: map<UserId, User>
    var systemSettings: Option<bool>
    var settings: map<UserId, Settings>
    var bills: map<BillId, Bill>
    var overrides: map<OverrideKey, Override>
    var cleared: set<ClearedKey>
    var nextUserId: UserId
    var nextBillId: BillId
    /** bcrypt, as an uninterpreted function: a password matches a digest when it hashes to it. */
    const hash: string -> Digest

    /** The tables as one value. */
    function Snapshot(): Db
      reads this
    {
      Db(users, systemSettings, settings, bills, overrides, cleared, nextUserId, nextBillId)
    }

    /** The constraints of the schema. */
    predicate Valid()
      reads this
    {
      Snapshot().Valid()
    }

    /** Opening a new database file and creating its tables. */
    constructor(hash: string -> Digest)
      ensures Snapshot() == EmptyDb()
      ensures this.hash == hash
    {
      users := map[];
      systemSettings := None;
      settings := map[];
      bills := map[];
      overrides := map[];
      cleared := {};
      nextUserId := 1;
      nextBillId := 1;
      this.hash := hash;
    }

    /** initDatabase: seeds the system_settings row when the table is empty. */
    method InitDatabase()
      requires Valid()
      modifies this
      ensures Valid()
      ensures Snapshot() == Schema.InitDatabase(old(Snapshot()))
    {
      if systemSettings.None? {
        systemSettings := Some(true);
      }
    }

    // ---------- account routes ----------

    /** GET /api/setup/status. */
    method SetupStatus() returns (r: Accounts.SetupState)
      ensures r == Accounts.SetupStatus(Snapshot())
      ensures r.needsSetup <==> users == map[]
    {
      var userCount := |users|;
      assert userCount == 0 <==> users == map[] by {
        assert |users.Keys| == userCount;
        assert users == map[] <==> users.Keys == {};
      }
      var allow := if systemSettings.Some? then systemSettings.value else true;
      r := Accounts.SetupState(userCount == 0, allow, userCount > 0);
    }

    /** One bill INSERT: on a constraint violation nothing changes. */
    method InsertBill(uid: UserId, input: BillInput) returns (ok: bool)
      modifies this
      ensures ok <==> Schema.InsertBill(old(Snapshot()), uid, input).Some?
      ensures ok ==> Snapshot() == Schema.InsertBill(old(Snapshot()), uid, input).value
      ensures !ok ==> Snapshot() == old(Snapshot())
    {
      var row := BillFromInput(uid, input);
      if uid !in users || row.None? {
        return false;
      }
      bills := bills[nextBillId := row.value];
      nextBillId := nextBillId + 1;
      return true;
    }

    /**
     * `bills.forEach(insertBill.run)`: one INSERT per bill, in order; the
     * first one that fails throws out of the loop.
     */
    method InsertBills(uid: UserId, inputs: seq<BillInput>) returns (ok: bool)
      modifies this
      ensures Accounts.InsertBills(old(Snapshot()), uid, inputs) == Accounts.Inserted(ok, Snapshot())
    {
      var i := 0;
      while i < |inputs|
        invariant 0 <= i <= |inputs|
        invariant Accounts.InsertBills(old(Snapshot()), uid, inputs) == Accounts.InsertBills(Snapshot(), uid, inputs[i..])
      {
        assert inputs[i..][1..] == inputs[i + 1..];
        ok := InsertBill(uid, inputs[i]);
        if !ok {
          return;
        }
        i := i + 1;
      }
      return true;
    }

    /**
     * The user, settings and bills INSERTs of setup and registration, run as
     * independent statements; the session is opened only if all succeed.
     */
    method CreateAccount(username: string, password: string, isAdmin: bool,
                         settingsIn: Option<SettingsValues>, billsIn: seq<BillInput>)
      returns (status: Status, session: Option<Session>)
      requires Valid()
      modifies this
      ensures Valid()
      ensures Step(status, Snapshot(), session)
              == Accounts.CreateAccount(old(Snapshot()), hash, username, password, isAdmin, settingsIn, billsIn)
    {
      ghost var before := Snapshot();
      ghost var spec := Accounts.CreateAccount(before, hash, username, password, isAdmin, settingsIn, billsIn);
      assert spec.db.Valid();
      if NameTaken(users, username) {
        return ServerError, None;
      }
      var userId := nextUserId;
      users := users[userId := User(username, hash(password), isAdmin)];
      nextUserId := nextUserId + 1;
      ghost var withUser := Snapshot();
      assert withUser == before.(users := before.users[userId := User(username, hash(password), isAdmin)],
                                 nextUserId := userId + 1);
      if settingsIn.None? {
        assert Snapshot() == spec.db;
        return ServerError, None;
      }
      settings := settings[userId := Settings(settingsIn.value, true)];
      assert Snapshot() == withUser.(settings := withUser.settings[userId := Settings(settingsIn.value, true)]);
      var ok := InsertBills(userId, billsIn);
      assert Snapshot() == spec.db;
      if !ok {
        return ServerError, None;
      }
      return Ok, Some(Session(userId, username, isAdmin));
    }

    /** POST /api/setup/initialize. */
    method Initialize(username: string, password: string, settingsIn: Option<SettingsValues>, billsIn: seq<BillInput>)
      returns (status: Status, session: Option<Session>)
      requires Valid()
      modifies this
      ensures Valid()
      ensures Step(status, Snapshot(), session)
              == Accounts.Initialize(old(Snapshot()), hash, username, password, settingsIn, billsIn)
    {
      if |users| > 0 {
        return Accounts.SetupDone, None;
      }
      status, session := CreateAccount(username, password, true, settingsIn, billsIn);
    }

    /** POST /api/auth/register. */
    method Register(username: string, password: string, settingsIn: Option<SettingsValues>, billsIn: seq<BillInput>)
      returns (status: Status, session: Option<Session>)
      requires Valid()
      modifies this
      ensures Valid()
      ensures Step(status, Snapshot(), session)
              == Accounts.Register(old(Snapshot()), hash, username, password, settingsIn, billsIn)
    {
      if systemSettings.None? || !systemSettings.value {
        return Accounts.RegistrationDisabled, None;
      }
      if exists id :: id in users && users[id].username == username {
        return Accounts.UsernameExists, None;
      }
      status, session := CreateAccount(username, password, false, settingsIn, billsIn);
    }

    /** POST /api/auth/login. */
    method Login(username: string, password: string) returns (status: Status, session: Option<Session>)
      requires Valid()
      ensures Answer(status, session) == Accounts.Login(Snapshot(), hash, username, password)
    {
      if !exists id :: id in users && users[id].username == username {
        return Accounts.InvalidCredentials, None;
      }
      var id :| id in users && users[id].username == username;
      var user := users[id];
      if user.passwordHash != hash(password) {
        return Accounts.InvalidCredentials, None;
      }
      return Ok, Some(Session(id, user.username, user.isAdmin));
    }

    /** POST /api/auth/change-password. */
    method ChangePassword(s: Option<Session>, currentPassword: string, newPassword: string) returns (status: Status)
      requires Valid()
      modifies this
      ensures Valid()
      ensures Step(status, Snapshot(), ()) == Accounts.ChangePassword(old(Snapshot()), hash, s, currentPassword, newPassword)
    {
      if !Authenticated(s) {
        return Unauthorized;
      }
      var userId := s.value.userId;
      if userId !in users {
        return ServerError;
      }
      if users[userId].passwordHash != hash(currentPassword) {
        return Accounts.WrongCurrentPassword;
      }
      users := users[userId := users[userId].(passwordHash := hash(newPassword))];
      return Ok;
    }

    // ---------- admin routes ----------

    /** GET /api/admin/settings. */
    method GetSystemSettings(s: Option<Session>) returns (status: Status, allow: Option<bool>)
      ensures Answer(status, allow) == Admin.GetSystemSettings(Snapshot(), s)
    {
      if !AdminSession(s) {
        return AdminRequired, None;
      }
      if systemSettings.Some? {
        return Ok, systemSettings;
      }
      return Ok, Some(true);
    }

    /** PUT /api/admin/settings. */
    method UpdateSystemSettings(s: Option<Session>, allow: bool) returns (status: Status, row: Option<bool>)
      requires Valid()
      modifies this
      ensures Valid()
      ensures Step(status, Snapshot(), row) == Admin.UpdateSystemSettings(old(Snapshot()), s, allow)
    {
      if !AdminSession(s) {
        return AdminRequired, None;
      }
      if systemSettings.Some? {
        systemSettings := Some(allow);
      }
      return Ok, systemSettings;
    }

    /** GET /api/admin/users. */
    method ListUsers(s: Option<Session>) returns (status: Status, list: Option<map<UserId, Admin.UserView>>)
      ensures Answer(status, list) == Admin.ListUsers(Snapshot(), s)
    {
      if !AdminSession(s) {
        return AdminRequired, None;
      }
      return Ok, Some(map id | id in users :: Admin.UserView(users[id].username, users[id].isAdmin));
    }

    /** DELETE /api/admin/users/:id, with every ON DELETE CASCADE. */
    method DeleteUser(s: Option<Session>, id: UserId) returns (status: Status)
      requires Valid()
      modifies this
      ensures Valid()
      ensures Step(status, Snapshot(), ()) == Admin.DeleteUser(old(Snapshot()), s, id)
    {
      if !AdminSession(s) {
        return AdminRequired;
      }
      if id == s.value.userId {
        return Admin.SelfDelete;
      }
      DeleteUserRow(id);
      return Ok;
    }

    /** `DELETE FROM users WHERE id = ?` with its cascades, the user's bills collected first. */
    method DeleteUserRow(id: UserId)
      modifies this
      ensures Snapshot() == Schema.DeleteUserRow(old(Snapshot()), id)
    {
      var gone := set b | b in bills && bills[b].userId == id;
      users := users - {id};
      settings := settings - {id};
      overrides := map k | k in overrides && overrides[k].userId != id && k.billId !in gone :: overrides[k];
      bills := map b | b in bills && bills[b].userId != id :: bills[b];
      cleared := set c | c in cleared && c.userId != id;
    }

    /** POST /api/admin/users/:id/toggle-admin. */
    method ToggleAdmin(s: Option<Session>, id: UserId) returns (status: Status, isAdmin: Option<bool>)
      requires Valid()
      modifies this
      ensures Valid()
      ensures Step(status, Snapshot(), isAdmin) == Admin.ToggleAdmin(old(Snapshot()), s, id)
    {
      if !AdminSession(s) {
        return AdminRequired, None;
      }
      if id !in users {
        return Admin.UserNotFound, None;
      }
      var newAdminStatus := !users[id].isAdmin;
      users := users[id := users[id].(isAdmin := newAdminStatus)];
      return Ok, Some(newAdminStatus);
    }

    /** GET /api/admin/stats. */
    method Stats(s: Option<Session>) returns (status: Status, stats: Option<Admin.SystemStats>)
      ensures Answer(status, stats) == Admin.Stats(Snapshot(), s)
    {
      if !AdminSession(s) {
        return AdminRequired, None;
      }
      var admins := set id | id in users && users[id].isAdmin;
      return Ok, Some(Admin.SystemStats(|users|, |admins|, |bills|));
    }

    // ---------- user data routes ----------

    /** GET /api/settings. */
    method GetSettings(s: Option<Session>) returns (status: Status, row: Option<Option<Settings>>)
      ensures Answer(status, row) == UserData.GetSettings(Snapshot(), s)
    {
      if !Authenticated(s) {
        return Unauthorized, None;
      }
      if s.value.userId in settings {
        return Ok, Some(Some(settings[s.value.userId]));
      }
      return Ok, Some(None);
    }

    /** PUT /api/settings. */
    method UpdateSettings(s: Option<Session>, values: Option<SettingsValues>) returns (status: Status, row: Option<Settings>)
      requires Valid()
      modifies this
      ensures Valid()
      ensures Step(status, Snapshot(), row) == UserData.UpdateSettings(old(Snapshot()), s, values)
    {
      if !Authenticated(s) {
        return Unauthorized, None;
      }
      var userId := s.value.userId;
      if userId !in settings {
        return Ok, None;
      }
      if values.None? {
        return ServerError, None;
      }
      settings := settings[userId := Settings(values.value, settings[userId].setupCompleted)];
      return Ok, Some(settings[userId]);
    }

    /**
     * GET /api/bills: the caller's bills in `ORDER BY due_day, name` order,
     * built by inserting each owned bill into place.
     */
    method ListBills(s: Option<Session>) returns (status: Status, rows: seq<BillRow>)
      ensures status == Ok <==> Authenticated(s)
      ensures status != Ok ==> status == Unauthorized && rows == []
      ensures status == Ok ==> UserData.IsBillListing(Snapshot(), s.value.userId, rows)
    {
      if !Authenticated(s) {
        return Unauthorized, [];
      }
      var userId := s.value.userId;
      var owned := map b | b in bills && bills[b].userId == userId :: bills[b];
      rows := SortRows(owned);
      forall i | 0 <= i < |rows|
        ensures rows[i].id in bills && bills[rows[i].id] == rows[i].bill && rows[i].bill.userId == userId
      {
        assert rows[i] in rows;
      }
      return Ok, rows;
    }

    /** POST /api/bills. */
    method CreateBill(s: Option<Session>, input: BillInput) returns (status: Status, row: Option<BillRow>)
      requires Valid()
      modifies this
      ensures Valid()
      ensures Step(status, Snapshot(), row) == UserData.CreateBill(old(Snapshot()), s, input)
    {
      if !Authenticated(s) {
        return Unauthorized, None;
      }
      var id := nextBillId;
      var ok := InsertBill(s.value.userId, input);
      if !ok {
        return ServerError, None;
      }
      return Ok, Some(BillRow(id, bills[id]));
    }

    /** PUT /api/bills/:id. */
    method UpdateBill(s: Option<Session>, id: BillId, input: BillInput) returns (status: Status, row: Option<BillRow>)
      requires Valid()
      modifies this
      ensures Valid()
      ensures Step(status, Snapshot(), row) == UserData.UpdateBill(old(Snapshot()), s, id, input)
    {
      if !Authenticated(s) {
        return Unauthorized, None;
      }
      if !(id in bills && bills[id].userId == s.value.userId) {
        return UserData.BillNotFound, None;
      }
      var updated := BillFromInput(s.value.userId, input);
      if updated.None? {
        return ServerError, None;
      }
      bills := bills[id := updated.value];
      return Ok, Some(BillRow(id, bills[id]));
    }

    /** DELETE /api/bills/:id, cascading to the bill's overrides. */
    method DeleteBill(s: Option<Session>, id: BillId) returns (status: Status)
      requires Valid()
      modifies this
      ensures Valid()
      ensures Step(status, Snapshot(), ()) == UserData.DeleteBill(old(Snapshot()), s, id)
    {
      if !Authenticated(s) {
        return Unauthorized;
      }
      if id in bills && bills[id].userId == s.value.userId {
        bills := bills - {id};
        overrides := map k | k in overrides && k.billId != id :: overrides[k];
      }
      return Ok;
    }

    /** GET /api/overrides. */
    method ListOverrides(s: Option<Session>) returns (status: Status, list: Option<map<OverrideKey, Override>>)
      ensures Answer(status, list) == UserData.ListOverrides(Snapshot(), s)
    {
      if !Authenticated(s) {
        return Unauthorized, None;
      }
      return Ok, Some(map k | k in overrides && overrides[k].userId == s.value.userId :: overrides[k]);
    }

    /** POST /api/overrides: the upsert `ON CONFLICT(bill_id, year, month) DO UPDATE SET amount`. */
    method SetOverride(s: Option<Session>, billId: BillId, year: Option<int>, month: Option<int>, amount: Option<Amount>)
      returns (status: Status)
      requires Valid()
      modifies this
      ensures Valid()
      ensures Step(status, Snapshot(), ()) == UserData.SetOverride(old(Snapshot()), s, billId, year, month, amount)
    {
      if !Authenticated(s) {
        return Unauthorized;
      }
      if !(billId in bills && bills[billId].userId == s.value.userId) {
        return UserData.BillNotFound;
      }
      if year.None? || month.None? || !(0 <= month.value <= 11) || amount.None? {
        return ServerError;
      }
      var k := OverrideKey(billId, year.value, month.value);
      if k in overrides {
        overrides := overrides[k := overrides[k].(amount := amount.value)];
      } else {
        overrides := overrides[k := Override(s.value.userId, amount.value)];
      }
      return Ok;
    }

    /** DELETE /api/overrides/:bill_id/:year/:month. */
    method DeleteOverride(s: Option<Session>, billId: BillId, year: int, month: int) returns (status: Status)
      requires Valid()
      modifies this
      ensures Valid()
      ensures Step(status, Snapshot(), ()) == UserData.DeleteOverride(old(Snapshot()), s, billId, year, month)
    {
      if !Authenticated(s) {
        return Unauthorized;
      }
      var k := OverrideKey(billId, year, month);
      if k in overrides && overrides[k].userId == s.value.userId {
        overrides := overrides - {k};
      }
      return Ok;
    }

    /** GET /api/cleared. */
    method ListCleared(s: Option<Session>) returns (status: Status, keys: Option<set<string>>)
      ensures Answer(status, keys) == UserData.ListCleared(Snapshot(), s)
    {
      if !Authenticated(s) {
        return Unauthorized, None;
      }
      return Ok, Some(set c | c in cleared && c.userId == s.value.userId :: c.key);
    }

    /** POST /api/cleared/toggle. */
    method ToggleCleared(s: Option<Session>, key: string) returns (status: Status, isCleared: Option<bool>)
      requires Valid()
      modifies this
      ensures Valid()
      ensures Step(status, Snapshot(), isCleared) == UserData.ToggleCleared(old(Snapshot()), s, key)
    {
      if !Authenticated(s) {
        return Unauthorized, None;
      }
      var c := ClearedKey(s.value.userId, key);
      if c in cleared {
        cleared := cleared - {c};
        return Ok, Some(false);
      }
      if s.value.userId !in users {
        return ServerError, None;
      }
      cleared := cleared + {c};
      return Ok, Some(true);
    }

    /** GET /api/export. */
    method Export(s: Option<Session>) returns (status: Status, doc: Option<UserData.ExportDoc>)
      ensures Answer(status, doc) == UserData.Export(Snapshot(), s)
    {
      if !Authenticated(s) {
        return Unauthorized, None;
      }
      var userId := s.value.userId;
      var row := if userId in settings then Some(settings[userId]) else None;
      var ownBills := map b | b in bills && bills[b].userId == userId :: bills[b];
      var ownOverrides := map k | k in overrides && overrides[k].userId == userId :: overrides[k];
      var ownCleared := set c | c in cleared && c.userId == userId :: c.key;
      return Ok, Some(UserData.ExportDoc(s.value.username, UserRows(row, ownBills, ownOverrides, ownCleared)));
    }
  }
}
