/**
 * The account routes of server.js: setup status, first-user setup,
 * registration, login, auth status and password change. Each route is a
 * function from the database (and the request) to its reply and the new
 * database; the store class runs the same steps in place.
 */
module Accounts {
  import opened Common
  import opened Schema
  import UserData

  const SetupDone: Status := Fail(400, "Setup already completed")
  const RegistrationDisabled: Status := Fail(403, "Registration is currently disabled. Please contact an administrator.")
  const UsernameExists: Status := Fail(400, "Username already exists")
  const InvalidCredentials: Status := Fail(401, "Invalid username or password")
  const WrongCurrentPassword: Status := Fail(401, "Current password is incorrect")

  datatype SetupState = SetupState(needsSetup: bool, allowRegistration: bool, hasUsers: bool)

  /** GET /api/setup/status. A missing system_settings row reads as "registration allowed". */
  function SetupStatus(db: Db): (r: SetupState)
    ensures r.needsSetup <==> db.users == map[]
    ensures r.hasUsers <==> !r.needsSetup
    ensures r.allowRegistration <==> db.systemSettings != Some(false)
  {
    var n := |db.users|;
    assert n == 0 <==> db.users == map[] by {
      assert |db.users.Keys| == n;
      assert db.users == map[] <==> db.users.Keys == {};
    }
    SetupState(n == 0, if db.systemSettings.Some? then db.systemSettings.value else true, n > 0)
  }

  datatype Inserted = Inserted(ok: bool, db: Db)

  /**
   * The `bills.forEach(insertBill.run)` of setup and registration: the bills
   * are inserted one statement at a time, and the first statement that
   * fails throws out of the loop, keeping the bills inserted before it.
   */
  function InsertBills(db: Db, uid: UserId, inputs: seq<BillInput>): (r: Inserted)
    ensures r.db == db.(bills := r.db.bills, nextBillId := r.db.nextBillId)
    ensures db.nextBillId <= r.db.nextBillId <= db.nextBillId + |inputs|
    ensures r.ok ==> r.db.nextBillId == db.nextBillId + |inputs|
    decreases |inputs|
  {
    if inputs == [] then Inserted(true, db)
    else match InsertBill(db, uid, inputs[0])
      case None => Inserted(false, db)
      case Some(next) => InsertBills(next, uid, inputs[1..])
  }

  /** The loop runs to the end exactly when every bill is acceptable and the user exists. */
  lemma {:induction false} InsertBillsOk(db: Db, uid: UserId, inputs: seq<BillInput>)
    ensures InsertBills(db, uid, inputs).ok <==>
              && (inputs == [] || uid in db.users)
              && forall i :: 0 <= i < |inputs| ==> BillFromInput(uid, inputs[i]).Some?
    decreases |inputs|
  {
    if inputs != [] {
      match InsertBill(db, uid, inputs[0])
      case None =>
      case Some(next) =>
        InsertBillsOk(next, uid, inputs[1..]);
        assert forall i :: 1 <= i < |inputs| ==> inputs[i] == inputs[1..][i - 1];
    }
  }

  /**
   * The bills inserted are the valid prefix of the request, in order, under
   * consecutive new ids.
   */
  lemma {:induction false} InsertBillsRows(db: Db, uid: UserId, inputs: seq<BillInput>, i: int)
    requires 0 <= i < InsertBills(db, uid, inputs).db.nextBillId - db.nextBillId
    ensures var r := InsertBills(db, uid, inputs);
            db.nextBillId + i in r.db.bills && Some(r.db.bills[db.nextBillId + i]) == BillFromInput(uid, inputs[i])
    decreases |inputs|
  {
    var next := InsertBill(db, uid, inputs[0]).value;
    var r := InsertBills(next, uid, inputs[1..]);
    assert InsertBills(db, uid, inputs) == r;
    if i == 0 {
      InsertBillsKeeps(next, uid, inputs[1..]);
    } else {
      InsertBillsRows(next, uid, inputs[1..], i - 1);
    }
  }

  /** Every bill outside the new ids is left as it was. */
  lemma {:induction false} InsertBillsKeeps(db: Db, uid: UserId, inputs: seq<BillInput>)
    ensures var r := InsertBills(db, uid, inputs);
            forall b :: !(db.nextBillId <= b < r.db.nextBillId) ==>
              (b in r.db.bills <==> b in db.bills) && (b in db.bills ==> r.db.bills[b] == db.bills[b])
    decreases |inputs|
  {
    if inputs != [] && InsertBill(db, uid, inputs[0]).Some? {
      var next := InsertBill(db, uid, inputs[0]).value;
      assert InsertBills(db, uid, inputs) == InsertBills(next, uid, inputs[1..]);
      InsertBillsKeeps(next, uid, inputs[1..]);
    }
  }

  /** Inserting the bills keeps the schema's constraints and only adds bills of `uid`. */
  lemma {:induction false} InsertBillsValid(db: Db, uid: UserId, inputs: seq<BillInput>)
    ensures var r := InsertBills(db, uid, inputs);
            db.Valid() ==>
            && r.db.Valid()
            && (forall b :: b in db.bills ==> b in r.db.bills && r.db.bills[b] == db.bills[b])
            && (forall b :: b in r.db.bills && b !in db.bills ==> r.db.bills[b].userId == uid)
    decreases |inputs|
  {
    if inputs != [] {
      match InsertBill(db, uid, inputs[0])
      case None =>
      case Some(next) =>
        InsertBillsValid(next, uid, inputs[1..]);
    }
  }

  /**
   * The outcome of the bills loop, from the bills table `bills0` with next
   * id `next0` to `bills1` with next id `next1`: the request's bills in
   * order under consecutive new ids, up to the first that fails (all of them
   * when `ok`), and every older bill as it was.
   */
  ghost predicate BillsStored(bills0: map<BillId, Bill>, next0: BillId, bills1: map<BillId, Bill>, next1: BillId,
                              uid: UserId, inputs: seq<BillInput>, ok: bool)
  {
    && next0 <= next1 <= next0 + |inputs|
    && (ok ==> next1 == next0 + |inputs|)
    && (forall b :: !(next0 <= b < next1) ==> (b in bills1 <==> b in bills0) && (b in bills0 ==> bills1[b] == bills0[b]))
    && (forall b :: next0 <= b < next1 ==> b in bills1 && Some(bills1[b]) == BillFromInput(uid, inputs[b - next0]))
  }

  /** Every new id holds the request's bill at the same position. */
  lemma InsertBillsNew(db: Db, uid: UserId, inputs: seq<BillInput>)
    ensures var r := InsertBills(db, uid, inputs);
            forall b :: db.nextBillId <= b < r.db.nextBillId ==>
              b in r.db.bills && Some(r.db.bills[b]) == BillFromInput(uid, inputs[b - db.nextBillId])
  {
    var r := InsertBills(db, uid, inputs);
    forall b | db.nextBillId <= b < r.db.nextBillId
      ensures b in r.db.bills && Some(r.db.bills[b]) == BillFromInput(uid, inputs[b - db.nextBillId])
    {
      InsertBillsRows(db, uid, inputs, b - db.nextBillId);
    }
  }

  /** The bills loop stores what `BillsStored` describes. */
  lemma InsertBillsStored(db: Db, uid: UserId, inputs: seq<BillInput>)
    ensures var r := InsertBills(db, uid, inputs);
            BillsStored(db.bills, db.nextBillId, r.db.bills, r.db.nextBillId, uid, inputs, r.ok)
  {
    InsertBillsKeeps(db, uid, inputs);
    InsertBillsNew(db, uid, inputs);
  }

  /**
   * A loop that fails stopped at a bill it could not insert: the number of
   * bills stored is the position of a request that failed its constraints,
   * or the user does not exist.
   */
  lemma {:induction false} InsertBillsStops(db: Db, uid: UserId, inputs: seq<BillInput>)
    ensures var r := InsertBills(db, uid, inputs);
            !r.ok ==>
              var n := r.db.nextBillId - db.nextBillId;
              n < |inputs| && (uid !in db.users || BillFromInput(uid, inputs[n]).None?)
    decreases |inputs|
  {
    if inputs != [] {
      match InsertBill(db, uid, inputs[0])
      case None =>
      case Some(next) =>
        InsertBillsStops(next, uid, inputs[1..]);
    }
  }

  /**
   * A bills loop from next id `next0` to `next1` that did not complete
   * stopped at the first bill it stored nothing for, and that bill fails its
   * constraints.
   */
  ghost predicate StoppedAtFailure(next0: BillId, next1: BillId, uid: UserId, inputs: seq<BillInput>, ok: bool)
  {
    !ok ==> var n := next1 - next0; 0 <= n < |inputs| && BillFromInput(uid, inputs[n]).None?
  }

  /**
   * Everything setup and registration rely on about the bills loop for an
   * existing user: where it stores the bills, where it stops, when it
   * completes, and that it keeps the constraints.
   */
  lemma InsertBillsOutcome(db: Db, uid: UserId, inputs: seq<BillInput>)
    requires uid in db.users
    ensures var r := InsertBills(db, uid, inputs);
            && BillsStored(db.bills, db.nextBillId, r.db.bills, r.db.nextBillId, uid, inputs, r.ok)
            && StoppedAtFailure(db.nextBillId, r.db.nextBillId, uid, inputs, r.ok)
            && (r.ok <==> forall i :: 0 <= i < |inputs| ==> BillFromInput(uid, inputs[i]).Some?)
            && (db.Valid() ==> r.db.Valid())
            && (db.Valid() ==> forall b :: b in r.db.bills && b !in db.bills ==> r.db.bills[b].userId == uid)
  {
    InsertBillsOk(db, uid, inputs);
    InsertBillsValid(db, uid, inputs);
    InsertBillsStored(db, uid, inputs);
    InsertBillsStops(db, uid, inputs);
  }

  /**
   * What setup and registration leave behind once the username is free: the
   * user under the next id; when settings were sent, their row with
   * setup_completed = 1 and the outcome of the bills loop (the request's
   * bills in order under consecutive new ids, every older bill as it was,
   * and on a failure exactly the bills before the first one that fails its
   * constraints); no other table changes. The session is opened exactly when
   * every statement succeeded.
   */
  ghost predicate AccountCreated(db: Db, r: Step<Option<Session>>, user: User,
                           settings: Option<SettingsValues>, bills: seq<BillInput>)
  {
    var uid := db.nextUserId;
    && r.db.users == db.users[uid := user]
    && r.db.nextUserId == uid + 1
    && r.db.systemSettings == db.systemSettings
    && r.db.overrides == db.overrides
    && r.db.cleared == db.cleared
    && (r.status == Ok <==> settings.Some? && forall i :: 0 <= i < |bills| ==> BillFromInput(uid, bills[i]).Some?)
    && (r.status == Ok ==> r.out == Some(Session(uid, user.username, user.isAdmin)))
    && (r.status != Ok ==> r.status == ServerError && r.out == None)
    && (settings.None? ==> r.db == db.(users := r.db.users, nextUserId := r.db.nextUserId))
    && (settings.Some? ==>
          && r.db.settings == db.settings[uid := Settings(settings.value, true)]
          && BillsStored(db.bills, db.nextBillId, r.db.bills, r.db.nextBillId, uid, bills, r.status == Ok)
          && StoppedAtFailure(db.nextBillId, r.db.nextBillId, uid, bills, r.status == Ok))
  }

  /**
   * The common part of setup and registration: insert the user, then the
   * settings row, then the bills, as independent statements, and log the
   * new user in only when all of them succeed. A failure after the user
   * insert leaves the user (and whatever followed it) in place.
   */
  function CreateAccount(db: Db, hash: string -> Digest, username: string, password: string, isAdmin: bool,
                         settings: Option<SettingsValues>, bills: seq<BillInput>): (r: Step<Option<Session>>)
    ensures NameTaken(db.users, username) ==> r == Step(ServerError, db, None)
    ensures !NameTaken(db.users, username) ==> AccountCreated(db, r, User(username, hash(password), isAdmin), settings, bills)
    ensures db.Valid() ==> r.db.Valid()
    ensures db.Valid() ==> forall b :: b in r.db.bills && b !in db.bills ==> r.db.bills[b].userId == db.nextUserId
  {
    if NameTaken(db.users, username) then Step(ServerError, db, None)
    else
      var uid := db.nextUserId;
      var withUser := db.(users := db.users[uid := User(username, hash(password), isAdmin)], nextUserId := uid + 1);
      assert db.Valid() ==> withUser.Valid();
      if settings.None? then Step(ServerError, withUser, None)
      else
        var withSettings := withUser.(settings := withUser.settings[uid := Settings(settings.value, true)]);
        var inserted := InsertBills(withSettings, uid, bills);
        assert db.Valid() ==> withSettings.Valid();
        InsertBillsOutcome(withSettings, uid, bills);
        if inserted.ok then Step(Ok, inserted.db, Some(Session(uid, username, isAdmin)))
        else Step(ServerError, inserted.db, None)
  }

  /**
   * Creating an account touches no row of any other user: other users keep
   * their accounts and everything they own.
   */
  lemma CreateAccountIsolated(db: Db, hash: string -> Digest, username: string, password: string, isAdmin: bool,
                              settings: Option<SettingsValues>, bills: seq<BillInput>, other: UserId)
    requires db.Valid()
    requires other != db.nextUserId
    ensures var after := CreateAccount(db, hash, username, password, isAdmin, settings, bills).db;
            && (other in after.users <==> other in db.users)
            && (other in db.users ==> after.users[other] == db.users[other])
            && Own(after, other) == Own(db, other)
  {
    var after := CreateAccount(db, hash, username, password, isAdmin, settings, bills).db;
    if !NameTaken(db.users, username) && settings.Some? {
      forall b | b in db.bills
        ensures b in after.bills && after.bills[b] == db.bills[b]
      {
        assert b < db.nextBillId;
      }
      assert Own(after, other).bills == Own(db, other).bills;
    }
  }

  /** POST /api/setup/initialize: only on an empty users table; the first user is an admin. */
  function Initialize(db: Db, hash: string -> Digest, username: string, password: string,
                      settings: Option<SettingsValues>, bills: seq<BillInput>): (r: Step<Option<Session>>)
    ensures db.users != map[] ==> r == Step(SetupDone, db, None)
    ensures db.users == map[] ==>
              && r.db.users == map[db.nextUserId := User(username, hash(password), true)]
              && AccountCreated(db, r, User(username, hash(password), true), settings, bills)
    ensures r.status != Ok ==> r.out == None
    ensures r.status == Ok && db.Valid() ==> AdminSession(r.out)
    ensures db.Valid() ==> r.db.Valid()
  {
    if |db.users| > 0 then Step(SetupDone, db, None)
    else
      assert !NameTaken(db.users, username);
      CreateAccount(db, hash, username, password, true, settings, bills)
  }

  /**
   * POST /api/auth/register: forbidden when the system_settings row is
   * missing or disables registration, refused for a taken username, and
   * otherwise creates a non-admin user.
   */
  function Register(db: Db, hash: string -> Digest, username: string, password: string,
                    settings: Option<SettingsValues>, bills: seq<BillInput>): (r: Step<Option<Session>>)
    ensures db.systemSettings != Some(true) ==> r == Step(RegistrationDisabled, db, None)
    ensures db.systemSettings == Some(true) && NameTaken(db.users, username) ==> r == Step(UsernameExists, db, None)
    ensures db.systemSettings == Some(true) && !NameTaken(db.users, username) ==>
              AccountCreated(db, r, User(username, hash(password), false), settings, bills)
    ensures r.status != Ok ==> r.out == None
    ensures db.Valid() ==> r.db.Valid()
  {
    if db.systemSettings.None? || !db.systemSettings.value then Step(RegistrationDisabled, db, None)
    else if NameTaken(db.users, username) then Step(UsernameExists, db, None)
    else CreateAccount(db, hash, username, password, false, settings, bills)
  }

  /**
   * POST /api/auth/login. An unknown username and a wrong password get the
   * identical reply; a success opens a session carrying the stored admin flag.
   */
  function Login(db: Db, hash: string -> Digest, username: string, password: string): (r: Answer<Session>)
    requires UniqueUsernames(db.users)
    ensures r.status == Ok <==>
              exists id :: id in db.users && db.users[id].username == username && db.users[id].passwordHash == hash(password)
    ensures !NameTaken(db.users, username) ==> r == Answer(InvalidCredentials, None)
    ensures r.status != Ok ==> r == Answer(InvalidCredentials, None)
    ensures r.status == Ok ==>
              && r.body.Some?
              && r.body.value.userId in db.users
              && r.body.value.username == username
              && db.users[r.body.value.userId].username == username
              && r.body.value.isAdmin == db.users[r.body.value.userId].isAdmin
    ensures r.status == Ok && db.Valid() ==> Authenticated(r.body)
  {
    if !NameTaken(db.users, username) then Answer(InvalidCredentials, None)
    else
      var id :| id in db.users && db.users[id].username == username;
      var user := db.users[id];
      if user.passwordHash != hash(password) then Answer(InvalidCredentials, None)
      else Answer(Ok, Some(Session(id, user.username, user.isAdmin)))
  }

  datatype AuthView = AuthView(authenticated: bool, username: string, isAdmin: bool)

  /** GET /api/auth/status: reads the session only, never the users table. */
  function AuthStatus(s: Option<Session>): (r: AuthView)
    ensures r.authenticated <==> Authenticated(s)
    ensures r.authenticated ==> r.username == s.value.username && r.isAdmin == s.value.isAdmin
    ensures !r.authenticated ==> r == AuthView(false, "", false)
  {
    if Authenticated(s) then AuthView(true, s.value.username, s.value.isAdmin) else AuthView(false, "", false)
  }

  /**
   * POST /api/auth/change-password. A session whose user has been deleted
   * reads `password_hash` of an undefined row and fails with a 500.
   */
  function ChangePassword(db: Db, hash: string -> Digest, s: Option<Session>,
                          currentPassword: string, newPassword: string): (r: Step<()>)
    ensures !Authenticated(s) ==> r == Step(Unauthorized, db, ())
    ensures Authenticated(s) && s.value.userId !in db.users ==> r == Step(ServerError, db, ())
    ensures r.status == Ok <==>
              Authenticated(s) && s.value.userId in db.users && db.users[s.value.userId].passwordHash == hash(currentPassword)
    ensures Authenticated(s) && s.value.userId in db.users && r.status != Ok ==> r.status == WrongCurrentPassword
    ensures r.status != Ok ==> r.db == db
    ensures r.status == Ok ==>
              r.db == db.(users := db.users[s.value.userId := db.users[s.value.userId].(passwordHash := hash(newPassword))])
    ensures db.Valid() ==> r.db.Valid()
  {
    if !Authenticated(s) then Step(Unauthorized, db, ())
    else if s.value.userId !in db.users then Step(ServerError, db, ())
    else
      var uid := s.value.userId;
      if db.users[uid].passwordHash != hash(currentPassword) then Step(WrongCurrentPassword, db, ())
      else
        var r := db.(users := db.users[uid := db.users[uid].(passwordHash := hash(newPassword))]);
        assert db.Valid() ==> r.Valid() by {
          if db.Valid() {
            forall a, b | a in r.users && b in r.users && r.users[a].username == r.users[b].username
              ensures a == b
            {
              assert db.users[a].username == r.users[a].username;
              assert db.users[b].username == r.users[b].username;
            }
          }
        }
        Step(Ok, r, ())
  }

  /** After a successful registration the same credentials log in, without admin rights. */
  lemma RegisterThenLogin(db: Db, hash: string -> Digest, username: string, password: string,
                          settings: Option<SettingsValues>, bills: seq<BillInput>)
    requires db.Valid()
    requires Register(db, hash, username, password, settings, bills).status == Ok
    ensures var after := Register(db, hash, username, password, settings, bills).db;
            Login(after, hash, username, password) == Answer(Ok, Some(Session(db.nextUserId, username, false)))
  {
    var after := Register(db, hash, username, password, settings, bills).db;
    var uid := db.nextUserId;
    assert uid in after.users && after.users[uid] == User(username, hash(password), false);
    var r := Login(after, hash, username, password);
    assert r.body.value.userId == uid;
  }

  /** A new password logs in afterwards, and an old one that hashes differently no longer does. */
  lemma ChangePasswordThenLogin(db: Db, hash: string -> Digest, s: Option<Session>,
                                currentPassword: string, newPassword: string)
    requires db.Valid()
    requires ChangePassword(db, hash, s, currentPassword, newPassword).status == Ok
    ensures var after := ChangePassword(db, hash, s, currentPassword, newPassword).db;
            var name := db.users[s.value.userId].username;
            && Login(after, hash, name, newPassword).status == Ok
            && (hash(currentPassword) != hash(newPassword) ==> Login(after, hash, name, currentPassword).status != Ok)
  {
    var after := ChangePassword(db, hash, s, currentPassword, newPassword).db;
    var uid := s.value.userId;
    var name := db.users[uid].username;
    assert after.users[uid].username == name && after.users[uid].passwordHash == hash(newPassword);
  }

  /**
   * Once initDatabase has inserted the system_settings row, the setup status
   * advertises registration exactly when registering is not forbidden.
   */
  lemma SetupStatusAgreesWithRegister(db: Db, hash: string -> Digest, username: string, password: string,
                                      settings: Option<SettingsValues>, bills: seq<BillInput>)
    requires db.systemSettings.Some?
    ensures SetupStatus(db).allowRegistration <==>
            Register(db, hash, username, password, settings, bills).status != RegistrationDisabled
  {
  }

  /** Setup leaves every other user's account and rows as they were. */
  lemma InitializeIsolated(db: Db, hash: string -> Digest, username: string, password: string,
                           settings: Option<SettingsValues>, bills: seq<BillInput>, other: UserId)
    requires db.Valid()
    requires other != db.nextUserId
    ensures var after := Initialize(db, hash, username, password, settings, bills).db;
            && (other in after.users <==> other in db.users)
            && (other in db.users ==> after.users[other] == db.users[other])
            && Own(after, other) == Own(db, other)
  {
    if db.users == map[] {
      CreateAccountIsolated(db, hash, username, password, true, settings, bills, other);
    }
  }

  /** Registration leaves every other user's account and rows as they were. */
  lemma RegisterIsolated(db: Db, hash: string -> Digest, username: string, password: string,
                         settings: Option<SettingsValues>, bills: seq<BillInput>, other: UserId)
    requires db.Valid()
    requires other != db.nextUserId
    ensures var after := Register(db, hash, username, password, settings, bills).db;
            && (other in after.users <==> other in db.users)
            && (other in db.users ==> after.users[other] == db.users[other])
            && Own(after, other) == Own(db, other)
  {
    if db.systemSettings == Some(true) && !NameTaken(db.users, username) {
      CreateAccountIsolated(db, hash, username, password, false, settings, bills, other);
    }
  }

  /**
   * Setting up with one bill: that bill, under the first new bill id, is the
   * whole of the new user's bills, and their bill listing shows it and
   * nothing else.
   */
  lemma SetupThenListing(db: Db, hash: string -> Digest, username: string, password: string,
                         settings: SettingsValues, bill: BillInput)
    requires db.Valid()
    requires Initialize(db, hash, username, password, Some(settings), [bill]).status == Ok
    ensures var after := Initialize(db, hash, username, password, Some(settings), [bill]).db;
            var row := BillRow(db.nextBillId, BillFromInput(db.nextUserId, bill).value);
            && Own(after, db.nextUserId).bills == map[row.id := row.bill]
            && forall rows :: UserData.IsBillListing(after, db.nextUserId, rows) ==>
                 row in rows && forall x :: x in rows ==> x == row
  {
    var after := Initialize(db, hash, username, password, Some(settings), [bill]).db;
    var uid := db.nextUserId;
    var row := BillRow(db.nextBillId, BillFromInput(uid, bill).value);
    assert row.id in after.bills && after.bills[row.id] == row.bill;
    forall id | id in after.bills && after.bills[id].userId == uid
      ensures id == row.id
    {
    }
    assert Own(after, uid).bills == map[row.id := row.bill];
    forall rows: seq<BillRow> | UserData.IsBillListing(after, uid, rows)
      ensures row in rows && forall x :: x in rows ==> x == row
    {
      forall x | x in rows
        ensures x == row
      {
        var i :| 0 <= i < |rows| && rows[i] == x;
        assert rows[i].id == row.id;
      }
    }
  }
}
