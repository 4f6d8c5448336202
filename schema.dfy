/**
 * The SQLite schema of database.js as a value: one map or set per table,
 * the AUTOINCREMENT counters, and the constraints of the CREATE TABLE
 * statements (NOT NULL, CHECK, UNIQUE, foreign keys with ON DELETE CASCADE)
 * as the invariant `Db.Valid`. The single statements that the handlers run
 * against these tables (a bill INSERT, a cascading DELETE) are defined here
 * once and used by every route.
 */
module Schema {
  import opened Common

  type UserId = int
  type BillId = int
  /** The REAL money columns, as whole cents: the server does no arithmetic on them. */
  type Amount = int
  /** A bcrypt digest; the hash itself is a parameter of the store. */
  type Digest = string

  datatype User = User(username: string, passwordHash: Digest, isAdmin: bool)

  /** The four values the CHECK on bills.frequency admits. */
  datatype Frequency = Monthly | Quarterly | SemiAnnual | Annual

  function FrequencyName(f: Frequency): string
  {
    match f
    case Monthly => "monthly"
    case Quarterly => "quarterly"
    case SemiAnnual => "semi-annual"
    case Annual => "annual"
  }

  /** The CHECK `frequency IN (...)`: a text is accepted exactly when it names a frequency. */
  function ParseFrequency(s: string): (r: Option<Frequency>)
    ensures r.Some? ==> FrequencyName(r.value) == s
    ensures (exists f: Frequency :: FrequencyName(f) == s) ==> r.Some?
  {
    if s == "monthly" then Some(Monthly)
    else if s == "quarterly" then Some(Quarterly)
    else if s == "semi-annual" then Some(SemiAnnual)
    else if s == "annual" then Some(Annual)
    else None
  }

  /** The eleven NOT NULL columns of a settings row that a request supplies. */
  datatype SettingsValues = SettingsValues(
    incomePerPaycheck: Amount,
    payrollDay1: int,
    payrollDay2: int,
    billsAccountName: string,
    billsAccountDeposit: Amount,
    personalAccountName: string,
    personalAccountDeposit: Amount,
    savingsAccount1Name: string,
    savingsAccount1Deposit: Amount,
    savingsAccount2Name: string,
    startingBalance: Amount)

  datatype Settings = Settings(values: SettingsValues, setupCompleted: bool)

  datatype Bill = Bill(userId: UserId, name: string, baseAmount: Amount, dueDay: int, frequency: Frequency, notes: string)

  /** A bill as a request body carries it: any NOT NULL column may be missing. */
  datatype BillInput = BillInput(
    name: Option<string>,
    baseAmount: Option<Amount>,
    dueDay: Option<int>,
    frequency: Option<string>,
    notes: Option<string>)

  /** A bill row together with its primary key, as `SELECT *` returns it. */
  datatype BillRow = BillRow(id: BillId, bill: Bill)

  /** The UNIQUE(bill_id, year, month) key of an override; month counts from 0. */
  datatype OverrideKey = OverrideKey(billId: BillId, year: int, month: int)

  datatype Override = Override(userId: UserId, amount: Amount)

  /** A cleared_transactions row, UNIQUE(user_id, transaction_key). */
  datatype ClearedKey = ClearedKey(userId: UserId, key: string)

  /** The CHECK on bills.due_day. */
  predicate WellFormedBill(b: Bill)
  {
    1 <= b.dueDay <= 31
  }

  /**
   * The row an INSERT or UPDATE of bills writes for this request, or None
   * when the statement fails a NOT NULL or CHECK constraint. Missing notes
   * are stored as the empty text (`notes || ''`).
   */
  function BillFromInput(uid: UserId, input: BillInput): (r: Option<Bill>)
    ensures r.Some? <==>
              && input.name.Some? && input.baseAmount.Some?
              && input.dueDay.Some? && 1 <= input.dueDay.value <= 31
              && input.frequency.Some? && ParseFrequency(input.frequency.value).Some?
    ensures r.Some? ==>
              && WellFormedBill(r.value)
              && r.value.userId == uid
              && r.value.name == input.name.value
              && r.value.baseAmount == input.baseAmount.value
              && r.value.dueDay == input.dueDay.value
              && FrequencyName(r.value.frequency) == input.frequency.value
              && r.value.notes == (if input.notes.Some? then input.notes.value else "")
  {
    if input.name.None? || input.baseAmount.None? || input.dueDay.None? || input.frequency.None? then None
    else if !(1 <= input.dueDay.value <= 31) then None
    else match ParseFrequency(input.frequency.value)
      case None => None
      case Some(f) =>
        Some(Bill(uid, input.name.value, input.baseAmount.value, input.dueDay.value, f,
                  if input.notes.Some? then input.notes.value else ""))
  }

  /** UNIQUE(username). */
  predicate UniqueUsernames(users: map<UserId, User>)
  {
    forall a, b :: a in users && b in users && users[a].username == users[b].username ==> a == b
  }

  predicate NameTaken(users: map<UserId, User>, username: string)
  {
    exists id :: id in users && users[id].username == username
  }

  /**
   * The whole database. `systemSettings` is the allow_registration column
   * of the system_settings table, whose CHECK (id = 1) lets it hold at most
   * one row: None is the empty table. Map keys are primary keys (settings
   * are keyed by their UNIQUE user_id), so those uniqueness constraints hold
   * by construction.
   */
  datatype Db = Db(
    users: map<UserId, User>,
    systemSettings: Option<bool>,
    settings: map<UserId, Settings>,
    bills: map<BillId, Bill>,
    overrides: map<OverrideKey, Override>,
    cleared: set<ClearedKey>,
    nextUserId: UserId,
    nextBillId: BillId)
  {
    /** AUTOINCREMENT ids are positive and below the next id; usernames are unique. */
    predicate UsersValid()
    {
      && 0 < nextUserId
      && (forall id :: id in users ==> 0 < id < nextUserId)
      && UniqueUsernames(users)
    }

    predicate SettingsValid()
    {
      forall u :: u in settings ==> u in users
    }

    predicate BillsValid()
    {
      && 0 < nextBillId
      && forall b :: b in bills ==> 0 < b < nextBillId && bills[b].userId in users && WellFormedBill(bills[b])
    }

    /**
     * Both foreign keys of an override, the CHECK on its month, and the
     * ownership rule the handlers keep: an override belongs to its bill's owner.
     */
    predicate OverridesValid()
    {
      forall k :: k in overrides ==>
        && 0 <= k.month <= 11
        && k.billId in bills
        && overrides[k].userId in users
        && overrides[k].userId == bills[k.billId].userId
    }

    predicate ClearedValid()
    {
      forall c :: c in cleared ==> c.userId in users
    }

    predicate Valid()
    {
      UsersValid() && SettingsValid() && BillsValid() && OverridesValid() && ClearedValid()
    }
  }

  /** The result of a route that may change the database. */
  datatype Step<T> = Step(status: Status, db: Db, out: T)

  /** A database file whose tables have just been created. */
  function EmptyDb(): (r: Db)
    ensures r.Valid()
    ensures r.users == map[] && r.systemSettings.None?
  {
    Db(map[], None, map[], map[], map[], {}, 1, 1)
  }

  /**
   * initDatabase: the tables exist already (CREATE TABLE IF NOT EXISTS), and
   * the system_settings row is inserted with allow_registration = 1 only when
   * that table is empty, so rerunning it keeps a flag an admin has changed.
   */
  function InitDatabase(db: Db): (r: Db)
    ensures r.systemSettings.Some?
    ensures db.systemSettings.Some? ==> r == db
    ensures db.systemSettings.None? ==> r == db.(systemSettings := Some(true))
    ensures db.Valid() ==> r.Valid()
  {
    if db.systemSettings.None? then db.(systemSettings := Some(true)) else db
  }

  /**
   * `INSERT INTO bills (user_id, ...)`: the row gets the next AUTOINCREMENT
   * id; the statement fails, changing nothing, on a NOT NULL or CHECK
   * violation or when user_id names no user (foreign key).
   */
  function InsertBill(db: Db, uid: UserId, input: BillInput): (r: Option<Db>)
    ensures r.Some? <==> uid in db.users && BillFromInput(uid, input).Some?
    ensures r.Some? ==>
              && r.value.bills == db.bills[db.nextBillId := BillFromInput(uid, input).value]
              && r.value.nextBillId == db.nextBillId + 1
              && r.value == db.(bills := r.value.bills, nextBillId := r.value.nextBillId)
    ensures r.Some? && db.Valid() ==> db.nextBillId !in db.bills && r.value.Valid()
  {
    var b := BillFromInput(uid, input);
    if uid !in db.users || b.None? then None
    else Some(db.(bills := db.bills[db.nextBillId := b.value], nextBillId := db.nextBillId + 1))
  }

  /** `DELETE FROM bills WHERE id = ?`, cascading to the bill's overrides. */
  function DeleteBillRow(db: Db, id: BillId): (r: Db)
    ensures r.bills == db.bills - {id}
    ensures forall k :: k in r.overrides <==> k in db.overrides && k.billId != id
    ensures forall k :: k in r.overrides ==> r.overrides[k] == db.overrides[k]
    ensures r == db.(bills := r.bills, overrides := r.overrides)
    ensures db.Valid() ==> r.Valid()
  {
    db.(bills := db.bills - {id},
        overrides := map k | k in db.overrides && k.billId != id :: db.overrides[k])
  }

  /**
   * `DELETE FROM users WHERE id = ?`, cascading through every foreign key:
   * the user's settings, bills, overrides (both through user_id and through
   * the deleted bills) and cleared transactions go with it.
   */
  function DeleteUserRow(db: Db, id: UserId): (r: Db)
    ensures id !in r.users && id !in r.settings
    ensures forall b :: b in r.bills ==> r.bills[b].userId != id
    ensures forall k :: k in r.overrides ==> r.overrides[k].userId != id
    ensures forall c :: c in r.cleared ==> c.userId != id
    ensures r.users == db.users - {id} && r.settings == db.settings - {id}
    ensures forall b :: b in db.bills && db.bills[b].userId != id ==> b in r.bills && r.bills[b] == db.bills[b]
    ensures forall c :: c in db.cleared && c.userId != id ==> c in r.cleared
    ensures forall k :: k in r.overrides ==> k in db.overrides && r.overrides[k] == db.overrides[k]
    ensures forall b :: b in r.bills ==> b in db.bills && r.bills[b] == db.bills[b]
    ensures forall c :: c in r.cleared ==> c in db.cleared
    ensures r.systemSettings == db.systemSettings
    ensures r.nextUserId == db.nextUserId && r.nextBillId == db.nextBillId
  {
    var gone := set b | b in db.bills && db.bills[b].userId == id;
    db.(users := db.users - {id},
        settings := db.settings - {id},
        bills := map b | b in db.bills && db.bills[b].userId != id :: db.bills[b],
        overrides := map k | k in db.overrides && db.overrides[k].userId != id && k.billId !in gone :: db.overrides[k],
        cleared := set c | c in db.cleared && c.userId != id)
  }

  /**
   * In a valid database the cascade through the deleted bills removes no
   * override of another user, and the result is valid again.
   */
  lemma DeleteUserRowValid(db: Db, id: UserId)
    ensures var r := DeleteUserRow(db, id);
            db.Valid() ==>
            && (forall k :: k in db.overrides && db.overrides[k].userId != id ==>
                  k in r.overrides && r.overrides[k] == db.overrides[k])
            && r.Valid()
  {
    var r := DeleteUserRow(db, id);
    if db.Valid() {
      forall k | k in db.overrides && db.overrides[k].userId != id
        ensures k in r.overrides && r.overrides[k] == db.overrides[k]
      {
        assert db.bills[k.billId].userId != id;
      }
      assert r.UsersValid() by {
        forall a, b | a in r.users && b in r.users && r.users[a].username == r.users[b].username
          ensures a == b
        {
          assert r.users[a] == db.users[a] && r.users[b] == db.users[b];
        }
      }
      assert r.OverridesValid() by {
        forall k | k in r.overrides
          ensures k.billId in r.bills && r.overrides[k].userId == r.bills[k.billId].userId
        {
          assert db.bills[k.billId].userId != id;
        }
      }
    }
  }

  /** Every row one user owns: what the export route returns for them. */
  datatype UserRows = UserRows(
    settings: Option<Settings>,
    bills: map<BillId, Bill>,
    overrides: map<OverrideKey, Override>,
    cleared: set<string>)

  function Own(db: Db, uid: UserId): (r: UserRows)
    ensures r.settings.Some? <==> uid in db.settings
    ensures r.settings.Some? ==> r.settings.value == db.settings[uid]
    ensures forall b :: b in r.bills <==> b in db.bills && db.bills[b].userId == uid
    ensures forall b :: b in r.bills ==> r.bills[b] == db.bills[b]
    ensures forall k :: k in r.overrides <==> k in db.overrides && db.overrides[k].userId == uid
    ensures forall k :: k in r.overrides ==> r.overrides[k] == db.overrides[k]
    ensures forall key :: key in r.cleared <==> ClearedKey(uid, key) in db.cleared
  {
    UserRows(
      if uid in db.settings then Some(db.settings[uid]) else None,
      map b | b in db.bills && db.bills[b].userId == uid :: db.bills[b],
      map k | k in db.overrides && db.overrides[k].userId == uid :: db.overrides[k],
      set c | c in db.cleared && c.userId == uid :: c.key)
  }
}
