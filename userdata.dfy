/**
 * The per-user data routes of server.js, every one behind requireAuth:
 * settings, bills, overrides, cleared transactions and the export. Every
 * statement is scoped to the session's user id, either by a `WHERE user_id`
 * filter or by an ownership lookup that answers 404.
 */
module UserData {
  import opened Common
  import opened Schema
  import opened Ordering

  const BillNotFound: Status := Fail(404, "Bill not found")

  /** GET /api/settings: the caller's settings row, or none (`{}`). */
  function GetSettings(db: Db, s: Option<Session>): (r: Answer<Option<Settings>>)
    ensures r.status == Ok <==> Authenticated(s)
    ensures r.status != Ok ==> r == Answer(Unauthorized, None)
    ensures r.status == Ok ==> r.body == Some(Own(db, s.value.userId).settings)
  {
    Guarded(s, if Authenticated(s) && s.value.userId in db.settings then Some(db.settings[s.value.userId]) else None)
  }

  /**
   * PUT /api/settings: an UPDATE of the caller's row. Without a row it
   * matches nothing and succeeds with an empty reply; a missing column fails
   * the NOT NULL constraint. setup_completed is not touched.
   */
  function UpdateSettings(db: Db, s: Option<Session>, values: Option<SettingsValues>): (r: Step<Option<Settings>>)
    ensures !Authenticated(s) ==> r == Step(Unauthorized, db, None)
    ensures Authenticated(s) && s.value.userId !in db.settings ==> r == Step(Ok, db, None)
    ensures Authenticated(s) && s.value.userId in db.settings ==>
              && (r.status == Ok <==> values.Some?)
              && (r.status == Ok ==>
                    && r.out == Some(Settings(values.value, db.settings[s.value.userId].setupCompleted))
                    && r.db == db.(settings := db.settings[s.value.userId := r.out.value]))
    ensures r.status != Ok ==> r.db == db
    ensures db.Valid() ==> r.db.Valid()
  {
    if !Authenticated(s) then Step(Unauthorized, db, None)
    else
      var uid := s.value.userId;
      if uid !in db.settings then Step(Ok, db, None)
      else if values.None? then Step(ServerError, db, None)
      else
        var row := Settings(values.value, db.settings[uid].setupCompleted);
        Step(Ok, db.(settings := db.settings[uid := row]), Some(row))
  }

  /**
   * What GET /api/bills returns for `uid`: each of the user's bills exactly
   * once, as stored, ordered by due day and then name.
   */
  predicate IsBillListing(db: Db, uid: UserId, rows: seq<BillRow>)
  {
    && Sorted(rows)
    && DistinctIds(rows)
    && (forall i :: 0 <= i < |rows| ==>
          rows[i].id in db.bills && db.bills[rows[i].id] == rows[i].bill && rows[i].bill.userId == uid)
    && (forall id :: id in db.bills && db.bills[id].userId == uid ==> BillRow(id, db.bills[id]) in rows)
  }

  /** A listing holds exactly the bills the export gives the same user. */
  lemma {:induction false} ListingMatchesExport(db: Db, uid: UserId, rows: seq<BillRow>)
    requires IsBillListing(db, uid, rows)
    ensures forall id :: id in Own(db, uid).bills <==> exists i :: 0 <= i < |rows| && rows[i].id == id
  {
    forall id | id in Own(db, uid).bills
      ensures exists i :: 0 <= i < |rows| && rows[i].id == id
    {
      assert BillRow(id, db.bills[id]) in rows;
      var i :| 0 <= i < |rows| && rows[i] == BillRow(id, db.bills[id]);
      assert rows[i].id == id;
    }
  }

  /**
   * POST /api/bills: inserts a bill for the caller under a fresh id; fails
   * on a constraint violation, or on the foreign key when the session's user
   * has been deleted.
   */
  function CreateBill(db: Db, s: Option<Session>, input: BillInput): (r: Step<Option<BillRow>>)
    ensures !Authenticated(s) ==> r == Step(Unauthorized, db, None)
    ensures r.status == Ok <==>
              Authenticated(s) && s.value.userId in db.users && BillFromInput(s.value.userId, input).Some?
    ensures Authenticated(s) && r.status != Ok ==> r == Step(ServerError, db, None)
    ensures r.status == Ok ==>
              && r.out == Some(BillRow(db.nextBillId, BillFromInput(s.value.userId, input).value))
              && r.out.value.bill.userId == s.value.userId
              && r.db.bills == db.bills[db.nextBillId := r.out.value.bill]
              && r.db == db.(bills := r.db.bills, nextBillId := db.nextBillId + 1)
    ensures r.status == Ok && db.Valid() ==> db.nextBillId !in db.bills
    ensures db.Valid() ==> r.db.Valid()
  {
    if !Authenticated(s) then Step(Unauthorized, db, None)
    else match InsertBill(db, s.value.userId, input)
      case None => Step(ServerError, db, None)
      case Some(after) =>
        Step(Ok, after, Some(BillRow(db.nextBillId, BillFromInput(s.value.userId, input).value)))
  }

  /** The ownership lookup `SELECT * FROM bills WHERE id = ? AND user_id = ?`. */
  predicate OwnsBill(db: Db, s: Option<Session>, id: BillId)
    requires Authenticated(s)
  {
    id in db.bills && db.bills[id].userId == s.value.userId
  }

  /**
   * PUT /api/bills/:id: 404 unless the caller owns the bill; then every
   * column but user_id is rewritten, or nothing is on a constraint violation.
   */
  function UpdateBill(db: Db, s: Option<Session>, id: BillId, input: BillInput): (r: Step<Option<BillRow>>)
    ensures !Authenticated(s) ==> r == Step(Unauthorized, db, None)
    ensures Authenticated(s) && !OwnsBill(db, s, id) ==> r == Step(BillNotFound, db, None)
    ensures Authenticated(s) && OwnsBill(db, s, id) ==>
              (r.status == Ok <==> BillFromInput(s.value.userId, input).Some?)
    ensures r.status == Ok ==>
              && r.out == Some(BillRow(id, BillFromInput(s.value.userId, input).value))
              && r.out.value.bill.userId == db.bills[id].userId
              && r.db == db.(bills := db.bills[id := r.out.value.bill])
    ensures r.status != Ok ==> r.db == db
    ensures db.Valid() ==> r.db.Valid()
  {
    if !Authenticated(s) then Step(Unauthorized, db, None)
    else if !OwnsBill(db, s, id) then Step(BillNotFound, db, None)
    else match BillFromInput(s.value.userId, input)
      case None => Step(ServerError, db, None)
      case Some(b) => Step(Ok, db.(bills := db.bills[id := b]), Some(BillRow(id, b)))
  }

  /**
   * Deleting a bill that was just created restores the database, except
   * that AUTOINCREMENT never hands out the id again.
   */
  lemma CreateThenDeleteBill(db: Db, s: Option<Session>, input: BillInput)
    requires db.Valid()
    requires CreateBill(db, s, input).status == Ok
    ensures var created := CreateBill(db, s, input);
            DeleteBill(created.db, s, created.out.value.id).db == db.(nextBillId := db.nextBillId + 1)
  {
    var created := CreateBill(db, s, input);
    var after := DeleteBill(created.db, s, created.out.value.id).db;
    assert after.bills == db.bills;
    assert after.overrides == db.overrides;
  }

  /**
   * DELETE /api/bills/:id: `WHERE id = ? AND user_id = ?`, so a bill of
   * another user (or no bill) is a successful no-op; the bill's overrides
   * go with it.
   */
  function DeleteBill(db: Db, s: Option<Session>, id: BillId): (r: Step<()>)
    ensures !Authenticated(s) ==> r == Step(Unauthorized, db, ())
    ensures Authenticated(s) ==> r.status == Ok
    ensures Authenticated(s) && OwnsBill(db, s, id) ==>
              && id !in r.db.bills
              && (forall k :: k in r.db.overrides ==> k.billId != id)
              && r.db == DeleteBillRow(db, id)
    ensures Authenticated(s) && !OwnsBill(db, s, id) ==> r.db == db
    ensures db.Valid() ==> r.db.Valid()
  {
    if !Authenticated(s) then Step(Unauthorized, db, ())
    else if OwnsBill(db, s, id) then Step(Ok, DeleteBillRow(db, id), ())
    else Step(Ok, db, ())
  }

  /** GET /api/overrides: the caller's overrides. */
  function ListOverrides(db: Db, s: Option<Session>): (r: Answer<map<OverrideKey, Override>>)
    ensures r.status == Ok <==> Authenticated(s)
    ensures r.status != Ok ==> r == Answer(Unauthorized, None)
    ensures r.status == Ok ==>
              && r.body.Some?
              && forall k :: k in r.body.value ==> r.body.value[k].userId == s.value.userId
    ensures r.status == Ok ==> r.body.value == Own(db, s.value.userId).overrides
  {
    Guarded(s, if Authenticated(s) then Own(db, s.value.userId).overrides else map[])
  }

  /**
   * POST /api/overrides: 404 unless the caller owns the bill; then an upsert
   * on UNIQUE(bill_id, year, month) that inserts the row or overwrites only
   * the amount of the existing one. A missing column or a month outside
   * 0..11 fails the statement.
   */
  function SetOverride(db: Db, s: Option<Session>, billId: BillId, year: Option<int>, month: Option<int>,
                       amount: Option<Amount>): (r: Step<()>)
    ensures !Authenticated(s) ==> r == Step(Unauthorized, db, ())
    ensures Authenticated(s) && !OwnsBill(db, s, billId) ==> r == Step(BillNotFound, db, ())
    ensures Authenticated(s) && OwnsBill(db, s, billId) ==>
              (r.status == Ok <==> year.Some? && month.Some? && 0 <= month.value <= 11 && amount.Some?)
    ensures r.status != Ok ==> r.db == db
    ensures r.status == Ok ==>
              var k := OverrideKey(billId, year.value, month.value);
              && k in r.db.overrides
              && r.db.overrides[k].amount == amount.value
              && r.db.overrides.Keys == db.overrides.Keys + {k}
              && (k !in db.overrides ==> r.db.overrides[k].userId == s.value.userId)
              && (k in db.overrides ==> r.db.overrides[k].userId == db.overrides[k].userId)
              && (forall other :: other in db.overrides && other != k ==> r.db.overrides[other] == db.overrides[other])
              && r.db == db.(overrides := r.db.overrides)
    ensures r.status == Ok && db.Valid() ==>
              r.db.overrides[OverrideKey(billId, year.value, month.value)].userId == s.value.userId
    ensures db.Valid() ==> r.db.Valid()
  {
    if !Authenticated(s) then Step(Unauthorized, db, ())
    else if !OwnsBill(db, s, billId) then Step(BillNotFound, db, ())
    else if year.None? || month.None? || !(0 <= month.value <= 11) || amount.None? then Step(ServerError, db, ())
    else
      var k := OverrideKey(billId, year.value, month.value);
      var row := if k in db.overrides then db.overrides[k].(amount := amount.value)
                 else Override(s.value.userId, amount.value);
      Step(Ok, db.(overrides := db.overrides[k := row]), ())
  }

  /** Setting the same override twice leaves what setting only the second amount leaves. */
  lemma SetOverrideTwice(db: Db, s: Option<Session>, billId: BillId, year: Option<int>, month: Option<int>,
                         first: Amount, second: Amount)
    ensures SetOverride(SetOverride(db, s, billId, year, month, Some(first)).db, s, billId, year, month, Some(second))
            == SetOverride(db, s, billId, year, month, Some(second))
  {
    var once := SetOverride(db, s, billId, year, month, Some(first));
    if once.status == Ok {
      var k := OverrideKey(billId, year.value, month.value);
      var twice := SetOverride(once.db, s, billId, year, month, Some(second));
      var direct := SetOverride(db, s, billId, year, month, Some(second));
      assert twice.db.overrides == direct.db.overrides;
    }
  }

  /**
   * DELETE /api/overrides/:bill_id/:year/:month: removes the override only
   * when it is the caller's; otherwise a successful no-op.
   */
  function DeleteOverride(db: Db, s: Option<Session>, billId: BillId, year: int, month: int): (r: Step<()>)
    ensures !Authenticated(s) ==> r == Step(Unauthorized, db, ())
    ensures Authenticated(s) ==> r.status == Ok
    ensures Authenticated(s) ==>
              var k := OverrideKey(billId, year, month);
              && (k !in r.db.overrides || (k in db.overrides && db.overrides[k].userId != s.value.userId))
              && r.db.overrides == (if k in db.overrides && db.overrides[k].userId == s.value.userId
                                    then db.overrides - {k} else db.overrides)
              && r.db == db.(overrides := r.db.overrides)
    ensures db.Valid() ==> r.db.Valid()
  {
    if !Authenticated(s) then Step(Unauthorized, db, ())
    else
      var k := OverrideKey(billId, year, month);
      if k in db.overrides && db.overrides[k].userId == s.value.userId
      then Step(Ok, db.(overrides := db.overrides - {k}), ())
      else Step(Ok, db, ())
  }

  /** Deleting an override that was just created restores the database. */
  lemma SetThenDeleteOverride(db: Db, s: Option<Session>, billId: BillId, year: int, month: int, amount: Amount)
    requires OverrideKey(billId, year, month) !in db.overrides
    requires SetOverride(db, s, billId, Some(year), Some(month), Some(amount)).status == Ok
    ensures DeleteOverride(SetOverride(db, s, billId, Some(year), Some(month), Some(amount)).db, s, billId, year, month).db == db
  {
    var k := OverrideKey(billId, year, month);
    var set1 := SetOverride(db, s, billId, Some(year), Some(month), Some(amount)).db;
    var del := DeleteOverride(set1, s, billId, year, month).db;
    assert del.overrides == db.overrides;
  }

  /**
   * The amount a bill comes to in one month: its override for that exact
   * (bill, year, month) when there is one, its base amount otherwise. The
   * server stores overrides but never computes this; it is the reading a
   * client gives the two tables.
   */
  function EffectiveAmount(db: Db, billId: BillId, year: int, month: int): (r: Option<Amount>)
    ensures r.Some? <==> billId in db.bills
    ensures billId in db.bills && OverrideKey(billId, year, month) in db.overrides ==>
              r == Some(db.overrides[OverrideKey(billId, year, month)].amount)
    ensures billId in db.bills && OverrideKey(billId, year, month) !in db.overrides ==>
              r == Some(db.bills[billId].baseAmount)
  {
    if billId !in db.bills then None
    else if OverrideKey(billId, year, month) in db.overrides then Some(db.overrides[OverrideKey(billId, year, month)].amount)
    else Some(db.bills[billId].baseAmount)
  }

  /** After an override is set, that month comes to its amount and every other month is as before. */
  lemma SetOverrideThenEffective(db: Db, s: Option<Session>, billId: BillId, year: int, month: int, amount: Amount,
                                 otherYear: int, otherMonth: int)
    requires SetOverride(db, s, billId, Some(year), Some(month), Some(amount)).status == Ok
    requires (otherYear, otherMonth) != (year, month)
    ensures var after := SetOverride(db, s, billId, Some(year), Some(month), Some(amount)).db;
            && EffectiveAmount(after, billId, year, month) == Some(amount)
            && EffectiveAmount(after, billId, otherYear, otherMonth) == EffectiveAmount(db, billId, otherYear, otherMonth)
  {
  }

  /** After the owner deletes an override, that month comes back to the base amount. */
  lemma DeleteOverrideThenEffective(db: Db, s: Option<Session>, billId: BillId, year: int, month: int)
    requires db.Valid() && Authenticated(s) && OwnsBill(db, s, billId)
    ensures var after := DeleteOverride(db, s, billId, year, month).db;
            EffectiveAmount(after, billId, year, month) == Some(db.bills[billId].baseAmount)
  {
  }

  /** GET /api/cleared: the caller's cleared transaction keys. */
  function ListCleared(db: Db, s: Option<Session>): (r: Answer<set<string>>)
    ensures r.status == Ok <==> Authenticated(s)
    ensures r.status != Ok ==> r == Answer(Unauthorized, None)
    ensures r.status == Ok ==>
              && r.body.Some?
              && forall key :: key in r.body.value <==> ClearedKey(s.value.userId, key) in db.cleared
  {
    Guarded(s, if Authenticated(s) then Own(db, s.value.userId).cleared else {})
  }

  /**
   * POST /api/cleared/toggle: deletes the caller's row for the key when it
   * exists and inserts it otherwise; the reply's flag is the new state. The
   * insert fails on the foreign key when the session's user has been deleted.
   */
  function ToggleCleared(db: Db, s: Option<Session>, key: string): (r: Step<Option<bool>>)
    ensures !Authenticated(s) ==> r == Step(Unauthorized, db, None)
    ensures Authenticated(s) && ClearedKey(s.value.userId, key) in db.cleared ==>
              r == Step(Ok, db.(cleared := db.cleared - {ClearedKey(s.value.userId, key)}), Some(false))
    ensures Authenticated(s) && ClearedKey(s.value.userId, key) !in db.cleared && s.value.userId in db.users ==>
              r == Step(Ok, db.(cleared := db.cleared + {ClearedKey(s.value.userId, key)}), Some(true))
    ensures Authenticated(s) && ClearedKey(s.value.userId, key) !in db.cleared && s.value.userId !in db.users ==>
              r == Step(ServerError, db, None)
    ensures r.status == Ok ==> r.out == Some(ClearedKey(s.value.userId, key) in r.db.cleared)
    ensures db.Valid() ==> r.db.Valid()
  {
    if !Authenticated(s) then Step(Unauthorized, db, None)
    else
      var c := ClearedKey(s.value.userId, key);
      if c in db.cleared then Step(Ok, db.(cleared := db.cleared - {c}), Some(false))
      else if s.value.userId !in db.users then Step(ServerError, db, None)
      else Step(Ok, db.(cleared := db.cleared + {c}), Some(true))
  }

  /** Toggling the same key twice restores the database. */
  lemma ToggleClearedTwice(db: Db, s: Option<Session>, key: string)
    requires db.Valid()
    ensures ToggleCleared(ToggleCleared(db, s, key).db, s, key).db == db
  {
    if Authenticated(s) {
      var c := ClearedKey(s.value.userId, key);
      var once := ToggleCleared(db, s, key).db;
      if c in db.cleared {
        assert s.value.userId in once.users;
        assert once.cleared + {c} == db.cleared;
      } else if s.value.userId in db.users {
        assert once.cleared - {c} == db.cleared;
      }
    }
  }

  datatype ExportDoc = ExportDoc(username: string, rows: UserRows)

  /**
   * GET /api/export: the caller's settings, bills, overrides and cleared
   * transactions, under the session's username, and no row of anyone else.
   */
  function Export(db: Db, s: Option<Session>): (r: Answer<ExportDoc>)
    ensures r.status == Ok <==> Authenticated(s)
    ensures r.status != Ok ==> r == Answer(Unauthorized, None)
    ensures r.status == Ok ==>
              && r.body.Some?
              && r.body.value.username == s.value.username
              && r.body.value.rows == Own(db, s.value.userId)
              && (forall b :: b in r.body.value.rows.bills ==> r.body.value.rows.bills[b].userId == s.value.userId)
              && (forall k :: k in r.body.value.rows.overrides ==> r.body.value.rows.overrides[k].userId == s.value.userId)
              && (forall b :: b in db.bills && db.bills[b].userId == s.value.userId ==> b in r.body.value.rows.bills)
  {
    Guarded(s, if Authenticated(s) then ExportDoc(s.value.username, Own(db, s.value.userId)) else ExportDoc("", UserRows(None, map[], map[], {})))
  }

  /*
   * Isolation: no data route changes another user's account or rows. For
   * each route, a user other than the session's exports the same rows
   * before and after.
   */

  lemma UpdateSettingsIsolated(db: Db, s: Option<Session>, values: Option<SettingsValues>, other: UserId)
    requires Authenticated(s) ==> s.value.userId != other
    ensures var after := UpdateSettings(db, s, values).db;
            after.users == db.users && Own(after, other) == Own(db, other)
  {
  }

  lemma CreateBillIsolated(db: Db, s: Option<Session>, input: BillInput, other: UserId)
    requires db.Valid()
    requires Authenticated(s) ==> s.value.userId != other
    ensures var after := CreateBill(db, s, input).db;
            after.users == db.users && Own(after, other) == Own(db, other)
  {
    var after := CreateBill(db, s, input).db;
    assert Own(after, other).bills == Own(db, other).bills;
  }

  lemma UpdateBillIsolated(db: Db, s: Option<Session>, id: BillId, input: BillInput, other: UserId)
    requires Authenticated(s) ==> s.value.userId != other
    ensures var after := UpdateBill(db, s, id, input).db;
            after.users == db.users && Own(after, other) == Own(db, other)
  {
    var r := UpdateBill(db, s, id, input);
    if r.status == Ok {
      forall b | b in r.db.bills
        ensures r.db.bills[b].userId == other <==> db.bills[b].userId == other
      {
        if b == id {
          assert r.db.bills[b].userId == s.value.userId;
        }
      }
      assert Own(r.db, other).bills == Own(db, other).bills;
    }
  }

  lemma DeleteBillIsolated(db: Db, s: Option<Session>, id: BillId, other: UserId)
    requires db.Valid()
    requires Authenticated(s) ==> s.value.userId != other
    ensures var after := DeleteBill(db, s, id).db;
            after.users == db.users && Own(after, other) == Own(db, other)
  {
    var after := DeleteBill(db, s, id).db;
    assert Own(after, other).bills == Own(db, other).bills;
    assert Own(after, other).overrides == Own(db, other).overrides;
  }

  lemma SetOverrideIsolated(db: Db, s: Option<Session>, billId: BillId, year: Option<int>, month: Option<int>,
                            amount: Option<Amount>, other: UserId)
    requires db.Valid()
    requires Authenticated(s) ==> s.value.userId != other
    ensures var after := SetOverride(db, s, billId, year, month, amount).db;
            after.users == db.users && Own(after, other) == Own(db, other)
  {
    var after := SetOverride(db, s, billId, year, month, amount).db;
    assert Own(after, other).overrides == Own(db, other).overrides;
  }

  lemma DeleteOverrideIsolated(db: Db, s: Option<Session>, billId: BillId, year: int, month: int, other: UserId)
    requires Authenticated(s) ==> s.value.userId != other
    ensures var after := DeleteOverride(db, s, billId, year, month).db;
            after.users == db.users && Own(after, other) == Own(db, other)
  {
    var after := DeleteOverride(db, s, billId, year, month).db;
    assert Own(after, other).overrides == Own(db, other).overrides;
  }

  lemma ToggleClearedIsolated(db: Db, s: Option<Session>, key: string, other: UserId)
    requires Authenticated(s) ==> s.value.userId != other
    ensures var after := ToggleCleared(db, s, key).db;
            after.users == db.users && Own(after, other) == Own(db, other)
  {
    var after := ToggleCleared(db, s, key).db;
    assert Own(after, other).cleared == Own(db, other).cleared;
  }
}
