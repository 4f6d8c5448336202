/**
 * The order of the bill listing, `ORDER BY due_day, name`. Names compare
 * under SQLite's default BINARY collation, which for UTF-8 text is the
 * lexicographic order of code points with a proper prefix first.
 */
module Ordering {
  import opened Schema

  /** BINARY collation on names. */
  predicate NameLe(a: string, b: string)
    decreases |a|
  {
    a == [] || (b != [] && (a[0] < b[0] || (a[0] == b[0] && NameLe(a[1..], b[1..]))))
  }

  lemma {:induction false} NameLeTotal(a: string, b: string)
    ensures NameLe(a, b) || NameLe(b, a)
    decreases |a|
  {
    if a != [] && b != [] && a[0] == b[0] {
      NameLeTotal(a[1..], b[1..]);
    }
  }

  lemma {:induction false} NameLeTransitive(a: string, b: string, c: string)
    requires NameLe(a, b) && NameLe(b, c)
    ensures NameLe(a, c)
    decreases |a|
  {
    if a != [] && a[0] == b[0] && b[0] == c[0] {
      NameLeTransitive(a[1..], b[1..], c[1..]);
    }
  }

  lemma {:induction false} NameLeAntisymmetric(a: string, b: string)
    requires NameLe(a, b) && NameLe(b, a)
    ensures a == b
    decreases |a|
  {
    if a != [] {
      NameLeAntisymmetric(a[1..], b[1..]);
      assert a == [a[0]] + a[1..] && b == [b[0]] + b[1..];
    }
  }

  /** `x` may be listed before `y`: an earlier due day, or the same day and a name not after. */
  predicate ListedBefore(x: Bill, y: Bill)
  {
    x.dueDay < y.dueDay || (x.dueDay == y.dueDay && NameLe(x.name, y.name))
  }

  lemma ListedBeforeTotal(x: Bill, y: Bill)
    ensures ListedBefore(x, y) || ListedBefore(y, x)
  {
    NameLeTotal(x.name, y.name);
  }

  lemma ListedBeforeTransitive(x: Bill, y: Bill, z: Bill)
    requires ListedBefore(x, y) && ListedBefore(y, z)
    ensures ListedBefore(x, z)
  {
    if x.dueDay == y.dueDay == z.dueDay {
      NameLeTransitive(x.name, y.name, z.name);
    }
  }

  predicate Sorted(rows: seq<BillRow>)
  {
    forall i, j :: 0 <= i < j < |rows| ==> ListedBefore(rows[i].bill, rows[j].bill)
  }

  /** No bill id occurs twice. */
  predicate DistinctIds(rows: seq<BillRow>)
  {
    forall i, j :: 0 <= i < j < |rows| ==> rows[i].id != rows[j].id
  }

  /** Places `x` after every row that must precede it. */
  function Insert(rows: seq<BillRow>, x: BillRow): (r: seq<BillRow>)
    ensures multiset(r) == multiset(rows) + multiset{x}
    ensures |r| == |rows| + 1
  {
    if rows == [] || ListedBefore(x.bill, rows[0].bill) then [x] + rows
    else
      assert rows == [rows[0]] + rows[1..];
      [rows[0]] + Insert(rows[1..], x)
  }

  /**
   * Inserting adds exactly the one row: membership follows from the multiset
   * ensures of `Insert`.
   */
  lemma InsertMembers(rows: seq<BillRow>, x: BillRow)
    ensures forall y :: y in Insert(rows, x) <==> y == x || y in rows
  {
  }

  lemma {:induction false} InsertSorted(rows: seq<BillRow>, x: BillRow)
    requires Sorted(rows)
    ensures Sorted(Insert(rows, x))
  {
    if rows == [] {
    } else if ListedBefore(x.bill, rows[0].bill) {
      forall j | 0 <= j < |rows|
        ensures ListedBefore(x.bill, rows[j].bill)
      {
        if j > 0 { ListedBeforeTransitive(x.bill, rows[0].bill, rows[j].bill); }
      }
    } else {
      var tail := Insert(rows[1..], x);
      InsertSorted(rows[1..], x);
      ListedBeforeTotal(x.bill, rows[0].bill);
      forall j | 0 <= j < |tail|
        ensures ListedBefore(rows[0].bill, tail[j].bill)
      {
        assert tail[j] in multiset(tail);
        if tail[j] != x {
          assert tail[j] in multiset(rows[1..]);
          var k :| 0 <= k < |rows[1..]| && rows[1..][k] == tail[j];
          assert rows[k + 1] == tail[j];
        }
      }
    }
  }

  lemma {:induction false} InsertDistinct(rows: seq<BillRow>, x: BillRow)
    requires DistinctIds(rows)
    requires forall i :: 0 <= i < |rows| ==> rows[i].id != x.id
    ensures DistinctIds(Insert(rows, x))
  {
    if rows != [] && !ListedBefore(x.bill, rows[0].bill) {
      var tail := Insert(rows[1..], x);
      InsertDistinct(rows[1..], x);
      forall j | 0 <= j < |tail|
        ensures rows[0].id != tail[j].id
      {
        assert tail[j] in multiset(tail);
        if tail[j] != x {
          assert tail[j] in multiset(rows[1..]);
          var k :| 0 <= k < |rows[1..]| && rows[1..][k] == tail[j];
          assert rows[k + 1] == tail[j];
        }
      }
    }
  }

  /** Some element of a non-empty set, as a lemma whose result witnesses that it has one. */
  lemma SomeId<T>(ids: set<T>) returns (id: T)
    requires ids != {}
    ensures id in ids
  {
    id :| id in ids;
  }

  /**
   * The rows of `candidates` in listing order, each bill once: every row
   * is inserted into place in turn.
   */
  method SortRows(candidates: map<BillId, Bill>) returns (rows: seq<BillRow>)
    ensures Sorted(rows) && DistinctIds(rows)
    ensures forall r :: r in rows <==> r.id in candidates && r.bill == candidates[r.id]
  {
    var todo := candidates.Keys;
    ghost var done: set<BillId> := {};
    rows := [];
    while todo != {}
      invariant done + todo == candidates.Keys && done !! todo
      invariant Sorted(rows) && DistinctIds(rows)
      invariant forall r :: r in rows ==> r.id in done && r.bill == candidates[r.id]
      invariant forall id :: id in done ==> BillRow(id, candidates[id]) in rows
      decreases |todo|
    {
      // `first` is not used: the call puts the fact that `todo` has an
      // element in front of the solver, which keeps the pick below stable.
      ghost var first := SomeId(todo);
      var id :| id in todo;
      var row := BillRow(id, candidates[id]);
      forall i | 0 <= i < |rows|
        ensures rows[i].id != id
      {
        assert rows[i] in rows;
      }
      InsertSorted(rows, row);
      InsertDistinct(rows, row);
      InsertMembers(rows, row);
      rows := Insert(rows, row);
      todo := todo - {id};
      done := done + {id};
    }
  }
}
