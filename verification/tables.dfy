/** A relational table as a finite map from primary key to row, with the
    AUTO_INCREMENT counter that assigns the next key, and the statement shapes
    the repositories issue against it: INSERT, UPDATE and DELETE by key, and
    SELECT ... WHERE ... ORDER BY. */
module Tables {
  import opened Ordering

  datatype Table<R> = Table(rows: map<int, R>, nextId: int)

  /** The outcome of an INSERT: success flag, the record with its generated
      key back-filled, and the table afterwards. */
  datatype Created<Rec, R> = Created(ok: bool, record: Rec, table: Table<R>)

  /** The outcome of an UPDATE or DELETE: "rows affected > 0" and the table afterwards. */
  datatype Changed<R> = Changed(ok: bool, table: Table<R>)

  /** A table with no rows whose first generated key is 1. */
  function Empty<R>(): (t: Table<R>)
    ensures Valid(t) && t.rows == map[]
  {
    Table(map[], 1)
  }

  /** Every key was generated by the counter: keys lie in `[1, nextId)`. */
  ghost predicate Valid<R>(t: Table<R>) {
    1 <= t.nextId && forall id :: id in t.rows ==> 1 <= id < t.nextId
  }

  /** INSERT of one row under the next generated key. */
  function Insert<R>(t: Table<R>, row: R): (r: Table<R>)
    ensures r.rows == t.rows[t.nextId := row] && r.nextId == t.nextId + 1
    ensures Valid(t) ==> Valid(r) && t.nextId !in t.rows && |r.rows| == |t.rows| + 1
  {
    Table(t.rows[t.nextId := row], t.nextId + 1)
  }

  /** `UPDATE ... SET <change> WHERE key = id`: true iff a row matched. */
  function UpdateWhere<R>(t: Table<R>, id: int, change: R -> R): (r: Changed<R>)
    ensures r.ok <==> id in t.rows
    ensures r.ok ==> r.table == Table(t.rows[id := change(t.rows[id])], t.nextId)
    ensures !r.ok ==> r.table == t
    ensures Valid(t) ==> Valid(r.table)
  {
    if id in t.rows then Changed(true, Table(t.rows[id := change(t.rows[id])], t.nextId))
    else Changed(false, t)
  }

  /** `DELETE ... WHERE key = id`: true iff a row was removed. */
  function RemoveWhere<R>(t: Table<R>, id: int): (r: Changed<R>)
    ensures r.ok <==> id in t.rows
    ensures id !in r.table.rows && r.table.nextId == t.nextId
    ensures forall k :: k != id ==> (k in r.table.rows <==> k in t.rows)
    ensures forall k :: k != id && k in t.rows ==> r.table.rows[k] == t.rows[k]
    ensures Valid(t) ==> Valid(r.table)
  {
    Changed(id in t.rows, Table(t.rows - {id}, t.nextId))
  }

  /** The rows with keys in `[lo, hi)`, in ascending key order. */
  function Scan<R>(rows: map<int, R>, lo: int, hi: int): (r: seq<(int, R)>)
    ensures forall p :: p in r ==> lo <= p.0 < hi && p.0 in rows && p.1 == rows[p.0]
    ensures forall id :: lo <= id < hi && id in rows ==> (id, rows[id]) in r
    ensures forall i, j :: 0 <= i < j < |r| ==> r[i].0 < r[j].0
    decreases hi - lo
  {
    if lo >= hi then []
    else (if lo in rows then [(lo, rows[lo])] else []) + Scan(rows, lo + 1, hi)
  }

  /** All rows in ascending key order. */
  function Rows<R>(t: Table<R>): seq<(int, R)> {
    Scan(t.rows, 1, t.nextId)
  }

  /** `SELECT view WHERE keep`, one output per kept row, in input order. */
  function Select<R, U>(s: seq<(int, R)>, keep: (int, R) -> bool, view: (int, R) -> U): (r: seq<U>)
    ensures |r| <= |s|
    ensures forall p :: p in s && keep(p.0, p.1) ==> view(p.0, p.1) in r
    ensures forall y :: y in r ==> exists p :: p in s && keep(p.0, p.1) && y == view(p.0, p.1)
  {
    if s == [] then []
    else
      var rest := Select(s[1..], keep, view);
      assert forall p :: p in s[1..] ==> p in s;
      assert forall p :: p in s ==> p == s[0] || p in s[1..];
      (if keep(s[0].0, s[0].1) then [view(s[0].0, s[0].1)] else []) + rest
  }

  /** `SELECT view FROM t WHERE keep ORDER BY le`. */
  function Query<R, U>(t: Table<R>, keep: (int, R) -> bool, view: (int, R) -> U, le: (U, U) -> bool): seq<U> {
    SortBy(Select(Rows(t), keep, view), le)
  }

  /** Every row that passes a query's filter shows up in its result. */
  lemma QueryHas<R, U>(t: Table<R>, keep: (int, R) -> bool, view: (int, R) -> U, le: (U, U) -> bool, id: int)
    requires Valid(t)
    requires id in t.rows && keep(id, t.rows[id])
    ensures view(id, t.rows[id]) in Query(t, keep, view, le)
  {
    var sel := Select(Rows(t), keep, view);
    assert (id, t.rows[id]) in Rows(t);
    assert view(id, t.rows[id]) in multiset(sel);
    assert multiset(Query(t, keep, view, le)) == multiset(sel);
  }

  /** Every element of a query's result is the view of a row that passes its
      filter; `id` is that row's key. */
  lemma QueryOrigin<R, U>(t: Table<R>, keep: (int, R) -> bool, view: (int, R) -> U, le: (U, U) -> bool, y: U)
    returns (id: int)
    requires y in Query(t, keep, view, le)
    ensures id in t.rows && keep(id, t.rows[id]) && y == view(id, t.rows[id])
  {
    var s := Rows(t);
    var sel := Select(s, keep, view);
    assert multiset(Query(t, keep, view, le)) == multiset(sel);
    assert y in multiset(sel);
    var p := SelectOrigin(s, keep, view, y);
    id := p.0;
  }

  lemma SelectOrigin<R, U>(s: seq<(int, R)>, keep: (int, R) -> bool, view: (int, R) -> U, y: U)
    returns (p: (int, R))
    requires y in Select(s, keep, view)
    ensures p in s && keep(p.0, p.1) && y == view(p.0, p.1)
  {
    p :| p in s && keep(p.0, p.1) && y == view(p.0, p.1);
  }

  /** A query's result is in its `ORDER BY` order. */
  lemma QuerySorted<R, U(!new)>(t: Table<R>, keep: (int, R) -> bool, view: (int, R) -> U, le: (U, U) -> bool)
    requires TotalPreorder(le)
    ensures Sorted(Query(t, keep, view, le), le)
  {
    SortBySorted(Select(Rows(t), keep, view), le);
  }

  lemma SelectAppend<R, U>(a: seq<(int, R)>, b: seq<(int, R)>, keep: (int, R) -> bool, view: (int, R) -> U)
    ensures Select(a + b, keep, view) == Select(a, keep, view) + Select(b, keep, view)
  {
    if a == [] {
      assert a + b == b;
    } else {
      assert (a + b)[0] == a[0];
      assert (a + b)[1..] == a[1..] + b;
      SelectAppend(a[1..], b, keep, view);
    }
  }

  /** Two tables with the same keys and counter, on which two queries keep
      the same rows and produce the same views, give the same answer. */
  lemma {:induction false} ScanAgree<R, U>(t: Table<R>, t': Table<R>, lo: int,
                                           keep: (int, R) -> bool, keep': (int, R) -> bool,
                                           view: (int, R) -> U, view': (int, R) -> U)
    requires t.nextId == t'.nextId && t.rows.Keys == t'.rows.Keys
    requires forall id :: id in t.rows ==> keep(id, t.rows[id]) == keep'(id, t'.rows[id])
    requires forall id :: id in t.rows && keep(id, t.rows[id]) ==> view(id, t.rows[id]) == view'(id, t'.rows[id])
    ensures Select(Scan(t.rows, lo, t.nextId), keep, view) == Select(Scan(t'.rows, lo, t.nextId), keep', view')
    decreases t.nextId - lo
  {
    if lo < t.nextId {
      var head := if lo in t.rows then [(lo, t.rows[lo])] else [];
      var head' := if lo in t'.rows then [(lo, t'.rows[lo])] else [];
      SelectAppend(head, Scan(t.rows, lo + 1, t.nextId), keep, view);
      SelectAppend(head', Scan(t'.rows, lo + 1, t.nextId), keep', view');
      ScanAgree(t, t', lo + 1, keep, keep', view, view');
    }
  }

  lemma QueryAgree<R, U>(t: Table<R>, t': Table<R>,
                         keep: (int, R) -> bool, keep': (int, R) -> bool,
                         view: (int, R) -> U, view': (int, R) -> U, le: (U, U) -> bool)
    requires t.nextId == t'.nextId && t.rows.Keys == t'.rows.Keys
    requires forall id :: id in t.rows ==> keep(id, t.rows[id]) == keep'(id, t'.rows[id])
    requires forall id :: id in t.rows && keep(id, t.rows[id]) ==> view(id, t.rows[id]) == view'(id, t'.rows[id])
    ensures Query(t, keep, view, le) == Query(t', keep', view', le)
  {
    ScanAgree(t, t', 1, keep, keep', view, view');
  }

  /** When the view carries the key (`idOf` recovers it), each view occurs at
      most once in a selection over rows with increasing keys. */
  lemma {:induction false} SelectOnce<R, U>(s: seq<(int, R)>, keep: (int, R) -> bool, view: (int, R) -> U, idOf: U -> int, y: U)
    requires forall i, j :: 0 <= i < j < |s| ==> s[i].0 < s[j].0
    requires forall id, row :: idOf(view(id, row)) == id
    ensures multiset(Select(s, keep, view))[y] <= 1
  {
    if s != [] {
      var rest := Select(s[1..], keep, view);
      SelectOnce(s[1..], keep, view, idOf, y);
      forall z | z in rest
        ensures idOf(z) > s[0].0
      {
        var p :| p in s[1..] && keep(p.0, p.1) && z == view(p.0, p.1);
        var k :| 0 <= k < |s[1..]| && s[1..][k] == p;
        assert s[0].0 < s[k + 1].0;
      }
    }
  }

  /** A query whose view carries the key returns each kept row exactly once. */
  lemma QueryOnce<R, U>(t: Table<R>, keep: (int, R) -> bool, view: (int, R) -> U, le: (U, U) -> bool, idOf: U -> int, id: int)
    requires Valid(t)
    requires forall id, row :: idOf(view(id, row)) == id
    requires id in t.rows && keep(id, t.rows[id])
    ensures multiset(Query(t, keep, view, le))[view(id, t.rows[id])] == 1
  {
    var y := view(id, t.rows[id]);
    QueryHas(t, keep, view, le, id);
    SelectOnce(Rows(t), keep, view, idOf, y);
    assert multiset(Query(t, keep, view, le)) == multiset(Select(Rows(t), keep, view));
  }
}
