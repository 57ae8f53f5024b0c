/** The Category repository over the Category table. Every call takes the
    store's `Reply`: `Raised` stands for an SQLException, which the repository
    swallows and turns into `false`, an empty list or `None`. */
module CategoryDao {
  import opened Common
  import opened Ordering
  import opened Tables
  import opened Records

  /** A stored Category row; `active` defaults to true and `createdAt` to the
      time of the INSERT. */
  datatype CategoryRow = CategoryRow(name: string, description: string, active: bool, createdAt: Timestamp)

  type CategoryTable = Table<CategoryRow>

  /** The record a SELECT * builds from a row. */
  function View(id: int, row: CategoryRow): Category {
    Category(id, row.name, row.description, row.active, Some(row.createdAt))
  }

  function IdOf(c: Category): int {
    c.categoryId
  }

  function NameOf(c: Category): string {
    c.name
  }

  /** `WHERE active = TRUE`. */
  function ActiveOnly(id: int, row: CategoryRow): bool {
    row.active
  }

  /** `ORDER BY name`. */
  function ByName(): (Category, Category) -> bool {
    ByKey(NameOf)
  }

  /** `create`: inserts name and description; the store supplies the key,
      `active = TRUE` and the creation time. The generated key is written back
      into the record. */
  function Create(t: CategoryTable, c: Category, now: Timestamp, reply: Reply): (r: Created<Category, CategoryRow>)
    ensures r.ok <==> reply.Completed?
    ensures r.ok ==> r.record == c.(categoryId := t.nextId) && r.table.rows.Keys == t.rows.Keys + {t.nextId}
    ensures r.ok && Valid(t) ==> forall id :: id in t.rows ==> r.table.rows[id] == t.rows[id]
    ensures !r.ok ==> r.record == c && r.table == t
    ensures Valid(t) ==> Valid(r.table)
  {
    if reply.Raised? then Created(false, c, t)
    else Created(true, c.(categoryId := t.nextId), Insert(t, CategoryRow(c.name, c.description, true, now)))
  }

  /** `readAll`: the active categories, by name. */
  function ReadAll(t: CategoryTable, reply: Reply): (r: seq<Category>)
    ensures reply.Raised? ==> r == []
  {
    if reply.Raised? then [] else Query(t, ActiveOnly, View, ByName())
  }

  /** `readById`: the row with that key, active or not. */
  function ReadById(t: CategoryTable, id: int, reply: Reply): (r: Option<Category>)
    ensures r.Some? <==> reply.Completed? && id in t.rows
    ensures r.Some? ==> r.value.categoryId == id
  {
    if reply.Completed? && id in t.rows then Some(View(id, t.rows[id])) else None
  }

  /** `update`: rewrites name, description and active flag of the row with
      the record's key; the creation time is kept. True iff such a row exists. */
  function Update(t: CategoryTable, c: Category, reply: Reply): (r: Changed<CategoryRow>)
    ensures r.ok <==> reply.Completed? && c.categoryId in t.rows
    ensures !r.ok ==> r.table == t
    ensures r.table.rows.Keys == t.rows.Keys && r.table.nextId == t.nextId
    ensures Valid(t) ==> Valid(r.table)
  {
    if reply.Raised? then Changed(false, t)
    else UpdateWhere(t, c.categoryId, (row: CategoryRow) => row.(name := c.name, description := c.description, active := c.isActive))
  }

  /** `delete`: a soft delete that clears the active flag; the row stays. */
  function Delete(t: CategoryTable, id: int, reply: Reply): (r: Changed<CategoryRow>)
    ensures r.ok <==> reply.Completed? && id in t.rows
    ensures !r.ok ==> r.table == t
    ensures r.table.rows.Keys == t.rows.Keys && r.table.nextId == t.nextId
    ensures r.ok ==> r.table.rows[id] == t.rows[id].(active := false)
    ensures forall k :: k in t.rows && k != id ==> r.table.rows[k] == t.rows[k]
    ensures Valid(t) ==> Valid(r.table)
  {
    if reply.Raised? then Changed(false, t)
    else UpdateWhere(t, id, (row: CategoryRow) => row.(active := false))
  }

  /** `readAll` lists exactly the active rows, each as stored, in name order. */
  lemma ReadAllIsActiveRows(t: CategoryTable)
    requires Valid(t)
    ensures forall id :: id in t.rows && t.rows[id].active ==> View(id, t.rows[id]) in ReadAll(t, Completed)
    ensures forall c :: c in ReadAll(t, Completed) ==>
      c.isActive && c.categoryId in t.rows && c == View(c.categoryId, t.rows[c.categoryId])
    ensures Sorted(ReadAll(t, Completed), ByName())
  {
    forall id | id in t.rows && t.rows[id].active
      ensures View(id, t.rows[id]) in ReadAll(t, Completed)
    {
      QueryHas(t, ActiveOnly, View, ByName(), id);
    }
    forall c | c in ReadAll(t, Completed)
      ensures c.isActive && c.categoryId in t.rows && c == View(c.categoryId, t.rows[c.categoryId])
    {
      var id := QueryOrigin(t, ActiveOnly, View, ByName(), c);
    }
    ByKeyIsTotalPreorder(NameOf);
    QuerySorted(t, ActiveOnly, View, ByName());
  }

  /** A created category reads back by its new key with every submitted
      field, active, stamped with the creation time, and is listed exactly once. */
  lemma CreateThenRead(t: CategoryTable, c: Category, now: Timestamp)
    requires Valid(t)
    ensures var r := Create(t, c, now, Completed);
      && ReadById(r.table, r.record.categoryId, Completed) == Some(c.(categoryId := t.nextId, isActive := true, createdAt := Some(now)))
      && multiset(ReadAll(r.table, Completed))[c.(categoryId := t.nextId, isActive := true, createdAt := Some(now))] == 1
  {
    var r := Create(t, c, now, Completed);
    QueryOnce(r.table, ActiveOnly, View, ByName(), IdOf, t.nextId);
  }

  /** An update that succeeds makes `readById` return the submitted record,
      except that the creation time stays the stored one; other rows are untouched. */
  lemma UpdateThenRead(t: CategoryTable, c: Category, other: int)
    requires c.categoryId in t.rows && other != c.categoryId
    ensures var r := Update(t, c, Completed);
      && ReadById(r.table, c.categoryId, Completed) == Some(c.(createdAt := Some(t.rows[c.categoryId].createdAt)))
      && ReadById(r.table, other, Completed) == ReadById(t, other, Completed)
  {
  }

  /** A soft delete removes exactly that category from `readAll`, while
      `readById` still finds it, now inactive. */
  lemma DeleteHidesFromReadAll(t: CategoryTable, id: int)
    requires Valid(t) && id in t.rows
    ensures var t' := Delete(t, id, Completed).table;
      && (forall c :: c in ReadAll(t', Completed) <==> c in ReadAll(t, Completed) && c.categoryId != id)
      && ReadById(t', id, Completed) == Some(View(id, t.rows[id]).(isActive := false))
  {
    var t' := Delete(t, id, Completed).table;
    ReadAllIsActiveRows(t);
    ReadAllIsActiveRows(t');
  }
}
