/** The Dish repository over the Dish table, read through an inner join with
    the Category table for the category name. The Dish table carries two
    flags: `active`, which `readAll`, `readById`, `readByCategory` and
    `update` use, and `available`, which `delete`, `searchByName` and
    `readByCategory` use. A `Raised` reply is an SQLException, swallowed into
    `false`, an empty list or `None`. */
module DishDao {
  import opened Common
  import opened Text
  import opened Ordering
  import opened Tables
  import opened Decimals
  import opened Records
  import CategoryDao

  /** The brand every insert and update writes. */
  const DefaultBrand: int := 1

  /** A stored Dish row. `active` and `available` default to true,
      `vegetarian` and `spicy` to false, `createdAt` to the time of the INSERT. */
  datatype DishRow = DishRow(
    brandId: int,
    categoryId: int,
    name: string,
    description: string,
    price: Decimal,
    preparationTime: int,
    active: bool,
    available: bool,
    vegetarian: bool,
    spicy: bool,
    createdAt: Timestamp)

  type DishTable = Table<DishRow>

  type Categories = CategoryDao.CategoryTable

  /** `INNER JOIN Category c ON d.category_id = c.category_id`: the row has a
      category. The category's own active flag plays no part. */
  predicate Joins(cats: Categories, row: DishRow) {
    row.categoryId in cats.rows
  }

  /** The joined `c.name`. */
  function JoinedName(cats: Categories, row: DishRow): Option<string> {
    if row.categoryId in cats.rows then Some(cats.rows[row.categoryId].name) else None
  }

  /** The record `readAll` and `readById` build: the `active` column shown as
      available, vegetarian and spicy forced to false. */
  function ActiveView(cats: Categories): (int, DishRow) -> Dish {
    (id: int, row: DishRow) =>
      Dish(id, row.categoryId, row.name, row.description, row.price, row.preparationTime,
           row.active, false, false, Some(row.createdAt), JoinedName(cats, row))
  }

  /** The record `readByCategory` and `searchByName` build: the stored
      `available`, `vegetarian` and `spicy` columns. */
  function FlagView(cats: Categories): (int, DishRow) -> Dish {
    (id: int, row: DishRow) =>
      Dish(id, row.categoryId, row.name, row.description, row.price, row.preparationTime,
           row.available, row.vegetarian, row.spicy, Some(row.createdAt), JoinedName(cats, row))
  }

  function IdOf(d: Dish): int {
    d.dishId
  }

  function DishNameOf(d: Dish): string {
    d.name
  }

  function CategoryNameOf(d: Dish): string {
    d.categoryName.GetOr("")
  }

  /** `ORDER BY c.name, d.name`. */
  function ByCategoryThenName(): (Dish, Dish) -> bool {
    ByKeys(CategoryNameOf, DishNameOf)
  }

  /** `ORDER BY d.name`. */
  function ByDishName(): (Dish, Dish) -> bool {
    ByKey(DishNameOf)
  }

  /** `WHERE d.active = TRUE`, over the join. */
  function ActiveJoined(cats: Categories): (int, DishRow) -> bool {
    (id: int, row: DishRow) => row.active && Joins(cats, row)
  }

  /** `WHERE d.category_id = ? AND d.active = TRUE`, over the join. */
  function InCategory(cats: Categories, categoryId: int): (int, DishRow) -> bool {
    (id: int, row: DishRow) => row.categoryId == categoryId && row.active && Joins(cats, row)
  }

  /** `WHERE d.name LIKE '%term%' AND d.available = TRUE`, over the join. */
  function NameLikeAvailable(cats: Categories, term: string): (int, DishRow) -> bool {
    (id: int, row: DishRow) => Like(row.name, "%" + term + "%") && row.available && Joins(cats, row)
  }

  /** `create`: inserts brand 1 and the dish's category, name, description,
      price and preparation time; every flag and the creation time come from
      the column defaults, so the record's own flags are not stored. */
  function Create(t: DishTable, d: Dish, now: Timestamp, reply: Reply): (r: Created<Dish, DishRow>)
    ensures r.ok <==> reply.Completed?
    ensures r.ok ==> r.record == d.(dishId := t.nextId) && r.table.rows.Keys == t.rows.Keys + {t.nextId}
    ensures r.ok ==> r.table.rows[t.nextId].active && r.table.rows[t.nextId].available
    ensures r.ok ==> !r.table.rows[t.nextId].vegetarian && !r.table.rows[t.nextId].spicy
    ensures r.ok && Valid(t) ==> forall id :: id in t.rows ==> r.table.rows[id] == t.rows[id]
    ensures !r.ok ==> r.record == d && r.table == t
    ensures Valid(t) ==> Valid(r.table)
  {
    if reply.Raised? then Created(false, d, t)
    else
      var row := DishRow(DefaultBrand, d.categoryId, d.name, d.description, d.price, d.preparationTime,
                         true, true, false, false, now);
      Created(true, d.(dishId := t.nextId), Insert(t, row))
  }

  /** `readAll`: the active dishes that join a category, by category name
      and then dish name. */
  function ReadAll(t: DishTable, cats: Categories, reply: Reply): (r: seq<Dish>)
    ensures reply.Raised? ==> r == []
  {
    if reply.Raised? then [] else Query(t, ActiveJoined(cats), ActiveView(cats), ByCategoryThenName())
  }

  /** `readById`: the dish with that key if it joins a category, whatever its flags. */
  function ReadById(t: DishTable, cats: Categories, id: int, reply: Reply): (r: Option<Dish>)
    ensures r.Some? <==> reply.Completed? && id in t.rows && Joins(cats, t.rows[id])
    ensures r.Some? ==> r.value.dishId == id && r.value.categoryName.Some?
    ensures r.Some? ==> !r.value.isVegetarian && !r.value.isSpicy
    ensures r.Some? ==> && r.value.isAvailable == t.rows[id].active
                        && r.value.categoryId == t.rows[id].categoryId
                        && r.value.name == t.rows[id].name
                        && r.value.description == t.rows[id].description
                        && r.value.price == t.rows[id].price
                        && r.value.preparationTime == t.rows[id].preparationTime
                        && r.value.createdAt == Some(t.rows[id].createdAt)
  {
    if reply.Completed? && id in t.rows && Joins(cats, t.rows[id]) then Some(ActiveView(cats)(id, t.rows[id]))
    else None
  }

  /** `readByCategory`: the active dishes of one category, by name. */
  function ReadByCategory(t: DishTable, cats: Categories, categoryId: int, reply: Reply): (r: seq<Dish>)
    ensures reply.Raised? ==> r == []
  {
    if reply.Raised? then [] else Query(t, InCategory(cats, categoryId), FlagView(cats), ByDishName())
  }

  /** `searchByName`: the available dishes whose name matches `%term%`, by name. */
  function SearchByName(t: DishTable, cats: Categories, term: string, reply: Reply): (r: seq<Dish>)
    ensures reply.Raised? ==> r == []
  {
    if reply.Raised? then [] else Query(t, NameLikeAvailable(cats, term), FlagView(cats), ByDishName())
  }

  /** The columns `update` writes; `available`, `vegetarian`, `spicy` and the
      creation time are kept. */
  function Rewrite(d: Dish): DishRow -> DishRow {
    (row: DishRow) => row.(brandId := DefaultBrand, categoryId := d.categoryId, name := d.name,
                           description := d.description, price := d.price,
                           preparationTime := d.preparationTime, active := d.isAvailable)
  }

  /** `update`: rewrites brand, category, name, description, price,
      preparation time, and the `active` column from the record's available
      flag. True iff the row exists. */
  function Update(t: DishTable, d: Dish, reply: Reply): (r: Changed<DishRow>)
    ensures r.ok <==> reply.Completed? && d.dishId in t.rows
    ensures !r.ok ==> r.table == t
    ensures r.table.rows.Keys == t.rows.Keys && r.table.nextId == t.nextId
    ensures r.ok ==> var o := t.rows[d.dishId]; var w := r.table.rows[d.dishId];
      && w.active == d.isAvailable && w.categoryId == d.categoryId && w.name == d.name
      && w.description == d.description && w.price == d.price && w.preparationTime == d.preparationTime
      && w.available == o.available && w.vegetarian == o.vegetarian && w.spicy == o.spicy
      && w.createdAt == o.createdAt
    ensures forall k :: k in t.rows && k != d.dishId ==> r.table.rows[k] == t.rows[k]
    ensures Valid(t) ==> Valid(r.table)
  {
    if reply.Raised? then Changed(false, t)
    else UpdateWhere(t, d.dishId, Rewrite(d))
  }

  /** `delete`: a soft delete that clears `available` and nothing else. */
  function Delete(t: DishTable, id: int, reply: Reply): (r: Changed<DishRow>)
    ensures r.ok <==> reply.Completed? && id in t.rows
    ensures !r.ok ==> r.table == t
    ensures r.table.rows.Keys == t.rows.Keys && r.table.nextId == t.nextId
    ensures r.ok ==> r.table.rows[id] == t.rows[id].(available := false)
    ensures forall k :: k in t.rows && k != id ==> r.table.rows[k] == t.rows[k]
    ensures Valid(t) ==> Valid(r.table)
  {
    if reply.Raised? then Changed(false, t)
    else UpdateWhere(t, id, (row: DishRow) => row.(available := false))
  }

  /** `readAll` lists exactly the active dishes that join a category, each
      as stored with its category's name, by category name then dish name. */
  lemma ReadAllIsActiveJoinedRows(t: DishTable, cats: Categories)
    requires Valid(t)
    ensures forall id :: id in t.rows && t.rows[id].active && Joins(cats, t.rows[id]) ==>
      ActiveView(cats)(id, t.rows[id]) in ReadAll(t, cats, Completed)
    ensures forall d :: d in ReadAll(t, cats, Completed) ==>
      && d.dishId in t.rows && t.rows[d.dishId].active && Joins(cats, t.rows[d.dishId])
      && d == ActiveView(cats)(d.dishId, t.rows[d.dishId])
    ensures Sorted(ReadAll(t, cats, Completed), ByCategoryThenName())
  {
    forall id | id in t.rows && t.rows[id].active && Joins(cats, t.rows[id])
      ensures ActiveView(cats)(id, t.rows[id]) in ReadAll(t, cats, Completed)
    {
      QueryHas(t, ActiveJoined(cats), ActiveView(cats), ByCategoryThenName(), id);
    }
    forall d | d in ReadAll(t, cats, Completed)
      ensures && d.dishId in t.rows && t.rows[d.dishId].active && Joins(cats, t.rows[d.dishId])
              && d == ActiveView(cats)(d.dishId, t.rows[d.dishId])
    {
      var id := QueryOrigin(t, ActiveJoined(cats), ActiveView(cats), ByCategoryThenName(), d);
    }
    ByKeysIsTotalPreorder(CategoryNameOf, DishNameOf);
    QuerySorted(t, ActiveJoined(cats), ActiveView(cats), ByCategoryThenName());
  }

  /** The soft delete clears `available`, which `readAll` never looks at: the
      list is exactly the same afterwards. */
  lemma DeleteKeepsReadAll(t: DishTable, cats: Categories, id: int)
    ensures ReadAll(Delete(t, id, Completed).table, cats, Completed) == ReadAll(t, cats, Completed)
  {
    var t' := Delete(t, id, Completed).table;
    QueryAgree(t', t, ActiveJoined(cats), ActiveJoined(cats), ActiveView(cats), ActiveView(cats), ByCategoryThenName());
  }

  /** `readById` does not see the soft delete either: every dish, the deleted
      one included, reads back as before, still shown as available when its
      `active` column says so. */
  lemma DeleteKeepsReadById(t: DishTable, cats: Categories, id: int, k: int)
    ensures ReadById(Delete(t, id, Completed).table, cats, k, Completed) == ReadById(t, cats, k, Completed)
  {
  }

  /** ... but `searchByName` no longer finds the deleted dish, under any term. */
  lemma DeleteHidesFromSearch(t: DishTable, cats: Categories, id: int, term: string)
    requires id in t.rows
    ensures forall d :: d in SearchByName(Delete(t, id, Completed).table, cats, term, Completed) ==> d.dishId != id
  {
    var t' := Delete(t, id, Completed).table;
    forall d | d in SearchByName(t', cats, term, Completed)
      ensures d.dishId != id
    {
      var k := QueryOrigin(t', NameLikeAvailable(cats, term), FlagView(cats), ByDishName(), d);
    }
  }

  /** `readByCategory` lists exactly the active dishes of that category whose
      category exists, with their stored flag columns, by dish name. */
  lemma ReadByCategoryIsActiveRows(t: DishTable, cats: Categories, categoryId: int)
    requires Valid(t)
    ensures forall id :: id in t.rows && t.rows[id].categoryId == categoryId && t.rows[id].active && Joins(cats, t.rows[id]) ==>
      FlagView(cats)(id, t.rows[id]) in ReadByCategory(t, cats, categoryId, Completed)
    ensures forall d :: d in ReadByCategory(t, cats, categoryId, Completed) ==>
      && d.dishId in t.rows && t.rows[d.dishId].categoryId == categoryId && t.rows[d.dishId].active
      && Joins(cats, t.rows[d.dishId]) && d == FlagView(cats)(d.dishId, t.rows[d.dishId])
    ensures Sorted(ReadByCategory(t, cats, categoryId, Completed), ByDishName())
  {
    forall id | id in t.rows && t.rows[id].categoryId == categoryId && t.rows[id].active && Joins(cats, t.rows[id])
      ensures FlagView(cats)(id, t.rows[id]) in ReadByCategory(t, cats, categoryId, Completed)
    {
      QueryHas(t, InCategory(cats, categoryId), FlagView(cats), ByDishName(), id);
    }
    forall d | d in ReadByCategory(t, cats, categoryId, Completed)
      ensures && d.dishId in t.rows && t.rows[d.dishId].categoryId == categoryId && t.rows[d.dishId].active
              && Joins(cats, t.rows[d.dishId]) && d == FlagView(cats)(d.dishId, t.rows[d.dishId])
    {
      var id := QueryOrigin(t, InCategory(cats, categoryId), FlagView(cats), ByDishName(), d);
    }
    ByKeyIsTotalPreorder(DishNameOf);
    QuerySorted(t, InCategory(cats, categoryId), FlagView(cats), ByDishName());
  }

  /** After a delete `readByCategory` still lists the dish, now shown as unavailable. */
  lemma DeletedStillListedByCategory(t: DishTable, cats: Categories, id: int)
    requires Valid(t) && id in t.rows && t.rows[id].active && Joins(cats, t.rows[id])
    ensures var t' := Delete(t, id, Completed).table;
      && FlagView(cats)(id, t'.rows[id]) in ReadByCategory(t', cats, t.rows[id].categoryId, Completed)
      && !FlagView(cats)(id, t'.rows[id]).isAvailable
  {
    var t' := Delete(t, id, Completed).table;
    QueryHas(t', InCategory(cats, t.rows[id].categoryId), FlagView(cats), ByDishName(), id);
  }

  /** Soft-deleting a category hides none of its dishes: the join ignores
      the category's active flag, so `readAll` is unchanged. */
  lemma CategoryDeleteKeepsDishes(t: DishTable, cats: Categories, categoryId: int)
    ensures ReadAll(t, CategoryDao.Delete(cats, categoryId, Completed).table, Completed) == ReadAll(t, cats, Completed)
  {
    var cats' := CategoryDao.Delete(cats, categoryId, Completed).table;
    assert forall k :: k in cats.rows ==> cats'.rows[k].name == cats.rows[k].name;
    QueryAgree(t, t, ActiveJoined(cats'), ActiveJoined(cats), ActiveView(cats'), ActiveView(cats), ByCategoryThenName());
  }

  /** The dish a successful `create` stores, as `readById` shows it. */
  function Stored(t: DishTable, cats: Categories, d: Dish, now: Timestamp): Dish
    requires d.categoryId in cats.rows
  {
    d.(dishId := t.nextId, isAvailable := true, isVegetarian := false, isSpicy := false,
       createdAt := Some(now), categoryName := Some(cats.rows[d.categoryId].name))
  }

  /** A created dish reads back by its new key with category, name,
      description, price and preparation time as submitted, available, and
      NOT vegetarian or spicy, whatever the record said: create drops those
      two flags. It is listed once by `readAll`. */
  lemma CreateThenRead(t: DishTable, cats: Categories, d: Dish, now: Timestamp)
    requires Valid(t) && d.categoryId in cats.rows
    ensures var r := Create(t, d, now, Completed);
      && r.ok
      && ReadById(r.table, cats, r.record.dishId, Completed) == Some(Stored(t, cats, d, now))
      && multiset(ReadAll(r.table, cats, Completed))[Stored(t, cats, d, now)] == 1
  {
    var r := Create(t, d, now, Completed);
    QueryOnce(r.table, ActiveJoined(cats), ActiveView(cats), ByCategoryThenName(), IdOf, t.nextId);
  }

  /** A created dish is listed exactly once under its category, with the
      stored flags: available, not vegetarian, not spicy. */
  lemma CreateThenReadByCategory(t: DishTable, cats: Categories, d: Dish, now: Timestamp)
    requires Valid(t) && d.categoryId in cats.rows
    ensures var r := Create(t, d, now, Completed);
      multiset(ReadByCategory(r.table, cats, d.categoryId, Completed))[Stored(t, cats, d, now)] == 1
  {
    var r := Create(t, d, now, Completed);
    QueryOnce(r.table, InCategory(cats, d.categoryId), FlagView(cats), ByDishName(), IdOf, t.nextId);
  }

  /** A dish whose category key matches no Category row is still inserted,
      but no read that joins Category can see it. */
  lemma OrphanIsInvisible(t: DishTable, cats: Categories, d: Dish, now: Timestamp)
    requires d.categoryId !in cats.rows
    ensures var r := Create(t, d, now, Completed);
      && r.ok && t.nextId in r.table.rows
      && ReadById(r.table, cats, t.nextId, Completed) == None
      && (forall x :: x in ReadAll(r.table, cats, Completed) ==> x.dishId != t.nextId)
  {
    var r := Create(t, d, now, Completed);
    forall x | x in ReadAll(r.table, cats, Completed)
      ensures x.dishId != t.nextId
    {
      var id := QueryOrigin(r.table, ActiveJoined(cats), ActiveView(cats), ByCategoryThenName(), x);
    }
  }

  /** A successful update shows in `readById`: the submitted fields, with the
      stored creation time and the joined category name; other dishes are untouched. */
  lemma UpdateThenRead(t: DishTable, cats: Categories, d: Dish, other: int)
    requires d.dishId in t.rows && d.categoryId in cats.rows && other != d.dishId
    ensures var r := Update(t, d, Completed);
      && r.ok
      && ReadById(r.table, cats, d.dishId, Completed) ==
           Some(d.(isVegetarian := false, isSpicy := false, createdAt := Some(t.rows[d.dishId].createdAt),
                   categoryName := Some(cats.rows[d.categoryId].name)))
      && ReadById(r.table, cats, other, Completed) == ReadById(t, cats, other, Completed)
  {
  }

  /** For a term without wildcards, the search returns exactly the available
      joined dishes whose name contains the term, as stored, by name. */
  lemma SearchIsContains(t: DishTable, cats: Categories, term: string)
    requires Valid(t) && IsLiteral(term)
    ensures forall id :: id in t.rows && t.rows[id].available && Joins(cats, t.rows[id]) && Contains(t.rows[id].name, term) ==>
      FlagView(cats)(id, t.rows[id]) in SearchByName(t, cats, term, Completed)
    ensures forall d :: d in SearchByName(t, cats, term, Completed) ==>
      && d.dishId in t.rows && t.rows[d.dishId].available && Joins(cats, t.rows[d.dishId])
      && Contains(d.name, term) && d == FlagView(cats)(d.dishId, t.rows[d.dishId])
    ensures Sorted(SearchByName(t, cats, term, Completed), ByDishName())
  {
    forall id | id in t.rows && t.rows[id].available && Joins(cats, t.rows[id]) && Contains(t.rows[id].name, term)
      ensures FlagView(cats)(id, t.rows[id]) in SearchByName(t, cats, term, Completed)
    {
      LikeContains(t.rows[id].name, term);
      QueryHas(t, NameLikeAvailable(cats, term), FlagView(cats), ByDishName(), id);
    }
    forall d | d in SearchByName(t, cats, term, Completed)
      ensures && d.dishId in t.rows && t.rows[d.dishId].available && Joins(cats, t.rows[d.dishId])
              && Contains(d.name, term) && d == FlagView(cats)(d.dishId, t.rows[d.dishId])
    {
      var id := QueryOrigin(t, NameLikeAvailable(cats, term), FlagView(cats), ByDishName(), d);
      LikeContains(d.name, term);
    }
    ByKeyIsTotalPreorder(DishNameOf);
    QuerySorted(t, NameLikeAvailable(cats, term), FlagView(cats), ByDishName());
  }
}
