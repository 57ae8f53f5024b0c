/** The Customer repository over the Customer table. The table has no
    delivery-address column, so every record read back carries none. A
    `Raised` reply is an SQLException, swallowed into `false`, an empty list
    or `None`. */
module CustomerDao {
  import opened Common
  import opened Text
  import opened Ordering
  import opened Tables
  import opened Records

  /** A stored Customer row; `active` defaults to true and `registrationDate`
      to the time of the INSERT. */
  datatype CustomerRow = CustomerRow(fullName: string, email: string, phone: string,
                                     registrationDate: Timestamp, active: bool)

  type CustomerTable = Table<CustomerRow>

  /** The record a SELECT * builds from a row: no delivery address. */
  function View(id: int, row: CustomerRow): Customer {
    Customer(id, row.fullName, row.email, row.phone, None, Some(row.registrationDate), row.active)
  }

  function IdOf(c: Customer): int {
    c.customerId
  }

  function FullNameOf(c: Customer): string {
    c.fullName
  }

  /** No `WHERE` clause. */
  function AllRows(id: int, row: CustomerRow): bool {
    true
  }

  /** `WHERE full_name LIKE '%term%'`. */
  function NameLike(term: string): (int, CustomerRow) -> bool {
    (id: int, row: CustomerRow) => Like(row.fullName, "%" + term + "%")
  }

  /** `ORDER BY full_name`. */
  function ByFullName(): (Customer, Customer) -> bool {
    ByKey(FullNameOf)
  }

  /** `create`: inserts full name, email and phone; the store supplies the
      key, the registration time and `active = TRUE`, whatever the record's
      own flag says. The delivery address is not stored. The generated key is
      written back into the record. */
  function Create(t: CustomerTable, c: Customer, now: Timestamp, reply: Reply): (r: Created<Customer, CustomerRow>)
    ensures r.ok <==> reply.Completed?
    ensures r.ok ==> r.record == c.(customerId := t.nextId) && r.table.rows.Keys == t.rows.Keys + {t.nextId}
    ensures r.ok && Valid(t) ==> forall id :: id in t.rows ==> r.table.rows[id] == t.rows[id]
    ensures !r.ok ==> r.record == c && r.table == t
    ensures Valid(t) ==> Valid(r.table)
  {
    if reply.Raised? then Created(false, c, t)
    else Created(true, c.(customerId := t.nextId), Insert(t, CustomerRow(c.fullName, c.email, c.phone, now, true)))
  }

  /** `readAll`: every customer, active or not, by full name. */
  function ReadAll(t: CustomerTable, reply: Reply): (r: seq<Customer>)
    ensures reply.Raised? ==> r == []
  {
    if reply.Raised? then [] else Query(t, AllRows, View, ByFullName())
  }

  /** `readById`: the row with that key. */
  function ReadById(t: CustomerTable, id: int, reply: Reply): (r: Option<Customer>)
    ensures r.Some? <==> reply.Completed? && id in t.rows
    ensures r.Some? ==> r.value.customerId == id && r.value.deliveryAddress.None?
  {
    if reply.Completed? && id in t.rows then Some(View(id, t.rows[id])) else None
  }

  /** `update`: rewrites full name, email, phone and active flag of the row
      with the record's key. True iff such a row exists. */
  function Update(t: CustomerTable, c: Customer, reply: Reply): (r: Changed<CustomerRow>)
    ensures r.ok <==> reply.Completed? && c.customerId in t.rows
    ensures !r.ok ==> r.table == t
    ensures r.table.rows.Keys == t.rows.Keys && r.table.nextId == t.nextId
    ensures Valid(t) ==> Valid(r.table)
  {
    if reply.Raised? then Changed(false, t)
    else UpdateWhere(t, c.customerId,
                     (row: CustomerRow) => row.(fullName := c.fullName, email := c.email, phone := c.phone, active := c.isActive))
  }

  /** `delete`: removes the row (a hard delete). True iff it existed. */
  function Delete(t: CustomerTable, id: int, reply: Reply): (r: Changed<CustomerRow>)
    ensures r.ok <==> reply.Completed? && id in t.rows
    ensures !r.ok ==> r.table == t
    ensures Valid(t) ==> Valid(r.table)
  {
    if reply.Raised? then Changed(false, t) else RemoveWhere(t, id)
  }

  /** `searchByName`: the customers whose full name matches `%term%`, by full name. */
  function SearchByName(t: CustomerTable, term: string, reply: Reply): (r: seq<Customer>)
    ensures reply.Raised? ==> r == []
  {
    if reply.Raised? then [] else Query(t, NameLike(term), View, ByFullName())
  }

  /** `readAll` lists every row exactly once, as stored, in full-name order. */
  lemma ReadAllIsEveryRow(t: CustomerTable)
    requires Valid(t)
    ensures forall id :: id in t.rows ==> multiset(ReadAll(t, Completed))[View(id, t.rows[id])] == 1
    ensures forall c :: c in ReadAll(t, Completed) ==> c.customerId in t.rows && c == View(c.customerId, t.rows[c.customerId])
    ensures Sorted(ReadAll(t, Completed), ByFullName())
  {
    forall id | id in t.rows
      ensures multiset(ReadAll(t, Completed))[View(id, t.rows[id])] == 1
    {
      QueryOnce(t, AllRows, View, ByFullName(), IdOf, id);
    }
    forall c | c in ReadAll(t, Completed)
      ensures c.customerId in t.rows && c == View(c.customerId, t.rows[c.customerId])
    {
      var id := QueryOrigin(t, AllRows, View, ByFullName(), c);
    }
    ByKeyIsTotalPreorder(FullNameOf);
    QuerySorted(t, AllRows, View, ByFullName());
  }

  /** A created customer reads back by its new key with name, email and
      phone as submitted, active, registered at the creation time, and with
      no delivery address whatever was submitted. */
  lemma CreateThenRead(t: CustomerTable, c: Customer, now: Timestamp)
    requires Valid(t)
    ensures var r := Create(t, c, now, Completed);
      ReadById(r.table, r.record.customerId, Completed) ==
        Some(c.(customerId := t.nextId, deliveryAddress := None, registrationDate := Some(now), isActive := true))
  {
  }

  /** An update that succeeds makes `readById` return the submitted record,
      except for the delivery address (never stored) and the registration
      time (never rewritten); other rows are untouched. */
  lemma UpdateThenRead(t: CustomerTable, c: Customer, other: int)
    requires c.customerId in t.rows && other != c.customerId
    ensures var r := Update(t, c, Completed);
      && ReadById(r.table, c.customerId, Completed) ==
           Some(c.(deliveryAddress := None, registrationDate := Some(t.rows[c.customerId].registrationDate)))
      && ReadById(r.table, other, Completed) == ReadById(t, other, Completed)
  {
  }

  /** A delete is hard: the customer is gone from `readById` and from
      `readAll`, and every other customer is still listed. */
  lemma DeleteRemoves(t: CustomerTable, id: int)
    requires Valid(t) && id in t.rows
    ensures var t' := Delete(t, id, Completed).table;
      && ReadById(t', id, Completed) == None
      && (forall c :: c in ReadAll(t', Completed) <==> c in ReadAll(t, Completed) && c.customerId != id)
  {
    var t' := Delete(t, id, Completed).table;
    ReadAllIsEveryRow(t);
    ReadAllIsEveryRow(t');
  }

  /** For a term without wildcards, the search returns exactly the listed
      customers whose full name contains the term, in full-name order. */
  lemma SearchIsContains(t: CustomerTable, term: string)
    requires Valid(t) && IsLiteral(term)
    ensures forall c :: c in SearchByName(t, term, Completed) <==>
      c in ReadAll(t, Completed) && Contains(c.fullName, term)
    ensures Sorted(SearchByName(t, term, Completed), ByFullName())
  {
    ReadAllIsEveryRow(t);
    forall c | c in SearchByName(t, term, Completed)
      ensures c in ReadAll(t, Completed) && Contains(c.fullName, term)
    {
      var id := QueryOrigin(t, NameLike(term), View, ByFullName(), c);
      LikeContains(c.fullName, term);
    }
    forall c | c in ReadAll(t, Completed) && Contains(c.fullName, term)
      ensures c in SearchByName(t, term, Completed)
    {
      LikeContains(c.fullName, term);
      QueryHas(t, NameLike(term), View, ByFullName(), c.customerId);
    }
    ByKeyIsTotalPreorder(FullNameOf);
    QuerySorted(t, NameLike(term), View, ByFullName());
  }

  /** Searching for the empty term lists every customer: the same list as `readAll`. */
  lemma EmptySearchIsReadAll(t: CustomerTable)
    ensures SearchByName(t, "", Completed) == ReadAll(t, Completed)
  {
    forall id | id in t.rows
      ensures NameLike("")(id, t.rows[id]) == AllRows(id, t.rows[id])
    {
      LikeContains(t.rows[id].fullName, "");
    }
    QueryAgree(t, t, NameLike(""), AllRows, View, View, ByFullName());
  }
}
