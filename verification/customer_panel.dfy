/** The customer screen without its widgets: the form's contents, the
    selected customer, the enabled buttons, the listed customers and the
    search box. Every handler is a function from the screen and the store to
    the screen and the store. */
module CustomerPanel {
  import opened Common
  import opened Text
  import opened Ordering
  import opened Tables
  import opened Records
  import CustomerDao

  /** What the form holds: four text fields and the active check box. */
  datatype CustomerForm = CustomerForm(fullName: string, email: string, phone: string, address: string, active: bool)

  /** One line of the validation message. */
  datatype CustomerError =
    | NameRequired
    | EmailRequired
    | EmailMalformed
    | PhoneRequired
    | AddressRequired

  /** The position of the check that reports the error. */
  function Rank(e: CustomerError): nat {
    match e
    case NameRequired => 0
    case EmailRequired | EmailMalformed => 1
    case PhoneRequired => 2
    case AddressRequired => 3
  }

  /** The email check: required when blank, otherwise the raw text, untrimmed,
      must contain an `@`. */
  function EmailCheck(blank: bool, hasAt: bool): (r: seq<CustomerError>)
    ensures EmailRequired in r <==> blank
    ensures EmailMalformed in r <==> !blank && !hasAt
    ensures r == [] <==> !blank && hasAt
    ensures r == [] || r == [EmailRequired] || r == [EmailMalformed]
  {
    if blank then [EmailRequired] else When(!hasAt, EmailMalformed)
  }

  /** The message lines for what the checks read off the form: one per
      failed check, and at most one about the email. */
  function ErrorsOf(nameBlank: bool, emailBlank: bool, emailHasAt: bool, phoneBlank: bool,
                    addressBlank: bool): (r: seq<CustomerError>)
    ensures NameRequired in r <==> nameBlank
    ensures EmailRequired in r <==> emailBlank
    ensures EmailMalformed in r <==> !emailBlank && !emailHasAt
    ensures PhoneRequired in r <==> phoneBlank
    ensures AddressRequired in r <==> addressBlank
    ensures r == [] <==> !nameBlank && !emailBlank && emailHasAt && !phoneBlank && !addressBlank
  {
    var d := When(addressBlank, AddressRequired);
    var c := When(phoneBlank, PhoneRequired);
    var b := EmailCheck(emailBlank, emailHasAt);
    var a := When(nameBlank, NameRequired);
    var r := a + (b + (c + d));
    assert forall x :: x in r <==> x in a || x in b || x in c || x in d;
    r
  }

  /** The lines come in the order the checks run. */
  lemma ErrorsInCheckOrder(nameBlank: bool, emailBlank: bool, emailHasAt: bool, phoneBlank: bool, addressBlank: bool)
    ensures Ranked(ErrorsOf(nameBlank, emailBlank, emailHasAt, phoneBlank, addressBlank), Rank)
  {
    var d := When(addressBlank, AddressRequired);
    var c := When(phoneBlank, PhoneRequired);
    var b := EmailCheck(emailBlank, emailHasAt);
    var a := When(nameBlank, NameRequired);
    assert Ranked(c + d, Rank) && forall y :: y in c + d ==> Rank(y) >= 2 by {
      PrependRanked(Rank, c, 2, d);
    }
    assert Ranked(b + (c + d), Rank) && forall y :: y in b + (c + d) ==> Rank(y) >= 1 by {
      PrependRanked(Rank, b, 1, c + d);
    }
    PrependRanked(Rank, a, 0, b + (c + d));
  }

  /** `validateForm`'s message lines: blank tests on the trimmed texts, and
      the `@` test on the email text as typed. */
  function Errors(f: CustomerForm): seq<CustomerError> {
    ErrorsOf(IsBlank(f.fullName), IsBlank(f.email), Contains(f.email, "@"), IsBlank(f.phone), IsBlank(f.address))
  }

  /** `validateForm` returns true: no message line. */
  predicate Validates(f: CustomerForm) {
    Errors(f) == []
  }

  /** The form is accepted exactly when name, phone and address are not blank
      and the trimmed email contains an `@`: testing the untrimmed text, as
      the screen does, gives the same answer, since `@` is never trimmed. */
  lemma ValidIff(f: CustomerForm)
    ensures Validates(f) <==>
      !IsBlank(f.fullName) && '@' in Trim(f.email) && !IsBlank(f.phone) && !IsBlank(f.address)
  {
    ContainsChar(f.email, '@');
    TrimKeeps(f.email, '@');
  }

  /** `addCustomer`'s record: the four trimmed texts and the active box. */
  function NewCustomerFrom(f: CustomerForm): (c: Customer)
    requires Validates(f)
    ensures c.fullName == Trim(f.fullName) && c.email == Trim(f.email) && c.phone == Trim(f.phone)
    ensures c.deliveryAddress == Some(Trim(f.address))
    ensures c.fullName != [] && '@' in c.email && c.phone != [] && Trim(f.address) != []
    ensures c.isActive == f.active && c.customerId == 0 && c.registrationDate.None?
  {
    ValidIff(f);
    var c := NewCustomer(Trim(f.fullName), Trim(f.email), Trim(f.phone), Trim(f.address));
    c.(isActive := f.active)
  }

  /** `updateCustomer`'s record: the selected customer with every form field
      written through its setter; key and registration date are kept. */
  function UpdatedCustomerFrom(c: Customer, f: CustomerForm): (r: Customer)
    requires Validates(f)
    ensures r.customerId == c.customerId && r.registrationDate == c.registrationDate
    ensures r.fullName == Trim(f.fullName) && r.email == Trim(f.email) && r.phone == Trim(f.phone)
    ensures r.deliveryAddress == Some(Trim(f.address))
    ensures r.fullName != [] && '@' in r.email && r.phone != [] && Trim(f.address) != []
    ensures r.isActive == f.active
  {
    ValidIff(f);
    c.(fullName := Trim(f.fullName), email := Trim(f.email), phone := Trim(f.phone),
       deliveryAddress := Some(Trim(f.address)), isActive := f.active)
  }

  datatype CustomerScreen = CustomerScreen(
    form: CustomerForm,
    selected: Option<Customer>,
    buttons: Buttons,
    rows: seq<Customer>,
    search: string)

  /** The buttons match the selection: update and delete exactly when a
      customer is selected, add exactly when none is. */
  predicate Coherent(s: CustomerScreen) {
    s.buttons == if s.selected.Some? then ForSelected else ForNew
  }

  /** `clearForm`: empty texts, the active box ticked, nothing selected. */
  function ClearForm(s: CustomerScreen): (r: CustomerScreen)
    ensures r.form.fullName == "" && r.form.email == "" && r.form.phone == "" && r.form.address == ""
    ensures r.form.active && r.selected.None? && Coherent(r)
    ensures !Validates(r.form)
    ensures r.rows == s.rows && r.search == s.search
  {
    s.(form := CustomerForm("", "", "", "", true), selected := None, buttons := ForNew)
  }

  /** Clearing a clear form changes nothing. */
  lemma ClearIdempotent(s: CustomerScreen)
    ensures ClearForm(ClearForm(s)) == ClearForm(s)
  {
  }

  /** `refreshData`: reload every customer, clear the form and the search box. */
  function Refresh(s: CustomerScreen, t: CustomerDao.CustomerTable, reply: Reply): (r: CustomerScreen)
    ensures r.rows == CustomerDao.ReadAll(t, reply)
    ensures r.search == "" && r.selected.None? && Coherent(r)
    ensures ClearForm(r) == r
  {
    ClearForm(s.(rows := CustomerDao.ReadAll(t, reply))).(search := "")
  }

  /** `searchCustomers`: the trimmed term; blank lists every customer,
      otherwise the name search. The form is cleared. */
  function SearchCustomers(s: CustomerScreen, t: CustomerDao.CustomerTable, reply: Reply): (r: CustomerScreen)
    ensures r.rows == if IsBlank(s.search) then CustomerDao.ReadAll(t, reply)
                      else CustomerDao.SearchByName(t, Trim(s.search), reply)
    ensures ClearForm(r) == r
    ensures r.selected.None? && Coherent(r) && r.search == s.search
    ensures reply.Raised? ==> r.rows == []
  {
    var term := Trim(s.search);
    var found := if term == [] then CustomerDao.ReadAll(t, reply) else CustomerDao.SearchByName(t, term, reply);
    ClearForm(s.(rows := found))
  }

  /** Blanks around the search term make no difference. */
  lemma SearchIgnoresSurroundingBlanks(s: CustomerScreen, t: CustomerDao.CustomerTable, reply: Reply)
    ensures SearchCustomers(s.(search := Trim(s.search)), t, reply).rows == SearchCustomers(s, t, reply).rows
  {
    TrimIdempotent(s.search);
  }

  /** A blank term lists what `readAll` lists; a wildcard-free term lists
      exactly the customers `readAll` lists whose full name contains the
      trimmed term, in full-name order. */
  lemma SearchShows(s: CustomerScreen, t: CustomerDao.CustomerTable)
    requires Valid(t) && IsLiteral(Trim(s.search))
    ensures IsBlank(s.search) ==> SearchCustomers(s, t, Completed).rows == CustomerDao.ReadAll(t, Completed)
    ensures !IsBlank(s.search) ==> forall c :: c in SearchCustomers(s, t, Completed).rows <==>
      c in CustomerDao.ReadAll(t, Completed) && Contains(c.fullName, Trim(s.search))
    ensures Sorted(SearchCustomers(s, t, Completed).rows, CustomerDao.ByFullName())
  {
    CustomerDao.ReadAllIsEveryRow(t);
    CustomerDao.SearchIsContains(t, Trim(s.search));
  }

  /** `loadCustomerFromTable(row)`: reads the listed customer again by key.
      If the read finds it, the form shows it and update/delete replace add;
      the address field is left empty, since a customer read from the store
      never has an address. If not, only the selection is dropped. */
  function LoadCustomer(s: CustomerScreen, row: nat, t: CustomerDao.CustomerTable, reply: Reply): (r: CustomerScreen)
    requires row < |s.rows|
    ensures r.selected == CustomerDao.ReadById(t, s.rows[row].customerId, reply)
    ensures r.selected.None? ==> r == s.(selected := None)
    ensures r.selected.Some? ==> Coherent(r) && r.form.address == ""
    ensures r.selected.Some? ==>
      && r.form.fullName == r.selected.value.fullName && r.form.email == r.selected.value.email
      && r.form.phone == r.selected.value.phone && r.form.active == r.selected.value.isActive
    ensures r.rows == s.rows && r.search == s.search
  {
    match CustomerDao.ReadById(t, s.rows[row].customerId, reply)
    case None => s.(selected := None)
    case Some(c) =>
      var form := CustomerForm(c.fullName, c.email, c.phone, c.deliveryAddress.GetOr(""), c.isActive);
      s.(form := form, selected := Some(c), buttons := ForSelected)
  }

  datatype CustomerStep = CustomerStep(screen: CustomerScreen, table: CustomerDao.CustomerTable)

  /** `addCustomer`: on a valid form, create the customer; on success refresh
      and clear. */
  function AddCustomer(s: CustomerScreen, t: CustomerDao.CustomerTable, now: Timestamp, o: Outcomes): (r: CustomerStep)
    ensures !Validates(s.form) || o.write.Raised? ==> r == CustomerStep(s, t)
    ensures Validates(s.form) && o.write.Completed? ==>
      && r.table == CustomerDao.Create(t, NewCustomerFrom(s.form), now, Completed).table
      && r.screen == Refresh(s, r.table, o.refresh)
  {
    if !Validates(s.form) then CustomerStep(s, t)
    else
      var c := CustomerDao.Create(t, NewCustomerFrom(s.form), now, o.write);
      if c.ok then CustomerStep(ClearForm(Refresh(s, c.table, o.refresh)), c.table)
      else CustomerStep(s, t)
  }

  /** A customer added from the screen reads back with the trimmed texts,
      active whatever the box said, registered at the creation time and with
      no address, and is listed exactly once in the refreshed list. */
  lemma AddedCustomerReadsBack(s: CustomerScreen, t: CustomerDao.CustomerTable, now: Timestamp)
    requires Valid(t) && Validates(s.form)
    ensures var r := AddCustomer(s, t, now, Outcomes(Completed, Completed));
      var x := Customer(t.nextId, Trim(s.form.fullName), Trim(s.form.email), Trim(s.form.phone), None, Some(now), true);
      && CustomerDao.ReadById(r.table, t.nextId, Completed) == Some(x)
      && multiset(r.screen.rows)[x] == 1
  {
    var c := CustomerDao.Create(t, NewCustomerFrom(s.form), now, Completed);
    CustomerDao.CreateThenRead(t, NewCustomerFrom(s.form), now);
    CustomerDao.ReadAllIsEveryRow(c.table);
  }

  /** `updateCustomer`: needs a selection and a valid form. The selected
      record is rewritten in place before the update runs, so a failed
      update still leaves the edited record selected. */
  function UpdateCustomer(s: CustomerScreen, t: CustomerDao.CustomerTable, o: Outcomes): (r: CustomerStep)
    ensures s.selected.None? || !Validates(s.form) ==> r == CustomerStep(s, t)
    ensures s.selected.Some? && Validates(s.form) ==>
      var u := CustomerDao.Update(t, UpdatedCustomerFrom(s.selected.value, s.form), o.write);
      && r.table == u.table
      && (u.ok ==> r.screen == Refresh(s, u.table, o.refresh))
      && (!u.ok ==> r.screen == s.(selected := Some(UpdatedCustomerFrom(s.selected.value, s.form))))
  {
    if s.selected.None? || !Validates(s.form) then CustomerStep(s, t)
    else
      var c := UpdatedCustomerFrom(s.selected.value, s.form);
      var u := CustomerDao.Update(t, c, o.write);
      if u.ok then CustomerStep(ClearForm(Refresh(s, u.table, o.refresh)), u.table)
      else CustomerStep(s.(selected := Some(c)), t)
  }

  /** A customer just loaded into the form cannot be updated as loaded: the
      address field comes back empty, so the form fails with "address
      required" and the update does nothing. */
  lemma UpdateAfterLoadRefused(s: CustomerScreen, row: nat, t: CustomerDao.CustomerTable, o: Outcomes)
    requires row < |s.rows|
    ensures var l := LoadCustomer(s, row, t, Completed);
      l.selected.Some? ==>
        && AddressRequired in Errors(l.form) && !Validates(l.form)
        && UpdateCustomer(l, t, o) == CustomerStep(l, t)
  {
    var l := LoadCustomer(s, row, t, Completed);
    if l.selected.Some? {
      assert IsBlank(l.form.address);
      assert AddressRequired in Errors(l.form);
    }
  }

  /** After an update from the screen, the customer reads back with the
      trimmed texts and the active box, but still without an address: the
      address the form demanded is never stored. */
  lemma UpdateDropsAddress(s: CustomerScreen, t: CustomerDao.CustomerTable)
    requires s.selected.Some? && Validates(s.form) && s.selected.value.customerId in t.rows
    ensures var r := UpdateCustomer(s, t, Outcomes(Completed, Completed));
      var id := s.selected.value.customerId;
      CustomerDao.ReadById(r.table, id, Completed) ==
        Some(Customer(id, Trim(s.form.fullName), Trim(s.form.email), Trim(s.form.phone), None,
                      Some(t.rows[id].registrationDate), s.form.active))
  {
    var id := s.selected.value.customerId;
    CustomerDao.UpdateThenRead(t, UpdatedCustomerFrom(s.selected.value, s.form), id + 1);
  }

  /** `deleteCustomer`: needs a selection and the operator's confirmation. */
  function DeleteCustomer(s: CustomerScreen, t: CustomerDao.CustomerTable, confirmed: bool, o: Outcomes): (r: CustomerStep)
    ensures s.selected.None? || !confirmed || !CustomerDao.Delete(t, s.selected.value.customerId, o.write).ok ==>
      r == CustomerStep(s, t)
    ensures s.selected.Some? && confirmed ==>
      var del := CustomerDao.Delete(t, s.selected.value.customerId, o.write);
      del.ok ==> r == CustomerStep(Refresh(s, del.table, o.refresh), del.table)
    ensures r.table.rows.Keys <= t.rows.Keys
    ensures Valid(t) ==> Valid(r.table)
  {
    if s.selected.None? || !confirmed then CustomerStep(s, t)
    else
      var del := CustomerDao.Delete(t, s.selected.value.customerId, o.write);
      if del.ok then CustomerStep(ClearForm(Refresh(s, del.table, o.refresh)), del.table)
      else CustomerStep(s, t)
  }

  /** A confirmed delete removes the customer for good: it no longer reads
      back, and the refreshed list is the old list without it. */
  lemma DeletedCustomerGone(s: CustomerScreen, t: CustomerDao.CustomerTable)
    requires Valid(t) && s.selected.Some? && s.selected.value.customerId in t.rows
    ensures var r := DeleteCustomer(s, t, true, Outcomes(Completed, Completed));
      var id := s.selected.value.customerId;
      && CustomerDao.ReadById(r.table, id, Completed).None?
      && forall c :: c in r.screen.rows <==> c in CustomerDao.ReadAll(t, Completed) && c.customerId != id
  {
    CustomerDao.DeleteRemoves(t, s.selected.value.customerId);
  }

  /** A failed re-read of a selected customer drops the selection but leaves
      update and delete enabled; pressing either then does nothing. */
  lemma StaleButtonsAreHarmless(s: CustomerScreen, row: nat, t: CustomerDao.CustomerTable, o: Outcomes, confirmed: bool)
    requires row < |s.rows| && Coherent(s) && s.selected.Some?
    ensures var r := LoadCustomer(s, row, t, Raised);
      && !Coherent(r) && r.buttons.update && r.buttons.delete && r.selected.None?
      && UpdateCustomer(r, t, o) == CustomerStep(r, t)
      && DeleteCustomer(r, t, confirmed, o) == CustomerStep(r, t)
  {
  }
}
