/** The dish screen without its widgets: the form's contents, the selected
    dish, the enabled state of the add/update/delete buttons, the category
    combo box items, the listed dishes and the search box. Every handler is a
    function from the screen and the store to the screen and the store.
    Number parsing and printing are parameters (`Numbers`). */
module DishPanel {
  import opened Common
  import opened Text
  import opened Ordering
  import opened Tables
  import opened Decimals
  import opened Records
  import DishDao
  import CategoryDao

  /** `new BigDecimal(text)` and `Integer.parseInt(text)` (`None` for a
      NumberFormatException), and the `toString` of each. */
  datatype Numbers = Numbers(
    parseDecimal: string -> Option<Decimal>,
    parseInt: string -> Option<int>,
    showDecimal: Decimal -> string,
    showInt: int -> string)

  /** What the form holds: four text fields, the combo box's selected
      category (`None` for no selection) and three check boxes. */
  datatype DishForm = DishForm(
    name: string,
    description: string,
    price: string,
    prepTime: string,
    category: Option<Category>,
    available: bool,
    vegetarian: bool,
    spicy: bool)

  /** One line of the validation message. */
  datatype DishError =
    | NameRequired
    | DescriptionRequired
    | PriceNotPositive
    | PriceNotNumber
    | PrepTimeNotPositive
    | PrepTimeNotInteger
    | CategoryRequired

  /** The position of the check that reports the error. */
  function Rank(e: DishError): nat {
    match e
    case NameRequired => 0
    case DescriptionRequired => 1
    case PriceNotPositive | PriceNotNumber => 2
    case PrepTimeNotPositive | PrepTimeNotInteger => 3
    case CategoryRequired => 4
  }

  /** The price check on the parsed trimmed text: it must be a number and
      compare above zero, which is an exact comparison of its value with zero. */
  function PriceCheck(parsed: Option<Decimal>): (r: seq<DishError>)
    ensures PriceNotNumber in r <==> parsed.None?
    ensures PriceNotPositive in r <==> parsed.Some? && Value(parsed.value) <= 0.0
    ensures r == [] <==> parsed.Some? && Value(parsed.value) > 0.0
    ensures r == [] || r == [PriceNotNumber] || r == [PriceNotPositive]
  {
    match parsed
    case None => [PriceNotNumber]
    case Some(p) =>
      CompareToZeroIsExact(p);
      When(CompareToZero(p) <= 0, PriceNotPositive)
  }

  /** The preparation-time check on the parsed trimmed text: it must be an
      integer above zero. */
  function PrepTimeCheck(parsed: Option<int>): (r: seq<DishError>)
    ensures PrepTimeNotInteger in r <==> parsed.None?
    ensures PrepTimeNotPositive in r <==> parsed.Some? && parsed.value <= 0
    ensures r == [] <==> parsed.Some? && parsed.value > 0
    ensures r == [] || r == [PrepTimeNotInteger] || r == [PrepTimeNotPositive]
  {
    match parsed
    case None => [PrepTimeNotInteger]
    case Some(m) => When(m <= 0, PrepTimeNotPositive)
  }

  /** The lines of the number and category checks. */
  function LaterErrors(price: Option<Decimal>, prepTime: Option<int>, noCategory: bool): (r: seq<DishError>)
    ensures PriceNotNumber in r <==> price.None?
    ensures PriceNotPositive in r <==> price.Some? && Value(price.value) <= 0.0
    ensures PrepTimeNotInteger in r <==> prepTime.None?
    ensures PrepTimeNotPositive in r <==> prepTime.Some? && prepTime.value <= 0
    ensures CategoryRequired in r <==> noCategory
    ensures NameRequired !in r && DescriptionRequired !in r
    ensures r == [] <==>
      price.Some? && Value(price.value) > 0.0 && prepTime.Some? && prepTime.value > 0 && !noCategory
  {
    var e := When(noCategory, CategoryRequired);
    var d := PrepTimeCheck(prepTime);
    var c := PriceCheck(price);
    var r := c + (d + e);
    assert forall x :: x in r <==> x in c || x in d || x in e;
    r
  }

  /** The message lines for what the checks read off the form: one per
      failed check; a number field reports either "not a number" or "not
      positive", never both. */
  function ErrorsOf(nameBlank: bool, descriptionBlank: bool, price: Option<Decimal>, prepTime: Option<int>,
                    noCategory: bool): (r: seq<DishError>)
    ensures NameRequired in r <==> nameBlank
    ensures DescriptionRequired in r <==> descriptionBlank
    ensures PriceNotNumber in r <==> price.None?
    ensures PriceNotPositive in r <==> price.Some? && Value(price.value) <= 0.0
    ensures PrepTimeNotInteger in r <==> prepTime.None?
    ensures PrepTimeNotPositive in r <==> prepTime.Some? && prepTime.value <= 0
    ensures CategoryRequired in r <==> noCategory
    ensures r == [] <==> && !nameBlank && !descriptionBlank
                         && price.Some? && Value(price.value) > 0.0
                         && prepTime.Some? && prepTime.value > 0
                         && !noCategory
  {
    var later := LaterErrors(price, prepTime, noCategory);
    var b := When(descriptionBlank, DescriptionRequired);
    var a := When(nameBlank, NameRequired);
    var r := a + (b + later);
    assert forall x :: x in r <==> x in a || x in b || x in later;
    r
  }

  /** The number and category lines come in the order their checks run. */
  lemma LaterInCheckOrder(price: Option<Decimal>, prepTime: Option<int>, noCategory: bool)
    ensures Ranked(LaterErrors(price, prepTime, noCategory), Rank)
    ensures forall y :: y in LaterErrors(price, prepTime, noCategory) ==> Rank(y) >= 2
  {
    var e := When(noCategory, CategoryRequired);
    var d := PrepTimeCheck(prepTime);
    var c := PriceCheck(price);
    PrependRanked(Rank, d, 3, e);
    PrependRanked(Rank, c, 2, d + e);
  }

  /** The lines come in the order the checks run. */
  lemma ErrorsInCheckOrder(nameBlank: bool, descriptionBlank: bool, price: Option<Decimal>, prepTime: Option<int>,
                           noCategory: bool)
    ensures Ranked(ErrorsOf(nameBlank, descriptionBlank, price, prepTime, noCategory), Rank)
  {
    var later := LaterErrors(price, prepTime, noCategory);
    var b := When(descriptionBlank, DescriptionRequired);
    var a := When(nameBlank, NameRequired);
    LaterInCheckOrder(price, prepTime, noCategory);
    PrependRanked(Rank, b, 1, later);
    PrependRanked(Rank, a, 0, b + later);
  }

  /** `validateForm`'s message lines: the checks read the trimmed name and
      description, the trimmed price and time texts through the parsers, and
      the combo box selection. */
  function Errors(f: DishForm, n: Numbers): seq<DishError> {
    ErrorsOf(IsBlank(f.name), IsBlank(f.description), n.parseDecimal(Trim(f.price)), n.parseInt(Trim(f.prepTime)),
             f.category.None?)
  }

  /** `validateForm` returns true: no message line. */
  predicate Validates(f: DishForm, n: Numbers) {
    Errors(f, n) == []
  }

  /** `addDish`'s record: trimmed name and description, the parsed numbers,
      the selected category's key, and the three check boxes. */
  function NewDishFrom(f: DishForm, n: Numbers): (d: Dish)
    requires Validates(f, n)
    ensures d.name == Trim(f.name) && d.description == Trim(f.description) && d.name != [] && d.description != []
    ensures d.categoryId == f.category.value.categoryId
    ensures n.parseDecimal(Trim(f.price)) == Some(d.price) && Value(d.price) > 0.0
    ensures n.parseInt(Trim(f.prepTime)) == Some(d.preparationTime) && d.preparationTime > 0
    ensures d.isAvailable == f.available && d.isVegetarian == f.vegetarian && d.isSpicy == f.spicy
    ensures d.dishId == 0 && d.createdAt.None? && d.categoryName.None?
  {
    var price := n.parseDecimal(Trim(f.price)).value;
    var prepTime := n.parseInt(Trim(f.prepTime)).value;
    var d := NewDish(f.category.value.categoryId, Trim(f.name), Trim(f.description), price, prepTime,
                     f.vegetarian, f.spicy);
    d.(isAvailable := f.available)
  }

  /** `updateDish`'s record: the selected dish with every form field written
      through its setter; key, creation time and category name are kept. */
  function UpdatedDishFrom(d: Dish, f: DishForm, n: Numbers): (r: Dish)
    requires Validates(f, n)
    ensures r.dishId == d.dishId && r.createdAt == d.createdAt && r.categoryName == d.categoryName
    ensures r.name == Trim(f.name) && r.description == Trim(f.description) && r.name != [] && r.description != []
    ensures r.categoryId == f.category.value.categoryId
    ensures n.parseDecimal(Trim(f.price)) == Some(r.price) && Value(r.price) > 0.0
    ensures n.parseInt(Trim(f.prepTime)) == Some(r.preparationTime) && r.preparationTime > 0
    ensures r.isAvailable == f.available && r.isVegetarian == f.vegetarian && r.isSpicy == f.spicy
  {
    d.(categoryId := f.category.value.categoryId, name := Trim(f.name), description := Trim(f.description),
       price := n.parseDecimal(Trim(f.price)).value, preparationTime := n.parseInt(Trim(f.prepTime)).value,
       isAvailable := f.available, isVegetarian := f.vegetarian, isSpicy := f.spicy)
  }

  datatype DishScreen = DishScreen(
    form: DishForm,
    selected: Option<Dish>,
    buttons: Buttons,
    categories: seq<Category>,
    rows: seq<Dish>,
    search: string)

  /** The buttons match the selection: update and delete exactly when a dish
      is selected, add exactly when none is. */
  predicate Coherent(s: DishScreen) {
    s.buttons == if s.selected.Some? then ForSelected else ForNew
  }

  /** A combo box selects one of its own items, or nothing. */
  predicate ComboInItems(s: DishScreen) {
    s.form.category.Some? ==> s.form.category.value in s.categories
  }

  /** `clearForm`. */
  function ClearForm(s: DishScreen): (r: DishScreen)
    ensures r.form.name == "" && r.form.description == "" && r.form.price == "" && r.form.prepTime == ""
    ensures r.form.available && !r.form.vegetarian && !r.form.spicy
    ensures s.categories != [] ==> r.form.category == Some(s.categories[0])
    ensures r.selected.None? && Coherent(r)
    ensures r.categories == s.categories && r.rows == s.rows && r.search == s.search
    ensures ComboInItems(s) ==> ComboInItems(r)
  {
    var category := if s.categories != [] then Some(s.categories[0]) else s.form.category;
    s.(form := DishForm("", "", "", "", category, true, false, false), selected := None, buttons := ForNew)
  }

  /** Clearing a clear form changes nothing. */
  lemma ClearIdempotent(s: DishScreen)
    ensures ClearForm(ClearForm(s)) == ClearForm(s)
  {
  }

  /** `loadCategories`: the combo box holds the active categories, the first
      one selected. */
  function LoadCategories(s: DishScreen, cats: CategoryDao.CategoryTable, reply: Reply): (r: DishScreen)
    ensures r.categories == CategoryDao.ReadAll(cats, reply)
    ensures r.form.category.None? <==> r.categories == []
    ensures ComboInItems(r)
  {
    var items := CategoryDao.ReadAll(cats, reply);
    s.(categories := items, form := s.form.(category := if items != [] then Some(items[0]) else None))
  }

  /** `refreshData`: reload the categories and the full dish list, clear the
      form and the search box. */
  function Refresh(s: DishScreen, t: DishDao.DishTable, cats: CategoryDao.CategoryTable, reply: Reply): (r: DishScreen)
    ensures r.rows == DishDao.ReadAll(t, cats, reply)
    ensures r.categories == CategoryDao.ReadAll(cats, reply)
    ensures r.search == "" && r.selected.None? && Coherent(r) && ComboInItems(r)
    ensures ClearForm(r) == r
    ensures r.form.category == if r.categories != [] then Some(r.categories[0]) else None
  {
    ClearForm(LoadCategories(s, cats, reply).(rows := DishDao.ReadAll(t, cats, reply))).(search := "")
  }

  /** `searchDishes`: the trimmed term; blank lists every dish, otherwise the
      name search. The form is cleared. */
  function SearchDishes(s: DishScreen, t: DishDao.DishTable, cats: CategoryDao.CategoryTable, reply: Reply): (r: DishScreen)
    ensures r.rows == if IsBlank(s.search) then DishDao.ReadAll(t, cats, reply)
                      else DishDao.SearchByName(t, cats, Trim(s.search), reply)
    ensures ClearForm(r) == r && r.categories == s.categories
    ensures r.selected.None? && Coherent(r) && r.search == s.search
    ensures ComboInItems(s) ==> ComboInItems(r)
  {
    var term := Trim(s.search);
    var found := if term == [] then DishDao.ReadAll(t, cats, reply) else DishDao.SearchByName(t, cats, term, reply);
    ClearForm(s.(rows := found))
  }

  /** Blanks around the search term make no difference. */
  lemma SearchIgnoresSurroundingBlanks(s: DishScreen, t: DishDao.DishTable, cats: CategoryDao.CategoryTable, reply: Reply)
    ensures SearchDishes(s.(search := Trim(s.search)), t, cats, reply).rows == SearchDishes(s, t, cats, reply).rows
  {
    TrimIdempotent(s.search);
  }

  /** A blank term lists what `readAll` lists; a wildcard-free term lists
      exactly the available dishes whose name contains the trimmed term. */
  lemma SearchShows(s: DishScreen, t: DishDao.DishTable, cats: CategoryDao.CategoryTable)
    requires Valid(t) && IsLiteral(Trim(s.search))
    ensures IsBlank(s.search) ==> SearchDishes(s, t, cats, Completed).rows == DishDao.ReadAll(t, cats, Completed)
    ensures !IsBlank(s.search) ==> forall d :: d in SearchDishes(s, t, cats, Completed).rows <==>
      && d.dishId in t.rows && t.rows[d.dishId].available && DishDao.Joins(cats, t.rows[d.dishId])
      && Contains(t.rows[d.dishId].name, Trim(s.search)) && d == DishDao.FlagView(cats)(d.dishId, t.rows[d.dishId])
  {
    DishDao.SearchIsContains(t, cats, Trim(s.search));
  }

  /** The first combo item whose key is `id`. */
  function FindCategory(items: seq<Category>, id: int): (r: Option<nat>)
    ensures r.Some? ==> r.value < |items| && items[r.value].categoryId == id
    ensures r.Some? ==> forall j :: 0 <= j < r.value ==> items[j].categoryId != id
    ensures r.None? ==> forall j :: 0 <= j < |items| ==> items[j].categoryId != id
  {
    if items == [] then None
    else if items[0].categoryId == id then Some(0)
    else match FindCategory(items[1..], id)
      case None => None
      case Some(i) => Some(i + 1)
  }

  /** `loadDishFromTable(row)`: reads the listed dish again by key. If the
      read finds it, the form shows it, its category is selected when listed,
      and update/delete replace add; if not, only the selection is dropped. */
  function LoadDish(s: DishScreen, row: nat, t: DishDao.DishTable, cats: CategoryDao.CategoryTable,
                    reply: Reply, n: Numbers): (r: DishScreen)
    requires row < |s.rows|
    ensures r.selected == DishDao.ReadById(t, cats, s.rows[row].dishId, reply)
    ensures r.selected.None? ==> r == s.(selected := None)
    ensures r.selected.Some? ==> Coherent(r) && !r.form.vegetarian && !r.form.spicy
    ensures r.selected.Some? ==>
      && r.form.name == r.selected.value.name && r.form.description == r.selected.value.description
      && r.form.price == n.showDecimal(r.selected.value.price)
      && r.form.prepTime == n.showInt(r.selected.value.preparationTime)
      && r.form.available == r.selected.value.isAvailable
    ensures r.selected.Some? ==>
      r.form.category == match FindCategory(s.categories, r.selected.value.categoryId)
                         case Some(i) => Some(s.categories[i])
                         case None => s.form.category
    ensures r.categories == s.categories && r.rows == s.rows && r.search == s.search
    ensures ComboInItems(s) ==> ComboInItems(r)
  {
    match DishDao.ReadById(t, cats, s.rows[row].dishId, reply)
    case None => s.(selected := None)
    case Some(d) =>
      var category := match FindCategory(s.categories, d.categoryId)
        case Some(i) => Some(s.categories[i])
        case None => s.form.category;
      var form := DishForm(d.name, d.description, n.showDecimal(d.price), n.showInt(d.preparationTime),
                           category, d.isAvailable, d.isVegetarian, d.isSpicy);
      s.(form := form, selected := Some(d), buttons := ForSelected)
  }

  datatype DishStep = DishStep(screen: DishScreen, table: DishDao.DishTable)

  /** `addDish`: on a valid form, create the dish; on success refresh and clear. */
  function AddDish(s: DishScreen, t: DishDao.DishTable, cats: CategoryDao.CategoryTable, now: Timestamp,
                   o: Outcomes, n: Numbers): (r: DishStep)
    ensures !Validates(s.form, n) || o.write.Raised? ==> r == DishStep(s, t)
    ensures Validates(s.form, n) && o.write.Completed? ==>
      && r.table == DishDao.Create(t, NewDishFrom(s.form, n), now, Completed).table
      && r.screen == Refresh(s, r.table, cats, o.refresh)
  {
    if !Validates(s.form, n) then DishStep(s, t)
    else
      var c := DishDao.Create(t, NewDishFrom(s.form, n), now, o.write);
      if c.ok then DishStep(ClearForm(Refresh(s, c.table, cats, o.refresh)), c.table)
      else DishStep(s, t)
  }

  /** Adding a dish keeps none of its three check boxes: whatever they said,
      the new dish reads back available and neither vegetarian nor spicy,
      with the trimmed name, and (when its category exists) is listed once
      in the refreshed list. */
  lemma AddIgnoresCheckBoxes(s: DishScreen, t: DishDao.DishTable, cats: CategoryDao.CategoryTable, now: Timestamp, n: Numbers)
    requires Valid(t) && Validates(s.form, n) && s.form.category.value.categoryId in cats.rows
    ensures var r := AddDish(s, t, cats, now, Outcomes(Completed, Completed), n);
      && DishDao.ReadById(r.table, cats, t.nextId, Completed).Some?
      && var x := DishDao.ReadById(r.table, cats, t.nextId, Completed).value;
      && x.name == Trim(s.form.name)
      && x.isAvailable && !x.isVegetarian && !x.isSpicy
      && multiset(r.screen.rows)[x] == 1
  {
    DishDao.CreateThenRead(t, cats, NewDishFrom(s.form, n), now);
  }

  /** `updateDish`: needs a selection and a valid form. The selected record is
      rewritten in place before the update runs, so a failed update still
      leaves the edited record selected. */
  function UpdateDish(s: DishScreen, t: DishDao.DishTable, cats: CategoryDao.CategoryTable,
                      o: Outcomes, n: Numbers): (r: DishStep)
    ensures s.selected.None? || !Validates(s.form, n) ==> r == DishStep(s, t)
    ensures s.selected.Some? && Validates(s.form, n) ==>
      var u := DishDao.Update(t, UpdatedDishFrom(s.selected.value, s.form, n), o.write);
      && r.table == u.table
      && (u.ok ==> r.screen == Refresh(s, u.table, cats, o.refresh))
      && (!u.ok ==> r.screen == s.(selected := Some(UpdatedDishFrom(s.selected.value, s.form, n))))
  {
    if s.selected.None? || !Validates(s.form, n) then DishStep(s, t)
    else
      var d := UpdatedDishFrom(s.selected.value, s.form, n);
      var u := DishDao.Update(t, d, o.write);
      if u.ok then DishStep(ClearForm(Refresh(s, u.table, cats, o.refresh)), u.table)
      else DishStep(s.(selected := Some(d)), t)
  }

  /** After an update from the panel, the dish reads back with the trimmed
      form text and the available box, but never vegetarian or spicy: those
      two boxes are not written by the update. */
  lemma UpdateDropsDietBoxes(s: DishScreen, t: DishDao.DishTable, cats: CategoryDao.CategoryTable, n: Numbers)
    requires s.selected.Some? && Validates(s.form, n)
    requires s.selected.value.dishId in t.rows && s.form.category.value.categoryId in cats.rows
    ensures var r := UpdateDish(s, t, cats, Outcomes(Completed, Completed), n);
      && DishDao.ReadById(r.table, cats, s.selected.value.dishId, Completed).Some?
      && var x := DishDao.ReadById(r.table, cats, s.selected.value.dishId, Completed).value;
      && x.name == Trim(s.form.name) && x.description == Trim(s.form.description)
      && x.isAvailable == s.form.available && !x.isVegetarian && !x.isSpicy
  {
  }

  /** `deleteDish`: needs a selection and the operator's confirmation. */
  function DeleteDish(s: DishScreen, t: DishDao.DishTable, cats: CategoryDao.CategoryTable,
                      confirmed: bool, o: Outcomes): (r: DishStep)
    ensures s.selected.None? || !confirmed || !DishDao.Delete(t, s.selected.value.dishId, o.write).ok ==> r == DishStep(s, t)
    ensures s.selected.Some? && confirmed ==>
      var del := DishDao.Delete(t, s.selected.value.dishId, o.write);
      del.ok ==> r == DishStep(Refresh(s, del.table, cats, o.refresh), del.table)
    ensures r.table.rows.Keys == t.rows.Keys
  {
    if s.selected.None? || !confirmed then DishStep(s, t)
    else
      var del := DishDao.Delete(t, s.selected.value.dishId, o.write);
      if del.ok then DishStep(ClearForm(Refresh(s, del.table, cats, o.refresh)), del.table)
      else DishStep(s, t)
  }

  /** After deleting a dish from the panel the refreshed list is the same
      list as before: the dish just marked unavailable is still listed. */
  lemma DeletedDishStillListed(s: DishScreen, t: DishDao.DishTable, cats: CategoryDao.CategoryTable)
    requires s.selected.Some? && s.selected.value.dishId in t.rows
    ensures var r := DeleteDish(s, t, cats, true, Outcomes(Completed, Completed));
      && r.table.rows[s.selected.value.dishId] == t.rows[s.selected.value.dishId].(available := false)
      && r.screen.rows == DishDao.ReadAll(t, cats, Completed)
  {
    var id := s.selected.value.dishId;
    var del := DishDao.Delete(t, id, Completed);
    DishDao.DeleteKeepsReadAll(t, cats, id);
    assert DeleteDish(s, t, cats, true, Outcomes(Completed, Completed)).screen
        == ClearForm(Refresh(s, del.table, cats, Completed));
  }

  /** A failed re-read of a selected dish drops the selection but leaves
      update and delete enabled; pressing either then does nothing. */
  lemma StaleButtonsAreHarmless(s: DishScreen, row: nat, t: DishDao.DishTable, cats: CategoryDao.CategoryTable,
                                n: Numbers, o: Outcomes, confirmed: bool)
    requires row < |s.rows| && Coherent(s) && s.selected.Some?
    ensures var r := LoadDish(s, row, t, cats, Raised, n);
      && !Coherent(r) && r.buttons.update && r.buttons.delete && r.selected.None?
      && UpdateDish(r, t, cats, o, n) == DishStep(r, t)
      && DeleteDish(r, t, cats, confirmed, o) == DishStep(r, t)
  {
  }

  /** The category dialog's `addCategory`: a blank name does nothing;
      otherwise a category with the trimmed name and description is created. */
  function AddCategory(cats: CategoryDao.CategoryTable, nameText: string, descText: string,
                       now: Timestamp, reply: Reply): (r: Created<Category, CategoryDao.CategoryRow>)
    ensures IsBlank(nameText) ==> !r.ok && r.table == cats
    ensures r.ok <==> !IsBlank(nameText) && reply.Completed?
    ensures r.ok ==> r.record.name == Trim(nameText) && r.record.description == Trim(descText) && r.record.isActive
  {
    if IsBlank(nameText) then Created(false, NewCategory(nameText, descText), cats)
    else CategoryDao.Create(cats, NewCategory(Trim(nameText), Trim(descText)), now, reply)
  }

  /** A category added from the dialog is listed once among the active
      categories, under its trimmed name. */
  lemma AddedCategoryListedOnce(cats: CategoryDao.CategoryTable, nameText: string, descText: string, now: Timestamp)
    requires Valid(cats) && !IsBlank(nameText)
    ensures var r := AddCategory(cats, nameText, descText, now, Completed);
      multiset(CategoryDao.ReadAll(r.table, Completed))[Category(cats.nextId, Trim(nameText), Trim(descText), true, Some(now))] == 1
  {
    CategoryDao.CreateThenRead(cats, NewCategory(Trim(nameText), Trim(descText)), now);
  }
}
