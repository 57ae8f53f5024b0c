/** The three entity records as immutable values. Each Java setter becomes one
    constructor of a "set" command, applied by `Apply`; each constructor of the
    Java class becomes a function. Java's `null` is `None`; ids left unset by a
    constructor are Java's default `0`. */
module Records {
  import opened Common
  import opened Decimals

  // ---------------------------------------------------------------- Dish

  /** A menu dish. `categoryName` is filled only by reads that join Category;
      it is never written to the store. */
  datatype Dish = Dish(
    dishId: int,
    categoryId: int,
    name: string,
    description: string,
    price: Decimal,
    preparationTime: int,
    isAvailable: bool,
    isVegetarian: bool,
    isSpicy: bool,
    createdAt: Option<Timestamp>,
    categoryName: Option<string>)

  /** The basic constructor: available, no id yet, no timestamp, no category name. */
  function NewDish(categoryId: int, name: string, description: string, price: Decimal,
                   preparationTime: int, isVegetarian: bool, isSpicy: bool): (d: Dish)
    ensures d.isAvailable
    ensures d.dishId == 0 && d.createdAt == None && d.categoryName == None
    ensures d.categoryId == categoryId && d.name == name && d.description == description
    ensures d.price == price && d.preparationTime == preparationTime
    ensures d.isVegetarian == isVegetarian && d.isSpicy == isSpicy
  {
    Dish(0, categoryId, name, description, price, preparationTime, true, isVegetarian, isSpicy, None, None)
  }

  /** The complete constructor: copies every argument; the category name stays unset. */
  function FullDish(dishId: int, categoryId: int, name: string, description: string, price: Decimal,
                    preparationTime: int, isAvailable: bool, isVegetarian: bool, isSpicy: bool,
                    createdAt: Option<Timestamp>): (d: Dish)
    ensures d.categoryName == None
    ensures d.dishId == dishId && d.categoryId == categoryId && d.name == name
    ensures d.description == description && d.price == price && d.preparationTime == preparationTime
    ensures d.isAvailable == isAvailable && d.isVegetarian == isVegetarian && d.isSpicy == isSpicy
    ensures d.createdAt == createdAt
  {
    Dish(dishId, categoryId, name, description, price, preparationTime, isAvailable, isVegetarian, isSpicy, createdAt, None)
  }

  /** One Dish setter call. */
  datatype DishSet =
    | SetDishId(dishId: int)
    | SetCategoryId(categoryId: int)
    | SetName(name: string)
    | SetDescription(description: string)
    | SetPrice(price: Decimal)
    | SetPreparationTime(preparationTime: int)
    | SetAvailable(available: bool)
    | SetVegetarian(vegetarian: bool)
    | SetSpicy(spicy: bool)
    | SetCreatedAt(createdAt: Option<Timestamp>)
    | SetCategoryName(categoryName: Option<string>)

  /** The field `u` writes holds the value `u` carries. */
  predicate DishHolds(d: Dish, u: DishSet) {
    match u
    case SetDishId(v) => d.dishId == v
    case SetCategoryId(v) => d.categoryId == v
    case SetName(v) => d.name == v
    case SetDescription(v) => d.description == v
    case SetPrice(v) => d.price == v
    case SetPreparationTime(v) => d.preparationTime == v
    case SetAvailable(v) => d.isAvailable == v
    case SetVegetarian(v) => d.isVegetarian == v
    case SetSpicy(v) => d.isSpicy == v
    case SetCreatedAt(v) => d.createdAt == v
    case SetCategoryName(v) => d.categoryName == v
  }

  /** `a` and `b` agree on every field that `u` does not write. */
  predicate DishAgreeExcept(a: Dish, b: Dish, u: DishSet) {
    && (u.SetDishId? || a.dishId == b.dishId)
    && (u.SetCategoryId? || a.categoryId == b.categoryId)
    && (u.SetName? || a.name == b.name)
    && (u.SetDescription? || a.description == b.description)
    && (u.SetPrice? || a.price == b.price)
    && (u.SetPreparationTime? || a.preparationTime == b.preparationTime)
    && (u.SetAvailable? || a.isAvailable == b.isAvailable)
    && (u.SetVegetarian? || a.isVegetarian == b.isVegetarian)
    && (u.SetSpicy? || a.isSpicy == b.isSpicy)
    && (u.SetCreatedAt? || a.createdAt == b.createdAt)
    && (u.SetCategoryName? || a.categoryName == b.categoryName)
  }

  /** Calls one setter: it writes its own field and no other. */
  function ApplyDish(d: Dish, u: DishSet): (r: Dish)
    ensures DishHolds(r, u)
    ensures DishAgreeExcept(d, r, u)
  {
    match u
    case SetDishId(v) => d.(dishId := v)
    case SetCategoryId(v) => d.(categoryId := v)
    case SetName(v) => d.(name := v)
    case SetDescription(v) => d.(description := v)
    case SetPrice(v) => d.(price := v)
    case SetPreparationTime(v) => d.(preparationTime := v)
    case SetAvailable(v) => d.(isAvailable := v)
    case SetVegetarian(v) => d.(isVegetarian := v)
    case SetSpicy(v) => d.(isSpicy := v)
    case SetCreatedAt(v) => d.(createdAt := v)
    case SetCategoryName(v) => d.(categoryName := v)
  }

  // ---------------------------------------------------------------- Customer

  /** A customer. `deliveryAddress` is not a column of the store. */
  datatype Customer = Customer(
    customerId: int,
    fullName: string,
    email: string,
    phone: string,
    deliveryAddress: Option<string>,
    registrationDate: Option<Timestamp>,
    isActive: bool)

  /** The four-argument constructor: active, no id yet, no registration date. */
  function NewCustomer(fullName: string, email: string, phone: string, deliveryAddress: string): (c: Customer)
    ensures c.isActive && c.customerId == 0 && c.registrationDate == None
    ensures c.fullName == fullName && c.email == email && c.phone == phone
    ensures c.deliveryAddress == Some(deliveryAddress)
  {
    Customer(0, fullName, email, phone, Some(deliveryAddress), None, true)
  }

  /** The complete constructor: copies every argument. */
  function FullCustomer(customerId: int, fullName: string, email: string, phone: string,
                        deliveryAddress: Option<string>, registrationDate: Option<Timestamp>,
                        isActive: bool): (c: Customer)
    ensures c.customerId == customerId && c.fullName == fullName && c.email == email
    ensures c.phone == phone && c.deliveryAddress == deliveryAddress
    ensures c.registrationDate == registrationDate && c.isActive == isActive
  {
    Customer(customerId, fullName, email, phone, deliveryAddress, registrationDate, isActive)
  }

  /** One Customer setter call. */
  datatype CustomerSet =
    | SetCustomerId(customerId: int)
    | SetFullName(fullName: string)
    | SetEmail(email: string)
    | SetPhone(phone: string)
    | SetDeliveryAddress(deliveryAddress: Option<string>)
    | SetRegistrationDate(registrationDate: Option<Timestamp>)
    | SetCustomerActive(active: bool)

  predicate CustomerHolds(c: Customer, u: CustomerSet) {
    match u
    case SetCustomerId(v) => c.customerId == v
    case SetFullName(v) => c.fullName == v
    case SetEmail(v) => c.email == v
    case SetPhone(v) => c.phone == v
    case SetDeliveryAddress(v) => c.deliveryAddress == v
    case SetRegistrationDate(v) => c.registrationDate == v
    case SetCustomerActive(v) => c.isActive == v
  }

  predicate CustomerAgreeExcept(a: Customer, b: Customer, u: CustomerSet) {
    && (u.SetCustomerId? || a.customerId == b.customerId)
    && (u.SetFullName? || a.fullName == b.fullName)
    && (u.SetEmail? || a.email == b.email)
    && (u.SetPhone? || a.phone == b.phone)
    && (u.SetDeliveryAddress? || a.deliveryAddress == b.deliveryAddress)
    && (u.SetRegistrationDate? || a.registrationDate == b.registrationDate)
    && (u.SetCustomerActive? || a.isActive == b.isActive)
  }

  /** Calls one setter: it writes its own field and no other. */
  function ApplyCustomer(c: Customer, u: CustomerSet): (r: Customer)
    ensures CustomerHolds(r, u)
    ensures CustomerAgreeExcept(c, r, u)
  {
    match u
    case SetCustomerId(v) => c.(customerId := v)
    case SetFullName(v) => c.(fullName := v)
    case SetEmail(v) => c.(email := v)
    case SetPhone(v) => c.(phone := v)
    case SetDeliveryAddress(v) => c.(deliveryAddress := v)
    case SetRegistrationDate(v) => c.(registrationDate := v)
    case SetCustomerActive(v) => c.(isActive := v)
  }

  // ---------------------------------------------------------------- Category

  /** A dish category. */
  datatype Category = Category(
    categoryId: int,
    name: string,
    description: string,
    isActive: bool,
    createdAt: Option<Timestamp>)

  /** The two-argument constructor: active, no id yet, no timestamp. */
  function NewCategory(name: string, description: string): (c: Category)
    ensures c.isActive && c.categoryId == 0 && c.createdAt == None
    ensures c.name == name && c.description == description
  {
    Category(0, name, description, true, None)
  }

  /** The complete constructor: copies every argument. */
  function FullCategory(categoryId: int, name: string, description: string, isActive: bool,
                        createdAt: Option<Timestamp>): (c: Category)
    ensures c.categoryId == categoryId && c.name == name && c.description == description
    ensures c.isActive == isActive && c.createdAt == createdAt
  {
    Category(categoryId, name, description, isActive, createdAt)
  }

  /** One Category setter call. */
  datatype CategorySet =
    | SetCategoryKey(categoryId: int)
    | SetCategoryTitle(name: string)
    | SetCategoryDescription(description: string)
    | SetCategoryActive(active: bool)
    | SetCategoryCreatedAt(createdAt: Option<Timestamp>)

  predicate CategoryHolds(c: Category, u: CategorySet) {
    match u
    case SetCategoryKey(v) => c.categoryId == v
    case SetCategoryTitle(v) => c.name == v
    case SetCategoryDescription(v) => c.description == v
    case SetCategoryActive(v) => c.isActive == v
    case SetCategoryCreatedAt(v) => c.createdAt == v
  }

  predicate CategoryAgreeExcept(a: Category, b: Category, u: CategorySet) {
    && (u.SetCategoryKey? || a.categoryId == b.categoryId)
    && (u.SetCategoryTitle? || a.name == b.name)
    && (u.SetCategoryDescription? || a.description == b.description)
    && (u.SetCategoryActive? || a.isActive == b.isActive)
    && (u.SetCategoryCreatedAt? || a.createdAt == b.createdAt)
  }

  /** Calls one setter: it writes its own field and no other. */
  function ApplyCategory(c: Category, u: CategorySet): (r: Category)
    ensures CategoryHolds(r, u)
    ensures CategoryAgreeExcept(c, r, u)
  {
    match u
    case SetCategoryKey(v) => c.(categoryId := v)
    case SetCategoryTitle(v) => c.(name := v)
    case SetCategoryDescription(v) => c.(description := v)
    case SetCategoryActive(v) => c.(isActive := v)
    case SetCategoryCreatedAt(v) => c.(createdAt := v)
  }

  /** `Category.toString`: what the category combo box shows. */
  function CategoryLabel(c: Category): (r: string)
    ensures r == c.name
  {
    c.name
  }

  /** Two categories that differ only in id, description, flag or timestamp
      are shown identically: the label carries the name alone. */
  lemma LabelIsNameOnly(a: Category, b: Category)
    ensures CategoryLabel(a) == CategoryLabel(b) <==> a.name == b.name
  {
  }
}
