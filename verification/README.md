# Dark Kitchen back office, modelled in Dafny

The Dark Kitchen back office is a desktop tool. It manages the customers, dishes and dish categories of a delivery-only kitchen in a MySQL database. This project models its core:

- the three repositories (`CategoryDAO`, `CustomerDAO`, `DishDAO`), as transitions of in-memory tables;
- the three records (`Category`, `Customer`, `Dish`);
- the connection holder (`DatabaseConnection`): its JDBC URL, its information line, and the life cycle of its one shared handle;
- the dish and customer screens (`DishPanel`, `CustomerPanel`): form validation, the search dispatch, the add/update/delete handlers and the enabled state of their buttons.

Every operation is a pure function, and every property is proved by the Dafny verifier.

Module layout, one module per file:

| module | models |
|---|---|
| `Common` | `Option`, the store's `Reply` (`Completed`, or `Raised` for an `SQLException`), timestamps, the button states, the outcomes of one handler's store calls |
| `Text` | `String.trim`, blank tests, substring containment, SQL `LIKE`, string ordering |
| `Ordering` | total preorders, sortedness, the stable sort behind `ORDER BY` |
| `Decimals` | `BigDecimal` values and `compareTo(ZERO)` |
| `Tables` | a table as `map<int, Row>` plus the next generated key: insert, update-by-key, delete-by-key, and the query pipeline scan → filter/project → sort |
| `Records` | `Category`, `Customer`, `Dish`, their constructors and setters |
| `CategoryDao`, `CustomerDao`, `DishDao` | the repositories; the Dish reads join the Category table |
| `Connection` | `DatabaseConnection` |
| `DishPanel`, `CustomerPanel` | the two screens, without widgets |

How the store is modelled:

- Each repository call takes a `Reply` parameter. `Raised` stands for an `SQLException`; the repository swallows it and returns `false`, an empty list or `None`.
- Reads enumerate the keys in ascending order, filter by the `WHERE` clause, build the records, and sort stably by the `ORDER BY` keys. Properties about lists are stated in a way that does not depend on how ties are ordered: membership, multiplicity and sortedness.
- The table definitions are not part of this model. The column defaults are assumed: `active` and `available` default to true, `vegetarian` and `spicy` to false, and creation times are the `now` parameter of the insert.
- The connection's driver is an oracle: each attempt to open a handle `Accepts` or `Refuses`.

Behaviour of the code that the model keeps, and that readers may not expect:

- **Dish soft delete.** `DishDAO.delete` clears `available`. But `readAll` and `readByCategory` filter on the separate `active` column, and `readById` has no flag filter and shows `active` as available. So a deleted dish stays in the dish list and still reads back by key as available (`DishDao.DeleteKeepsReadAll`, `DishDao.DeleteKeepsReadById`, `DishPanel.DeletedDishStillListed`). Only the name search stops finding it (`DishDao.DeleteHidesFromSearch`).
- **Dish flags.** `create` stores none of the record's three flags. `readAll` and `readById` show `active` as available and never read `vegetarian` or `spicy`. `update` writes the available flag into `active` and leaves `vegetarian` and `spicy` alone. As a result, a dish created or edited on the dish screen always reads back as neither vegetarian nor spicy.
- **Customer address.** The Customer table has no address column, so every customer read back has no address. Loading a customer into the form leaves the address field empty. The form then fails validation, and the customer cannot be updated until an address is typed again (`CustomerPanel.UpdateAfterLoadRefused`). The typed address is still not stored.
- **Shared handle.** The repository methods open the shared handle in try-with-resources, so every repository call closes it. The next call then opens a new handle. The shared handle is therefore not reused across repository calls, even though the holder is written to reuse it (`Connection.NextHandleIsFresh`).
- **Failed update.** The screens rewrite the selected record in place before calling `update`. A failed update therefore leaves the edited record selected.
- **Stale selection.** When the re-read after a click on a table row fails, the selection is dropped but the update and delete buttons stay enabled. Pressing them then does nothing (`StaleButtonsAreHarmless` in both screens).
- **Category join.** The Dish reads join Category without looking at the category's active flag. So soft-deleting a category hides none of its dishes (`DishDao.CategoryDeleteKeepsDishes`).

## Model

| member | source | states |
|---|---|---|
| Text.Trim | src/com/darkkitchen/ui/DishPanel.java:383-389 | the trimmed text is a slice of the input: everything cut off before and after it is a control character or space, and it neither starts nor ends with one |
| Text.BlankIff | src/com/darkkitchen/ui/DishPanel.java:383 | `trim().isEmpty()` holds exactly when every character is a control character or space |
| Text.TrimIdempotent | src/com/darkkitchen/ui/DishPanel.java:340 | trimming a trimmed text changes nothing |
| Text.TrimKeeps | src/com/darkkitchen/ui/CustomerPanel.java:315-319 | a character that is not trimmable is in the trimmed text exactly when it is in the original text |
| Text.LikeContains | src/com/darkkitchen/dao/CustomerDAO.java:176 | for a term without wildcards, `LIKE '%term%'` matches exactly the texts that contain the term |
| Text.LikeAnything | src/com/darkkitchen/dao/DishDAO.java:238 | the pattern `%` matches every text |
| Text.UnderscoreIsWildcard | src/com/darkkitchen/dao/CustomerDAO.java:176 | an `_` in a search term is a wildcard: the term `_` finds the name "ab", which contains no `_` |
| Text.UnderscoreAny | src/com/darkkitchen/dao/CustomerDAO.java:176 | the pattern `%_%` built from the term `_` matches a text exactly when it is non-empty |
| Text.StrLeTotal | src/com/darkkitchen/dao/CategoryDAO.java:47 | the string order used by `ORDER BY` compares any two strings |
| Text.StrLeTransitive | src/com/darkkitchen/dao/CategoryDAO.java:47 | the string order is transitive |
| Ordering.SortBy | src/com/darkkitchen/dao/DishDAO.java:56 | the sort behind `ORDER BY` returns a permutation of its input |
| Ordering.SortBySorted | src/com/darkkitchen/dao/DishDAO.java:56 | for a total preorder, the sorted list is in that order |
| Decimals.CompareToZeroIsExact | src/com/darkkitchen/ui/DishPanel.java:392-393 | `compareTo(BigDecimal.ZERO) > 0` holds exactly when the exact decimal value is above zero, at every scale |
| Records.NewDish | src/com/darkkitchen/model/Dish.java:28-38 | the basic constructor takes the given fields, is available, and has no key, timestamp or category name |
| Records.FullDish | src/com/darkkitchen/model/Dish.java:41-54 | the complete constructor keeps every argument and leaves the category name unset |
| Records.ApplyDish | src/com/darkkitchen/model/Dish.java:61-143 | each setter writes its own field and leaves every other field unchanged |
| Records.NewCustomer | src/com/darkkitchen/model/Customer.java:20-26 | the four-argument constructor takes the given texts and address, is active, and has no key or registration date |
| Records.FullCustomer | src/com/darkkitchen/model/Customer.java:29-38 | the complete constructor keeps every argument |
| Records.ApplyCustomer | src/com/darkkitchen/model/Customer.java:45-95 | each setter writes its own field and leaves every other field unchanged |
| Records.NewCategory | src/com/darkkitchen/model/Category.java:18-22 | the two-argument constructor takes name and description, is active, and has no key or timestamp |
| Records.FullCategory | src/com/darkkitchen/model/Category.java:25-32 | the complete constructor keeps every argument |
| Records.ApplyCategory | src/com/darkkitchen/model/Category.java:39-73 | each setter writes its own field and leaves every other field unchanged |
| Records.LabelIsNameOnly | src/com/darkkitchen/model/Category.java:76-78 | two categories show the same combo-box label exactly when their names are equal |
| CategoryDao.Create | src/com/darkkitchen/dao/CategoryDAO.java:16-40 | true exactly when the statement completes; the new row gets the next key, and the existing rows are untouched; on failure nothing changes |
| CategoryDao.ReadById | src/com/darkkitchen/dao/CategoryDAO.java:73-96 | a category is found exactly when the statement completes and the key exists, active or not |
| CategoryDao.Update | src/com/darkkitchen/dao/CategoryDAO.java:101-123 | true exactly when the statement completes and the key exists; the key set is unchanged; on failure nothing changes |
| CategoryDao.Delete | src/com/darkkitchen/dao/CategoryDAO.java:128-146 | true exactly when the statement completes and the key exists; only that row's active flag is cleared, and every other row is unchanged |
| CategoryDao.ReadAllIsActiveRows | src/com/darkkitchen/dao/CategoryDAO.java:45-68 | `readAll` lists exactly the active rows, each as stored, sorted by name |
| CategoryDao.CreateThenRead | src/com/darkkitchen/dao/CategoryDAO.java:16-40 | a created category reads back by its new key with the submitted fields, active and stamped with the creation time, and `readAll` lists it exactly once |
| CategoryDao.UpdateThenRead | src/com/darkkitchen/dao/CategoryDAO.java:101-123 | an updated category reads back as submitted, keeping its creation time; other rows read back as before |
| CategoryDao.DeleteHidesFromReadAll | src/com/darkkitchen/dao/CategoryDAO.java:128-146 | after a delete `readAll` lists exactly the previously listed categories other than this one, and `readById` still finds it, now inactive |
| CustomerDao.Create | src/com/darkkitchen/dao/CustomerDAO.java:18-44 | true exactly when the statement completes; the new row gets the next key, and the existing rows are untouched; on failure nothing changes |
| CustomerDao.ReadById | src/com/darkkitchen/dao/CustomerDAO.java:82-107 | a customer is found exactly when the statement completes and the key exists; it never has a delivery address |
| CustomerDao.Update | src/com/darkkitchen/dao/CustomerDAO.java:114-137 | true exactly when the statement completes and the key exists; the key set is unchanged; on failure nothing changes |
| CustomerDao.Delete | src/com/darkkitchen/dao/CustomerDAO.java:144-162 | true exactly when the statement completes and the key exists |
| CustomerDao.ReadAllIsEveryRow | src/com/darkkitchen/dao/CustomerDAO.java:50-75 | `readAll` lists every row exactly once, as stored, sorted by full name |
| CustomerDao.CreateThenRead | src/com/darkkitchen/dao/CustomerDAO.java:18-44 | a created customer reads back by its new key: active, registered at the creation time, and without an address whatever was submitted |
| CustomerDao.UpdateThenRead | src/com/darkkitchen/dao/CustomerDAO.java:114-137 | an updated customer reads back as submitted, except that it has no address and keeps its registration date; other rows read back as before |
| CustomerDao.DeleteRemoves | src/com/darkkitchen/dao/CustomerDAO.java:144-162 | a deleted customer no longer reads back, and `readAll` lists exactly the other customers |
| CustomerDao.SearchIsContains | src/com/darkkitchen/dao/CustomerDAO.java:169-196 | for a term without wildcards, the search lists exactly the listed customers whose full name contains the term, sorted by full name |
| CustomerDao.EmptySearchIsReadAll | src/com/darkkitchen/dao/CustomerDAO.java:169-196 | searching for the empty term returns the same list as `readAll` |
| DishDao.Create | src/com/darkkitchen/dao/DishDAO.java:16-44 | true exactly when the statement completes; the new row gets the next key, is active and available, and is neither vegetarian nor spicy whatever the record says; existing rows are untouched |
| DishDao.ReadById | src/com/darkkitchen/dao/DishDAO.java:89-124 | a dish is found exactly when the statement completes, the key exists and its category exists, whatever its flags; it carries the stored category, name, description, price, time and creation time, shows the `active` column as available, and is never vegetarian or spicy |
| DishDao.Update | src/com/darkkitchen/dao/DishDAO.java:171-197 | true exactly when the statement completes and the key exists; the row takes the record's category, name, description, price and time, and its available flag goes into `active`; `available`, `vegetarian`, `spicy` and the creation time are kept; other rows are unchanged; on failure nothing changes |
| DishDao.Delete | src/com/darkkitchen/dao/DishDAO.java:202-220 | true exactly when the statement completes and the key exists; only that row's `available` flag is cleared |
| DishDao.ReadAllIsActiveJoinedRows | src/com/darkkitchen/dao/DishDAO.java:49-84 | `readAll` lists exactly the active dishes whose category exists, each with its category's name, sorted by category name and then dish name |
| DishDao.DeleteKeepsReadAll | src/com/darkkitchen/dao/DishDAO.java:202-220 | `readAll` returns the same list before and after a delete |
| DishDao.DeleteKeepsReadById | src/com/darkkitchen/dao/DishDAO.java:89-124 | every dish, the deleted one included, reads back by key exactly as before a delete |
| DishDao.DeleteHidesFromSearch | src/com/darkkitchen/dao/DishDAO.java:225-262 | after a delete no name search finds the dish |
| DishDao.ReadByCategoryIsActiveRows | src/com/darkkitchen/dao/DishDAO.java:129-166 | `readByCategory` lists exactly the active dishes of that category whose category exists, each with its stored flag columns, sorted by dish name |
| DishDao.DeletedStillListedByCategory | src/com/darkkitchen/dao/DishDAO.java:129-166 | after a delete the dish is still listed under its category, shown as unavailable |
| DishDao.CategoryDeleteKeepsDishes | src/com/darkkitchen/dao/DishDAO.java:49-84 | soft-deleting a category leaves the dish list unchanged |
| DishDao.CreateThenRead | src/com/darkkitchen/dao/DishDAO.java:16-44 | a created dish reads back by its new key as submitted, but available and neither vegetarian nor spicy, and `readAll` lists it exactly once |
| DishDao.CreateThenReadByCategory | src/com/darkkitchen/dao/DishDAO.java:129-166 | a created dish is listed exactly once under its category |
| DishDao.OrphanIsInvisible | src/com/darkkitchen/dao/DishDAO.java:16-44 | in a store that does not enforce the foreign key, a dish whose category does not exist is inserted, but neither `readById` nor `readAll` shows it |
| DishDao.UpdateThenRead | src/com/darkkitchen/dao/DishDAO.java:171-197 | an updated dish reads back as submitted, except that it is neither vegetarian nor spicy and keeps its creation time; other rows read back as before |
| DishDao.SearchIsContains | src/com/darkkitchen/dao/DishDAO.java:225-262 | for a term without wildcards, the search lists exactly the available dishes with an existing category whose name contains the term, sorted by name |
| Connection.DefaultSettings | src/com/darkkitchen/dao/DatabaseConnection.java:35-43 | a fresh instance connects to localhost:3306, database dark_kitchen, as root with the built-in password, and its URL reads back to those three values |
| Connection.UrlRoundTrip | src/com/darkkitchen/dao/DatabaseConnection.java:58-60 | host, port and database can be read back from the URL whenever the host has no ':' and the port no '/' |
| Connection.InfoOmitsPassword | src/com/darkkitchen/dao/DatabaseConnection.java:140-143 | the information line does not depend on the password, and starts with the host |
| Connection.GetInstance | src/com/darkkitchen/dao/DatabaseConnection.java:48-53 | the first call creates the instance with the default settings, and later calls return that same instance |
| Connection.InstanceCreatedOnce | src/com/darkkitchen/dao/DatabaseConnection.java:48-53 | asking for the instance twice gives the same instance and state as asking once |
| Connection.GetConnection | src/com/darkkitchen/dao/DatabaseConnection.java:67-85 | an open handle is returned unchanged; otherwise a new handle is opened with the instance's URL and user, or the refusal reaches the caller and the old handle is kept |
| Connection.ReusedWhileOpen | src/com/darkkitchen/dao/DatabaseConnection.java:67-85 | once a handle has been obtained, asking again returns it without asking the driver |
| Connection.CloseConnection | src/com/darkkitchen/dao/DatabaseConnection.java:90-99 | an open handle becomes closed; otherwise nothing changes; no error reaches the caller |
| Connection.CloseIdempotent | src/com/darkkitchen/dao/DatabaseConnection.java:90-99 | closing twice is the same as closing once |
| Connection.TestConnection | src/com/darkkitchen/dao/DatabaseConnection.java:105-120 | true exactly when a handle is obtained and the probe query completes; the handle is left open |
| Connection.SetConnectionParams | src/com/darkkitchen/dao/DatabaseConnection.java:125-135 | all five settings are replaced, the URL is rebuilt from them, and the handle is closed |
| Connection.ReconfiguredHandleUsesNewSettings | src/com/darkkitchen/dao/DatabaseConnection.java:125-135 | after a reconfiguration the next handle is a new one, opened with the new URL and user |
| Connection.DaoCall | src/com/darkkitchen/dao/DishDAO.java:19 | a repository call completes exactly when a handle is obtained and its statement completes, and it always leaves the handle closed |
| Connection.NextHandleIsFresh | src/com/darkkitchen/dao/CustomerDAO.java:21 | after a repository call the next request opens a handle never handed out before |
| Connection.ProbeHandleReusedOnce | src/com/darkkitchen/dao/DatabaseConnection.java:105-120 | in every state, the handle a successful probe leaves open is reused by the next repository call whatever the driver would say, and that call closes it |
| DishPanel.PriceCheck | src/com/darkkitchen/ui/DishPanel.java:391-398 | the price reports "not a number" exactly when it does not parse, and "not positive" exactly when its value is zero or below, never both |
| DishPanel.PrepTimeCheck | src/com/darkkitchen/ui/DishPanel.java:400-407 | the preparation time reports "not an integer" exactly when it does not parse, and "not positive" exactly when it is zero or below, never both |
| DishPanel.ErrorsOf | src/com/darkkitchen/ui/DishPanel.java:380-422 | each message line appears exactly when its check fails, and the form is accepted exactly when name and description are not blank, the price is a positive number, the time is a positive integer and a category is selected |
| DishPanel.ErrorsInCheckOrder | src/com/darkkitchen/ui/DishPanel.java:380-422 | the message lines come in the order the checks run, at most one per field |
| DishPanel.NewDishFrom | src/com/darkkitchen/ui/DishPanel.java:246-257 | the new dish carries the trimmed non-empty name and description, the parsed positive price and time, the selected category's key and the three check boxes |
| DishPanel.UpdatedDishFrom | src/com/darkkitchen/ui/DishPanel.java:273-282 | the edited dish keeps its key, creation time and category name, and carries every form field |
| DishPanel.ClearForm | src/com/darkkitchen/ui/DishPanel.java:318-337 | empty texts, available ticked, vegetarian and spicy cleared, first category selected, nothing selected, only add enabled |
| DishPanel.ClearIdempotent | src/com/darkkitchen/ui/DishPanel.java:318-337 | clearing a cleared form changes nothing |
| DishPanel.LoadCategories | src/com/darkkitchen/ui/DishPanel.java:208-214 | the combo box holds the active categories, and one is selected exactly when there is any |
| DishPanel.Refresh | src/com/darkkitchen/ui/DishPanel.java:353-359 | the list is `readAll` and the combo box holds the active categories; the screen is a cleared one (empty texts, available ticked, diet boxes off, the first category selected if there is one, nothing selected, add enabled), and the search box is empty |
| DishPanel.SearchDishes | src/com/darkkitchen/ui/DishPanel.java:339-351 | a blank box lists `readAll`; any other text, wildcards included, goes trimmed to the name search; the form is cleared, the selection dropped, only add enabled, and the search text kept |
| DishPanel.SearchIgnoresSurroundingBlanks | src/com/darkkitchen/ui/DishPanel.java:340 | blanks around the search term make no difference to the list |
| DishPanel.SearchShows | src/com/darkkitchen/ui/DishPanel.java:339-351 | a blank term lists what `readAll` lists; a term without wildcards lists exactly the available dishes with an existing category whose name contains the trimmed term |
| DishPanel.FindCategory | src/com/darkkitchen/ui/DishPanel.java:229-235 | finds the first combo item with the dish's category key, or reports that there is none |
| DishPanel.LoadDish | src/com/darkkitchen/ui/DishPanel.java:216-242 | the selection is the re-read dish; when found, the form shows its name, description, price and time texts and available flag, the first combo item with its category key is selected (the selection is left alone if none is listed), the diet boxes are cleared, and update and delete replace add; when not found, only the selection is dropped |
| DishPanel.AddDish | src/com/darkkitchen/ui/DishPanel.java:244-269 | an invalid form or a failed insert changes nothing; otherwise the dish is created and the screen is exactly the refreshed one: categories and list reloaded, form and search box cleared |
| DishPanel.AddIgnoresCheckBoxes | src/com/darkkitchen/ui/DishPanel.java:244-269 | a dish added from the screen reads back available and neither vegetarian nor spicy, whatever the boxes said, and is listed exactly once |
| DishPanel.UpdateDish | src/com/darkkitchen/ui/DishPanel.java:271-294 | with no selection or an invalid form nothing changes; otherwise the edited dish is written; a failed update leaves the screen as it was but with the edited record selected, and a successful one leaves exactly the refreshed, cleared screen |
| DishPanel.UpdateDropsDietBoxes | src/com/darkkitchen/ui/DishPanel.java:271-294 | after an update from the screen the dish reads back with the form's texts and available box, but neither vegetarian nor spicy |
| DishPanel.DeleteDish | src/com/darkkitchen/ui/DishPanel.java:296-316 | without a selection, without confirmation, or when the delete fails (an exception, or no row with that key) nothing changes; a successful delete leaves exactly the refreshed, cleared screen; no row is ever removed |
| DishPanel.DeletedDishStillListed | src/com/darkkitchen/ui/DishPanel.java:296-316 | after a confirmed delete the dish is marked unavailable and the refreshed list is the same as before |
| DishPanel.StaleButtonsAreHarmless | src/com/darkkitchen/ui/DishPanel.java:216-242 | a failed re-read drops the selection but leaves update and delete enabled, and pressing either does nothing |
| DishPanel.AddCategory | src/com/darkkitchen/ui/DishPanel.java:501-517 | a blank name creates nothing; otherwise a category with the trimmed name and description is created, and the creation succeeds exactly when the statement completes |
| DishPanel.AddedCategoryListedOnce | src/com/darkkitchen/ui/DishPanel.java:501-517 | a category added from the dialog is listed exactly once among the active categories, under its trimmed name |
| CustomerPanel.EmailCheck | src/com/darkkitchen/ui/CustomerPanel.java:315-319 | the email reports "required" exactly when blank, and "malformed" exactly when not blank and without '@', never both |
| CustomerPanel.ErrorsOf | src/com/darkkitchen/ui/CustomerPanel.java:308-338 | each message line appears exactly when its check fails, and the form is accepted exactly when all four checks pass |
| CustomerPanel.ErrorsInCheckOrder | src/com/darkkitchen/ui/CustomerPanel.java:308-338 | the message lines come in the order the checks run |
| CustomerPanel.ValidIff | src/com/darkkitchen/ui/CustomerPanel.java:308-338 | the form is accepted exactly when name, phone and address are not blank and the trimmed email contains '@' |
| CustomerPanel.NewCustomerFrom | src/com/darkkitchen/ui/CustomerPanel.java:192-198 | the new customer carries the four trimmed texts, non-empty and with '@' in the email, and the active box |
| CustomerPanel.UpdatedCustomerFrom | src/com/darkkitchen/ui/CustomerPanel.java:214-218 | the edited customer keeps its key and registration date and carries every form field |
| CustomerPanel.ClearForm | src/com/darkkitchen/ui/CustomerPanel.java:254-267 | empty texts, active ticked, nothing selected, only add enabled; the cleared form does not validate |
| CustomerPanel.ClearIdempotent | src/com/darkkitchen/ui/CustomerPanel.java:254-267 | clearing a cleared form changes nothing |
| CustomerPanel.Refresh | src/com/darkkitchen/ui/CustomerPanel.java:283-288 | the list is `readAll`; the screen is a cleared one (empty texts, active ticked, nothing selected, add enabled), and the search box is empty |
| CustomerPanel.SearchCustomers | src/com/darkkitchen/ui/CustomerPanel.java:269-281 | a blank box lists `readAll`; any other text, wildcards included, goes trimmed to the name search; the form is cleared, the selection dropped, only add enabled; a failed read shows an empty list |
| CustomerPanel.SearchIgnoresSurroundingBlanks | src/com/darkkitchen/ui/CustomerPanel.java:270 | blanks around the search term make no difference to the list |
| CustomerPanel.SearchShows | src/com/darkkitchen/ui/CustomerPanel.java:269-281 | a blank term lists what `readAll` lists; a term without wildcards lists exactly the customers whose full name contains the trimmed term, sorted by full name |
| CustomerPanel.LoadCustomer | src/com/darkkitchen/ui/CustomerPanel.java:173-188 | the selection is the re-read customer; when found, the form shows it with an empty address and update and delete replace add; when not found, only the selection is dropped |
| CustomerPanel.AddCustomer | src/com/darkkitchen/ui/CustomerPanel.java:190-210 | an invalid form or a failed insert changes nothing; otherwise the customer is created and the screen is exactly the refreshed one: list reloaded, form and search box cleared |
| CustomerPanel.AddedCustomerReadsBack | src/com/darkkitchen/ui/CustomerPanel.java:190-210 | a customer added from the screen reads back with the trimmed texts, active whatever the box said, without an address, and is listed exactly once |
| CustomerPanel.UpdateCustomer | src/com/darkkitchen/ui/CustomerPanel.java:212-230 | with no selection or an invalid form nothing changes; a successful update leaves exactly the refreshed, cleared screen; a failed one leaves the screen as it was but with the edited record selected |
| CustomerPanel.UpdateAfterLoadRefused | src/com/darkkitchen/ui/CustomerPanel.java:181 | a customer just loaded into the form fails with "address required", and updating it does nothing |
| CustomerPanel.UpdateDropsAddress | src/com/darkkitchen/ui/CustomerPanel.java:212-230 | after an update from the screen the customer reads back with the form's texts and active box, but still without an address |
| CustomerPanel.DeleteCustomer | src/com/darkkitchen/ui/CustomerPanel.java:232-252 | without a selection, without confirmation, or when the delete fails (an exception, or no row with that key) nothing changes; a successful delete leaves exactly the refreshed, cleared screen; no key is ever added |
| CustomerPanel.DeletedCustomerGone | src/com/darkkitchen/ui/CustomerPanel.java:232-252 | after a confirmed delete the customer no longer reads back, and the refreshed list is the old list without it |
| CustomerPanel.StaleButtonsAreHarmless | src/com/darkkitchen/ui/CustomerPanel.java:173-188 | a failed re-read drops the selection but leaves update and delete enabled, and pressing either does nothing |

## Left out

- DishDao.ReadAll, DishDao.ReadByCategory, DishDao.SearchByName, CustomerDao.ReadAll, CustomerDao.SearchByName, CategoryDao.ReadAll: their own contracts state only the error path (an empty list). What they list is stated by the lemmas beside them: `DishDao.ReadAllIsActiveJoinedRows`, `DishDao.ReadByCategoryIsActiveRows`, `DishDao.SearchIsContains`, `CustomerDao.ReadAllIsEveryRow`, `CustomerDao.SearchIsContains` and `CategoryDao.ReadAllIsActiveRows`.
- The no-argument constructors of the three records are not modelled. They leave the required text fields `null`, and the records here hold plain strings.
- `LIKE` escapes (`\%`, `\_`) are not modelled; `%` and `_` are the only special characters.
- `ORDER BY` and `LIKE` are both modelled case- and accent-sensitively. String order is lexicographic order on code points (`Text.StrLe`), and `LIKE` compares characters exactly. The database's collation folds case and accents, and that is not modelled. So the sortedness lemmas hold for code-point order only: under a case-folding collation "Banana" comes after "apple", while here it comes before. Likewise a search term here finds only names with the same case and accents.
- Ties in `ORDER BY` are broken by ascending key in the model. The database leaves them unspecified, so no property depends on it.
- Integers are unbounded. The 32-bit range of `int` keys and preparation times is not modelled. `Integer.parseInt` is a parameter, so its range check is part of that oracle.
- `new BigDecimal(text)`, `Integer.parseInt` and the `toString` of both are parameters (`DishPanel.Numbers`), not modelled. Rounding of stored prices to the price column's scale is not modelled either: prices are stored exactly.
- Foreign keys are not enforced by the model. With the foreign key from a dish to its category in place, inserting a dish whose category does not exist raises, and `create` returns false; the model can express that only as a `Raised` reply. Without it, the dish is inserted and the reads skip it through the join (`DishDao.OrphanIsInvisible`).
- The brand column is written as the constant 1 (`DishDao.DefaultBrand`). The Brand table is not modelled.
- The password compiled into the program is `Connection.Secret.BuiltIn`. Its text plays no part in any property.
- Driver loading (`ClassNotFoundException`) is folded into the driver's refusal. `closeConnection` ignores close errors, and so does the model.
- A close error at the end of a repository call is not modelled. The try-with-resources in every repository method closes the shared handle (for example src/com/darkkitchen/dao/DishDAO.java:19), and an `SQLException` from that close reaches the method's own `catch` (src/com/darkkitchen/dao/DishDAO.java:40). So a write that auto-commit has already applied can still return `false`. `Raised` always leaves the table unchanged, so this model cannot express a write that is applied but reported as failed.
- Concurrency is not modelled. The connection probe runs on a `SwingWorker` thread (src/com/darkkitchen/ui/MainFrame.java:133-137). It is started from the constructor (src/com/darkkitchen/ui/MainFrame.java:28) and from the connection-test menu item (src/com/darkkitchen/ui/MainFrame.java:92-93). Meanwhile the screens call the repositories on the event thread, and both threads use the one unsynchronised static handle. A repository call can therefore close the handle the probe has just obtained, and the probe then fails although the server is reachable. The model runs every call in sequence, so this race has no counterpart in it.
- Each screen handler takes two store replies (`Common.Outcomes`): one for its write and one for every read of the refresh after it. Different replies for the category read and the dish read of one refresh are not modelled.
- Timestamps are opaque values. The clock is the `now` parameter of each insert.
- Message dialogs, confirmation dialogs (a `confirmed` parameter), console logging and the table's display formatting (`loadDishesToTable`, `loadCustomersToTable`) are not modelled.
- Swing layout and event wiring (`initializeComponents`, `setupLayout`, `setupEventListeners`), the category management dialog's layout, `MainFrame` and `Main` are not part of this model.
