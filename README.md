# Product catalogue API — validation rules and product handlers

This project models the core of a small REST service that exposes one
resource, Product (`id`, `name`, `price`, `availability`), under
`/api/products`. The model has two parts:

- **Routes and validation** (`router.dfy`, module `Router`). Each route
  declares an ordered chain of field checks, and each check has a fixed
  message. Every check runs, and the messages of all failed checks are
  collected in declaration order. The gate (`handleInputErrors`) answers 400
  with that list when it is non-empty. Otherwise it hands the request to the
  route's handler. A request is abstracted to its route, the text of its
  `:id` path parameter, and its three body fields. Each field is `Absent`,
  `Text`, `Num` or `Bool`. `Handle` runs one request through validation,
  the gate and the handler against a product table.
- **Product handlers** (`products.dfy`, module `Products`). `getProductByID`
  and `getProducts` are functions of the table. `creaeteProduct`,
  `updateProduct`, `updateAvailability` and `deleteProduct` are methods of
  the `Store` class. The class holds the table as a `map<int, Product>` and
  a counter that supplies fresh ids. Each method states the whole new table
  and the response it gives.
- **Integer text** (`numerals.dfy`, module `Numerals`). This is the `isInt`
  test applied to path ids, the conversion of such an id to the integer
  key, and decimal rendering. It is proved that the decimal text of every
  integer passes `isInt` and converts back to that integer.

The checks are abstracted as follows:

- `isInt`: an optional sign, then one or more digits. Leading zeros are allowed.
- `isNumeric`: a number, or text that passes `isInt`.
- `notEmpty`: fails on an absent field or on `""`.
- `isBoolean`: passes only on a JSON boolean.
- `custom(value > 0)`: a number is compared as itself, and text that passes
  `isInt` by its value. `true` counts as 1. An absent field, `false` and
  every other text are taken as not greater than 0. JavaScript itself reads
  some other text as a number (see "## Left out").

The handlers as written do not `return` after sending a 404. The next
statement then throws, and the empty `catch` swallows the exception, so the
client still sees the 404 and the table is not changed. The model returns at
once on a missing row. That gives the same observable result, and a comment
in `products.dfy` records this.

`availability` is checked on every PUT (`src/router.ts:159-161`), so an
absent availability is reported, and an empty PUT body gives five messages.

## Model

| member | source | states |
|---|---|---|
| `Numerals.IsInt` | src/router.ts:95 | `isInt` holds only on non-empty text whose characters after an optional leading sign are all digits; every non-empty digit string passes, and a lone sign does not |
| `Numerals.ParseInt` | src/handlers/products.ts:9 | the key `findByPk(id)` is given: unsigned or '+' text reads as its non-negative digit value, '-' text as the negated digit value |
| `Router.IsEmptyField` | src/router.ts:133 | `notEmpty` fails exactly on a missing field or empty text; a number or a boolean is never empty |
| `Router.IsNumericField` | src/router.ts:136 | `isNumeric` passes only on a number or integer text, never on a missing field or a boolean, and a numeric value is never empty |
| `Router.IsPositiveField` | src/router.ts:140 | `value > 0` holds on a number exactly when it is above 0, on text only when it is an integer above 0, never on an empty value, and not on 0, "0" or `false` |
| `Router.Passes` | src/router.ts:132-161 | every check except `notEmpty` fails on an empty value; `notEmpty` passes exactly on a non-empty value; `isBoolean` passes exactly on a boolean; `isInt` passes only on integer text |
| `Router.Rules` | src/router.ts:93-178 | only GET `/` declares no checks; exactly the `/:id` routes start with the id check; the id check is the only one on the path; POST declares four checks and PUT six |
| `Numerals.ParseShowInt` | src/router.ts:95 | for every integer, its decimal text passes `isInt` and converts back to the same integer |
| `Numerals.NotIntWhenLeadIsLetter` | src/handlers/__test__/products.test.ts:87-94 | text that starts with something other than a sign or a digit (such as "not-valid-url" or "Hob") fails `isInt` |
| `Router.Run` | src/router.ts:130-144 | a chain reports at most one message per check, and it reports nothing exactly when every check holds |
| `Router.RunReportsFailures` | src/router.ts:132-141 | every reported message comes from a failed check, and every failed check's message is reported, so failures do not stop later checks |
| `Router.RunAppend` | src/router.ts:146-161 | running two chains one after the other reports the first chain's messages, then the second's |
| `Router.RunPriceRules` | src/router.ts:135-141 | the price chain reports, in this order: the `isNumeric` failure, the `notEmpty` failure, the `> 0` failure |
| `Router.RunRules` | src/router.ts:130-161 | each per-field chain reports exactly its own failed checks |
| `Router.RulesPassIffAccepts` | src/router.ts:93-178 | a route's chain is silent exactly when its fields meet an independently stated acceptance predicate |
| `Router.Validate` | src/router.ts:93-178 | the route's messages are never more than its checks, and they are empty iff the request is acceptable; GET `/` has no checks |
| `Router.ValidateInOrder` | src/router.ts:93-178 | for each route, the exact ordered list of messages: the id check first on id routes, then name, then the three price checks, then availability on PUT |
| `Router.IdRoutesRejectNonInteger` | src/router.ts:166-178 | GET, PATCH and DELETE on `/:id` with a non-integer id report exactly `["Id no valido"]`, whatever the body holds |
| `Router.NotValidUrlRejected` | src/handlers/__test__/products.test.ts:182-189 | "not-valid-url" and "Hob" as ids report exactly `["Id no valido"]` |
| `Router.CreateEmptyBody` | src/handlers/__test__/products.test.ts:5-14 | POST with an empty body reports exactly four messages: name empty, price not numeric, price empty, price not positive |
| `Router.CreateNonPositivePrice` | src/handlers/__test__/products.test.ts:16-28 | POST with a valid name and a numeric price of at most 0 reports exactly `["Precio no valido"]` |
| `Router.CreateNonNumericTextPrice` | src/router.ts:135-141 | a non-empty text price that is not integer text fails `isNumeric` and `> 0` but passes `notEmpty`, so there are exactly two messages (see "## Left out" for text JavaScript reads as a number) |
| `Router.HolaIsNotNumeric` | src/handlers/__test__/products.test.ts:30-42 | POST with price "Hola" reports exactly the two price messages |
| `Router.CreateTruePrice` | src/router.ts:135-141 | a price of `true` reports only "Valor no valido", because `true > 0` holds; two messages for a non-numeric price is therefore not a general rule |
| `Router.CreateValid` | src/handlers/__test__/products.test.ts:44-56 | a non-empty name with a positive numeric price passes every POST check |
| `Router.UpdateEmptyBody` | src/handlers/__test__/products.test.ts:120-130 | PUT with a valid id and an empty body reports exactly five messages, the last being the availability one |
| `Router.UpdateNonPositivePrice` | src/handlers/__test__/products.test.ts:132-147 | PUT with a valid id, name and availability and a price of at most 0 reports exactly `["Precio no valido"]` |
| `Router.UpdateNonIntegerId` | src/handlers/__test__/products.test.ts:104-118 | PUT with a bad id and an otherwise valid body reports exactly `["Id no valido"]` |
| `Router.EveryIdAddressable` | src/router.ts:93-98 | every stored id, written in decimal, passes the `/:id` check and names that same id |
| `Router.Gate` | src/router.ts:96 | the gate stops the request exactly when there are messages, and then answers 400 with all of them |
| `Router.NameText` | src/handlers/products.ts:34 | a name that passed `notEmpty` is stored as non-empty text, and text is stored unchanged |
| `Router.PriceValue` | src/handlers/products.ts:34 | a price that passed `isNumeric` and `> 0` is stored as a positive integer, and a number is stored unchanged |
| `Router.CreatedAvailability` | src/handlers/products.ts:34 | a created row takes the body's boolean availability when there is one, and the column default when the field is absent (other values: see "## Left out") |
| `Router.Handle` | src/router.ts:93-178 | a rejected request answers 400 with every message and leaves the table alone; an accepted one gives exactly its handler's outcome, and only an accepted POST advances the id counter, by one; every route keeps every stored row's name non-empty and price positive |
| `Products.GetProductByID` | src/handlers/products.ts:5-19 | answers 200 with the row under the id when there is one, and 404 `"Product not found"` otherwise |
| `Products.ByIdDescending` | src/handlers/products.ts:23-26 | lists every row exactly once (same count, only stored rows, every stored row) with ids strictly descending |
| `Products.GetProducts` | src/handlers/products.ts:21-30 | always answers 200 with a list that holds exactly the stored products, ordered by id descending |
| `Products.Replaced` | src/handlers/products.ts:51-52 | a full update sets name, price and availability and keeps the id |
| `Products.Toggled` | src/handlers/products.ts:70-75 | the toggle negates availability and keeps id, name and price |
| `Products.ToggleTwiceRestores` | src/handlers/__test__/products.test.ts:203-207 | toggling the same table entry twice gives back the original table |
| `Products.LookupAfterDelete` | src/handlers/__test__/products.test.ts:237-241 | after a row is removed, a lookup of its id answers 404 |
| `Products.LookupAfterCreate` | src/handlers/products.ts:34-35 | after a row is added under a fresh id, the table has one more row and a lookup of that id returns it |
| `Products.Store.CreateProduct` | src/handlers/products.ts:32-37 | adds exactly one row under an id not previously in the table, advances the counter, and answers 201 with the new row |
| `Products.Store.UpdateProduct` | src/handlers/products.ts:39-56 | on an existing id, replaces that row's fields and keeps its id and all other rows, answering 200 with the row; on a missing id, answers 404 and changes nothing |
| `Products.Store.UpdateAvailability` | src/handlers/products.ts:58-80 | on an existing id, negates that row's availability and keeps all else, answering 200 with the row; on a missing id, answers 404 and changes nothing |
| `Products.Store.DeleteProduct` | src/handlers/products.ts:82-98 | on an existing id, removes exactly that key and answers 200 `"Prducto eliminado"`; on a missing id, answers 404 and changes nothing |

## Left out

- `src/server.ts`: the database connection and its logged failure, the CORS origin check (it reads the environment), request logging and the documentation mount are bootstrap and I/O.
- The `handleInputErrors` middleware is not part of this model. Only the behaviour the routes rely on is modelled: 400 with `{errors}` when there are messages, otherwise the handler runs.
- Exact validator coercions are abstracted. `isNumeric` in the model accepts integer text only, not decimals. Whitespace handling in JavaScript's `>` is not modelled. `isBoolean` accepts only a JSON boolean, not the strings "true", "false", "1" and "0", nor the JSON numbers 1 and 0, which the validator turns into the text "1" and "0" and accepts; so a PUT with availability 1 or 0 passes validation in the source, while the model reports the availability message.
- Prices are integers, as the schema declares them. Decimal prices are not modelled.
- Store-side type conversion and validation of the ORM are left out. For example, the store may reject a boolean name that passed `notEmpty`. The model stores the value's text.
- The column default of `availability` lives in the product model file, which is not part of this model. It is a parameter of `Router.Handle`.
- Body fields other than name, price and availability (an `id` in the body, say) are not modelled. Neither is the projection that drops `createdAt` and `updatedAt` from listings.
- Faults of the store and the empty `catch` blocks that swallow them are left out, because the in-memory table has no faults. In the source, a swallowed fault leaves the request without any response.
- Asynchrony and the pooled connection are left out, because the model is sequential. So is the race between the read and the write of the availability toggle.
- Integer column width is left out, because ids and prices are unbounded integers.
- `Router.IsPositiveField`: does not model JavaScript's conversion of text to a number. JavaScript reads exponent text ("1e3"), hexadecimal text ("0x10"), "Infinity" and decimal text ("3.5") as numbers, but the model takes every text that is not an integer as not greater than 0.
- `Router.CreateNonNumericTextPrice`: because of that simplification, its two-message result does not hold in the source for text that JavaScript reads as a positive number ("1e3", "0x10", "Infinity"). For such text the source reports only "Valor no valido". Nor does it hold for decimal text, which `isNumeric` accepts in the source: "3.5" gives no message, and "-1.5" only "Precio no valido".
- `Router.CreatedAvailability`: POST does not check `availability` (`src/router.ts:130-144`), so in the source a value that is not a boolean ("false" as text, 0) is handed to the store, whose own conversion or rejection is not part of this model; the model stores the column default for it, as for an absent field.
