# Shop backend core: repositories and use cases

This project models the business core of a small e-commerce backend (`be_task_ca`):
the three in-memory repository adapters (users, items, cart items) and the five
use cases that orchestrate them (create user, create item, list items, add an
item to a cart, read a user's cart).

- `wrappers.dfy` — `Option` (a lookup that may find nothing) and `Result` (a value or a domain error).
- `scan.dfy` — the specifications of the adapters' linear scans: `FirstIndex`/`FirstMatch`
  (the first stored match wins) and `Filter` (all matches, in stored order), with the lemmas
  that relate them to a store that grew by one record.
- `domain.dfy` — the entities `User`, `Item`, `CartItem`, the three commands, the error taxonomy
  `Error`, and the case-insensitive comparison `SameIgnoringCase` built on an ASCII `Lower`.
- `user_repository.dfy`, `item_repository.dfy`, `cart_item_repository.dfy` — each adapter as a
  class over a `seq` field. `Save` appends; each early-return `for` loop of the source is a
  `while` loop proved equal to `Scan.FirstMatch`; the pure list copy and list comprehension
  are functions that read the field.
- `save_user.dfy`, `create_item.dfy`, `get_all_items.dfy`, `get_user_cart.dfy`,
  `add_cart_item_to_cart.dfy` — each use case as a class holding its repositories, whose
  `Call` method performs the source's steps in order. Where a use case writes, a pure
  function (`CreateUserResult`, `CreateItemResult`, `AddToCartResult`) gives its outcome
  from the stores' contents, and `Call` is proved to return that outcome and to change
  the store by exactly that outcome. Lemmas about these functions relate several calls.
- `scenario.dfy` — the complete purchase flow through the use cases on fresh stores, then the cart and the item read back.

Identifiers (`uuid4` in the system) are passed in as fresh-id parameters. The SHA-256 hex
digest of the password is a function value `hash: string -> string` given to
`CreateUserUseCase`, so it is deterministic but otherwise unconstrained. The request
bounds enforced by the HTTP schemas become `requires` clauses: a cart quantity is
positive (`be_task_ca/drivers/rest/schemas/cart_schemas.py:7`) and an item quantity is
non-negative (`be_task_ca/drivers/rest/schemas/item_schemas.py:9`).

The `Item` entity's file is not part of this model. Its fields (`id`, `name`, `description`,
`price`, `quantity`) are taken from how `create_item.py` builds it and how the item adapter
reads it. The duplicate check `if existing:` in `add_cart_item_to_cart.py:44` tests a
dataclass instance, which is always truthy, so it is modelled as "an entry was found".

## Model

| member | source | states |
|---|---|---|
| `Scan.FirstIndex` | be_task_ca/adapters/repositories/cart_item/in_memory_cart_item_repository.py:24-27 | the index found satisfies the test and no earlier index does; None exactly when no element satisfies it |
| `Scan.FirstMatch` | be_task_ca/adapters/repositories/user/in_memory_user_repository.py:18-28 | the result is the element at the lowest index that satisfies the test (first inserted wins); None exactly when no element does |
| `Scan.FirstMatchAppend` | be_task_ca/adapters/repositories/user/in_memory_user_repository.py:14-28 | appending keeps an existing first match; otherwise the appended record is found if it matches, else nothing |
| `Scan.Filter` | be_task_ca/adapters/repositories/cart_item/in_memory_cart_item_repository.py:15 | every kept element is stored and satisfies the test; every stored element that satisfies it is kept; never longer than the store |
| `Scan.FilterAppend` | be_task_ca/adapters/repositories/cart_item/in_memory_cart_item_repository.py:15 | filtering distributes over concatenation, so matches keep their stored order |
| `Scan.FilterCount` | be_task_ca/adapters/repositories/cart_item/in_memory_cart_item_repository.py:15 | a matching element occurs in the result exactly as often as in the store; a non-matching one does not occur |
| `Scan.FilterSnoc` | be_task_ca/adapters/repositories/cart_item/in_memory_cart_item_repository.py:14-19 | filtering a store grown by one record gives the old matches followed by the new record if it matches |
| `Domain.Lower` | be_task_ca/adapters/repositories/item/in_memory_item_repository.py:23 | `str.lower()` on ASCII: same length, each character lower-cased |
| `UserRepository.InMemoryUserRepository.constructor` | be_task_ca/adapters/repositories/user/in_memory_user_repository.py:11-12 | a new store is empty |
| `UserRepository.InMemoryUserRepository.Save` | be_task_ca/adapters/repositories/user/in_memory_user_repository.py:14-16 | the store becomes the old store plus the user at the end; the user is returned |
| `UserRepository.InMemoryUserRepository.FindByEmail` | be_task_ca/adapters/repositories/user/in_memory_user_repository.py:18-22 | returns the first stored user whose email equals the argument ignoring case, None exactly when none does; the store is not changed |
| `UserRepository.InMemoryUserRepository.FindById` | be_task_ca/adapters/repositories/user/in_memory_user_repository.py:24-28 | returns the first stored user with exactly that id, None exactly when none has it; the store is not changed |
| `UserRepository.FindByIdAfterSave` | tests/integration/repositories/test_user_repository.py:91-98 | after saving a user, looking up its id finds a user with that id |
| `ItemRepository.InMemoryItemRepository.constructor` | be_task_ca/adapters/repositories/item/in_memory_item_repository.py:11-12 | a new catalog is empty |
| `ItemRepository.InMemoryItemRepository.Save` | be_task_ca/adapters/repositories/item/in_memory_item_repository.py:14-16 | the catalog becomes the old catalog plus the item at the end; the item is returned |
| `ItemRepository.InMemoryItemRepository.ListAll` | be_task_ca/adapters/repositories/item/in_memory_item_repository.py:18-19 | returns, element by element and in order, the stored items, as a value that later changes cannot reach |
| `ItemRepository.InMemoryItemRepository.FindByName` | be_task_ca/adapters/repositories/item/in_memory_item_repository.py:21-25 | returns the first stored item whose name equals the argument ignoring case, None exactly when none does; the catalog is not changed |
| `ItemRepository.InMemoryItemRepository.FindById` | be_task_ca/adapters/repositories/item/in_memory_item_repository.py:27-31 | returns the first stored item with exactly that id, None exactly when none has it; the catalog is not changed |
| `ItemRepository.FindByNameAfterSave` | be_task_ca/adapters/repositories/item/in_memory_item_repository.py:14-25 | after saving an item, a lookup by a name equal to its name ignoring case finds an item |
| `ItemRepository.FindByNameIgnoresCase` | tests/integration/repositories/test_item_repository.py:92-108 | with "Laptop" stored, both "laptop" and "LAPTOP" find it |
| `CartItemRepository.InMemoryCartItemRepository.constructor` | be_task_ca/adapters/repositories/cart_item/in_memory_cart_item_repository.py:11-12 | a new cart store is empty |
| `CartItemRepository.InMemoryCartItemRepository.FindCartItemsForUserId` | be_task_ca/adapters/repositories/cart_item/in_memory_cart_item_repository.py:14-15 | the result is the ordered filter of the store by user: the user's stored entries in stored order, each as often as it is stored (ordering and multiplicity by `Scan.FilterAppend` and `Scan.FilterCount`); every returned entry is stored and theirs, every stored entry of theirs is returned, and it is empty exactly when the user has no entry |
| `CartItemRepository.InMemoryCartItemRepository.Save` | be_task_ca/adapters/repositories/cart_item/in_memory_cart_item_repository.py:17-19 | the store becomes the old store plus the entry at the end; the entry is returned |
| `CartItemRepository.InMemoryCartItemRepository.FindByUserAndItem` | be_task_ca/adapters/repositories/cart_item/in_memory_cart_item_repository.py:21-27 | returns the first stored entry with both ids equal, None exactly when no entry matches both; the store is not changed |
| `CartItemRepository.UserEntriesAfterSave` | be_task_ca/adapters/repositories/cart_item/in_memory_cart_item_repository.py:14-19 | after a save, a user's entries are their old entries in order, followed by the new entry if it is theirs |
| `CartItemRepository.FirstInsertedEntryWins` | tests/integration/repositories/test_cart_item_repository.py:161-173 | with two entries for the same pair, the earlier one is found |
| `CartItemRepository.BothIdsMustMatch` | tests/integration/repositories/test_cart_item_repository.py:133-157 | a wrong user or a wrong item alone makes the pair lookup return None |
| `SaveUser.CreateUserResult` | be_task_ca/use_cases/save_user.py:13-30 | fails exactly when some stored email equals the command's ignoring case, and then with `EmailAlreadyExists(email)`; otherwise the user carries the fresh id, the command's email and names, `hash(password)`, and the given address or "" when none was given |
| `SaveUser.CreateUserUseCase.constructor` | be_task_ca/use_cases/save_user.py:10-11 | keeps the store it is given, and the digest |
| `SaveUser.CreateUserUseCase.Call` | be_task_ca/use_cases/save_user.py:13-30 | returns the outcome `CreateUserResult` gives for the old store; the store gains exactly the returned user on success and is unchanged on failure |
| `SaveUser.DuplicateEmailIgnoresCase` | be_task_ca/use_cases/save_user.py:14-16 | after a successful registration, registering an email that equals it ignoring case fails with `EmailAlreadyExists` |
| `SaveUser.UpperCaseEmailIsDuplicate` | be_task_ca/adapters/repositories/user/in_memory_user_repository.py:20 | registering "a@b.com" on an empty store succeeds, and "A@B.COM" after it fails with `EmailAlreadyExists("A@B.COM")` |
| `CreateItem.CreateItemResult` | be_task_ca/use_cases/create_item.py:11-25 | fails exactly when some stored name equals the command's ignoring case, and then with `ItemAlreadyExists(name)`; otherwise the item carries the fresh id and the command's name, description, price and quantity |
| `CreateItem.CreateItemUseCase.constructor` | be_task_ca/use_cases/create_item.py:8-9 | keeps the catalog it is given |
| `CreateItem.CreateItemUseCase.Call` | be_task_ca/use_cases/create_item.py:11-25 | returns the outcome `CreateItemResult` gives for the old catalog; the catalog gains exactly the returned item on success and is unchanged on failure |
| `CreateItem.DuplicateNameIgnoresCase` | be_task_ca/use_cases/create_item.py:12-14 | after a successful creation, creating a name that equals it ignoring case fails with `ItemAlreadyExists` |
| `CreateItem.LowerCaseNameIsDuplicate` | be_task_ca/adapters/repositories/item/in_memory_item_repository.py:23 | creating "Widget" on an empty catalog succeeds, and "widget" after it fails with `ItemAlreadyExists("widget")` |
| `CreateItem.ZeroQuantityAccepted` | tests/unit/use_cases/test_create_item.py:53-75 | an item with quantity 0 and an unused name is created with quantity 0 |
| `GetAllItems.GetAllItemsUseCase.constructor` | be_task_ca/use_cases/get_all_items.py:8-9 | keeps the catalog it is given |
| `GetAllItems.GetAllItemsUseCase.Call` | be_task_ca/use_cases/get_all_items.py:11-13 | returns the stored items element by element in stored order, empty for an empty catalog; nothing is written |
| `GetUserCart.GetUserCartUseCase.constructor` | be_task_ca/use_cases/get_user_cart.py:11-17 | keeps the stores it is given |
| `GetUserCart.GetUserCartUseCase.Call` | be_task_ca/use_cases/get_user_cart.py:19-28 | fails with `UserNotFound(user_id)` exactly when no stored user has that id; otherwise returns the user's entries in stored order, empty (not an error) when they have none; nothing is written |
| `AddCartItemToCart.AddToCartResult` | be_task_ca/use_cases/add_cart_item_to_cart.py:25-57 | `UserNotFound` exactly when no user has the id; `ItemNotFound` exactly when the user exists and no item has the id; `InsufficientStock(item, requested, available)` exactly when both exist and the found item's stock is below the request; `ItemAlreadyInCart` exactly when those pass and the pair is already in the cart; success exactly when all four checks pass, carrying exactly the requested entry |
| `AddCartItemToCart.AddItemToCartUseCase.constructor` | be_task_ca/use_cases/add_cart_item_to_cart.py:15-23 | keeps the three stores it is given |
| `AddCartItemToCart.AddItemToCartUseCase.Call` | be_task_ca/use_cases/add_cart_item_to_cart.py:25-57 | returns the outcome `AddToCartResult` gives for the old stores; the cart store gains exactly the returned entry on success and is unchanged on every failure; the user and item stores are unchanged on every path, so stock is never decremented |
| `AddCartItemToCart.RepeatAddIsAlreadyInCart` | be_task_ca/use_cases/add_cart_item_to_cart.py:41-47 | after a successful add, adding the same user and item again fails with `ItemAlreadyInCart` for any quantity the stock covers |
| `AddCartItemToCart.StockIsNotReserved` | be_task_ca/use_cases/add_cart_item_to_cart.py:34-57 | after a successful add, another existing user without that item in the cart can add the same quantity of it |
| `AddCartItemToCart.AddedEntryIsListed` | be_task_ca/use_cases/add_cart_item_to_cart.py:49-57 | after a successful add, the pair lookup finds the new entry and it is the last of the user's listed entries |
| `AddCartItemToCart.StockBoundary` | be_task_ca/use_cases/add_cart_item_to_cart.py:34-39 | with 5 in stock, a request for 5 succeeds and one for 6 fails with `InsufficientStock(item, 6, 5)` |
| `Scenario.AddToFreshStores` | be_task_ca/use_cases/add_cart_item_to_cart.py:25-57 | with one user, one item covering the request and an empty cart, the add succeeds with the requested entry |
| `Scenario.BuyKeyboard` | tests/e2e/test_api.py:104-132 | on fresh stores, registering a buyer, creating "Keyboard" with 20 in stock and adding 2 leaves one user, the unchanged item and one cart entry of quantity 2 |
| `Scenario.ReadBackPurchase` | tests/e2e/test_api.py:104-139 | after that purchase, reading the buyer's cart gives exactly one entry of quantity 2, and re-fetching the item by id shows 20 in stock |

## Left out

- The HTTP layer (FastAPI app, routers, dependency wiring, mapping of errors to status codes) and the pydantic schemas; only the schema bounds the core relies on appear, as `requires`.
- `async`/`await`: every call is sequential. The check-then-insert race between concurrent requests (two adds of the same pair both passing the duplicate check) is concurrency and is not modelled.
- SHA-256 and `uuid4`: the digest is an unconstrained function value, fresh ids are parameters. Uniqueness of generated ids is probabilistic and is not modelled.
- `float(command.price)` in `create_item.py:19`: the price is carried as given, with no float coercion.
- `Domain.Lower`: lower-cases ASCII letters only; the full Unicode `str.lower()` is not modelled.
- The abstract repository ports: they carry no behaviour, and the adapter classes stand in for them.
- `User.cart_items`: it is never populated, so the entity does not carry it. Exception message strings are formatting and are not modelled; the errors carry their data only.
- Which repository methods a use case calls (what the unit tests observe on mocks, for instance that the cart store is not queried for an unknown user) is not observable in the model; the `Call` bodies make the calls in the source's order and stop at the first failed check.
- `ItemRepository.InMemoryItemRepository.ListAll`: the returned sequence is a value, so the defensive copy holds by construction rather than being proved about an aliasable list.
