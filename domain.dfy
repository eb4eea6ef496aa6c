/**
 * Entities, commands and the error taxonomy of the shop backend, plus the
 * case-insensitive string comparison used for email and item-name uniqueness.
 */
module Domain {
  import opened Wrappers

  /** An opaque identifier (a UUID in the system); compared only by exact equality. */
  type Uuid = nat

  /** A registered user. The never-populated `cart_items` list of the source is not carried. */
  datatype User = User(
    id: Uuid,
    email: string,
    firstName: string,
    lastName: string,
    hashedPassword: string,
    shippingAddress: string)

  /** A catalog item; `quantity` is the available stock, `price` is carried opaquely. */
  datatype Item = Item(id: Uuid, name: string, description: string, price: real, quantity: int)

  /** A cart entry: which user wants how many of which item. It has no identity of its own. */
  datatype CartItem = CartItem(userId: Uuid, itemId: Uuid, quantity: int)

  datatype CreateUserCommand = CreateUserCommand(
    email: string,
    firstName: string,
    lastName: string,
    password: string,
    shippingAddress: Option<string>)

  datatype CreateItemCommand = CreateItemCommand(name: string, description: string, price: real, quantity: int)

  datatype AddToCartCommand = AddToCartCommand(userId: Uuid, itemId: Uuid, quantity: int)

  /** The domain errors the use cases raise, each with the data that identifies the failure. */
  datatype Error =
    | UserNotFound(userId: Uuid)
    | EmailAlreadyExists(email: string)
    | ItemNotFound(itemId: Uuid)
    | ItemAlreadyExists(itemName: string)
    | InsufficientStock(stockItemId: Uuid, requested: int, available: int)
    | ItemAlreadyInCart(cartUserId: Uuid, cartItemId: Uuid)

  /** Lower-casing of one character, restricted to ASCII letters. */
  function LowerChar(c: char): (r: char)
    ensures 'A' <= c <= 'Z' ==> r as int == c as int + 32
    ensures !('A' <= c <= 'Z') ==> r == c
  {
    if 'A' <= c <= 'Z' then (c as int - 'A' as int + 'a' as int) as char else c
  }

  /** `str.lower()`, restricted to ASCII letters. */
  function Lower(s: string): (r: string)
    ensures |r| == |s|
    ensures forall i :: 0 <= i < |s| ==> r[i] == LowerChar(s[i])
  {
    if s == [] then [] else [LowerChar(s[0])] + Lower(s[1..])
  }

  /** Equality up to letter case, as `a.lower() == b.lower()`. */
  predicate SameIgnoringCase(a: string, b: string) {
    Lower(a) == Lower(b)
  }
}
