/**
 * Adding an item to a user's cart: four checks in a fixed order, each
 * stopping the rest, then one save. Stock is checked, never reserved.
 */
module AddCartItemToCart {
  import opened Wrappers
  import opened Domain
  import Scan
  import UserRepository
  import ItemRepository
  import CartItemRepository

  /** Some stored user has this id. */
  ghost predicate UserExists(users: seq<User>, userId: Uuid) {
    exists j :: 0 <= j < |users| && users[j].id == userId
  }

  /** Some stored item has this id. */
  ghost predicate ItemExists(items: seq<Item>, itemId: Uuid) {
    exists j :: 0 <= j < |items| && items[j].id == itemId
  }

  /** Some stored cart entry is for this user and this item. */
  ghost predicate InCart(cartItems: seq<CartItem>, userId: Uuid, itemId: Uuid) {
    exists j :: 0 <= j < |cartItems| && cartItems[j].userId == userId && cartItems[j].itemId == itemId
  }

  /** The stock of the item the lookup by id finds: the first stored one with that id. */
  function StockOf(items: seq<Item>, itemId: Uuid): int
    requires ItemExists(items, itemId)
  {
    Scan.FirstMatch(items, ItemRepository.HasId(itemId)).value.quantity
  }

  /**
   * What adding `cmd` yields against the three stores. The checks are, in
   * order: the user exists, the item exists, its stock covers the request
   * (equality passes), the pair is not in the cart yet.
   */
  function AddToCartResult(users: seq<User>, items: seq<Item>, cartItems: seq<CartItem>, cmd: AddToCartCommand): (r: Result<CartItem, Error>)
    // an unknown user wins over every other failure
    ensures r == Failure(UserNotFound(cmd.userId)) <==> !UserExists(users, cmd.userId)
    // then an unknown item
    ensures r == Failure(ItemNotFound(cmd.itemId)) <==> UserExists(users, cmd.userId) && !ItemExists(items, cmd.itemId)
    // then the stock of the item found, reported with both quantities
    ensures r.Failure? && r.error.InsufficientStock? <==>
      UserExists(users, cmd.userId) && ItemExists(items, cmd.itemId) && StockOf(items, cmd.itemId) < cmd.quantity
    ensures r.Failure? && r.error.InsufficientStock? ==>
      r.error == InsufficientStock(cmd.itemId, cmd.quantity, StockOf(items, cmd.itemId))
    // the duplicate check comes last
    ensures r == Failure(ItemAlreadyInCart(cmd.userId, cmd.itemId)) <==>
      UserExists(users, cmd.userId) && ItemExists(items, cmd.itemId) && cmd.quantity <= StockOf(items, cmd.itemId)
      && InCart(cartItems, cmd.userId, cmd.itemId)
    // all four checks passing is exactly success, which carries the requested entry
    ensures r.Success? <==>
      UserExists(users, cmd.userId) && ItemExists(items, cmd.itemId) && cmd.quantity <= StockOf(items, cmd.itemId)
      && !InCart(cartItems, cmd.userId, cmd.itemId)
    ensures r.Success? ==> r.value == CartItem(cmd.userId, cmd.itemId, cmd.quantity)
  {
    match Scan.FirstMatch(users, UserRepository.HasId(cmd.userId))
    case None => Failure(UserNotFound(cmd.userId))
    case Some(_) =>
      match Scan.FirstMatch(items, ItemRepository.HasId(cmd.itemId))
      case None => Failure(ItemNotFound(cmd.itemId))
      case Some(item) =>
        if item.quantity < cmd.quantity then
          Failure(InsufficientStock(cmd.itemId, cmd.quantity, item.quantity))
        else if Scan.FirstMatch(cartItems, CartItemRepository.ForUserAndItem(cmd.userId, cmd.itemId)).Some? then
          Failure(ItemAlreadyInCart(cmd.userId, cmd.itemId))
        else
          Success(CartItem(cmd.userId, cmd.itemId, cmd.quantity))
  }

  class AddItemToCartUseCase {
    const cartItemRepository: CartItemRepository.InMemoryCartItemRepository
    const userRepository: UserRepository.InMemoryUserRepository
    const itemRepository: ItemRepository.InMemoryItemRepository

    constructor (cartItemRepository: CartItemRepository.InMemoryCartItemRepository,
                 userRepository: UserRepository.InMemoryUserRepository,
                 itemRepository: ItemRepository.InMemoryItemRepository)
      ensures this.cartItemRepository == cartItemRepository
      ensures this.userRepository == userRepository && this.itemRepository == itemRepository
    {
      this.cartItemRepository := cartItemRepository;
      this.userRepository := userRepository;
      this.itemRepository := itemRepository;
    }

    /**
     * Runs the checks against the stores, then saves the new entry. Only the
     * cart store is written, and only on success, and then by exactly one entry.
     */
    method Call(cmd: AddToCartCommand) returns (r: Result<CartItem, Error>)
      requires cmd.quantity > 0
      modifies cartItemRepository
      ensures r == AddToCartResult(old(userRepository.users), old(itemRepository.items), old(cartItemRepository.cartItems), cmd)
      ensures cartItemRepository.cartItems ==
        if r.Success? then old(cartItemRepository.cartItems) + [r.value] else old(cartItemRepository.cartItems)
      ensures userRepository.users == old(userRepository.users)
      ensures itemRepository.items == old(itemRepository.items)
    {
      var user := userRepository.FindById(cmd.userId);
      if user.None? {
        return Failure(UserNotFound(cmd.userId));
      }
      var item := itemRepository.FindById(cmd.itemId);
      if item.None? {
        return Failure(ItemNotFound(cmd.itemId));
      }
      if item.value.quantity < cmd.quantity {
        return Failure(InsufficientStock(cmd.itemId, cmd.quantity, item.value.quantity));
      }
      var existing := cartItemRepository.FindByUserAndItem(cmd.userId, cmd.itemId);
      if existing.Some? {
        return Failure(ItemAlreadyInCart(cmd.userId, cmd.itemId));
      }
      var cartItem := CartItem(cmd.userId, cmd.itemId, cmd.quantity);
      var saved := cartItemRepository.Save(cartItem);
      return Success(saved);
    }
  }

  /**
   * Repeating a successful add for the same user and item fails with
   * `ItemAlreadyInCart`, whatever quantity is asked, as long as stock covers it.
   */
  lemma RepeatAddIsAlreadyInCart(users: seq<User>, items: seq<Item>, cartItems: seq<CartItem>,
                                 cmd: AddToCartCommand, quantity: int)
    requires AddToCartResult(users, items, cartItems, cmd).Success?
    requires quantity <= StockOf(items, cmd.itemId)
    ensures AddToCartResult(users, items, cartItems + [AddToCartResult(users, items, cartItems, cmd).value],
                            AddToCartCommand(cmd.userId, cmd.itemId, quantity))
         == Failure(ItemAlreadyInCart(cmd.userId, cmd.itemId))
  {
    var c := AddToCartResult(users, items, cartItems, cmd).value;
    assert (cartItems + [c])[|cartItems|] == c;
  }

  /**
   * Stock is checked, not reserved: after one user's successful add, another
   * user may add the same quantity of the same item.
   */
  lemma StockIsNotReserved(users: seq<User>, items: seq<Item>, cartItems: seq<CartItem>,
                           cmd: AddToCartCommand, otherUser: Uuid)
    requires AddToCartResult(users, items, cartItems, cmd).Success?
    requires otherUser != cmd.userId && UserExists(users, otherUser)
    requires !InCart(cartItems, otherUser, cmd.itemId)
    ensures AddToCartResult(users, items, cartItems + [AddToCartResult(users, items, cartItems, cmd).value],
                            AddToCartCommand(otherUser, cmd.itemId, cmd.quantity)).Success?
  {
  }

  /**
   * After a successful add, the entry is what the pair lookup finds and it
   * closes the user's cart listing.
   */
  lemma AddedEntryIsListed(users: seq<User>, items: seq<Item>, cartItems: seq<CartItem>, cmd: AddToCartCommand)
    requires AddToCartResult(users, items, cartItems, cmd).Success?
    ensures var c := AddToCartResult(users, items, cartItems, cmd).value;
      && Scan.FirstMatch(cartItems + [c], CartItemRepository.ForUserAndItem(cmd.userId, cmd.itemId)) == Some(c)
      && Scan.Filter(cartItems + [c], CartItemRepository.OfUser(cmd.userId))
         == Scan.Filter(cartItems, CartItemRepository.OfUser(cmd.userId)) + [c]
  {
    var c := AddToCartResult(users, items, cartItems, cmd).value;
    Scan.FirstMatchAppend(cartItems, c, CartItemRepository.ForUserAndItem(cmd.userId, cmd.itemId));
    CartItemRepository.UserEntriesAfterSave(cartItems, c, cmd.userId);
  }

  /** With 5 in stock, asking for 5 succeeds and asking for 6 fails, reporting both quantities. */
  lemma StockBoundary(user: User, item: Item)
    requires item.quantity == 5
    ensures AddToCartResult([user], [item], [], AddToCartCommand(user.id, item.id, 5)).Success?
    ensures AddToCartResult([user], [item], [], AddToCartCommand(user.id, item.id, 6))
         == Failure(InsufficientStock(item.id, 6, 5))
  {
  }
}
