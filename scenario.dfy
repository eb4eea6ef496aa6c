/** The purchase flow through all use cases, on stores created empty at startup. */
module Scenario {
  import opened Wrappers
  import opened Domain
  import UserRepository
  import ItemRepository
  import CartItemRepository
  import Scan
  import SaveUser
  import CreateItem
  import AddCartItemToCart
  import GetUserCart

  /** Adding to an empty cart, with one stored user and one stored item that covers the request, succeeds. */
  lemma AddToFreshStores(user: User, item: Item, quantity: int)
    requires quantity <= item.quantity
    ensures AddCartItemToCart.AddToCartResult([user], [item], [], AddToCartCommand(user.id, item.id, quantity))
         == Success(CartItem(user.id, item.id, quantity))
  {
  }

  /**
   * Register a buyer, create "Keyboard" with 20 in stock and put 2 in the
   * buyer's cart, all on stores created empty.
   */
  method BuyKeyboard(hash: string -> string, userId: Uuid, itemId: Uuid)
    returns (users: UserRepository.InMemoryUserRepository,
             items: ItemRepository.InMemoryItemRepository,
             cartItems: CartItemRepository.InMemoryCartItemRepository)
    ensures fresh(users) && fresh(items) && fresh(cartItems)
    ensures |users.users| == 1 && users.users[0].id == userId
    ensures items.items == [Item(itemId, "Keyboard", "Mechanical keyboard", 149.99, 20)]
    ensures cartItems.cartItems == [CartItem(userId, itemId, 2)]
  {
    users := new UserRepository.InMemoryUserRepository();
    items := new ItemRepository.InMemoryItemRepository();
    cartItems := new CartItemRepository.InMemoryCartItemRepository();

    var createUser := new SaveUser.CreateUserUseCase(users, hash);
    var createItem := new CreateItem.CreateItemUseCase(items);
    var addToCart := new AddCartItemToCart.AddItemToCartUseCase(cartItems, users, items);

    var user := createUser.Call(CreateUserCommand("buyer@example.com", "Ada", "Buyer", "password123", None), userId);
    assert user.Success? && user.value.id == userId;
    var item := createItem.Call(CreateItemCommand("Keyboard", "Mechanical keyboard", 149.99, 20), itemId);
    assert item.Success? && item.value.id == itemId && item.value.quantity == 20;
    AddToFreshStores(user.value, item.value, 2);
    var added := addToCart.Call(AddToCartCommand(userId, itemId, 2));
    assert cartItems.cartItems == [] + [CartItem(userId, itemId, 2)];
  }

  /**
   * After the purchase, reading the buyer's cart gives one entry of
   * quantity 2, and re-fetching the item still shows 20 in stock, since
   * the add does not reserve stock.
   */
  method ReadBackPurchase(hash: string -> string, userId: Uuid, itemId: Uuid)
    returns (cart: Result<seq<CartItem>, Error>, stock: Option<int>)
    ensures cart == Success([CartItem(userId, itemId, 2)])
    ensures stock == Some(20)
  {
    var users, items, cartItems := BuyKeyboard(hash, userId, itemId);
    var getCart := new GetUserCart.GetUserCartUseCase(cartItems, users);
    var entry := CartItem(userId, itemId, 2);
    CartItemRepository.UserEntriesAfterSave([], entry, userId);
    assert Scan.Filter([] + [entry], CartItemRepository.OfUser(userId)) == [entry];
    cart := getCart.Call(userId);

    var found := items.FindById(itemId);
    assert items.items[0].id == itemId;
    stock := if found.Some? then Some(found.value.quantity) else None;
  }
}
