/** Reading a user's cart: the user must exist, then their entries in stored order. */
module GetUserCart {
  import opened Wrappers
  import opened Domain
  import Scan
  import UserRepository
  import CartItemRepository

  class GetUserCartUseCase {
    const cartItemRepository: CartItemRepository.InMemoryCartItemRepository
    const userRepository: UserRepository.InMemoryUserRepository

    constructor (cartItemRepository: CartItemRepository.InMemoryCartItemRepository,
                 userRepository: UserRepository.InMemoryUserRepository)
      ensures this.cartItemRepository == cartItemRepository && this.userRepository == userRepository
    {
      this.cartItemRepository := cartItemRepository;
      this.userRepository := userRepository;
    }

    /**
     * `UserNotFound(userId)` exactly when no stored user has that id; otherwise
     * the user's entries, possibly none, in stored order. No store is changed.
     */
    method Call(userId: Uuid) returns (r: Result<seq<CartItem>, Error>)
      ensures r.Failure? <==> forall j :: 0 <= j < |userRepository.users| ==> userRepository.users[j].id != userId
      ensures r.Failure? ==> r.error == UserNotFound(userId)
      ensures r.Success? ==> r.value == Scan.Filter(cartItemRepository.cartItems, CartItemRepository.OfUser(userId))
      ensures r.Success? ==> (r.value == [] <==> forall i :: 0 <= i < |cartItemRepository.cartItems| ==> cartItemRepository.cartItems[i].userId != userId)
    {
      var user := userRepository.FindById(userId);
      if user.None? {
        return Failure(UserNotFound(userId));
      }
      var cartItems := cartItemRepository.FindCartItemsForUserId(userId);
      return Success(cartItems);
    }
  }
}
