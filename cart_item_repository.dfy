/** The in-memory cart store: an append-only list of cart entries scanned front to back. */
module CartItemRepository {
  import opened Wrappers
  import opened Domain
  import Scan

  /** The test `find_cart_items_for_user_id` applies: the entry belongs to this user. */
  function OfUser(userId: Uuid): CartItem -> bool {
    (c: CartItem) => c.userId == userId
  }

  /** The test `find_by_user_and_item` applies: both identifiers match exactly. */
  function ForUserAndItem(userId: Uuid, itemId: Uuid): CartItem -> bool {
    (c: CartItem) => c.userId == userId && c.itemId == itemId
  }

  class InMemoryCartItemRepository {
    var cartItems: seq<CartItem>

    constructor ()
      ensures cartItems == []
    {
      cartItems := [];
    }

    /** Every stored entry of this user, in stored order; empty when the user has none. */
    function FindCartItemsForUserId(userId: Uuid): (r: seq<CartItem>)
      reads this
      ensures r == Scan.Filter(cartItems, OfUser(userId))
      ensures forall k :: 0 <= k < |r| ==> r[k].userId == userId && r[k] in cartItems
      ensures forall i :: 0 <= i < |cartItems| && cartItems[i].userId == userId ==> cartItems[i] in r
      ensures r == [] <==> forall i :: 0 <= i < |cartItems| ==> cartItems[i].userId != userId
    {
      var r := Scan.Filter(cartItems, OfUser(userId));
      assert r != [] ==> r[0].userId == userId && r[0] in cartItems;
      r
    }

    /** Appends `cartItem` to the store and hands it back. */
    method Save(cartItem: CartItem) returns (saved: CartItem)
      modifies this
      ensures cartItems == old(cartItems) + [cartItem]
      ensures saved == cartItem
    {
      cartItems := cartItems + [cartItem];
      saved := cartItem;
    }

    /** The first stored entry for this user and item; None when no entry has both ids. */
    method FindByUserAndItem(userId: Uuid, itemId: Uuid) returns (r: Option<CartItem>)
      ensures r == Scan.FirstMatch(cartItems, ForUserAndItem(userId, itemId))
    {
      var i := 0;
      while i < |cartItems|
        invariant 0 <= i <= |cartItems|
        invariant forall j :: 0 <= j < i ==> !(cartItems[j].userId == userId && cartItems[j].itemId == itemId)
      {
        if cartItems[i].userId == userId && cartItems[i].itemId == itemId {
          return Some(cartItems[i]);
        }
        i := i + 1;
      }
      return None;
    }
  }

  /** A user's entries in a grown store: the old ones in order, then the new entry if it is theirs. */
  lemma UserEntriesAfterSave(cartItems: seq<CartItem>, c: CartItem, userId: Uuid)
    ensures Scan.Filter(cartItems + [c], OfUser(userId)) ==
      Scan.Filter(cartItems, OfUser(userId)) + (if c.userId == userId then [c] else [])
  {
    Scan.FilterSnoc(cartItems, c, OfUser(userId));
  }

  /** With two entries for the same pair, the earlier one is found. */
  lemma FirstInsertedEntryWins(a: CartItem, b: CartItem)
    requires a.userId == b.userId && a.itemId == b.itemId
    ensures Scan.FirstMatch([a, b], ForUserAndItem(a.userId, a.itemId)) == Some(a)
  {
  }

  /** A wrong user or a wrong item alone makes the lookup come back empty. */
  lemma BothIdsMustMatch(c: CartItem, userId: Uuid, itemId: Uuid)
    requires userId != c.userId || itemId != c.itemId
    ensures Scan.FirstMatch([c], ForUserAndItem(userId, itemId)) == None
  {
  }
}
