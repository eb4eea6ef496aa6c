/** Listing the catalog: the stored items, unfiltered, in stored order. */
module GetAllItems {
  import opened Domain
  import ItemRepository

  class GetAllItemsUseCase {
    const itemRepository: ItemRepository.InMemoryItemRepository

    constructor (itemRepository: ItemRepository.InMemoryItemRepository)
      ensures this.itemRepository == itemRepository
    {
      this.itemRepository := itemRepository;
    }

    /** Every stored item, in stored order; empty for an empty catalog. The catalog is not changed. */
    method Call() returns (r: seq<Item>)
      ensures |r| == |itemRepository.items|
      ensures forall k :: 0 <= k < |r| ==> r[k] == itemRepository.items[k]
    {
      r := itemRepository.ListAll();
    }
  }
}
