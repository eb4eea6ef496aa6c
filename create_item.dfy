/** Creating a catalog item: name uniqueness ignoring case, then build and save. */
module CreateItem {
  import opened Wrappers
  import opened Domain
  import Scan
  import ItemRepository

  /**
   * What creating `cmd` yields against the catalog `items`: a duplicate name
   * (ignoring case) is refused, otherwise the item is built from the command
   * under the fresh identifier `freshId`.
   */
  function CreateItemResult(items: seq<Item>, cmd: CreateItemCommand, freshId: Uuid): (r: Result<Item, Error>)
    ensures r.Failure? <==> exists j :: 0 <= j < |items| && SameIgnoringCase(items[j].name, cmd.name)
    ensures r.Failure? ==> r.error == ItemAlreadyExists(cmd.name)
    ensures r.Success? ==> r.value.id == freshId && r.value.name == cmd.name && r.value.description == cmd.description
    ensures r.Success? ==> r.value.price == cmd.price && r.value.quantity == cmd.quantity
  {
    if Scan.FirstMatch(items, ItemRepository.HasName(cmd.name)).Some? then
      Failure(ItemAlreadyExists(cmd.name))
    else
      Success(Item(freshId, cmd.name, cmd.description, cmd.price, cmd.quantity))
  }

  class CreateItemUseCase {
    const itemRepository: ItemRepository.InMemoryItemRepository

    constructor (itemRepository: ItemRepository.InMemoryItemRepository)
      ensures this.itemRepository == itemRepository
    {
      this.itemRepository := itemRepository;
    }

    /** Creates `cmd` under the fresh identifier `freshId`; the catalog grows only on success. */
    method Call(cmd: CreateItemCommand, freshId: Uuid) returns (r: Result<Item, Error>)
      requires cmd.quantity >= 0
      modifies itemRepository
      ensures r == CreateItemResult(old(itemRepository.items), cmd, freshId)
      ensures itemRepository.items == if r.Success? then old(itemRepository.items) + [r.value] else old(itemRepository.items)
    {
      var existing := itemRepository.FindByName(cmd.name);
      if existing.Some? {
        return Failure(ItemAlreadyExists(cmd.name));
      }
      var item := Item(freshId, cmd.name, cmd.description, cmd.price, cmd.quantity);
      var saved := itemRepository.Save(item);
      return Success(saved);
    }
  }

  /** After a creation, a name that differs only in letter case is refused. */
  lemma DuplicateNameIgnoresCase(items: seq<Item>, cmd: CreateItemCommand, freshId: Uuid,
                                 cmd2: CreateItemCommand, freshId2: Uuid)
    requires CreateItemResult(items, cmd, freshId).Success?
    requires SameIgnoringCase(cmd2.name, cmd.name)
    ensures CreateItemResult(items + [CreateItemResult(items, cmd, freshId).value], cmd2, freshId2)
         == Failure(ItemAlreadyExists(cmd2.name))
  {
    var it := CreateItemResult(items, cmd, freshId).value;
    assert (items + [it])[|items|] == it;
  }

  /** Creating "widget" when "Widget" exists fails. */
  lemma LowerCaseNameIsDuplicate(cmd: CreateItemCommand, cmd2: CreateItemCommand, id: Uuid, id2: Uuid)
    requires cmd.name == "Widget" && cmd2.name == "widget"
    ensures CreateItemResult([], cmd, id).Success?
    ensures CreateItemResult([CreateItemResult([], cmd, id).value], cmd2, id2) == Failure(ItemAlreadyExists("widget"))
  {
  }

  /** An item with no stock is accepted like any other. */
  lemma ZeroQuantityAccepted(items: seq<Item>, cmd: CreateItemCommand, freshId: Uuid)
    requires cmd.quantity == 0
    requires forall j :: 0 <= j < |items| ==> !SameIgnoringCase(items[j].name, cmd.name)
    ensures CreateItemResult(items, cmd, freshId) == Success(Item(freshId, cmd.name, cmd.description, cmd.price, 0))
  {
  }
}
