/** The in-memory item catalog: an append-only list scanned front to back. */
module ItemRepository {
  import opened Wrappers
  import opened Domain
  import Scan

  /** The test `find_by_id` applies: exact identifier equality. */
  function HasId(id: Uuid): Item -> bool {
    (it: Item) => it.id == id
  }

  /** The test `find_by_name` applies: name equality ignoring letter case. */
  function HasName(name: string): Item -> bool {
    (it: Item) => SameIgnoringCase(it.name, name)
  }

  class InMemoryItemRepository {
    var items: seq<Item>

    constructor ()
      ensures items == []
    {
      items := [];
    }

    /** Appends `item` to the catalog and hands it back. */
    method Save(item: Item) returns (saved: Item)
      modifies this
      ensures items == old(items) + [item]
      ensures saved == item
    {
      items := items + [item];
      saved := item;
    }

    /**
     * The whole catalog in stored order. A sequence is a value, so the
     * result is a copy: nothing done to it afterwards reaches `items`.
     */
    function ListAll(): (r: seq<Item>)
      reads this
      ensures |r| == |items|
      ensures forall k :: 0 <= k < |r| ==> r[k] == items[k]
    {
      items
    }

    /** The first stored item whose name matches ignoring case; None when no name matches. */
    method FindByName(name: string) returns (r: Option<Item>)
      ensures r == Scan.FirstMatch(items, HasName(name))
    {
      var i := 0;
      while i < |items|
        invariant 0 <= i <= |items|
        invariant forall j :: 0 <= j < i ==> !SameIgnoringCase(items[j].name, name)
      {
        if Lower(items[i].name) == Lower(name) {
          return Some(items[i]);
        }
        i := i + 1;
      }
      return None;
    }

    /** The first stored item with exactly this id; None when there is none. */
    method FindById(id: Uuid) returns (r: Option<Item>)
      ensures r == Scan.FirstMatch(items, HasId(id))
    {
      var i := 0;
      while i < |items|
        invariant 0 <= i <= |items|
        invariant forall j :: 0 <= j < i ==> items[j].id != id
      {
        if items[i].id == id {
          return Some(items[i]);
        }
        i := i + 1;
      }
      return None;
    }
  }

  /** Once an item is saved, a lookup by any spelling of its name that differs only in case finds an item. */
  lemma FindByNameAfterSave(items: seq<Item>, item: Item, name: string)
    requires SameIgnoringCase(name, item.name)
    ensures Scan.FirstMatch(items + [item], HasName(name)).Some?
  {
    Scan.FirstMatchAppend(items, item, HasName(name));
  }

  /** "laptop" and "LAPTOP" both find the stored "Laptop". */
  lemma FindByNameIgnoresCase(item: Item)
    requires item.name == "Laptop"
    ensures Scan.FirstMatch([item], HasName("laptop")) == Some(item)
    ensures Scan.FirstMatch([item], HasName("LAPTOP")) == Some(item)
  {
  }
}
