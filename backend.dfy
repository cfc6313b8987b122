/**
  The Go server's handlers (main.go) over its package-level state, minus the
  HTTP plumbing: a request body arrives already decoded (`None` when the JSON
  decoder fails), and the response is returned instead of written. Each
  handler's `for i := range lists` search is the lookup method of this class
  followed by the branch the handler takes on the index it stops at; every
  method is proved to leave the store, and to answer, exactly as the matching
  function of `BackendSpec` says.
 */
module Backend {

  import opened Wrappers
  import opened Decimal
  import opened BackendSpec

  class Store {
    var lists: seq<List>
    var nextListID: nat
    var nextItemID: nat

    function State(): StoreState
      reads this
    {
      StoreState(lists, nextListID, nextItemID)
    }

    /** List IDs come from `nextListID`; every handler keeps this. */
    ghost predicate Valid()
      reads this
    {
      ListIdsValid(State())
    }

    /** `var lists []List`, `nextListID = 1`, `nextItemID = 1`. */
    constructor ()
      ensures Valid() && State() == Initial
    {
      lists := [];
      nextListID := 1;
      nextItemID := 1;
    }

    // -------------------------------------------------------------------------
    // The range loops the handlers share.

    /** The loop over `lists` that stops at the first list with the ID. */
    method LookupList(listId: string) returns (found: Option<nat>)
      ensures found == FindList(lists, listId)
    {
      var i := 0;
      while i < |lists|
        invariant 0 <= i <= |lists|
        invariant forall j :: 0 <= j < i ==> lists[j].id != listId
      {
        if lists[i].id == listId {
          FindListFirst(lists, listId, i);
          return Some(i);
        }
        i := i + 1;
      }
      return None;
    }

    /** The loop over one list's items that stops at the first item with the ID. */
    static method LookupItem(items: seq<Item>, itemId: string) returns (found: Option<nat>)
      ensures found == FindItem(items, itemId)
    {
      var i := 0;
      while i < |items|
        invariant 0 <= i <= |items|
        invariant forall j :: 0 <= j < i ==> items[j].id != itemId
      {
        if items[i].id == itemId {
          FindItemFirst(items, itemId, i);
          return Some(i);
        }
        i := i + 1;
      }
      return None;
    }

    /** `createListHandler`'s duplicate loop: stored names are lower-cased, not trimmed. */
    method ListNameInUse(newName: string) returns (taken: bool)
      ensures taken == ListNameTaken(lists, newName)
    {
      var i := 0;
      while i < |lists|
        invariant 0 <= i <= |lists|
        invariant forall j :: 0 <= j < i ==> ToLower(lists[j].name) != newName
      {
        if ToLower(lists[i].name) == newName {
          return true;
        }
        i := i + 1;
      }
      return false;
    }

    /** `addItemToListHandler`'s duplicate loop: stored names are trimmed and lower-cased. */
    static method ItemNameInUse(items: seq<Item>, newName: string) returns (taken: bool)
      ensures taken == ItemNameTaken(items, newName)
    {
      var i := 0;
      while i < |items|
        invariant 0 <= i <= |items|
        invariant forall j :: 0 <= j < i ==> ToLower(TrimSpace(items[j].name)) != newName
      {
        if ToLower(TrimSpace(items[i].name)) == newName {
          return true;
        }
        i := i + 1;
      }
      return false;
    }

    // -------------------------------------------------------------------------
    // The handlers.

    /** `createListHandler`. */
    method CreateList(body: Option<List>) returns (r: Response<List>)
      requires Valid()
      modifies this
      ensures Step(State(), r) == BackendSpec.CreateList(old(State()), body)
      ensures Valid()
    {
      if body.None? || TrimSpace(body.value.name) == "" {
        return BadRequest(MsgBadListBody);
      }
      var newList := body.value;
      var taken := ListNameInUse(ToLower(TrimSpace(newList.name)));
      if taken {
        return Conflict(MsgListExists);
      }
      ghost var s0 := State();
      newList := newList.(id := NatToString(nextListID));
      nextListID := nextListID + 1;
      lists := lists + [newList];
      r := Created(newList);
      NextKeepsListIds(s0, CreateListRequest(body));
    }

    /** `getAllListsHandler`: the summaries of all lists, in order. */
    method GetAllLists() returns (r: Response<seq<Summary>>)
      ensures r == BackendSpec.GetAllLists(State())
    {
      var summaries: seq<Summary> := [];
      var i := 0;
      while i < |lists|
        invariant 0 <= i <= |lists| && |summaries| == i
        invariant forall k :: 0 <= k < i ==> summaries[k] == Summary(lists[k].id, lists[k].name)
      {
        summaries := summaries + [Summary(lists[i].id, lists[i].name)];
        i := i + 1;
      }
      assert summaries == Summaries(lists);
      r := Ok(summaries);
    }

    /** `deleteListHandler`. */
    method DeleteList(listId: string) returns (r: Response<()>)
      requires Valid()
      modifies this
      ensures Step(State(), r) == BackendSpec.DeleteList(old(State()), listId)
      ensures Valid()
    {
      var found := LookupList(listId);
      if found.None? {
        return NotFound([MsgListNotFound]);
      }
      ghost var s0 := State();
      var i := found.value;
      lists := lists[..i] + lists[i + 1..];
      r := Ok(());
      NextKeepsListIds(s0, DeleteListRequest(listId));
    }

    /** `addItemToListHandler`: the list is found before the body is decoded. */
    method AddItem(listId: string, body: Option<Item>) returns (r: Response<Item>)
      requires Valid()
      modifies this
      ensures Step(State(), r) == BackendSpec.AddItem(old(State()), listId, body)
      ensures Valid()
    {
      var found := LookupList(listId);
      if found.None? {
        return NotFound([MsgListNotFound]);
      }
      var li := found.value;
      if body.None? {
        return BadRequest(MsgBadBody);
      }
      var newItem := body.value;
      var taken := ItemNameInUse(lists[li].items, ToLower(TrimSpace(newItem.name)));
      if taken {
        return Conflict(MsgItemExists);
      }
      ghost var s0 := State();
      newItem := newItem.(id := NatToString(nextItemID), bought := false);
      nextItemID := nextItemID + 1;
      lists := lists[li := lists[li].(items := lists[li].items + [newItem])];
      r := Created(newItem);
      SetItemsKeepsListIds(s0, li, lists[li].items, nextItemID);
    }

    /** `getItemsFromListHandler`. */
    method GetItems(listId: string) returns (r: Response<seq<Item>>)
      ensures r == BackendSpec.GetItems(State(), listId)
    {
      var found := LookupList(listId);
      if found.None? {
        return NotFound([MsgListNotFound]);
      }
      return Ok(lists[found.value].items);
    }

    /** `updateItemInListHandler`: the body is decoded first, then three in-place field writes. */
    method UpdateItem(listId: string, itemId: string, body: Option<Item>) returns (r: Response<Item>)
      requires Valid()
      modifies this
      ensures Step(State(), r) == BackendSpec.UpdateItem(old(State()), listId, itemId, body)
      ensures Valid()
    {
      if body.None? {
        return BadRequest(MsgBadBody);
      }
      var updated := body.value;
      var found := LookupList(listId);
      if found.None? {
        return NotFound([MsgListNotFound]);
      }
      var li := found.value;
      var at := LookupItem(lists[li].items, itemId);
      if at.None? {
        return NotFound([MsgItemNotFound]);
      }
      var i := at.value;
      ghost var s0 := State();
      ghost var merged := MergeUpdate(lists[li].items[i], updated);
      UpdateItemAt(s0, listId, itemId, updated, li, i);
      if updated.name != "" {
        lists := SetItem(lists, li, i, lists[li].items[i].(name := updated.name));
      }
      if updated.section != "" {
        lists := SetItem(lists, li, i, lists[li].items[i].(section := updated.section));
      }
      if updated.quantity > 0 {
        lists := SetItem(lists, li, i, lists[li].items[i].(quantity := updated.quantity));
      }
      SetItemWrites(s0.lists, li, i, updated, lists);
      r := Ok(lists[li].items[i]);
      SetItemsKeepsListIds(s0, li, lists[li].items, nextItemID);
    }

    /** `deleteItemInListHandler`. */
    method DeleteItem(listId: string, itemId: string) returns (r: Response<()>)
      requires Valid()
      modifies this
      ensures Step(State(), r) == BackendSpec.DeleteItem(old(State()), listId, itemId)
      ensures Valid()
    {
      var found := LookupList(listId);
      if found.None? {
        return NotFound([MsgListNotFound]);
      }
      var li := found.value;
      var items := lists[li].items;
      var at := LookupItem(items, itemId);
      if at.None? {
        return NotFound([MsgItemNotFound]);
      }
      ghost var s0 := State();
      var i := at.value;
      lists := SetItems(lists, li, items[..i] + items[i + 1..]);
      r := Ok(());
      SetItemsKeepsListIds(s0, li, lists[li].items, nextItemID);
    }

    /**
      The range loop of `toggleItemInListHandler`. As in the source, a matching
      list without the item does not end the loop: the handler records "item not
      found" and goes on with the remaining lists. Distinct list IDs (Valid) make
      the list it stops at the first-match one of the spec.
     */
    method ScanForToggle(listId: string, itemId: string) returns (hit: Option<(nat, nat)>, written: seq<string>)
      requires Valid()
      ensures hit.Some? <==>
        FindList(lists, listId).Some? && FindItem(lists[FindList(lists, listId).value].items, itemId).Some?
      ensures hit.Some? ==>
        && hit.value.0 == FindList(lists, listId).value
        && hit.value.1 == FindItem(lists[hit.value.0].items, itemId).value
      ensures hit.None? ==> written == if FindList(lists, listId).None? then [] else [MsgItemNotFound]
    {
      written := [];
      var li := 0;
      while li < |lists|
        invariant 0 <= li <= |lists|
        invariant forall j :: 0 <= j < li && lists[j].id == listId ==> FindItem(lists[j].items, itemId).None?
        invariant written == [] || written == [MsgItemNotFound]
        invariant written == [] <==> forall j :: 0 <= j < li ==> lists[j].id != listId
      {
        if lists[li].id == listId {
          var at := LookupItem(lists[li].items, itemId);
          if at.Some? {
            forall j | 0 <= j < li
              ensures lists[j].id != listId
            {
              // list IDs strictly increase along `lists`
              assert ParseNat(lists[j].id) < ParseNat(lists[li].id);
            }
            FindListFirst(lists, listId, li);
            return Some((li, at.value)), written;
          }
          written := written + [MsgItemNotFound];
        }
        li := li + 1;
      }
      hit := None;
      if written != [] {
        var k := FindList(lists, listId).value;
        assert FindItem(lists[k].items, itemId).None?;
      }
    }

    /** `toggleItemInListHandler`: the flag of the item found is flipped in place. */
    method ToggleItem(listId: string, itemId: string) returns (r: Response<Item>)
      requires Valid()
      modifies this
      ensures Step(State(), r) == BackendSpec.ToggleItem(old(State()), listId, itemId)
      ensures Valid()
    {
      var hit, written := ScanForToggle(listId, itemId);
      if hit.None? {
        ToggleItemMissing(State(), listId, itemId, written);
        return NotFound(written + [MsgListNotFound]);
      }
      ghost var s0 := State();
      var li, i := hit.value.0, hit.value.1;
      var item := lists[li].items[i];
      var flipped := item.(bought := !item.bought);
      ToggleItemAt(s0, listId, itemId, li, i);
      SetItemsKeepsListIds(s0, li, lists[li].items[i := flipped], nextItemID);
      lists := SetItem(lists, li, i, flipped);
      r := Ok(flipped);
    }
  }
}
