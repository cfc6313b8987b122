/**
  The decision rules of the list details page (ListDetailsPage.tsx): the
  section constants, the add guard and the draft reset, the bought subset that
  "Delete bought items" removes, the order in which items are shown and the
  fallbacks of the display and of the edit dialog. The page never patches its
  `items` locally: every mutation is followed by a refetch, which here is a
  flag the handlers return.
 */
module ListDetails {

  import opened Wrappers
  import Text

  /** An item as the page receives it: `section` and `quantity` may be absent. */
  datatype Item = Item(id: string, name: string, section: Option<string>, quantity: Option<int>, bought: bool)

  /** The add dialog's draft, `newItem`. */
  datatype Draft = Draft(name: string, quantity: int, section: string)

  datatype Snackbar = Snackbar(open: bool, message: string)

  // ---------------------------------------------------------------------------
  // Constants.

  const Sections: seq<string> := ["Dairy", "Meat", "Vegetables \U{1F955}", "Bakery", "Drinks", "Other"]
  const DefaultSection: string := "Other"

  /** The draft the page starts with. */
  const InitialDraft: Draft := Draft("", 1, DefaultSection)

  const MsgItemAdded := "Item added!"
  const MsgAddFailed := "Failed to add item."
  const MsgNothingToClear := "No bought items to remove!"
  const MsgCleared := "Bought items cleared!"
  const MsgClearFailed := "Failed to clear bought items."

  /** The default section is one of the sections the selects offer. */
  lemma DefaultSectionOffered()
    ensures DefaultSection in Sections && Sections[|Sections| - 1] == DefaultSection
    ensures InitialDraft.section in Sections
  {
    assert Sections[5] == DefaultSection;
  }

  // ---------------------------------------------------------------------------
  // The add guard.

  /** `newItem.name.trim()` is truthy: the name survives ECMAScript trimming. */
  predicate SubmitAllowed(d: Draft)
  {
    Text.Trim(d.name, Text.JsIsSpace) != ""
  }

  /** The guard lets a draft through exactly when its name has a character that is not whitespace. */
  lemma SubmitAllowedIff(d: Draft)
    ensures SubmitAllowed(d) <==> exists i :: 0 <= i < |d.name| && !Text.JsIsSpace(d.name[i])
  {
    Text.TrimEmptyIffAllSpace(d.name, Text.JsIsSpace);
  }

  // ---------------------------------------------------------------------------
  // The bought subset.

  /** `items.filter((item) => item.bought)`. */
  function BoughtItems(items: seq<Item>): (r: seq<Item>)
    ensures |r| <= |items|
  {
    if items == [] then []
    else (if items[0].bought then [items[0]] else []) + BoughtItems(items[1..])
  }

  /** What stays once the bought items are gone. */
  function UnboughtItems(items: seq<Item>): (r: seq<Item>)
    ensures |r| <= |items|
  {
    if items == [] then []
    else (if items[0].bought then [] else [items[0]]) + UnboughtItems(items[1..])
  }

  /** The filter holds exactly the bought items, and its complement exactly the others. */
  lemma {:induction false} BoughtItemsMembers(items: seq<Item>)
    ensures forall x :: x in BoughtItems(items) <==> x in items && x.bought
    ensures forall x :: x in UnboughtItems(items) <==> x in items && !x.bought
  {
    if items != [] {
      BoughtItemsMembers(items[1..]);
      assert items == [items[0]] + items[1..];
    }
  }

  /** The filter keeps list order: filtering a concatenation concatenates the filtered parts. */
  lemma {:induction false} BoughtItemsAppend(a: seq<Item>, b: seq<Item>)
    ensures BoughtItems(a + b) == BoughtItems(a) + BoughtItems(b)
  {
    if a == [] {
      assert a + b == b;
    } else {
      assert (a + b)[0] == a[0] && (a + b)[1..] == a[1..] + b;
      BoughtItemsAppend(a[1..], b);
      calc {
        BoughtItems(a + b);
        (if a[0].bought then [a[0]] else []) + BoughtItems(a[1..] + b);
        (if a[0].bought then [a[0]] else []) + (BoughtItems(a[1..]) + BoughtItems(b));
      }
    }
  }

  /** Nothing to clear exactly when no item is bought. */
  lemma BoughtItemsEmptyIff(items: seq<Item>)
    ensures BoughtItems(items) == [] <==> forall i :: 0 <= i < |items| ==> !items[i].bought
  {
    BoughtItemsMembers(items);
    if BoughtItems(items) != [] {
      var x := BoughtItems(items)[0];
      assert x in BoughtItems(items);
    } else {
      forall i | 0 <= i < |items|
        ensures !items[i].bought
      {
        assert items[i] in items;
      }
    }
  }

  /** Bought and unbought items split the list: every item lands in exactly one part. */
  lemma {:induction false} BoughtPartition(items: seq<Item>)
    ensures multiset(BoughtItems(items)) + multiset(UnboughtItems(items)) == multiset(items)
  {
    if items != [] {
      var x := items[0];
      BoughtPartition(items[1..]);
      assert multiset(BoughtItems(items)) == multiset(if x.bought then [x] else []) + multiset(BoughtItems(items[1..]));
      assert multiset(UnboughtItems(items)) == multiset(if x.bought then [] else [x]) + multiset(UnboughtItems(items[1..]));
      assert items == [x] + items[1..];
    }
  }

  /** The IDs `handleClearBought` deletes, one request each, in list order. */
  function ClearTargets(items: seq<Item>): (ids: seq<string>)
    ensures |ids| == |BoughtItems(items)|
  {
    if items == [] then []
    else (if items[0].bought then [items[0].id] else []) + ClearTargets(items[1..])
  }

  /** A delete is sent for an ID exactly when some bought item carries it. */
  lemma {:induction false} ClearTargetsMembers(items: seq<Item>, id: string)
    ensures id in ClearTargets(items) <==> exists i :: 0 <= i < |items| && items[i].bought && items[i].id == id
  {
    if items != [] {
      ClearTargetsMembers(items[1..], id);
      if id in ClearTargets(items[1..]) {
        var i :| 0 <= i < |items[1..]| && items[1..][i].bought && items[1..][i].id == id;
        assert items[i + 1] == items[1..][i];
      }
      if exists i :: 0 <= i < |items| && items[i].bought && items[i].id == id {
        var i :| 0 <= i < |items| && items[i].bought && items[i].id == id;
        if i > 0 {
          assert items[1..][i - 1] == items[i];
        }
      }
    }
  }

  /** The targets follow list order: the targets of a concatenation are the concatenated targets. */
  lemma {:induction false} ClearTargetsAppend(a: seq<Item>, b: seq<Item>)
    ensures ClearTargets(a + b) == ClearTargets(a) + ClearTargets(b)
  {
    if a == [] {
      assert a + b == b;
    } else {
      assert (a + b)[0] == a[0] && (a + b)[1..] == a[1..] + b;
      ClearTargetsAppend(a[1..], b);
      calc {
        ClearTargets(a + b);
        (if a[0].bought then [a[0].id] else []) + ClearTargets(a[1..] + b);
        (if a[0].bought then [a[0].id] else []) + (ClearTargets(a[1..]) + ClearTargets(b));
      }
    }
  }

  /** The k-th delete is for the k-th item of the bought subset: one request per target. */
  lemma {:induction false} ClearTargetsOfBought(items: seq<Item>, k: nat)
    requires k < |BoughtItems(items)|
    ensures ClearTargets(items)[k] == BoughtItems(items)[k].id
  {
    if !items[0].bought {
      ClearTargetsOfBought(items[1..], k);
    } else if k > 0 {
      ClearTargetsOfBought(items[1..], k - 1);
    }
  }

  // ---------------------------------------------------------------------------
  // The display order: `[...items].sort((a, b) => (a.section || "").localeCompare(b.section || ""))`.

  /** `a.section || ""`. */
  function SortKey(x: Item): string
  {
    if x.section.Some? then x.section.value else ""
  }

  /** Code-point lexicographic order, standing in for `localeCompare`. */
  predicate LexLe(a: string, b: string)
    decreases |a|
  {
    |a| == 0 || (|b| > 0 && (a[0] < b[0] || (a[0] == b[0] && LexLe(a[1..], b[1..]))))
  }

  lemma {:induction false} LexLeRefl(a: string)
    ensures LexLe(a, a)
    decreases |a|
  {
    if |a| > 0 {
      LexLeRefl(a[1..]);
    }
  }

  lemma {:induction false} LexLeTotal(a: string, b: string)
    ensures LexLe(a, b) || LexLe(b, a)
    decreases |a|
  {
    if |a| > 0 && |b| > 0 && a[0] == b[0] {
      LexLeTotal(a[1..], b[1..]);
    }
  }

  lemma {:induction false} LexLeTrans(a: string, b: string, c: string)
    requires LexLe(a, b) && LexLe(b, c)
    ensures LexLe(a, c)
    decreases |a|
  {
    if |a| > 0 && a[0] == b[0] && b[0] == c[0] {
      LexLeTrans(a[1..], b[1..], c[1..]);
    }
  }

  predicate SortedBySection(s: seq<Item>)
  {
    forall i, j :: 0 <= i < j < |s| ==> LexLe(SortKey(s[i]), SortKey(s[j]))
  }

  /** Puts `x` in front of the first item whose key is not below its own. */
  function Insert(x: Item, s: seq<Item>): seq<Item>
  {
    if s == [] || LexLe(SortKey(x), SortKey(s[0])) then [x] + s
    else [s[0]] + Insert(x, s[1..])
  }

  /**
    The order in which the page lists the items: a stable sort by section,
    inserting each item in front of the sorted rest, on a copy of `items`.
   */
  function DisplayOrder(items: seq<Item>): seq<Item>
  {
    if items == [] then [] else Insert(items[0], DisplayOrder(items[1..]))
  }

  lemma {:induction false} InsertPermutes(x: Item, s: seq<Item>)
    ensures multiset(Insert(x, s)) == multiset(s) + multiset{x}
  {
    if s != [] && !LexLe(SortKey(x), SortKey(s[0])) {
      InsertPermutes(x, s[1..]);
      assert s == [s[0]] + s[1..];
    }
  }

  lemma {:induction false} InsertSorted(x: Item, s: seq<Item>)
    requires SortedBySection(s)
    ensures SortedBySection(Insert(x, s))
  {
    var r := Insert(x, s);
    if s == [] {
    } else if LexLe(SortKey(x), SortKey(s[0])) {
      forall i, j | 0 <= i < j < |r|
        ensures LexLe(SortKey(r[i]), SortKey(r[j]))
      {
        if i == 0 && j > 1 {
          LexLeTrans(SortKey(x), SortKey(s[0]), SortKey(s[j - 1]));
        }
      }
    } else {
      var t := Insert(x, s[1..]);
      InsertSorted(x, s[1..]);
      InsertPermutes(x, s[1..]);
      LexLeTotal(SortKey(x), SortKey(s[0]));
      forall j | 1 <= j < |r|
        ensures LexLe(SortKey(s[0]), SortKey(r[j]))
      {
        assert r[j] == t[j - 1];
        assert t[j - 1] in multiset(t);
        if t[j - 1] != x {
          assert t[j - 1] in multiset(s[1..]);
          var k :| 0 <= k < |s[1..]| && s[1..][k] == t[j - 1];
          assert s[k + 1] == t[j - 1];
        }
      }
      forall i, j | 0 <= i < j < |r|
        ensures LexLe(SortKey(r[i]), SortKey(r[j]))
      {
        if i > 0 {
          assert r[i] == t[i - 1] && r[j] == t[j - 1];
        }
      }
    }
  }

  /** The displayed list holds exactly the page's items, each as often as before. */
  lemma {:induction false} DisplayOrderPermutes(items: seq<Item>)
    ensures multiset(DisplayOrder(items)) == multiset(items)
  {
    if items != [] {
      DisplayOrderPermutes(items[1..]);
      InsertPermutes(items[0], DisplayOrder(items[1..]));
      assert items == [items[0]] + items[1..];
    }
  }

  /** The displayed list is ordered by section, a missing section counting as "". */
  lemma {:induction false} DisplayOrderSorted(items: seq<Item>)
    ensures SortedBySection(DisplayOrder(items))
  {
    if items != [] {
      DisplayOrderSorted(items[1..]);
      InsertSorted(items[0], DisplayOrder(items[1..]));
    }
  }

  /** The items of section `k`, in the order they come. */
  function WithKey(s: seq<Item>, k: string): seq<Item>
  {
    if s == [] then [] else (if SortKey(s[0]) == k then [s[0]] else []) + WithKey(s[1..], k)
  }

  lemma {:induction false} InsertWithKey(x: Item, s: seq<Item>, k: string)
    ensures WithKey(Insert(x, s), k) == (if SortKey(x) == k then [x] else []) + WithKey(s, k)
  {
    if s == [] || LexLe(SortKey(x), SortKey(s[0])) {
      assert ([x] + s)[1..] == s;
    } else {
      LexLeRefl(SortKey(x));
      assert SortKey(s[0]) != SortKey(x);
      InsertWithKey(x, s[1..], k);
      assert ([s[0]] + Insert(x, s[1..]))[1..] == Insert(x, s[1..]);
    }
  }

  /** Stability: items of the same section are shown in the order the page holds them. */
  lemma {:induction false} DisplayOrderStable(items: seq<Item>, k: string)
    ensures WithKey(DisplayOrder(items), k) == WithKey(items, k)
  {
    if items != [] {
      DisplayOrderStable(items[1..], k);
      InsertWithKey(items[0], DisplayOrder(items[1..]), k);
    }
  }

  /** A list already in section order is shown as it is. */
  lemma {:induction false} DisplayOrderOfSorted(items: seq<Item>)
    requires SortedBySection(items)
    ensures DisplayOrder(items) == items
  {
    if items != [] {
      assert SortedBySection(items[1..]) by {
        forall i, j | 0 <= i < j < |items[1..]|
          ensures LexLe(SortKey(items[1..][i]), SortKey(items[1..][j]))
        {
          assert items[1..][i] == items[i + 1] && items[1..][j] == items[j + 1];
        }
      }
      DisplayOrderOfSorted(items[1..]);
      assert items == [items[0]] + items[1..];
    }
  }

  /** Sorting what is shown changes nothing more. */
  lemma DisplayOrderIdempotent(items: seq<Item>)
    ensures DisplayOrder(DisplayOrder(items)) == DisplayOrder(items)
  {
    DisplayOrderSorted(items);
    DisplayOrderOfSorted(DisplayOrder(items));
  }

  /** Two lists that differ at most in the `bought` flags. */
  predicate SameButBought(a: seq<Item>, b: seq<Item>)
  {
    |a| == |b| && forall i :: 0 <= i < |a| ==> a[i].(bought := b[i].bought) == b[i]
  }

  lemma {:induction false} InsertIgnoresBought(x: Item, y: Item, s: seq<Item>, t: seq<Item>)
    requires x.(bought := y.bought) == y && SameButBought(s, t)
    ensures SameButBought(Insert(x, s), Insert(y, t))
  {
    if s != [] {
      assert SortKey(s[0]) == SortKey(t[0]);
      if !LexLe(SortKey(x), SortKey(s[0])) {
        InsertIgnoresBought(x, y, s[1..], t[1..]);
      }
    }
  }

  /**
    `bought` is no sort key: flipping any items' `bought` flags shows the same
    items in the same positions, only with the new flags.
   */
  lemma {:induction false} DisplayOrderIgnoresBought(a: seq<Item>, b: seq<Item>)
    requires SameButBought(a, b)
    ensures SameButBought(DisplayOrder(a), DisplayOrder(b))
  {
    if a != [] {
      DisplayOrderIgnoresBought(a[1..], b[1..]);
      InsertIgnoresBought(a[0], b[0], DisplayOrder(a[1..]), DisplayOrder(b[1..]));
    }
  }

  /** A bought item can be shown above an unbought one: within a section the input order wins. */
  lemma BoughtCanPrecedeUnbought()
    ensures var milk := Item("1", "Milk", Some("Dairy"), Some(1), true);
      var cheese := Item("2", "Cheese", Some("Dairy"), Some(1), false);
      DisplayOrder([milk, cheese]) == [milk, cheese]
  {
    var milk := Item("1", "Milk", Some("Dairy"), Some(1), true);
    var cheese := Item("2", "Cheese", Some("Dairy"), Some(1), false);
    LexLeRefl("Dairy");
    assert DisplayOrder([cheese]) == [cheese];
  }

  // ---------------------------------------------------------------------------
  // Fallbacks.

  /** `item.section || DEFAULT_SECTION` in the item's secondary text. */
  function DisplaySection(x: Item): (r: string)
    ensures r != ""
    ensures x.section.Some? && x.section.value != "" ==> r == x.section.value
    ensures x.section.None? || x.section.value == "" ==> r == DefaultSection
  {
    if x.section.Some? && x.section.value != "" then x.section.value else DefaultSection
  }

  /** `editItem?.name || ""`. */
  function EditName(edit: Option<Item>): string
  {
    if edit.Some? then edit.value.name else ""
  }

  /** `editItem?.quantity || 1`: an absent or zero quantity shows as 1. */
  function EditQuantity(edit: Option<Item>): (q: int)
    ensures q != 0
    ensures edit.Some? && edit.value.quantity.Some? && edit.value.quantity.value != 0 ==> q == edit.value.quantity.value
    ensures edit.None? || edit.value.quantity.None? || edit.value.quantity.value == 0 ==> q == 1
  {
    if edit.Some? && edit.value.quantity.Some? && edit.value.quantity.value != 0 then edit.value.quantity.value else 1
  }

  /** `editItem?.section || DEFAULT_SECTION`: the dialog's select agrees with the list's display. */
  function EditSection(edit: Option<Item>): (r: string)
    ensures edit.None? ==> r == DefaultSection
    ensures edit.Some? ==> r == DisplaySection(edit.value)
  {
    if edit.Some? && edit.value.section.Some? && edit.value.section.value != "" then edit.value.section.value else DefaultSection
  }

  /**
    The edit dialog opens on the item as the list shows it: its name, the
    section the list displays, and its quantity unless that is absent or 0.
   */
  lemma EditDialogMatchesDisplay(x: Item)
    ensures EditName(Some(x)) == x.name
    ensures EditSection(Some(x)) == DisplaySection(x)
    ensures x.quantity.Some? && x.quantity.value != 0 ==> EditQuantity(Some(x)) == x.quantity.value
  {
  }

  // ---------------------------------------------------------------------------
  // The page's state and its two handlers with decisions of their own.

  class DetailsPage {
    var items: seq<Item>
    var newItem: Draft
    var open: bool
    var snackbar: Snackbar

    /** The initial `useState` values. */
    constructor ()
      ensures items == [] && newItem == InitialDraft && !open && snackbar == Snackbar(false, "")
    {
      items := [];
      newItem := Draft("", 1, DefaultSection);
      open := false;
      snackbar := Snackbar(false, "");
    }

    /**
      `handleAddItem`. `postSucceeds` is the outcome of the POST; `posted` is
      the body sent, if any, and `refetch` says whether `fetchItems` runs.
     */
    method HandleAddItem(postSucceeds: bool) returns (posted: Option<Draft>, refetch: bool)
      modifies this
      ensures !SubmitAllowed(old(newItem)) ==>
        posted == None && !refetch
        && items == old(items) && newItem == old(newItem) && open == old(open) && snackbar == old(snackbar)
      ensures SubmitAllowed(old(newItem)) ==> posted == Some(old(newItem)) && items == old(items)
      ensures SubmitAllowed(old(newItem)) && postSucceeds ==>
        snackbar == Snackbar(true, MsgItemAdded) && newItem == InitialDraft && !open && refetch
      ensures SubmitAllowed(old(newItem)) && !postSucceeds ==>
        snackbar == Snackbar(true, MsgAddFailed) && newItem == old(newItem) && open == old(open) && !refetch
    {
      if Text.Trim(newItem.name, Text.JsIsSpace) == "" {
        return None, false;
      }
      posted := Some(newItem);
      if postSucceeds {
        snackbar := Snackbar(true, MsgItemAdded);
        newItem := Draft("", 1, "Other");
        open := false;
        refetch := true;
      } else {
        snackbar := Snackbar(true, MsgAddFailed);
        refetch := false;
      }
    }

    /**
      `handleClearBought`. `deleted` are the item IDs a DELETE is sent for;
      `deletesSucceed` is whether all of them succeed.
     */
    method HandleClearBought(deletesSucceed: bool) returns (deleted: seq<string>, refetch: bool)
      modifies this
      ensures deleted == ClearTargets(old(items))
      ensures items == old(items) && newItem == old(newItem) && open == old(open)
      ensures BoughtItems(old(items)) == [] ==> snackbar == Snackbar(true, MsgNothingToClear) && !refetch
      ensures BoughtItems(old(items)) != [] && deletesSucceed ==> snackbar == Snackbar(true, MsgCleared) && refetch
      ensures BoughtItems(old(items)) != [] && !deletesSucceed ==> snackbar == Snackbar(true, MsgClearFailed) && !refetch
    {
      var boughtItems := BoughtItems(items);
      if |boughtItems| == 0 {
        snackbar := Snackbar(true, MsgNothingToClear);
        return [], false;
      }
      deleted := ClearTargets(items);
      if deletesSucceed {
        snackbar := Snackbar(true, MsgCleared);
        refetch := true;
      } else {
        snackbar := Snackbar(true, MsgClearFailed);
        refetch := false;
      }
    }
  }
}
