# goshopping: the list/item store and the list page's rules, in Dafny

goshopping is a shared shopping-list manager. A Go server (`main.go`) keeps
every shopping list in memory: a slice of lists, each holding its items, and
two counters from which list IDs and item IDs are drawn. Eight HTTP handlers
create, list and delete lists and add, fetch, update, delete and toggle
items. A React page (`frontend/src/pages/ListDetailsPage.tsx`) shows one
list's items ordered by section, guards the add dialog against blank names,
resets its draft after an add and removes all bought items on request.

This project models both parts.

- `Backend.Store` is a class with the server's three package-level variables
  as fields (`lists`, `nextListID`, `nextItemID`) and one method per handler.
  Request bodies arrive already decoded: `None` stands for a JSON decode
  failure. Responses are a `Response` value: `Created`, `Ok`, `BadRequest`,
  `Conflict` or `NotFound`, with the texts the handlers write. The methods keep
  the handlers' `for ... range` loops and in-place writes. Each method,
  `GetAllLists` included, is proved to leave the store, and to answer, exactly
  as a pure function of `BackendSpec` says.
- `BackendSpec` holds those functions and the properties proved about them.
  A successful create or add takes the counter's decimal form as the new ID
  and bumps the counter. Deletes remove exactly the addressed entry. Toggling
  twice restores the store. List IDs stay pairwise distinct across any
  sequence of requests. Item IDs do too, provided no create request carries
  items of its own.
- `ListDetails` holds the page's rules as functions and lemmas. Its
  `DetailsPage` class models the two handlers that decide something of their
  own, `handleAddItem` and `handleClearBought`, over the page's React state.
- `Decimal` renders a counter as `fmt.Sprintf("%d", n)` does and parses it
  back. `Text` holds trimming, with Go's and ECMAScript's whitespace sets, and
  ASCII lower-casing.

Some behaviours of the code worth noting:

- After every mutation the page refetches the items (`fetchItems()`); it never
  patches its local items.
- The display order is by section only. Bought items are not sorted last.
- An edit is a partial merge on the server: an empty name, an empty section or
  a quantity of 0 or less leaves that field as it was.
- List names are not unique in general. A new name is trimmed and lower-cased,
  but a stored name is only lower-cased, so " Milk" and "milk" can coexist.
- A create request can carry items of its own, and they are stored unchecked.
  Item IDs are therefore unique only for request sequences whose creates carry
  no items (`BackendSpec.ReachableIdsDistinct`).
  `BackendSpec.CreateListMayDuplicateItemIds` shows a store with two items
  sharing one ID.

## Model

| member | source | states |
|---|---|---|
| `Backend.Store.constructor` | main.go:32-34 | the store starts with no lists and both counters at 1, and satisfies the list-ID invariant |
| `Backend.Store.LookupList` | main.go:111-112 | the range loop returns the index of the first list with the ID, or `None` exactly when no list has it |
| `Backend.Store.LookupItem` | main.go:178-179 | the range loop over a list's items returns the index of the first item with the ID, or `None` exactly when none has it |
| `Backend.Store.ListNameInUse` | main.go:48-54 | the duplicate loop answers true exactly when some stored name, lower-cased but untrimmed, equals the trimmed, lower-cased new name |
| `Backend.Store.ItemNameInUse` | main.go:119-125 | the duplicate loop answers true exactly when some stored item name, trimmed and lower-cased, equals the new one |
| `Backend.Store.CreateList` | main.go:39-67 | the new state and the response are those of `BackendSpec.CreateList`; the list-ID invariant is kept |
| `Backend.Store.GetAllLists` | main.go:70-85 | the range loop builds the answer of `BackendSpec.GetAllLists` and nothing changes |
| `BackendSpec.GetAllLists` | main.go:70-85 | answers `Ok` with one summary per list (`Summaries`), in order, carrying that list's ID and name and nothing else |
| `Backend.Store.DeleteList` | main.go:88-103 | the new state and the response are those of `BackendSpec.DeleteList`; the invariant is kept |
| `Backend.Store.AddItem` | main.go:106-143 | the new state and the response are those of `BackendSpec.AddItem`; the invariant is kept |
| `Backend.Store.GetItems` | main.go:146-162 | the response is that of `BackendSpec.GetItems` and nothing changes |
| `Backend.Store.UpdateItem` | main.go:165-204 | the three conditional in-place field writes leave the state and the response of `BackendSpec.UpdateItem` |
| `Backend.Store.DeleteItem` | main.go:207-229 | the splice leaves the state and the response of `BackendSpec.DeleteItem` |
| `Backend.Store.ScanForToggle` | main.go:237-252 | the range loop, which goes on past "item not found", stops at the first list with the ID exactly when that list holds the item, at the first such item; otherwise it has written "item not found" once exactly when some list has the ID, because list IDs are distinct |
| `Backend.Store.ToggleItem` | main.go:232-254 | the in-place flip of the bought flag at the item the scan found leaves the state and the response of `BackendSpec.ToggleItem`; the invariant is kept |
| `BackendSpec.FindList` | main.go:111-112 | the lookup gives the first index whose list has the ID, and `None` exactly when no list has it |
| `BackendSpec.FindItem` | main.go:178-179 | the lookup gives the first index whose item has the ID, and `None` exactly when no item has it |
| `BackendSpec.CreateList` | main.go:39-59 | BadRequest exactly for a decode failure or a blank name; Conflict exactly when a stored lower-cased name equals the trimmed lower-cased new one; both leave the store unchanged; otherwise the body, with ID `NatToString(nextListID)` and its own items, is appended, `nextListID` goes up by 1 and nothing else changes |
| `BackendSpec.DeleteList` | main.go:88-103 | Ok exactly when some list has the ID, and then that list is spliced out; NotFound("list not found") otherwise, with the store unchanged; the counters never change |
| `BackendSpec.AddItem` | main.go:106-143 | an unknown list gives NotFound and a decode failure BadRequest, both with the store unchanged; Conflict exactly when a stored name matches under trim and lower-case on both sides; Created exactly when the list exists, the body decodes and no name matches, and then the item gets ID `NatToString(nextItemID)` and `bought` false, is appended to that list only, and `nextItemID` goes up by 1 |
| `BackendSpec.GetItems` | main.go:146-162 | Ok with the items of the list exactly when some list has the ID, NotFound("list not found") otherwise |
| `BackendSpec.MergeUpdate` | main.go:180-189 | the ID and the bought flag are kept; the name is replaced only by a non-empty name, the section only by a non-empty section, the quantity only by a positive quantity; each field otherwise keeps its old value |
| `BackendSpec.UpdateItem` | main.go:165-204 | a decode failure gives BadRequest before any lookup; an unknown list gives NotFound("list not found") and a known list without the item NotFound("item not found"); Ok exactly when the list and the item exist, and then only that item changes, to the merge; every other outcome leaves the store unchanged |
| `BackendSpec.DeleteItem` | main.go:207-229 | Ok exactly when the list and the item exist, and then that item is spliced out of that list; otherwise NotFound("list not found") or, for a known list, NotFound("item not found"), with the store unchanged |
| `BackendSpec.ToggleItem` | main.go:232-254 | Ok exactly when the list and the item exist, and then only that item's bought flag flips; an unknown list gives NotFound("list not found"); a known list without the item gives both texts, "item not found" then "list not found"; failures leave the store unchanged |
| `BackendSpec.ListIdsValidDistinct` | main.go:56-57 | list IDs drawn from the increasing counter are pairwise distinct |
| `BackendSpec.CreateListKeepsInvariants` | main.go:56-59 | create keeps list IDs valid, and keeps item IDs fresh when the body carries no items |
| `BackendSpec.DeleteListKeepsInvariants` | main.go:92-94 | deleting a list keeps both ID invariants |
| `BackendSpec.AddItemKeepsInvariants` | main.go:127-131 | adding an item keeps both ID invariants: the new ID is the counter, above every ID in use |
| `BackendSpec.UpdateItemKeepsInvariants` | main.go:180-189 | an update touches no ID, so both invariants are kept |
| `BackendSpec.DeleteItemKeepsInvariants` | main.go:214-216 | deleting an item keeps both ID invariants |
| `BackendSpec.ToggleItemKeepsInvariants` | main.go:239-241 | a toggle touches no ID, so both invariants are kept |
| `BackendSpec.NextKeepsInvariants` | main.go:259-267 | `Next` routes each request to its handler; every routed request keeps the list-ID invariant, and every one except a create carrying items keeps the item-ID one |
| `BackendSpec.RunKeepsInvariants` | main.go:32-34 | the invariants hold after any sequence of requests from a state where they hold |
| `BackendSpec.ReachableIdsDistinct` | main.go:33-34 | from the empty store, list IDs are always pairwise distinct, and item IDs across all lists are too when no create carries items |
| `BackendSpec.CreateListMayDuplicateItemIds` | main.go:40-59 | a create whose body carries two items with one ID stores both |
| `BackendSpec.DeleteListRemovesExactly` | main.go:92-94 | with valid list IDs, deleting a list leaves exactly the other lists, in their order |
| `BackendSpec.ListsWithoutMembers` | main.go:92-94 | the reference "all lists but the one with the ID" keeps exactly the lists with another ID |
| `BackendSpec.ItemsWithoutMembers` | main.go:214-216 | the reference "all items but the one with the ID" keeps exactly the items with another ID |
| `BackendSpec.DeleteItemRemovesExactly` | main.go:212-222 | with distinct item IDs within the list, deleting an item leaves that list with exactly its other items in their order; the other lists and both counters do not change |
| `BackendSpec.ToggleTwiceRestores` | main.go:239-241 | toggling the same item twice restores the whole store, and the second answer has the flag flipped back |
| `BackendSpec.MergeUpdateIdempotent` | main.go:180-189 | applying the same update twice is the same as applying it once |
| `BackendSpec.UpdateItemCanDuplicateNames` | main.go:176-189 | update makes no duplicate-name check: an item can be renamed to the name of another item of the list |
| `BackendSpec.CreateListComparesStoredNameUntrimmed` | main.go:48-54 | `ListNameTaken` lower-cases stored names without trimming them: a stored list " Milk" does not block a new list "milk" |
| `BackendSpec.AddItemComparesTrimmedNames` | main.go:118-125 | `ItemNameTaken` trims and lower-cases stored names: an item name equal to a stored one under trim and lower-case on both sides is rejected with Conflict and the store unchanged |
| `BackendSpec.AddItemAcceptsBlankName` | main.go:113-131 | the server accepts an empty item name when no stored name is blank, and stores it with the counter's ID and bought forced to false |
| `BackendSpec.AddItemVerdictIgnoresNormalising` | main.go:118-125 | the duplicate check compares normalised names, so sending the name already trimmed and lower-cased gives the same Conflict or Created verdict |
| `Decimal.NatToString` | main.go:56 | the rendering is a non-empty string of digits without a leading zero |
| `Decimal.ParseNatToString` | main.go:56 | parsing the rendering of n gives back n |
| `Decimal.NatToStringInjective` | main.go:127 | two counters render equally exactly when they are equal |
| `Text.TrimEmptyIffAllSpace` | main.go:42 | trimming leaves the empty string exactly when the input is all whitespace |
| `Text.TrimIdempotent` | main.go:119 | trimming a trimmed string changes nothing; with `LowerTrimCommute` it makes the name key of `AddItemVerdictIgnoresNormalising` idempotent |
| `Text.LowerTrimCommute` | main.go:48 | trimming Go whitespace and ASCII lower-casing commute, so the order of `ToLower` and `TrimSpace` in a name comparison does not matter |
| `ListDetails.DefaultSectionOffered` | frontend/src/pages/ListDetailsPage.tsx:38-46 | the default section "Other" is one of the sections the selects offer, and the initial draft uses it |
| `ListDetails.SubmitAllowedIff` | frontend/src/pages/ListDetailsPage.tsx:99 | the add guard `SubmitAllowed` lets a draft through exactly when its name has a character that is not ECMAScript whitespace |
| `ListDetails.BoughtItemsMembers` | frontend/src/pages/ListDetailsPage.tsx:134 | the filter `BoughtItems` holds exactly the bought items, and its complement exactly the unbought ones |
| `ListDetails.BoughtItemsAppend` | frontend/src/pages/ListDetailsPage.tsx:134 | the filter keeps list order |
| `ListDetails.BoughtItemsEmptyIff` | frontend/src/pages/ListDetailsPage.tsx:135 | the bought subset is empty exactly when no item is bought |
| `ListDetails.BoughtPartition` | frontend/src/pages/ListDetailsPage.tsx:134 | the bought and the unbought items together are the items, each as often as before |
| `ListDetails.ClearTargets` | frontend/src/pages/ListDetailsPage.tsx:141-143 | as many deletes as there are bought items |
| `ListDetails.ClearTargetsMembers` | frontend/src/pages/ListDetailsPage.tsx:141-143 | a delete is sent for an ID exactly when some bought item carries it |
| `ListDetails.ClearTargetsAppend` | frontend/src/pages/ListDetailsPage.tsx:141-143 | the deletes follow list order: the targets of a concatenation are the concatenated targets |
| `ListDetails.ClearTargetsOfBought` | frontend/src/pages/ListDetailsPage.tsx:141-143 | the k-th delete is for the ID of the k-th bought item |
| `ListDetails.LexLeTotal` | frontend/src/pages/ListDetailsPage.tsx:212 | the code-point order standing in for `localeCompare` compares any two strings |
| `ListDetails.LexLeTrans` | frontend/src/pages/ListDetailsPage.tsx:212 | that order is transitive |
| `ListDetails.DisplayOrderPermutes` | frontend/src/pages/ListDetailsPage.tsx:211-212 | `DisplayOrder`, an insertion sort (`Insert`) on the key `SortKey`, `section \|\| ""`, yields a permutation of the items |
| `ListDetails.DisplayOrderSorted` | frontend/src/pages/ListDetailsPage.tsx:212 | the displayed sequence is ordered by section, a missing section compared as "" |
| `ListDetails.DisplayOrderStable` | frontend/src/pages/ListDetailsPage.tsx:212 | items of the same section are shown in their input order |
| `ListDetails.DisplayOrderIdempotent` | frontend/src/pages/ListDetailsPage.tsx:211-212 | sorting the displayed sequence again changes nothing |
| `ListDetails.DisplayOrderIgnoresBought` | frontend/src/pages/ListDetailsPage.tsx:212 | changing bought flags changes no position in the display |
| `ListDetails.BoughtCanPrecedeUnbought` | frontend/src/pages/ListDetailsPage.tsx:212 | a bought item stays above an unbought one of the same section when it comes first |
| `ListDetails.DisplaySection` | frontend/src/pages/ListDetailsPage.tsx:248 | the shown section is the item's own when present and non-empty, "Other" otherwise |
| `ListDetails.EditDialogMatchesDisplay` | frontend/src/pages/ListDetailsPage.tsx:312-332 | the edit dialog opens on the item as the list shows it: its name, the displayed section, and its quantity unless absent or 0 |
| `ListDetails.EditQuantity` | frontend/src/pages/ListDetailsPage.tsx:322 | the edit dialog shows the quantity, or 1 when it is absent or 0 |
| `ListDetails.EditSection` | frontend/src/pages/ListDetailsPage.tsx:332 | the edit dialog's section agrees with the displayed section, and is "Other" without an item |
| `ListDetails.DetailsPage.constructor` | frontend/src/pages/ListDetailsPage.tsx:48-59 | the page starts with no items, the initial draft, the add dialog closed and the snackbar closed |
| `ListDetails.DetailsPage.HandleAddItem` | frontend/src/pages/ListDetailsPage.tsx:98-110 | a blank name sends nothing and changes nothing; otherwise the draft is posted, and on success the draft is reset to exactly ("", 1, "Other"), the dialog closes and the items are refetched, while on failure only the snackbar changes; local items are never patched |
| `ListDetails.DetailsPage.HandleClearBought` | frontend/src/pages/ListDetailsPage.tsx:131-151 | the deletes sent are exactly the bought items' IDs in list order; with none bought nothing is sent and the snackbar says "No bought items to remove!"; the items are never patched locally, only refetched after success |

## Left out

- HTTP plumbing: routing, CORS, `ListenAndServe`, headers, status writes and JSON encoding (main.go:256-279). Bodies are modelled as `Option` values and answers as `Response` values.
- `Backend.Store.GetAllLists`: with no lists the Go handler encodes a nil slice, so the answer is `"lists": null`, not `[]`. JSON encoding is not modelled, so the model answers with an empty sequence.
- Concurrency: the Go handlers run concurrently over the unsynchronised `lists`, and the page sends its bulk deletes with `Promise.all`. The store is modelled sequentially, and bulk clear only as the selection of its targets, with one flag for the outcome of the whole batch.
- Integer widths: Go's `int` counters and quantities are 64-bit and could wrap after 2^63 - 1 requests. The model uses unbounded integers.
- `strings.ToLower` is modelled for ASCII only; other letters keep their case. `strings.TrimSpace` and ECMAScript `trim` use their exact whitespace sets.
- `ListDetails.EditQuantity`: a JavaScript quantity is a number set by `Number(e.target.value)` (frontend/src/pages/ListDetailsPage.tsx:275, 324), so it can be fractional or NaN, and `NaN || 1` also shows 1. The model's quantity is an integer, so the NaN and fractional cases are not modelled.
- `localeCompare` is replaced by code-point lexicographic order. Locale collation can order strings differently, for example the emoji in "Vegetables 🥕" or mixed case.
- JavaScript's `Array.prototype.sort` is modelled by a stable insertion sort. Any stable sort by the same key gives the same sequence.
- React rendering and hooks: dialogs, snackbar timing, the spinner, the two overlapping `useEffect` fetches (frontend/src/pages/ListDetailsPage.tsx:75-96) and the network calls. The refetch after a mutation is a returned flag, and the outcome of a request is a parameter.
- `handleToggleBought`, `handleDelete` and the edit dialog's save (frontend/src/pages/ListDetailsPage.tsx:112-129, 349-360): each sends one request and refetches. `handleDelete` and the save also set the snackbar; the save also closes its dialog, and does nothing without an item being edited. The server side of each is modelled in `BackendSpec`.
- frontend/src/pages/ListsPage.tsx, frontend/src/theme.ts, frontend/src/main.tsx, frontend/src/App.tsx: a fetch and display, styling, and the router shell.
- frontend/src/types.ts is used only as the shape of `Item` and `List`.
