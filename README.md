# Shopping-cart slice, modelled in Dafny

The cart slice of the e-plantShopping application keeps one ordered list of
cart entries, `items`, which starts empty. Three reducers change that list in
place:

- `addItem(plant)` ignores a payload that has no truthy name or no truthy
  cost. Otherwise it either adds one unit to the first entry with that name,
  where an undefined or zero quantity counts as 1, or it appends
  `{...plant, quantity: 1}` at the end.
- `removeItem(payload)` takes a name string, or a record whose `name` field
  it reads. It ignores a payload from which no non-empty name comes out.
  Otherwise it keeps only the entries whose name differs.
- `updateQuantity({name, quantity})` ignores a payload without a truthy name
  or without a numeric quantity, and it ignores a name that is not in the
  cart. For the first entry with the name, a quantity of 0 or less removes
  that entry. A positive quantity replaces the entry's quantity; it is not
  added to it.

The project has three modules:

- `CartModel` (`cart_model.dfy`) holds the value types: `Entry`, `Plant`,
  `RemovePayload`, `QuantityUpdate` and `Option`. It holds the `findIndex`
  lookup `IndexOf` and the `filter` by name `Without`. It also holds one
  function per reducer giving the list that reducer leaves behind:
  `AfterAddItem`, `AfterRemoveItem`, `AfterUpdateQuantity`. The guards
  `ValidPlant`, `ResolveName` and `ValidUpdate` follow the JavaScript
  truthiness tests. Last come the lemmas: no-op cases, exact effects,
  order preservation, idempotence, and preservation of the cart invariant
  `Wellformed`. That invariant says names are unique and every quantity is
  present and at least 1.
- `CartSlice` (`cart_slice.dfy`) holds the state object `CartState`, whose
  field `items: seq<Entry>` stands for the Immer draft. Its constructor is
  the initial state. Its three methods are the reducers, each with
  `modifies this`. Each method proves that the new `items` equals the
  matching `After…` function of the old `items`, and that a well-formed cart
  stays well-formed. The `findIndex` scan is the loop method `FindIndex`.
- `CartExamples` (`cart_examples.dfy`) holds concrete runs on small carts:
  adding the same plant twice, removing the middle of three entries,
  setting a quantity rather than adding to it, and so on.

The reducers modify any list they are given, so the methods do not require
the invariant. They only promise to keep it.

The comment above removeItem's filter (src/CartSlice.jsx:48) speaks of "the
item with matching name", in the singular, while the filter on line 49 drops
every entry with that name. The model follows the code (`Without`).
`RemoveItemDropsOne` proves that exactly one entry goes when names are unique,
which the invariant guarantees, so the two readings agree on every cart the
reducers can build.

## Model

| member | source | states |
|---|---|---|
| CartModel.IndexOf | src/CartSlice.jsx:25 | the result is -1 exactly when no entry has the name; otherwise it is the index of the first entry with that name |
| CartSlice.FindIndex | src/CartSlice.jsx:25 | the linear scan returns the first index whose entry has the name, or -1 when none does; this equals `IndexOf` |
| CartModel.ResolveName | src/CartSlice.jsx:43-47 | a non-empty string payload resolves to itself, and a record with a truthy `name` field resolves to that field; no name comes out exactly for a missing payload, an empty string, or a record whose name is missing or empty; a resolved name is never empty |
| CartModel.Without | src/CartSlice.jsx:49 | no contract of its own: the filter by name; `WithoutMembers`, `WithoutHasName`, `WithoutConcat`, `WithoutAbsent`, `WithoutIdempotent`, `WithoutUniqueIsSplice` and `WithoutKeepsNamesUnique` constrain it |
| CartModel.ValidPlant | src/CartSlice.jsx:20 | no contract of its own: addItem's guard; `AddItemInvalidIsNoop` shows a payload failing it changes nothing |
| CartModel.Bumped | src/CartSlice.jsx:28 | no contract of its own: `(quantity \|\| 1) + 1`; `AddItemIncrementsExisting` states its values (2 for an undefined quantity, q+1 for q ≥ 1) |
| CartModel.AfterAddItem | src/CartSlice.jsx:17-36 | no contract of its own: the items after addItem; `AddItemInvalidIsNoop`, `AddItemAppendsNew`, `AddItemIncrementsExisting` and `AddItemPreservesWellformed` constrain it |
| CartModel.AfterRemoveItem | src/CartSlice.jsx:42-50 | no contract of its own: the items after removeItem; `RemoveItemInvalidIsNoop`, `RemoveItemFilters`, `RemoveItemKeepsOrder`, `RemoveItemAbsentIsNoop`, `RemoveItemIdempotent`, `RemoveItemDropsOne` and `RemoveItemPreservesWellformed` constrain it |
| CartModel.ValidUpdate | src/CartSlice.jsx:60 | no contract of its own: updateQuantity's guard; `UpdateQuantityNoop` shows a payload failing it changes nothing |
| CartModel.AfterUpdateQuantity | src/CartSlice.jsx:58-77 | no contract of its own: the items after updateQuantity; `UpdateQuantityNoop`, `UpdateQuantityRemoves`, `UpdateQuantitySets`, `UpdateToNonPositiveIsRemove` and `UpdateQuantityPreservesWellformed` constrain it |
| CartModel.WithoutMembers | src/CartSlice.jsx:49 | the filter keeps exactly the entries whose name differs, and never lengthens the list |
| CartModel.WithoutHasName | src/CartSlice.jsx:49 | a name occurs after filtering exactly when it occurred before and is not the removed name |
| CartModel.WithoutConcat | src/CartSlice.jsx:49 | filtering a concatenation is the concatenation of the filtered parts, so relative order is kept |
| CartModel.WithoutAbsent | src/CartSlice.jsx:49 | filtering by a name no entry carries returns the list unchanged |
| CartModel.WithoutIdempotent | src/CartSlice.jsx:49 | filtering twice by one name equals filtering once |
| CartModel.WithoutUniqueIsSplice | src/CartSlice.jsx:49 | with unique names, filtering by the name at index i removes exactly index i, so the length drops by one |
| CartModel.WithoutKeepsNamesUnique | src/CartSlice.jsx:49 | filtering keeps names unique |
| CartModel.AddItemInvalidIsNoop | src/CartSlice.jsx:20-23 | a payload without a truthy name or truthy cost leaves the items unchanged |
| CartModel.AddItemAppendsNew | src/CartSlice.jsx:29-34 | a name not in the cart adds exactly one entry at the end, carrying the plant's name, cost, image and description and quantity 1; the earlier entries are unchanged and in order |
| CartModel.AddItemIncrementsExisting | src/CartSlice.jsx:25-28 | for the first entry with the name, the quantity becomes `(quantity or 1) + 1`, which is 2 when it was undefined and q+1 when it was q ≥ 1; the length and every other entry are unchanged |
| CartModel.AddItemPreservesWellformed | src/CartSlice.jsx:25-34 | addItem keeps names unique and quantities ≥ 1; after a valid call the name is in the cart |
| CartModel.RemoveItemInvalidIsNoop | src/CartSlice.jsx:43-47 | when no non-empty name can be resolved, the items are unchanged |
| CartModel.RemoveItemFilters | src/CartSlice.jsx:43-49 | the result keeps exactly the old entries whose name differs; no entry with the name remains, and the list is no longer than before |
| CartModel.RemoveItemKeepsOrder | src/CartSlice.jsx:49 | removing from `a + b` is removing from `a`, then from `b`, concatenated: the survivors keep their order |
| CartModel.RemoveItemAbsentIsNoop | src/CartSlice.jsx:49 | removing a name that is not in the cart leaves the items unchanged |
| CartModel.RemoveItemIdempotent | src/CartSlice.jsx:49 | a second removeItem with the same payload changes nothing |
| CartModel.RemoveItemDropsOne | src/CartSlice.jsx:49 | with unique names, the result is the old list with the matching index spliced out, one entry shorter |
| CartModel.RemoveItemPreservesWellformed | src/CartSlice.jsx:42-50 | removeItem keeps names unique and quantities ≥ 1 |
| CartModel.UpdateQuantityNoop | src/CartSlice.jsx:59-76 | a payload without a truthy name or numeric quantity, or a name not in the cart, leaves the items unchanged |
| CartModel.UpdateQuantityRemoves | src/CartSlice.jsx:65-69 | a quantity ≤ 0 removes exactly the first entry with the name; the others keep their order and the length drops by one |
| CartModel.UpdateQuantitySets | src/CartSlice.jsx:65-73 | a positive quantity becomes that entry's quantity exactly, not added to the old one; the length and other entries are unchanged |
| CartModel.UpdateToNonPositiveIsRemove | src/CartSlice.jsx:65-69 | with unique names, updating to a quantity ≤ 0 has the same result as removeItem of that name |
| CartModel.UpdateQuantityPreservesWellformed | src/CartSlice.jsx:58-77 | updateQuantity keeps names unique and quantities ≥ 1; it only ever stores positive quantities |
| CartSlice.CartState.constructor | src/CartSlice.jsx:9-11 | the initial state has no items and satisfies the invariant |
| CartSlice.CartState.AddItem | src/CartSlice.jsx:17-36 | the new items are `AfterAddItem` of the old items, and a well-formed cart stays well-formed |
| CartSlice.CartState.RemoveItem | src/CartSlice.jsx:42-50 | the new items are `AfterRemoveItem` of the old items, and a well-formed cart stays well-formed |
| CartSlice.CartState.UpdateQuantity | src/CartSlice.jsx:58-77 | the new items are `AfterUpdateQuantity` of the old items, and a well-formed cart stays well-formed |
| CartExamples.AddTwoPlants | src/CartSlice.jsx:25-34 | adding two different plants to an empty cart gives both, in order, one unit each |
| CartExamples.AddSamePlantTwice | src/CartSlice.jsx:25-34 | adding the same plant twice gives one entry with quantity 2 |
| CartExamples.AddWithoutCost | src/CartSlice.jsx:20-23 | a plant with a missing or empty cost is not added |
| CartExamples.RemoveOneOfTwo | src/CartSlice.jsx:42-50 | removing by name string or by record drops that plant only; an absent name changes nothing |
| CartExamples.RemoveMiddle | src/CartSlice.jsx:49 | removing B from [A, B, C] gives [A, C] |
| CartExamples.UpdateRuns | src/CartSlice.jsx:58-77 | updating to 3 sets 3; to 0 removes the entry; an absent name or a non-numeric quantity changes nothing |

## Left out

- Redux Toolkit plumbing: `createSlice`, the exported action creators and the default reducer export (src/CartSlice.jsx:1, 7-8, 81-83). These are library code. The Immer draft is a mutable `seq` field of `CartState`.
- The `console.error` diagnostics (src/CartSlice.jsx:21, 45, 61, 75). They are output only and change no state.
- JavaScript dynamic typing, reduced to `Option` fields. A missing, null or falsy field is `None`. An empty string is falsy. A quantity that is not of type number is `None`. Quantities are mathematical integers, so `NaN`, infinities and fractions are not modelled. Costs are strings, so a numeric cost such as `0` is not modelled separately; it is falsy like `""`.
- Names are strings throughout the model, for plants, entries and payloads. addItem checks only that the name is truthy (src/CartSlice.jsx:20), so the source can store an entry with a non-string name such as `7`. The model cannot: a truthy non-string plant name is not modelled in addItem.
- A removeItem or updateQuantity payload whose `name` is truthy but not a string is not a separate case either. Because every stored name is a string in the model, no entry can match such a name: the filter `item.name !== name` keeps every entry, and `findIndex` finds none. The model therefore treats such a name as absent. It is `NoPayload` for removeItem and a missing name for updateQuantity, and the list stays the same. This holds only because non-string names are not modelled; in the source, `removeItem({name: 7})` would remove an entry that addItem stored under the name `7`.
- Any plant fields beyond name, cost, image and description. `...plant` copies them verbatim; the model carries image and description to show this.
- Sharing: JavaScript entries are objects behind references. Here they are values, so aliasing between a dispatched plant and the stored entry is outside the model.
