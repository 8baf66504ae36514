/** The cart slice as mutable state: one object whose `items` list the three
    reducers change in place, each proved to leave exactly the list that the
    corresponding function of CartModel describes. */
module CartSlice {
  import opened CartModel

  /** The `findIndex` scan: the index of the first entry named `name`, or -1. */
  method FindIndex(items: seq<Entry>, name: string) returns (idx: int)
    ensures -1 <= idx < |items|
    ensures 0 <= idx ==> items[idx].name == name
    ensures forall j :: 0 <= j < |items| && (idx < 0 || j < idx) ==> items[j].name != name
    ensures idx == IndexOf(items, name)
  {
    var i := 0;
    while i < |items|
      invariant 0 <= i <= |items|
      invariant forall j :: 0 <= j < i ==> items[j].name != name
    {
      if items[i].name == name {
        return i;
      }
      i := i + 1;
    }
    return -1;
  }

  /** The slice's state object; `items` plays the role of the Immer draft. */
  class CartState {
    var items: seq<Entry>

    /** Unique names and positive quantities. */
    ghost predicate Valid()
      reads this
    {
      Wellformed(items)
    }

    /** The initial state: an empty cart. */
    constructor ()
      ensures items == [] && Valid()
    {
      items := [];
    }

    /** Adds one unit of a plant: bumps the existing entry or appends a new one. */
    method AddItem(payload: Option<Plant>)
      modifies this
      ensures items == AfterAddItem(old(items), payload)
      ensures old(Valid()) ==> Valid()
    {
      if !ValidPlant(payload) {
        return;
      }
      AddItemPreservesWellformed(items, payload);
      var plant := payload.value;
      var existingIndex := FindIndex(items, plant.name.value);
      if existingIndex >= 0 {
        var entry := items[existingIndex];
        items := items[existingIndex := entry.(quantity := Some(Bumped(entry.quantity)))];
      } else {
        items := items + [NewEntry(plant)];
      }
    }

    /** Drops every entry carrying the resolved name. */
    method RemoveItem(payload: RemovePayload)
      modifies this
      ensures items == AfterRemoveItem(old(items), payload)
      ensures old(Valid()) ==> Valid()
    {
      var name := ResolveName(payload);
      if name.None? {
        return;
      }
      RemoveItemPreservesWellformed(items, payload);
      items := Without(items, name.value);
    }

    /** Sets the quantity of the named entry, or removes it when the new
        quantity is not positive. */
    method UpdateQuantity(payload: Option<QuantityUpdate>)
      modifies this
      ensures items == AfterUpdateQuantity(old(items), payload)
      ensures old(Valid()) ==> Valid()
    {
      if !ValidUpdate(payload) {
        return;
      }
      UpdateQuantityPreservesWellformed(items, payload);
      var name, quantity := payload.value.name.value, payload.value.quantity.value;
      var idx := FindIndex(items, name);
      ghost var expected := AfterUpdateQuantity(items, payload);
      if idx >= 0 {
        if quantity <= 0 {
          items := items[..idx] + items[idx + 1..];
        } else {
          items := items[idx := items[idx].(quantity := Some(quantity))];
        }
      }
      assert items == expected;
    }
  }
}
