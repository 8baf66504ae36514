/** Concrete runs of the three reducers on small carts. */
module CartExamples {
  import opened CartModel

  const Fern := Plant(Some("Fern"), Some("$5"), None, None)
  const Oak := Plant(Some("Oak"), Some("$9"), Some("oak.png"), None)
  const FernLine := Entry("Fern", Some("$5"), None, None, Some(1))
  const OakLine := Entry("Oak", Some("$9"), Some("oak.png"), None, Some(1))

  function SetQuantity(name: string, q: int): Option<QuantityUpdate> {
    Some(QuantityUpdate(Some(name), Some(q)))
  }

  /** Two distinct plants end up in insertion order, one unit each. */
  lemma AddTwoPlants()
    ensures AfterAddItem(AfterAddItem([], Some(Fern)), Some(Oak)) == [FernLine, OakLine]
  {
  }

  lemma AddSamePlantTwice()
    ensures AfterAddItem(AfterAddItem([], Some(Fern)), Some(Fern)) == [FernLine.(quantity := Some(2))]
  {
  }

  lemma AddWithoutCost(items: seq<Entry>)
    ensures AfterAddItem(items, Some(Fern.(cost := None))) == items
    ensures AfterAddItem(items, Some(Fern.(cost := Some("")))) == items
  {
  }

  lemma RemoveOneOfTwo()
    ensures AfterRemoveItem([FernLine, OakLine], ByName("Fern")) == [OakLine]
    ensures AfterRemoveItem([FernLine, OakLine], ByRecord(Some("Oak"))) == [FernLine]
    ensures AfterRemoveItem([FernLine, OakLine], ByName("Missing")) == [FernLine, OakLine]
  {
    var cart := [FernLine, OakLine];
    RemoveItemDropsOne(cart, ByName("Fern"), 0);
    RemoveItemDropsOne(cart, ByRecord(Some("Oak")), 1);
    assert cart[0].name != "Missing" && cart[1].name != "Missing";
    RemoveItemAbsentIsNoop(cart, ByName("Missing"));
  }

  /** Removing the middle of three distinct entries keeps the outer two in order. */
  lemma RemoveMiddle(a: Entry, b: Entry, c: Entry)
    requires a.name != b.name && b.name != c.name && a.name != c.name && b.name != ""
    ensures AfterRemoveItem([a, b, c], ByName(b.name)) == [a, c]
  {
    RemoveItemDropsOne([a, b, c], ByName(b.name), 1);
  }

  lemma UpdateRuns()
    ensures AfterUpdateQuantity([FernLine], SetQuantity("Fern", 3)) == [FernLine.(quantity := Some(3))]
    ensures AfterUpdateQuantity([FernLine, OakLine], SetQuantity("Fern", 0)) == [OakLine]
    ensures AfterUpdateQuantity([FernLine], SetQuantity("Ghost", 2)) == [FernLine]
    ensures AfterUpdateQuantity([FernLine], Some(QuantityUpdate(Some("Fern"), None))) == [FernLine]
  {
  }
}
