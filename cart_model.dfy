/** Value-level model of the shopping-cart slice: the cart entry, the three
    action payloads, the state each reducer leaves behind as a function of the
    state before it, and the properties those functions have. */
module CartModel {

  datatype Option<T> = None | Some(value: T)

  /** The price marker of a plant. The cart never parses it; it only asks
      whether it is present and non-empty. */
  type Cost = string

  /** JavaScript truthiness of an optional string field: present and not "". */
  predicate Truthy(s: Option<string>) {
    s.Some? && s.value != ""
  }

  /** The plant record dispatched to addItem; a field is None when it is
      missing, null or falsy. Image and description are carried verbatim. */
  datatype Plant = Plant(name: Option<string>, cost: Option<Cost>,
                         image: Option<string>, description: Option<string>)

  /** One line of the cart: the plant's fields plus its quantity. A quantity of
      None stands for an entry whose quantity is undefined. */
  datatype Entry = Entry(name: string, cost: Option<Cost>,
                         image: Option<string>, description: Option<string>,
                         quantity: Option<int>)

  /** The payload of removeItem: a bare name string, a record with a (possibly
      missing) `name` field, or nothing usable (undefined, null, a number). */
  datatype RemovePayload = ByName(name: string) | ByRecord(field: Option<string>) | NoPayload

  /** The `{name, quantity}` record of updateQuantity; quantity is None when
      its value is not of type number. */
  datatype QuantityUpdate = QuantityUpdate(name: Option<string>, quantity: Option<int>)

  // ---------------------------------------------------------------------------
  // Lookup and invariants

  /** Some entry of `s` carries the name `n`. */
  predicate HasName(s: seq<Entry>, n: string) {
    exists j :: 0 <= j < |s| && s[j].name == n
  }

  /** At most one entry per name. */
  predicate NamesUnique(s: seq<Entry>) {
    forall i, j :: 0 <= i < j < |s| ==> s[i].name != s[j].name
  }

  /** Every stored quantity is present and at least 1. */
  predicate QuantitiesPositive(s: seq<Entry>) {
    forall e :: e in s ==> e.quantity.Some? && e.quantity.value >= 1
  }

  /** The invariant the cart keeps: unique names and positive quantities. */
  predicate Wellformed(s: seq<Entry>) {
    NamesUnique(s) && QuantitiesPositive(s)
  }

  /** `Array.prototype.findIndex` with the test `item.name === n`: the index of
      the first entry named `n`, or -1 when there is none. */
  function IndexOf(s: seq<Entry>, n: string): (r: int)
    ensures -1 <= r < |s|
    ensures 0 <= r ==> s[r].name == n && forall j :: 0 <= j < r ==> s[j].name != n
    ensures r == -1 <==> !HasName(s, n)
  {
    if s == [] then -1
    else if s[0].name == n then 0
    else
      var k := IndexOf(s[1..], n);
      if k == -1 then -1 else k + 1
  }

  /** `items.filter(item => item.name !== n)`. */
  function Without(s: seq<Entry>, n: string): seq<Entry> {
    if s == [] then []
    else if s[0].name == n then Without(s[1..], n)
    else [s[0]] + Without(s[1..], n)
  }

  // ---------------------------------------------------------------------------
  // addItem

  /** The guard of addItem: a payload with a truthy name and a truthy cost. */
  predicate ValidPlant(p: Option<Plant>) {
    p.Some? && Truthy(p.value.name) && Truthy(p.value.cost)
  }

  /** `{...plant, quantity: 1}`. */
  function NewEntry(p: Plant): Entry
    requires p.name.Some?
  {
    Entry(p.name.value, p.cost, p.image, p.description, Some(1))
  }

  /** `(quantity || 1) + 1`: an undefined or zero quantity counts as 1. */
  function Bumped(q: Option<int>): int {
    (if q.Some? && q.value != 0 then q.value else 1) + 1
  }

  /** The items after addItem(p). */
  function AfterAddItem(items: seq<Entry>, p: Option<Plant>): seq<Entry> {
    if !ValidPlant(p) then items
    else
      var i := IndexOf(items, p.value.name.value);
      if i >= 0 then items[i := items[i].(quantity := Some(Bumped(items[i].quantity)))]
      else items + [NewEntry(p.value)]
  }

  // ---------------------------------------------------------------------------
  // removeItem

  /** The name removeItem resolves from its payload, if it is non-empty. */
  function ResolveName(p: RemovePayload): (r: Option<string>)
    ensures r.Some? ==> r.value != ""
    ensures p.ByName? && p.name != "" ==> r == Some(p.name)
    ensures p.ByRecord? && Truthy(p.field) ==> r == p.field
    ensures r.None? <==> (p.NoPayload? || (p.ByName? && p.name == "") || (p.ByRecord? && !Truthy(p.field)))
  {
    match p
    case ByName(s) => if s != "" then Some(s) else None
    case ByRecord(f) => if Truthy(f) then f else None
    case NoPayload => None
  }

  /** The items after removeItem(p). */
  function AfterRemoveItem(items: seq<Entry>, p: RemovePayload): seq<Entry> {
    match ResolveName(p)
    case None => items
    case Some(n) => Without(items, n)
  }

  // ---------------------------------------------------------------------------
  // updateQuantity

  /** The guard of updateQuantity: a truthy name and a numeric quantity. */
  predicate ValidUpdate(u: Option<QuantityUpdate>) {
    u.Some? && Truthy(u.value.name) && u.value.quantity.Some?
  }

  /** The items after updateQuantity(u). */
  function AfterUpdateQuantity(items: seq<Entry>, u: Option<QuantityUpdate>): seq<Entry> {
    if !ValidUpdate(u) then items
    else
      var n, q := u.value.name.value, u.value.quantity.value;
      var i := IndexOf(items, n);
      if i < 0 then items
      else if q <= 0 then items[..i] + items[i + 1..]
      else items[i := items[i].(quantity := Some(q))]
  }

  // ---------------------------------------------------------------------------
  // Lemmas about filtering by name

  lemma {:induction false} WithoutMembers(s: seq<Entry>, n: string)
    ensures |Without(s, n)| <= |s|
    ensures forall e :: e in Without(s, n) <==> e in s && e.name != n
  {
    if s != [] {
      WithoutMembers(s[1..], n);
      assert s == [s[0]] + s[1..];
    }
  }

  lemma {:induction false} WithoutHasName(s: seq<Entry>, n: string, m: string)
    ensures HasName(Without(s, n), m) <==> HasName(s, m) && m != n
  {
    WithoutMembers(s, n);
    var w := Without(s, n);
    if HasName(w, m) {
      var j :| 0 <= j < |w| && w[j].name == m;
      assert w[j] in w;
      assert w[j] in s;
      var k :| 0 <= k < |s| && s[k] == w[j];
      assert s[k].name == m;
    }
    if HasName(s, m) && m != n {
      var k :| 0 <= k < |s| && s[k].name == m;
      assert s[k] in s;
      assert s[k] in w;
      var j :| 0 <= j < |w| && w[j] == s[k];
      assert w[j].name == m;
    }
  }

  /** Filtering distributes over concatenation: the kept entries stay in order. */
  lemma {:induction false} WithoutConcat(a: seq<Entry>, b: seq<Entry>, n: string)
    ensures Without(a + b, n) == Without(a, n) + Without(b, n)
  {
    if a == [] {
      assert a + b == b;
    } else {
      assert (a + b)[0] == a[0];
      assert (a + b)[1..] == a[1..] + b;
      WithoutConcat(a[1..], b, n);
    }
  }

  /** A name that is absent leaves the list exactly as it was. */
  lemma {:induction false} WithoutAbsent(s: seq<Entry>, n: string)
    requires !HasName(s, n)
    ensures Without(s, n) == s
  {
    if s != [] {
      forall j | 0 <= j < |s[1..]| ensures s[1..][j].name != n {
        assert s[1..][j] == s[j + 1];
      }
      WithoutAbsent(s[1..], n);
      assert s == [s[0]] + s[1..];
    }
  }

  lemma WithoutIdempotent(s: seq<Entry>, n: string)
    ensures Without(Without(s, n), n) == Without(s, n)
  {
    WithoutHasName(s, n, n);
    WithoutAbsent(Without(s, n), n);
  }

  /** With unique names, filtering by the name at index i drops index i alone. */
  lemma WithoutUniqueIsSplice(s: seq<Entry>, n: string, i: int)
    requires NamesUnique(s) && 0 <= i < |s| && s[i].name == n
    ensures Without(s, n) == s[..i] + s[i + 1..]
    ensures |Without(s, n)| == |s| - 1
  {
    assert s == s[..i] + ([s[i]] + s[i + 1..]);
    WithoutConcat(s[..i], [s[i]] + s[i + 1..], n);
    WithoutConcat([s[i]], s[i + 1..], n);
    assert Without([s[i]], n) == [] by {
      assert [s[i]][1..] == [];
    }
    forall j | 0 <= j < |s[..i]| ensures s[..i][j].name != n {
      assert s[..i][j] == s[j];
    }
    var tail := s[i + 1..];
    forall j | 0 <= j < |tail| ensures tail[j].name != n {
      assert tail[j] == s[i + 1 + j];
    }
    WithoutAbsent(s[..i], n);
    WithoutAbsent(s[i + 1..], n);
  }

  lemma {:induction false} WithoutKeepsNamesUnique(s: seq<Entry>, n: string)
    requires NamesUnique(s)
    ensures NamesUnique(Without(s, n))
  {
    if s != [] {
      var t := s[1..];
      assert NamesUnique(t) by {
        forall i, j | 0 <= i < j < |t| ensures t[i].name != t[j].name {
          assert t[i] == s[i + 1] && t[j] == s[j + 1];
        }
      }
      WithoutKeepsNamesUnique(t, n);
      if s[0].name != n {
        var w := Without(t, n);
        forall j | 0 <= j < |t| ensures t[j].name != s[0].name {
          assert t[j] == s[j + 1];
        }
        WithoutHasName(t, n, s[0].name);
        var r := [s[0]] + w;
        forall i, j | 0 <= i < j < |r| ensures r[i].name != r[j].name {
          if i == 0 {
            assert r[j] == w[j - 1];
          } else {
            assert r[i] == w[i - 1] && r[j] == w[j - 1];
          }
        }
      }
    }
  }

  // ---------------------------------------------------------------------------
  // addItem properties

  lemma AddItemInvalidIsNoop(items: seq<Entry>, p: Option<Plant>)
    requires !ValidPlant(p)
    ensures AfterAddItem(items, p) == items
  {
  }

  /** A new name is appended once, at the end, with quantity 1. */
  lemma AddItemAppendsNew(items: seq<Entry>, p: Option<Plant>)
    requires ValidPlant(p) && !HasName(items, p.value.name.value)
    ensures |AfterAddItem(items, p)| == |items| + 1
    ensures AfterAddItem(items, p)[..|items|] == items
    ensures var e := AfterAddItem(items, p)[|items|];
              e.name == p.value.name.value && e.cost == p.value.cost &&
              e.image == p.value.image && e.description == p.value.description
    ensures AfterAddItem(items, p)[|items|].quantity == Some(1)
  {
  }

  /** An existing name (the first entry carrying it) gains exactly one unit;
      nothing else changes. */
  lemma AddItemIncrementsExisting(items: seq<Entry>, p: Option<Plant>, i: int)
    requires ValidPlant(p) && 0 <= i < |items| && items[i].name == p.value.name.value
    requires forall j :: 0 <= j < i ==> items[j].name != items[i].name
    ensures |AfterAddItem(items, p)| == |items|
    ensures AfterAddItem(items, p)[i] == items[i].(quantity := Some(Bumped(items[i].quantity)))
    ensures forall j :: 0 <= j < |items| && j != i ==> AfterAddItem(items, p)[j] == items[j]
    ensures items[i].quantity == None ==> AfterAddItem(items, p)[i].quantity == Some(2)
    ensures items[i].quantity.Some? && items[i].quantity.value >= 1 ==>
              AfterAddItem(items, p)[i].quantity == Some(items[i].quantity.value + 1)
  {
    assert IndexOf(items, p.value.name.value) == i;
  }

  /** After a valid addItem exactly one entry carries the name. */
  lemma AddItemPreservesWellformed(items: seq<Entry>, p: Option<Plant>)
    ensures Wellformed(items) ==> Wellformed(AfterAddItem(items, p))
    ensures ValidPlant(p) ==> HasName(AfterAddItem(items, p), p.value.name.value)
  {
    var r := AfterAddItem(items, p);
    if ValidPlant(p) {
      var n := p.value.name.value;
      var i := IndexOf(items, n);
      if i >= 0 {
        assert forall k :: 0 <= k < |r| ==> r[k].name == items[k].name;
        if Wellformed(items) {
          forall e | e in r ensures e.quantity.Some? && e.quantity.value >= 1 {
            var k :| 0 <= k < |r| && r[k] == e;
            if k != i {
              assert items[k] in items;
            } else {
              assert items[i] in items;
            }
          }
        }
        assert r[i].name == n;
      } else {
        assert r[|items|].name == n;
      }
    }
  }

  // ---------------------------------------------------------------------------
  // removeItem properties

  lemma RemoveItemInvalidIsNoop(items: seq<Entry>, p: RemovePayload)
    requires ResolveName(p).None?
    ensures AfterRemoveItem(items, p) == items
  {
  }

  /** removeItem keeps exactly the entries whose name differs, in their order. */
  lemma RemoveItemFilters(items: seq<Entry>, p: RemovePayload)
    requires ResolveName(p).Some?
    ensures forall e :: e in AfterRemoveItem(items, p) <==> e in items && e.name != ResolveName(p).value
    ensures !HasName(AfterRemoveItem(items, p), ResolveName(p).value)
    ensures |AfterRemoveItem(items, p)| <= |items|
  {
    var n := ResolveName(p).value;
    WithoutMembers(items, n);
    WithoutHasName(items, n, n);
  }

  /** The relative order of the kept entries is that of the old list: removing
      from a concatenation removes from each part. */
  lemma RemoveItemKeepsOrder(a: seq<Entry>, b: seq<Entry>, p: RemovePayload)
    ensures AfterRemoveItem(a + b, p) == AfterRemoveItem(a, p) + AfterRemoveItem(b, p)
  {
    if ResolveName(p).Some? {
      WithoutConcat(a, b, ResolveName(p).value);
    }
  }

  lemma RemoveItemAbsentIsNoop(items: seq<Entry>, p: RemovePayload)
    requires ResolveName(p).Some? && !HasName(items, ResolveName(p).value)
    ensures AfterRemoveItem(items, p) == items
  {
    WithoutAbsent(items, ResolveName(p).value);
  }

  lemma RemoveItemIdempotent(items: seq<Entry>, p: RemovePayload)
    ensures AfterRemoveItem(AfterRemoveItem(items, p), p) == AfterRemoveItem(items, p)
  {
    if ResolveName(p).Some? {
      WithoutIdempotent(items, ResolveName(p).value);
    }
  }

  /** On a well-formed cart removeItem drops exactly the one matching entry. */
  lemma RemoveItemDropsOne(items: seq<Entry>, p: RemovePayload, i: int)
    requires NamesUnique(items) && ResolveName(p).Some?
    requires 0 <= i < |items| && items[i].name == ResolveName(p).value
    ensures AfterRemoveItem(items, p) == items[..i] + items[i + 1..]
    ensures |AfterRemoveItem(items, p)| == |items| - 1
  {
    WithoutUniqueIsSplice(items, ResolveName(p).value, i);
  }

  lemma RemoveItemPreservesWellformed(items: seq<Entry>, p: RemovePayload)
    ensures Wellformed(items) ==> Wellformed(AfterRemoveItem(items, p))
  {
    if Wellformed(items) && ResolveName(p).Some? {
      var n := ResolveName(p).value;
      WithoutKeepsNamesUnique(items, n);
      WithoutMembers(items, n);
    }
  }

  // ---------------------------------------------------------------------------
  // updateQuantity properties

  /** A malformed payload or an absent name leaves the items unchanged. */
  lemma UpdateQuantityNoop(items: seq<Entry>, u: Option<QuantityUpdate>)
    requires !ValidUpdate(u) || !HasName(items, u.value.name.value)
    ensures AfterUpdateQuantity(items, u) == items
  {
  }

  /** A non-positive quantity removes the first entry with the name. */
  lemma UpdateQuantityRemoves(items: seq<Entry>, u: Option<QuantityUpdate>, i: int)
    requires ValidUpdate(u) && u.value.quantity.value <= 0
    requires 0 <= i < |items| && items[i].name == u.value.name.value
    requires forall j :: 0 <= j < i ==> items[j].name != items[i].name
    ensures AfterUpdateQuantity(items, u) == items[..i] + items[i + 1..]
    ensures |AfterUpdateQuantity(items, u)| == |items| - 1
  {
    assert IndexOf(items, u.value.name.value) == i;
  }

  /** A positive quantity overwrites (does not add to) the entry's quantity. */
  lemma UpdateQuantitySets(items: seq<Entry>, u: Option<QuantityUpdate>, i: int)
    requires ValidUpdate(u) && u.value.quantity.value > 0
    requires 0 <= i < |items| && items[i].name == u.value.name.value
    requires forall j :: 0 <= j < i ==> items[j].name != items[i].name
    ensures |AfterUpdateQuantity(items, u)| == |items|
    ensures AfterUpdateQuantity(items, u)[i] == items[i].(quantity := u.value.quantity)
    ensures forall j :: 0 <= j < |items| && j != i ==> AfterUpdateQuantity(items, u)[j] == items[j]
  {
    assert IndexOf(items, u.value.name.value) == i;
  }

  /** On a well-formed cart, updating to a non-positive quantity has the same
      effect as removeItem of that name. */
  lemma UpdateToNonPositiveIsRemove(items: seq<Entry>, u: Option<QuantityUpdate>)
    requires NamesUnique(items) && ValidUpdate(u) && u.value.quantity.value <= 0
    ensures AfterUpdateQuantity(items, u) == AfterRemoveItem(items, ByName(u.value.name.value))
  {
    var n := u.value.name.value;
    var i := IndexOf(items, n);
    if i < 0 {
      WithoutAbsent(items, n);
    } else {
      WithoutUniqueIsSplice(items, n, i);
    }
  }

  lemma UpdateQuantityPreservesWellformed(items: seq<Entry>, u: Option<QuantityUpdate>)
    ensures Wellformed(items) ==> Wellformed(AfterUpdateQuantity(items, u))
  {
    if Wellformed(items) && ValidUpdate(u) {
      var n, q := u.value.name.value, u.value.quantity.value;
      var i := IndexOf(items, n);
      var r := AfterUpdateQuantity(items, u);
      if i >= 0 && q <= 0 {
        WithoutUniqueIsSplice(items, n, i);
        WithoutKeepsNamesUnique(items, n);
        WithoutMembers(items, n);
      } else if i >= 0 {
        assert forall k :: 0 <= k < |r| ==> r[k].name == items[k].name;
        forall e | e in r ensures e.quantity.Some? && e.quantity.value >= 1 {
          var k :| 0 <= k < |r| && r[k] == e;
          if k != i {
            assert items[k] in items;
          }
        }
      }
    }
  }
}
