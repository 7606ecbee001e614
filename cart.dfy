/**
 * The cart: the denormalised snapshot `addToCart` writes, the single
 * local-storage slot `groceryCart` that holds it, and the sums the later
 * pages compute over it.
 */
module Cart {
  import opened Wrappers
  import opened Decimal
  import opened KeyOrder
  import opened Catalog

  datatype CartItem = CartItem(id: nat, name: string, pkg: string, qty: string, price: nat, image: string)

  /** The fewest selected products `addToCart` accepts. */
  const MinimumItems: nat := 10

  /** The package text every item gets; kept for compatibility with older carts. */
  const StandardPackage := "Standard"

  const MinimumPrefix := "Please select at least 10 items to proceed. You have selected "

  /** The toast shown when fewer than ten products are selected. */
  function MinimumMessage(count: nat): string {
    MinimumPrefix + Digits(count) + "."
  }

  /** The message carries the selected count and nothing else, so the count can be read back from it. */
  lemma MinimumMessageReportsCount(count: nat)
    ensures var m := MinimumMessage(count);
      |m| > |MinimumPrefix| + 1 && m[..|MinimumPrefix|] == MinimumPrefix && m[|m| - 1] == '.' &&
      AllDigits(m[|MinimumPrefix|..|m| - 1]) && ParseNat(m[|MinimumPrefix|..|m| - 1]) == count
  {
    var m := MinimumMessage(count);
    assert m[|MinimumPrefix|..|m| - 1] == Digits(count);
    ParseDigits(count);
  }

  /** What `addToCart` reports: the toast for too few items, or the items it stored. */
  datatype AddResult = TooFewItems(message: string) | Stored(items: seq<CartItem>)

  /** The keys whose entry exists and is selected, in the order of `keys`. */
  function SelectedKeys(t: Table, keys: seq<nat>): seq<nat> {
    if keys == [] then []
    else (if keys[0] in t && t[keys[0]].isSelected then [keys[0]] else []) + SelectedKeys(t, keys[1..])
  }

  /** The filter keeps exactly the selected keys. */
  lemma {:induction false} SelectedKeysMembers(t: Table, keys: seq<nat>)
    ensures forall x :: x in SelectedKeys(t, keys) <==> x in keys && x in t && t[x].isSelected
  {
    if keys != [] {
      SelectedKeysMembers(t, keys[1..]);
      assert forall x :: x in keys <==> x == keys[0] || x in keys[1..];
    }
  }

  /** The filter of a duplicate-free list is duplicate-free. */
  lemma {:induction false} SelectedKeysDistinct(t: Table, keys: seq<nat>)
    requires Distinct(keys)
    ensures Distinct(SelectedKeys(t, keys))
  {
    if keys != [] {
      var k := keys[0];
      var rest := SelectedKeys(t, keys[1..]);
      SelectedKeysDistinct(t, keys[1..]);
      SelectedKeysMembers(t, keys[1..]);
      if k in t && t[k].isSelected {
        assert k !in keys[1..];
        assert forall i :: 0 <= i < |rest| ==> rest[i] in rest;
        assert SelectedKeys(t, keys) == [k] + rest;
      }
    }
  }

  /** The filter of an increasing list is increasing. */
  lemma {:induction false} SelectedKeysIncreasing(t: Table, keys: seq<nat>)
    requires Increasing(keys)
    ensures Increasing(SelectedKeys(t, keys))
  {
    if keys != [] {
      var k := keys[0];
      var rest := SelectedKeys(t, keys[1..]);
      SelectedKeysIncreasing(t, keys[1..]);
      SelectedKeysMembers(t, keys[1..]);
      if k in t && t[k].isSelected {
        assert forall x :: x in keys[1..] ==> k < x;
        var r := [k] + rest;
        forall i, j | 0 <= i < j < |r|
          ensures r[i] < r[j]
        {
          assert r[j] == rest[j - 1] && rest[j - 1] in rest;
          if i > 0 {
            assert r[i] == rest[i - 1];
          }
        }
        assert SelectedKeys(t, keys) == r;
      }
    }
  }

  /** Filtering the ascending listing of a key set starts with its least key. */
  lemma SelectedKeysStep(t: Table, s: set<nat>, m: nat)
    requires s != {} && m == Min(s)
    ensures m in t && t[m].isSelected ==>
      SelectedKeys(t, Ascending(s)) == [m] + SelectedKeys(t, Ascending(s - {m}))
    ensures !(m in t && t[m].isSelected) ==>
      SelectedKeys(t, Ascending(s)) == SelectedKeys(t, Ascending(s - {m}))
  {
    var keys := Ascending(s);
    assert keys[1..] == Ascending(s - {m});
  }

  /** The selected ids, listed in ascending key order as the browser enumerates integer keys. */
  ghost function SelectedIds(t: Table): seq<nat> {
    SelectedKeys(t, Ascending(t.Keys))
  }

  /** One step of listing the selected keys: take the least remaining key and keep it if it is selected. */
  lemma SelectedIdsStep(t: Table, remaining: set<nat>, m: nat, acc: seq<nat>)
    requires remaining != {} && m == Min(remaining)
    requires acc + SelectedKeys(t, Ascending(remaining)) == SelectedIds(t)
    ensures (if m in t && t[m].isSelected then acc + [m] else acc) + SelectedKeys(t, Ascending(remaining - {m}))
            == SelectedIds(t)
  {
    SelectedKeysStep(t, remaining, m);
    var rest := SelectedKeys(t, Ascending(remaining - {m}));
    if m in t && t[m].isSelected {
      assert acc + ([m] + rest) == (acc + [m]) + rest;
    }
  }

  /** The selected ids are strictly ascending and are exactly the keys whose entry is selected. */
  lemma SelectedIdsSpec(t: Table)
    ensures Increasing(SelectedIds(t))
    ensures forall x :: x in SelectedIds(t) <==> x in t && t[x].isSelected
  {
    AscendingSpec(t.Keys);
    SelectedKeysMembers(t, Ascending(t.Keys));
    SelectedKeysIncreasing(t, Ascending(t.Keys));
  }

  /** One row of the snapshot: product fields copied, quantity and price from the chosen option. */
  function ItemOf(p: Product, s: State): CartItem
    requires s.selectedOptionIndex < |p.options|
  {
    var option := p.options[s.selectedOptionIndex];
    CartItem(p.id, p.name, StandardPackage, option.qtyLabel, option.price, p.image)
  }

  /** The row pushed for one selected id, or none when the product or its state is missing. */
  function ItemFor(ps: seq<Product>, t: Table, id: nat): seq<CartItem>
    requires IndicesValid(ps, t)
  {
    match FindProduct(ps, id)
    case None => []
    case Some(p) => if id in t then [ItemOf(p, t[id])] else []
  }

  /** The items `addToCart` pushes for the ids `ids`, in that order. */
  function Snapshot(ps: seq<Product>, t: Table, ids: seq<nat>): seq<CartItem>
    requires IndicesValid(ps, t)
  {
    if ids == [] then [] else ItemFor(ps, t, ids[0]) + Snapshot(ps, t, ids[1..])
  }

  /** The snapshot of a suffix of `ids` starts with the item for its first id. */
  lemma SnapshotStep(ps: seq<Product>, t: Table, ids: seq<nat>, i: nat)
    requires IndicesValid(ps, t) && i < |ids|
    ensures Snapshot(ps, t, ids[i..]) == ItemFor(ps, t, ids[i]) + Snapshot(ps, t, ids[i + 1..])
  {
    assert ids[i..][1..] == ids[i + 1..];
  }

  /** One step of building a snapshot: the item for the next id, if its product and entry exist, is appended. */
  lemma SnapshotLoopStep(ps: seq<Product>, t: Table, ids: seq<nat>, i: nat, acc: seq<CartItem>)
    requires IndicesValid(ps, t) && i < |ids|
    requires acc + Snapshot(ps, t, ids[i..]) == Snapshot(ps, t, ids)
    ensures FindProduct(ps, ids[i]).Some? && ids[i] in t ==>
      acc + [ItemOf(FindProduct(ps, ids[i]).value, t[ids[i]])] + Snapshot(ps, t, ids[i + 1..]) == Snapshot(ps, t, ids)
    ensures !(FindProduct(ps, ids[i]).Some? && ids[i] in t) ==>
      acc + Snapshot(ps, t, ids[i + 1..]) == Snapshot(ps, t, ids)
  {
    SnapshotStep(ps, t, ids, i);
    var rest := Snapshot(ps, t, ids[i + 1..]);
    if FindProduct(ps, ids[i]).Some? && ids[i] in t {
      var item := ItemOf(FindProduct(ps, ids[i]).value, t[ids[i]]);
      assert ItemFor(ps, t, ids[i]) == [item];
      assert acc + ([item] + rest) == acc + [item] + rest;
    } else {
      assert ItemFor(ps, t, ids[i]) == [];
      assert [] + rest == rest;
    }
  }

  /** Every item of a snapshot carries the standard package. */
  lemma {:induction false} SnapshotStandard(ps: seq<Product>, t: Table, ids: seq<nat>)
    requires IndicesValid(ps, t)
    ensures forall item :: item in Snapshot(ps, t, ids) ==> item.pkg == StandardPackage
    decreases |ids|
  {
    if ids != [] {
      SnapshotStandard(ps, t, ids[1..]);
    }
  }

  /** The cart `addToCart` stores for the current selection. */
  ghost function CartSnapshot(ps: seq<Product>, t: Table): seq<CartItem>
    requires IndicesValid(ps, t)
  {
    Snapshot(ps, t, SelectedIds(t))
  }

  /** The sum of the item prices, the figure every later page shows as the total. */
  function CartTotal(items: seq<CartItem>): nat {
    if items == [] then 0 else items[0].price + CartTotal(items[1..])
  }

  lemma {:induction false} CartTotalAppend(a: seq<CartItem>, b: seq<CartItem>)
    ensures CartTotal(a + b) == CartTotal(a) + CartTotal(b)
  {
    if a == [] {
      assert a + b == b;
    } else {
      assert (a + b)[0] == a[0];
      assert (a + b)[1..] == a[1..] + b;
      CartTotalAppend(a[1..], b);
    }
  }

  function CartIds(items: seq<CartItem>): (ids: seq<nat>)
    ensures |ids| == |items| && forall k :: 0 <= k < |items| ==> ids[k] == items[k].id
  {
    if items == [] then [] else [items[0].id] + CartIds(items[1..])
  }

  /** A stored row is the snapshot of product `p` under its state `s`. */
  predicate CopiesProduct(item: CartItem, p: Product, s: State) {
    s.selectedOptionIndex < |p.options| &&
    item.id == p.id && item.name == p.name && item.image == p.image &&
    item.pkg == StandardPackage &&
    item.qty == p.options[s.selectedOptionIndex].qtyLabel &&
    item.price == p.options[s.selectedOptionIndex].price
  }

  /** When every id has a product and a state, the snapshot has one row per id, in order. */
  lemma {:induction false} SnapshotIds(ps: seq<Product>, t: Table, ids: seq<nat>)
    requires IndicesValid(ps, t)
    requires forall id :: id in ids ==> id in t && FindProduct(ps, id).Some?
    ensures CartIds(Snapshot(ps, t, ids)) == ids
  {
    if ids != [] {
      assert forall id :: id in ids[1..] ==> id in ids;
      SnapshotIds(ps, t, ids[1..]);
      var p0 := FindProduct(ps, ids[0]).value;
      var rest := Snapshot(ps, t, ids[1..]);
      assert Snapshot(ps, t, ids) == [ItemOf(p0, t[ids[0]])] + rest;
      assert CartIds([ItemOf(p0, t[ids[0]])] + rest) == [ids[0]] + CartIds(rest);
      assert ids == [ids[0]] + ids[1..];
    }
  }

  /** Row `k` of the snapshot copies the product whose id is `ids[k]`. */
  lemma {:induction false} SnapshotRow(ps: seq<Product>, t: Table, ids: seq<nat>, k: nat, p: Product)
    requires UniqueIds(ps) && IndicesValid(ps, t)
    requires forall id :: id in ids ==> id in t && FindProduct(ps, id).Some?
    requires k < |ids| && p in ps && p.id == ids[k]
    ensures k < |Snapshot(ps, t, ids)| && CopiesProduct(Snapshot(ps, t, ids)[k], p, t[p.id])
    decreases k
  {
    SnapshotIds(ps, t, ids);
    var p0 := FindProduct(ps, ids[0]).value;
    var rest := Snapshot(ps, t, ids[1..]);
    assert Snapshot(ps, t, ids) == [ItemOf(p0, t[ids[0]])] + rest;
    if k == 0 {
      FindEach(ps, p);
    } else {
      assert forall id :: id in ids[1..] ==> id in ids;
      SnapshotRow(ps, t, ids[1..], k - 1, p);
    }
  }

  /** The chosen price of the product with id `id`, or 0 when there is none. */
  function PriceOf(ps: seq<Product>, t: Table, id: nat): nat {
    match FindProduct(ps, id)
    case None => 0
    case Some(p) =>
      if id in t && t[id].selectedOptionIndex < |p.options| then p.options[t[id].selectedOptionIndex].price else 0
  }

  /** The chosen prices summed over a list of ids. */
  function IdsTotal(ps: seq<Product>, t: Table, ids: seq<nat>): nat {
    if ids == [] then 0 else PriceOf(ps, t, ids[0]) + IdsTotal(ps, t, ids[1..])
  }

  lemma {:induction false} IdsTotalAppend(ps: seq<Product>, t: Table, a: seq<nat>, b: seq<nat>)
    ensures IdsTotal(ps, t, a + b) == IdsTotal(ps, t, a) + IdsTotal(ps, t, b)
  {
    if a == [] {
      assert a + b == b;
    } else {
      assert (a + b)[0] == a[0];
      assert (a + b)[1..] == a[1..] + b;
      IdsTotalAppend(ps, t, a[1..], b);
    }
  }

  /** The snapshot's prices add up to the chosen prices of its ids. */
  lemma {:induction false} SnapshotTotal(ps: seq<Product>, t: Table, ids: seq<nat>)
    requires IndicesValid(ps, t)
    ensures CartTotal(Snapshot(ps, t, ids)) == IdsTotal(ps, t, ids)
  {
    if ids != [] {
      SnapshotTotal(ps, t, ids[1..]);
      CartTotalAppend(ItemFor(ps, t, ids[0]), Snapshot(ps, t, ids[1..]));
    }
  }

  /** The running total over a part of the catalog is the chosen prices of its selected ids. */
  lemma {:induction false} CatalogTotal(all: seq<Product>, ps: seq<Product>, t: Table)
    requires UniqueIds(all) && IndicesValid(all, t)
    requires forall p :: p in ps ==> p in all
    ensures IndicesValid(ps, t)
    ensures SelectedTotal(ps, t) == IdsTotal(all, t, SelectedKeys(t, IdsOf(ps)))
    ensures SelectedCount(ps, t) == |SelectedKeys(t, IdsOf(ps))|
  {
    if ps != [] {
      assert forall p :: p in ps[1..] ==> p in ps;
      CatalogTotal(all, ps[1..], t);
      assert IdsOf(ps)[1..] == IdsOf(ps[1..]);
      FindEach(all, ps[0]);
      var head := if ps[0].id in t && t[ps[0].id].isSelected then [ps[0].id] else [];
      IdsTotalAppend(all, t, head, SelectedKeys(t, IdsOf(ps[1..])));
    }
  }

  /** Sequence `ys` without its element at `k`. */
  function Without(ys: seq<nat>, k: nat): (r: seq<nat>)
    requires k < |ys|
    ensures |r| == |ys| - 1
    ensures forall i :: 0 <= i < k ==> r[i] == ys[i]
    ensures forall i :: k <= i < |r| ==> r[i] == ys[i + 1]
  {
    ys[..k] + ys[k + 1..]
  }

  lemma WithoutDistinct(ys: seq<nat>, k: nat)
    requires k < |ys| && Distinct(ys)
    ensures Distinct(Without(ys, k))
    ensures forall y :: y in Without(ys, k) <==> y in ys && y != ys[k]
  {
    var r := Without(ys, k);
    forall y | y in ys && y != ys[k] ensures y in r {
      var j :| 0 <= j < |ys| && ys[j] == y;
      if j < k { assert r[j] == y; } else { assert r[j - 1] == y; }
    }
  }

  /** The first element of a non-empty sequence is one of its elements. */
  lemma HeadIsMember(ys: seq<nat>)
    requires ys != []
    ensures ys[0] in ys
  {
  }

  lemma {:induction false} IdsTotalWithout(ps: seq<Product>, t: Table, ys: seq<nat>, k: nat)
    requires k < |ys|
    ensures IdsTotal(ps, t, ys) == PriceOf(ps, t, ys[k]) + IdsTotal(ps, t, Without(ys, k))
  {
    assert ys == ys[..k] + ([ys[k]] + ys[k + 1..]);
    IdsTotalAppend(ps, t, ys[..k], [ys[k]] + ys[k + 1..]);
    IdsTotalAppend(ps, t, [ys[k]], ys[k + 1..]);
    IdsTotalAppend(ps, t, ys[..k], ys[k + 1..]);
  }

  /**
   * Two duplicate-free lists of the same ids have the same length and the
   * same chosen-price sum: the sum does not depend on the order.
   */
  lemma {:induction false} IdsTotalReorder(ps: seq<Product>, t: Table, xs: seq<nat>, ys: seq<nat>)
    requires Distinct(xs) && Distinct(ys)
    requires forall x :: x in xs <==> x in ys
    ensures |xs| == |ys| && IdsTotal(ps, t, xs) == IdsTotal(ps, t, ys)
    decreases |xs|
  {
    if xs == [] {
      if ys != [] {
        HeadIsMember(ys);
      }
    } else {
      var x := xs[0];
      assert x in ys;
      var k :| 0 <= k < |ys| && ys[k] == x;
      var rest := Without(ys, k);
      WithoutDistinct(ys, k);
      IdsTotalWithout(ps, t, ys, k);
      assert Distinct(xs[1..]);
      assert forall y :: y in xs ==> y == x || y in xs[1..];
      assert x !in xs[1..];
      IdsTotalReorder(ps, t, xs[1..], rest);
    }
  }

  /**
   * What `addToCart` stores, given a well-formed catalog and table: one
   * copied row per selected product in ascending id order, as many rows as
   * the running count, and prices that add up to the running total.
   */
  lemma CartSnapshotSpec(ps: seq<Product>, t: Table)
    requires WellFormed(ps) && TableMatches(ps, t)
    ensures var cart := CartSnapshot(ps, t);
      CartIds(cart) == SelectedIds(t) &&
      |cart| == SelectedCount(ps, t) &&
      (forall k, p :: 0 <= k < |cart| && p in ps && p.id == cart[k].id ==> CopiesProduct(cart[k], p, t[p.id])) &&
      CartTotal(cart) == SelectedTotal(ps, t)
  {
    var ids := SelectedIds(t);
    SelectedIdsSpec(t);
    forall id | id in ids ensures id in t && FindProduct(ps, id).Some? {
      var i :| 0 <= i < |ps| && IdsOf(ps)[i] == id;
      assert ps[i] in ps;
    }
    SnapshotIds(ps, t, ids);
    forall k, p | 0 <= k < |ids| && p in ps && p.id == ids[k]
      ensures CopiesProduct(CartSnapshot(ps, t)[k], p, t[p.id])
    {
      SnapshotRow(ps, t, ids, k, p);
    }
    SnapshotTotal(ps, t, ids);
    CatalogTotal(ps, ps, t);
    var byCatalog := SelectedKeys(t, IdsOf(ps));
    assert Distinct(IdsOf(ps));
    SelectedKeysMembers(t, IdsOf(ps));
    SelectedKeysDistinct(t, IdsOf(ps));
    IncreasingIsDistinct(ids);
    IdsTotalReorder(ps, t, ids, byCatalog);
  }

  /** The browser's local storage, reduced to the one slot `groceryCart`. */
  class CartStorage {
    var slot: Option<seq<CartItem>>

    constructor(initial: Option<seq<CartItem>>)
      ensures slot == initial
    {
      slot := initial;
    }

    /** The stored items, or no items when the slot is absent. */
    function LoadCart(): (items: seq<CartItem>)
      reads this
      ensures slot.Some? ==> items == slot.value
      ensures slot.None? ==> items == []
    {
      match slot
      case None => []
      case Some(items) => items
    }

    /** Overwrites the slot. */
    method SetItem(items: seq<CartItem>)
      modifies this
      ensures slot == Some(items)
      ensures LoadCart() == items
    {
      slot := Some(items);
    }

    /** Deletes the slot. */
    method RemoveItem()
      modifies this
      ensures slot == None
      ensures LoadCart() == []
    {
      slot := None;
    }
  }
}
