/**
 * The listing page's state: the loaded catalog and the selection table,
 * with the handlers the rendered markup calls (`setProductOption`,
 * `toggleProduct`, `selectAll`, `addToCart`) and `calculateTotal`.
 */
module Store {
  import opened Wrappers
  import opened KeyOrder
  import opened Catalog
  import opened Cart

  class Storefront {
    /** `products`, fixed once the catalog has loaded. */
    const products: seq<Product>
    /** `productState`. */
    var productState: Table

    /** The catalog is well formed, and every product has exactly one entry with a valid option index. */
    ghost predicate Valid()
      reads this
    {
      WellFormed(products) && TableMatches(products, productState)
    }

    /** The state initialisation of `fetchProducts` once the catalog has been decoded. */
    constructor(loaded: seq<Product>)
      requires WellFormed(loaded)
      ensures Valid()
      ensures products == loaded && productState == InitialState(loaded)
    {
      products := loaded;
      var table: Table := map[];
      for i := 0 to |loaded|
        invariant table == InitialState(loaded[..i])
      {
        IdsOfSnoc(loaded, i);
        table := table[loaded[i].id := State(0, false)];
      }
      assert loaded[..|loaded|] == loaded;
      productState := table;
      InitialStateMatches(loaded);
    }

    method SetProductOption(productId: nat, optionIndex: nat)
      requires Valid()
      requires OptionInRange(products, productId, optionIndex)
      modifies this
      ensures Valid()
      ensures productState == SetOption(old(productState), productId, optionIndex)
    {
      SetOptionKeepsValid(products, productState, productId, optionIndex);
      if productId in productState {
        productState := productState[productId := productState[productId].(selectedOptionIndex := optionIndex)];
      }
    }

    method ToggleProduct(id: nat, isChecked: bool)
      requires Valid()
      modifies this
      ensures Valid()
      ensures productState == Toggle(old(productState), id, isChecked)
    {
      ToggleKeepsValid(products, productState, id, isChecked);
      if id in productState {
        productState := productState[id := productState[id].(isSelected := isChecked)];
      }
    }

    /** Toggle-all: everything becomes unselected if everything was selected, and selected otherwise. */
    method SelectAll()
      requires Valid()
      modifies this
      ensures Valid()
      ensures productState == SelectAllTable(products, old(productState))
    {
      ghost var before := productState;
      var ps, table := products, productState;
      var allSelected := AllSelected(ps, table);
      for i := 0 to |ps|
        invariant table == SetSelected(before, IdsOf(ps[..i]), !allSelected)
      {
        SelectAllStep(ps, before, i, !allSelected, table);
        var id := ps[i].id;
        table := table[id := table[id].(isSelected := !allSelected)];
      }
      assert ps[..|ps|] == ps;
      productState := table;
      SelectAllKeepsValid(ps, before);
    }

    /** The running total shown under the list; the count it also keeps is not returned. */
    method CalculateTotal() returns (total: nat)
      requires Valid()
      ensures total == SelectedTotal(products, productState)
    {
      total := 0;
      var selectedCount := 0;
      for i := 0 to |products|
        invariant IndicesValid(products[i..], productState)
        invariant total + SelectedTotal(products[i..], productState) == SelectedTotal(products, productState)
        invariant selectedCount + SelectedCount(products[i..], productState) == SelectedCount(products, productState)
      {
        var product := products[i];
        assert products[i..][1..] == products[i + 1..];
        if product.id in productState && productState[product.id].isSelected {
          var price := product.options[productState[product.id].selectedOptionIndex].price;
          total := total + price;
          selectedCount := selectedCount + 1;
        }
      }
    }

    /** The ids of the selected products, in ascending key order. */
    method SelectedKeyList() returns (selectedIds: seq<nat>)
      ensures selectedIds == SelectedIds(productState)
    {
      var table := productState;
      var remaining := table.Keys;
      selectedIds := [];
      while remaining != {}
        invariant selectedIds + SelectedKeys(table, Ascending(remaining)) == SelectedIds(table)
        decreases |remaining|
      {
        var id := LeastKey(remaining);
        SelectedIdsStep(table, remaining, id, selectedIds);
        if id in table && table[id].isSelected {
          selectedIds := selectedIds + [id];
        }
        remaining := remaining - {id};
      }
    }

    /** The `forEach` of `addToCart` that pushes one item per selected id. */
    method BuildCartItems(selectedIds: seq<nat>) returns (cartItems: seq<CartItem>)
      requires IndicesValid(products, productState)
      ensures cartItems == Snapshot(products, productState, selectedIds)
    {
      var ps, t := products, productState;
      cartItems := [];
      for i := 0 to |selectedIds|
        invariant cartItems + Snapshot(ps, t, selectedIds[i..]) == Snapshot(ps, t, selectedIds)
      {
        var id := selectedIds[i];
        SnapshotLoopStep(ps, t, selectedIds, i, cartItems);
        var product := FindProduct(ps, id);
        if product.Some? && id in t {
          var option := product.value.options[t[id].selectedOptionIndex];
          var item := CartItem(product.value.id, product.value.name, StandardPackage,
                               option.qtyLabel, option.price, product.value.image);
          assert item == ItemOf(product.value, t[id]);
          cartItems := cartItems + [item];
        }
      }
    }

    /**
     * Refuses with a message naming the count when fewer than ten products
     * are selected; otherwise overwrites the storage slot with the snapshot
     * of the selected products in ascending id order.
     */
    method AddToCart(storage: CartStorage) returns (r: AddResult)
      requires Valid()
      modifies storage
      ensures |SelectedIds(productState)| < MinimumItems ==>
        r == TooFewItems(MinimumMessage(|SelectedIds(productState)|)) && storage.slot == old(storage.slot)
      ensures |SelectedIds(productState)| >= MinimumItems ==>
        r == Stored(CartSnapshot(products, productState)) && storage.slot == Some(r.items)
    {
      var selectedIds := SelectedKeyList();
      if |selectedIds| < MinimumItems {
        r := TooFewItems(MinimumMessage(|selectedIds|));
        return;
      }
      var cartItems := BuildCartItems(selectedIds);
      storage.SetItem(cartItems);
      r := Stored(cartItems);
    }
  }
}
