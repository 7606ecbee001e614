/**
 * The product catalog and the selection table `productState` of the
 * listing page: one entry per product id holding the index of the chosen
 * quantity option and whether the product's checkbox is ticked.
 */
module Catalog {
  import opened Wrappers

  /** A purchasable quantity tier of a product (its label is held in `qtyLabel`, since `label` is a Dafny keyword). Prices are whole amounts. */
  datatype ProductOption = ProductOption(qtyLabel: string, price: nat)

  datatype Product = Product(id: nat, name: string, image: string, options: seq<ProductOption>)

  datatype State = State(selectedOptionIndex: nat, isSelected: bool)

  /** `productState`, keyed by product id. */
  type Table = map<nat, State>

  /** The product ids in catalog order. */
  function IdsOf(ps: seq<Product>): (ids: seq<nat>)
    ensures |ids| == |ps|
    ensures forall i :: 0 <= i < |ps| ==> ids[i] == ps[i].id
  {
    if ps == [] then [] else [ps[0].id] + IdsOf(ps[1..])
  }

  lemma IdsOfSnoc(ps: seq<Product>, i: nat)
    requires i < |ps|
    ensures IdsOf(ps[..i + 1]) == IdsOf(ps[..i]) + [ps[i].id]
  {
  }

  lemma IdsOfMember(ps: seq<Product>, p: Product)
    requires p in ps
    ensures p.id in IdsOf(ps)
  {
    var i :| 0 <= i < |ps| && ps[i] == p;
    assert IdsOf(ps)[i] == p.id;
  }

  predicate UniqueIds(ps: seq<Product>) {
    forall i, j :: 0 <= i < j < |ps| ==> ps[i].id != ps[j].id
  }

  /** What the catalog resource must satisfy: distinct ids, and every product has an option to show. */
  predicate WellFormed(ps: seq<Product>) {
    UniqueIds(ps) && forall p :: p in ps ==> |p.options| > 0
  }

  /** Every product has an entry whose option index points into its options. */
  predicate IndicesValid(ps: seq<Product>, t: Table) {
    forall p :: p in ps ==> p.id in t && t[p.id].selectedOptionIndex < |p.options|
  }

  /** The table has exactly the catalog's ids as keys, and every chosen index is valid. */
  ghost predicate TableMatches(ps: seq<Product>, t: Table) {
    (forall id :: id in t <==> id in IdsOf(ps)) && IndicesValid(ps, t)
  }

  /** The first product with id `id`, if there is one. */
  function FindProduct(ps: seq<Product>, id: nat): (r: Option<Product>)
    ensures r.Some? ==> r.value in ps && r.value.id == id
    ensures r.None? <==> forall p :: p in ps ==> p.id != id
  {
    if ps == [] then None
    else if ps[0].id == id then Some(ps[0])
    else
      assert forall p :: p in ps ==> p == ps[0] || p in ps[1..];
      FindProduct(ps[1..], id)
  }

  /** With distinct ids the lookup finds each product of the catalog. */
  lemma {:induction false} FindEach(ps: seq<Product>, p: Product)
    requires UniqueIds(ps) && p in ps
    ensures FindProduct(ps, p.id) == Some(p)
  {
    if ps[0] != p {
      assert p in ps[1..];
      var k :| 0 <= k < |ps[1..]| && ps[1..][k] == p;
      assert ps[k + 1] == p;
      assert ps[0].id != p.id;
      FindEach(ps[1..], p);
    }
  }

  /** The table built when the catalog is loaded: every product unselected, option 0. */
  function InitialState(ps: seq<Product>): (t: Table)
    ensures forall id :: id in t <==> id in IdsOf(ps)
    ensures forall id :: id in t ==> t[id] == State(0, false)
  {
    map id | id in IdsOf(ps) :: State(0, false)
  }

  lemma InitialStateMatches(ps: seq<Product>)
    requires WellFormed(ps)
    ensures TableMatches(ps, InitialState(ps))
  {
    forall p | p in ps ensures p.id in InitialState(ps) {
      IdsOfMember(ps, p);
    }
  }

  /** The index a rendered tab of product `id` can pass: one of that product's options. */
  predicate OptionInRange(ps: seq<Product>, id: nat, optionIndex: nat) {
    forall p :: p in ps && p.id == id ==> optionIndex < |p.options|
  }

  /** Records option `optionIndex` as chosen for `id`, when `id` has an entry. */
  function SetOption(t: Table, id: nat, optionIndex: nat): (r: Table)
    ensures r.Keys == t.Keys
    ensures id in t ==> r[id] == State(optionIndex, t[id].isSelected)
    ensures forall k :: k in t && k != id ==> r[k] == t[k]
  {
    if id in t then t[id := t[id].(selectedOptionIndex := optionIndex)] else t
  }

  /** Records whether `id` is ticked, when `id` has an entry. */
  function Toggle(t: Table, id: nat, b: bool): (r: Table)
    ensures r.Keys == t.Keys
    ensures id in t ==> r[id] == State(t[id].selectedOptionIndex, b)
    ensures forall k :: k in t && k != id ==> r[k] == t[k]
  {
    if id in t then t[id := t[id].(isSelected := b)] else t
  }

  lemma SetOptionKeepsValid(ps: seq<Product>, t: Table, id: nat, optionIndex: nat)
    requires TableMatches(ps, t) && OptionInRange(ps, id, optionIndex)
    ensures TableMatches(ps, SetOption(t, id, optionIndex))
  {
  }

  lemma ToggleKeepsValid(ps: seq<Product>, t: Table, id: nat, b: bool)
    requires TableMatches(ps, t)
    ensures TableMatches(ps, Toggle(t, id, b))
  {
  }

  /** Every catalog product has an entry and is selected. */
  predicate AllSelected(ps: seq<Product>, t: Table) {
    forall p :: p in ps ==> p.id in t && t[p.id].isSelected
  }

  predicate NoneSelected(ps: seq<Product>, t: Table) {
    forall p :: p in ps ==> p.id in t && !t[p.id].isSelected
  }

  /** The table with `isSelected := b` for the entries of `ids`, everything else as in `t`. */
  function SetSelected(t: Table, ids: seq<nat>, b: bool): (r: Table)
    ensures r.Keys == t.Keys
  {
    map id | id in t :: if id in ids then t[id].(isSelected := b) else t[id]
  }

  /** One more step of the `forEach` of select-all. */
  lemma SetSelectedSnoc(t: Table, ids: seq<nat>, x: nat, b: bool)
    requires x in t
    ensures SetSelected(t, ids + [x], b) == SetSelected(t, ids, b)[x := SetSelected(t, ids, b)[x].(isSelected := b)]
  {
  }

  /** The table after select-all. */
  function SelectAllTable(ps: seq<Product>, t: Table): (r: Table)
    ensures r.Keys == t.Keys
  {
    SetSelected(t, IdsOf(ps), !AllSelected(ps, t))
  }

  /** Select-all gives every catalog product `!AllSelected`, keeps the option indices and touches nothing else. */
  lemma SelectAllTableSpec(ps: seq<Product>, t: Table)
    ensures forall id :: id in t ==> SelectAllTable(ps, t)[id].selectedOptionIndex == t[id].selectedOptionIndex
    ensures forall id :: id in t && id in IdsOf(ps) ==> SelectAllTable(ps, t)[id].isSelected == !AllSelected(ps, t)
    ensures forall id :: id in t && id !in IdsOf(ps) ==> SelectAllTable(ps, t)[id] == t[id]
  {
  }

  lemma SelectAllKeepsValid(ps: seq<Product>, t: Table)
    requires TableMatches(ps, t)
    ensures TableMatches(ps, SelectAllTable(ps, t))
  {
    SelectAllTableSpec(ps, t);
  }

  /** One step of the select-all loop: the entry of the next product exists and setting it extends the prefix. */
  lemma SelectAllStep(ps: seq<Product>, t: Table, i: nat, b: bool, u: Table)
    requires IndicesValid(ps, t) && i < |ps| && u == SetSelected(t, IdsOf(ps[..i]), b)
    ensures ps[i].id in u
    ensures u[ps[i].id := u[ps[i].id].(isSelected := b)] == SetSelected(t, IdsOf(ps[..i + 1]), b)
  {
    IdsOfSnoc(ps, i);
    assert ps[i] in ps;
    SetSelectedSnoc(t, IdsOf(ps[..i]), ps[i].id, b);
  }

  /** Select-all from a fully selected catalog clears it, and a second one restores the table. */
  lemma SelectAllFromAll(ps: seq<Product>, t: Table)
    requires TableMatches(ps, t) && AllSelected(ps, t)
    ensures NoneSelected(ps, SelectAllTable(ps, t))
    ensures SelectAllTable(ps, SelectAllTable(ps, t)) == t
  {
    var once := SelectAllTable(ps, t);
    SelectAllTableSpec(ps, t);
    forall p | p in ps ensures p.id in IdsOf(ps) {
      IdsOfMember(ps, p);
    }
    assert NoneSelected(ps, once);
    if ps != [] {
      assert ps[0] in ps;
      assert !AllSelected(ps, once);
    }
    var twice := SelectAllTable(ps, once);
    SelectAllTableSpec(ps, once);
    forall id | id in t
      ensures twice[id] == t[id]
    {
      if id in IdsOf(ps) {
        var k :| 0 <= k < |ps| && IdsOf(ps)[k] == id;
        assert ps[k] in ps;
      }
    }
    assert twice == t;
  }

  /** Select-all from a partly selected catalog selects everything, and a second one clears it. */
  lemma SelectAllFromPartial(ps: seq<Product>, t: Table)
    requires TableMatches(ps, t) && !AllSelected(ps, t)
    ensures AllSelected(ps, SelectAllTable(ps, t))
    ensures NoneSelected(ps, SelectAllTable(ps, SelectAllTable(ps, t)))
    ensures NoneSelected(ps, t) ==> SelectAllTable(ps, SelectAllTable(ps, t)) == t
  {
    var once := SelectAllTable(ps, t);
    SelectAllTableSpec(ps, t);
    forall p | p in ps ensures p.id in IdsOf(ps) {
      IdsOfMember(ps, p);
    }
    assert AllSelected(ps, once);
    var twice := SelectAllTable(ps, once);
    SelectAllTableSpec(ps, once);
    assert NoneSelected(ps, twice);
    if NoneSelected(ps, t) {
      assert forall id :: id in t ==> twice[id] == t[id];
      assert twice == t;
    }
  }

  /**
   * Select-all twice in a row restores the table exactly when every product
   * was selected or none was; from a mixed selection it ends with none selected.
   */
  lemma SelectAllTwice(ps: seq<Product>, t: Table)
    requires TableMatches(ps, t)
    ensures SelectAllTable(ps, SelectAllTable(ps, t)) == t <==> AllSelected(ps, t) || NoneSelected(ps, t)
    ensures !AllSelected(ps, t) ==> NoneSelected(ps, SelectAllTable(ps, SelectAllTable(ps, t)))
  {
    if AllSelected(ps, t) {
      SelectAllFromAll(ps, t);
    } else {
      SelectAllFromPartial(ps, t);
      if !NoneSelected(ps, t) {
        var p :| p in ps && t[p.id].isSelected;
        assert SelectAllTable(ps, SelectAllTable(ps, t))[p.id] != t[p.id];
      }
    }
  }

  /**
   * The running total: the price of the chosen option summed over the
   * selected products, in catalog order.
   */
  function SelectedTotal(ps: seq<Product>, t: Table): nat
    requires IndicesValid(ps, t)
  {
    if ps == [] then 0
    else
      var p := ps[0];
      (if p.id in t && t[p.id].isSelected then p.options[t[p.id].selectedOptionIndex].price else 0)
        + SelectedTotal(ps[1..], t)
  }

  /** The number of selected products, counted in catalog order. */
  function SelectedCount(ps: seq<Product>, t: Table): nat {
    if ps == [] then 0
    else (if ps[0].id in t && t[ps[0].id].isSelected then 1 else 0) + SelectedCount(ps[1..], t)
  }

  lemma {:induction false} NoneSelectedTotal(ps: seq<Product>, t: Table)
    requires IndicesValid(ps, t) && NoneSelected(ps, t)
    ensures SelectedTotal(ps, t) == 0 && SelectedCount(ps, t) == 0
  {
    if ps != [] {
      assert forall p :: p in ps[1..] ==> p in ps;
      NoneSelectedTotal(ps[1..], t);
    }
  }

  /** The chosen price of product `p` under table `t`. */
  function ChosenPrice(p: Product, t: Table): nat
    requires p.id in t && t[p.id].selectedOptionIndex < |p.options|
  {
    p.options[t[p.id].selectedOptionIndex].price
  }

  /**
   * Ticking an unticked product adds exactly its chosen price to the
   * running total, and one to the count.
   */
  lemma {:induction false} ToggleOnAddsPrice(ps: seq<Product>, t: Table, p: Product)
    requires UniqueIds(ps) && IndicesValid(ps, t) && p in ps && !t[p.id].isSelected
    ensures IndicesValid(ps, Toggle(t, p.id, true))
    ensures SelectedTotal(ps, Toggle(t, p.id, true)) == SelectedTotal(ps, t) + ChosenPrice(p, t)
    ensures SelectedCount(ps, Toggle(t, p.id, true)) == SelectedCount(ps, t) + 1
  {
    var u := Toggle(t, p.id, true);
    assert forall q :: q in ps[1..] ==> q in ps;
    if ps[0] == p {
      assert forall q :: q in ps[1..] ==> q.id != p.id by {
        forall q | q in ps[1..] ensures q.id != p.id {
          var k :| 0 <= k < |ps[1..]| && ps[1..][k] == q;
          assert ps[k + 1] == q;
        }
      }
      UnchangedTotal(ps[1..], t, u, p.id);
    } else {
      assert p in ps[1..];
      assert ps[0].id != p.id by {
        var k :| 0 <= k < |ps[1..]| && ps[1..][k] == p;
        assert ps[k + 1] == p;
      }
      ToggleOnAddsPrice(ps[1..], t, p);
    }
  }

  /** Unticking a ticked product takes exactly its chosen price off the running total, and one off the count. */
  lemma ToggleOffRemovesPrice(ps: seq<Product>, t: Table, p: Product)
    requires UniqueIds(ps) && IndicesValid(ps, t) && p in ps && t[p.id].isSelected
    ensures IndicesValid(ps, Toggle(t, p.id, false))
    ensures SelectedTotal(ps, Toggle(t, p.id, false)) + ChosenPrice(p, t) == SelectedTotal(ps, t)
    ensures SelectedCount(ps, Toggle(t, p.id, false)) + 1 == SelectedCount(ps, t)
  {
    var u := Toggle(t, p.id, false);
    ToggleOnAddsPrice(ps, u, p);
    assert Toggle(u, p.id, true) == t;
  }

  /** Changing the entry of an id the catalog does not list changes neither total nor count. */
  lemma {:induction false} UnchangedTotal(ps: seq<Product>, t: Table, u: Table, id: nat)
    requires IndicesValid(ps, t) && IndicesValid(ps, u)
    requires forall q :: q in ps ==> q.id != id
    requires forall k :: k in t && k != id ==> k in u && u[k] == t[k]
    ensures SelectedTotal(ps, u) == SelectedTotal(ps, t) && SelectedCount(ps, u) == SelectedCount(ps, t)
  {
    if ps != [] {
      assert forall q :: q in ps[1..] ==> q in ps;
      UnchangedTotal(ps[1..], t, u, id);
    }
  }
}
