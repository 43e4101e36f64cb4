/** The effect of `record_sale` on the product and sales tables, as functions
    of the old tables: one sale row per cart item, and a floored stock
    decrement per item, applied in cart order. */
module Sales {
  import opened Outcomes
  import opened Products

  /** One cart line as the register hands it over: the product id (missing when
      the row has no product), its name and barcode, quantity, unit price,
      line amount, and the product's deduct unit. */
  datatype CartItem = CartItem(
    prodId: Option<int>,
    name: Text,
    barcode: Text,
    qty: real,
    price: real,
    amount: real,
    deductUnit: real)

  /** A row of the sales table. */
  datatype SaleRow = SaleRow(id: int, prodId: Option<int>, methodType: string, amount: real, qty: real)

  /** `float(item.get("deduct_unit") or 1.0)`: zero counts as one. */
  function EffectiveDeduct(item: CartItem): (r: real)
    ensures r != 0.0
    ensures item.deductUnit != 0.0 ==> r == item.deductUnit
    ensures item.deductUnit == 0.0 ==> r == 1.0
  {
    if item.deductUnit == 0.0 then 1.0 else item.deductUnit
  }

  /** Stock units one item consumes: quantity times deduct unit. */
  function Units(item: CartItem): real {
    item.qty * EffectiveDeduct(item)
  }

  /** `GREATEST(0, stock - units)`: never below zero; a NULL stock stays NULL. */
  function Deducted(stock: Num, units: real): (r: Num)
    ensures HasValue(stock) ==>
              && r.Decimal? && r.d >= 0.0 && r.d >= NumValue(stock) - units
              && (r.d == 0.0 || r.d == NumValue(stock) - units)
    ensures !HasValue(stock) ==> r == stock
  {
    if HasValue(stock) then
      var left := NumValue(stock) - units;
      Decimal(if left > 0.0 then left else 0.0)
    else stock
  }

  /** `UPDATE products SET stock = GREATEST(0, stock - units) WHERE id = item.id`. */
  function ApplyItem(table: seq<Product>, item: CartItem): (r: seq<Product>)
    ensures |r| == |table|
    ensures forall j :: 0 <= j < |table| ==>
      r[j] == if item.prodId == Some(table[j].id) then table[j].(stock := Deducted(table[j].stock, Units(item))) else table[j]
  {
    seq(|table|, j requires 0 <= j < |table| =>
      if item.prodId == Some(table[j].id) then table[j].(stock := Deducted(table[j].stock, Units(item))) else table[j])
  }

  /** The stock updates of all items, applied one after another in cart order. */
  function ApplyItems(table: seq<Product>, items: seq<CartItem>): seq<Product>
    decreases |items|
  {
    if items == [] then table else ApplyItem(ApplyItems(table, items[..|items| - 1]), items[|items| - 1])
  }

  /** The sale rows inserted for the items, with the given row ids. */
  function SaleRows(items: seq<CartItem>, methodType: string, ids: seq<int>): (r: seq<SaleRow>)
    requires |ids| == |items|
    ensures |r| == |items|
    ensures forall i :: 0 <= i < |items| ==>
      r[i].id == ids[i] && r[i].prodId == items[i].prodId && r[i].methodType == methodType
      && r[i].amount == items[i].amount && r[i].qty == items[i].qty
  {
    seq(|items|, i requires 0 <= i < |items| => SaleRow(ids[i], items[i].prodId, methodType, items[i].amount, items[i].qty))
  }

  /** Whether some item refers to product `id`. */
  predicate Refers(items: seq<CartItem>, id: int) {
    exists i :: 0 <= i < |items| && items[i].prodId == Some(id)
  }

  /** Total stock units the items take from product `id`. */
  function TotalUnits(items: seq<CartItem>, id: int): real
    decreases |items|
  {
    if items == [] then 0.0
    else
      var last := items[|items| - 1];
      TotalUnits(items[..|items| - 1], id) + (if last.prodId == Some(id) then Units(last) else 0.0)
  }

  /** The updates touch only the stock column, keep every row in place, leave the
      products no item refers to untouched, and never leave a stock below zero. */
  lemma {:induction false} ApplyItemsFrame(table: seq<Product>, items: seq<CartItem>)
    ensures |ApplyItems(table, items)| == |table|
    ensures forall j :: 0 <= j < |table| ==>
      ApplyItems(table, items)[j] == table[j].(stock := ApplyItems(table, items)[j].stock)
    ensures forall j :: 0 <= j < |table| && !Refers(items, table[j].id) ==> ApplyItems(table, items)[j] == table[j]
    ensures forall j :: 0 <= j < |table| && Refers(items, table[j].id) && HasValue(table[j].stock) ==>
      ApplyItems(table, items)[j].stock.Decimal? && ApplyItems(table, items)[j].stock.d >= 0.0
    ensures forall j :: 0 <= j < |table| && !HasValue(table[j].stock) ==> ApplyItems(table, items)[j].stock == table[j].stock
    decreases |items|
  {
    if items != [] {
      var init := items[..|items| - 1];
      ApplyItemsFrame(table, init);
      forall j | 0 <= j < |table| && Refers(init, table[j].id)
        ensures Refers(items, table[j].id)
      {
        var i :| 0 <= i < |init| && init[i].prodId == Some(table[j].id);
        assert items[i] == init[i];
      }
      forall j | 0 <= j < |table| && !Refers(items, table[j].id)
        ensures !Refers(init, table[j].id) && items[|items| - 1].prodId != Some(table[j].id)
      {
      }
    }
  }

  /** Applying the decrements one at a time, each floored at zero, gives the
      same stock as taking the total at once and flooring it, as long as no item
      adds stock (a negative quantity would). */
  lemma {:induction false} SequentialEqualsTotal(table: seq<Product>, items: seq<CartItem>, j: nat)
    requires j < |table| && HasValue(table[j].stock)
    requires forall i :: 0 <= i < |items| && items[i].prodId == Some(table[j].id) ==> Units(items[i]) >= 0.0
    ensures |ApplyItems(table, items)| == |table|
    ensures Refers(items, table[j].id) ==>
      var left := NumValue(table[j].stock) - TotalUnits(items, table[j].id);
      ApplyItems(table, items)[j].stock == Decimal(if left > 0.0 then left else 0.0)
    decreases |items|
  {
    ApplyItemsFrame(table, items);
    if items != [] {
      var init, last := items[..|items| - 1], items[|items| - 1];
      var id := table[j].id;
      SequentialEqualsTotal(table, init, j);
      ApplyItemsFrame(table, init);
      if last.prodId == Some(id) {
        if !Refers(init, id) {
          TotalUnitsNone(init, id);
        }
      } else if Refers(items, id) {
        var i :| 0 <= i < |items| && items[i].prodId == Some(id);
        assert init[i] == items[i];
      }
    }
  }

  /** Items that do not refer to a product take nothing from it. */
  lemma {:induction false} TotalUnitsNone(items: seq<CartItem>, id: int)
    requires !Refers(items, id)
    ensures TotalUnits(items, id) == 0.0
    decreases |items|
  {
    if items != [] {
      var init := items[..|items| - 1];
      forall i | 0 <= i < |init| ensures init[i].prodId != Some(id) {
        assert init[i] == items[i];
      }
      TotalUnitsNone(init, id);
    }
  }

  /** A negative quantity gives stock back; flooring each step then differs
      from flooring the total: from 0, taking 5 then returning 3 leaves 3. */
  lemma ReturnAfterFloor()
    ensures Deducted(Deducted(Decimal(0.0), 5.0), -3.0) == Decimal(3.0)
    ensures Deducted(Decimal(0.0), 5.0 + -3.0) == Decimal(0.0)
  {
  }

  /** Statement numbering inside the transaction: item `i` issues statement
      `2 i` (the insert) and `2 i + 1` (the stock update); the commit is `2 n`.
      `fault == Some(k)` means statement `k` raises a database error. */
  predicate FaultsWithin(fault: Option<nat>, n: nat) {
    fault.Some? && fault.value <= 2 * n
  }
}
