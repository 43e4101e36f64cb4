/** Two small rules of the register window: the on-screen keypad that edits a
    quantity or a price, and the stock check made before a product is added to
    the cart. */
module Register {
  import opened Outcomes
  import opened Products

  // ---------------------------------------------------------------------------
  // Keypad

  /** Which cart field the keypad edits. */
  datatype PadMode = Qty | Price

  /** The characters of the keypad's digit and point buttons. */
  predicate IsKey(c: char) {
    '0' <= c <= '9' || c == '.'
  }

  /** The buffers the keypad can reach: a minus sign can only be the first
      character, and never the whole buffer. */
  predicate Reachable(b: string) {
    b != "-" && forall i :: 0 < i < |b| ==> b[i] != '-'
  }

  /** The buffer after the sign button: a leading minus is removed, a non-empty
      buffer gets one, and an empty buffer stays empty. */
  function Toggled(b: string): (r: string)
    ensures |b| > 0 && b[0] == '-' ==> r == b[1..]
    ensures |b| > 0 && b[0] != '-' ==> r == "-" + b
    ensures b == "" ==> r == ""
  {
    if |b| > 0 && b[0] == '-' then b[1..]
    else if b != "" then "-" + b
    else b
  }

  /** On every reachable buffer the sign button is an involution. */
  lemma ToggleInvolution(b: string)
    requires Reachable(b)
    ensures Reachable(Toggled(b))
    ensures Toggled(Toggled(b)) == b
  {
    if |b| > 0 && b[0] == '-' {
      assert b == "-" + b[1..];
    } else if b != "" {
      assert ("-" + b)[1..] == b;
    }
  }

  /** Outside the reachable buffers it is not: a lone minus sign is lost. */
  lemma LoneMinusNotRestored()
    ensures Toggled(Toggled("-")) == ""
  {
  }

  /** The keypad state of the register window. */
  class Keypad {
    var mode: Option<PadMode>
    var buffer: string

    ghost predicate Valid()
      reads this
    {
      Reachable(buffer)
    }

    constructor ()
      ensures Valid() && mode == None && buffer == ""
    {
      mode := None;
      buffer := "";
    }

    /** `_pad_set_mode`: choose the field and start a new entry. */
    method SetMode(m: PadMode)
      modifies this
      ensures Valid() && mode == Some(m) && buffer == ""
    {
      mode := Some(m);
      buffer := "";
    }

    /** `_pad_append`, as the digit and point buttons call it. */
    method Append(c: char)
      requires Valid() && IsKey(c)
      modifies this
      ensures Valid() && buffer == old(buffer) + [c] && mode == old(mode)
    {
      assert (buffer + [c])[|buffer|] == c != '-';
      buffer := buffer + [c];
    }

    /** `_pad_toggle_sign`. */
    method ToggleSign()
      requires Valid()
      modifies this
      ensures Valid() && buffer == Toggled(old(buffer)) && mode == old(mode)
    {
      ToggleInvolution(buffer);
      if |buffer| > 0 && buffer[0] == '-' {
        buffer := buffer[1..];
      } else if buffer != "" {
        buffer := "-" + buffer;
      }
    }

    /** `_pad_clear`: no field, empty entry. */
    method Clear()
      modifies this
      ensures Valid() && mode == None && buffer == ""
    {
      buffer := "";
      mode := None;
    }
  }

  // ---------------------------------------------------------------------------
  // Stock check

  /** The slack the check allows for floating-point rounding. */
  const Tolerance: real := 0.000001

  /** `float(deduct_unit or 1.0)`, with zero also read as one. */
  function DeductOrOne(n: Num): (r: real)
    ensures r != 0.0
    ensures HasValue(n) && NumValue(n) != 0.0 ==> r == NumValue(n)
    ensures !HasValue(n) || NumValue(n) == 0.0 ==> r == 1.0
  {
    if HasValue(n) && NumValue(n) != 0.0 then NumValue(n) else 1.0
  }

  /** `_has_sufficient_stock`: no product (or an empty one) and an unknown stock
      pass; otherwise the quantity may use up to the stock divided by the
      deduct unit, plus the tolerance. */
  function HasSufficientStock(product: Option<Product>, qty: real): (r: bool)
    ensures product.None? || !HasValue(product.value.stock) ==> r
  {
    if product.None? || !HasValue(product.value.stock) then true
    else qty <= NumValue(product.value.stock) / DeductOrOne(product.value.deductUnit) + Tolerance
  }

  /** With a positive deduct unit the check passes exactly when the units the
      sale would take off (quantity times deduct unit) fit in the stock, up to
      the tolerance scaled by the unit. */
  lemma StockCheckUnits(product: Product, qty: real)
    requires HasValue(product.stock)
    requires DeductOrOne(product.deductUnit) > 0.0
    ensures var d := DeductOrOne(product.deductUnit);
      HasSufficientStock(Some(product), qty) <==> qty * d <= NumValue(product.stock) + Tolerance * d
  {
    var d := DeductOrOne(product.deductUnit);
    var s := NumValue(product.stock);
    calc {
      qty <= s / d + Tolerance;
      <==> { assert (s / d + Tolerance) * d == s + Tolerance * d; }
      qty * d <= s + Tolerance * d;
    }
  }

  /** A smaller quantity passes whenever a larger one does. */
  lemma StockCheckMonotone(product: Option<Product>, small: real, large: real)
    requires small <= large && HasSufficientStock(product, large)
    ensures HasSufficientStock(product, small)
  {
  }

  /** With 5 in stock and a deduct unit of 2, a quantity of 2 passes and 3 does
      not; a deduct unit of 0 counts as 1. */
  lemma StockCheckExample(p: Product)
    requires p.stock == Decimal(5.0) && p.deductUnit == Decimal(2.0)
    ensures HasSufficientStock(Some(p), 2.0)
    ensures !HasSufficientStock(Some(p), 3.0)
    ensures HasSufficientStock(Some(p.(deductUnit := Int(0))), 5.0)
    ensures !HasSufficientStock(Some(p.(deductUnit := Int(0))), 6.0)
  {
  }
}
