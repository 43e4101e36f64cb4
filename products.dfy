/** Product records as the data-access layer (model.py) handles them: loosely
    typed rows whose columns may be missing, NULL, or hold a value. */
module Products {

  /** A text column of a row: key missing, SQL NULL / JSON null, or a string. */
  datatype Text = Absent | Null | Str(s: string)

  /** A numeric column of a row.  `Decimal` is what the MySQL driver returns for
      DECIMAL columns; `Int` and `Float` are what JSON and integer columns give. */
  datatype Num = NAbsent | NNull | Int(i: int) | Decimal(d: real) | Float(f: real)

  /** One product row, one field per column selected by the product queries. */
  datatype Product = Product(
    id: int,
    sku: Text,
    name: Text,
    stock: Num,
    category: Text,
    costPrice: Num,
    sellPrice: Num,
    description: Text,
    barcode: Text,
    gst: Num,
    gstRate: Num,
    status: Text,
    deductUnit: Num)

  /** `str(row.get(key))`: a missing or null value prints as "None". */
  function StrGet(t: Text): (r: string)
    ensures t.Str? ==> r == t.s
    ensures !t.Str? ==> r == "None"
  {
    match t
    case Str(s) => s
    case _ => "None"
  }

  /** `str(row.get(key, ""))`: a missing key gives "", a null value "None". */
  function StrGetOr(t: Text): (r: string)
    ensures t.Absent? ==> r == ""
    ensures t != Absent ==> r == StrGet(t)
  {
    match t
    case Absent => ""
    case Null => "None"
    case Str(s) => s
  }

  /** Python truthiness of a text value: only a non-empty string is true. */
  predicate Truthy(t: Text) {
    t.Str? && t.s != ""
  }

  /** The cache's identity of a product: `str(product.get("barcode"))`. */
  function KeyOf(p: Product): string {
    StrGet(p.barcode)
  }

  /** The value of a numeric column, when it holds one. */
  function NumValue(n: Num): (r: real)
    requires n.Int? || n.Decimal? || n.Float?
  {
    match n
    case Int(i) => i as real
    case Decimal(d) => d
    case Float(f) => f
  }

  predicate HasValue(n: Num) {
    n.Int? || n.Decimal? || n.Float?
  }

  /** `float(value)` applied to a present, non-null numeric column; other values
      are left alone.  The conversion is exact in the model. */
  function ToFloat(n: Num): (r: Num)
    ensures HasValue(n) ==> r.Float? && r.f == NumValue(n)
    ensures !HasValue(n) ==> r == n
  {
    match n
    case Int(i) => Float(i as real)
    case Decimal(d) => Float(d)
    case _ => n
  }

  /** `_normalize_product`: a copy of the row whose stock, cost price, sell price
      and tax rate become floats of the same value when present and not null;
      every other column is copied unchanged. */
  function Normalize(p: Product): (r: Product)
    ensures r.id == p.id && r.sku == p.sku && r.name == p.name && r.category == p.category
    ensures r.description == p.description && r.barcode == p.barcode && r.gst == p.gst
    ensures r.status == p.status && r.deductUnit == p.deductUnit
    ensures HasValue(p.stock) ==> r.stock.Float? && r.stock.f == NumValue(p.stock)
    ensures HasValue(p.costPrice) ==> r.costPrice.Float? && r.costPrice.f == NumValue(p.costPrice)
    ensures HasValue(p.sellPrice) ==> r.sellPrice.Float? && r.sellPrice.f == NumValue(p.sellPrice)
    ensures HasValue(p.gstRate) ==> r.gstRate.Float? && r.gstRate.f == NumValue(p.gstRate)
    ensures !HasValue(p.stock) ==> r.stock == p.stock
    ensures !HasValue(p.costPrice) ==> r.costPrice == p.costPrice
    ensures !HasValue(p.sellPrice) ==> r.sellPrice == p.sellPrice
    ensures !HasValue(p.gstRate) ==> r.gstRate == p.gstRate
  {
    p.(stock := ToFloat(p.stock), costPrice := ToFloat(p.costPrice),
       sellPrice := ToFloat(p.sellPrice), gstRate := ToFloat(p.gstRate))
  }

  /** Normalising a normalised row changes nothing. */
  lemma NormalizeIdempotent(p: Product)
    ensures Normalize(Normalize(p)) == Normalize(p)
  {
  }

  /** The columns `search_products` selects; the others are missing from its rows. */
  function SearchColumns(p: Product): (r: Product)
    ensures r.id == p.id && r.name == p.name && r.barcode == p.barcode && r.stock == p.stock
    ensures r.sellPrice == p.sellPrice && r.deductUnit == p.deductUnit
    ensures r.sku == p.sku && r.category == p.category
    ensures r.costPrice == NAbsent && r.description == Absent && r.gst == NAbsent
    ensures r.gstRate == NAbsent && r.status == Absent
  {
    p.(costPrice := NAbsent, description := Absent, gst := NAbsent, gstRate := NAbsent, status := Absent)
  }

  /** ASCII lower-casing (`str.lower` on the characters a barcode or name uses). */
  function LowerChar(c: char): char {
    if 'A' <= c <= 'Z' then (c as int + 32) as char else c
  }

  function Lower(s: string): (r: string)
    ensures |r| == |s|
    ensures forall i :: 0 <= i < |s| ==> r[i] == LowerChar(s[i])
  {
    seq(|s|, i requires 0 <= i < |s| => LowerChar(s[i]))
  }

  /** ASCII upper-casing, for the keyword scan of terminal responses. */
  function UpperChar(c: char): char {
    if 'a' <= c <= 'z' then (c as int - 32) as char else c
  }

  function Upper(s: string): (r: string)
    ensures |r| == |s|
    ensures forall i :: 0 <= i < |s| ==> r[i] == UpperChar(s[i])
  {
    seq(|s|, i requires 0 <= i < |s| => UpperChar(s[i]))
  }

  /** The needle occurs in the haystack starting at position `i`. */
  predicate OccursAt(haystack: string, needle: string, i: int) {
    0 <= i && i + |needle| <= |haystack| && haystack[i..i + |needle|] == needle
  }

  /** Python's `needle in haystack` on strings: some slice equals the needle. */
  predicate Contains(haystack: string, needle: string) {
    exists i :: 0 <= i <= |haystack| && OccursAt(haystack, needle, i)
  }

  /** `str.isspace`: the characters `str.strip()` removes. */
  predicate IsSpace(c: char) {
    || '\t' <= c <= '\r'
    || '\U{1C}' <= c <= ' '
    || c == '\U{85}' || c == '\U{A0}' || c == '\U{1680}'
    || '\U{2000}' <= c <= '\U{200A}'
    || c == '\U{2028}' || c == '\U{2029}' || c == '\U{202F}' || c == '\U{205F}' || c == '\U{3000}'
  }
}
