/** The entities the samples query: catalog products and sales order lines.
    Only the properties the samples read or write are kept. Money amounts
    (decimal) are reals; OrderQty (short) and the identifiers are ints. */
module Domain {

  datatype Product = Product(
    ProductID: int,
    Name: string,
    Color: string,
    StandardCost: real,
    ListPrice: real,
    Size: string,
    NameLength: int,
    TotalSales: real)

  datatype SalesOrderDetail = SalesOrderDetail(
    SalesOrderID: int,
    ProductID: int,
    OrderQty: int,
    UnitPrice: real,
    LineTotal: real)

  /** `new Product { ProductID = id }`: every other property keeps its
      default (strings are empty here, see the README). */
  function ProductWithId(id: int): Product {
    Product(id, "", "", 0.0, 0.0, "", 0, 0.0)
  }

  // Key and value selectors, as named functions so that every query that
  // uses, say, `prod => prod.Name` uses the same term.

  function ProductIdOf(p: Product): int { p.ProductID }
  function NameOf(p: Product): string { p.Name }
  function ColorOf(p: Product): string { p.Color }
  function SizeOf(p: Product): string { p.Size }
  function ListPriceOf(p: Product): real { p.ListPrice }

  function SaleProductIdOf(s: SalesOrderDetail): int { s.ProductID }
  function SalesOrderIdOf(s: SalesOrderDetail): int { s.SalesOrderID }
  function OrderQtyOf(s: SalesOrderDetail): int { s.OrderQty }
  function LineTotalOf(s: SalesOrderDetail): real { s.LineTotal }

  /** string.StartsWith as an ordinal prefix test. */
  function StartsWith(s: string, prefix: string): (b: bool)
    ensures b <==> |prefix| <= |s| && forall i :: 0 <= i < |prefix| ==> s[i] == prefix[i]
  {
    |prefix| <= |s| && s[..|prefix|] == prefix
  }

  /** string.Length: the number of UTF-16 code units. A character above
      U+FFFF is stored as a surrogate pair and counts twice. */
  function Utf16Length(s: string): (n: nat)
    ensures |s| <= n <= 2 * |s|
    ensures n == |s| <==> forall i :: 0 <= i < |s| ==> s[i] as int <= 0xFFFF
  {
    if s == [] then 0
    else
      var rest := Utf16Length(s[1..]);
      assert forall i :: 1 <= i < |s| ==> s[i] == s[1..][i - 1];
      (if s[0] as int > 0xFFFF then 2 else 1) + rest
  }

  /** `part` occurs in `s` starting at index `i`. */
  ghost predicate OccursAt(s: string, part: string, i: int) {
    0 <= i && i + |part| <= |s| && s[i..i + |part|] == part
  }

  lemma OccursAtShift(s: string, part: string, i: int)
    requires s != [] && i > 0
    ensures OccursAt(s, part, i) <==> OccursAt(s[1..], part, i - 1)
  {
    if i + |part| <= |s| {
      assert s[i..i + |part|] == s[1..][i - 1..i - 1 + |part|];
    }
  }

  /** string.Contains as an ordinal substring test. */
  function ContainsText(s: string, part: string): (b: bool)
    ensures b <==> exists i :: OccursAt(s, part, i)
  {
    if StartsWith(s, part) then
      assert OccursAt(s, part, 0);
      true
    else if s == [] then false
    else
      var rest := ContainsText(s[1..], part);
      assert !OccursAt(s, part, 0);
      assert forall i :: OccursAt(s, part, i) ==> OccursAt(s[1..], part, i - 1) by {
        forall i | OccursAt(s, part, i) ensures OccursAt(s[1..], part, i - 1) {
          OccursAtShift(s, part, i);
        }
      }
      assert forall j :: OccursAt(s[1..], part, j) ==> OccursAt(s, part, j + 1) by {
        forall j | OccursAt(s[1..], part, j) ensures OccursAt(s, part, j + 1) {
          OccursAtShift(s, part, j + 1);
        }
      }
      rest
  }
}
