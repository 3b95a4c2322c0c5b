/** The query pipelines of the samples view model, as pure functions of the
    product and sales lists, with what each demo promises about its result.
    ViewModel.SamplesViewModel runs them against its fields. */
module SampleQueries {
  import opened Comparers
  import opened Enumerable
  import opened Ordering
  import opened SetAlgebra
  import opened Relational
  import opened Grouping
  import opened Domain
  import opened ProductHelper

  /** A row of AnonymousClass: `new { Identifier, ProductName, ProductSize }`. */
  datatype ProductSummary = ProductSummary(Identifier: int, ProductName: string, ProductSize: string)

  /** A GroupedSubquery entry: a sales order and the products it sold. */
  datatype SaleProducts = SaleProducts(SalesOrderID: int, Products: seq<Product>)

  /** What a demo leaves in ResultText. Fixed texts are constructors of their
      own; a formatted report keeps the values it prints. */
  datatype Report =
    | Unset                                                      // before any demo has run
    | TotalProducts(count: nat)                                  // "Total Products: n"
    | ProductNames(names: seq<string>)                           // the count, then one name per line
    | ProductSummaries(summaries: seq<ProductSummary>)
    | Found(product: Product)                                    // "Found: product"
    | NoProductFound                                                   // "Not Found"
    | MultipleFound                                              // "Multiple elements found"
    | AnyNameContains(search: string, answer: bool)
    | NumberInCollection(answer: bool)
    | ProductInCollection(id: int, answer: bool)
    | ListsEqual                                                 // "Lists are Equal"
    | ListsNotEqual                                              // "Lists are NOT Equal"
    | Numbers(items: seq<int>)                                   // one "Number: n" line each
    | SalesRows(rows: seq<(Product, SalesOrderDetail)>, total: nat)
    | OuterRows(outerRows: seq<(Product, Option<SalesOrderDetail>)>, total: nat)
    | ProductSalesRows(entries: seq<(Product, seq<SalesOrderDetail>)>)
    | SizeGroups(groups: seq<Group<string, Product>>)
    | SalesOrders(orders: seq<SaleProducts>)
    | ProductCount(count: nat)                                   // "Total Products = n"
    | RedProductCount(count: nat)
    | TotalOfListPrices(value: real)

  // ---------------------------------------------------------------- projections

  /** `new Product { ProductID, Name, Size }` built from a product. */
  function SpecificColumns(p: Product): Product {
    ProductWithId(p.ProductID).(Name := p.Name, Size := p.Size)
  }

  function Summary(p: Product): ProductSummary {
    ProductSummary(p.ProductID, p.Name, p.Size)
  }

  // ---------------------------------------------------------------- ordering

  /** `orderby prod.Name` under the string collation `le`. */
  function SortByName(ps: seq<Product>, le: (string, string) -> bool): seq<Product> {
    OrderBy(ps, NameOf, le)
  }

  /** Sorting by name: sorted by name and a permutation. */
  lemma SortByNameSpec(ps: seq<Product>, le: (string, string) -> bool)
    requires TotalPreorder(le)
    ensures Sorted(SortByName(ps, le), ByKey(NameOf, le))
    ensures forall i, j :: 0 <= i < j < |SortByName(ps, le)| ==> le(SortByName(ps, le)[i].Name, SortByName(ps, le)[j].Name)
    ensures multiset(SortByName(ps, le)) == multiset(ps)
  {
    ByKeyIsTotalPreorder(NameOf, le);
    SortByIsSorted(ps, ByKey(NameOf, le));
    var r := SortByName(ps, le);
    forall i, j | 0 <= i < j < |r| ensures le(r[i].Name, r[j].Name) {
      assert ByKey(NameOf, le)(r[i], r[j]);
    }
  }

  /** Products whose names tie with `pivot`'s keep their input order. */
  lemma SortByNameStable(ps: seq<Product>, le: (string, string) -> bool, pivot: Product)
    requires TotalPreorder(le)
    ensures Where(SortByName(ps, le), TiesWith(ByKey(NameOf, le), pivot)) == Where(ps, TiesWith(ByKey(NameOf, le), pivot))
  {
    ByKeyIsTotalPreorder(NameOf, le);
    SortByIsStable(ps, ByKey(NameOf, le), pivot);
  }

  /** `orderby prod.Color descending, prod.Name`. */
  function ColorDescendingThenName(le: (string, string) -> bool): (Product, Product) -> bool {
    ThenBy(Descending(ByKey(ColorOf, le)), ByKey(NameOf, le))
  }

  function SortByColorThenName(ps: seq<Product>, le: (string, string) -> bool): seq<Product> {
    SortBy(ps, ColorDescendingThenName(le))
  }

  /** Colors descend; among equal colors, names ascend; nothing is lost. */
  lemma SortByColorThenNameSpec(ps: seq<Product>, le: (string, string) -> bool)
    requires TotalPreorder(le)
    ensures multiset(SortByColorThenName(ps, le)) == multiset(ps)
    ensures forall i, j :: 0 <= i < j < |SortByColorThenName(ps, le)| ==>
      le(SortByColorThenName(ps, le)[j].Color, SortByColorThenName(ps, le)[i].Color)
    ensures forall i, j :: 0 <= i < j < |SortByColorThenName(ps, le)| ==>
      le(SortByColorThenName(ps, le)[i].Color, SortByColorThenName(ps, le)[j].Color) ==>
      le(SortByColorThenName(ps, le)[i].Name, SortByColorThenName(ps, le)[j].Name)
  {
    var c := ColorDescendingThenName(le);
    ByKeyIsTotalPreorder(ColorOf, le);
    ByKeyIsTotalPreorder(NameOf, le);
    DescendingIsTotalPreorder(ByKey(ColorOf, le));
    ThenByIsTotalPreorder(Descending(ByKey(ColorOf, le)), ByKey(NameOf, le));
    SortByIsSorted(ps, c);
    var r := SortByColorThenName(ps, le);
    forall i, j | 0 <= i < j < |r| ensures le(r[j].Color, r[i].Color) && (le(r[i].Color, r[j].Color) ==> le(r[i].Name, r[j].Name)) {
      assert c(r[i], r[j]);
    }
  }

  // ---------------------------------------------------------------- filters

  /** `prod.Name.StartsWith(prefix)`. */
  function NameStartsWith(prefix: string): Product -> bool {
    (p: Product) => StartsWith(p.Name, prefix)
  }

  /** `prod.StandardCost > cost`. */
  function CostAbove(cost: real): Product -> bool {
    (p: Product) => p.StandardCost > cost
  }

  /** WhereExpression: the products whose name starts with "L". */
  function NamesStartingWithL(ps: seq<Product>): seq<Product> {
    Where(ps, NameStartsWith("L"))
  }

  /** WhereTwoFields: the products whose name starts with "L" and whose
      standard cost is above 100. */
  function LNamesCostingOver100(ps: seq<Product>): seq<Product> {
    Where(ps, Both(NameStartsWith("L"), CostAbove(100.0)))
  }

  /** WhereExpression keeps "L" products only, in order, and never grows
      the list. */
  lemma NamesStartingWithLSpec(ps: seq<Product>)
    ensures forall i :: 0 <= i < |NamesStartingWithL(ps)| ==> StartsWith(NamesStartingWithL(ps)[i].Name, "L")
    ensures IsSubsequence(NamesStartingWithL(ps), ps) && |NamesStartingWithL(ps)| <= |ps|
  {
    var r := NamesStartingWithL(ps);
    forall i | 0 <= i < |r| ensures StartsWith(r[i].Name, "L") {
      assert NameStartsWith("L")(r[i]);
    }
  }

  /** A product is kept exactly when its name starts with "L". */
  lemma NamesStartingWithLMembers(ps: seq<Product>, p: Product)
    ensures p in NamesStartingWithL(ps) <==> p in ps && StartsWith(p.Name, "L")
  {
    WhereMembers(ps, NameStartsWith("L"), p);
  }

  /** WhereTwoFields keeps "L" products costing over 100 only, in order: it
      is WhereExpression's result filtered once more by cost. */
  lemma LNamesCostingOver100Spec(ps: seq<Product>)
    ensures forall i :: 0 <= i < |LNamesCostingOver100(ps)| ==>
      StartsWith(LNamesCostingOver100(ps)[i].Name, "L") && LNamesCostingOver100(ps)[i].StandardCost > 100.0
    ensures IsSubsequence(LNamesCostingOver100(ps), ps) && |LNamesCostingOver100(ps)| <= |ps|
    ensures LNamesCostingOver100(ps) == Where(NamesStartingWithL(ps), CostAbove(100.0))
  {
    var r := LNamesCostingOver100(ps);
    forall i | 0 <= i < |r| ensures StartsWith(r[i].Name, "L") && r[i].StandardCost > 100.0 {
      assert Both(NameStartsWith("L"), CostAbove(100.0))(r[i]);
    }
    WhereWhere(ps, NameStartsWith("L"), CostAbove(100.0));
  }

  /** A product is kept exactly when its name starts with "L" and it costs
      over 100. */
  lemma LNamesCostingOver100Members(ps: seq<Product>, p: Product)
    ensures p in LNamesCostingOver100(ps) <==> p in ps && StartsWith(p.Name, "L") && p.StandardCost > 100.0
  {
    WhereMembers(ps, Both(NameStartsWith("L"), CostAbove(100.0)), p);
  }

  // ---------------------------------------------------------------- selectors

  /** `prod.ProductID == id`. */
  function HasProductId(id: int): Product -> bool {
    (p: Product) => p.ProductID == id
  }

  /** The report of a First/Last call inside try/catch: the exception becomes "Not Found". */
  function FoundOrNotFound(r: Result<Product>): Report {
    if r.Ok? then Found(r.value) else NoProductFound
  }

  /** The report of a FirstOrDefault/LastOrDefault call: null becomes "Not Found". */
  function FoundOrNull(r: Option<Product>): Report {
    if r.Some? then Found(r.value) else NoProductFound
  }

  /** First: the first red product. */
  function FirstRedReport(ps: seq<Product>): Report {
    FoundOrNotFound(First(ps, HasColor("Red")))
  }

  /** FirstOrDefault: the first red product, without an exception. */
  function FirstOrDefaultRedReport(ps: seq<Product>): Report {
    FoundOrNull(FirstOrDefault(ps, HasColor("Red")))
  }

  /** Last: the last red product with query syntax; the method-syntax branch
      calls First instead. */
  function LastRedReport(ps: seq<Product>, useQuerySyntax: bool): Report {
    if useQuerySyntax then FoundOrNotFound(Last(ps, HasColor("Red")))
    else FoundOrNotFound(First(ps, HasColor("Red")))
  }

  /** LastOrDefault: the last product whose color is "dds". */
  function LastOrDefaultReport(ps: seq<Product>): Report {
    FoundOrNull(LastOrDefault(ps, HasColor("dds")))
  }

  /** SingleOrDefault: the product with ID 706; more than one is caught as
      "Multiple elements found". */
  function SingleReport(ps: seq<Product>): Report {
    match SingleOrDefault(ps, HasProductId(706))
    case Ok(None) => NoProductFound
    case Ok(Some(p)) => Found(p)
    case Err(_) => MultipleFound
  }

  /** First reports "Not Found" exactly when no product is red, and otherwise
      the first red product; FirstOrDefault reports the same. */
  lemma FirstRedReportSpec(ps: seq<Product>)
    ensures FirstRedReport(ps) == NoProductFound <==> forall i :: 0 <= i < |ps| ==> ps[i].Color != "Red"
    ensures FirstRedReport(ps).Found? || FirstRedReport(ps) == NoProductFound
    ensures FirstRedReport(ps).Found? ==>
      exists i :: 0 <= i < |ps| && ps[i] == FirstRedReport(ps).product && ps[i].Color == "Red"
                  && forall j :: 0 <= j < i ==> ps[j].Color != "Red"
    ensures FirstOrDefaultRedReport(ps) == FirstRedReport(ps)
  {
    if FirstOrDefault(ps, HasColor("Red")).Some? {
      FirstOrDefaultFound(ps, HasColor("Red"));
    }
  }

  /** Last reports "Not Found" exactly when no product is red; with query
      syntax it reports the last red product, with method syntax the first. */
  lemma LastRedReportSpec(ps: seq<Product>, useQuerySyntax: bool)
    ensures LastRedReport(ps, useQuerySyntax) == NoProductFound <==> forall i :: 0 <= i < |ps| ==> ps[i].Color != "Red"
    ensures useQuerySyntax && LastRedReport(ps, useQuerySyntax).Found? ==>
      exists i :: 0 <= i < |ps| && ps[i] == LastRedReport(ps, useQuerySyntax).product && ps[i].Color == "Red"
                  && forall j :: i < j < |ps| ==> ps[j].Color != "Red"
    ensures !useQuerySyntax ==> LastRedReport(ps, useQuerySyntax) == FirstRedReport(ps)
  {
    if useQuerySyntax && LastOrDefault(ps, HasColor("Red")).Some? {
      LastOrDefaultFound(ps, HasColor("Red"));
    }
  }

  /** LastOrDefault reports "Not Found" exactly when no color is "dds", and
      otherwise the last such product. */
  lemma LastOrDefaultReportSpec(ps: seq<Product>)
    ensures LastOrDefaultReport(ps) == NoProductFound <==> forall i :: 0 <= i < |ps| ==> ps[i].Color != "dds"
    ensures LastOrDefaultReport(ps).Found? ==>
      exists i :: 0 <= i < |ps| && ps[i] == LastOrDefaultReport(ps).product && ps[i].Color == "dds"
                  && forall j :: i < j < |ps| ==> ps[j].Color != "dds"
  {
    if LastOrDefault(ps, HasColor("dds")).Some? {
      LastOrDefaultFound(ps, HasColor("dds"));
    }
  }

  /** SingleOrDefault: "Not Found" for no product with ID 706, the product
      for exactly one, "Multiple elements found" for more than one. */
  lemma SingleReportSpec(ps: seq<Product>)
    ensures SingleReport(ps) == NoProductFound <==> CountWhere(ps, HasProductId(706)) == 0
    ensures SingleReport(ps) == MultipleFound <==> CountWhere(ps, HasProductId(706)) > 1
    ensures SingleReport(ps).Found? <==> CountWhere(ps, HasProductId(706)) == 1
    ensures SingleReport(ps).Found? ==> SingleReport(ps).product in ps && SingleReport(ps).product.ProductID == 706
  {
    var w := Where(ps, HasProductId(706));
    if SingleReport(ps).Found? {
      assert w[0] in w;
      WhereMembers(ps, HasProductId(706), w[0]);
    }
  }

  // ---------------------------------------------------------------- partitions

  /** Take: the first five products by name. */
  function FirstFiveByName(ps: seq<Product>, le: (string, string) -> bool): seq<Product> {
    Take(SortByName(ps, le), 5)
  }

  /** Skip: the products after the first twenty by name. */
  function AfterTwentyByName(ps: seq<Product>, le: (string, string) -> bool): seq<Product> {
    Skip(SortByName(ps, le), 20)
  }

  /** TakeWhile: the products by name up to the first whose name does not start with "A". */
  function LeadingANames(ps: seq<Product>, le: (string, string) -> bool): seq<Product> {
    TakeWhile(SortByName(ps, le), NameStartsWith("A"))
  }

  /** SkipWhile: the products by name from the first whose name does not start with "A". */
  function AfterLeadingANames(ps: seq<Product>, le: (string, string) -> bool): seq<Product> {
    SkipWhile(SortByName(ps, le), NameStartsWith("A"))
  }

  /** Take keeps min(5, n) products from the front of the sorted list; Skip
      keeps max(0, n - 20) from its back. */
  lemma TakeSkipByNameSpec(ps: seq<Product>, le: (string, string) -> bool)
    ensures |FirstFiveByName(ps, le)| == (if |ps| < 5 then |ps| else 5)
    ensures FirstFiveByName(ps, le) == SortByName(ps, le)[..|FirstFiveByName(ps, le)|]
    ensures |AfterTwentyByName(ps, le)| == (if |ps| < 20 then 0 else |ps| - 20)
    ensures AfterTwentyByName(ps, le) == SortByName(ps, le)[|ps| - |AfterTwentyByName(ps, le)|..]
  {
  }

  /** TakeWhile keeps the longest prefix of "A" names; SkipWhile keeps exactly
      the rest, which is empty or starts with a name that is not an "A" name. */
  lemma LeadingANamesSpec(ps: seq<Product>, le: (string, string) -> bool)
    ensures LeadingANames(ps, le) + AfterLeadingANames(ps, le) == SortByName(ps, le)
    ensures forall i :: 0 <= i < |LeadingANames(ps, le)| ==> StartsWith(LeadingANames(ps, le)[i].Name, "A")
    ensures AfterLeadingANames(ps, le) != [] ==> !StartsWith(AfterLeadingANames(ps, le)[0].Name, "A")
  {
    TakeWhileThenSkipWhile(SortByName(ps, le), NameStartsWith("A"));
    var t := LeadingANames(ps, le);
    assert forall i :: 0 <= i < |t| ==> t[i] == SortByName(ps, le)[i];
  }

  // ---------------------------------------------------------------- distinct and quantifiers

  /** Distinct: the product colors, each once, in first-seen order. */
  function DistinctColors(ps: seq<Product>): seq<string> {
    KeysOf(ps, ColorOf)
  }

  /** Every product's color appears once, and nothing else appears. */
  lemma DistinctColorsSpec(ps: seq<Product>, c: string)
    ensures forall i, j :: 0 <= i < j < |DistinctColors(ps)| ==> DistinctColors(ps)[i] != DistinctColors(ps)[j]
    ensures c in DistinctColors(ps) <==> exists j :: 0 <= j < |ps| && ps[j].Color == c
  {
    KeysOfDistinct(ps, ColorOf);
    if c in DistinctColors(ps) {
      KeysOfMembers(ps, ColorOf, c);
    }
    if exists j :: 0 <= j < |ps| && ps[j].Color == c {
      var j :| 0 <= j < |ps| && ps[j].Color == c;
      KeysOfCovers(ps, ColorOf, j);
    }
  }

  /** `prod.Name.Contains(part)`. */
  function NameContains(part: string): Product -> bool {
    (p: Product) => ContainsText(p.Name, part)
  }

  /** Any: does any product name contain "z"? */
  function AnyReport(ps: seq<Product>): Report {
    AnyNameContains("z", Any(ps, NameContains("z")))
  }

  lemma AnyReportSpec(ps: seq<Product>)
    ensures AnyReport(ps).answer <==> exists i, k :: 0 <= i < |ps| && OccursAt(ps[i].Name, "z", k)
  {
    if AnyReport(ps).answer {
      var i :| 0 <= i < |ps| && NameContains("z")(ps[i]);
      var k :| OccursAt(ps[i].Name, "z", k);
    }
  }

  /** LINQContains: 3 is in { 1, 2, 3, 4, 5 }. */
  lemma ContainsThreeExample()
    ensures ContainsBy([1, 2, 3, 4, 5], 3, Equal)
  {
    assert [1, 2, 3, 4, 5][2] == 3;
  }

  /** LINQContainsUsingComparer: is a product equal to `new Product { ProductID = 744 }`
      under the ID comparer `eq` in the list? */
  function ProductIdReport(ps: seq<Product>, eq: (Product, Product) -> bool): Report {
    ProductInCollection(744, ContainsBy(ps, ProductWithId(744), eq))
  }

  /** SequenceEqualIntegers: { 5, 2, 3, 4, 5 } and { 1, 2, 3, 4, 5 } differ. */
  lemma SequenceEqualIntegersExample()
    ensures !SequenceEqual([5, 2, 3, 4, 5], [1, 2, 3, 4, 5], Equal)
  {
    assert [5, 2, 3, 4, 5][0] != [1, 2, 3, 4, 5][0];
  }

  /** SequenceEqualUsingComparer: a catalog without its first product is never
      equal to the catalog, whatever the comparer, because the lengths differ. */
  lemma CatalogWithoutFirstNeverEqual(catalog: seq<Product>, eq: (Product, Product) -> bool)
    requires |catalog| > 0
    ensures !SequenceEqual(catalog[1..], catalog, eq)
  {
  }

  // ---------------------------------------------------------------- set operations

  /** `prod.Color != color`: what `RemoveAll(prod => prod.Color == color)` keeps. */
  function NotColor(color: string): Product -> bool {
    (p: Product) => p.Color != color
  }

  /** `list.RemoveAll(prod => prod.Color == color)` on a copy of the list. */
  function RemoveColor(ps: seq<Product>, color: string): seq<Product> {
    Where(ps, NotColor(color))
  }

  /** Except: the catalog except its non-black products. */
  function ExceptNonBlack(catalog: seq<Product>, eq: (Product, Product) -> bool): seq<Product> {
    Except(catalog, RemoveColor(catalog, "Black"), eq)
  }

  /** Except keeps the catalog's order and yields no two products equal
      under the comparer. */
  lemma ExceptNonBlackSpec(catalog: seq<Product>, eq: (Product, Product) -> bool)
    requires Equivalence(eq)
    ensures IsSubsequence(ExceptNonBlack(catalog, eq), catalog)
    ensures NoDuplicates(ExceptNonBlack(catalog, eq), eq)
  {
    ExceptSpec(catalog, RemoveColor(catalog, "Black"), eq);
  }

  /** Except yields only black catalog products and represents every black
      product that has no equal among the non-black ones. */
  lemma ExceptNonBlackMembers(catalog: seq<Product>, eq: (Product, Product) -> bool, p: Product)
    requires Equivalence(eq)
    ensures p in ExceptNonBlack(catalog, eq) ==> p in catalog && p.Color == "Black"
    ensures p in catalog && p.Color == "Black" && !ContainsBy(RemoveColor(catalog, "Black"), p, eq) ==>
      ContainsBy(ExceptNonBlack(catalog, eq), p, eq)
  {
    var list2 := RemoveColor(catalog, "Black");
    ExceptSpec(catalog, list2, eq);
    WhereMembers(catalog, NotColor("Black"), p);
  }

  /** Intersect: the non-black products that have an equal among the non-red ones. */
  function IntersectNonBlackNonRed(catalog: seq<Product>, eq: (Product, Product) -> bool): seq<Product> {
    Intersect(RemoveColor(catalog, "Black"), RemoveColor(catalog, "Red"), eq)
  }

  /** Intersect keeps the order of the non-black list (its first list) and
      yields no two products equal under the comparer. */
  lemma IntersectNonBlackNonRedSpec(catalog: seq<Product>, eq: (Product, Product) -> bool)
    requires Equivalence(eq)
    ensures IsSubsequence(IntersectNonBlackNonRed(catalog, eq), RemoveColor(catalog, "Black"))
    ensures NoDuplicates(IntersectNonBlackNonRed(catalog, eq), eq)
  {
    IntersectSpec(RemoveColor(catalog, "Black"), RemoveColor(catalog, "Red"), eq);
  }

  /** Intersect yields only non-black catalog products with an equal among the
      non-red ones, and represents every product that is neither black nor
      red. */
  lemma IntersectNonBlackNonRedMembers(catalog: seq<Product>, eq: (Product, Product) -> bool, p: Product)
    requires Equivalence(eq)
    ensures p in IntersectNonBlackNonRed(catalog, eq) ==>
      p in catalog && p.Color != "Black" && ContainsBy(RemoveColor(catalog, "Red"), p, eq)
    ensures p in catalog && p.Color != "Black" && p.Color != "Red" ==> ContainsBy(IntersectNonBlackNonRed(catalog, eq), p, eq)
  {
    var list1, list2 := RemoveColor(catalog, "Black"), RemoveColor(catalog, "Red");
    IntersectSpec(list1, list2, eq);
    WhereMembers(catalog, NotColor("Black"), p);
    WhereMembers(catalog, NotColor("Red"), p);
    if p in catalog && p.Color != "Black" && p.Color != "Red" {
      var k :| 0 <= k < |list2| && list2[k] == p;
      assert eq(list2[k], p);
    }
  }

  /** Union: the catalog united with itself under the comparer, sorted by name. */
  function UnionByName(catalog: seq<Product>, eq: (Product, Product) -> bool, le: (string, string) -> bool): seq<Product> {
    SortByName(Union(catalog, catalog, eq), le)
  }

  /** The united list is sorted by name and is a permutation of the union,
      which has no two products equal under the comparer. */
  lemma UnionByNameSpec(catalog: seq<Product>, eq: (Product, Product) -> bool, le: (string, string) -> bool)
    requires Equivalence(eq) && TotalPreorder(le)
    ensures Sorted(UnionByName(catalog, eq, le), ByKey(NameOf, le))
    ensures multiset(UnionByName(catalog, eq, le)) == multiset(Union(catalog, catalog, eq))
    ensures NoDuplicates(Union(catalog, catalog, eq), eq)
  {
    SortByNameSpec(Union(catalog, catalog, eq), le);
    UnionSpec(catalog, catalog, eq);
  }

  /** The united list holds only catalog products and represents every
      catalog product. */
  lemma UnionByNameMembers(catalog: seq<Product>, eq: (Product, Product) -> bool, le: (string, string) -> bool, p: Product)
    requires Equivalence(eq) && TotalPreorder(le)
    ensures p in UnionByName(catalog, eq, le) ==> p in catalog
    ensures p in catalog ==> ContainsBy(UnionByName(catalog, eq, le), p, eq)
  {
    var u := Union(catalog, catalog, eq);
    var r := UnionByName(catalog, eq, le);
    SortByNameSpec(u, le);
    UnionSpec(catalog, catalog, eq);
    if p in r {
      assert p in multiset(u);
    }
    if p in catalog {
      var i :| 0 <= i < |u| && eq(u[i], p);
      assert u[i] in multiset(r);
      var k :| 0 <= k < |r| && r[k] == u[i];
    }
  }

  /** LINQConcat: the catalog followed by itself, sorted by name. */
  function ConcatByName(catalog: seq<Product>, le: (string, string) -> bool): seq<Product> {
    SortByName(Concat(catalog, catalog), le)
  }

  /** Concat keeps duplicates: twice the catalog's count, each product twice
      as often, sorted by name. */
  lemma ConcatByNameSpec(catalog: seq<Product>, le: (string, string) -> bool)
    requires TotalPreorder(le)
    ensures |ConcatByName(catalog, le)| == 2 * |catalog|
    ensures multiset(ConcatByName(catalog, le)) == multiset(catalog) + multiset(catalog)
    ensures Sorted(ConcatByName(catalog, le), ByKey(NameOf, le))
  {
    SortByNameSpec(catalog + catalog, le);
  }

  // ---------------------------------------------------------------- joins

  /** InnerJoin: products joined with their sales on ProductID. */
  function SalesJoin(ps: seq<Product>, sales: seq<SalesOrderDetail>): seq<(Product, SalesOrderDetail)> {
    Join(ps, sales, ProductIdOf, SaleProductIdOf)
  }

  /** A row exists exactly for a (product, sale) pair with equal ProductID. */
  lemma SalesJoinMembers(ps: seq<Product>, sales: seq<SalesOrderDetail>, p: Product, s: SalesOrderDetail)
    ensures (p, s) in SalesJoin(ps, sales) <==> p in ps && s in sales && p.ProductID == s.ProductID
  {
    JoinMembers(ps, sales, ProductIdOf, SaleProductIdOf, p, s);
  }

  /** InnerJoinTwoFields: joined on `new { ProductID, Qty = 6 }` equals
      `new { ProductID, Qty = OrderQty }`. */
  function QtySixJoin(ps: seq<Product>, sales: seq<SalesOrderDetail>): seq<(Product, SalesOrderDetail)> {
    Join(ps, sales, WithConstant(ProductIdOf, 6), WithField(SaleProductIdOf, OrderQtyOf))
  }

  /** The two-field join is the ProductID join over the sales with OrderQty 6,
      so it has one row per such pair. */
  lemma QtySixJoinSpec(ps: seq<Product>, sales: seq<SalesOrderDetail>)
    ensures QtySixJoin(ps, sales) == SalesJoin(ps, Where(sales, KeyIs(OrderQtyOf, 6)))
    ensures |QtySixJoin(ps, sales)| == PairCount(ps, Where(sales, KeyIs(OrderQtyOf, 6)), ProductIdOf, SaleProductIdOf)
  {
    CompositeKeyJoin(ps, sales, ProductIdOf, SaleProductIdOf, OrderQtyOf, 6);
  }

  /** A row exists exactly for a product and a sale with equal ProductID and
      OrderQty 6. */
  lemma QtySixJoinMembers(ps: seq<Product>, sales: seq<SalesOrderDetail>, p: Product, s: SalesOrderDetail)
    ensures (p, s) in QtySixJoin(ps, sales) <==> p in ps && s in sales && p.ProductID == s.ProductID && s.OrderQty == 6
  {
    var six := Where(sales, KeyIs(OrderQtyOf, 6));
    QtySixJoinSpec(ps, sales);
    JoinMembers(ps, six, ProductIdOf, SaleProductIdOf, p, s);
    WhereMembers(sales, KeyIs(OrderQtyOf, 6), s);
  }

  /** GroupJoin: every product with its sales. */
  function SalesPerProduct(ps: seq<Product>, sales: seq<SalesOrderDetail>): seq<(Product, seq<SalesOrderDetail>)> {
    GroupJoin(ps, sales, ProductIdOf, SaleProductIdOf)
  }

  /** Exactly one entry per product, in order; its sales are exactly the sales
      of that product, and the list is empty when the product sold nothing. */
  lemma SalesPerProductSpec(ps: seq<Product>, sales: seq<SalesOrderDetail>, i: nat)
    requires i < |ps|
    ensures |SalesPerProduct(ps, sales)| == |ps| && SalesPerProduct(ps, sales)[i].0 == ps[i]
    ensures SalesPerProduct(ps, sales)[i].1 == Where(sales, KeyIs(SaleProductIdOf, ps[i].ProductID))
    ensures SalesPerProduct(ps, sales)[i].1 == [] <==> forall j :: 0 <= j < |sales| ==> sales[j].ProductID != ps[i].ProductID
  {
    GroupJoinEntry(ps, sales, ProductIdOf, SaleProductIdOf, i);
  }

  /** A sale is in a product's entry exactly when it has that product's ID. */
  lemma SalesPerProductMembers(ps: seq<Product>, sales: seq<SalesOrderDetail>, i: nat, s: SalesOrderDetail)
    requires i < |ps|
    ensures s in SalesPerProduct(ps, sales)[i].1 <==> s in sales && s.ProductID == ps[i].ProductID
  {
    GroupJoinEntryMembers(ps, sales, ProductIdOf, SaleProductIdOf, i, s);
  }

  function RowName(row: (Product, Option<SalesOrderDetail>)): string {
    row.0.Name
  }

  /** LeftOuterJoin: every product with each of its sales, or once with no
      sale, ordered by product name; query syntax goes through GroupJoin,
      method syntax through SelectMany. */
  function LeftJoinByName(ps: seq<Product>, sales: seq<SalesOrderDetail>, le: (string, string) -> bool, useQuerySyntax: bool)
    : seq<(Product, Option<SalesOrderDetail>)>
  {
    var rows := if useQuerySyntax then LeftOuterJoin(ps, sales, ProductIdOf, SaleProductIdOf)
                else LeftJoinBySelectMany(ps, sales, ProductIdOf, SaleProductIdOf);
    OrderBy(rows, RowName, le)
  }

  /** Both syntaxes give the same rows: one per matching pair plus one per
      product without sales, sorted by name. */
  lemma LeftJoinByNameSpec(ps: seq<Product>, sales: seq<SalesOrderDetail>, le: (string, string) -> bool)
    ensures LeftJoinByName(ps, sales, le, true) == LeftJoinByName(ps, sales, le, false)
    ensures |LeftJoinByName(ps, sales, le, true)|
         == PairCount(ps, sales, ProductIdOf, SaleProductIdOf) + CountWhere(ps, Unmatched(sales, ProductIdOf, SaleProductIdOf))
    ensures TotalPreorder(le) ==> Sorted(LeftJoinByName(ps, sales, le, true), ByKey(RowName, le))
  {
    LeftOuterJoinForms(ps, sales, ProductIdOf, SaleProductIdOf);
    LeftOuterJoinCount(ps, sales, ProductIdOf, SaleProductIdOf);
    if TotalPreorder(le) {
      ByKeyIsTotalPreorder(RowName, le);
      SortByIsSorted(LeftOuterJoin(ps, sales, ProductIdOf, SaleProductIdOf), ByKey(RowName, le));
    }
  }

  /** A product appears with a sale exactly when the two match on ProductID. */
  lemma LeftJoinByNameMatched(ps: seq<Product>, sales: seq<SalesOrderDetail>, le: (string, string) -> bool, p: Product, s: SalesOrderDetail)
    ensures (p, Some(s)) in LeftJoinByName(ps, sales, le, false) <==> p in ps && s in sales && p.ProductID == s.ProductID
  {
    var rows := LeftJoinBySelectMany(ps, sales, ProductIdOf, SaleProductIdOf);
    LeftOuterJoinMatched(ps, sales, ProductIdOf, SaleProductIdOf, p, s);
    JoinMembers(ps, sales, ProductIdOf, SaleProductIdOf, p, s);
    OrderByMembers(rows, RowName, le, (p, Some(s)));
  }

  /** A product appears with no sale exactly when it has no sales at all. */
  lemma LeftJoinByNameUnmatched(ps: seq<Product>, sales: seq<SalesOrderDetail>, le: (string, string) -> bool, p: Product)
    ensures (p, None) in LeftJoinByName(ps, sales, le, false) <==>
      p in ps && forall j :: 0 <= j < |sales| ==> sales[j].ProductID != p.ProductID
  {
    var rows := LeftJoinBySelectMany(ps, sales, ProductIdOf, SaleProductIdOf);
    LeftOuterJoinUnmatched(ps, sales, ProductIdOf, SaleProductIdOf, p);
    OrderByMembers(rows, RowName, le, (p, None));
    HasNoSales(sales, p);
  }

  /** A product is unmatched in the join exactly when no sale has its ID. */
  lemma HasNoSales(sales: seq<SalesOrderDetail>, p: Product)
    ensures Unmatched(sales, ProductIdOf, SaleProductIdOf)(p) <==> forall j :: 0 <= j < |sales| ==> sales[j].ProductID != p.ProductID
  {
    var q := KeyIs(SaleProductIdOf, ProductIdOf(p));
    assert Unmatched(sales, ProductIdOf, SaleProductIdOf)(p) == (CountWhere(sales, q) == 0);
    forall j | 0 <= j < |sales| ensures q(sales[j]) == (sales[j].ProductID == p.ProductID) {
    }
  }

  /** Ordering neither adds nor drops elements. */
  lemma OrderByMembers<T, K>(s: seq<T>, key: T -> K, le: (K, K) -> bool, x: T)
    ensures x in OrderBy(s, key, le) <==> x in s
  {
    assert multiset(OrderBy(s, key, le)) == multiset(s);
    assert x in OrderBy(s, key, le) <==> x in multiset(OrderBy(s, key, le));
  }

  // ---------------------------------------------------------------- grouping

  /** GroupBy and GroupByIntoSelect: the products ordered by size, then
      grouped by size. */
  function SizeGroupsOfSorted(ps: seq<Product>, le: (string, string) -> bool): seq<Group<string, Product>> {
    GroupBy(OrderBy(ps, SizeOf, le), SizeOf)
  }

  /** The groups partition the products; the sizes are distinct and come in
      ascending order. */
  lemma SizeGroupsOfSortedSpec(ps: seq<Product>, le: (string, string) -> bool)
    requires TotalPreorder(le)
    ensures multiset(AllMembers(SizeGroupsOfSorted(ps, le))) == multiset(ps)
    ensures forall a, b :: 0 <= a < b < |SizeGroupsOfSorted(ps, le)| ==>
      le(SizeGroupsOfSorted(ps, le)[a].key, SizeGroupsOfSorted(ps, le)[b].key)
      && SizeGroupsOfSorted(ps, le)[a].key != SizeGroupsOfSorted(ps, le)[b].key
  {
    var sorted := OrderBy(ps, SizeOf, le);
    ByKeyIsTotalPreorder(SizeOf, le);
    SortByIsSorted(ps, ByKey(SizeOf, le));
    GroupBySortedInput(sorted, SizeOf, le);
    GroupByKeys(sorted, SizeOf);
    GroupByPartitions(sorted, SizeOf);
  }

  /** Every group is non-empty, and its members are exactly the products of
      its size, in size order. */
  lemma SizeGroupOfSortedMembers(ps: seq<Product>, le: (string, string) -> bool, i: nat)
    requires i < |SizeGroupsOfSorted(ps, le)|
    ensures SizeGroupsOfSorted(ps, le)[i].members == Where(OrderBy(ps, SizeOf, le), KeyIs(SizeOf, SizeGroupsOfSorted(ps, le)[i].key))
    ensures forall j :: 0 <= j < |SizeGroupsOfSorted(ps, le)[i].members| ==>
      SizeGroupsOfSorted(ps, le)[i].members[j].Size == SizeGroupsOfSorted(ps, le)[i].key
    ensures |SizeGroupsOfSorted(ps, le)[i].members| > 0
  {
    GroupByMembers(OrderBy(ps, SizeOf, le), SizeOf, i);
  }

  /** GroupByOrderByKey: the size groups, ordered by their key. */
  function SizeGroupsByKey(ps: seq<Product>, le: (string, string) -> bool): seq<Group<string, Product>> {
    SortBy(GroupBy(ps, SizeOf), ByKey(GroupKey, le))
  }

  /** The same groups as GroupBy, with keys in ascending order. */
  lemma SizeGroupsByKeySpec(ps: seq<Product>, le: (string, string) -> bool)
    requires TotalPreorder(le)
    ensures multiset(SizeGroupsByKey(ps, le)) == multiset(GroupBy(ps, SizeOf))
    ensures forall a, b :: 0 <= a < b < |SizeGroupsByKey(ps, le)| ==>
      le(SizeGroupsByKey(ps, le)[a].key, SizeGroupsByKey(ps, le)[b].key)
  {
    var r := SizeGroupsByKey(ps, le);
    ByKeyIsTotalPreorder<Group<string, Product>, string>(GroupKey, le);
    SortByIsSorted(GroupBy(ps, SizeOf), ByKey(GroupKey, le));
    forall a, b | 0 <= a < b < |r| ensures le(r[a].key, r[b].key) {
      assert ByKey(GroupKey, le)(r[a], r[b]);
    }
  }

  function HasMoreThanTwo(g: Group<string, Product>): bool {
    |g.members| > 2
  }

  /** GroupByWhere: the size groups with more than two members. */
  function LargeSizeGroups(ps: seq<Product>): seq<Group<string, Product>> {
    Where(GroupBy(ps, SizeOf), HasMoreThanTwo)
  }

  /** Exactly the groups of more than two products survive, in group order. */
  lemma LargeSizeGroupsSpec(ps: seq<Product>, g: Group<string, Product>)
    ensures g in LargeSizeGroups(ps) <==> g in GroupBy(ps, SizeOf) && |g.members| > 2
    ensures IsSubsequence(LargeSizeGroups(ps), GroupBy(ps, SizeOf))
  {
    WhereMembers(GroupBy(ps, SizeOf), HasMoreThanTwo, g);
  }

  function ProductOf(row: (Product, SalesOrderDetail)): Product {
    row.0
  }

  /** Method syntax: for each sales-order group, the products joined with the
      group's sales. */
  function OrdersFromGroups(gs: seq<Group<int, SalesOrderDetail>>, ps: seq<Product>): (r: seq<SaleProducts>)
    ensures |r| == |gs|
    ensures forall i :: 0 <= i < |gs| ==> r[i].SalesOrderID == gs[i].key
  {
    if gs == [] then []
    else [SaleProducts(gs[0].key, Select(SalesJoin(ps, gs[0].members), ProductOf))] + OrdersFromGroups(gs[1..], ps)
  }

  /** Query syntax: for each sales-order group, the products joined with all
      sales, kept where the sale belongs to the group's order. */
  function OrdersBySubquery(gs: seq<Group<int, SalesOrderDetail>>, ps: seq<Product>, sales: seq<SalesOrderDetail>): seq<SaleProducts> {
    if gs == [] then []
    else
      [SaleProducts(gs[0].key, Select(Where(SalesJoin(ps, sales), OnInner(KeyIs(SalesOrderIdOf, gs[0].key))), ProductOf))]
      + OrdersBySubquery(gs[1..], ps, sales)
  }

  /** GroupedSubquery: one entry per sales order. */
  function SalesOrderProducts(ps: seq<Product>, sales: seq<SalesOrderDetail>, useQuerySyntax: bool): seq<SaleProducts> {
    var gs := GroupBy(sales, SalesOrderIdOf);
    if useQuerySyntax then OrdersBySubquery(gs, ps, sales) else OrdersFromGroups(gs, ps)
  }

  lemma {:induction false} OrdersAgree(gs: seq<Group<int, SalesOrderDetail>>, ps: seq<Product>, sales: seq<SalesOrderDetail>)
    requires forall i :: 0 <= i < |gs| ==> gs[i].members == Where(sales, KeyIs(SalesOrderIdOf, gs[i].key))
    ensures OrdersBySubquery(gs, ps, sales) == OrdersFromGroups(gs, ps)
  {
    if gs != [] {
      JoinFilterInner(ps, sales, ProductIdOf, SaleProductIdOf, KeyIs(SalesOrderIdOf, gs[0].key));
      OrdersAgree(gs[1..], ps, sales);
    }
  }

  /** Query and method syntax give the same entries. */
  lemma SalesOrderSyntaxesAgree(ps: seq<Product>, sales: seq<SalesOrderDetail>)
    ensures SalesOrderProducts(ps, sales, true) == SalesOrderProducts(ps, sales, false)
  {
    var gs := GroupBy(sales, SalesOrderIdOf);
    forall k | 0 <= k < |gs| ensures gs[k].members == Where(sales, KeyIs(SalesOrderIdOf, gs[k].key)) {
      GroupByMembers(sales, SalesOrderIdOf, k);
    }
    OrdersAgree(gs, ps, sales);
  }

  /** One entry per distinct SalesOrderID, in first-seen order, no ID twice. */
  lemma SalesOrderIds(ps: seq<Product>, sales: seq<SalesOrderDetail>)
    ensures |SalesOrderProducts(ps, sales, false)| == |KeysOf(sales, SalesOrderIdOf)|
    ensures forall i :: 0 <= i < |KeysOf(sales, SalesOrderIdOf)| ==>
      SalesOrderProducts(ps, sales, false)[i].SalesOrderID == KeysOf(sales, SalesOrderIdOf)[i]
    ensures forall i, j :: 0 <= i < j < |SalesOrderProducts(ps, sales, false)| ==>
      SalesOrderProducts(ps, sales, false)[i].SalesOrderID != SalesOrderProducts(ps, sales, false)[j].SalesOrderID
  {
    GroupByKeys(sales, SalesOrderIdOf);
  }

  /** Each entry lists the products joined with the sales of its order. */
  lemma SalesOrderEntry(ps: seq<Product>, sales: seq<SalesOrderDetail>, i: nat)
    requires i < |KeysOf(sales, SalesOrderIdOf)|
    ensures |SalesOrderProducts(ps, sales, false)| == |KeysOf(sales, SalesOrderIdOf)|
    ensures SalesOrderProducts(ps, sales, false)[i].Products
         == Select(SalesJoin(ps, Where(sales, KeyIs(SalesOrderIdOf, KeysOf(sales, SalesOrderIdOf)[i]))), ProductOf)
  {
    var gs := GroupBy(sales, SalesOrderIdOf);
    GroupByKeys(sales, SalesOrderIdOf);
    GroupByMembers(sales, SalesOrderIdOf, i);
    OrdersFromGroupsAt(gs, ps, i);
  }

  lemma {:induction false} OrdersFromGroupsAt(gs: seq<Group<int, SalesOrderDetail>>, ps: seq<Product>, i: nat)
    requires i < |gs|
    ensures OrdersFromGroups(gs, ps)[i].Products == Select(SalesJoin(ps, gs[i].members), ProductOf)
  {
    if i > 0 {
      OrdersFromGroupsAt(gs[1..], ps, i - 1);
    }
  }

  // ---------------------------------------------------------------- aggregates

  /** What SalesForProduct returns: the total LineTotal of the product's sales. */
  function ProductSalesTotal(sales: seq<SalesOrderDetail>, p: Product): real {
    Sum(Where(sales, KeyIs(SaleProductIdOf, p.ProductID)), LineTotalOf)
  }

  /** The total adds the LineTotal of exactly the sales with the product's ID,
      and is 0 when there are none. */
  lemma ProductSalesTotalSpec(sales: seq<SalesOrderDetail>, p: Product)
    ensures ProductSalesTotal(sales, p) == SumIf(sales, KeyIs(SaleProductIdOf, p.ProductID), LineTotalOf)
    ensures (forall j :: 0 <= j < |sales| ==> sales[j].ProductID != p.ProductID) ==> ProductSalesTotal(sales, p) == 0.0
  {
    var w := Where(sales, KeyIs(SaleProductIdOf, p.ProductID));
    SumWhere(sales, KeyIs(SaleProductIdOf, p.ProductID), LineTotalOf);
    if forall j :: 0 <= j < |sales| ==> sales[j].ProductID != p.ProductID {
      assert forall j :: 0 <= j < |sales| ==> !KeyIs(SaleProductIdOf, p.ProductID)(sales[j]);
      assert |w| == 0;
    }
  }

  /** CountFiltered: the number of red products. */
  function RedCount(ps: seq<Product>): nat {
    CountWhere(ps, HasColor("Red"))
  }

  /** Sum: the total of all list prices. */
  function ListPriceTotal(ps: seq<Product>): real {
    Sum(ps, ListPriceOf)
  }

  function AddListPrice(sum: real, p: Product): real {
    sum + p.ListPrice
  }

  function LineValue(s: SalesOrderDetail): real {
    s.OrderQty as real * s.UnitPrice
  }

  function AddLineValue(sum: real, s: SalesOrderDetail): real {
    sum + s.OrderQty as real * s.UnitPrice
  }

  /** AggregateSum: a fold from 0 adding list prices gives the Sum. */
  lemma AggregateSumIsSum(ps: seq<Product>)
    ensures Aggregate(ps, 0.0, AddListPrice) == ListPriceTotal(ps)
  {
    AggregateIsSum(ps, 0.0, AddListPrice, ListPriceOf);
  }

  /** AggregateCustom: a fold from 0 adding OrderQty * UnitPrice gives the sum
      of the line values. */
  lemma AggregateCustomIsSum(sales: seq<SalesOrderDetail>)
    ensures Aggregate(sales, 0.0, AddLineValue) == Sum(sales, LineValue)
  {
    AggregateIsSum(sales, 0.0, AddLineValue, LineValue);
  }
}
