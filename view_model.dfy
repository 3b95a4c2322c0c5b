/** The samples view model: the product and sales lists a demo runs against,
    the syntax switch, and the report the last demo produced. Every demo runs
    one query and then replaces Products, clears it, or only records a report.
    Both syntaxes run the same pipeline unless a method says otherwise
    (`from prod in Products select prod` is the identity). */
module ViewModel {
  import opened Comparers
  import opened Enumerable
  import opened Ordering
  import opened SetAlgebra
  import opened Relational
  import opened Grouping
  import opened Domain
  import opened ProductHelper
  import opened SampleQueries

  class SamplesViewModel {
    var UseQuerySyntax: bool
    var Products: seq<Product>
    var Sales: seq<SalesOrderDetail>
    var ResultText: Report
    /** The culture's ordering of strings, used by every `orderby` on a string property. */
    const Collation: (string, string) -> bool

    ghost predicate Valid() {
      TotalPreorder(Collation)
    }

    /** The lists are those the repositories load; they are parameters here. */
    constructor(products: seq<Product>, sales: seq<SalesOrderDetail>, collation: (string, string) -> bool)
      requires TotalPreorder(collation)
      ensures Valid()
      ensures Products == products && Sales == sales && Collation == collation
      ensures !UseQuerySyntax && ResultText == Unset
    {
      UseQuerySyntax := false;
      Products := products;
      Sales := sales;
      ResultText := Unset;
      Collation := collation;
    }

    // ------------------------------------------------------------ projections

    /** Copies every product into a new list and reports the copy's count. */
    method GetAll()
      modifies this`ResultText
      ensures ResultText == TotalProducts(|Products|)
    {
      var list := Select(Products, (p: Product) => p);
      ResultText := TotalProducts(|list|);
    }

    /** Reports every product name, in order, then clears Products. */
    method GetSingleColumn()
      modifies this`Products, this`ResultText
      ensures ResultText.ProductNames? && |ResultText.names| == |old(Products)|
      ensures forall i :: 0 <= i < |old(Products)| ==> ResultText.names[i] == old(Products)[i].Name
      ensures Products == []
    {
      var list := Select(Products, NameOf);
      ResultText := ProductNames(list);
      Products := [];
    }

    /** With query syntax, replaces every product by a new one carrying only
        its ID, name and size; with method syntax the new list is dropped and
        Products stays as it was. */
    method GetSpecificColumns()
      modifies this`Products, this`ResultText
      ensures UseQuerySyntax ==> Products == Select(old(Products), SpecificColumns)
      ensures !UseQuerySyntax ==> Products == old(Products)
      ensures |Products| == |old(Products)| && ResultText == TotalProducts(|old(Products)|)
      ensures forall i :: 0 <= i < |Products| ==>
        Products[i].ProductID == old(Products)[i].ProductID && Products[i].Name == old(Products)[i].Name
        && Products[i].Size == old(Products)[i].Size
      ensures UseQuerySyntax ==> forall i :: 0 <= i < |Products| ==>
        Products[i] == ProductWithId(old(Products)[i].ProductID).(Name := old(Products)[i].Name, Size := old(Products)[i].Size)
    {
      if UseQuerySyntax {
        Products := Select(Products, SpecificColumns);
      } else {
        var discarded := Select(Products, SpecificColumns);
      }
      ResultText := TotalProducts(|Products|);
    }

    /** Reports an (Identifier, ProductName, ProductSize) row per product, then
        clears Products. */
    method AnonymousClass()
      modifies this`Products, this`ResultText
      ensures ResultText.ProductSummaries? && |ResultText.summaries| == |old(Products)|
      ensures forall i :: 0 <= i < |old(Products)| ==>
        ResultText.summaries[i] == ProductSummary(old(Products)[i].ProductID, old(Products)[i].Name, old(Products)[i].Size)
      ensures Products == []
    {
      var products := Select(Products, Summary);
      ResultText := ProductSummaries(products);
      Products := [];
    }

    // ------------------------------------------------------------ ordering

    /** Sorts Products by name, stably. */
    method OrderBy()
      requires Valid()
      modifies this`Products, this`ResultText
      ensures Products == SortByName(old(Products), Collation)
      ensures Sorted(Products, ByKey(NameOf, Collation)) && multiset(Products) == multiset(old(Products))
      ensures ResultText == TotalProducts(|old(Products)|)
    {
      SortByNameSpec(Products, Collation);
      Products := SortByName(Products, Collation);
      ResultText := TotalProducts(|Products|);
    }

    /** With query syntax, sorts Products by color descending, then name; with
        method syntax the sorted list is dropped and Products stays as it was. */
    method OrderByTwoFields()
      requires Valid()
      modifies this`Products, this`ResultText
      ensures UseQuerySyntax ==> Products == SortByColorThenName(old(Products), Collation)
      ensures !UseQuerySyntax ==> Products == old(Products)
      ensures multiset(Products) == multiset(old(Products)) && ResultText == TotalProducts(|old(Products)|)
      ensures UseQuerySyntax ==> forall i, j :: 0 <= i < j < |Products| ==> Collation(Products[j].Color, Products[i].Color)
    {
      SortByColorThenNameSpec(Products, Collation);
      if UseQuerySyntax {
        Products := SortByColorThenName(Products, Collation);
      } else {
        var discarded := SortByColorThenName(Products, Collation);
      }
      ResultText := TotalProducts(|Products|);
    }

    // ------------------------------------------------------------ filters

    /** With query syntax, keeps the products whose name starts with "L"; with
        method syntax the filtered list is dropped and Products stays as it was. */
    method WhereExpression()
      modifies this`Products, this`ResultText
      ensures UseQuerySyntax ==> Products == NamesStartingWithL(old(Products))
      ensures !UseQuerySyntax ==> Products == old(Products)
      ensures UseQuerySyntax ==> forall i :: 0 <= i < |Products| ==> StartsWith(Products[i].Name, "L")
      ensures IsSubsequence(Products, old(Products)) && |Products| <= |old(Products)|
      ensures ResultText == TotalProducts(|Products|)
    {
      NamesStartingWithLSpec(Products);
      IsSubsequenceReflexive(Products);
      var search := "L";
      if UseQuerySyntax {
        Products := Where(Products, NameStartsWith(search));
      } else {
        var discarded := Where(Products, NameStartsWith(search));
      }
      ResultText := TotalProducts(|Products|);
    }

    /** Keeps, in order, the products whose name starts with "L" and whose
        standard cost is above 100. */
    method WhereTwoFields()
      modifies this`Products, this`ResultText
      ensures Products == LNamesCostingOver100(old(Products))
      ensures forall i :: 0 <= i < |Products| ==> StartsWith(Products[i].Name, "L") && Products[i].StandardCost > 100.0
      ensures IsSubsequence(Products, old(Products)) && |Products| <= |old(Products)|
      ensures ResultText == TotalProducts(|Products|)
    {
      LNamesCostingOver100Spec(Products);
      var search, cost := "L", 100.0;
      Products := Where(Products, Both(NameStartsWith(search), CostAbove(cost)));
      ResultText := TotalProducts(|Products|);
    }

    /** Keeps, in order, the red products, through ByColor. */
    method WhereExtensionMethod()
      modifies this`Products, this`ResultText
      ensures Products == ByColor(old(Products), "Red")
      ensures forall i :: 0 <= i < |Products| ==> Products[i].Color == "Red"
      ensures IsSubsequence(Products, old(Products))
      ensures ResultText == TotalProducts(|Products|)
    {
      var search := "Red";
      Products := ByColor(Products, search);
      ResultText := TotalProducts(|Products|);
    }

    // ------------------------------------------------------------ selectors

    /** Reports the first red product, or "Not Found" when First throws; then
        clears Products. */
    method First()
      modifies this`Products, this`ResultText
      ensures ResultText == FirstRedReport(old(Products)) && Products == []
      ensures ResultText == NoProductFound <==> forall i :: 0 <= i < |old(Products)| ==> old(Products)[i].Color != "Red"
    {
      FirstRedReportSpec(Products);
      var value := Enumerable.First(Products, HasColor("Red"));
      match value {
        case Ok(p) => ResultText := Found(p);
        case Err(_) => ResultText := NoProductFound;
      }
      Products := [];
    }

    /** Reports the first red product, or "Not Found" for null; then clears Products. */
    method FirstOrDefault()
      modifies this`Products, this`ResultText
      ensures ResultText == FirstOrDefaultRedReport(old(Products)) && Products == []
      ensures ResultText == FirstRedReport(old(Products))
    {
      FirstRedReportSpec(Products);
      var value := Enumerable.FirstOrDefault(Products, HasColor("Red"));
      if value.None? {
        ResultText := NoProductFound;
      } else {
        ResultText := Found(value.value);
      }
      Products := [];
    }

    /** With query syntax, reports the last red product; the method-syntax
        branch calls First and so reports the first one. "Not Found" when the
        call throws. Then clears Products. */
    method Last()
      modifies this`Products, this`ResultText
      ensures ResultText == LastRedReport(old(Products), UseQuerySyntax) && Products == []
      ensures ResultText == NoProductFound <==> forall i :: 0 <= i < |old(Products)| ==> old(Products)[i].Color != "Red"
      ensures !UseQuerySyntax ==> ResultText == FirstRedReport(old(Products))
    {
      LastRedReportSpec(Products, UseQuerySyntax);
      var value;
      if UseQuerySyntax {
        value := Enumerable.Last(Products, HasColor("Red"));
      } else {
        value := Enumerable.First(Products, HasColor("Red"));
      }
      match value {
        case Ok(p) => ResultText := Found(p);
        case Err(_) => ResultText := NoProductFound;
      }
      Products := [];
    }

    /** Reports the last product whose color is "dds", or "Not Found" for
        null; then clears Products. */
    method LastOrDefault()
      modifies this`Products, this`ResultText
      ensures ResultText == LastOrDefaultReport(old(Products)) && Products == []
      ensures ResultText == NoProductFound <==> forall i :: 0 <= i < |old(Products)| ==> old(Products)[i].Color != "dds"
    {
      LastOrDefaultReportSpec(Products);
      var value := Enumerable.LastOrDefault(Products, HasColor("dds"));
      if value.None? {
        ResultText := NoProductFound;
      } else {
        ResultText := Found(value.value);
      }
      Products := [];
    }

    /** Reports the only product with ID 706, "Not Found" when there is none,
        and "Multiple elements found" when SingleOrDefault throws; then clears
        Products. */
    method SingleOrDefault()
      modifies this`Products, this`ResultText
      ensures ResultText == SingleReport(old(Products)) && Products == []
      ensures ResultText == NoProductFound <==> CountWhere(old(Products), HasProductId(706)) == 0
      ensures ResultText.Found? <==> CountWhere(old(Products), HasProductId(706)) == 1
      ensures ResultText == MultipleFound <==> CountWhere(old(Products), HasProductId(706)) > 1
    {
      SingleReportSpec(Products);
      var search := 706;
      var value := Enumerable.SingleOrDefault(Products, HasProductId(search));
      match value {
        case Ok(None) => ResultText := NoProductFound;
        case Ok(Some(p)) => ResultText := Found(p);
        case Err(_) => ResultText := MultipleFound;
      }
      Products := [];
    }

    // ------------------------------------------------------------ updating each product

    /** Sets every product's NameLength to the length of its name in UTF-16
        code units and changes nothing else. */
    method ForEach()
      modifies this`Products, this`ResultText
      ensures |Products| == |old(Products)|
      ensures forall i :: 0 <= i < |Products| ==>
        Products[i].NameLength == Utf16Length(old(Products)[i].Name)
        && Products[i].(NameLength := old(Products)[i].NameLength) == old(Products)[i]
      ensures ResultText == TotalProducts(|Products|)
    {
      var i := 0;
      while i < |Products|
        invariant 0 <= i <= |Products| == |old(Products)|
        invariant forall j :: 0 <= j < i ==> Products[j] == old(Products)[j].(NameLength := Utf16Length(old(Products)[j].Name))
        invariant forall j :: i <= j < |Products| ==> Products[j] == old(Products)[j]
      {
        Products := Products[i := Products[i].(NameLength := Utf16Length(Products[i].Name))];
        i := i + 1;
      }
      ResultText := TotalProducts(|Products|);
    }

    /** The total LineTotal of the sales of a product. */
    function SalesForProduct(prod: Product): (total: real)
      reads this
      ensures total == SumIf(Sales, KeyIs(SaleProductIdOf, prod.ProductID), LineTotalOf)
      ensures (forall j :: 0 <= j < |Sales| ==> Sales[j].ProductID != prod.ProductID) ==> total == 0.0
    {
      ProductSalesTotalSpec(Sales, prod);
      ProductSalesTotal(Sales, prod)
    }

    /** Sets every product's TotalSales to its sales total and changes nothing else. */
    method ForEachCallingMethod()
      modifies this`Products, this`ResultText
      ensures |Products| == |old(Products)|
      ensures forall i :: 0 <= i < |Products| ==>
        Products[i].TotalSales == SalesForProduct(old(Products)[i])
        && Products[i].(TotalSales := old(Products)[i].TotalSales) == old(Products)[i]
      ensures ResultText == TotalProducts(|Products|)
    {
      var i := 0;
      while i < |Products|
        invariant 0 <= i <= |Products| == |old(Products)|
        invariant forall j :: 0 <= j < i ==> Products[j] == old(Products)[j].(TotalSales := SalesForProduct(old(Products)[j]))
        invariant forall j :: i <= j < |Products| ==> Products[j] == old(Products)[j]
      {
        Products := Products[i := Products[i].(TotalSales := SalesForProduct(Products[i]))];
        i := i + 1;
      }
      ResultText := TotalProducts(|Products|);
    }

    // ------------------------------------------------------------ partitions

    /** Keeps the first five products by name. */
    method Take()
      modifies this`Products, this`ResultText
      ensures Products == FirstFiveByName(old(Products), Collation)
      ensures |Products| == (if |old(Products)| < 5 then |old(Products)| else 5)
      ensures Products == SortByName(old(Products), Collation)[..|Products|]
      ensures ResultText == TotalProducts(|Products|)
    {
      TakeSkipByNameSpec(Products, Collation);
      Products := Enumerable.Take(SortByName(Products, Collation), 5);
      ResultText := TotalProducts(|Products|);
    }

    /** Keeps the products by name up to the first that does not start with "A". */
    method TakeWhile()
      modifies this`Products, this`ResultText
      ensures Products == LeadingANames(old(Products), Collation)
      ensures forall i :: 0 <= i < |Products| ==> StartsWith(Products[i].Name, "A")
      ensures Products + AfterLeadingANames(old(Products), Collation) == SortByName(old(Products), Collation)
      ensures ResultText == TotalProducts(|Products|)
    {
      LeadingANamesSpec(Products, Collation);
      Products := Enumerable.TakeWhile(SortByName(Products, Collation), NameStartsWith("A"));
      ResultText := TotalProducts(|Products|);
    }

    /** Drops the first twenty products by name. */
    method Skip()
      modifies this`Products, this`ResultText
      ensures Products == AfterTwentyByName(old(Products), Collation)
      ensures |Products| == (if |old(Products)| < 20 then 0 else |old(Products)| - 20)
      ensures Products == SortByName(old(Products), Collation)[|old(Products)| - |Products|..]
      ensures ResultText == TotalProducts(|Products|)
    {
      TakeSkipByNameSpec(Products, Collation);
      Products := Enumerable.Skip(SortByName(Products, Collation), 20);
      ResultText := TotalProducts(|Products|);
    }

    /** Keeps the products by name from the first that does not start with "A". */
    method SkipWhile()
      modifies this`Products, this`ResultText
      ensures Products == AfterLeadingANames(old(Products), Collation)
      ensures LeadingANames(old(Products), Collation) + Products == SortByName(old(Products), Collation)
      ensures Products != [] ==> !StartsWith(Products[0].Name, "A")
      ensures ResultText == TotalProducts(|Products|)
    {
      LeadingANamesSpec(Products, Collation);
      Products := Enumerable.SkipWhile(SortByName(Products, Collation), NameStartsWith("A"));
      ResultText := TotalProducts(|Products|);
    }

    // ------------------------------------------------------------ distinct and quantifiers

    /** Returns the distinct product colors (the source writes them to the
        console) and clears Products; ResultText is left as it was. */
    method Distinct() returns (colors: seq<string>)
      modifies this`Products
      ensures colors == DistinctColors(old(Products)) && Products == []
      ensures forall i, j :: 0 <= i < j < |colors| ==> colors[i] != colors[j]
      ensures forall i :: 0 <= i < |old(Products)| ==> old(Products)[i].Color in colors
      ensures forall c :: c in colors ==> exists i :: 0 <= i < |old(Products)| && old(Products)[i].Color == c
    {
      colors := KeysOf(Products, ColorOf);
      forall c ensures c in colors <==> exists i :: 0 <= i < |Products| && Products[i].Color == c {
        DistinctColorsSpec(Products, c);
      }
      Products := [];
    }

    /** Reports whether some product name contains "z"; then clears Products. */
    method Any()
      modifies this`Products, this`ResultText
      ensures ResultText == AnyReport(old(Products)) && Products == []
      ensures ResultText.answer <==> exists i, k :: 0 <= i < |old(Products)| && OccursAt(old(Products)[i].Name, "z", k)
    {
      AnyReportSpec(Products);
      var search := "z";
      var value := Enumerable.Any(Products, NameContains(search));
      ResultText := AnyNameContains(search, value);
      Products := [];
    }

    /** Reports that 3 is in { 1, 2, 3, 4, 5 }; then clears Products. */
    method LINQContains()
      modifies this`Products, this`ResultText
      ensures ResultText == NumberInCollection(true) && Products == []
    {
      ContainsThreeExample();
      var numbers := [1, 2, 3, 4, 5];
      var value := ContainsBy(numbers, 3, Equal);
      ResultText := NumberInCollection(value);
      Products := [];
    }

    /** Reports whether a product equal, under the ID comparer `pc`, to a new
        product with ID 744 is in Products; then clears Products. */
    method LINQContainsUsingComparer(pc: (Product, Product) -> bool)
      modifies this`Products, this`ResultText
      ensures ResultText == ProductIdReport(old(Products), pc) && Products == []
      ensures ResultText.answer <==> exists i :: 0 <= i < |old(Products)| && pc(old(Products)[i], ProductWithId(744))
    {
      var search := 744;
      var prodToFind := ProductWithId(search);
      var value := ContainsBy(Products, prodToFind, pc);
      ResultText := ProductInCollection(search, value);
      Products := [];
    }

    /** Compares { 5, 2, 3, 4, 5 } with { 1, 2, 3, 4, 5 }: not equal. Then clears Products. */
    method SequenceEqualIntegers()
      modifies this`Products, this`ResultText
      ensures ResultText == ListsNotEqual && Products == []
    {
      SequenceEqualIntegersExample();
      var list1, list2 := [5, 2, 3, 4, 5], [1, 2, 3, 4, 5];
      var value := SequenceEqual(list1, list2, Equal);
      ResultText := if value then ListsEqual else ListsNotEqual;
      Products := [];
    }

    /** Compares the catalog without its first product to the catalog under
        the product comparer `pc`: never equal. Then clears Products. */
    method SequenceEqualUsingComparer(catalog: seq<Product>, pc: (Product, Product) -> bool)
      requires |catalog| > 0
      modifies this`Products, this`ResultText
      ensures ResultText == ListsNotEqual && Products == []
    {
      CatalogWithoutFirstNeverEqual(catalog, pc);
      var list1, list2 := catalog, catalog;
      list1 := list1[1..];
      var value := SequenceEqual(list1, list2, pc);
      ResultText := if value then ListsEqual else ListsNotEqual;
      Products := [];
    }

    // ------------------------------------------------------------ set operations

    /** Reports, one number at a time, { 1, 2, 3, 4 } except { 3, 4, 5 }:
        the numbers 1 and 2. Then clears Products. */
    method ExceptIntegers()
      modifies this`Products, this`ResultText
      ensures ResultText == Numbers([1, 2]) && Products == []
    {
      ExceptIntegersExample();
      var exceptions := SetAlgebra.Except([1, 2, 3, 4], [3, 4, 5], Equal);
      ResultText := Numbers([]);
      for i := 0 to |exceptions|
        invariant ResultText == Numbers(exceptions[..i])
      {
        ResultText := Numbers(ResultText.items + [exceptions[i]]);
      }
      assert exceptions[..|exceptions|] == exceptions;
      Products := [];
    }

    /** Products becomes the catalog except the catalog's non-black products,
        under the product comparer `pc`. */
    method Except(catalog: seq<Product>, pc: (Product, Product) -> bool)
      requires Equivalence(pc)
      modifies this`Products, this`ResultText
      ensures Products == ExceptNonBlack(catalog, pc)
      ensures IsSubsequence(Products, catalog)
      ensures forall p :: p in Products ==> p in catalog && p.Color == "Black"
      ensures NoDuplicates(Products, pc)
      ensures ResultText == TotalProducts(|Products|)
    {
      var list1, list2 := catalog, catalog;
      list2 := RemoveColor(list2, "Black");
      Products := SetAlgebra.Except(list1, list2, pc);
      forall p ensures p in Products ==> p in catalog && p.Color == "Black" {
        ExceptNonBlackMembers(catalog, pc, p);
      }
      ExceptNonBlackSpec(catalog, pc);
      ResultText := TotalProducts(|Products|);
    }

    /** Products becomes the catalog's non-black products that have an equal,
        under `pc`, among its non-red ones. */
    method Intersect(catalog: seq<Product>, pc: (Product, Product) -> bool)
      requires Equivalence(pc)
      modifies this`Products, this`ResultText
      ensures Products == IntersectNonBlackNonRed(catalog, pc)
      ensures IsSubsequence(Products, RemoveColor(catalog, "Black"))
      ensures forall p :: p in Products ==> p in catalog && p.Color != "Black"
      ensures forall p :: p in catalog && p.Color != "Black" && p.Color != "Red" ==> ContainsBy(Products, p, pc)
      ensures NoDuplicates(Products, pc)
      ensures ResultText == TotalProducts(|Products|)
    {
      var list1, list2 := catalog, catalog;
      list1 := RemoveColor(list1, "Black");
      list2 := RemoveColor(list2, "Red");
      Products := SetAlgebra.Intersect(list1, list2, pc);
      forall p ensures (p in Products ==> p in catalog && p.Color != "Black")
                    && (p in catalog && p.Color != "Black" && p.Color != "Red" ==> ContainsBy(Products, p, pc)) {
        IntersectNonBlackNonRedMembers(catalog, pc, p);
      }
      IntersectNonBlackNonRedSpec(catalog, pc);
      ResultText := TotalProducts(|Products|);
    }

    /** Products becomes the catalog united with itself under `pc`, sorted by name. */
    method Union(catalog: seq<Product>, pc: (Product, Product) -> bool)
      requires Equivalence(pc) && Valid()
      modifies this`Products, this`ResultText
      ensures Products == UnionByName(catalog, pc, Collation)
      ensures Sorted(Products, ByKey(NameOf, Collation))
      ensures forall p :: p in Products ==> p in catalog
      ensures forall p :: p in catalog ==> ContainsBy(Products, p, pc)
      ensures ResultText == TotalProducts(|Products|)
    {
      var list1, list2 := catalog, catalog;
      Products := SortByName(SetAlgebra.Union(list1, list2, pc), Collation);
      forall p ensures (p in Products ==> p in catalog) && (p in catalog ==> ContainsBy(Products, p, pc)) {
        UnionByNameMembers(catalog, pc, Collation, p);
      }
      UnionByNameSpec(catalog, pc, Collation);
      ResultText := TotalProducts(|Products|);
    }

    /** Products becomes the catalog followed by itself, sorted by name. */
    method LINQConcat(catalog: seq<Product>)
      requires Valid()
      modifies this`Products, this`ResultText
      ensures Products == ConcatByName(catalog, Collation)
      ensures |Products| == 2 * |catalog| && multiset(Products) == multiset(catalog) + multiset(catalog)
      ensures Sorted(Products, ByKey(NameOf, Collation))
      ensures ResultText == TotalProducts(2 * |catalog|)
    {
      ConcatByNameSpec(catalog, Collation);
      var list1, list2 := catalog, catalog;
      Products := SortByName(Concat(list1, list2), Collation);
      ResultText := TotalProducts(|Products|);
    }

    // ------------------------------------------------------------ joins

    /** Reports each (product, sale) pair with equal ProductID and their count. */
    method InnerJoin()
      modifies this`ResultText
      ensures ResultText == SalesRows(SalesJoin(Products, Sales), PairCount(Products, Sales, ProductIdOf, SaleProductIdOf))
      ensures forall p, s :: (p, s) in ResultText.rows <==> p in Products && s in Sales && p.ProductID == s.ProductID
    {
      var query := Join(Products, Sales, ProductIdOf, SaleProductIdOf);
      var count := 0;
      for i := 0 to |query|
        invariant count == i
      {
        count := count + 1;
      }
      ResultText := SalesRows(query, count);
      forall p, s ensures (p, s) in query <==> p in Products && s in Sales && p.ProductID == s.ProductID {
        SalesJoinMembers(Products, Sales, p, s);
      }
    }

    /** Reports each (product, sale) pair with equal ProductID and OrderQty 6,
        and their count. */
    method InnerJoinTwoFields()
      modifies this`ResultText
      ensures ResultText == SalesRows(QtySixJoin(Products, Sales), PairCount(Products, Where(Sales, KeyIs(OrderQtyOf, 6)), ProductIdOf, SaleProductIdOf))
      ensures forall p, s :: (p, s) in ResultText.rows <==>
        p in Products && s in Sales && p.ProductID == s.ProductID && s.OrderQty == 6
    {
      var qty := 6;
      var query := Join(Products, Sales, WithConstant(ProductIdOf, qty), WithField(SaleProductIdOf, OrderQtyOf));
      var count := 0;
      for i := 0 to |query|
        invariant count == i
      {
        count := count + 1;
      }
      ResultText := SalesRows(query, count);
      forall p, s ensures (p, s) in query <==> p in Products && s in Sales && p.ProductID == s.ProductID && s.OrderQty == 6 {
        QtySixJoinMembers(Products, Sales, p, s);
      }
      QtySixJoinSpec(Products, Sales);
    }

    /** Reports every product with its sales (both syntaxes use the query form). */
    method GroupJoin()
      modifies this`ResultText
      ensures ResultText == ProductSalesRows(SalesPerProduct(Products, Sales))
      ensures |ResultText.entries| == |Products|
      ensures forall i :: 0 <= i < |Products| ==>
        (ResultText.entries[i].0 == Products[i]
         && (ResultText.entries[i].1 == [] <==> forall j :: 0 <= j < |Sales| ==> Sales[j].ProductID != Products[i].ProductID))
    {
      var grouped := Relational.GroupJoin(Products, Sales, ProductIdOf, SaleProductIdOf);
      forall i | 0 <= i < |Products|
        ensures grouped[i].0 == Products[i]
        && (grouped[i].1 == [] <==> forall j :: 0 <= j < |Sales| ==> Sales[j].ProductID != Products[i].ProductID)
      {
        SalesPerProductSpec(Products, Sales, i);
      }
      ResultText := ProductSalesRows(grouped);
    }

    /** Reports every product with each of its sales, or once with no sale,
        ordered by name, and the row count. */
    method LeftOuterJoin()
      modifies this`ResultText
      ensures ResultText.OuterRows? && ResultText.outerRows == LeftJoinByName(Products, Sales, Collation, UseQuerySyntax)
      ensures ResultText.total == |ResultText.outerRows|
      ensures ResultText.outerRows == LeftJoinByName(Products, Sales, Collation, false)
      ensures ResultText.total
           == PairCount(Products, Sales, ProductIdOf, SaleProductIdOf) + CountWhere(Products, Unmatched(Sales, ProductIdOf, SaleProductIdOf))
    {
      LeftJoinByNameSpec(Products, Sales, Collation);
      var query;
      if UseQuerySyntax {
        query := Ordering.OrderBy(Relational.LeftOuterJoin(Products, Sales, ProductIdOf, SaleProductIdOf), RowName, Collation);
      } else {
        query := Ordering.OrderBy(LeftJoinBySelectMany(Products, Sales, ProductIdOf, SaleProductIdOf), RowName, Collation);
      }
      var count := 0;
      for i := 0 to |query|
        invariant count == i
      {
        count := count + 1;
      }
      ResultText := OuterRows(query, count);
    }

    // ------------------------------------------------------------ grouping

    /** Reports the products ordered by size and grouped by size. */
    method GroupBy()
      requires Valid()
      modifies this`ResultText
      ensures ResultText == SizeGroups(SizeGroupsOfSorted(Products, Collation))
      ensures multiset(AllMembers(ResultText.groups)) == multiset(Products)
      ensures forall a, b :: 0 <= a < b < |ResultText.groups| ==>
        Collation(ResultText.groups[a].key, ResultText.groups[b].key) && ResultText.groups[a].key != ResultText.groups[b].key
      ensures forall i, j :: 0 <= i < |ResultText.groups| && 0 <= j < |ResultText.groups[i].members| ==>
        ResultText.groups[i].members[j].Size == ResultText.groups[i].key
      ensures forall i :: 0 <= i < |ResultText.groups| ==> |ResultText.groups[i].members| > 0
    {
      var sizeGroup := Grouping.GroupBy(Ordering.OrderBy(Products, SizeOf, Collation), SizeOf);
      ResultText := SizeGroups(sizeGroup);
      SizeGroupsOfSortedSpec(Products, Collation);
      forall i | 0 <= i < |sizeGroup|
        ensures |sizeGroup[i].members| > 0
        ensures forall j :: 0 <= j < |sizeGroup[i].members| ==> sizeGroup[i].members[j].Size == sizeGroup[i].key
      {
        SizeGroupOfSortedMembers(Products, Collation, i);
      }
    }

    /** The same pipeline as GroupBy, written with `into` and `select`. */
    method GroupByIntoSelect()
      requires Valid()
      modifies this`ResultText
      ensures ResultText == SizeGroups(SizeGroupsOfSorted(Products, Collation))
      ensures multiset(AllMembers(ResultText.groups)) == multiset(Products)
    {
      var sizeGroup := Grouping.GroupBy(Ordering.OrderBy(Products, SizeOf, Collation), SizeOf);
      ResultText := SizeGroups(sizeGroup);
      SizeGroupsOfSortedSpec(Products, Collation);
    }

    /** Reports the size groups ordered by their key. */
    method GroupByOrderByKey()
      requires Valid()
      modifies this`ResultText
      ensures ResultText == SizeGroups(SizeGroupsByKey(Products, Collation))
      ensures multiset(ResultText.groups) == multiset(Grouping.GroupBy(Products, SizeOf))
      ensures forall a, b :: 0 <= a < b < |ResultText.groups| ==> Collation(ResultText.groups[a].key, ResultText.groups[b].key)
    {
      SizeGroupsByKeySpec(Products, Collation);
      var sizeGroup := SortBy(Grouping.GroupBy(Products, SizeOf), ByKey(GroupKey<string, Product>, Collation));
      ResultText := SizeGroups(sizeGroup);
    }

    /** Reports the size groups with more than two members. */
    method GroupByWhere()
      modifies this`ResultText
      ensures ResultText == SizeGroups(LargeSizeGroups(Products))
      ensures forall g :: g in ResultText.groups <==> g in Grouping.GroupBy(Products, SizeOf) && |g.members| > 2
    {
      var sizeGroup := Where(Grouping.GroupBy(Products, SizeOf), HasMoreThanTwo);
      ResultText := SizeGroups(sizeGroup);
      forall g ensures g in sizeGroup <==> g in Grouping.GroupBy(Products, SizeOf) && |g.members| > 2 {
        LargeSizeGroupsSpec(Products, g);
      }
    }

    /** Reports, per sales order, the products sold on it. */
    method GroupedSubquery()
      modifies this`ResultText
      ensures ResultText == SalesOrders(SalesOrderProducts(Products, Sales, UseQuerySyntax))
      ensures ResultText.orders == SalesOrderProducts(Products, Sales, false)
      ensures |ResultText.orders| == |KeysOf(Sales, SalesOrderIdOf)|
      ensures forall i :: 0 <= i < |ResultText.orders| ==> ResultText.orders[i].SalesOrderID == KeysOf(Sales, SalesOrderIdOf)[i]
      ensures forall i, j :: 0 <= i < j < |ResultText.orders| ==> ResultText.orders[i].SalesOrderID != ResultText.orders[j].SalesOrderID
      ensures forall i :: 0 <= i < |ResultText.orders| ==>
        ResultText.orders[i].Products == Select(SalesJoin(Products, Where(Sales, KeyIs(SalesOrderIdOf, ResultText.orders[i].SalesOrderID))), ProductOf)
    {
      SalesOrderSyntaxesAgree(Products, Sales);
      SalesOrderIds(Products, Sales);
      var salesGroup := SalesOrderProducts(Products, Sales, UseQuerySyntax);
      ResultText := SalesOrders(salesGroup);
      forall i | 0 <= i < |salesGroup|
        ensures salesGroup[i].Products == Select(SalesJoin(Products, Where(Sales, KeyIs(SalesOrderIdOf, salesGroup[i].SalesOrderID))), ProductOf)
      {
        SalesOrderEntry(Products, Sales, i);
      }
    }

    // ------------------------------------------------------------ aggregates

    /** Reports the number of products. */
    method Count()
      modifies this`ResultText
      ensures ResultText == ProductCount(|Products|)
    {
      var value := |Products|;
      ResultText := ProductCount(value);
    }

    /** Reports the number of red products: the length of ByColor(Products, "Red"). */
    method CountFiltered()
      modifies this`ResultText
      ensures ResultText == RedProductCount(RedCount(Products))
      ensures ResultText.count == |ByColor(Products, "Red")| <= |Products|
    {
      var search := "Red";
      var value := CountWhere(Products, HasColor(search));
      ResultText := RedProductCount(value);
    }

    /** Reports the total of all list prices. */
    method Sum()
      modifies this`ResultText
      ensures ResultText == TotalOfListPrices(ListPriceTotal(Products))
    {
      var value := Enumerable.Sum(Products, ListPriceOf);
      ResultText := TotalOfListPrices(value);
    }

    /** Reports a fold of the list prices from 0, which is their Sum. */
    method AggregateSum()
      modifies this`ResultText
      ensures ResultText == TotalOfListPrices(ListPriceTotal(Products))
    {
      AggregateSumIsSum(Products);
      var value := Aggregate(Products, 0.0, AddListPrice);
      ResultText := TotalOfListPrices(value);
    }

    /** Reports a fold of OrderQty * UnitPrice over the sales from 0, which is
        the sum of the line values. */
    method AggregateCustom()
      modifies this`ResultText
      ensures ResultText == TotalOfListPrices(Enumerable.Sum(Sales, LineValue))
    {
      AggregateCustomIsSum(Sales);
      var value := Aggregate(Sales, 0.0, AddLineValue);
      ResultText := TotalOfListPrices(value);
    }
  }
}
