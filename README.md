# LINQ samples: the view model and its query operators, in Dafny

The LINQ samples application demonstrates LINQ to Objects through one view
model class, `SamplesViewModel`. The class holds:

- a product list (`Products`);
- a sales-order-line list (`Sales`);
- a switch between query syntax and method syntax (`UseQuerySyntax`);
- the text the last demo produced (`ResultText`).

Each demo method runs one query pipeline. It then does one of three things:
- replaces `Products` with the result;
- clears `Products`;
- only records an outcome in `ResultText`.

The repository also has one extension method of its own, `ProductHelper.ByColor`.

This project models both parts.

- **Query operators** (modules `Comparers`, `Enumerable`, `Ordering`, `SetAlgebra`,
  `Relational`, `Grouping`). These are the LINQ-to-Objects operators the demos
  call, written as pure functions over sequences:
  - filter and projection;
  - count, sum and fold;
  - first, last and single selection, with their not-found and multiple-match
    outcomes;
  - prefix and suffix partitions;
  - a stable sort by key;
  - first-occurrence distinct, except, intersect and union under an
    equivalence;
  - nested-loop equi-join and group-join;
  - left outer join, written both through group-join and `DefaultIfEmpty`
    and through `SelectMany`;
  - group-by in first-seen key order.
  Comparers (`ProductComparer`, `ProductIdComparer`) and the culture's string
  ordering are parameters. The comparers must be equivalences and the
  ordering a total preorder.
- **Entities** (`Domain`). `Product` and `SalesOrderDetail` are values with
  the properties the demos read or write. `ProductHelper.ByColor` is in its
  own module.
- **Demo pipelines** (`SampleQueries`). Each demo's pipeline is a pure function
  of the product and sales lists, with lemmas stating what the demo promises:
  - partition sizes;
  - "Not Found" versus "Multiple elements found";
  - join and group cardinalities;
  - that the two syntaxes agree where they differ in form;
  - that the folds equal the sums.
- **The view model** (`ViewModel.SamplesViewModel`). A class whose fields are
  the four properties. Each demo is a method that updates `Products` and
  `ResultText` as the source does. That includes the method-syntax branches
  that compute a list and drop it, leaving `Products` unchanged:
  - GetSpecificColumns;
  - OrderByTwoFields;
  - WhereExpression.
  `ForEach` and `ForEachCallingMethod` update the products one position at a
  time in a loop. The join demos count their rows in a loop.

`ResultText` is modelled as a `Report` datatype, not as text. A fixed message
("Not Found", "Multiple elements found", "Lists are NOT Equal", ...) is a
constructor. A formatted report keeps the values it prints: the count, the
rows, the groups, the total.

## Model

| member | source | states |
|---|---|---|
| Comparers.EqualIsEquivalence | LINQSamples/ViewModelClasses/SamplesViewModel.cs:851-859 | The default equality on values, used by Contains, SequenceEqual and Except on integers, is an equivalence. |
| Comparers.ByKeyIsTotalPreorder | LINQSamples/ViewModelClasses/SamplesViewModel.cs:172-178 | Ordering elements by a key under a total preorder is a total preorder. |
| Comparers.DescendingIsTotalPreorder | LINQSamples/ViewModelClasses/SamplesViewModel.cs:214-221 | Reversing a total preorder (`descending`) gives a total preorder. |
| Comparers.ThenByIsTotalPreorder | LINQSamples/ViewModelClasses/SamplesViewModel.cs:214-221 | A primary ordering with ties broken by a secondary one (`ThenBy`) is a total preorder. |
| Enumerable.CountWhere | LINQSamples/ViewModelClasses/SamplesViewModel.cs:1544-1557 | Count(predicate) is at most the length; it is 0 exactly when no element passes and the length exactly when all pass. |
| Enumerable.Where | LINQSamples/RepositoryClasses/ProductHelper.cs:12 | Where keeps elements in order (a subsequence), every kept element passes, and it keeps as many as Count(predicate). |
| Enumerable.WhereMembers | LINQSamples/RepositoryClasses/ProductHelper.cs:12 | An element is in Where's result exactly when it is in the input and passes. |
| Enumerable.WhereIdempotent | LINQSamples/RepositoryClasses/ProductHelper.cs:12 | Filtering twice with the same predicate equals filtering once. |
| Enumerable.WhereWhere | LINQSamples/ViewModelClasses/SamplesViewModel.cs:257-266 | Two filters in a row equal one filter on the conjunction. |
| Enumerable.Select | LINQSamples/ViewModelClasses/SamplesViewModel.cs:49-53 | Select keeps the length and maps position by position. |
| Enumerable.Any | LINQSamples/ViewModelClasses/SamplesViewModel.cs:645-653 | Any is true exactly when some element passes. |
| Enumerable.ContainsBy | LINQSamples/ViewModelClasses/SamplesViewModel.cs:699-707 | Contains(x, comparer) is true exactly when some element is comparer-equal to x. |
| Enumerable.SequenceEqual | LINQSamples/ViewModelClasses/SamplesViewModel.cs:814-822 | SequenceEqual holds exactly when the lengths agree and the elements are pairwise comparer-equal. |
| Enumerable.SequenceEqualReflexive | LINQSamples/ViewModelClasses/SamplesViewModel.cs:814-822 | Under an equivalence every list is SequenceEqual to itself. |
| Enumerable.Take | LINQSamples/ViewModelClasses/SamplesViewModel.cs:523-531 | Take(n) is the prefix of length min(n, length). |
| Enumerable.Skip | LINQSamples/ViewModelClasses/SamplesViewModel.cs:566-574 | Skip(n) is the suffix of length max(0, length - n). |
| Enumerable.TakeThenSkip | LINQSamples/ViewModelClasses/SamplesViewModel.cs:519-579 | Take(n) followed by Skip(n) is the whole list. |
| Enumerable.TakeWhile | LINQSamples/ViewModelClasses/SamplesViewModel.cs:545-552 | TakeWhile is a prefix whose elements all pass, stopping at the first element that fails. |
| Enumerable.SkipWhile | LINQSamples/ViewModelClasses/SamplesViewModel.cs:589-596 | SkipWhile is a suffix after a passing prefix, starting with a failing element when non-empty. |
| Enumerable.TakeWhileThenSkipWhile | LINQSamples/ViewModelClasses/SamplesViewModel.cs:541-601 | TakeWhile followed by SkipWhile with the same predicate is the whole list. |
| Enumerable.SumWhere | LINQSamples/ViewModelClasses/SamplesViewModel.cs:512 | Summing a filtered list adds up exactly the passing elements. |
| Enumerable.SumConcat | LINQSamples/ViewModelClasses/SamplesViewModel.cs:1575-1583 | Sum distributes over concatenation. |
| Enumerable.AggregateIsSum | LINQSamples/ViewModelClasses/SamplesViewModel.cs:1699-1709 | A fold whose step adds g(x) to the accumulator equals the seed plus the Sum of g. |
| Enumerable.FirstOrDefault | LINQSamples/ViewModelClasses/SamplesViewModel.cs:335-343 | FirstOrDefault is absent (null) exactly when no element passes. |
| Enumerable.FirstOrDefaultIsFirstMatch | LINQSamples/ViewModelClasses/SamplesViewModel.cs:335-343 | FirstOrDefault returns the element at the first passing index. |
| Enumerable.FirstOrDefaultFound | LINQSamples/ViewModelClasses/SamplesViewModel.cs:335-343 | A present FirstOrDefault result sits at a passing index with no passing index before it. |
| Enumerable.First | LINQSamples/ViewModelClasses/SamplesViewModel.cs:305-313 | First fails with NotFound exactly when no element passes, and otherwise agrees with FirstOrDefault. |
| Enumerable.LastOrDefault | LINQSamples/ViewModelClasses/SamplesViewModel.cs:398-407 | LastOrDefault is absent exactly when no element passes. |
| Enumerable.LastOrDefaultIsLastMatch | LINQSamples/ViewModelClasses/SamplesViewModel.cs:398-407 | LastOrDefault returns the element at the last passing index. |
| Enumerable.LastOrDefaultFound | LINQSamples/ViewModelClasses/SamplesViewModel.cs:398-407 | A present LastOrDefault result sits at a passing index with no passing index after it. |
| Enumerable.Last | LINQSamples/ViewModelClasses/SamplesViewModel.cs:367-371 | Last fails with NotFound exactly when no element passes, and otherwise agrees with LastOrDefault. |
| Enumerable.SingleOrDefault | LINQSamples/ViewModelClasses/SamplesViewModel.cs:433-441 | SingleOrDefault is null for no match, fails with MultipleMatches for more than one, and otherwise is the one match. |
| Enumerable.DefaultIfEmpty | LINQSamples/ViewModelClasses/SamplesViewModel.cs:1207 | DefaultIfEmpty is a single null for empty input, and otherwise the input element by element. |
| Ordering.SortBy | LINQSamples/ViewModelClasses/SamplesViewModel.cs:172-178 | Sorting keeps the length and the multiset of elements. |
| Ordering.SortByIsSorted | LINQSamples/ViewModelClasses/SamplesViewModel.cs:172-178 | Under a total preorder the sorted list is ordered. |
| Ordering.SortByIsStable | LINQSamples/ViewModelClasses/SamplesViewModel.cs:172-178 | Elements with equal keys keep their relative order (stable sort). |
| Ordering.SortBySortedInput | LINQSamples/ViewModelClasses/SamplesViewModel.cs:1282-1283 | An already ordered list is left unchanged. |
| SetAlgebra.DistinctFrom | LINQSamples/ViewModelClasses/SamplesViewModel.cs:612-621 | The first-occurrence scan yields a subsequence with no element equal to an already-seen one and no two elements equal. |
| SetAlgebra.DistinctSpec | LINQSamples/ViewModelClasses/SamplesViewModel.cs:612-621 | Distinct has no duplicates, keeps order, holds only input elements, and represents every input element. |
| SetAlgebra.DistinctIdempotent | LINQSamples/ViewModelClasses/SamplesViewModel.cs:612-621 | Distinct applied twice equals Distinct once. |
| SetAlgebra.ExceptSpec | LINQSamples/ViewModelClasses/SamplesViewModel.cs:888-896 | Except keeps, in first-list order and without duplicates, the first-list elements with no comparer-equal element in the second list, and represents all of them. |
| SetAlgebra.IntersectSpec | LINQSamples/ViewModelClasses/SamplesViewModel.cs:918-926 | Intersect keeps, in first-list order and without duplicates, the first-list elements that have a comparer-equal element in the second list, and represents all of them. |
| SetAlgebra.ExceptIntersectPartition | LINQSamples/ViewModelClasses/SamplesViewModel.cs:876-931 | Every first-list element is represented in exactly one of Except and Intersect. |
| SetAlgebra.UnionSpec | LINQSamples/ViewModelClasses/SamplesViewModel.cs:946-956 | Union has no comparer-duplicates, holds only elements of the two lists, and represents every element of both. |
| SetAlgebra.Concat | LINQSamples/ViewModelClasses/SamplesViewModel.cs:975-983 | Concat has length \|a\| + \|b\|, with a first and b after it. |
| SetAlgebra.ExceptIntegersExample | LINQSamples/ViewModelClasses/SamplesViewModel.cs:843-859 | { 1, 2, 3, 4 } except { 3, 4, 5 } is [1, 2]. |
| Relational.Join | LINQSamples/ViewModelClasses/SamplesViewModel.cs:1034-1036 | The join has one row per key-equal (outer, inner) pair, and every row's keys are equal. |
| Relational.JoinMembers | LINQSamples/ViewModelClasses/SamplesViewModel.cs:1004-1006 | A pair is a join row exactly when both are in their lists and their keys are equal. |
| Relational.JoinFilterInner | LINQSamples/ViewModelClasses/SamplesViewModel.cs:1460-1479 | Joining with a filtered inner list equals filtering the join on its inner element. |
| Relational.CompositeKeyJoin | LINQSamples/ViewModelClasses/SamplesViewModel.cs:1079-1083 | Joining on (key, constant) = (key, field) equals joining on the key with the inner list filtered on field = constant. |
| Relational.GroupJoin | LINQSamples/ViewModelClasses/SamplesViewModel.cs:1155-1164 | Group-join yields one entry per outer element, in order. |
| Relational.GroupJoinEntry | LINQSamples/ViewModelClasses/SamplesViewModel.cs:1155-1164 | Each entry's group is the key-equal inner elements in inner order, and it is empty exactly when there are none. |
| Relational.GroupJoinEntryMembers | LINQSamples/ViewModelClasses/SamplesViewModel.cs:1155-1164 | An inner element is in an entry's group exactly when its key equals the outer element's. |
| Relational.GroupJoinUngroupsToJoin | LINQSamples/ViewModelClasses/SamplesViewModel.cs:1149-1188 | Flattening the group-join gives the inner join. |
| Relational.LeftOuterJoinForms | LINQSamples/ViewModelClasses/SamplesViewModel.cs:1202-1247 | The group-join with DefaultIfEmpty form equals the SelectMany with DefaultIfEmpty form. |
| Relational.LeftOuterJoinCount | LINQSamples/ViewModelClasses/SamplesViewModel.cs:1202-1247 | A left join has one row per matching pair plus one per unmatched outer element. |
| Relational.LeftOuterJoinMatched | LINQSamples/ViewModelClasses/SamplesViewModel.cs:1233-1236 | (a, b) is a row exactly when it is an inner-join row. |
| Relational.LeftOuterJoinUnmatched | LINQSamples/ViewModelClasses/SamplesViewModel.cs:1233-1236 | (a, null) is a row exactly when a is an outer element that no inner element matches. |
| Grouping.GroupsFor | LINQSamples/ViewModelClasses/SamplesViewModel.cs:1282-1283 | The reference grouping: for each key, the group of input elements carrying that key, in input order. |
| Grouping.GroupByIsGroupsForKeys | LINQSamples/ViewModelClasses/SamplesViewModel.cs:1282-1283 | The one-pass GroupBy equals the reference grouping over the distinct keys in first-seen order. |
| Grouping.GroupByKeys | LINQSamples/ViewModelClasses/SamplesViewModel.cs:1282-1283 | GroupBy's keys are the distinct keys in first-seen order, pairwise different, and cover every element's key. |
| Grouping.GroupByMembers | LINQSamples/ViewModelClasses/SamplesViewModel.cs:1282-1292 | A group's members are the elements with its key, in order; every member has the key; the group's Count is positive. |
| Grouping.GroupByPartitions | LINQSamples/ViewModelClasses/SamplesViewModel.cs:1282-1283 | The groups together hold exactly the input elements (as a multiset). |
| Grouping.GroupBySortedInput | LINQSamples/ViewModelClasses/SamplesViewModel.cs:1275-1283 | Grouping a list sorted by the key yields groups in key order. |
| Grouping.KeysOfDistinct | LINQSamples/ViewModelClasses/SamplesViewModel.cs:614-621 | The distinct keys are pairwise different. |
| Grouping.KeysOfCovers | LINQSamples/ViewModelClasses/SamplesViewModel.cs:614-621 | Every element's key is among the distinct keys. |
| Grouping.KeysOfMembers | LINQSamples/ViewModelClasses/SamplesViewModel.cs:614-621 | Every distinct key is some element's key. |
| Domain.StartsWith | LINQSamples/ViewModelClasses/SamplesViewModel.cs:238 | StartsWith holds exactly when the prefix fits and matches character by character. |
| Domain.Utf16Length | LINQSamples/ViewModelClasses/SamplesViewModel.cs:468-473 | string.Length counts UTF-16 code units: between the number of characters and twice it, and equal to it exactly when no character lies above U+FFFF. |
| Domain.ContainsText | LINQSamples/ViewModelClasses/SamplesViewModel.cs:649 | Contains holds exactly when the part occurs at some index. |
| ProductHelper.ByColor | LINQSamples/RepositoryClasses/ProductHelper.cs:10-13 | Every result has the color; the result keeps query order; its length is the number of products of that color, at most the query's. |
| ProductHelper.ByColorMembers | LINQSamples/RepositoryClasses/ProductHelper.cs:12 | A product is in the result exactly when it is in the query and has the color. |
| ProductHelper.ByColorIdempotent | LINQSamples/RepositoryClasses/ProductHelper.cs:12 | ByColor applied twice with the same color equals ByColor once. |
| SampleQueries.SortByNameSpec | LINQSamples/ViewModelClasses/SamplesViewModel.cs:172-178 | Ordering by name yields names in order and is a permutation. |
| SampleQueries.SortByNameStable | LINQSamples/ViewModelClasses/SamplesViewModel.cs:172-178 | Products with equal names keep their input order. |
| SampleQueries.SortByColorThenNameSpec | LINQSamples/ViewModelClasses/SamplesViewModel.cs:214-221 | Colors descend, names ascend within a color, and the result is a permutation. |
| SampleQueries.NamesStartingWithLSpec | LINQSamples/ViewModelClasses/SamplesViewModel.cs:234-243 | Only products whose name starts with "L" are kept, in order, never more than before. |
| SampleQueries.NamesStartingWithLMembers | LINQSamples/ViewModelClasses/SamplesViewModel.cs:234-243 | A product is kept exactly when it is in the list and its name starts with "L". |
| SampleQueries.LNamesCostingOver100Spec | LINQSamples/ViewModelClasses/SamplesViewModel.cs:255-266 | Only "L" products with StandardCost above 100 are kept, in order; this is WhereExpression's result filtered by cost. |
| SampleQueries.LNamesCostingOver100Members | LINQSamples/ViewModelClasses/SamplesViewModel.cs:255-266 | A product is kept exactly when it is in the list, its name starts with "L" and its StandardCost is above 100. |
| SampleQueries.FirstRedReportSpec | LINQSamples/ViewModelClasses/SamplesViewModel.cs:299-355 | "Not Found" exactly when no product is red, otherwise the first red product; FirstOrDefault reports the same. |
| SampleQueries.LastRedReportSpec | LINQSamples/ViewModelClasses/SamplesViewModel.cs:361-387 | "Not Found" exactly when no product is red; query syntax reports the last red product; method syntax reports First's result. |
| SampleQueries.LastOrDefaultReportSpec | LINQSamples/ViewModelClasses/SamplesViewModel.cs:393-419 | "Not Found" exactly when no color is "dds", otherwise the last such product. |
| SampleQueries.SingleReportSpec | LINQSamples/ViewModelClasses/SamplesViewModel.cs:427-457 | "Not Found" for no product with ID 706, "Found" for exactly one (that product), "Multiple elements found" for more. |
| SampleQueries.TakeSkipByNameSpec | LINQSamples/ViewModelClasses/SamplesViewModel.cs:519-579 | Take leaves the first min(5, n) products by name; Skip leaves the last max(0, n - 20). |
| SampleQueries.LeadingANamesSpec | LINQSamples/ViewModelClasses/SamplesViewModel.cs:541-601 | TakeWhile keeps the longest prefix of "A" names, SkipWhile exactly the rest, which starts with a non-"A" name. |
| SampleQueries.DistinctColorsSpec | LINQSamples/ViewModelClasses/SamplesViewModel.cs:608-621 | The colors are pairwise different, and a color is listed exactly when some product has it. |
| SampleQueries.AnyReportSpec | LINQSamples/ViewModelClasses/SamplesViewModel.cs:640-656 | The answer is true exactly when "z" occurs in some product name. |
| SampleQueries.ContainsThreeExample | LINQSamples/ViewModelClasses/SamplesViewModel.cs:666-681 | 3 is in { 1, 2, 3, 4, 5 }. |
| SampleQueries.SequenceEqualIntegersExample | LINQSamples/ViewModelClasses/SamplesViewModel.cs:721-748 | { 5, 2, 3, 4, 5 } and { 1, 2, 3, 4, 5 } are not SequenceEqual. |
| SampleQueries.CatalogWithoutFirstNeverEqual | LINQSamples/ViewModelClasses/SamplesViewModel.cs:802-833 | A list without its first element is never SequenceEqual to the list, whatever the comparer. |
| SampleQueries.ExceptNonBlackSpec | LINQSamples/ViewModelClasses/SamplesViewModel.cs:876-898 | The result keeps the catalog's order and has no two comparer-equal products. |
| SampleQueries.ExceptNonBlackMembers | LINQSamples/ViewModelClasses/SamplesViewModel.cs:876-898 | The result holds only black catalog products and represents each black product with no equal among the non-black ones. |
| SampleQueries.IntersectNonBlackNonRedSpec | LINQSamples/ViewModelClasses/SamplesViewModel.cs:905-931 | The result keeps the order of the non-black list (the first list) and has no two comparer-equal products. |
| SampleQueries.IntersectNonBlackNonRedMembers | LINQSamples/ViewModelClasses/SamplesViewModel.cs:905-931 | The result holds only non-black catalog products with an equal among the non-red ones, and represents every product that is neither black nor red. |
| SampleQueries.UnionByNameSpec | LINQSamples/ViewModelClasses/SamplesViewModel.cs:938-961 | The result is sorted by name and is a permutation of the comparer-union, which is free of duplicates. |
| SampleQueries.UnionByNameMembers | LINQSamples/ViewModelClasses/SamplesViewModel.cs:938-961 | The result holds only catalog products and represents every one. |
| SampleQueries.ConcatByNameSpec | LINQSamples/ViewModelClasses/SamplesViewModel.cs:968-987 | Concat keeps duplicates: twice the count, each product twice as often, sorted by name. |
| SampleQueries.SalesJoinMembers | LINQSamples/ViewModelClasses/SamplesViewModel.cs:1004-1008 | A row exists exactly for a (product, sale) pair with equal ProductID. |
| SampleQueries.QtySixJoinSpec | LINQSamples/ViewModelClasses/SamplesViewModel.cs:1079-1083 | The two-field join equals the ProductID join over the sales with OrderQty 6, and has one row per such pair. |
| SampleQueries.QtySixJoinMembers | LINQSamples/ViewModelClasses/SamplesViewModel.cs:1079-1083 | A row exists exactly for a product and a sale with equal ProductID and OrderQty 6. |
| SampleQueries.SalesPerProductSpec | LINQSamples/ViewModelClasses/SamplesViewModel.cs:1149-1188 | One entry per product, in order; its sales are that product's sales in sales order; the list is empty exactly when the product has none. |
| SampleQueries.SalesPerProductMembers | LINQSamples/ViewModelClasses/SamplesViewModel.cs:1155-1164 | A sale is in a product's entry exactly when it has that product's ID. |
| SampleQueries.LeftJoinByNameSpec | LINQSamples/ViewModelClasses/SamplesViewModel.cs:1195-1261 | Both syntaxes give the same rows, one per matching pair plus one per product without sales, sorted by name. |
| SampleQueries.LeftJoinByNameMatched | LINQSamples/ViewModelClasses/SamplesViewModel.cs:1233-1249 | A product appears with a sale exactly when the two have equal ProductID. |
| SampleQueries.LeftJoinByNameUnmatched | LINQSamples/ViewModelClasses/SamplesViewModel.cs:1233-1249 | A product appears with a null sale exactly when no sale has its ID. |
| SampleQueries.SizeGroupsOfSortedSpec | LINQSamples/ViewModelClasses/SamplesViewModel.cs:1268-1349 | The size groups partition the products, and their sizes are distinct and ascending. |
| SampleQueries.SizeGroupOfSortedMembers | LINQSamples/ViewModelClasses/SamplesViewModel.cs:1282-1292 | Each group is non-empty and holds exactly the products of its size, each with Size equal to the key. |
| SampleQueries.SizeGroupsByKeySpec | LINQSamples/ViewModelClasses/SamplesViewModel.cs:1355-1392 | Ordering the groups by key keeps the same groups and puts keys in ascending order. |
| SampleQueries.LargeSizeGroupsSpec | LINQSamples/ViewModelClasses/SamplesViewModel.cs:1401-1418 | Exactly the groups with more than two members are kept, in group order. |
| SampleQueries.OrdersFromGroups | LINQSamples/ViewModelClasses/SamplesViewModel.cs:1472-1480 | One entry per sales-order group, carrying the group's key. |
| SampleQueries.SalesOrderSyntaxesAgree | LINQSamples/ViewModelClasses/SamplesViewModel.cs:1454-1482 | The subquery over all sales filtered by order ID equals the join with the order's own group. |
| SampleQueries.SalesOrderIds | LINQSamples/ViewModelClasses/SamplesViewModel.cs:1454-1482 | One entry per distinct SalesOrderID, in first-seen order, no ID twice. |
| SampleQueries.SalesOrderEntry | LINQSamples/ViewModelClasses/SamplesViewModel.cs:1454-1482 | Each entry lists the products joined with that order's sales. |
| SampleQueries.ProductSalesTotalSpec | LINQSamples/ViewModelClasses/SamplesViewModel.cs:510-513 | The total adds the LineTotal of exactly the sales with the product's ID, and is 0 when there are none. |
| SampleQueries.AggregateSumIsSum | LINQSamples/ViewModelClasses/SamplesViewModel.cs:1695-1720 | The fold from 0 adding list prices equals the Sum of list prices. |
| SampleQueries.AggregateCustomIsSum | LINQSamples/ViewModelClasses/SamplesViewModel.cs:1727-1752 | The fold from 0 adding OrderQty * UnitPrice equals the sum of those line values. |
| ViewModel.SamplesViewModel.constructor | LINQSamples/ViewModelClasses/SamplesViewModel.cs:11-24 | The view model starts with the loaded products and sales, method syntax, and no report. |
| ViewModel.SamplesViewModel.GetAll | LINQSamples/ViewModelClasses/SamplesViewModel.cs:44-58 | Reports the product count and changes nothing else. |
| ViewModel.SamplesViewModel.GetSingleColumn | LINQSamples/ViewModelClasses/SamplesViewModel.cs:65-87 | Reports every product name in order, then Products is empty. |
| ViewModel.SamplesViewModel.GetSpecificColumns | LINQSamples/ViewModelClasses/SamplesViewModel.cs:93-115 | Query syntax replaces each product by a new one with its ID, name and size and every other property reset; method syntax leaves Products unchanged; the count is reported. |
| ViewModel.SamplesViewModel.AnonymousClass | LINQSamples/ViewModelClasses/SamplesViewModel.cs:122-163 | Reports one (ID, name, size) row per product, in order, then Products is empty. |
| ViewModel.SamplesViewModel.OrderBy | LINQSamples/ViewModelClasses/SamplesViewModel.cs:169-184 | Products becomes the stable sort by name: ordered, a permutation. |
| ViewModel.SamplesViewModel.OrderByTwoFields | LINQSamples/ViewModelClasses/SamplesViewModel.cs:210-225 | Query syntax sorts by color descending, then name; method syntax leaves Products unchanged. |
| ViewModel.SamplesViewModel.WhereExpression | LINQSamples/ViewModelClasses/SamplesViewModel.cs:232-246 | Query syntax keeps exactly the "L" products in order; method syntax leaves Products unchanged; the count never grows. |
| ViewModel.SamplesViewModel.WhereTwoFields | LINQSamples/ViewModelClasses/SamplesViewModel.cs:253-269 | Keeps, in order, the "L" products with StandardCost above 100, in both syntaxes. |
| ViewModel.SamplesViewModel.WhereExtensionMethod | LINQSamples/ViewModelClasses/SamplesViewModel.cs:276-292 | Keeps, in order, exactly the red products, through ByColor. |
| ViewModel.SamplesViewModel.First | LINQSamples/ViewModelClasses/SamplesViewModel.cs:299-324 | Reports the first red product or "Not Found" (exactly when none is red); no failure escapes; Products is emptied. |
| ViewModel.SamplesViewModel.FirstOrDefault | LINQSamples/ViewModelClasses/SamplesViewModel.cs:330-355 | Reports what First reports, without an exception path; Products is emptied. |
| ViewModel.SamplesViewModel.Last | LINQSamples/ViewModelClasses/SamplesViewModel.cs:361-387 | Query syntax reports the last red product; method syntax reports the first (it calls First); "Not Found" exactly when none is red; Products is emptied. |
| ViewModel.SamplesViewModel.LastOrDefault | LINQSamples/ViewModelClasses/SamplesViewModel.cs:393-419 | Reports the last "dds" product or "Not Found" exactly when there is none; Products is emptied. |
| ViewModel.SamplesViewModel.SingleOrDefault | LINQSamples/ViewModelClasses/SamplesViewModel.cs:427-457 | "Not Found" for 0 products with ID 706, "Found" for 1, "Multiple elements found" for more; Products is emptied. |
| ViewModel.SamplesViewModel.ForEach | LINQSamples/ViewModelClasses/SamplesViewModel.cs:463-479 | Every product's NameLength becomes its name's length in UTF-16 code units (string.Length), and nothing else changes. |
| ViewModel.SamplesViewModel.SalesForProduct | LINQSamples/ViewModelClasses/SamplesViewModel.cs:510-513 | The sum of LineTotal over the sales with the product's ID, 0 when there are none. |
| ViewModel.SamplesViewModel.ForEachCallingMethod | LINQSamples/ViewModelClasses/SamplesViewModel.cs:486-502 | Every product's TotalSales becomes SalesForProduct of it and nothing else changes. |
| ViewModel.SamplesViewModel.Take | LINQSamples/ViewModelClasses/SamplesViewModel.cs:519-535 | Products becomes the first min(5, n) products by name. |
| ViewModel.SamplesViewModel.TakeWhile | LINQSamples/ViewModelClasses/SamplesViewModel.cs:541-556 | Products becomes the longest prefix, by name, of names starting with "A". |
| ViewModel.SamplesViewModel.Skip | LINQSamples/ViewModelClasses/SamplesViewModel.cs:562-579 | Products becomes the last max(0, n - 20) products by name. |
| ViewModel.SamplesViewModel.SkipWhile | LINQSamples/ViewModelClasses/SamplesViewModel.cs:585-601 | Products becomes the rest after that "A" prefix; it is empty or starts with a non-"A" name. |
| ViewModel.SamplesViewModel.Distinct | LINQSamples/ViewModelClasses/SamplesViewModel.cs:608-633 | Returns each product color once; Products is emptied and ResultText is left as it was. |
| ViewModel.SamplesViewModel.Any | LINQSamples/ViewModelClasses/SamplesViewModel.cs:640-660 | The answer is whether "z" occurs in some name; Products is emptied. |
| ViewModel.SamplesViewModel.LINQContains | LINQSamples/ViewModelClasses/SamplesViewModel.cs:666-686 | Reports that the number is in the collection; Products is emptied. |
| ViewModel.SamplesViewModel.LINQContainsUsingComparer | LINQSamples/ViewModelClasses/SamplesViewModel.cs:692-715 | The answer is whether some product is comparer-equal to a new product with ID 744; Products is emptied. |
| ViewModel.SamplesViewModel.SequenceEqualIntegers | LINQSamples/ViewModelClasses/SamplesViewModel.cs:721-753 | Reports "Lists are NOT Equal"; Products is emptied. |
| ViewModel.SamplesViewModel.SequenceEqualUsingComparer | LINQSamples/ViewModelClasses/SamplesViewModel.cs:802-837 | Reports "Lists are NOT Equal" for every non-empty catalog and comparer; Products is emptied. |
| ViewModel.SamplesViewModel.ExceptIntegers | LINQSamples/ViewModelClasses/SamplesViewModel.cs:843-869 | Reports the numbers 1 and 2, one per line; Products is emptied. |
| ViewModel.SamplesViewModel.Except | LINQSamples/ViewModelClasses/SamplesViewModel.cs:876-898 | Products becomes the black catalog products, in catalog order, no two comparer-equal. |
| ViewModel.SamplesViewModel.Intersect | LINQSamples/ViewModelClasses/SamplesViewModel.cs:905-931 | Products becomes non-black catalog products in the non-black list's order, no two equal, representing every product neither black nor red. |
| ViewModel.SamplesViewModel.Union | LINQSamples/ViewModelClasses/SamplesViewModel.cs:938-961 | Products becomes the comparer-union sorted by name, holding only and representing every catalog product. |
| ViewModel.SamplesViewModel.LINQConcat | LINQSamples/ViewModelClasses/SamplesViewModel.cs:968-987 | Products becomes both copies of the catalog sorted by name: twice the count. |
| ViewModel.SamplesViewModel.InnerJoin | LINQSamples/ViewModelClasses/SamplesViewModel.cs:996-1064 | Reports the (product, sale) rows with equal ProductID; the counted total is the number of such pairs. |
| ViewModel.SamplesViewModel.InnerJoinTwoFields | LINQSamples/ViewModelClasses/SamplesViewModel.cs:1070-1143 | Reports the rows with equal ProductID and OrderQty 6, and their count. |
| ViewModel.SamplesViewModel.GroupJoin | LINQSamples/ViewModelClasses/SamplesViewModel.cs:1149-1188 | Reports one entry per product, in order, with an empty sales list exactly when it has no sales. |
| ViewModel.SamplesViewModel.LeftOuterJoin | LINQSamples/ViewModelClasses/SamplesViewModel.cs:1195-1262 | Reports the same rows in both syntaxes; the count is the matching pairs plus the products without sales. |
| ViewModel.SamplesViewModel.GroupBy | LINQSamples/ViewModelClasses/SamplesViewModel.cs:1268-1305 | Reports size groups that partition the products, with distinct ascending sizes and members of the group's size. |
| ViewModel.SamplesViewModel.GroupByIntoSelect | LINQSamples/ViewModelClasses/SamplesViewModel.cs:1311-1349 | Reports the same groups as GroupBy, which partition the products. |
| ViewModel.SamplesViewModel.GroupByOrderByKey | LINQSamples/ViewModelClasses/SamplesViewModel.cs:1355-1395 | Reports the size groups with keys in ascending order. |
| ViewModel.SamplesViewModel.GroupByWhere | LINQSamples/ViewModelClasses/SamplesViewModel.cs:1401-1442 | Reports exactly the size groups with more than two members. |
| ViewModel.SamplesViewModel.GroupedSubquery | LINQSamples/ViewModelClasses/SamplesViewModel.cs:1448-1507 | Reports one entry per distinct SalesOrderID, with the products sold on it, the same in both syntaxes. |
| ViewModel.SamplesViewModel.Count | LINQSamples/ViewModelClasses/SamplesViewModel.cs:1513-1531 | Reports the number of products. |
| ViewModel.SamplesViewModel.CountFiltered | LINQSamples/ViewModelClasses/SamplesViewModel.cs:1537-1565 | Reports the number of red products, which is the length of ByColor(Products, "Red"). |
| ViewModel.SamplesViewModel.Sum | LINQSamples/ViewModelClasses/SamplesViewModel.cs:1571-1596 | Reports the total of all list prices. |
| ViewModel.SamplesViewModel.AggregateSum | LINQSamples/ViewModelClasses/SamplesViewModel.cs:1695-1720 | Reports the fold of list prices from 0, proved equal to their Sum. |
| ViewModel.SamplesViewModel.AggregateCustom | LINQSamples/ViewModelClasses/SamplesViewModel.cs:1727-1752 | Reports the fold of OrderQty * UnitPrice from 0, proved equal to the sum of the line values. |

## Left out

- LINQSamples/Program.cs picks one demo and writes to the console. It is input/output only.
- Text formatting of `ResultText` is not modelled. This covers StringBuilder, currency formatting (`{x:c}`), and `Product.ToString()`, which is culture-dependent. The model keeps the fixed messages and the values the reports print.
- The console output of Distinct is returned as the list of colors.
- Product.cs and SalesOrderDetail.cs are not part of this model. The properties of both entities are inferred from their use.
- ProductComparer and ProductIdComparer are not part of this model. Each is a parameter that must be an equivalence; which fields it compares is not modelled.
- Loading through ProductRepository.GetAll and SalesOrderDetailRepository.GetAll is not modelled. Its results are the constructor's lists and the `catalog` parameter of Except, Intersect, Union, LINQConcat and SequenceEqualUsingComparer. `RemoveAll` and `RemoveAt` on those fresh copies become filtering and dropping the first element.
- Culture-sensitive string ordering is the class's `Collation`, an arbitrary total preorder. StartsWith and Contains are ordinal prefix and substring tests.
- Minimum, Maximum, Average and AggregateUsingGrouping are left out. They rest on the unshown type of ListPrice, and on decimal division and rounding.
- SequenceEqualProducts is left out. Its answer depends on the reference identity of freshly allocated objects, and the model has values, not references.
- The empty stubs GetAllLooping, OrderByDescending and AggregateUsingGroupingMoreEfficient are left out. They hold no query.
- Deferred execution is not modelled. Every demo enumerates its pipeline once or materialises it, so eager sequences give the same results.
- Products are values, not shared objects. ForEach and ForEachCallingMethod change each product at its position in `Products`. Any other reference to the same product objects is not modelled.
- Money (`decimal`) is a real: no overflow and no rounding. OrderQty is an unbounded integer.
- Properties a projection does not set (`new Product { ProductID = ... }`) are null strings and zero numbers in the source. The model uses empty strings.
- Sum, AggregateSum and AggregateCustom have a "No List Prices Exist." branch for a result without a value. A sum or a fold from 0 always has a value, so the branch is never taken and the model has no such branch.
- SequenceEqualUsingComparer requires a non-empty catalog. On an empty catalog `RemoveAt(0)` throws an exception the demo does not catch.
- Setting `UseQuerySyntax` is a plain field assignment; the user interface that sets it is not modelled.
- Strings holding an unpaired UTF-16 surrogate cannot be represented, because a Dafny character is a Unicode scalar value. Every other name has the same Length in the model (`Utf16Length`) as in the source.
