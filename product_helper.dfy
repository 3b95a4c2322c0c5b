/** The ByColor extension method: a filter on a product sequence by color. */
module ProductHelper {
  import opened Enumerable
  import opened Domain

  /** The products whose Color is exactly `color` (ordinal string equality). */
  function HasColor(color: string): Product -> bool {
    (p: Product) => p.Color == color
  }

  /** ByColor(query, color): the products of `query` with that color, in
      query order. */
  function ByColor(query: seq<Product>, color: string): (r: seq<Product>)
    ensures forall i :: 0 <= i < |r| ==> r[i].Color == color
    ensures IsSubsequence(r, query)
    ensures |r| == CountWhere(query, HasColor(color)) <= |query|
  {
    Where(query, HasColor(color))
  }

  /** A product is in the result exactly when it is in the query and has the
      color: nothing of that color is lost, nothing of another is kept. */
  lemma ByColorMembers(query: seq<Product>, color: string, p: Product)
    ensures p in ByColor(query, color) <==> p in query && p.Color == color
  {
    WhereMembers(query, HasColor(color), p);
  }

  /** Filtering twice by the same color changes nothing. */
  lemma ByColorIdempotent(query: seq<Product>, color: string)
    ensures ByColor(ByColor(query, color), color) == ByColor(query, color)
  {
    WhereIdempotent(query, HasColor(color));
  }
}
