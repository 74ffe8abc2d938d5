/** The home page: the same search filter, showing at most ten recipes. */
module HomePage {
  import opened Strings
  import opened Seqs
  import opened Catalog
  import opened RecipesPage

  /** How many recipes the home page shows (`slice(0, 10)`). */
  const ShownLimit := 10

  /** The smaller of two numbers: how many elements `slice(0, 10)` keeps. */
  function Min(a: int, b: int): int {
    if a <= b then a else b
  }

  /**
   * `filteredRecipes` on the home page: the first ten recipes of the search
   * filter, each matching the term, in catalog order.
   */
  function HomeRecipes(catalog: seq<Recipe>, term: string): (r: seq<Recipe>)
    ensures |r| <= ShownLimit
    ensures |r| == Min(ShownLimit, |FilteredRecipes(catalog, term)|)
    ensures r == FilteredRecipes(catalog, term)[..|r|]
    ensures forall k :: 0 <= k < |r| ==> Matches(r[k], term)
  {
    var all := FilteredRecipes(catalog, term);
    all[..Min(ShownLimit, |all|)]
  }

  /** The shown recipes keep catalog order. */
  lemma HomeRecipesInCatalogOrder(catalog: seq<Recipe>, term: string)
    ensures IsSubsequence(HomeRecipes(catalog, term), catalog)
  {
    var all := FilteredRecipes(catalog, term);
    FilteredRecipesSpec(catalog, term);
    SubsequencePrefix(all, catalog, |HomeRecipes(catalog, term)|);
  }

  /** With an empty search term the home page shows the first ten recipes of the catalog. */
  lemma HomeEmptyTerm(catalog: seq<Recipe>)
    ensures HomeRecipes(catalog, "") == catalog[..Min(ShownLimit, |catalog|)]
  {
    EmptyTermKeepsAll(catalog);
  }
}
