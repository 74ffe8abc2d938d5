/** The "All Recipes" page: the search filter over the catalog. */
module RecipesPage {
  import opened Strings
  import opened Seqs
  import opened Catalog

  /**
   * The search test: the lower-cased term occurs in the lower-cased name or
   * in the lower-cased description.
   */
  predicate Matches(r: Recipe, term: string)
    ensures term == "" ==> Matches(r, term)
    ensures Matches(r, term) ==> |term| <= |r.name| || |term| <= |r.description|
  {
    ContainsTrivial(Lower(r.name));
    Contains(Lower(r.name), Lower(term)) || Contains(Lower(r.description), Lower(term))
  }

  /** `Matches` as the callback handed to `filter`. */
  function MatchesTerm(term: string): Recipe -> bool {
    (r: Recipe) => Matches(r, term)
  }

  /** `filteredRecipes`: the recipes that match the search term, in catalog order. */
  function FilteredRecipes(catalog: seq<Recipe>, term: string): (r: seq<Recipe>)
    ensures |r| <= |catalog|
    ensures forall k :: 0 <= k < |r| ==> Matches(r[k], term)
  {
    Filter(catalog, MatchesTerm(term))
  }

  /**
   * The result is an order-preserving subsequence of the catalog; a recipe
   * of the catalog is shown exactly when it matches the term.
   */
  lemma FilteredRecipesSpec(catalog: seq<Recipe>, term: string)
    ensures var r := FilteredRecipes(catalog, term);
      && IsSubsequence(r, catalog)
      && (forall k :: 0 <= k < |r| ==> Matches(r[k], term))
      && (forall x :: x in catalog ==> (x in r <==> Matches(x, term)))
      && forall x :: multiset(r)[x] == if Matches(x, term) then multiset(catalog)[x] else 0
  {
    FilterIsSubsequence(catalog, MatchesTerm(term));
    FilterMembers(catalog, MatchesTerm(term));
    FilterMultiset(catalog, MatchesTerm(term));
  }

  /** An empty search term keeps the whole catalog. */
  lemma EmptyTermKeepsAll(catalog: seq<Recipe>)
    ensures FilteredRecipes(catalog, "") == catalog
  {
    forall k | 0 <= k < |catalog| ensures MatchesTerm("")(catalog[k]) {
      ContainsTrivial(Lower(catalog[k].name));
    }
    FilterAll(catalog, MatchesTerm(""));
  }

  /** Terms that differ only in letter case give the same result. */
  lemma SearchIgnoresCase(catalog: seq<Recipe>, t1: string, t2: string)
    requires Lower(t1) == Lower(t2)
    ensures FilteredRecipes(catalog, t1) == FilteredRecipes(catalog, t2)
  {
    FilterSameTest(catalog, MatchesTerm(t1), MatchesTerm(t2));
  }

  /** In particular, searching for a term and for its lower-cased form agree. */
  lemma SearchLowerTerm(catalog: seq<Recipe>, term: string)
    ensures FilteredRecipes(catalog, Lower(term)) == FilteredRecipes(catalog, term)
  {
    LowerIdempotent(term);
    SearchIgnoresCase(catalog, Lower(term), term);
  }
}
