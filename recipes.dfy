/** The recipe page's list: the recipes whose title matches the search (and,
    when asked, that need no missing ingredient), best match first. */
module Recipes {
  import opened Text
  import opened Seqs
  import opened Sorting

  datatype Recipe = Recipe(
    id: string, title: string, prepTime: int, servings: int, matchPercentage: int,
    missingIngredients: seq<string>, tags: seq<string>)

  const MockRecipes: seq<Recipe> := [
    Recipe("1", "Creamy Garlic Pasta", 25, 4, 85, ["Parmesan cheese"], ["Italian", "Quick"]),
    Recipe("2", "Grilled Chicken Salad", 20, 2, 100, [], ["Healthy", "Low-carb"]),
    Recipe("3", "Vegetable Stir Fry", 15, 3, 70, ["Soy sauce", "Sesame oil"], ["Asian", "Vegetarian"]),
    Recipe("4", "Salmon with Lemon Butter", 30, 2, 90, ["Capers"], ["Seafood", "Keto"]),
    Recipe("5", "Greek Yogurt Parfait", 5, 1, 100, [], ["Breakfast", "Quick"]),
    Recipe("6", "Beef Tacos", 35, 4, 65, ["Taco shells", "Salsa"], ["Mexican", "Family"])
  ]

  predicate Shown(recipe: Recipe, searchQuery: string, showOnlyAvailable: bool) {
    Contains(Lower(recipe.title), Lower(searchQuery))
    && (!showOnlyAvailable || recipe.matchPercentage == 100)
  }

  function ShownTest(searchQuery: string, showOnlyAvailable: bool): Recipe -> bool {
    recipe => Shown(recipe, searchQuery, showOnlyAvailable)
  }

  /** The comparator `b.matchPercentage - a.matchPercentage` sorts ascending by this key. */
  function DescendingMatch(): Recipe -> int {
    (recipe: Recipe) => -recipe.matchPercentage
  }

  /** filteredRecipes: filter, then a stable sort by falling match percentage. */
  function FilteredRecipes(recipes: seq<Recipe>, searchQuery: string, showOnlyAvailable: bool): (r: seq<Recipe>)
    ensures |r| <= |recipes|
  {
    SortBy(Filter(recipes, ShownTest(searchQuery, showOnlyAvailable)), DescendingMatch())
  }

  /** Every listed recipe matches the search, and with the toggle on it needs nothing missing. */
  lemma FilteredRecipesMatch(recipes: seq<Recipe>, searchQuery: string, showOnlyAvailable: bool)
    ensures var r := FilteredRecipes(recipes, searchQuery, showOnlyAvailable);
            && (forall i :: 0 <= i < |r| ==> Contains(Lower(r[i].title), Lower(searchQuery)))
            && (showOnlyAvailable ==> forall i :: 0 <= i < |r| ==> r[i].matchPercentage == 100)
  {
    var shown := Filter(recipes, ShownTest(searchQuery, showOnlyAvailable));
    SortByElements(shown, DescendingMatch(), ShownTest(searchQuery, showOnlyAvailable));
  }

  /** The list runs from the best match to the worst. */
  lemma FilteredRecipesOrder(recipes: seq<Recipe>, searchQuery: string, showOnlyAvailable: bool)
    ensures var r := FilteredRecipes(recipes, searchQuery, showOnlyAvailable);
            forall i, j :: 0 <= i < j < |r| ==> r[i].matchPercentage >= r[j].matchPercentage
  {
    var r := FilteredRecipes(recipes, searchQuery, showOnlyAvailable);
    assert SortedBy(r, DescendingMatch());
  }

  /** The list is a reordering of exactly the matching recipes. */
  lemma FilteredRecipesPermutation(recipes: seq<Recipe>, searchQuery: string, showOnlyAvailable: bool)
    ensures var r := FilteredRecipes(recipes, searchQuery, showOnlyAvailable);
            && multiset(r) == multiset(Filter(recipes, ShownTest(searchQuery, showOnlyAvailable)))
            && (forall i :: 0 <= i < |recipes| && Shown(recipes[i], searchQuery, showOnlyAvailable) ==> recipes[i] in r)
  {
    var shown := Filter(recipes, ShownTest(searchQuery, showOnlyAvailable));
    SortByElements(shown, DescendingMatch(), ShownTest(searchQuery, showOnlyAvailable));
  }

  /** Recipes with the same match percentage keep their list order: for every key
      `k` (a match percentage of `-k`), the listed recipes with that key are the
      shown recipes with that key, in the order they come in `recipes`. */
  lemma {:induction false} FilteredRecipesStable(recipes: seq<Recipe>, searchQuery: string, showOnlyAvailable: bool, k: int)
    ensures Filter(FilteredRecipes(recipes, searchQuery, showOnlyAvailable), HasKey(DescendingMatch(), k))
         == Filter(Filter(recipes, ShownTest(searchQuery, showOnlyAvailable)), HasKey(DescendingMatch(), k))
  {
    SortsShown(recipes, searchQuery, showOnlyAvailable);
    SortStable(Filter(recipes, ShownTest(searchQuery, showOnlyAvailable)), DescendingMatch(), k);
  }

  /** The list is the shown recipes put in order; stated apart so that proofs about
      the sort see only this equation and not the definition's unfolding. */
  lemma SortsShown(recipes: seq<Recipe>, searchQuery: string, showOnlyAvailable: bool)
    ensures FilteredRecipes(recipes, searchQuery, showOnlyAvailable)
         == SortBy(Filter(recipes, ShownTest(searchQuery, showOnlyAvailable)), DescendingMatch())
  {
  }

  /** Without a search and without the toggle, every recipe is listed. */
  lemma UnfilteredListsAll(recipes: seq<Recipe>)
    ensures multiset(FilteredRecipes(recipes, "", false)) == multiset(recipes)
    ensures |FilteredRecipes(recipes, "", false)| == |recipes|
  {
    FilteredRecipesPermutation(recipes, "", false);
    forall i | 0 <= i < |recipes| ensures Shown(recipes[i], "", false) {
      ContainsSelfAndEmpty(Lower(recipes[i].title));
    }
    FilterKeepsAll(recipes, ShownTest("", false));
  }

  lemma AllSixRecipes()
    ensures |FilteredRecipes(MockRecipes, "", false)| == 6
  {
    UnfilteredListsAll(MockRecipes);
  }
}
