/** The pantry page: the search-and-category view of the list, and the
    handlers that replace the list. `Date.now()` is an argument. */
module PantryPage {
  import opened Text
  import opened Seqs
  import opened Options
  import opened PantryItemCard

  const AllCategories: string := "All"

  /** What the add dialog submits. */
  datatype NewPantryItem = NewPantryItem(name: string, category: string, quantity: real, unit: string, expiryDate: int)

  /** The search matches the name case-insensitively and the category filter is
      "All" or the item's category. */
  predicate Matches(item: PantryItemData, searchQuery: string, categoryFilter: string) {
    Contains(Lower(item.name), Lower(searchQuery))
    && (categoryFilter == AllCategories || item.category == categoryFilter)
  }

  function MatchTest(searchQuery: string, categoryFilter: string): PantryItemData -> bool {
    item => Matches(item, searchQuery, categoryFilter)
  }

  function OtherId(id: string): PantryItemData -> bool {
    (item: PantryItemData) => item.id != id
  }

  /** filteredItems: the matching items, in list order. */
  function FilteredItems(items: seq<PantryItemData>, searchQuery: string, categoryFilter: string): (r: seq<PantryItemData>)
    ensures forall i :: 0 <= i < |r| ==> r[i] in items && Matches(r[i], searchQuery, categoryFilter)
    ensures forall i :: 0 <= i < |items| && Matches(items[i], searchQuery, categoryFilter) ==> items[i] in r
    ensures forall i :: 0 <= i < |items| && Matches(items[i], searchQuery, categoryFilter) ==>
              multiset(r)[items[i]] == multiset(items)[items[i]]
    ensures IsSubsequence(r, items)
  {
    FilterIsSubsequence(items, MatchTest(searchQuery, categoryFilter));
    FilterCounts(items, MatchTest(searchQuery, categoryFilter));
    FilterMembers(items, MatchTest(searchQuery, categoryFilter));
    Filter(items, MatchTest(searchQuery, categoryFilter))
  }

  /** With no search text and the "All" filter, every item is shown. */
  lemma UnfilteredShowsAll(items: seq<PantryItemData>)
    ensures FilteredItems(items, "", AllCategories) == items
  {
    forall i | 0 <= i < |items| ensures Matches(items[i], "", AllCategories) {
      ContainsSelfAndEmpty(Lower(items[i].name));
    }
    FilterKeepsAll(items, MatchTest("", AllCategories));
  }

  function InCategory(category: string): PantryItemData -> bool {
    (item: PantryItemData) => item.category == category
  }

  /** A category other than "All" shows exactly the items of that category among
      those "All" shows, in the same order. */
  lemma CategoryNarrows(items: seq<PantryItemData>, searchQuery: string, category: string)
    ensures category != AllCategories ==>
              (FilteredItems(items, searchQuery, category)
               == Filter(FilteredItems(items, searchQuery, AllCategories), InCategory(category)))
  {
    if category != AllCategories {
      FilterFilter(items, MatchTest(searchQuery, AllCategories), InCategory(category), MatchTest(searchQuery, category));
    }
  }

  /** handleDeleteItem: every item with the id goes, the others stay in order. */
  function DeleteItem(items: seq<PantryItemData>, id: string): (r: seq<PantryItemData>)
    ensures forall i :: 0 <= i < |r| ==> r[i].id != id
    ensures forall i :: 0 <= i < |items| && items[i].id != id ==> items[i] in r
    ensures forall i :: 0 <= i < |items| && items[i].id != id ==> multiset(r)[items[i]] == multiset(items)[items[i]]
    ensures IsSubsequence(r, items)
  {
    FilterIsSubsequence(items, OtherId(id));
    FilterCounts(items, OtherId(id));
    Filter(items, OtherId(id))
  }

  /** handleAddItem: one new item at the front, carrying the submitted fields and
      an id made of the clock's digits. */
  function AddItem(items: seq<PantryItemData>, submitted: NewPantryItem, now: nat): (r: seq<PantryItemData>)
    ensures |r| == |items| + 1 && r[1..] == items
    ensures r[0].name == submitted.name && r[0].category == submitted.category
    ensures r[0].quantity == submitted.quantity && r[0].unit == submitted.unit
    ensures r[0].expiryDate == submitted.expiryDate && r[0].imageUrl.None?
    ensures (forall i :: 0 <= i < |r[0].id| ==> IsDigit(r[0].id[i])) && DecimalValue(r[0].id) == now
  {
    var item := PantryItemData(NatToDecimal(now), submitted.name, submitted.category, submitted.quantity,
                               submitted.unit, submitted.expiryDate, None);
    [item] + items
  }

  /** The header count is the length of the whole list, whatever the filter shows. */
  function ItemCount(items: seq<PantryItemData>): (r: nat)
    ensures forall q, c :: r >= |FilteredItems(items, q, c)|
  {
    |items|
  }
}
