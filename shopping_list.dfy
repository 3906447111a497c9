/** The shopping-list page: its list state and the handlers that replace it,
    the grouping of the list by category, and the count of items still to buy.
    `Date.now()` (the id of a new item) is an argument. */
module ShoppingList {
  import opened Options
  import opened Text
  import opened Seqs

  datatype ListItem = ListItem(
    id: string, name: string, category: string, quantity: real, unit: string,
    estimatedPrice: Option<real>, isChecked: bool)

  function InCategory(c: string): ListItem -> bool {
    (item: ListItem) => item.category == c
  }

  function HasId(id: string): ListItem -> bool {
    (item: ListItem) => item.id == id
  }

  function OtherId(id: string): ListItem -> bool {
    (item: ListItem) => item.id != id
  }

  function Unchecked(): ListItem -> bool {
    (item: ListItem) => !item.isChecked
  }

  /** The categories of `items`, each once, in the order they first appear. */
  function Categories(items: seq<ListItem>): (r: seq<string>)
    ensures forall c :: c in r <==> exists i :: 0 <= i < |items| && items[i].category == c
    ensures forall i, j :: 0 <= i < j < |r| ==> r[i] != r[j]
    decreases |items|
  {
    if items == [] then []
    else
      var prefix := items[..|items| - 1];
      var last := items[|items| - 1];
      var r := Categories(prefix);
      assert forall c :: c in r ==> exists i :: 0 <= i < |items| && items[i].category == c by {
        forall c | c in r ensures exists i :: 0 <= i < |items| && items[i].category == c {
          var i :| 0 <= i < |prefix| && prefix[i].category == c;
          assert items[i].category == c;
        }
      }
      assert forall i :: 0 <= i < |prefix| ==> items[i] == prefix[i];
      if last.category in r then r else r + [last.category]
  }

  /** The items of category `c` are none when `c` is not among the categories. */
  lemma AbsentCategoryEmpty(items: seq<ListItem>, c: string)
    requires c !in Categories(items)
    ensures Filter(items, InCategory(c)) == []
  {
    FilterDropsAll(items, InCategory(c));
  }

  /** `order` and `groups` are the grouping of `items`. */
  ghost predicate Grouped(items: seq<ListItem>, order: seq<string>, groups: map<string, seq<ListItem>>) {
    && order == Categories(items)
    && (forall c :: c in groups <==> c in order)
    && (forall c :: c in groups ==> groups[c] == Filter(items, InCategory(c)))
  }

  /** `groupedItems`: one group per category, in first-appearance order, each
      holding that category's items in list order. */
  method GroupedItems(items: seq<ListItem>) returns (order: seq<string>, groups: map<string, seq<ListItem>>)
    ensures order == Categories(items)
    ensures forall c :: c in groups <==> c in order
    ensures forall c :: c in groups ==> groups[c] == Filter(items, InCategory(c))
  {
    order := [];
    groups := map[];
    var i := 0;
    while i < |items|
      invariant 0 <= i <= |items|
      invariant Grouped(items[..i], order, groups)
    {
      var item := items[i];
      assert items[..i + 1] == items[..i] + [item];
      GroupStep(items[..i], item, order, groups);
      var c := item.category;
      var group := if c in groups then groups[c] else [];
      if c !in groups {
        order := order + [c];
      }
      groups := groups[c := group + [item]];
      i := i + 1;
    }
    assert items[..i] == items;
  }

  /** Adding one item to the grouping of a list gives the grouping of the longer list. */
  lemma GroupStep(items: seq<ListItem>, x: ListItem, order: seq<string>, groups: map<string, seq<ListItem>>)
    requires Grouped(items, order, groups)
    ensures Grouped(items + [x],
                    if x.category in groups then order else order + [x.category],
                    groups[x.category := (if x.category in groups then groups[x.category] else []) + [x]])
  {
    CategoriesSnoc(items, x);
    GroupStepContents(items, x, groups);
  }

  /** The group of the item's category grows by the item; the others stay. */
  lemma GroupStepContents(items: seq<ListItem>, x: ListItem, groups: map<string, seq<ListItem>>)
    requires forall c :: c in groups ==> groups[c] == Filter(items, InCategory(c))
    requires x.category !in groups ==> x.category !in Categories(items)
    ensures var groups' := groups[x.category := (if x.category in groups then groups[x.category] else []) + [x]];
            forall c :: c in groups' ==> groups'[c] == Filter(items + [x], InCategory(c))
  {
    var k := x.category;
    var groups' := groups[k := (if k in groups then groups[k] else []) + [x]];
    forall c | c in groups' ensures groups'[c] == Filter(items + [x], InCategory(c)) {
      FilterCategorySnoc(items, x, c);
      if c == k && k !in groups {
        AbsentCategoryEmpty(items, k);
      }
    }
  }

  /** One more item adds its category at the end, unless the category is already there. */
  lemma CategoriesSnoc(items: seq<ListItem>, x: ListItem)
    ensures Categories(items + [x])
         == if x.category in Categories(items) then Categories(items) else Categories(items) + [x.category]
  {
    assert (items + [x])[..|items|] == items;
  }

  /** One more item joins the end of its own category's group only. */
  lemma FilterCategorySnoc(items: seq<ListItem>, x: ListItem, c: string)
    ensures Filter(items + [x], InCategory(c))
         == Filter(items, InCategory(c)) + (if x.category == c then [x] else [])
  {
    FilterConcat(items, [x], InCategory(c));
  }

  /** Total number of items over the groups of the categories `cs`. */
  function GroupTotal(cs: seq<string>, items: seq<ListItem>): nat
    decreases |cs|
  {
    if cs == [] then 0 else |Filter(items, InCategory(cs[0]))| + GroupTotal(cs[1..], items)
  }

  /** One more item adds one to exactly the group of its category. */
  lemma {:induction false} GroupTotalSnoc(cs: seq<string>, items: seq<ListItem>, x: ListItem)
    requires forall i, j :: 0 <= i < j < |cs| ==> cs[i] != cs[j]
    ensures GroupTotal(cs, items + [x]) == GroupTotal(cs, items) + (if x.category in cs then 1 else 0)
    decreases |cs|
  {
    if cs != [] {
      FilterConcat(items, [x], InCategory(cs[0]));
      GroupTotalSnoc(cs[1..], items, x);
      assert x.category in cs <==> x.category == cs[0] || x.category in cs[1..];
      if x.category == cs[0] {
        assert x.category !in cs[1..];
      }
    }
  }

  lemma {:induction false} GroupTotalAppendCategory(cs: seq<string>, c: string, items: seq<ListItem>)
    ensures GroupTotal(cs + [c], items) == GroupTotal(cs, items) + |Filter(items, InCategory(c))|
    decreases |cs|
  {
    if cs == [] {
      assert GroupTotal([c], items) == |Filter(items, InCategory(c))| + GroupTotal([], items);
    } else {
      assert (cs + [c])[1..] == cs[1..] + [c];
      GroupTotalAppendCategory(cs[1..], c, items);
    }
  }

  /** The group sizes add up to the length of the list: nothing is lost or shown twice. */
  lemma {:induction false} GroupSizesSum(items: seq<ListItem>)
    ensures GroupTotal(Categories(items), items) == |items|
    decreases |items|
  {
    if items != [] {
      var prefix := items[..|items| - 1];
      var x := items[|items| - 1];
      assert items == prefix + [x];
      GroupSizesSum(prefix);
      var cs := Categories(prefix);
      GroupTotalSnoc(cs, prefix, x);
      if x.category !in cs {
        GroupTotalAppendCategory(cs, x.category, items);
        AbsentCategoryEmpty(prefix, x.category);
        FilterConcat(prefix, [x], InCategory(x.category));
      }
    }
  }

  /** handleToggle: the items with this id get the new check state and nothing else changes. */
  function Toggle(items: seq<ListItem>, id: string, checked: bool): (r: seq<ListItem>)
    ensures |r| == |items|
    ensures forall i :: 0 <= i < |r| ==> r[i].(isChecked := items[i].isChecked) == items[i]
    ensures forall i :: 0 <= i < |r| ==> r[i].isChecked == (if items[i].id == id then checked else items[i].isChecked)
  {
    seq(|items|, i requires 0 <= i < |items| => if items[i].id == id then items[i].(isChecked := checked) else items[i])
  }

  /** handleDelete: the items with this id go, the rest stay in order. */
  function Delete(items: seq<ListItem>, id: string): (r: seq<ListItem>)
    ensures forall i :: 0 <= i < |r| ==> r[i].id != id
    ensures forall i :: 0 <= i < |items| && items[i].id != id ==> items[i] in r
    ensures forall i :: 0 <= i < |items| && items[i].id != id ==> multiset(r)[items[i]] == multiset(items)[items[i]]
    ensures IsSubsequence(r, items)
  {
    FilterIsSubsequence(items, OtherId(id));
    FilterCounts(items, OtherId(id));
    Filter(items, OtherId(id))
  }

  /** The item a handler prepends: category "Other", one piece, unchecked. */
  function NewItem(now: nat, name: string): (r: ListItem)
    ensures r.category == "Other" && r.quantity == 1.0 && r.unit == "pcs" && !r.isChecked
    ensures r.name == name && r.estimatedPrice.None?
    ensures (forall i :: 0 <= i < |r.id| ==> IsDigit(r.id[i])) && DecimalValue(r.id) == now
  {
    ListItem(NatToDecimal(now), name, "Other", 1.0, "pcs", None, false)
  }

  /** handleAddItem: the new list and the new input text. A blank input (empty or
      whitespace only) changes neither; otherwise the untrimmed text is prepended
      as a new item and the input is cleared. */
  function AddItem(items: seq<ListItem>, input: string, now: nat): (r: (seq<ListItem>, string))
    ensures (forall i :: 0 <= i < |input| ==> IsJsSpace(input[i])) ==> r == (items, input)
    ensures (exists i :: 0 <= i < |input| && !IsJsSpace(input[i])) ==>
              r.0 == [NewItem(now, input)] + items && r.1 == ""
  {
    TrimEmptyIffBlank(input);
    if Trim(input) == "" then (items, input) else ([NewItem(now, input)] + items, "")
  }

  /** handleClearChecked: exactly the unchecked items, in order. */
  function ClearChecked(items: seq<ListItem>): (r: seq<ListItem>)
    ensures forall i :: 0 <= i < |r| ==> !r[i].isChecked
    ensures forall i :: 0 <= i < |items| && !items[i].isChecked ==> items[i] in r
    ensures forall i :: 0 <= i < |items| && !items[i].isChecked ==> multiset(r)[items[i]] == multiset(items)[items[i]]
    ensures IsSubsequence(r, items)
  {
    FilterIsSubsequence(items, Unchecked());
    FilterCounts(items, Unchecked());
    Filter(items, Unchecked())
  }

  lemma ClearCheckedIdempotent(items: seq<ListItem>)
    ensures ClearChecked(ClearChecked(items)) == ClearChecked(items)
  {
    FilterIdempotent(items, Unchecked());
  }

  /** handleAddSuggestion: prepends without looking at the name. */
  function AddSuggestion(items: seq<ListItem>, name: string, now: nat): (r: seq<ListItem>)
    ensures |r| == |items| + 1 && r[0] == NewItem(now, name) && r[1..] == items
  {
    [NewItem(now, name)] + items
  }

  /** The "items to buy" figure. */
  function UncheckedCount(items: seq<ListItem>): (r: nat)
    ensures r <= |items|
  {
    |Filter(items, Unchecked())|
  }

  /** After clearing, every remaining item is still to buy, and the number to buy is unchanged. */
  lemma ClearKeepsCount(items: seq<ListItem>)
    ensures UncheckedCount(ClearChecked(items)) == |ClearChecked(items)| == UncheckedCount(items)
  {
    FilterIdempotent(items, Unchecked());
  }

  /** Checking items off and then clearing is the same as clearing and then
      deleting them. */
  lemma CheckThenClear(items: seq<ListItem>, id: string)
    ensures ClearChecked(Toggle(items, id, true)) == Delete(ClearChecked(items), id)
  {
    CheckedAreDropped(items, id);
  }

  /** `CheckThenClear` in terms of the filters the handlers apply. */
  lemma {:induction false} CheckedAreDropped(items: seq<ListItem>, id: string)
    ensures Filter(Toggle(items, id, true), Unchecked()) == Filter(Filter(items, Unchecked()), OtherId(id))
    decreases |items|
  {
    if items != [] {
      var t := Toggle(items, id, true);
      assert t[1..] == Toggle(items[1..], id, true);
      CheckedAreDropped(items[1..], id);
      assert t == [t[0]] + t[1..];
      assert items == [items[0]] + items[1..];
      FilterConcat([t[0]], t[1..], Unchecked());
      FilterConcat([items[0]], items[1..], Unchecked());
      var c := Filter([items[0]], Unchecked());
      FilterConcat(c, Filter(items[1..], Unchecked()), OtherId(id));
    }
  }

  /** Toggling twice leaves the second state. */
  lemma ToggleTwice(items: seq<ListItem>, id: string, a: bool, b: bool)
    ensures Toggle(Toggle(items, id, a), id, b) == Toggle(items, id, b)
  {
  }
}
