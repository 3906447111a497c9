/** The "Expiring Soon" panel: nothing for an empty list, otherwise one row per
    item, soonest expiry first, each with a days-left label. The whole-day count
    (differenceInDays against the clock) is an argument. */
module ExpiryAlertPanel {
  import opened Options
  import opened Text
  import opened Seqs
  import opened Sorting
  import opened FoodImages

  /** Expiry is a JavaScript Date's time value, as `getTime()` returns it. */
  datatype ExpiringItem = ExpiringItem(id: string, name: string, expiryDate: int, quantity: real, unit: string)

  datatype AlertRow = AlertRow(item: ExpiringItem, isExpired: bool, caption: string, imageUrl: string)

  function ExpiryTime(): ExpiringItem -> int {
    (item: ExpiringItem) => item.expiryDate
  }

  /** "Expired", "Today", "1 day left" or "N days left". */
  function DaysLeftLabel(daysLeft: int): (r: string)
    ensures daysLeft < 0 <==> r == "Expired"
    ensures daysLeft == 0 <==> r == "Today"
    ensures daysLeft > 0 ==> r == NatToDecimal(daysLeft) + (if daysLeft > 1 then " days left" else " day left")
  {
    if daysLeft < 0 then "Expired"
    else if daysLeft == 0 then "Today"
    else NatToDecimal(daysLeft) + " day" + (if daysLeft > 1 then "s" else "") + " left"
  }

  /** Different counts that are not yet expired get different labels. */
  lemma {:induction false} DaysLeftLabelInjective(a: int, b: int)
    requires a >= 0 && b >= 0
    requires DaysLeftLabel(a) == DaysLeftLabel(b)
    ensures a == b
  {
    if a > 0 && b > 0 {
      var da, db := NatToDecimal(a), NatToDecimal(b);
      var la, lb := DaysLeftLabel(a), DaysLeftLabel(b);
      assert la[|da|] == ' ';
      assert lb[|db|] == ' ';
      assert |da| == |db|;
      assert da == la[..|da|] == lb[..|db|] == db;
      NatToDecimalInjective(a, b);
    }
  }

  /** The panel: `None` (renders nothing) for an empty list; otherwise the rows of
      a sorted copy of the items, ascending by expiry time. */
  function ExpiryAlerts(items: seq<ExpiringItem>, daysLeft: ExpiringItem -> int): (r: Option<seq<AlertRow>>)
    ensures r.None? <==> items == []
    ensures r.Some? ==> |r.value| == |items|
    ensures r.Some? ==> multiset(seq(|r.value|, i requires 0 <= i < |r.value| => r.value[i].item)) == multiset(items)
    ensures r.Some? ==> forall i, j :: 0 <= i < j < |r.value| ==> r.value[i].item.expiryDate <= r.value[j].item.expiryDate
    ensures r.Some? ==> forall i :: 0 <= i < |r.value| ==>
              && (r.value[i].isExpired <==> daysLeft(r.value[i].item) < 0)
              && r.value[i].caption == DaysLeftLabel(daysLeft(r.value[i].item))
              && r.value[i].imageUrl == GetFoodImage(r.value[i].item.name)
  {
    if |items| == 0 then None
    else
      var sortedItems := SortBy(items, ExpiryTime());
      var rows := seq(|sortedItems|, i requires 0 <= i < |sortedItems| =>
        var item := sortedItems[i];
        var d := daysLeft(item);
        AlertRow(item, d < 0, DaysLeftLabel(d), GetFoodImage(item.name)));
      assert seq(|rows|, i requires 0 <= i < |rows| => rows[i].item) == sortedItems;
      assert forall i, j :: 0 <= i < j < |rows| ==> ExpiryTime()(sortedItems[i]) <= ExpiryTime()(sortedItems[j]);
      Some(rows)
  }

  /** The items of the rows, in row order. */
  function RowItems(rows: seq<AlertRow>): (r: seq<ExpiringItem>)
    ensures |r| == |rows| && forall i :: 0 <= i < |rows| ==> r[i] == rows[i].item
  {
    seq(|rows|, i requires 0 <= i < |rows| => rows[i].item)
  }

  /** The copy is sorted stably: items with the same expiry time keep the order
      they have in the input. */
  lemma ExpiryAlertsStable(items: seq<ExpiringItem>, daysLeft: ExpiringItem -> int, k: int)
    ensures ExpiryAlerts(items, daysLeft).Some? ==>
              (Filter(RowItems(ExpiryAlerts(items, daysLeft).value), HasKey(ExpiryTime(), k))
               == Filter(items, HasKey(ExpiryTime(), k)))
  {
    if items != [] {
      assert RowItems(ExpiryAlerts(items, daysLeft).value) == SortBy(items, ExpiryTime());
      SortStable(items, ExpiryTime(), k);
    }
  }
}
