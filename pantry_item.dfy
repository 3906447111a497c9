/** The pantry item card: the expiry badge chosen from the whole number of days
    until expiry, and the picture shown for the item. The day count
    (differenceInDays against the clock) and the "MMM d" rendering of the date
    are arguments. */
module PantryItemCard {
  import opened Options
  import opened Text
  import opened FoodImages

  /** Expiry is a JavaScript Date's time value. */
  datatype PantryItemData = PantryItemData(
    id: string, name: string, category: string, quantity: real, unit: string,
    expiryDate: int, imageUrl: Option<string>)

  const Destructive: string := "bg-destructive"
  const Amber: string := "bg-amber-500"
  const Primary: string := "bg-primary"

  datatype ExpiryStatus = ExpiryStatus(color: string, text: string)

  /** The template `${days}d left`. */
  function DaysLeftText(days: nat): (r: string)
    ensures |r| > 6 && r[|r| - 6..] == "d left"
    ensures forall i :: 0 <= i < |r| - 6 ==> IsDigit(r[i])
    ensures DecimalValue(r[..|r| - 6]) == days
  {
    var digits := NatToDecimal(days);
    var r := digits + "d left";
    assert r[..|r| - 6] == digits;
    r
  }

  /** Distinct day counts read differently. */
  lemma DaysLeftTextInjective(a: nat, b: nat)
    requires DaysLeftText(a) == DaysLeftText(b)
    ensures a == b
  {
  }

  /** The badge: expired, then up to three days, then up to seven, then a date. */
  function GetExpiryStatus(daysUntilExpiry: int, formattedDate: string): (r: ExpiryStatus)
    ensures r.color == Destructive <==> daysUntilExpiry <= 3
    ensures r.color == Amber <==> 4 <= daysUntilExpiry <= 7
    ensures r.color == Primary <==> daysUntilExpiry > 7
    ensures daysUntilExpiry < 0 ==> r.text == "Expired"
    ensures 0 <= daysUntilExpiry <= 7 ==> r.text == DaysLeftText(daysUntilExpiry)
    ensures daysUntilExpiry > 7 ==> r.text == formattedDate
  {
    if daysUntilExpiry < 0 then ExpiryStatus(Destructive, "Expired")
    else if daysUntilExpiry <= 3 then ExpiryStatus(Destructive, DaysLeftText(daysUntilExpiry))
    else if daysUntilExpiry <= 7 then ExpiryStatus(Amber, DaysLeftText(daysUntilExpiry))
    else ExpiryStatus(Primary, formattedDate)
  }

  /** How alarming a badge colour is. */
  function Urgency(color: string): nat {
    if color == Destructive then 2 else if color == Amber then 1 else 0
  }

  /** The nearer the expiry, the more alarming the badge. */
  lemma StatusMonotone(d1: int, d2: int, f1: string, f2: string)
    requires d1 <= d2
    ensures Urgency(GetExpiryStatus(d1, f1).color) >= Urgency(GetExpiryStatus(d2, f2).color)
  {
  }

  /** `item.imageUrl || getFoodImage(item.name)`: a non-empty URL of the item's
      own, otherwise the picture looked up by name. */
  function CardImage(item: PantryItemData): (r: string)
    ensures item.imageUrl.Some? && item.imageUrl.value != "" ==> r == item.imageUrl.value
    ensures item.imageUrl.None? || item.imageUrl.value == "" ==>
              r == Placeholder || exists i :: 0 <= i < |ImageMap| && ImageMap[i].path == r
  {
    if item.imageUrl.Some? && item.imageUrl.value != "" then item.imageUrl.value
    else GetFoodImage(item.name)
  }
}
