/** The meal planner page: removing a slot and the two summary counts. */
module MealPlanner {
  import opened Options
  import opened Seqs

  datatype SlotType = Breakfast | Lunch | Dinner

  datatype MealSlot = MealSlot(day: int, mealType: SlotType, recipeName: Option<string>, recipeId: Option<string>)

  function OtherSlot(day: int, mealType: SlotType): MealSlot -> bool {
    (m: MealSlot) => !(m.day == day && m.mealType == mealType)
  }

  /** handleRemoveMeal: every slot at this day and meal goes, the rest stay in order. */
  function RemoveMeal(meals: seq<MealSlot>, day: int, mealType: SlotType): (r: seq<MealSlot>)
    ensures forall i :: 0 <= i < |r| ==> !(r[i].day == day && r[i].mealType == mealType)
    ensures forall i :: 0 <= i < |meals| && !(meals[i].day == day && meals[i].mealType == mealType) ==> meals[i] in r
    ensures forall i :: 0 <= i < |meals| && !(meals[i].day == day && meals[i].mealType == mealType) ==>
              multiset(r)[meals[i]] == multiset(meals)[meals[i]]
    ensures IsSubsequence(r, meals)
  {
    FilterIsSubsequence(meals, OtherSlot(day, mealType));
    FilterCounts(meals, OtherSlot(day, mealType));
    Filter(meals, OtherSlot(day, mealType))
  }

  /** Removing a slot that is not planned changes nothing. */
  lemma RemoveAbsentMeal(meals: seq<MealSlot>, day: int, mealType: SlotType)
    requires forall i :: 0 <= i < |meals| ==> !(meals[i].day == day && meals[i].mealType == mealType)
    ensures RemoveMeal(meals, day, mealType) == meals
  {
    FilterKeepsAll(meals, OtherSlot(day, mealType));
  }

  /** `meals.length`: every planned slot counts, so the total is never below the
      number of planned days and is zero only for an empty plan. */
  function TotalMeals(meals: seq<MealSlot>): (r: nat)
    ensures r >= DaysPlanned(meals)
    ensures r == 0 <==> meals == []
  {
    |meals|
  }

  /** `new Set(meals.map((m) => m.day))`. */
  function Days(meals: seq<MealSlot>): (r: set<int>)
    ensures forall d :: d in r <==> exists i :: 0 <= i < |meals| && meals[i].day == d
    decreases |meals|
  {
    if meals == [] then {}
    else
      var rest := Days(meals[1..]);
      assert forall d :: d in rest ==> exists i :: 0 <= i < |meals| && meals[i].day == d by {
        forall d | d in rest ensures exists i :: 0 <= i < |meals| && meals[i].day == d {
          var i :| 0 <= i < |meals[1..]| && meals[1..][i].day == d;
          assert meals[i + 1].day == d;
        }
      }
      {meals[0].day} + rest
  }

  /** The number of distinct days with a meal: at most one per slot, and zero
      only for an empty plan. */
  function DaysPlanned(meals: seq<MealSlot>): (r: nat)
    ensures r <= |meals|
    ensures r == 0 <==> meals == []
  {
    DaysAtMostMeals(meals);
    if meals != [] then assert meals[0].day in Days(meals); |Days(meals)| else |Days(meals)|
  }

  /** There are never more distinct days than slots. */
  lemma {:induction false} DaysAtMostMeals(meals: seq<MealSlot>)
    ensures |Days(meals)| <= |meals|
    decreases |meals|
  {
    if meals != [] {
      DaysAtMostMeals(meals[1..]);
      assert Days(meals) == {meals[0].day} + Days(meals[1..]);
    }
  }

  /** Removing a slot never adds a day. */
  lemma RemoveMealDays(meals: seq<MealSlot>, day: int, mealType: SlotType)
    ensures Days(RemoveMeal(meals, day, mealType)) <= Days(meals)
  {
    var r := RemoveMeal(meals, day, mealType);
    FilterMembers(meals, OtherSlot(day, mealType));
    forall d | d in Days(r) ensures d in Days(meals) {
      var i :| 0 <= i < |r| && r[i].day == d;
      var j :| 0 <= j < |meals| && meals[j] == r[i];
    }
  }
}
