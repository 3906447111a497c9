/** The in-memory store (`MemStorage`): five insertion-ordered collections
    keyed by generated ids, CRUD operations on them, and two derived queries.
    Fresh ids (randomUUID), clock readings, the ISO text of "now" and the
    parsing of date strings (`new Date(text)`) are arguments. */
module Storage {
  import opened Options
  import opened Seqs
  import opened OrderedMaps
  import opened Crypto

  /** A JavaScript Date's time value: milliseconds since the epoch. */
  type Instant = int

  /** date-fns `addDays(date, amount)`: the same local wall-clock time `amount`
      calendar days later. Across a daylight-saving change that is not a
      multiple of 24 hours, so the time-zone rules are a parameter. */
  type AddDays = (Instant, int) -> Instant

  /** A stored account; `password` holds the bcrypt hash, never the plaintext. */
  datatype User = User(id: string, username: string, password: string)

  datatype PantryItem = PantryItem(
    id: string, name: string, quantity: real, unit: string, category: string,
    expiryDate: Option<string>, barcode: Option<string>, price: Option<real>,
    addedDate: string)

  /** What createPantryItem receives: every field but `id` and `addedDate`. */
  datatype NewPantryItem = NewPantryItem(
    name: string, quantity: real, unit: string, category: string,
    expiryDate: Option<string>, barcode: Option<string>, price: Option<real>)

  /** Partial<Omit<PantryItem, "id">>: `None` means the field was not supplied. */
  datatype PantryPatch = PantryPatch(
    name: Option<string>, quantity: Option<real>, unit: Option<string>, category: Option<string>,
    expiryDate: Option<string>, barcode: Option<string>, price: Option<real>,
    addedDate: Option<string>)

  datatype ShoppingItem = ShoppingItem(
    id: string, name: string, quantity: real, unit: string, category: string,
    purchased: bool, addedDate: string)

  datatype NewShoppingItem = NewShoppingItem(
    name: string, quantity: real, unit: string, category: string, purchased: bool)

  /** Partial<Omit<ShoppingItem, "id">>. */
  datatype ShoppingPatch = ShoppingPatch(
    name: Option<string>, quantity: Option<real>, unit: Option<string>, category: Option<string>,
    purchased: Option<bool>, addedDate: Option<string>)

  datatype MealType = Breakfast | Lunch | Dinner | Snack

  datatype MealPlan = MealPlan(
    id: string, date: string, mealType: MealType, recipeName: string, recipeId: Option<string>)

  datatype NewMealPlan = NewMealPlan(
    date: string, mealType: MealType, recipeName: string, recipeId: Option<string>)

  datatype Expense = Expense(
    id: string, amount: real, category: string, date: string, description: Option<string>)

  datatype NewExpense = NewExpense(
    amount: real, category: string, date: string, description: Option<string>)

  datatype Stats = Stats(totalItems: nat, expiringSoon: nat, plannedMeals: nat, monthlySpending: real)

  /** `{ ...item, ...updates }`: each supplied field overrides, every other field
      and the id are kept. */
  function ApplyPantryPatch(item: PantryItem, patch: PantryPatch): (r: PantryItem)
    ensures r.id == item.id
    ensures r.name == (if patch.name.Some? then patch.name.value else item.name)
    ensures r.quantity == (if patch.quantity.Some? then patch.quantity.value else item.quantity)
    ensures r.unit == (if patch.unit.Some? then patch.unit.value else item.unit)
    ensures r.category == (if patch.category.Some? then patch.category.value else item.category)
    ensures r.expiryDate == (if patch.expiryDate.Some? then patch.expiryDate else item.expiryDate)
    ensures r.barcode == (if patch.barcode.Some? then patch.barcode else item.barcode)
    ensures r.price == (if patch.price.Some? then patch.price else item.price)
    ensures r.addedDate == (if patch.addedDate.Some? then patch.addedDate.value else item.addedDate)
  {
    PantryItem(
      item.id,
      patch.name.GetOr(item.name),
      patch.quantity.GetOr(item.quantity),
      patch.unit.GetOr(item.unit),
      patch.category.GetOr(item.category),
      if patch.expiryDate.Some? then patch.expiryDate else item.expiryDate,
      if patch.barcode.Some? then patch.barcode else item.barcode,
      if patch.price.Some? then patch.price else item.price,
      patch.addedDate.GetOr(item.addedDate))
  }

  function ApplyShoppingPatch(item: ShoppingItem, patch: ShoppingPatch): (r: ShoppingItem)
    ensures r.id == item.id
    ensures r.name == (if patch.name.Some? then patch.name.value else item.name)
    ensures r.quantity == (if patch.quantity.Some? then patch.quantity.value else item.quantity)
    ensures r.unit == (if patch.unit.Some? then patch.unit.value else item.unit)
    ensures r.category == (if patch.category.Some? then patch.category.value else item.category)
    ensures r.purchased == (if patch.purchased.Some? then patch.purchased.value else item.purchased)
    ensures r.addedDate == (if patch.addedDate.Some? then patch.addedDate.value else item.addedDate)
  {
    ShoppingItem(
      item.id,
      patch.name.GetOr(item.name),
      patch.quantity.GetOr(item.quantity),
      patch.unit.GetOr(item.unit),
      patch.category.GetOr(item.category),
      patch.purchased.GetOr(item.purchased),
      patch.addedDate.GetOr(item.addedDate))
  }

  /** Applying the same update twice has the effect of applying it once. */
  lemma PatchIdempotent(p: PantryItem, pp: PantryPatch, s: ShoppingItem, sp: ShoppingPatch)
    ensures ApplyPantryPatch(ApplyPantryPatch(p, pp), pp) == ApplyPantryPatch(p, pp)
    ensures ApplyShoppingPatch(ApplyShoppingPatch(s, sp), sp) == ApplyShoppingPatch(s, sp)
  {
  }

  /** `us[i]` is the first user, in insertion order, with this username. */
  ghost predicate FirstWithName(us: seq<User>, username: string, i: int) {
    0 <= i < |us| && us[i].username == username
    && forall j :: 0 <= j < i ==> us[j].username != username
  }

  /** Array.prototype.find over the users by exact username. */
  function FindUser(us: seq<User>, username: string): (r: Option<User>)
    ensures r.None? <==> forall i :: 0 <= i < |us| ==> us[i].username != username
    ensures r.Some? ==> exists i :: FirstWithName(us, username, i) && us[i] == r.value
    decreases |us|
  {
    if us == [] then None
    else if us[0].username == username then
      assert FirstWithName(us, username, 0);
      Some(us[0])
    else
      var r := FindUser(us[1..], username);
      if r.Some? then
        assert exists i :: FirstWithName(us, username, i) && us[i] == r.value by {
          var i :| FirstWithName(us[1..], username, i) && us[1..][i] == r.value;
          assert FirstWithName(us, username, i + 1);
        }
        r
      else
        r
  }

  /** When exactly one user has the name, find returns that user. */
  lemma {:induction false} FindUniqueUser(us: seq<User>, username: string, i: int)
    requires 0 <= i < |us| && us[i].username == username
    requires forall j :: 0 <= j < |us| && j != i ==> us[j].username != username
    ensures FindUser(us, username) == Some(us[i])
    decreases |us|
  {
    if i > 0 {
      FindUniqueUser(us[1..], username, i - 1);
    }
  }

  /** The filter of getExpiringSoonItems: a non-empty expiry date that parses to an
      instant no earlier than `now` and no later than `cutoff`. */
  predicate ExpiresWithin(item: PantryItem, now: Instant, cutoff: Instant, parse: string -> Option<Instant>) {
    match item.expiryDate
    case None => false
    case Some(text) =>
      text != "" &&
      match parse(text)
      case None => false
      case Some(t) => now <= t <= cutoff
  }

  function ExpiryTest(now: Instant, cutoff: Instant, parse: string -> Option<Instant>): PantryItem -> bool {
    item => ExpiresWithin(item, now, cutoff, parse)
  }

  /** The items that expire between `now` and `cutoff`, in their stored order. */
  function ExpiringSoon(items: seq<PantryItem>, now: Instant, cutoff: Instant, parse: string -> Option<Instant>): (r: seq<PantryItem>)
    ensures forall i :: 0 <= i < |r| ==> r[i] in items && ExpiresWithin(r[i], now, cutoff, parse)
    ensures forall i :: 0 <= i < |items| && ExpiresWithin(items[i], now, cutoff, parse) ==> items[i] in r
    ensures forall i :: 0 <= i < |items| && ExpiresWithin(items[i], now, cutoff, parse) ==>
              multiset(r)[items[i]] == multiset(items)[items[i]]
    ensures IsSubsequence(r, items)
  {
    FilterIsSubsequence(items, ExpiryTest(now, cutoff, parse));
    FilterCounts(items, ExpiryTest(now, cutoff, parse));
    FilterMembers(items, ExpiryTest(now, cutoff, parse));
    Filter(items, ExpiryTest(now, cutoff, parse))
  }

  /** An expense counts towards this month's spending when its date parses to an
      instant at or after the start of the month (there is no upper bound). */
  predicate InMonth(e: Expense, monthStart: Instant, parse: string -> Option<Instant>) {
    match parse(e.date)
    case None => false
    case Some(t) => t >= monthStart
  }

  function MonthTest(monthStart: Instant, parse: string -> Option<Instant>): Expense -> bool {
    e => InMonth(e, monthStart, parse)
  }

  function SumAmounts(es: seq<Expense>): real
    decreases |es|
  {
    if es == [] then 0.0 else es[0].amount + SumAmounts(es[1..])
  }

  lemma {:induction false} SumAmountsConcat(a: seq<Expense>, b: seq<Expense>)
    ensures SumAmounts(a + b) == SumAmounts(a) + SumAmounts(b)
    decreases |a|
  {
    if a == [] {
      assert a + b == b;
    } else {
      assert (a + b)[1..] == a[1..] + b;
      SumAmountsConcat(a[1..], b);
    }
  }

  /** The month's spending: the sum of the amounts of the expenses in the month.
      With none in the month it is zero, and with all of them it is their sum. */
  function MonthlySpending(es: seq<Expense>, monthStart: Instant, parse: string -> Option<Instant>): (r: real)
    ensures (forall i :: 0 <= i < |es| ==> !InMonth(es[i], monthStart, parse)) ==> r == 0.0
    ensures (forall i :: 0 <= i < |es| ==> InMonth(es[i], monthStart, parse)) ==> r == SumAmounts(es)
  {
    var p := MonthTest(monthStart, parse);
    assert (forall i :: 0 <= i < |es| ==> !p(es[i])) ==> Filter(es, p) == [] by {
      if forall i :: 0 <= i < |es| ==> !p(es[i]) { FilterDropsAll(es, p); }
    }
    assert (forall i :: 0 <= i < |es| ==> p(es[i])) ==> Filter(es, p) == es by {
      if forall i :: 0 <= i < |es| ==> p(es[i]) { FilterKeepsAll(es, p); }
    }
    SumAmounts(Filter(es, p))
  }

  /** Recording one more expense raises the month's spending by its amount exactly
      when it is dated in the month, and leaves it alone otherwise. */
  lemma MonthlySpendingAppend(es: seq<Expense>, e: Expense, monthStart: Instant, parse: string -> Option<Instant>)
    ensures MonthlySpending(es + [e], monthStart, parse)
         == MonthlySpending(es, monthStart, parse) + (if InMonth(e, monthStart, parse) then e.amount else 0.0)
  {
    var p := MonthTest(monthStart, parse);
    FilterConcat(es, [e], p);
    SumAmountsConcat(Filter(es, p), Filter([e], p));
  }

  class MemStorage {
    var users: OrderedMap<User>
    var pantryItems: OrderedMap<PantryItem>
    var shoppingItems: OrderedMap<ShoppingItem>
    var mealPlans: OrderedMap<MealPlan>
    var expenses: OrderedMap<Expense>

    /** Each collection is a well-formed ordered map whose records carry the id they
        are stored under. */
    ghost predicate Valid()
      reads this
    {
      && users.Valid() && pantryItems.Valid() && shoppingItems.Valid()
      && mealPlans.Valid() && expenses.Valid()
      && (forall k :: k in users.entries ==> users.entries[k].id == k)
      && (forall k :: k in pantryItems.entries ==> pantryItems.entries[k].id == k)
      && (forall k :: k in shoppingItems.entries ==> shoppingItems.entries[k].id == k)
      && (forall k :: k in mealPlans.entries ==> mealPlans.entries[k].id == k)
      && (forall k :: k in expenses.entries ==> expenses.entries[k].id == k)
    }

    constructor ()
      ensures Valid()
      ensures users == Empty() && pantryItems == Empty() && shoppingItems == Empty()
      ensures mealPlans == Empty() && expenses == Empty()
    {
      users := Empty();
      pantryItems := Empty();
      shoppingItems := Empty();
      mealPlans := Empty();
      expenses := Empty();
    }

    function GetUser(id: string): (r: Option<User>)
      requires Valid()
      reads this
      ensures r.Some? <==> users.Has(id)
      ensures r.Some? ==> r.value.id == id && r.value == users.entries[id]
    {
      users.Get(id)
    }

    /** The first user, in insertion order, whose username is exactly `username`;
        it is the record stored under its own id. */
    function GetUserByUsername(username: string): (r: Option<User>)
      requires Valid()
      reads this
      ensures r.Some? ==> r.value.username == username && GetUser(r.value.id) == r
    {
      var r := FindUser(users.Values(), username);
      if r.Some? then
        assert users.Get(r.value.id) == r by {
          var i :| FirstWithName(users.Values(), username, i) && users.Values()[i] == r.value;
          assert users.entries[users.keys[i]] == r.value;
        }
        r
      else
        r
    }

    /** Stores a new user under `id` with the bcrypt hash of the password; there is
        no uniqueness check on the username here. */
    method CreateUser(username: string, password: string, hasher: PasswordHasher, salt: nat, id: string)
      returns (user: User)
      requires Valid()
      modifies this
      ensures Valid()
      ensures user == User(id, username, HashPassword(hasher, password, salt))
      ensures users == old(users).Set(id, user)
      ensures GetUser(id) == Some(user)
      ensures !old(users).Has(id) ==> users.Values() == old(users.Values()) + [user]
      ensures pantryItems == old(pantryItems) && shoppingItems == old(shoppingItems)
      ensures mealPlans == old(mealPlans) && expenses == old(expenses)
    {
      var hashedPassword := HashPassword(hasher, password, salt);
      user := User(id, username, hashedPassword);
      if !users.Has(id) {
        SetFreshAppends(users, id, user);
      }
      users := users.Set(id, user);
    }

    /** `null` both when no user has the name and when the password does not match
        the first such user's hash; otherwise that user. */
    function ValidateUser(username: string, password: string, hasher: PasswordHasher): (r: Option<User>)
      requires Valid()
      reads this
      ensures r.Some? <==> GetUserByUsername(username).Some?
                           && ComparePassword(hasher, password, GetUserByUsername(username).value.password)
      ensures r.Some? ==> r == GetUserByUsername(username)
    {
      match GetUserByUsername(username)
      case None => None
      case Some(user) => if ComparePassword(hasher, password, user.password) then Some(user) else None
    }

    function GetAllPantryItems(): (r: seq<PantryItem>)
      requires Valid()
      reads this
      ensures |r| == |pantryItems.keys| == |pantryItems.entries|
      ensures forall i :: 0 <= i < |r| ==> r[i].id == pantryItems.keys[i] && GetPantryItem(r[i].id) == Some(r[i])
    {
      SizeIsCardinality(pantryItems);
      pantryItems.Values()
    }

    function GetPantryItem(id: string): (r: Option<PantryItem>)
      requires Valid()
      reads this
      ensures r.Some? <==> pantryItems.Has(id)
      ensures r.Some? ==> r.value.id == id && r.value == pantryItems.entries[id]
    {
      pantryItems.Get(id)
    }

    /** Stores the caller's fields under `id` with a store-assigned `addedDate`. */
    method CreatePantryItem(fields: NewPantryItem, id: string, addedDate: string) returns (item: PantryItem)
      requires Valid()
      modifies this
      ensures Valid()
      ensures item == PantryItem(id, fields.name, fields.quantity, fields.unit, fields.category,
                                 fields.expiryDate, fields.barcode, fields.price, addedDate)
      ensures pantryItems == old(pantryItems).Set(id, item)
      ensures GetPantryItem(id) == Some(item)
      ensures !old(pantryItems).Has(id) ==> GetAllPantryItems() == old(GetAllPantryItems()) + [item]
      ensures users == old(users) && shoppingItems == old(shoppingItems)
      ensures mealPlans == old(mealPlans) && expenses == old(expenses)
    {
      item := PantryItem(id, fields.name, fields.quantity, fields.unit, fields.category,
                         fields.expiryDate, fields.barcode, fields.price, addedDate);
      if !pantryItems.Has(id) {
        SetFreshAppends(pantryItems, id, item);
      }
      pantryItems := pantryItems.Set(id, item);
    }

    /** Merges `patch` onto the item stored under `id`; an unknown id yields `None`
        and changes nothing, and no record is ever created. */
    method UpdatePantryItem(id: string, patch: PantryPatch) returns (r: Option<PantryItem>)
      requires Valid()
      modifies this
      ensures Valid()
      ensures !old(pantryItems).Has(id) ==> r == None && pantryItems == old(pantryItems)
      ensures old(pantryItems).Has(id) ==>
                && r == Some(ApplyPantryPatch(old(pantryItems.entries[id]), patch))
                && pantryItems == old(pantryItems).Set(id, r.value)
                && pantryItems.keys == old(pantryItems.keys)
      ensures users == old(users) && shoppingItems == old(shoppingItems)
      ensures mealPlans == old(mealPlans) && expenses == old(expenses)
    {
      var item := pantryItems.Get(id);
      if item.None? {
        return None;
      }
      var updated := ApplyPantryPatch(item.value, patch);
      pantryItems := pantryItems.Set(id, updated);
      r := Some(updated);
    }

    /** Map.prototype.delete: true exactly when something was removed. */
    method DeletePantryItem(id: string) returns (removed: bool)
      requires Valid()
      modifies this
      ensures Valid()
      ensures removed == old(pantryItems).Has(id)
      ensures pantryItems == old(pantryItems).Remove(id)
      ensures GetPantryItem(id) == None
      ensures users == old(users) && shoppingItems == old(shoppingItems)
      ensures mealPlans == old(mealPlans) && expenses == old(expenses)
    {
      removed := pantryItems.Has(id);
      pantryItems := pantryItems.Remove(id);
    }

    function GetAllShoppingItems(): (r: seq<ShoppingItem>)
      requires Valid()
      reads this
      ensures |r| == |shoppingItems.keys| == |shoppingItems.entries|
      ensures forall i :: 0 <= i < |r| ==> r[i].id == shoppingItems.keys[i] && shoppingItems.Get(r[i].id) == Some(r[i])
    {
      SizeIsCardinality(shoppingItems);
      shoppingItems.Values()
    }

    method CreateShoppingItem(fields: NewShoppingItem, id: string, addedDate: string) returns (item: ShoppingItem)
      requires Valid()
      modifies this
      ensures Valid()
      ensures item == ShoppingItem(id, fields.name, fields.quantity, fields.unit, fields.category,
                                   fields.purchased, addedDate)
      ensures shoppingItems == old(shoppingItems).Set(id, item)
      ensures shoppingItems.Get(id) == Some(item)
      ensures !old(shoppingItems).Has(id) ==> GetAllShoppingItems() == old(GetAllShoppingItems()) + [item]
      ensures users == old(users) && pantryItems == old(pantryItems)
      ensures mealPlans == old(mealPlans) && expenses == old(expenses)
    {
      item := ShoppingItem(id, fields.name, fields.quantity, fields.unit, fields.category,
                           fields.purchased, addedDate);
      if !shoppingItems.Has(id) {
        SetFreshAppends(shoppingItems, id, item);
      }
      shoppingItems := shoppingItems.Set(id, item);
    }

    method UpdateShoppingItem(id: string, patch: ShoppingPatch) returns (r: Option<ShoppingItem>)
      requires Valid()
      modifies this
      ensures Valid()
      ensures !old(shoppingItems).Has(id) ==> r == None && shoppingItems == old(shoppingItems)
      ensures old(shoppingItems).Has(id) ==>
                && r == Some(ApplyShoppingPatch(old(shoppingItems.entries[id]), patch))
                && shoppingItems == old(shoppingItems).Set(id, r.value)
                && shoppingItems.keys == old(shoppingItems.keys)
      ensures users == old(users) && pantryItems == old(pantryItems)
      ensures mealPlans == old(mealPlans) && expenses == old(expenses)
    {
      var item := shoppingItems.Get(id);
      if item.None? {
        return None;
      }
      var updated := ApplyShoppingPatch(item.value, patch);
      shoppingItems := shoppingItems.Set(id, updated);
      r := Some(updated);
    }

    method DeleteShoppingItem(id: string) returns (removed: bool)
      requires Valid()
      modifies this
      ensures Valid()
      ensures removed == old(shoppingItems).Has(id)
      ensures shoppingItems == old(shoppingItems).Remove(id)
      ensures !shoppingItems.Has(id)
      ensures users == old(users) && pantryItems == old(pantryItems)
      ensures mealPlans == old(mealPlans) && expenses == old(expenses)
    {
      removed := shoppingItems.Has(id);
      shoppingItems := shoppingItems.Remove(id);
    }

    function GetAllMealPlans(): (r: seq<MealPlan>)
      requires Valid()
      reads this
      ensures |r| == |mealPlans.keys| == |mealPlans.entries|
      ensures forall i :: 0 <= i < |r| ==> r[i].id == mealPlans.keys[i] && mealPlans.Get(r[i].id) == Some(r[i])
    {
      SizeIsCardinality(mealPlans);
      mealPlans.Values()
    }

    method CreateMealPlan(fields: NewMealPlan, id: string) returns (meal: MealPlan)
      requires Valid()
      modifies this
      ensures Valid()
      ensures meal == MealPlan(id, fields.date, fields.mealType, fields.recipeName, fields.recipeId)
      ensures mealPlans == old(mealPlans).Set(id, meal)
      ensures mealPlans.Get(id) == Some(meal)
      ensures !old(mealPlans).Has(id) ==> GetAllMealPlans() == old(GetAllMealPlans()) + [meal]
      ensures users == old(users) && pantryItems == old(pantryItems)
      ensures shoppingItems == old(shoppingItems) && expenses == old(expenses)
    {
      meal := MealPlan(id, fields.date, fields.mealType, fields.recipeName, fields.recipeId);
      if !mealPlans.Has(id) {
        SetFreshAppends(mealPlans, id, meal);
      }
      mealPlans := mealPlans.Set(id, meal);
    }

    method DeleteMealPlan(id: string) returns (removed: bool)
      requires Valid()
      modifies this
      ensures Valid()
      ensures removed == old(mealPlans).Has(id)
      ensures mealPlans == old(mealPlans).Remove(id)
      ensures !mealPlans.Has(id)
      ensures users == old(users) && pantryItems == old(pantryItems)
      ensures shoppingItems == old(shoppingItems) && expenses == old(expenses)
    {
      removed := mealPlans.Has(id);
      mealPlans := mealPlans.Remove(id);
    }

    function GetAllExpenses(): (r: seq<Expense>)
      requires Valid()
      reads this
      ensures |r| == |expenses.keys| == |expenses.entries|
      ensures forall i :: 0 <= i < |r| ==> r[i].id == expenses.keys[i] && expenses.Get(r[i].id) == Some(r[i])
    {
      SizeIsCardinality(expenses);
      expenses.Values()
    }

    method CreateExpense(fields: NewExpense, id: string) returns (expense: Expense)
      requires Valid()
      modifies this
      ensures Valid()
      ensures expense == Expense(id, fields.amount, fields.category, fields.date, fields.description)
      ensures expenses == old(expenses).Set(id, expense)
      ensures expenses.Get(id) == Some(expense)
      ensures !old(expenses).Has(id) ==> GetAllExpenses() == old(GetAllExpenses()) + [expense]
      ensures users == old(users) && pantryItems == old(pantryItems)
      ensures shoppingItems == old(shoppingItems) && mealPlans == old(mealPlans)
    {
      expense := Expense(id, fields.amount, fields.category, fields.date, fields.description);
      if !expenses.Has(id) {
        SetFreshAppends(expenses, id, expense);
      }
      expenses := expenses.Set(id, expense);
    }

    /** The pantry items whose expiry falls in [now, addDays(now, days)], in
        stored order. */
    function GetExpiringSoonItems(days: int, now: Instant, addDays: AddDays, parse: string -> Option<Instant>)
      : (r: seq<PantryItem>)
      requires Valid()
      reads this
      ensures |r| <= |pantryItems.entries|
      ensures forall i :: 0 <= i < |r| ==>
                GetPantryItem(r[i].id) == Some(r[i]) && ExpiresWithin(r[i], now, addDays(now, days), parse)
    {
      ExpiringSoon(GetAllPantryItems(), now, addDays(now, days), parse)
    }

    /** The dashboard roll-up, read from one snapshot of the store. */
    function GetStats(now: Instant, monthStart: Instant, addDays: AddDays, parse: string -> Option<Instant>): (r: Stats)
      requires Valid()
      reads this
      ensures r.totalItems == |pantryItems.entries|
      ensures r.plannedMeals == |mealPlans.entries|
      ensures r.expiringSoon == |GetExpiringSoonItems(7, now, addDays, parse)| <= r.totalItems
      ensures r.monthlySpending == MonthlySpending(GetAllExpenses(), monthStart, parse)
    {
      Stats(
        |GetAllPantryItems()|,
        |GetExpiringSoonItems(7, now, addDays, parse)|,
        |GetAllMealPlans()|,
        MonthlySpending(GetAllExpenses(), monthStart, parse))
    }
  }

  /** A user created under a name nobody had, with a hasher that accepts its
      own passwords, is the one `validateUser` returns for that name and
      password. */
  lemma ValidateAfterCreate(store: MemStorage, before: OrderedMap<User>, user: User, password: string,
                            hasher: PasswordHasher, salt: nat)
    requires store.Valid() && before.Valid() && hasher.Accepts()
    requires user.password == HashPassword(hasher, password, salt)
    requires store.users == before.Set(user.id, user)
    requires FindUser(before.Values(), user.username).None?
    ensures store.ValidateUser(user.username, password, hasher) == Some(user)
  {
    var vs := store.users.Values();
    if before.Has(user.id) {
      SetExistingInPlace(before, user.id, user);
      var i := KeyIndex(before.keys, user.id);
      FindUniqueUser(vs, user.username, i);
    } else {
      SetFreshAppends(before, user.id, user);
      FindUniqueUser(vs, user.username, |vs| - 1);
    }
  }
}
