/** The request handlers: each runs its checks as a fixed sequence of early
    returns and either leaves the store alone or changes it through one store
    operation. A handler's reply is its status code and JSON body. */
module Routes {
  import opened Options
  import opened Seqs
  import opened OrderedMaps
  import opened Crypto
  import opened Storage
  import opened Auth
  import opened Text

  /** What the API reveals about a user: never the password hash. */
  datatype PublicUser = PublicUser(id: string, username: string)

  datatype Body =
    | Message(message: string)
    | Session(user: PublicUser, token: string)
    | Profile(user: PublicUser)
    | PantryBody(pantryItem: PantryItem)
    | ShoppingBody(shoppingItem: ShoppingItem)
    | PantryList(items: seq<PantryItem>)
    | NoContent

  datatype Reply = Reply(status: int, body: Body)

  const CredentialsRequired: string := "Username and password required"
  const PasswordTooShort: string := "Password must be at least 6 characters"
  const UsernameTaken: string := "Username already exists"
  const InvalidCredentials: string := "Invalid username or password"
  const UserNotFound: string := "User not found"
  const ItemNotFound: string := "Item not found"
  const MealPlanNotFound: string := "Meal plan not found"

  const MinPasswordLength: int := 6
  /** The window, in days, of `/api/expiring-soon`. */
  const ExpiringSoonWindow: int := 7

  /** A body field as `!field` sees it: missing and "" are both falsy. */
  predicate Supplied(field: Option<string>) {
    field.Some? && field.value != ""
  }

  function Public(user: User): (r: PublicUser)
    ensures r.id == user.id && r.username == user.username
  {
    PublicUser(user.id, user.username)
  }

  function NamedUser(username: string): User -> bool {
    (user: User) => user.username == username
  }

  /** POST /api/auth/register. Missing fields, then a short password, then a taken
      name are refused with 400 and the store untouched; otherwise one user is
      stored under `newId` and 201 carries a token for that id. */
  method Register(store: MemStorage, username: Option<string>, password: Option<string>,
                  hasher: PasswordHasher, salt: nat, signer: TokenSigner, issuedAt: int, newId: string)
    returns (reply: Reply)
    requires store.Valid()
    modifies store
    ensures store.Valid()
    ensures !Supplied(username) || !Supplied(password) ==>
              reply == Reply(400, Message(CredentialsRequired)) && unchanged(store)
    ensures Supplied(username) && Supplied(password) && Utf16Length(password.value) < MinPasswordLength ==>
              reply == Reply(400, Message(PasswordTooShort)) && unchanged(store)
    ensures Supplied(username) && Supplied(password) && Utf16Length(password.value) >= MinPasswordLength
            && old(store.GetUserByUsername(username.value)).Some? ==>
              reply == Reply(400, Message(UsernameTaken)) && unchanged(store)
    ensures reply.status == 201 <==>
              Supplied(username) && Supplied(password) && Utf16Length(password.value) >= MinPasswordLength
              && old(store.GetUserByUsername(username.value)).None?
    ensures reply.status == 201 ==>
              && var user := User(newId, username.value, HashPassword(hasher, password.value, salt));
              && reply == Reply(201, Session(Public(user), GenerateToken(signer, newId, issuedAt)))
              && store.users == old(store.users).Set(newId, user)
              && Filter(store.users.Values(), NamedUser(username.value)) == [user]
              && (hasher.Accepts() ==> store.ValidateUser(username.value, password.value, hasher) == Some(user))
    ensures store.pantryItems == old(store.pantryItems) && store.shoppingItems == old(store.shoppingItems)
    ensures store.mealPlans == old(store.mealPlans) && store.expenses == old(store.expenses)
  {
    if !Supplied(username) || !Supplied(password) {
      return Reply(400, Message(CredentialsRequired));
    }
    if Utf16Length(password.value) < MinPasswordLength {
      return Reply(400, Message(PasswordTooShort));
    }
    var existingUser := store.GetUserByUsername(username.value);
    if existingUser.Some? {
      return Reply(400, Message(UsernameTaken));
    }
    ghost var before := store.users;
    var user := store.CreateUser(username.value, password.value, hasher, salt, newId);
    OnlyNewUserHasName(before, user);
    if hasher.Accepts() {
      ValidateAfterCreate(store, before, user, password.value, hasher, salt);
    }
    var token := GenerateToken(signer, user.id, issuedAt);
    reply := Reply(201, Session(Public(user), token));
  }

  /** When no stored user had the name, after storing `user` under its id the
      user is the only one with that name. */
  lemma OnlyNewUserHasName(before: OrderedMap<User>, user: User)
    requires before.Valid()
    requires FindUser(before.Values(), user.username).None?
    ensures Filter(before.Set(user.id, user).Values(), NamedUser(user.username)) == [user]
  {
    var after := before.Set(user.id, user).Values();
    var i: int;
    if before.Has(user.id) {
      SetExistingInPlace(before, user.id, user);
      i := KeyIndex(before.keys, user.id);
    } else {
      SetFreshAppends(before, user.id, user);
      i := |before.keys|;
    }
    FilterSingle(after, NamedUser(user.username), i);
  }

  /** POST /api/auth/login. Missing fields give 400; an unknown name and a wrong
      password give the same 401; otherwise 200 with a token for the user's id.
      The store is only read. */
  method Login(store: MemStorage, username: Option<string>, password: Option<string>,
               hasher: PasswordHasher, signer: TokenSigner, issuedAt: int)
    returns (reply: Reply)
    requires store.Valid()
    ensures !Supplied(username) || !Supplied(password) ==> reply == Reply(400, Message(CredentialsRequired))
    ensures Supplied(username) && Supplied(password) ==>
              && (reply.status == 401 <==> store.ValidateUser(username.value, password.value, hasher).None?)
              && (reply.status == 401 ==> reply == Reply(401, Message(InvalidCredentials)))
    ensures reply.status == 200 ==>
              && var user := store.ValidateUser(username.value, password.value, hasher).value;
              && reply == Reply(200, Session(Public(user), GenerateToken(signer, user.id, issuedAt)))
    ensures reply.status in {200, 400, 401}
  {
    if !Supplied(username) || !Supplied(password) {
      return Reply(400, Message(CredentialsRequired));
    }
    var user := store.ValidateUser(username.value, password.value, hasher);
    if user.None? {
      return Reply(401, Message(InvalidCredentials));
    }
    var token := GenerateToken(signer, user.value.id, issuedAt);
    reply := Reply(200, Session(Public(user.value), token));
  }

  /** GET /api/auth/me behind authMiddleware: the gate's 401s, then 404 when the
      token's user is gone, otherwise the user's id and name. */
  method Me(store: MemStorage, authorization: Option<string>, signer: TokenSigner, now: int)
    returns (reply: Reply)
    requires store.Valid()
    ensures RequiredGate(authorization, signer, now).Reject? ==>
              reply == Reply(401, Message(RequiredGate(authorization, signer, now).message))
    ensures RequiredGate(authorization, signer, now).Admit? ==>
              && var userId := RequiredGate(authorization, signer, now).userId;
              && (store.GetUser(userId).None? ==> reply == Reply(404, Message(UserNotFound)))
              && (store.GetUser(userId).Some? ==> reply == Reply(200, Profile(Public(store.GetUser(userId).value))))
  {
    var ex := new Exchange(authorization);
    AuthMiddleware(ex, signer, now);
    if ex.nextCalls == 0 {
      return Reply(ex.reply.value.status, Message(ex.reply.value.message));
    }
    var user := store.GetUser(ex.userId.value);
    if user.None? {
      return Reply(404, Message(UserNotFound));
    }
    reply := Reply(200, Profile(Public(user.value)));
  }

  /** PUT /api/pantry/:id. The schema has no `addedDate`, so it is never updated
      here; 404 exactly when the store has no such item. */
  method UpdatePantryRoute(store: MemStorage, id: string, data: PantryPatch) returns (reply: Reply)
    requires store.Valid()
    modifies store
    ensures store.Valid()
    ensures reply.status == 404 <==> !old(store.pantryItems).Has(id)
    ensures reply.status == 404 ==> reply.body == Message(ItemNotFound) && store.pantryItems == old(store.pantryItems)
    ensures reply.status != 404 ==>
              && reply == Reply(200, PantryBody(ApplyPantryPatch(old(store.pantryItems.entries[id]), data.(addedDate := None))))
              && reply.body.pantryItem.addedDate == old(store.pantryItems.entries[id].addedDate)
              && store.pantryItems == old(store.pantryItems).Set(id, reply.body.pantryItem)
    ensures store.users == old(store.users) && store.shoppingItems == old(store.shoppingItems)
    ensures store.mealPlans == old(store.mealPlans) && store.expenses == old(store.expenses)
  {
    var item := store.UpdatePantryItem(id, data.(addedDate := None));
    if item.None? {
      return Reply(404, Message(ItemNotFound));
    }
    reply := Reply(200, PantryBody(item.value));
  }

  /** PUT /api/shopping/:id, with the same 404 mapping. */
  method UpdateShoppingRoute(store: MemStorage, id: string, data: ShoppingPatch) returns (reply: Reply)
    requires store.Valid()
    modifies store
    ensures store.Valid()
    ensures reply.status == 404 <==> !old(store.shoppingItems).Has(id)
    ensures reply.status == 404 ==> reply.body == Message(ItemNotFound) && store.shoppingItems == old(store.shoppingItems)
    ensures reply.status != 404 ==>
              && reply == Reply(200, ShoppingBody(ApplyShoppingPatch(old(store.shoppingItems.entries[id]), data.(addedDate := None))))
              && reply.body.shoppingItem.addedDate == old(store.shoppingItems.entries[id].addedDate)
              && store.shoppingItems == old(store.shoppingItems).Set(id, reply.body.shoppingItem)
    ensures store.users == old(store.users) && store.pantryItems == old(store.pantryItems)
    ensures store.mealPlans == old(store.mealPlans) && store.expenses == old(store.expenses)
  {
    var item := store.UpdateShoppingItem(id, data.(addedDate := None));
    if item.None? {
      return Reply(404, Message(ItemNotFound));
    }
    reply := Reply(200, ShoppingBody(item.value));
  }

  /** DELETE /api/pantry/:id: 204 with no body exactly when the store removed
      something, 404 otherwise. */
  method DeletePantryRoute(store: MemStorage, id: string) returns (reply: Reply)
    requires store.Valid()
    modifies store
    ensures store.Valid()
    ensures old(store.pantryItems).Has(id) ==> reply == Reply(204, NoContent)
    ensures !old(store.pantryItems).Has(id) ==> reply == Reply(404, Message(ItemNotFound))
    ensures store.pantryItems == old(store.pantryItems).Remove(id)
    ensures store.users == old(store.users) && store.shoppingItems == old(store.shoppingItems)
    ensures store.mealPlans == old(store.mealPlans) && store.expenses == old(store.expenses)
  {
    var success := store.DeletePantryItem(id);
    if !success {
      return Reply(404, Message(ItemNotFound));
    }
    reply := Reply(204, NoContent);
  }

  method DeleteShoppingRoute(store: MemStorage, id: string) returns (reply: Reply)
    requires store.Valid()
    modifies store
    ensures store.Valid()
    ensures old(store.shoppingItems).Has(id) ==> reply == Reply(204, NoContent)
    ensures !old(store.shoppingItems).Has(id) ==> reply == Reply(404, Message(ItemNotFound))
    ensures store.shoppingItems == old(store.shoppingItems).Remove(id)
    ensures store.users == old(store.users) && store.pantryItems == old(store.pantryItems)
    ensures store.mealPlans == old(store.mealPlans) && store.expenses == old(store.expenses)
  {
    var success := store.DeleteShoppingItem(id);
    if !success {
      return Reply(404, Message(ItemNotFound));
    }
    reply := Reply(204, NoContent);
  }

  method DeleteMealRoute(store: MemStorage, id: string) returns (reply: Reply)
    requires store.Valid()
    modifies store
    ensures store.Valid()
    ensures old(store.mealPlans).Has(id) ==> reply == Reply(204, NoContent)
    ensures !old(store.mealPlans).Has(id) ==> reply == Reply(404, Message(MealPlanNotFound))
    ensures store.mealPlans == old(store.mealPlans).Remove(id)
    ensures store.users == old(store.users) && store.pantryItems == old(store.pantryItems)
    ensures store.shoppingItems == old(store.shoppingItems) && store.expenses == old(store.expenses)
  {
    var success := store.DeleteMealPlan(id);
    if !success {
      return Reply(404, Message(MealPlanNotFound));
    }
    reply := Reply(204, NoContent);
  }

  /** A second DELETE of the same id finds nothing. */
  lemma DeleteTwiceNotFound(m: OrderedMap<PantryItem>, id: string)
    requires m.Valid()
    ensures !m.Remove(id).Has(id)
    ensures m.Remove(id).Remove(id) == m.Remove(id)
  {
  }

  /** GET /api/expiring-soon: always the seven-day window, from the store's view. */
  method ExpiringSoonRoute(store: MemStorage, now: Instant, addDays: AddDays, parse: string -> Option<Instant>)
    returns (reply: Reply)
    requires store.Valid()
    ensures reply.status == 200 && reply.body.PantryList?
    ensures reply.body.items == ExpiringSoon(store.GetAllPantryItems(), now, addDays(now, 7), parse)
    ensures forall i :: 0 <= i < |reply.body.items| ==>
              ExpiresWithin(reply.body.items[i], now, addDays(now, 7), parse)
  {
    var items := store.GetExpiringSoonItems(ExpiringSoonWindow, now, addDays, parse);
    reply := Reply(200, PantryList(items));
  }
}
