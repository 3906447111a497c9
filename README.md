# PantryPal in Dafny

PantryPal is a kitchen-inventory web application. It has two parts:

- An Express server keeps users, pantry items, shopping items, meal plans and
  expenses in an in-memory store. It authenticates requests with bcrypt
  password hashes and JWT bearer tokens, and serves a JSON API.
- A React client lists the pantry, the shopping list, the recipes and the
  week's meal plan, and picks an image for each food.

This project models the core of both parts and proves properties of the model:

- `Storage.MemStorage` is the in-memory store. It is a class whose five
  collections are ECMAScript `Map`s. Each `Map` is modelled by
  `OrderedMaps.OrderedMap`, a finite map plus its keys in insertion order, so
  the order of `Array.from(map.values())` is part of the model.
- `Crypto` models the hashing and token functions. `Auth` models the two
  middlewares that turn an `Authorization` header into a user id.
- `Routes` models the route handlers that read or change the store. Each one
  returns the HTTP status and body it would send.
- The client helpers are modelled as pure functions over sequences:
  - `FoodImages` (food-image and recipe-image lookup);
  - `ShoppingList`, `PantryPage`, `Recipes` and `MealPlanner` (the page
    state updates and derived lists);
  - `PantryItemCard` (the expiry badge) and `ExpiryAlertPanel`.
- Three modules model the JavaScript built-ins those helpers rely on:
  - `Seqs` models `Array.prototype.filter`;
  - `Sorting` models the stable `Array.prototype.sort`, as an insertion sort
    by an integer key;
  - `Text` models the string operations `toLowerCase` (ASCII only),
    `includes`, `replace` with a string pattern, `trim`, and decimal
    rendering of whole numbers.

Some inputs come from outside the code and become parameters:

- Everything that reads the clock takes the current instant, or the derived
  day count, as an argument: `Date.now()`, `new Date()` and
  `differenceInDays`.
- Record ids (`randomUUID()`) are arguments. So are the salts, the parser
  from date strings to instants, and formatted dates.
- bcrypt and jsonwebtoken are oracles:
  - `Crypto.PasswordHasher` holds a hash function and a compare function.
  - `Crypto.TokenSigner` holds a sign function and a verify function.
  - `PasswordHasher.Accepts()` says that a hash accepts the password it was
    made from.
  - `PasswordHasher.ReadsKeyOnly()` says that a comparison looks only at
    bcrypt's key. The key is the first 72 bytes of a stream that repeats the
    password's UTF-8 bytes and a zero byte. Passwords with the same key compare
    alike. So a password of 72 or more bytes matches any longer password that
    starts with it, and "ab" followed by a zero character and "ab" matches the
    hash of "ab".
  - `PasswordHasher.Sound()` adds that a password with a different key is
    refused, which treats bcrypt as free of collisions.
  - `TokenSigner.Sound()` says that a signed token is not empty, and verifies
    to its user id for seven days, which is the `"7d"` of `JWT_EXPIRES_IN`.
  - Each lemma takes as a precondition only the property it needs.

## Model

| member | source | states |
|---|---|---|
| OrderedMaps.Empty | server/storage.ts:85-89 | a new `Map` is well formed, has size 0 and enumerates nothing |
| OrderedMaps.OrderedMap.Get | server/storage.ts:127-129 | `get` finds a value exactly for the keys present, and it is the stored one |
| OrderedMaps.OrderedMap.Set | server/storage.ts:161-166 | `set` keeps the map well formed, makes `get(k)` the new value, leaves every other key alone, and grows the size by one exactly when the key was new |
| OrderedMaps.OrderedMap.Remove | server/storage.ts:177-179 | `delete` keeps the map well formed, makes the key absent, leaves every other key alone, and shrinks the size by one exactly when the key was present |
| OrderedMaps.SetFreshAppends | server/storage.ts:153-155 | setting a new key appends its value at the end of `values()` |
| OrderedMaps.SetExistingInPlace | server/storage.ts:172-173 | setting a present key keeps the key order and replaces the value at that key's position |
| OrderedMaps.RemoveKeepsOrder | server/storage.ts:177-179 | deleting a key removes exactly its value from `values()` and keeps the other values in order |
| OrderedMaps.SizeIsCardinality | server/storage.ts:243 | the length of `values()` is the number of entries |
| Crypto.HashPassword | server/auth.ts:16-18 | with a hasher that accepts its passwords, the hash accepts the password it was made from |
| Crypto.ComparePassword | server/auth.ts:20-25 | with a hasher that reads only the key, every password with the same bcrypt key gets the same answer against a hash |
| Crypto.GenerateToken | server/auth.ts:27-29 | with a sound signer, the token is not empty and verifies to the user at the time it is issued |
| Crypto.VerifyToken | server/auth.ts:31-37 | with a sound signer, a token issued for a user gives that user before seven days have passed and nothing afterwards |
| Crypto.BcryptKey | server/auth.ts:16-25 | bcrypt's key is 72 bytes long, starts with the password's UTF-8 bytes, and a password shorter than that is followed by a zero byte |
| Crypto.Stream | server/auth.ts:16-25 | reading `n` bytes from a stream that starts over at its end gives the bytes themselves, then repeats them with their length as period |
| Crypto.StreamOfDouble | server/auth.ts:16-25 | reading a doubled byte sequence as a stream gives the same bytes as reading it once |
| Crypto.RepeatAfterZeroMatches | server/auth.ts:16-25 | with a hasher that accepts its passwords and reads only the key, a password followed by a zero character and itself again matches the password's hash |
| Crypto.PasswordRoundTrip | server/auth.ts:16-25 | with a hasher that accepts its passwords, a password compares true against its own hash |
| Crypto.PasswordMismatchRejected | server/auth.ts:16-25 | with a sound hasher, a password whose bcrypt key differs compares false against the hash |
| Crypto.LongPasswordTruncated | server/auth.ts:16-25 | with a hasher that accepts its passwords and reads only the key, anything appended to a password of at least 72 characters is ignored: the longer password matches the shorter one's hash |
| Crypto.TokenRoundTrip | server/auth.ts:27-37 | a generated token verifies to its user id before seven days have passed and to nothing afterwards |
| Storage.ApplyPantryPatch | server/storage.ts:172 | the spread update: every supplied field replaces the stored one, every other field is kept, and the id never changes |
| Storage.ApplyShoppingPatch | server/storage.ts:196 | the same field-by-field override for shopping items |
| Storage.PatchIdempotent | server/storage.ts:168-199 | applying the same update twice gives the same record as applying it once |
| Storage.FindUser | server/storage.ts:131-135 | no result exactly when no user has the name; otherwise the result is the first user in insertion order with that exact name |
| Storage.FindUniqueUser | server/storage.ts:131-135 | when exactly one user has the name, the lookup returns that user |
| Storage.ExpiringSoon | server/storage.ts:250-259 | the items whose date parses and lies between now and the cutoff, all of them, each as often as it is stored, in store order |
| Storage.SumAmountsConcat | server/storage.ts:240 | the sum of amounts distributes over concatenation |
| Storage.MonthlySpending | server/storage.ts:237-240 | the month's spending is zero when no expense is dated in the month, and the sum of all amounts when every expense is |
| Storage.MonthlySpendingAppend | server/storage.ts:237-240 | adding an expense raises the monthly total by its amount when its date parses to an instant at or after the first of the month, and leaves the total unchanged otherwise |
| Storage.MemStorage.constructor | server/storage.ts:84-92 | the store starts well formed with five empty collections |
| Storage.MemStorage.GetUser | server/storage.ts:127-129 | a user is found exactly when the id is stored, and the user found carries that id |
| Storage.MemStorage.GetUserByUsername | server/storage.ts:131-135 | a user found has exactly that username and is the record stored under its own id |
| Storage.MemStorage.CreateUser | server/storage.ts:137-143 | the user stored is (id, username, hash of the password); a new id appends it to the users; the other collections are unchanged |
| Storage.MemStorage.ValidateUser | server/storage.ts:145-151 | succeeds exactly when a user has the name and the password compares true against that user's hash, and then returns that user |
| Storage.ValidateAfterCreate | server/storage.ts:137-151 | with a hasher that accepts its passwords, a user just created under an unused name validates with the password it was created with |
| Storage.MemStorage.GetAllPantryItems | server/storage.ts:153-155 | one item per stored id, in insertion order, each the record stored under its own id |
| Storage.MemStorage.GetPantryItem | server/storage.ts:157-159 | found exactly when the id is stored, with that id |
| Storage.MemStorage.CreatePantryItem | server/storage.ts:161-166 | the stored item is the submitted fields with the given id and date; a new id appends it to the listing; the other collections are unchanged |
| Storage.MemStorage.UpdatePantryItem | server/storage.ts:168-175 | an unknown id returns nothing and changes nothing; a known id stores the patched item in place, keeping the order, and returns it |
| Storage.MemStorage.DeletePantryItem | server/storage.ts:177-179 | returns whether the id was present, and afterwards the id is absent and all else is unchanged |
| Storage.MemStorage.GetAllShoppingItems | server/storage.ts:181-183 | one item per stored id, in insertion order |
| Storage.MemStorage.CreateShoppingItem | server/storage.ts:185-190 | the stored item is the submitted fields with the given id and date; a new id appends it |
| Storage.MemStorage.UpdateShoppingItem | server/storage.ts:192-199 | an unknown id returns nothing and changes nothing; a known id stores the patched item in place and returns it |
| Storage.MemStorage.DeleteShoppingItem | server/storage.ts:201-203 | returns whether the id was present, and afterwards the id is absent |
| Storage.MemStorage.GetAllMealPlans | server/storage.ts:205-207 | one meal plan per stored id, in insertion order |
| Storage.MemStorage.CreateMealPlan | server/storage.ts:209-214 | the stored plan is the submitted fields with the given id; a new id appends it |
| Storage.MemStorage.DeleteMealPlan | server/storage.ts:216-218 | returns whether the id was present, and afterwards the id is absent |
| Storage.MemStorage.GetAllExpenses | server/storage.ts:220-222 | one expense per stored id, in insertion order |
| Storage.MemStorage.CreateExpense | server/storage.ts:224-229 | the stored expense is the submitted fields with the given id; a new id appends it |
| Storage.MemStorage.GetExpiringSoonItems | server/storage.ts:250-259 | never more items than are stored; each is a stored item whose date lies between now and `addDays(now, days)` |
| Storage.MemStorage.GetStats | server/storage.ts:231-248 | counts all pantry items and meal plans; the expiring count is that of the window up to `addDays(now, 7)` and at most the total; spending is the sum over the expenses dated at or after the first of the month |
| Auth.BearerToken | server/auth.ts:44 | no header gives no token; a header without "Bearer " passes through unchanged; otherwise the first "Bearer ", wherever it is, is cut out |
| Auth.BearerAfterText | server/auth.ts:44 | "Bearer " after text without a `B` is cut out of the middle: "Token Bearer abc" gives "Token abc" |
| Auth.BearerRoundTrip | server/auth.ts:44 | "Bearer " followed by a token yields that token back |
| Auth.PresentedToken | server/auth.ts:44-46 | a token counts as presented exactly when the header yields a non-empty string |
| Auth.RequiredGate | server/auth.ts:39-59 | never lets a request pass anonymously; rejects with "Authentication required" exactly when no token is presented, and with "Invalid or expired token" exactly when the token does not verify; otherwise admits the verified user id |
| Auth.OptionalGate | server/auth.ts:61-76 | never rejects, and admits exactly when the required gate would admit, with the same user |
| Auth.IssuedTokenAdmits | server/auth.ts:39-59 | with a sound signer, the header "Bearer " plus a freshly issued token admits its user until the token expires, and is rejected as invalid or expired afterwards |
| Auth.EmptyBearerIsMissing | server/auth.ts:44-49 | the header "Bearer " alone counts as no token |
| Auth.Exchange.constructor | server/auth.ts:8-10 | a request starts with its header, no user id, no reply and `next` not yet called |
| Auth.AuthMiddleware | server/auth.ts:39-59 | on rejection it sends 401 with the gate's message and does not call `next`; on admission it sets the user id and calls `next` exactly once |
| Auth.OptionalAuthMiddleware | server/auth.ts:61-76 | always calls `next` exactly once and never replies; it sets the user id only when the token verifies |
| Routes.Public | server/routes.ts:62 | the public user view carries exactly the id and the username, and no hash |
| Routes.Register | server/routes.ts:38-68 | 400 when a field is missing or the password is shorter than 6 UTF-16 code units, 400 when the name is taken; otherwise 201 with the public user and a token, the user appended, the name now unique, and (with a hasher that accepts its passwords) the credentials valid; only users change |
| Routes.OnlyNewUserHasName | server/routes.ts:52-58 | after registering an unused name, the new user is the only one with that name |
| Routes.Login | server/routes.ts:70-94 | 400 when a field is missing; 401 exactly when the credentials do not validate; 200 with the validated user and a token for that user otherwise |
| Routes.Me | server/routes.ts:96-108 | 401 as the gate decides; for an admitted id, 404 when no such user exists, otherwise 200 with the public user |
| Routes.UpdatePantryRoute | server/routes.ts:138-154 | 404 exactly when the id is unknown, with nothing changed; otherwise 200 with the patched item, whose `addedDate` is not changed by the request, stored in place |
| Routes.UpdateShoppingRoute | server/routes.ts:193-209 | the same for shopping items |
| Routes.DeletePantryRoute | server/routes.ts:156-167 | 204 when the id was present and 404 when it was not; either way the id is absent afterwards |
| Routes.DeleteShoppingRoute | server/routes.ts:211-222 | 204 when present and 404 when not; the id is absent afterwards |
| Routes.DeleteMealRoute | server/routes.ts:248-259 | 204 when present and 404 "Meal plan not found" when not; the id is absent afterwards |
| Routes.DeleteTwiceNotFound | server/routes.ts:156-167 | a second delete of the same id finds nothing and changes nothing |
| Routes.ExpiringSoonRoute | server/routes.ts:290-297 | 200 with the stored items expiring between now and `addDays(now, 7)`, in store order |
| Seqs.Filter | client/src/pages/Pantry.tsx:38-42 | the result keeps only elements that pass, keeps every element that passes, and is never longer than the input |
| Seqs.FilterCount | client/src/pages/Pantry.tsx:38-42 | `filter` has as many copies of a passing value as its input, and none of a failing one |
| Seqs.FilterCounts | client/src/pages/Pantry.tsx:38-42 | `filter` never adds copies, and keeps every copy of an element that passes |
| Seqs.FilterFilter | client/src/pages/Pantry.tsx:38-42 | filtering by one test and then another equals filtering once by both |
| Seqs.FilterIsSubsequence | client/src/pages/Pantry.tsx:38-42 | `filter` keeps the relative order of the survivors |
| Seqs.FilterIdempotent | client/src/pages/ShoppingList.tsx:62-64 | filtering twice by the same test equals filtering once |
| Sorting.SortBy | client/src/pages/Recipes.tsx:56 | the sort returns a permutation of its input, in non-decreasing key order |
| Sorting.SortStable | client/src/pages/Recipes.tsx:56 | the sort is stable: the elements with any one key keep their input order |
| Text.ReplaceFirst | server/auth.ts:44 | `replace` with a string changes nothing when the pattern is absent, otherwise replaces its first occurrence and keeps the text around it, and changes the length by the difference of the lengths |
| Text.IndexOf | server/auth.ts:44 | the first position where the pattern occurs, or nothing when it occurs nowhere |
| Text.Utf16Length | server/routes.ts:47 | JavaScript's `length`: one unit per character below U+10000 and two above, so between the number of characters and twice it |
| Text.Utf16LengthOfEmoji | server/routes.ts:47 | a four-character string with two emoji has length 6 |
| Text.ContainsIffOccurs | client/src/pages/Pantry.tsx:39 | `includes` holds exactly when the pattern occurs at some position |
| Text.LowerIdempotent | client/src/lib/food-images.ts:3 | lower-casing a lower-cased string changes nothing |
| Text.TrimEmptyIffBlank | client/src/pages/ShoppingList.tsx:49 | `trim()` is empty exactly when every character is white space |
| Text.NatToDecimal | client/src/pages/ShoppingList.tsx:51 | a number renders as at least one decimal digit with no leading zero, and the digits denote that number |
| Text.NatToDecimalInjective | client/src/pages/ShoppingList.tsx:51 | different numbers render differently |
| FoodImages.ImageMapPaths | client/src/lib/food-images.ts:6-36 | every path in the table is a real path, not empty and not the placeholder |
| FoodImages.OwnLookup | client/src/lib/food-images.ts:39-41 | no result exactly when no entry has the key; otherwise the path of the first entry with that key |
| FoodImages.OwnLookupFirst | client/src/lib/food-images.ts:39-41 | the lookup returns the path of the first entry with the key |
| FoodImages.FirstRelated | client/src/lib/food-images.ts:44-48 | no result exactly when no key contains the name or is contained in it; otherwise the path of the first such key in table order |
| FoodImages.FirstRelatedFirst | client/src/lib/food-images.ts:44-48 | the partial match returns the path of the first related key |
| FoodImages.ImageInRange | client/src/lib/food-images.ts:38-51 | for any table without the placeholder, the result is the placeholder or a path of the table, and the placeholder exactly when no key is related to the name |
| FoodImages.GetFoodImage | client/src/lib/food-images.ts:2-52 | the image is the placeholder or one of the table's paths, and the placeholder exactly when no key is related to the lower-cased name |
| FoodImages.FoodImageCaseInsensitive | client/src/lib/food-images.ts:3 | the image of a name equals the image of its lower-cased form |
| FoodImages.FoodImageExactMatch | client/src/lib/food-images.ts:38-41 | a name whose lower-cased form is a key gets that key's path |
| FoodImages.FoodImageFirstPartial | client/src/lib/food-images.ts:43-48 | a name that is no key gets the path of the first related key |
| FoodImages.EmptyNameIsMilk | client/src/lib/food-images.ts:44-48 | the empty name is contained in every key, so it gets the first entry, milk |
| FoodImages.GetFoodImageAsWritten | client/src/lib/food-images.ts:38-41 | as written, a name that lowers to `constructor` or `__proto__` reads a member inherited from `Object.prototype`; any other name gets the own-keys result |
| FoodImages.NoConstructorKey | client/src/lib/food-images.ts:6-36 | the table has no own key `constructor` |
| FoodImages.ConstructorNameLeaksPrototype | client/src/lib/food-images.ts:39-40 | the name "Constructor" returns the inherited `Object` function as written, while the corrected lookup returns a table path or the placeholder |
| FoodImages.GetRecipeImage | client/src/lib/food-images.ts:55-77 | the placeholder exactly when the lower-cased title contains none of the keywords |
| FoodImages.RecipeImagePriority | client/src/lib/food-images.ts:58-61 | the rules apply in order: a title with both "pasta" and "salmon" gets the pasta image |
| FoodImages.RecipeImageCaseInsensitive | client/src/lib/food-images.ts:56 | the recipe image of a title equals that of its lower-cased form |
| ShoppingList.Categories | client/src/pages/ShoppingList.tsx:28-32 | the groups' categories, each listed once, exactly the categories that occur in the items |
| ShoppingList.AbsentCategoryEmpty | client/src/pages/ShoppingList.tsx:29 | a category that was never listed has no items |
| ShoppingList.GroupedItems | client/src/pages/ShoppingList.tsx:28-32 | the `reduce` loop yields one group per category in first-appearance order, and each group holds exactly that category's items in list order |
| ShoppingList.GroupStep | client/src/pages/ShoppingList.tsx:29-30 | one `reduce` step keeps the grouping correct for the longer prefix |
| ShoppingList.GroupStepContents | client/src/pages/ShoppingList.tsx:30 | pushing an item onto its category's group keeps every group equal to that category's items |
| ShoppingList.CategoriesSnoc | client/src/pages/ShoppingList.tsx:29 | a new category is added at the end of the list of categories, and a known one leaves the list unchanged |
| ShoppingList.FilterCategorySnoc | client/src/pages/ShoppingList.tsx:30 | appending an item grows only its own category's group |
| ShoppingList.GroupSizesSum | client/src/pages/ShoppingList.tsx:28-32 | the group sizes add up to the number of items, so grouping loses and duplicates nothing |
| ShoppingList.Toggle | client/src/pages/ShoppingList.tsx:38-42 | same length; only `isChecked` can change; items with the id get the new value and the others keep theirs |
| ShoppingList.ToggleTwice | client/src/pages/ShoppingList.tsx:38-42 | toggling twice equals toggling once with the second value |
| ShoppingList.Delete | client/src/pages/ShoppingList.tsx:44-46 | no item with the id remains; every other item remains, as many times as before, in order |
| ShoppingList.NewItem | client/src/pages/ShoppingList.tsx:50-57 | a new item has the name, category "Other", quantity 1, unit "pcs", is unchecked, and its id is the decimal rendering of the clock |
| ShoppingList.AddItem | client/src/pages/ShoppingList.tsx:48-60 | blank input changes nothing; otherwise the new item goes first and the input is cleared |
| ShoppingList.ClearChecked | client/src/pages/ShoppingList.tsx:62-64 | no checked item remains; every unchecked item remains, as many times as before, in order |
| ShoppingList.ClearCheckedIdempotent | client/src/pages/ShoppingList.tsx:62-64 | clearing twice equals clearing once |
| ShoppingList.CheckThenClear | client/src/pages/ShoppingList.tsx:38-64 | checking an item and then clearing is the same as clearing and then deleting that item |
| ShoppingList.AddSuggestion | client/src/pages/ShoppingList.tsx:66-76 | the new item goes first, and the old list follows unchanged |
| ShoppingList.UncheckedCount | client/src/pages/ShoppingList.tsx:85 | the "items to buy" count never exceeds the list length |
| ShoppingList.ClearKeepsCount | client/src/pages/ShoppingList.tsx:85 | clearing checked items leaves the count unchanged, and afterwards the count is the list length |
| PantryPage.FilteredItems | client/src/pages/Pantry.tsx:38-42 | exactly the items whose name contains the query, ignoring case, and whose category is the filter or "All", in order, each as many times as in the list |
| PantryPage.UnfilteredShowsAll | client/src/pages/Pantry.tsx:38-42 | an empty query with "All" shows every item |
| PantryPage.CategoryNarrows | client/src/pages/Pantry.tsx:38-42 | a category other than "All" shows exactly the items of that category among those "All" shows, in the same order |
| PantryPage.DeleteItem | client/src/pages/Pantry.tsx:44-46 | no item with the id remains; every other item remains, as many times as before, in order |
| PantryPage.AddItem | client/src/pages/Pantry.tsx:48-60 | the submitted item goes first, with its fields and a clock-derived decimal id; the old list follows |
| PantryPage.ItemCount | client/src/pages/Pantry.tsx:67 | the pantry count is at least the number of items any filter shows |
| PantryItemCard.DaysLeftText | client/src/components/PantryItem.tsx:31-32 | the badge text is the decimal digits of the day count followed by "d left" |
| PantryItemCard.DaysLeftTextInjective | client/src/components/PantryItem.tsx:31-32 | different day counts give different texts |
| PantryItemCard.GetExpiryStatus | client/src/components/PantryItem.tsx:29-34 | red exactly for 3 days or fewer, amber exactly for 4 to 7, primary exactly beyond 7; "Expired" below 0, the days-left text from 0 to 7, the formatted date beyond |
| PantryItemCard.StatusMonotone | client/src/components/PantryItem.tsx:29-34 | an item expiring sooner never gets a less urgent colour |
| PantryItemCard.CardImage | client/src/components/PantryItem.tsx:27 | a non-empty `imageUrl` wins; otherwise the food image of the name |
| Recipes.FilteredRecipes | client/src/pages/Recipes.tsx:50-56 | never more recipes than the input |
| Recipes.FilteredRecipesMatch | client/src/pages/Recipes.tsx:51-55 | every shown title contains the query, ignoring case; with "only available" on, every shown recipe has a 100% match |
| Recipes.FilteredRecipesOrder | client/src/pages/Recipes.tsx:56 | shown recipes are in non-increasing match percentage |
| Recipes.FilteredRecipesPermutation | client/src/pages/Recipes.tsx:50-56 | the shown recipes are exactly the matching ones, as a multiset, so none is lost or repeated |
| Recipes.FilteredRecipesStable | client/src/pages/Recipes.tsx:56 | recipes with equal match percentage keep their catalogue order |
| Recipes.UnfilteredListsAll | client/src/pages/Recipes.tsx:50-56 | no query and no toggle shows every recipe |
| Recipes.AllSixRecipes | client/src/pages/Recipes.tsx:15-22 | the catalogue shows all six recipes unfiltered |
| MealPlanner.RemoveMeal | client/src/pages/MealPlanner.tsx:29-31 | no meal remains in the removed slot; every meal in another slot remains, as many times as before, in order |
| MealPlanner.RemoveAbsentMeal | client/src/pages/MealPlanner.tsx:29-31 | removing an empty slot changes nothing |
| MealPlanner.Days | client/src/pages/MealPlanner.tsx:34 | the set of days holds exactly the days of the meals |
| MealPlanner.TotalMeals | client/src/pages/MealPlanner.tsx:33 | the meal count is never below the number of planned days, and is zero only for an empty plan |
| MealPlanner.DaysPlanned | client/src/pages/MealPlanner.tsx:34 | there are never more planned days than meals, and none only for an empty plan |
| MealPlanner.DaysAtMostMeals | client/src/pages/MealPlanner.tsx:34 | the set of days is no larger than the list of meals |
| MealPlanner.RemoveMealDays | client/src/pages/MealPlanner.tsx:29-34 | removing a meal never adds a planned day |
| ExpiryAlertPanel.DaysLeftLabel | client/src/components/ExpiryAlertPanel.tsx:62-66 | "Expired" exactly below 0, "Today" exactly at 0, else the count with "day left" or "days left" |
| ExpiryAlertPanel.DaysLeftLabelInjective | client/src/components/ExpiryAlertPanel.tsx:62-66 | different non-negative day counts give different labels |
| ExpiryAlertPanel.ExpiryAlerts | client/src/components/ExpiryAlertPanel.tsx:21-66 | nothing is rendered exactly when there are no items; otherwise one row per item, a permutation sorted by expiry, each row with its expired flag, label and image |
| ExpiryAlertPanel.ExpiryAlertsStable | client/src/components/ExpiryAlertPanel.tsx:26-28 | the sort is stable: items with the same expiry time keep their input order |

## Left out

- The zod request schemas (server/routes.ts lines 7-30) and their 400 "Invalid data" replies. Route bodies arrive already parsed into the update records, and the plain POST routes are modelled only through the store's `Create*` methods.
- The 500 replies from the `catch` blocks. The model has no exceptions.
- `seedMockData`. The constructor models an empty store.
- The logout route and the GET routes that return a store listing unchanged. Their contents are the store functions above.
- Validation of expense bodies. The expense POST route stores whatever it receives.
- Concurrency, including two registrations racing for one username. Each handler is one atomic step.
- Floating point. Quantities, prices and amounts are `real`, so `totalEstimated`'s sum is not modelled and `toFixed` rendering is not modelled either.
- Unicode case mapping. `Text.Lower` lowers ASCII letters only.
- The key order of `Object.entries` for integer-like keys. The food table has none, so the table keeps source order.
- In `groupedItems`, categories whose names are `Object.prototype` members.
- date-fns, `Date` and the clock. Days, instants and formatted dates are parameters, and `addDays` is a function parameter, so calendar days across a daylight-saving change are whatever it returns.
- bcrypt's and jsonwebtoken's internals and the JWT secret. They are oracles with the `Accepts()` and `Sound()` properties above. UTF-8 encoding is modelled only to define bcrypt's key.
- Crypto.PasswordMismatchRejected: it needs `Sound()`, whose last clause takes bcrypt as free of collisions. Two different 72-byte keys can in principle share a hash, so this clause is an idealisation of the library, not a fact about it.
- Routes.Register / Routes.Login: the body fields are modelled as strings. `req.body` has no schema, so a JSON number, array or object can also arrive. For example, a numeric username passes `!username` and never equals a stored string, and a numeric password has no `length` and reaches `bcrypt.hash`, which fails with a 500 reply. Non-string values are not modelled.
- Storage.ExpiringSoon: the lower bound uses the same instant `now` as the cutoff, whereas the source calls `new Date()` again for each item. Both clock readings are one parameter.
- Text.Utf16Length: Dafny strings hold Unicode scalar values, so a string with a lone surrogate code unit cannot be expressed.
- JSX rendering, dialogs, the barcode scanner and navigation.
- Storage.MemStorage.CreateUser: ids are parameters, not `randomUUID()` values. "The listing grows by one" is stated only when the id is fresh. The same holds for the other `Create*` methods.
- FoodImages.GetFoodImage: the rest of the model uses the corrected own-keys lookup. The lookup as written is `FoodImages.GetFoodImageAsWritten`.
- MealPlanner.RemoveMeal: the client's slot type has no "snack" (client/src/pages/MealPlanner.tsx line 29). The server's `MealType` has one.
- Recipes.FilteredRecipesStable: stability is stated for every key value `k`. The sort key is the negated match percentage, so the percentage is not mentioned directly.

## Findings

| source | as written | input that shows it | evidently intended | confidence | as-written member | corrected member |
|---|---|---|---|---|---|---|
| client/src/lib/food-images.ts:39-40 | `imageMap[lowerName]` also reads members inherited from `Object.prototype`, so a name that lowers to `constructor` returns the `Object` function instead of a path | the food name "Constructor" | only the table's own keys are looked up, so the result is a table path or the placeholder | not executed | FoodImages.ConstructorNameLeaksPrototype | FoodImages.GetFoodImage |
