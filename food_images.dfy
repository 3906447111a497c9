/** Picking an illustration for a food name or a recipe title: a fixed table of
    food names, consulted by exact (lower-cased) name, then by the first entry
    whose key and the name contain one another, then a placeholder; and a fixed
    priority list of recipe keywords. */
module FoodImages {
  import opened Options
  import opened Text

  const Placeholder: string := "/recipe-placeholder.svg"

  /** One own property of the image table: a lower-case food name and its path. */
  datatype Entry = Entry(key: string, path: string)

  /** The image table, in declaration order (which is also Object.entries order,
      since no key looks like an array index). */
  const ImageMap: seq<Entry> := [
    Entry("milk", "/foods/milk.svg"),
    Entry("chicken", "/foods/chicken.svg"),
    Entry("chicken breast", "/foods/chicken.svg"),
    Entry("salmon", "/foods/salmon.svg"),
    Entry("fresh salmon", "/foods/salmon.svg"),
    Entry("yogurt", "/foods/yogurt.svg"),
    Entry("greek yogurt", "/foods/yogurt.svg"),
    Entry("eggs", "/foods/eggs.svg"),
    Entry("avocado", "/foods/avocado.svg"),
    Entry("avocados", "/foods/avocado.svg"),
    Entry("tomato", "/foods/tomatoes.svg"),
    Entry("tomatoes", "/foods/tomatoes.svg"),
    Entry("bread", "/foods/bread.svg"),
    Entry("whole wheat bread", "/foods/bread.svg"),
    Entry("cheese", "/foods/cheese.svg"),
    Entry("cheddar", "/foods/cheese.svg"),
    Entry("cheddar cheese", "/foods/cheese.svg"),
    Entry("mozzarella", "/foods/mozzarella.svg"),
    Entry("fresh mozzarella", "/foods/mozzarella.svg"),
    Entry("orange juice", "/foods/orange-juice.svg"),
    Entry("juice", "/foods/orange-juice.svg"),
    Entry("rice", "/foods/rice.svg"),
    Entry("brown rice", "/foods/rice.svg"),
    Entry("white rice", "/foods/rice.svg"),
    Entry("spinach", "/foods/spinach.svg"),
    Entry("fresh spinach", "/foods/spinach.svg"),
    Entry("peas", "/foods/peas.svg"),
    Entry("frozen peas", "/foods/peas.svg"),
    Entry("green peas", "/foods/peas.svg")
  ]

  /** Every path in the table is a non-empty `/foods/` path, hence truthy and
      different from the placeholder. */
  lemma ImageMapPaths()
    ensures forall i :: 0 <= i < |ImageMap| ==> ImageMap[i].path != "" && ImageMap[i].path != Placeholder
  {
  }

  /** `entries[i]` is the first entry whose key is `key`. */
  ghost predicate FirstKeyAt(entries: seq<Entry>, key: string, i: int) {
    0 <= i < |entries| && entries[i].key == key
    && forall j :: 0 <= j < i ==> entries[j].key != key
  }

  /** Looking a key up among the table's own properties. */
  function OwnLookup(entries: seq<Entry>, key: string): (r: Option<string>)
    ensures r.None? <==> forall i :: 0 <= i < |entries| ==> entries[i].key != key
    ensures r.Some? ==> exists i :: FirstKeyAt(entries, key, i) && entries[i].path == r.value
    decreases |entries|
  {
    if entries == [] then None
    else if entries[0].key == key then
      assert FirstKeyAt(entries, key, 0);
      Some(entries[0].path)
    else
      var r := OwnLookup(entries[1..], key);
      assert r.Some? ==> exists i :: FirstKeyAt(entries, key, i) && entries[i].path == r.value by {
        if r.Some? {
          var i :| FirstKeyAt(entries[1..], key, i) && entries[1..][i].path == r.value;
          assert FirstKeyAt(entries, key, i + 1);
        }
      }
      r
  }

  /** The partial-match test: the name contains the key or the key contains the name. */
  predicate Related(name: string, key: string) {
    Contains(name, key) || Contains(key, name)
  }

  /** `entries[i]` is the first entry whose key is related to `name`. */
  ghost predicate FirstRelatedAt(entries: seq<Entry>, name: string, i: int) {
    0 <= i < |entries| && Related(name, entries[i].key)
    && forall j :: 0 <= j < i ==> !Related(name, entries[j].key)
  }

  /** The `for ... of Object.entries(...)` search: the path of the first related entry. */
  function FirstRelated(entries: seq<Entry>, name: string): (r: Option<string>)
    ensures r.None? <==> forall i :: 0 <= i < |entries| ==> !Related(name, entries[i].key)
    ensures r.Some? ==> exists i :: FirstRelatedAt(entries, name, i) && entries[i].path == r.value
    decreases |entries|
  {
    if entries == [] then None
    else if Related(name, entries[0].key) then
      assert FirstRelatedAt(entries, name, 0);
      Some(entries[0].path)
    else
      var r := FirstRelated(entries[1..], name);
      assert r.Some? ==> exists i :: FirstRelatedAt(entries, name, i) && entries[i].path == r.value by {
        if r.Some? {
          var i :| FirstRelatedAt(entries[1..], name, i) && entries[1..][i].path == r.value;
          assert FirstRelatedAt(entries, name, i + 1);
        }
      }
      r
  }

  /** getFoodImage, reading only the table's own keys: the exact entry, else the
      first related entry, else the placeholder. The result is the placeholder or
      one of the table's paths, and it is the placeholder exactly when no key is
      related to the lower-cased name. */
  function GetFoodImage(name: string): (r: string)
    ensures r == Placeholder || exists i :: 0 <= i < |ImageMap| && ImageMap[i].path == r
    ensures r == Placeholder <==> forall i :: 0 <= i < |ImageMap| ==> !Related(Lower(name), ImageMap[i].key)
  {
    ImageMapPaths();
    ImageInRange(ImageMap, Lower(name));
    ImageIn(ImageMap, Lower(name))
  }

  /** The lookup of getFoodImage over any table of entries, given the lower-cased name. */
  function ImageIn(entries: seq<Entry>, lowerName: string): string {
    match OwnLookup(entries, lowerName)
    case Some(path) => path
    case None => FirstRelated(entries, lowerName).GetOr(Placeholder)
  }

  /** Names that differ only in the case of their letters get the same image. */
  lemma FoodImageCaseInsensitive(name: string)
    ensures GetFoodImage(name) == GetFoodImage(Lower(name))
  {
    LowerIdempotent(name);
  }

  /** The range of `GetFoodImage` for any table none of whose paths is the placeholder. */
  lemma ImageInRange(entries: seq<Entry>, lowerName: string)
    requires forall i :: 0 <= i < |entries| ==> entries[i].path != Placeholder
    ensures ImageIn(entries, lowerName) == Placeholder
            || exists i :: 0 <= i < |entries| && entries[i].path == ImageIn(entries, lowerName)
    ensures ImageIn(entries, lowerName) == Placeholder
            <==> forall i :: 0 <= i < |entries| ==> !Related(lowerName, entries[i].key)
  {
    match OwnLookup(entries, lowerName)
    case Some(path) =>
      var i :| FirstKeyAt(entries, lowerName, i) && entries[i].path == path;
      ContainsSelfAndEmpty(lowerName);
      assert Related(lowerName, entries[i].key);
    case None =>
      var found := FirstRelated(entries, lowerName);
      if found.Some? {
        var i :| FirstRelatedAt(entries, lowerName, i) && entries[i].path == found.value;
      }
  }

  /** The lookup returns the path of the first entry carrying the key. */
  lemma {:induction false} OwnLookupFirst(entries: seq<Entry>, key: string, i: int)
    requires FirstKeyAt(entries, key, i)
    ensures OwnLookup(entries, key) == Some(entries[i].path)
    decreases i
  {
    if i > 0 {
      assert entries[0].key != key;
      assert FirstKeyAt(entries[1..], key, i - 1);
      OwnLookupFirst(entries[1..], key, i - 1);
    }
  }

  /** The search returns the path of the first related entry. */
  lemma {:induction false} FirstRelatedFirst(entries: seq<Entry>, name: string, i: int)
    requires FirstRelatedAt(entries, name, i)
    ensures FirstRelated(entries, name) == Some(entries[i].path)
    decreases i
  {
    if i > 0 {
      assert !Related(name, entries[0].key);
      assert FirstRelatedAt(entries[1..], name, i - 1);
      FirstRelatedFirst(entries[1..], name, i - 1);
    }
  }

  /** An exact key wins over every partial match, even an earlier one. */
  lemma FoodImageExactMatch(name: string, i: int)
    requires FirstKeyAt(ImageMap, Lower(name), i)
    ensures GetFoodImage(name) == ImageMap[i].path
  {
    OwnLookupFirst(ImageMap, Lower(name), i);
  }

  /** Without an exact key, the first related entry in declaration order wins. */
  lemma FoodImageFirstPartial(name: string, i: int)
    requires forall j :: 0 <= j < |ImageMap| ==> ImageMap[j].key != Lower(name)
    requires FirstRelatedAt(ImageMap, Lower(name), i)
    ensures GetFoodImage(name) == ImageMap[i].path
  {
    FirstRelatedFirst(ImageMap, Lower(name), i);
  }

  /** The empty name is contained in every key, so it gets the first entry's image. */
  lemma EmptyNameIsMilk()
    ensures GetFoodImage("") == "/foods/milk.svg"
  {
    assert Lower("") == "";
    assert ImageMap[0].key == "milk";
    ContainsSelfAndEmpty("milk");
    assert FirstRelatedAt(ImageMap, "", 0);
    FoodImageFirstPartial("", 0);
  }

  /** What a bracket lookup on the object literal yields: an own property's path,
      or a member inherited from Object.prototype. */
  datatype Lookup = Path(path: string) | Inherited(member: string)

  /** The members of Object.prototype whose names are entirely lower-case, so that
      a lower-cased name can reach them: the `constructor` function and the
      `__proto__` accessor, both truthy. */
  const InheritedMembers: seq<string> := ["constructor", "__proto__"]

  /** getFoodImage as written: `imageMap[lowerName]` also sees inherited members,
      and returns them in place of a path. */
  function GetFoodImageAsWritten(name: string): (r: Lookup)
    ensures Lower(name) !in InheritedMembers ==> r == Path(GetFoodImage(name))
    ensures Lower(name) in InheritedMembers && OwnLookup(ImageMap, Lower(name)).None? ==> r == Inherited(Lower(name))
  {
    var lowerName := Lower(name);
    match OwnLookup(ImageMap, lowerName)
    case Some(path) => Path(path)
    case None =>
      if lowerName in InheritedMembers then Inherited(lowerName)
      else Path(FirstRelated(ImageMap, lowerName).GetOr(Placeholder))
  }

  lemma LowerConstructor()
    ensures Lower("Constructor") == "constructor"
  {
    assert Lower("Constructor") == "constructor";
  }

  lemma NoConstructorKey()
    ensures OwnLookup(ImageMap, "constructor").None?
  {
    assert forall i :: 0 <= i < |ImageMap| ==> ImageMap[i].key != "constructor";
  }

  /** "Constructor" makes the written lookup return Object.prototype.constructor,
      a function and not a path; reading own keys only gives a path of the table
      or the placeholder. */
  lemma ConstructorNameLeaksPrototype()
    ensures GetFoodImageAsWritten("Constructor") == Inherited("constructor")
    ensures GetFoodImage("Constructor") == Placeholder
            || exists i :: 0 <= i < |ImageMap| && ImageMap[i].path == GetFoodImage("Constructor")
  {
    LowerConstructor();
    NoConstructorKey();
  }

  /** Some recipe keyword occurs in the (lower-cased) title. */
  predicate HasRecipeKeyword(t: string) {
    || Contains(t, "pasta") || Contains(t, "taco") || Contains(t, "stir fry") || Contains(t, "stir-fry")
    || Contains(t, "salmon") || Contains(t, "yogurt") || Contains(t, "parfait") || Contains(t, "avocado")
    || Contains(t, "chicken") || Contains(t, "egg") || Contains(t, "tomato") || Contains(t, "bread")
    || Contains(t, "cheese") || Contains(t, "mozzarella") || Contains(t, "rice") || Contains(t, "juice")
    || Contains(t, "orange") || Contains(t, "spinach") || Contains(t, "peas")
  }

  /** getRecipeImage: keywords are tested in a fixed order on the lower-cased title
      and the first hit decides; "salad" counts only together with "chicken". */
  function GetRecipeImage(title: string): (r: string)
    ensures r == Placeholder <==> !HasRecipeKeyword(Lower(title))
  {
    var t := Lower(title);
    if Contains(t, "pasta") then "/foods/pasta.svg"
    else if Contains(t, "taco") then "/foods/tacos.svg"
    else if Contains(t, "stir fry") || Contains(t, "stir-fry") then "/foods/stir-fry.svg"
    else if Contains(t, "salmon") then "/foods/salmon.svg"
    else if Contains(t, "yogurt") || Contains(t, "parfait") then "/foods/yogurt.svg"
    else if Contains(t, "salad") && Contains(t, "chicken") then "/foods/chicken.svg"
    else if Contains(t, "avocado") then "/foods/avocado.svg"
    else if Contains(t, "chicken") then "/foods/chicken.svg"
    else if Contains(t, "egg") then "/foods/eggs.svg"
    else if Contains(t, "tomato") then "/foods/tomatoes.svg"
    else if Contains(t, "bread") then "/foods/bread.svg"
    else if Contains(t, "cheese") then "/foods/cheese.svg"
    else if Contains(t, "mozzarella") then "/foods/mozzarella.svg"
    else if Contains(t, "rice") then "/foods/rice.svg"
    else if Contains(t, "juice") || Contains(t, "orange") then "/foods/orange-juice.svg"
    else if Contains(t, "spinach") then "/foods/spinach.svg"
    else if Contains(t, "peas") then "/foods/peas.svg"
    else Placeholder
  }

  /** The first keyword in the list wins: a pasta dish with salmon shows pasta. */
  lemma RecipeImagePriority(title: string)
    requires Contains(Lower(title), "pasta") && Contains(Lower(title), "salmon")
    ensures GetRecipeImage(title) == "/foods/pasta.svg"
  {
  }

  lemma RecipeImageCaseInsensitive(title: string)
    ensures GetRecipeImage(title) == GetRecipeImage(Lower(title))
  {
    LowerIdempotent(title);
  }
}
