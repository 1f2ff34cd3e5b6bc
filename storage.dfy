/** The in-memory catalog store `MemStorage`: three JavaScript maps (recipes,
    contacts, users) keyed by ids drawn from three counters that only grow. */
module Storage {
  import opened Wrappers
  import opened Sequences
  import opened JsString
  import opened Schema
  import opened OrderedMap

  /** The `searchRecipes` test: the lower-cased query occurs in the lower-cased
      title, description or some ingredient name. */
  predicate MatchesQuery(r: Recipe, query: string) {
    IncludesIgnoringCase(r.title, query)
    || IncludesIgnoringCase(r.description, query)
    || exists i :: 0 <= i < |r.ingredients| && IncludesIgnoringCase(r.ingredients[i].name, query)
  }

  function Matching(query: string): Recipe -> bool {
    (r: Recipe) => MatchesQuery(r, query)
  }

  /** The `filterRecipesByCategory` test: exact, case-sensitive equality. */
  function InCategory(category: string): Recipe -> bool {
    (r: Recipe) => r.category == category
  }

  /** An empty query matches every recipe. */
  lemma EmptyQueryMatchesAll(r: Recipe)
    ensures MatchesQuery(r, "")
  {
    assert ToLowerCase("") == "";
    IncludesEmpty(ToLowerCase(r.title));
  }

  function RecipeKey(r: Recipe): int { r.id }
  function ContactKey(c: Contact): int { c.id }
  function UserKey(u: User): int { u.id }

  /** `{ ...existing, ...update }`: every supplied field replaces the old value
      wholesale, every other field, and the id, stay as they were. */
  function Merge(r: Recipe, p: RecipePatch): (m: Recipe)
    ensures m.id == r.id
    ensures m.title == p.title.GetOr(r.title)
    ensures m.description == p.description.GetOr(r.description)
    ensures m.category == p.category.GetOr(r.category)
    ensures m.prepTime == p.prepTime.GetOr(r.prepTime)
    ensures m.cookTime == p.cookTime.GetOr(r.cookTime)
    ensures m.servings == p.servings.GetOr(r.servings)
    ensures m.image == p.image.GetOr(r.image)
    ensures m.ingredients == p.ingredients.GetOr(r.ingredients)
    ensures m.instructions == p.instructions.GetOr(r.instructions)
  {
    Recipe(r.id, p.title.GetOr(r.title), p.description.GetOr(r.description),
           p.category.GetOr(r.category), p.prepTime.GetOr(r.prepTime),
           p.cookTime.GetOr(r.cookTime), p.servings.GetOr(r.servings),
           p.image.GetOr(r.image), p.ingredients.GetOr(r.ingredients),
           p.instructions.GetOr(r.instructions))
  }

  /** The patch whose fields are those of `q` where supplied, else those of `p`. */
  function Overlay(p: RecipePatch, q: RecipePatch): RecipePatch {
    RecipePatch(
      if q.title.Some? then q.title else p.title,
      if q.description.Some? then q.description else p.description,
      if q.category.Some? then q.category else p.category,
      if q.prepTime.Some? then q.prepTime else p.prepTime,
      if q.cookTime.Some? then q.cookTime else p.cookTime,
      if q.servings.Some? then q.servings else p.servings,
      if q.image.Some? then q.image else p.image,
      if q.ingredients.Some? then q.ingredients else p.ingredients,
      if q.instructions.Some? then q.instructions else p.instructions)
  }

  /** An update that supplies nothing leaves the record as it was. */
  lemma MergeEmptyPatch(r: Recipe)
    ensures Merge(r, EmptyPatch) == r
  {
  }

  /** Applying the same update twice is the same as applying it once. */
  lemma MergeIdempotent(r: Recipe, p: RecipePatch)
    ensures Merge(Merge(r, p), p) == Merge(r, p)
  {
  }

  /** Two successive updates are one update with the later fields winning. */
  lemma MergeTwice(r: Recipe, p: RecipePatch, q: RecipePatch)
    ensures Merge(Merge(r, p), q) == Merge(r, Overlay(p, q))
  {
  }

  /** `updateRecipe(id, {title: t})` changes only the title. */
  lemma MergeTitleOnly(r: Recipe, t: string)
    ensures Merge(r, EmptyPatch.(title := Some(t))) == r.(title := t)
  {
  }

  /** The first `n` payloads stored under consecutive ids from `first`. */
  function Numbered(samples: seq<InsertRecipe>, first: nat, n: nat): (rs: seq<Recipe>)
    requires n <= |samples|
  {
    seq(n, i requires 0 <= i < n => RecipeWithId(samples[i], first + i))
  }

  /** The sample listing holds payload `k` under id `first + k`. */
  lemma NumberedIds(samples: seq<InsertRecipe>, first: nat, n: nat)
    requires n <= |samples|
    ensures |Numbered(samples, first, n)| == n
    ensures forall k :: 0 <= k < n ==>
      Numbered(samples, first, n)[k].id == first + k && RecipePayload(Numbered(samples, first, n)[k]) == samples[k]
  {
  }

  /** Storing the next sample extends the numbered listing by one. */
  lemma NumberedStep(initial: seq<Recipe>, before: seq<Recipe>, after: seq<Recipe>,
                     samples: seq<InsertRecipe>, first: nat, n: nat)
    requires n < |samples|
    requires before == initial + Numbered(samples, first, n)
    requires after == before + [RecipeWithId(samples[n], first + n)]
    ensures after == initial + Numbered(samples, first, n + 1)
  {
    assert Numbered(samples, first, n + 1) == Numbered(samples, first, n) + [RecipeWithId(samples[n], first + n)];
  }

  /** A table of the store: its keys are in insertion order, which is also
      increasing id order, all below the next id to hand out. */
  ghost predicate TableValid<T>(m: OMap<T>, next: nat, key: T -> int) {
    && Wf(m)
    && Ascending(m.keys)
    && (forall k :: k in m.entries ==> 1 <= k < next)
    && (forall k :: k in m.entries ==> key(m.entries[k]) == k)
  }

  /** Adding the next id keeps a table valid. */
  lemma TableInsert<T>(m: OMap<T>, next: nat, key: T -> int, v: T)
    requires TableValid(m, next, key) && 1 <= next && key(v) == next
    ensures next !in m.entries
    ensures TableValid(Set(m, next, v), next + 1, key)
    ensures Values(Set(m, next, v)) == Values(m) + [v]
  {
    ValuesAfterInsert(m, next, v);
    var r := Set(m, next, v);
    assert r.keys == m.keys + [next];
    forall i, j | 0 <= i < j < |r.keys| ensures r.keys[i] < r.keys[j] {
      if j == |m.keys| {
        assert m.keys[i] in m.entries;
      }
    }
  }

  /** Replacing the value under a present key by one with the same key keeps
      a table valid, and changes the values only at that key's position. */
  lemma TableReplace<T>(m: OMap<T>, next: nat, key: T -> int, v: T)
    requires TableValid(m, next, key) && key(v) in m.entries
    ensures TableValid(Set(m, key(v), v), next, key)
    ensures |Values(Set(m, key(v), v))| == |Values(m)|
    ensures forall i :: 0 <= i < |Values(m)| ==>
      Values(Set(m, key(v), v))[i] == if key(Values(m)[i]) == key(v) then v else Values(m)[i]
  {
    ValuesAfterReplace(m, key(v), v);
  }

  /** When no user in insertion order is named `username`, no stored user is. */
  lemma FirstUserAbsent(users: OMap<User>, username: string)
    requires Wf(users) && Find(Values(users), HasUsername(username)).None?
    ensures forall id :: id in users.entries ==> users.entries[id].username != username
  {
    var vs := Values(users);
    forall id | id in users.entries ensures users.entries[id].username != username {
      var j :| 0 <= j < |users.keys| && users.keys[j] == id;
      assert !HasUsername(username)(vs[j]);
    }
  }

  /** The first user named `username` in insertion order is stored under its
      own id, and no user with a smaller id has that name. */
  lemma FirstUserPresent(users: OMap<User>, next: nat, username: string)
    requires TableValid(users, next, UserKey)
    requires Find(Values(users), HasUsername(username)).Some?
    ensures var u := Find(Values(users), HasUsername(username)).value;
      && u.username == username && u.id in users.entries && users.entries[u.id] == u
      && forall id :: id in users.entries && id < u.id ==> users.entries[id].username != username
  {
    var vs := Values(users);
    var i := FindIndex(vs, HasUsername(username));
    var k := users.keys[i];
    assert vs[i] == users.entries[k];
    assert UserKey(users.entries[k]) == k;
    forall id | id in users.entries && id < k ensures users.entries[id].username != username {
      var j :| 0 <= j < |users.keys| && users.keys[j] == id;
      if i <= j {
        assert false;
      }
      assert !HasUsername(username)(vs[j]);
    }
  }

  /** The first user named `username` in insertion order is the one with the
      smallest id among those so named, and there is none exactly when no
      stored user has that name. */
  lemma FindFirstUser(users: OMap<User>, next: nat, username: string)
    requires TableValid(users, next, UserKey)
    ensures var u := Find(Values(users), HasUsername(username));
      && (u.None? <==> forall id :: id in users.entries ==> users.entries[id].username != username)
      && (u.Some? ==> u.value.username == username && u.value.id in users.entries
                      && users.entries[u.value.id] == u.value)
      && (u.Some? ==> forall id :: id in users.entries && id < u.value.id ==> users.entries[id].username != username)
  {
    if Find(Values(users), HasUsername(username)).None? {
      FirstUserAbsent(users, username);
    } else {
      FirstUserPresent(users, next, username);
    }
  }

  /** The values of a valid table are ordered by increasing id. */
  lemma TableValuesAscending<T>(m: OMap<T>, next: nat, key: T -> int)
    requires TableValid(m, next, key)
    ensures forall i, j :: 0 <= i < j < |Values(m)| ==> key(Values(m)[i]) < key(Values(m)[j])
  {
  }

  class MemStorage {
    var recipes: OMap<Recipe>
    var contacts: OMap<Contact>
    var users: OMap<User>
    var currentRecipeId: nat
    var currentContactId: nat
    var currentUserId: nat

    /** The store invariant, one conjunct per table, each reading only its own fields. */
    ghost predicate Valid()
      reads this
    {
      RecipesValid() && ContactsValid() && UsersValid()
    }

    ghost predicate RecipesValid()
      reads this`recipes, this`currentRecipeId
    {
      && 1 <= currentRecipeId
      && TableValid(recipes, currentRecipeId, RecipeKey)
    }

    ghost predicate ContactsValid()
      reads this`contacts, this`currentContactId
    {
      1 <= currentContactId && TableValid(contacts, currentContactId, ContactKey)
    }

    ghost predicate UsersValid()
      reads this`users, this`currentUserId
    {
      1 <= currentUserId && TableValid(users, currentUserId, UserKey)
    }

    /** `new MemStorage()`: empty maps, counters at 1, then the sample recipes
        are stored under ids 1, 2, ... in their order. */
    constructor (samples: seq<InsertRecipe>)
      ensures Valid()
      ensures GetRecipes() == Numbered(samples, 1, |samples|)
      ensures currentRecipeId == |samples| + 1
      ensures GetContacts() == [] && currentContactId == 1
      ensures users.entries == map[] && currentUserId == 1
    {
      recipes, contacts, users := Empty(), Empty(), Empty();
      currentRecipeId, currentContactId, currentUserId := 1, 1, 1;
      new;
      InitializeSampleRecipes(samples);
    }

    /** Stores each sample in turn under the next recipe id. */
    method InitializeSampleRecipes(samples: seq<InsertRecipe>)
      requires Valid()
      modifies this
      ensures Valid()
      ensures currentRecipeId == old(currentRecipeId) + |samples|
      ensures GetRecipes() == old(GetRecipes()) + Numbered(samples, old(currentRecipeId), |samples|)
      ensures contacts == old(contacts) && users == old(users)
      ensures currentContactId == old(currentContactId) && currentUserId == old(currentUserId)
    {
      ghost var initial, first := GetRecipes(), currentRecipeId;
      var i := 0;
      while i < |samples|
        invariant 0 <= i <= |samples|
        invariant Valid()
        invariant currentRecipeId == first + i
        invariant Values(recipes) == initial + Numbered(samples, first, i)
        invariant contacts == old(contacts) && users == old(users)
        invariant currentContactId == old(currentContactId) && currentUserId == old(currentUserId)
      {
        ghost var before := Values(recipes);
        var recipe := CreateRecipe(samples[i]);
        NumberedStep(initial, before, Values(recipes), samples, first, i);
        i := i + 1;
      }
    }

    /** `getRecipes`: every stored recipe, once each, in insertion order, which is increasing id order. */
    function GetRecipes(): seq<Recipe>
      reads this`recipes, this`currentRecipeId
      requires RecipesValid()
    {
      Values(recipes)
    }

    /** `getRecipe(id)`: the stored recipe with that id, or `undefined`. */
    function GetRecipe(id: int): (r: Option<Recipe>)
      reads this`recipes, this`currentRecipeId
      requires RecipesValid()
      ensures r.Some? <==> id in recipes.entries
      ensures r.Some? ==> r.value.id == id && r.value == recipes.entries[id]
    {
      Get(recipes, id)
    }

    /** `createRecipe`: stores the payload under the current counter value and bumps the counter. */
    method CreateRecipe(insert: InsertRecipe) returns (recipe: Recipe)
      requires Valid()
      modifies this
      ensures Valid()
      ensures recipe == RecipeWithId(insert, old(currentRecipeId))
      ensures forall k :: k in old(recipes.entries) ==> k < recipe.id
      ensures currentRecipeId == old(currentRecipeId) + 1
      ensures GetRecipes() == old(GetRecipes()) + [recipe]
      ensures recipes.entries == old(recipes.entries)[recipe.id := recipe]
      ensures contacts == old(contacts) && users == old(users)
      ensures currentContactId == old(currentContactId) && currentUserId == old(currentUserId)
    {
      var id := currentRecipeId;
      recipe := RecipeWithId(insert, id);
      TableInsert(recipes, id, RecipeKey, recipe);
      recipes, currentRecipeId := Set(recipes, id, recipe), id + 1;
      assert RecipesValid();
    }

    /** `updateRecipe`: `undefined` and no change for an absent id; otherwise the
        merged record replaces the old one where it stands. */
    method UpdateRecipe(id: int, update: RecipePatch) returns (r: Option<Recipe>)
      requires Valid()
      modifies this
      ensures Valid()
      ensures old(GetRecipe(id)).None? ==> r.None? && recipes == old(recipes)
      ensures old(GetRecipe(id)).Some? ==> r == Some(Merge(old(GetRecipe(id)).value, update))
      ensures old(GetRecipe(id)).Some? ==> GetRecipe(id) == r
      ensures |GetRecipes()| == |old(GetRecipes())|
      ensures forall i :: 0 <= i < |GetRecipes()| ==>
        GetRecipes()[i] == if old(GetRecipes())[i].id == id then r.value else old(GetRecipes())[i]
      ensures contacts == old(contacts) && users == old(users)
      ensures currentRecipeId == old(currentRecipeId)
      ensures currentContactId == old(currentContactId) && currentUserId == old(currentUserId)
    {
      var existing := Get(recipes, id);
      if existing.None? {
        return None;
      }
      var updated := Merge(existing.value, update);
      TableReplace(recipes, currentRecipeId, RecipeKey, updated);
      recipes := Set(recipes, id, updated);
      r := Some(updated);
    }

    /** `deleteRecipe`: reports whether the id was present and removes it; the
        counter is untouched, so the id is never handed out again. */
    method DeleteRecipe(id: int) returns (removed: bool)
      requires Valid()
      modifies this
      ensures Valid()
      ensures removed <==> old(GetRecipe(id)).Some?
      ensures removed ==> 1 <= id < currentRecipeId
      ensures GetRecipe(id).None?
      ensures GetRecipes() == Filter(old(GetRecipes()), KeyOtherThan(RecipeKey, id))
      ensures contacts == old(contacts) && users == old(users)
      ensures currentRecipeId == old(currentRecipeId)
      ensures currentContactId == old(currentContactId) && currentUserId == old(currentUserId)
    {
      assert id in recipes.entries ==> 1 <= id < currentRecipeId;
      ValuesAfterDelete(recipes, id, RecipeKey);
      FilterAscending(recipes.keys, OtherThan(id));
      var result := Delete(recipes, id);
      removed := result.0;
      recipes := result.1;
    }

    /** `searchRecipes`: exactly the stored recipes matching the query, in store order. */
    function SearchRecipes(query: string): (rs: seq<Recipe>)
      reads this`recipes, this`currentRecipeId
      requires RecipesValid()
      ensures forall i :: 0 <= i < |rs| ==> rs[i] in GetRecipes() && MatchesQuery(rs[i], query)
      ensures forall i :: 0 <= i < |GetRecipes()| && MatchesQuery(GetRecipes()[i], query) ==> GetRecipes()[i] in rs
      ensures IsSubsequence(rs, GetRecipes())
    {
      Filter(GetRecipes(), Matching(query))
    }

    /** `filterRecipesByCategory`: exactly the stored recipes of that category, in store order. */
    function FilterRecipesByCategory(category: string): (rs: seq<Recipe>)
      reads this`recipes, this`currentRecipeId
      requires RecipesValid()
      ensures forall i :: 0 <= i < |rs| ==> rs[i] in GetRecipes() && rs[i].category == category
      ensures forall i :: 0 <= i < |GetRecipes()| && GetRecipes()[i].category == category ==> GetRecipes()[i] in rs
      ensures IsSubsequence(rs, GetRecipes())
    {
      Filter(GetRecipes(), InCategory(category))
    }

    /** `createContact`: like `createRecipe`, with the separate contact counter. */
    method CreateContact(insert: InsertContact) returns (contact: Contact)
      requires Valid()
      modifies this
      ensures Valid()
      ensures contact == ContactWithId(insert, old(currentContactId))
      ensures currentContactId == old(currentContactId) + 1
      ensures GetContacts() == old(GetContacts()) + [contact]
      ensures recipes == old(recipes) && users == old(users)
      ensures currentRecipeId == old(currentRecipeId)
      ensures currentUserId == old(currentUserId)
    {
      var id := currentContactId;
      contact := ContactWithId(insert, id);
      TableInsert(contacts, id, ContactKey, contact);
      contacts, currentContactId := Set(contacts, id, contact), id + 1;
      assert ContactsValid();
    }

    /** `getContacts`: every contact, once each, in insertion order. */
    function GetContacts(): seq<Contact>
      reads this`contacts, this`currentContactId
      requires ContactsValid()
    {
      Values(contacts)
    }

    /** `getUser(id)`. */
    function GetUser(id: int): (u: Option<User>)
      reads this`users, this`currentUserId
      requires UsersValid()
      ensures u.Some? <==> id in users.entries
      ensures u.Some? ==> u.value.id == id && u.value == users.entries[id]
    {
      Get(users, id)
    }

    /** `getUserByUsername`: the earliest-inserted user with that name; the
        store does not keep names unique. */
    function GetUserByUsername(username: string): (u: Option<User>)
      reads this`users, this`currentUserId
      requires UsersValid()
      ensures u.None? <==> forall id :: id in users.entries ==> users.entries[id].username != username
      ensures u.Some? ==> u.value.username == username && GetUser(u.value.id) == u
      ensures u.Some? ==> forall id :: id in users.entries && id < u.value.id ==> users.entries[id].username != username
    {
      FindFirstUser(users, currentUserId, username);
      Find(Values(users), HasUsername(username))
    }

    /** `createUser`: like `createRecipe`, with the separate user counter; no uniqueness check. */
    method CreateUser(insert: InsertUser) returns (user: User)
      requires Valid()
      modifies this
      ensures Valid()
      ensures user == UserWithId(insert, old(currentUserId))
      ensures currentUserId == old(currentUserId) + 1
      ensures GetUser(user.id) == Some(user)
      ensures users.entries == old(users.entries)[user.id := user]
      ensures recipes == old(recipes) && contacts == old(contacts)
      ensures currentRecipeId == old(currentRecipeId)
      ensures currentContactId == old(currentContactId)
    {
      var id := currentUserId;
      user := UserWithId(insert, id);
      TableInsert(users, id, UserKey, user);
      users, currentUserId := Set(users, id, user), id + 1;
      assert UsersValid();
    }
  }

  function HasUsername(username: string): User -> bool {
    (u: User) => u.username == username
  }

  /** `getRecipes` lists every stored recipe once, in insertion order, which is increasing id order. */
  lemma RecipesListing(s: MemStorage)
    requires s.Valid()
    ensures var rs := s.GetRecipes();
      && (forall i :: 0 <= i < |rs| ==> rs[i].id in s.recipes.entries && s.recipes.entries[rs[i].id] == rs[i])
      && (forall id :: id in s.recipes.entries ==> s.recipes.entries[id] in rs)
      && (forall i, j :: 0 <= i < j < |rs| ==> rs[i].id < rs[j].id)
  {
    TableValuesAscending(s.recipes, s.currentRecipeId, RecipeKey);
    forall id | id in s.recipes.entries ensures s.recipes.entries[id] in s.GetRecipes() {
      ValuesAreEntries(s.recipes, s.recipes.entries[id]);
    }
  }

  /** `getContacts` lists every contact once, in insertion order, which is increasing id order. */
  lemma ContactsListing(s: MemStorage)
    requires s.Valid()
    ensures var cs := s.GetContacts();
      && (forall i :: 0 <= i < |cs| ==> cs[i].id in s.contacts.entries && s.contacts.entries[cs[i].id] == cs[i])
      && (forall id :: id in s.contacts.entries ==> s.contacts.entries[id] in cs)
      && (forall i, j :: 0 <= i < j < |cs| ==> cs[i].id < cs[j].id)
  {
    TableValuesAscending(s.contacts, s.currentContactId, ContactKey);
    forall id | id in s.contacts.entries ensures s.contacts.entries[id] in s.GetContacts() {
      ValuesAreEntries(s.contacts, s.contacts.entries[id]);
    }
  }

  /** Searching with the empty query returns the whole store. */
  lemma EmptySearchReturnsAll(s: MemStorage)
    requires s.Valid()
    ensures s.SearchRecipes("") == s.GetRecipes()
  {
    var rs := s.GetRecipes();
    forall i | 0 <= i < |rs| ensures Matching("")(rs[i]) {
      EmptyQueryMatchesAll(rs[i]);
    }
    FilterAll(rs, Matching(""));
  }

  /** A query matching no stored recipe returns nothing. */
  lemma NoMatchReturnsNothing(s: MemStorage, query: string)
    requires s.Valid()
    requires forall i :: 0 <= i < |s.GetRecipes()| ==> !MatchesQuery(s.GetRecipes()[i], query)
    ensures s.SearchRecipes(query) == []
  {
  }

  /** The query is compared without regard to case, in Cyrillic as in Latin. */
  lemma SearchIgnoresCase(r: Recipe)
    requires r.title == "Шопска салата"
    ensures MatchesQuery(r, "ШОПСК")
  {
    var lower := ToLowerCase(r.title);
    assert r.title[..5] == "Шопск";
    ToLowerCaseSlice(r.title, 0, 5);
    assert ToLowerCase("Шопск") == "шопск" == ToLowerCase("ШОПСК");
    assert lower[..5] == "шопск";
  }

  /** `searchRecipes("шопск")` returns a stored "Шопска салата", whatever else the store holds. */
  lemma SearchFindsShopska(s: MemStorage, r: Recipe)
    requires s.Valid() && r in s.GetRecipes() && r.title == "Шопска салата"
    ensures r in s.SearchRecipes("шопск")
  {
    var lower := ToLowerCase(r.title);
    assert r.title[..5] == "Шопск";
    ToLowerCaseSlice(r.title, 0, 5);
    assert ToLowerCase("Шопск") == "шопск" == ToLowerCase("шопск");
    assert lower[..5] == "шопск";
    assert MatchesQuery(r, "шопск");
    var i :| 0 <= i < |s.GetRecipes()| && s.GetRecipes()[i] == r;
  }

  /** A store seeded with `samples` gives its first new recipe the id after them. */
  method FirstCreatedId(samples: seq<InsertRecipe>, insert: InsertRecipe) returns (id: nat)
    ensures id == |samples| + 1
  {
    var s := new MemStorage(samples);
    var recipe := s.CreateRecipe(insert);
    id := recipe.id;
  }

  /** Deleting a recipe twice reports `true`, then `false`, and the recipe is gone. */
  method DeleteTwice(samples: seq<InsertRecipe>, insert: InsertRecipe)
    returns (first: bool, second: bool, after: Option<Recipe>)
    ensures first && !second && after.None?
  {
    var s := new MemStorage(samples);
    var recipe := s.CreateRecipe(insert);
    first := s.DeleteRecipe(recipe.id);
    second := s.DeleteRecipe(recipe.id);
    after := s.GetRecipe(recipe.id);
  }

  /** A recipe created after another was deleted gets a new, larger id; the
      deleted id stays unused. */
  method CreateAfterDelete(samples: seq<InsertRecipe>, a: InsertRecipe, b: InsertRecipe)
    returns (first: Recipe, second: Recipe, lookup: Option<Recipe>)
    ensures first.id < second.id
    ensures first == RecipeWithId(a, |samples| + 1) && second == RecipeWithId(b, |samples| + 2)
    ensures lookup.None?
  {
    var s := new MemStorage(samples);
    first := s.CreateRecipe(a);
    var _ := s.DeleteRecipe(first.id);
    second := s.CreateRecipe(b);
    lookup := s.GetRecipe(first.id);
  }

  /** Whatever the store held, an id that `deleteRecipe` removed is below the
      counter, so the next `createRecipe` hands out a larger one. */
  method DeleteThenCreate(s: MemStorage, id: int, insert: InsertRecipe)
    returns (removed: bool, recipe: Recipe)
    requires s.Valid()
    modifies s
    ensures s.Valid()
    ensures removed ==> recipe.id > id
  {
    removed := s.DeleteRecipe(id);
    recipe := s.CreateRecipe(insert);
  }

  /** Contacts draw on their own counter: creating recipes does not move contact ids. */
  method ContactIdsIndependent(samples: seq<InsertRecipe>, r: InsertRecipe, c: InsertContact)
    returns (contact: Contact)
    ensures contact.id == 1
  {
    var s := new MemStorage(samples);
    var _ := s.CreateRecipe(r);
    contact := s.CreateContact(c);
  }
}
