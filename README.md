# Recipe catalog core, modelled in Dafny

This project models the core of a Bulgarian recipe catalog web application:

- the in-memory store `MemStorage`. It holds recipes, contacts and users in three insertion-ordered maps. Each table takes its ids from its own counter, and the counters only grow;
- the row logic of the "add recipe" page. This covers the ingredient and instruction rows the page keeps, the helpers that add, remove and edit rows, the numeric bounds of the form schema, and the clean-up on submit;
- the GraphQL resolvers over the external recipe service. They strip markup, default missing text, map each record field by field, and translate text with a fallback to the original;
- the record shapes and insert schemas shared by client and server.

The files are:

| file | module | what it holds |
|---|---|---|
| `wrappers.dfy` | `Wrappers` | `Option` and `Result` |
| `sequences.dfy` | `Sequences` | `filter`, `find` and index removal on arrays, with subsequence and ordering facts |
| `jsstring.dfy` | `JsString` | `trim`, `toLowerCase` and `includes` on strings |
| `ordered_map.dfy` | `OrderedMap` | a JavaScript `Map` as a value: its entries plus the insertion order of its keys |
| `schema.dfy` | `Schema` | the `recipes`, `contacts` and `users` records and the insert schemas |
| `storage.dfy` | `Storage` | the class `MemStorage` and lemmas about its queries |
| `add_recipe.dfy` | `AddRecipe` | row helpers, form bounds, submit clean-up, and the page's row state as a class |
| `resolvers.dfy` | `Resolvers` | translation fallback, tag stripping, record mapping, upstream failures |

`MemStorage` is a Dafny class. Its mutating operations are methods with `modifies this`. Its read-only queries are functions that read the fields they need. Every mutating method keeps the invariant `Valid()`, which holds for each table:

- the keys are distinct and in insertion order;
- insertion order is increasing id order;
- every key lies below the table's counter;
- every record carries its own key as its id.

`deleteRecipe` only removes ids below the recipe counter, and no method lowers that counter. `createRecipe` returns the counter's value, which is larger than every id stored so far. So an id freed by `deleteRecipe` is never handed out again.

Two operations are parameters: the HTTP fetch from the upstream service and the translation service. Each is a function.

- The fetch yields either `FetchFailed` or `Fetched(data)`.
- The translator yields either `TranslationFailed` or a response whose translated text may be absent.

## Model

| member | source | states |
|---|---|---|
| `Sequences.Filter` | server/storage.ts:425-431 | `Array.prototype.filter`: the result holds only elements that pass the predicate, holds every element that passes, and keeps their order (it is a subsequence) |
| `Sequences.FilterMultiplicity` | server/storage.ts:425-431 | filtering keeps every occurrence of a passing value and no occurrence of a failing one |
| `Sequences.FilterAll` | server/storage.ts:425-431 | when every element passes, the filter returns its input unchanged |
| `Sequences.FilterEmptyIff` | client/src/pages/AddRecipePage.tsx:70-75 | a filter yields the empty list exactly when no element passes |
| `Sequences.RemoveIndex` | client/src/pages/AddRecipePage.tsx:110 | `filter((_, i) => i !== index)`: an index in range drops exactly that element and shifts the later ones down by one; an index out of range changes nothing |
| `Sequences.RemoveIndexIsSubsequence` | client/src/pages/AddRecipePage.tsx:110 | after a removal, the rest plus the removed element is the original multiset, and the rest keeps its order |
| `Sequences.Find` | server/storage.ts:457-459 | `Array.prototype.find`: `None` exactly when no element passes; otherwise a passing element with no passing element before it |
| `Sequences.FilterAscending` | server/storage.ts:418 | filtering an ascending sequence leaves it ascending |
| `JsString.IsWhiteSpace` | client/src/pages/AddRecipePage.tsx:64 | the characters `trim` removes: the ECMAScript WhiteSpace and LineTerminator code points, listed one by one; `BlankIffAllWhiteSpace` is proved in its terms |
| `JsString.TrimStart` | client/src/pages/AddRecipePage.tsx:64 | the longest suffix that does not start with ECMAScript white space or a line terminator |
| `JsString.TrimEnd` | client/src/pages/AddRecipePage.tsx:64 | the longest prefix that does not end with white space or a line terminator |
| `JsString.Trim` | client/src/pages/AddRecipePage.tsx:64 | `s.trim()`: the leading white space removed by `TrimStart`, then the trailing white space by `TrimEnd` |
| `JsString.IsBlank` | client/src/pages/AddRecipePage.tsx:64 | `!s.trim()`: the trimmed string is empty; characterised by `BlankIffAllWhiteSpace` |
| `JsString.BlankIffAllWhiteSpace` | client/src/pages/AddRecipePage.tsx:63-68 | `s.trim()` is empty (falsy) exactly when every character of `s` is white space |
| `JsString.LowerChar` | server/storage.ts:423-429 | lower-cases Latin A-Z and the Cyrillic capitals U+0400-U+042F by their fixed offsets |
| `JsString.LowerCharIdempotent` | server/storage.ts:423-429 | lower-casing a lower-cased character changes nothing |
| `JsString.ToLowerCase` | server/storage.ts:423-429 | same length as the input; each character lower-cased in place |
| `JsString.ToLowerCaseSlice` | server/storage.ts:423-429 | lower-casing commutes with taking a slice |
| `JsString.Includes` | server/storage.ts:426-429 | `text.includes(query)`, by scanning the start positions of `text` in order; `IncludesIffOccurs` proves it is substring occurrence |
| `JsString.IncludesIgnoringCase` | server/storage.ts:423-429 | `text.toLowerCase().includes(query.toLowerCase())` |
| `JsString.IncludesIffOccurs` | server/storage.ts:426-429 | `includes` is true exactly when some position of the text starts an occurrence of the query |
| `JsString.IncludesEmpty` | server/storage.ts:426 | every text includes the empty query |
| `OrderedMap.Empty` | server/storage.ts:42-44 | `new Map()` is well formed and has no entries |
| `OrderedMap.Project` | server/storage.ts:392 | the values at the given keys, one per key, in key order |
| `OrderedMap.Values` | server/storage.ts:392 | `Array.from(map.values())`: the entries' values in key insertion order; `ValuesAreEntries`, `ValuesAfterInsert`, `ValuesAfterReplace` and `ValuesAfterDelete` state its behaviour |
| `OrderedMap.ValuesAreEntries` | server/storage.ts:392 | `map.values()` holds exactly the values of the entries |
| `OrderedMap.Get` | server/storage.ts:396 | `map.get(k)` is defined exactly when `k` is present, and is then its value |
| `OrderedMap.Set` | server/storage.ts:402 | `map.set(k, v)` updates the entry; a new key goes last in the order, a present key keeps its place |
| `OrderedMap.GetAfterSet` | server/storage.ts:402 | after `set`, `get` of that key is the new value, and every other key reads as before |
| `OrderedMap.ValuesAfterInsert` | server/storage.ts:402 | setting a new key appends its value to `values()` |
| `OrderedMap.ValuesAfterReplace` | server/storage.ts:413 | setting a present key replaces its value where it stands in `values()` |
| `OrderedMap.Delete` | server/storage.ts:418 | `map.delete(k)` returns whether `k` was present and removes it from the entries and from the order |
| `OrderedMap.ValuesAfterDelete` | server/storage.ts:418 | when records carry their own key, deleting a key drops exactly the records with that key from `values()` and keeps the order of the rest |
| `Schema.RecipeWithId` | server/storage.ts:401 | `{ ...insert, id }` carries the given id and exactly the payload's fields |
| `Schema.RecipeIsPayloadWithId` | shared/schema.ts:32-34 | a stored recipe is its insert payload plus its id, nothing else |
| `Schema.ContactWithId` | server/storage.ts:442 | `{ ...insert, id }` for contacts: the given id, the payload's fields |
| `Schema.UserWithId` | server/storage.ts:464 | `{ ...insert, id }` for users: the given id, the payload's fields |
| `Schema.ParseInsertRecipe` | shared/schema.ts:5-22 | accepts a payload exactly when all seven `notNull` columns are present; copies the nullable `prepTime` and `image` as given; otherwise lists every missing column |
| `Schema.ParseInsertIgnoresId` | shared/schema.ts:32-38 | an `id` in a payload never changes the outcome of any of the three insert schemas |
| `Schema.ParseInsertRecipeRoundTrip` | shared/schema.ts:32-34 | every typed insert record passes the schema unchanged, with or without an `id` |
| `Schema.ParseStoredRecipeDropsId` | shared/schema.ts:32-34 | a stored recipe sent back as a payload parses to its payload without the id |
| `Schema.ParseInsertContact` | shared/schema.ts:24-30 | accepts exactly when `name`, `email`, `subject` and `message` are all present, and yields them; otherwise lists the missing ones |
| `Schema.ParseInsertUser` | shared/schema.ts:52-55 | accepts exactly when `username` and `password` are present; the error names exactly the missing ones |
| `Storage.MatchesQuery` | server/storage.ts:425-430 | the `searchRecipes` test: the lower-cased query occurs in the lower-cased title, or description, or some ingredient name |
| `Storage.InCategory` | server/storage.ts:436 | the `filterRecipesByCategory` test: `recipe.category === category`, case-sensitive |
| `Storage.EmptyQueryMatchesAll` | server/storage.ts:421-432 | the empty query matches every recipe |
| `Storage.Merge` | server/storage.ts:412 | `{ ...existing, ...update }`: each supplied field replaces the old value wholesale, lists included; every other field and the id are kept |
| `Storage.MergeEmptyPatch` | server/storage.ts:412 | an update that supplies nothing leaves the record unchanged |
| `Storage.MergeIdempotent` | server/storage.ts:412 | applying an update twice equals applying it once |
| `Storage.MergeTwice` | server/storage.ts:412 | two updates in a row equal one update in which the later fields win |
| `Storage.MergeTitleOnly` | server/storage.ts:412 | an update of the title alone changes only the title |
| `Storage.NumberedIds` | server/storage.ts:383-387 | the seeded listing holds sample `k` under id `first + k` |
| `Storage.NumberedStep` | server/storage.ts:383-387 | storing the next sample extends the seeded listing by exactly that sample under the next id |
| `Storage.TableInsert` | server/storage.ts:399-404 | inserting under the counter's value keeps a table valid for the bumped counter and appends to its values |
| `Storage.TableReplace` | server/storage.ts:412-413 | replacing a present record keeps the table valid and changes the values only at that record's position |
| `Storage.FirstUserAbsent` | server/storage.ts:456-460 | when `find` finds no user with that name, no stored user has it |
| `Storage.FirstUserPresent` | server/storage.ts:456-460 | the user `find` returns has that name, is stored under its own id, and no user with a smaller id has the name |
| `Storage.FindFirstUser` | server/storage.ts:456-460 | `find` over `users.values()` returns the user with the smallest id among those with that name, and returns none exactly when no user has it |
| `Storage.TableValuesAscending` | server/storage.ts:391-393 | the values of a valid table are in strictly increasing id order |
| `Storage.MemStorage.constructor` | server/storage.ts:41-51 | an empty store whose recipe table then holds the samples under ids 1, 2, ... in order; the recipe counter is one past the last sample id; no contacts, no users, their counters at 1 |
| `Storage.MemStorage.InitializeSampleRecipes` | server/storage.ts:383-387 | each sample, in order, is appended under the next counter value; the counter advances by the number of samples; contacts and users are untouched |
| `Storage.MemStorage.GetRecipes` | server/storage.ts:391-393 | the values of the recipe map in insertion order; `RecipesListing` states that every stored recipe appears once, under its own id, in increasing id order |
| `Storage.MemStorage.GetRecipe` | server/storage.ts:395-397 | the record stored under `id`, present exactly when the id is stored, and carrying that id |
| `Storage.MemStorage.CreateRecipe` | server/storage.ts:399-404 | the returned record is the payload under the old counter value, an id larger than every id stored before; the counter grows by one; the record is appended to `getRecipes()` and stored under its id; nothing else changes |
| `Storage.MemStorage.UpdateRecipe` | server/storage.ts:406-415 | an absent id: undefined, nothing changes; a present id: the merged record is returned and stored, keeps its place in `getRecipes()`, and every other record stays as it was |
| `Storage.MemStorage.DeleteRecipe` | server/storage.ts:417-419 | returns true exactly when the id was present, and then the id lies below the counter; afterwards `getRecipe(id)` is undefined and `getRecipes()` is the old listing without that record, order kept; the counter is untouched |
| `Storage.MemStorage.SearchRecipes` | server/storage.ts:421-432 | exactly the stored recipes whose lower-cased title, description or some ingredient name includes the lower-cased query, in store order |
| `Storage.MemStorage.FilterRecipesByCategory` | server/storage.ts:434-437 | exactly the stored recipes whose category equals the argument (case-sensitive), in store order |
| `Storage.MemStorage.CreateContact` | server/storage.ts:440-445 | the payload under the old contact counter; the counter grows by one; the contact is appended to `getContacts()`; the recipe and user tables and their counters are untouched |
| `Storage.MemStorage.GetContacts` | server/storage.ts:447-449 | the values of the contact map in insertion order; `ContactsListing` states that every contact appears once, under its own id, in increasing id order |
| `Storage.MemStorage.GetUser` | server/storage.ts:452-454 | the user stored under `id`, present exactly when the id is stored |
| `Storage.MemStorage.GetUserByUsername` | server/storage.ts:456-460 | undefined exactly when no user has that name; otherwise the user with that name that has the smallest id, as `getUser` returns it |
| `Storage.MemStorage.CreateUser` | server/storage.ts:462-467 | the payload under the old user counter, stored under that id with no check that the name is unique; the counter grows by one; the other tables are untouched |
| `Storage.RecipesListing` | server/storage.ts:391-393 | `getRecipes()` lists every stored recipe, each under its own id, in strictly increasing id order |
| `Storage.ContactsListing` | server/storage.ts:447-449 | `getContacts()` lists every stored contact, each under its own id, in strictly increasing id order |
| `Storage.EmptySearchReturnsAll` | server/storage.ts:421-432 | searching with the empty query returns the whole listing |
| `Storage.NoMatchReturnsNothing` | server/storage.ts:421-432 | a query that matches no stored recipe returns the empty list |
| `Storage.SearchIgnoresCase` | server/storage.ts:423-429 | an upper-case Cyrillic query matches a title that has it in mixed case |
| `Storage.SearchFindsShopska` | server/storage.ts:421-431 | on any valid store, `searchRecipes("шопск")` returns a stored recipe titled "Шопска салата" |
| `Storage.FirstCreatedId` | server/storage.ts:383-404 | in a store seeded with `n` samples, the first created recipe gets id `n + 1` |
| `Storage.DeleteTwice` | server/storage.ts:417-419 | deleting the same recipe twice returns true, then false, and the recipe is gone |
| `Storage.CreateAfterDelete` | server/storage.ts:399-419 | a recipe created after another was deleted gets the next, larger id; the deleted id stays empty |
| `Storage.DeleteThenCreate` | server/storage.ts:399-419 | on any valid store, a `createRecipe` after a `deleteRecipe` that removed an id returns a larger id |
| `Storage.ContactIdsIndependent` | server/storage.ts:440-445 | creating a recipe does not move the contact counter: the first contact still gets id 1 |
| `AddRecipe.IssueMessage` | client/src/pages/AddRecipePage.tsx:18-20 | the message for each bound: the schema's default for `prepTime`, the two Bulgarian messages given for `cookTime` and `servings` |
| `AddRecipe.FormIssues` | client/src/pages/AddRecipePage.tsx:17-21 | a form is within bounds exactly when `prepTime` is absent or at least 0, `cookTime` is at least 1 and `servings` is at least 1; each issue is raised exactly when its bound fails |
| `AddRecipe.AddIngredient` | client/src/pages/AddRecipePage.tsx:104-106 | one blank row is appended; the earlier rows are unchanged |
| `AddRecipe.AddInstruction` | client/src/pages/AddRecipePage.tsx:120-122 | one blank step is appended; the earlier steps are unchanged |
| `AddRecipe.RemoveRow` | client/src/pages/AddRecipePage.tsx:108-112 | `removeIngredient`, and `removeInstruction` at lines 124-128: with more than one row, drops exactly row `index` and keeps the order of the rest; with one row, or an index out of range, nothing changes; a non-empty list stays non-empty |
| `AddRecipe.RemoveAfterAdd` | client/src/pages/AddRecipePage.tsx:104-128 | removing the row just added restores the rows from before |
| `AddRecipe.RemoveKeepsOthers` | client/src/pages/AddRecipePage.tsx:108-112 | a removal loses exactly the removed row, and the rest keep their order |
| `AddRecipe.WithField` | client/src/pages/AddRecipePage.tsx:116 | `{ ...ingredient, [field]: value }`: that field reads `value`; the other two are kept |
| `AddRecipe.UpdateIngredient` | client/src/pages/AddRecipePage.tsx:114-118 | same length; only field `f` of row `index` changes; every other row is unchanged |
| `AddRecipe.UpdateInstruction` | client/src/pages/AddRecipePage.tsx:130-134 | same length; step `index` now has the new text; every other step is unchanged |
| `AddRecipe.IsCompleteIngredient` | client/src/pages/AddRecipePage.tsx:63-65 | the row filter `ing.name.trim() && ing.amount.trim()`: name and amount both non-blank |
| `AddRecipe.IsCompleteInstruction` | client/src/pages/AddRecipePage.tsx:66-68 | the step filter `inst.text.trim()`: text non-blank |
| `AddRecipe.CompleteIngredientIff` | client/src/pages/AddRecipePage.tsx:63-65 | a row is kept exactly when its name and its amount each contain a character that is not white space; the unit never matters |
| `AddRecipe.PrepareSubmission` | client/src/pages/AddRecipePage.tsx:61-84 | fails with the ingredient error exactly when no row is complete; fails with the instruction error exactly when some ingredient is complete and no step is; otherwise the payload is the form data with its lists replaced by `Filter` of the rows and steps by completeness: exactly the complete ones, in order, each as often as in the form (`SubmissionKeepsRowCounts`), neither list empty |
| `AddRecipe.SubmitErrorMessage` | client/src/pages/AddRecipePage.tsx:70-75 | the two messages the submission fails with: no ingredient left, no step left |
| `AddRecipe.SubmissionKeepsRowCounts` | client/src/pages/AddRecipePage.tsx:63-68 | a submitted payload holds each complete row exactly as many times as the form does, duplicates included, and no incomplete row; likewise for steps |
| `AddRecipe.FreshFormIsRejected` | client/src/pages/AddRecipePage.tsx:38-72 | submitting the rows the page starts with fails with the ingredient error |
| `AddRecipe.RecipeFormRows.constructor` | client/src/pages/AddRecipePage.tsx:38-43 | both lists start as a single blank row |
| `AddRecipe.RecipeFormRows.OnAddIngredient` | client/src/pages/AddRecipePage.tsx:104-106 | the ingredient state becomes `AddIngredient` of the old one; the steps are untouched; both lists stay non-empty |
| `AddRecipe.RecipeFormRows.OnRemoveIngredient` | client/src/pages/AddRecipePage.tsx:108-112 | the ingredient state becomes `RemoveRow` of the old one; both lists stay non-empty |
| `AddRecipe.RecipeFormRows.OnUpdateIngredient` | client/src/pages/AddRecipePage.tsx:114-118 | only field `f` of row `index` changes |
| `AddRecipe.RecipeFormRows.OnAddInstruction` | client/src/pages/AddRecipePage.tsx:120-122 | the step state becomes `AddInstruction` of the old one; the ingredients are untouched |
| `AddRecipe.RecipeFormRows.OnRemoveInstruction` | client/src/pages/AddRecipePage.tsx:124-128 | the step state becomes `RemoveRow` of the old one; both lists stay non-empty |
| `AddRecipe.RecipeFormRows.OnUpdateInstruction` | client/src/pages/AddRecipePage.tsx:130-134 | only step `index` changes |
| `AddRecipe.RecipeFormRows.OnSubmitted` | client/src/pages/AddRecipePage.tsx:92-93 | after a successful submission both lists go back to a single blank row |
| `Resolvers.TranslateToBulgarian` | server/graphql/resolvers.ts:8-24 | the translated text when the response carries a non-empty one; otherwise, including on any failure, the input unchanged; it never fails |
| `Resolvers.IndexOf` | server/graphql/resolvers.ts:45 | the first position of the character, with no earlier occurrence |
| `Resolvers.StripTags` | server/graphql/resolvers.ts:45-46 | `replace(/<[^>]*>/g, '')`: scanning left to right, each `<` with a `>` after it starts a tag running to the first such `>`, which is removed; the result is never longer than the input. `StripTagsFirstTag` and `StripTagsKeepsTagFree` together determine the result on every input |
| `Resolvers.StripTagsSubsequence` | server/graphql/resolvers.ts:45-46 | tag stripping only deletes characters; the result is a subsequence of the input |
| `Resolvers.StripTagsChars` | server/graphql/resolvers.ts:45-46 | every character of the stripped text occurs in the input |
| `Resolvers.StripTagsIsTagFree` | server/graphql/resolvers.ts:45-46 | the stripped text has no `<` followed anywhere later by a `>` |
| `Resolvers.StripTagsKeepsTagFree` | server/graphql/resolvers.ts:45-46 | text with no such `<` is left unchanged |
| `Resolvers.StripTagsWithoutLt` | server/graphql/resolvers.ts:45-46 | text containing no `<` is left unchanged |
| `Resolvers.StripTagsIdempotent` | server/graphql/resolvers.ts:81-82 | stripping twice equals stripping once |
| `Resolvers.StripTagsFirstTag` | server/graphql/resolvers.ts:45-46 | the text before the first tag is kept, the tag from `<` to the first `>` after it is removed, and the rest is stripped in turn: `a<t>b` becomes `a` followed by `b` stripped, when `a` has no `<` and `t` has no `>` |
| `Resolvers.StripTagsBold` | server/graphql/resolvers.ts:45-46 | text without `<` wrapped in `<b>…</b>` comes out as that text, so `<b>Hello</b>` becomes `Hello` |
| `Resolvers.CleanText` | server/graphql/resolvers.ts:45-46 | a missing summary or instructions becomes `''`; a present one is stripped |
| `Resolvers.MapIngredient` | server/graphql/resolvers.ts:50-55 | `id` and `amount` copied verbatim; `name` translated; `unit` defaulted to `''` and then translated |
| `Resolvers.MapRecipe` | server/graphql/resolvers.ts:41-57 | `id`, `image`, `readyInMinutes` and `servings` copied verbatim; title and the cleaned summary and instructions translated; one ingredient per upstream ingredient, in order, and none when the list is missing |
| `Resolvers.SearchSpoonacularRecipes` | server/graphql/resolvers.ts:28-65 | fails exactly when the upstream search fails, with exactly 'Failed to fetch recipes from Spoonacular'; otherwise one mapped record per upstream result, in order |
| `Resolvers.GetSpoonacularRecipe` | server/graphql/resolvers.ts:67-98 | fails exactly when the upstream fetch fails, with exactly 'Failed to fetch recipe from Spoonacular'; otherwise the mapped record |
| `Resolvers.MapRecipeOffline` | server/graphql/resolvers.ts:19-23 | with every translation failing, a record keeps its original wording: the title and ingredient names as sent, the summary and instructions only stripped, units only defaulted |
| `Resolvers.FailedUnitTranslationKeepsUnit` | server/graphql/resolvers.ts:54 | a failed translation of one unit leaves that unit as sent, while the search still returns every record |
| `Resolvers.SearchExample` | server/test/graphql.test.ts:16-61 | one upstream result with id 1 and a translator that always answers 'Тестов превод' give one record, with id 1 and that title |
| `Resolvers.SearchFailureExample` | server/test/graphql.test.ts:63-69 | a failing upstream search gives exactly 'Failed to fetch recipes from Spoonacular' |

## Left out

- Asynchrony. The `async` wrappers and `Promise.all` are left out: every operation is modelled as synchronous. What remains of `Promise.all` is that output order equals input order.
- HTTP. The calls to the recipe service and the translation service are left out, and so are the API key, URL building and query parameters. The upstream fetch and the translator are function parameters.
- Determinism of the services. The translator is modelled as a deterministic function: the same text always gets the same answer. One real call per field cannot be told apart from another in this model.
- `Resolvers.SearchSpoonacularRecipes`: only the fetch itself can fail. A response body without a `results` array would throw inside the `try` and give the same error message. That case is not modelled, because the body is typed data here.
- Malformed upstream records are not modelled. The recipe `title` and ingredient `name` are taken to be strings, and `summary` and `instructions` to be strings when present.
- `Storage.MemStorage.constructor`: the 10 sample recipes of the production store (server/storage.ts:54-381) are a parameter. Their contents do not matter to any operation. With those 10 samples, the recipe counter starts at 11.
- `JsString.LowerChar`: covers Latin A-Z and the Cyrillic capitals U+0400-U+042F. Every other character is treated as its own lower case. Unicode case mappings outside these ranges, and mappings that change a string's length, are not modelled.
- `JsString.IsWhiteSpace`: lists the ECMAScript white space and line terminator characters explicitly. No general Unicode category lookup is modelled.
- Float amounts. The upstream ingredient `amount` is a JavaScript number. It is modelled as a `real` that is copied without change, and no arithmetic is done on it.
- Integer width. JavaScript numbers are doubles, but ids, times and servings are unbounded integers here. The id counters would need 2^53 inserts to lose precision.
- `AddRecipe.UpdateIngredient`, `AddRecipe.UpdateInstruction`, `AddRecipe.RecipeFormRows.OnUpdateIngredient` and `AddRecipe.RecipeFormRows.OnUpdateInstruction` require the index to be in range. The page only passes indices of rows it has rendered. In JavaScript, `index == length` would append a partial row holding only the edited field, and a larger index would also leave holes before it. Neither case is modelled.
- `AddRecipe.FormIssues`: covers the three tightened numeric bounds. The `z.coerce` string-to-number conversion is not modelled (the fields are integers here, so `NaN` cannot arise). The required-field checks the form inherits are in `Schema.ParseInsertRecipe`.
- `Schema.ParseInsertRecipe`, `Schema.ParseInsertContact`, `Schema.ParseInsertUser`: model presence and absence of each field, and they treat null like absence for required fields. Type checks on present values are not modelled, because the payload is typed here. Unknown keys other than `id` are not modelled.
- `Storage.Merge`: a key that is present in the update with the value `undefined` would overwrite the field with `undefined`. That case is not modelled. Only absent keys (`None`) and supplied values, including null for the nullable columns, are modelled.
- `Storage.Merge`: only the `Partial<InsertRecipe>` type keeps `id` out of an update. An update object that carries an `id` key at run time would overwrite the record's id through the spread (server/storage.ts:412). Patches here have no id field, so "the id is kept" holds for typed callers only.
- `Storage.MemStorage.CreateUser` and `Storage.MemStorage.GetUserByUsername`: the store does not make usernames unique, and the model does not either. The `unique()` constraint on the `users` table binds only a database, which this project does not model.
- The React rendering, toasts, query-cache invalidation and routing around the form are not modelled. The class `AddRecipe.RecipeFormRows` stands in for the two pieces of row state and their setters.
- The GraphQL type definitions and the server start-up are not modelled. They declare mutations that have no resolver.
- Strings are sequences of Unicode scalar values (`char`). JavaScript strings are sequences of UTF-16 code units, so lone surrogates, and lengths and positions counted in code units, are not modelled.
- The `console.error` logging in the resolvers (server/graphql/resolvers.ts:21, 62, 95) is left out: it has no effect on any result.
- Object identity. The store returns the very objects it holds (server/storage.ts:396, 403, 414), so a caller that mutates a returned record mutates the stored one. Records are values here, so this aliasing is not modelled.
- The production instance `storage = new MemStorage()` (server/storage.ts:470) is the constructor applied to the samples.
