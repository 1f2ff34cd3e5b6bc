/** The GraphQL resolvers over the external recipe service: each upstream
    record is normalised (markup stripped, missing text defaulted) and its
    human-readable fields are machine-translated, with the original text kept
    whenever a translation is unavailable. The HTTP calls are parameters:
    an upstream fetch and a translator, each an oracle. */
module Resolvers {
  import opened Wrappers
  import opened Sequences

  // ---------------------------------------------------------------------------
  // Translation.

  /** What one translation request produced: failure (any thrown error), or a
      response body whose `responseData.translatedText` may be absent. */
  datatype TranslationResponse = TranslationFailed | Responded(translatedText: Option<string>)

  /** `translateToBulgarian`: the translated text when the response carries a
      non-empty one, and the input unchanged otherwise; it never fails. */
  function TranslateToBulgarian(translator: string -> TranslationResponse, text: string): (r: string)
    ensures
      var resp := translator(text);
      if resp.Responded? && resp.translatedText.Some? && resp.translatedText.value != ""
      then r == resp.translatedText.value
      else r == text
  {
    match translator(text)
    case Responded(Some(t)) => if t != "" then t else text
    case _ => text
  }

  // ---------------------------------------------------------------------------
  // Markup removal: `text.replace(/<[^>]*>/g, '')`.

  /** The index of the first `c` in `s`. */
  function IndexOf(s: string, c: char): (k: nat)
    requires c in s
    ensures k < |s| && s[k] == c && c !in s[..k]
  {
    if s[0] == c then 0 else 1 + IndexOf(s[1..], c)
  }

  /** Scanning left to right, every `<` that has a `>` somewhere after it starts
      a tag running to the first such `>`, and the tag is removed; a `<` with no
      `>` after it is kept, as is every other character. */
  function StripTags(s: string): (r: string)
    ensures |r| <= |s|
    decreases |s|
  {
    if s == [] then []
    else if s[0] == '<' && '>' in s[1..] then StripTags(s[IndexOf(s, '>') + 1..])
    else [s[0]] + StripTags(s[1..])
  }

  /** No `<` is followed, anywhere later, by a `>`: nothing the expression would match. */
  ghost predicate TagFree(s: string) {
    s == [] || ((s[0] == '<' ==> '>' !in s[1..]) && TagFree(s[1..]))
  }

  /** Stripping only removes characters: the result is a subsequence of the input. */
  lemma {:induction false} StripTagsSubsequence(s: string)
    ensures IsSubsequence(StripTags(s), s)
    decreases |s|
  {
    if s == [] {
    } else if s[0] == '<' && '>' in s[1..] {
      var k := IndexOf(s, '>');
      StripTagsSubsequence(s[k + 1..]);
      SubsequenceOfSuffix(StripTags(s[k + 1..]), s, k + 1);
    } else {
      StripTagsSubsequence(s[1..]);
    }
  }

  lemma {:induction false} SubsequenceOfSuffix(a: string, s: string, n: nat)
    requires n <= |s| && IsSubsequence(a, s[n..])
    ensures IsSubsequence(a, s)
    decreases n
  {
    if n > 0 {
      assert s[1..][n - 1..] == s[n..];
      SubsequenceOfSuffix(a, s[1..], n - 1);
    }
  }

  /** Every character of the result occurs in the input. */
  lemma {:induction false} StripTagsChars(s: string, c: char)
    requires c in StripTags(s)
    ensures c in s
    decreases |s|
  {
    if s[0] == '<' && '>' in s[1..] {
      var k := IndexOf(s, '>');
      StripTagsChars(s[k + 1..], c);
      assert s[k + 1..] == s[1..][k..];
    } else if c != s[0] {
      StripTagsChars(s[1..], c);
    }
  }

  /** The result contains no tag. */
  lemma {:induction false} StripTagsIsTagFree(s: string)
    ensures TagFree(StripTags(s))
    decreases |s|
  {
    if s == [] {
    } else if s[0] == '<' && '>' in s[1..] {
      StripTagsIsTagFree(s[IndexOf(s, '>') + 1..]);
    } else {
      StripTagsIsTagFree(s[1..]);
      var r := StripTags(s);
      assert r[1..] == StripTags(s[1..]);
      if s[0] == '<' && '>' in r[1..] {
        StripTagsChars(s[1..], '>');
      }
    }
  }

  /** Text without tags is left as it is. */
  lemma {:induction false} StripTagsKeepsTagFree(s: string)
    requires TagFree(s)
    ensures StripTags(s) == s
    decreases |s|
  {
    if s != [] {
      StripTagsKeepsTagFree(s[1..]);
    }
  }

  /** Text without any `<` is left as it is. */
  lemma {:induction false} StripTagsWithoutLt(s: string)
    requires '<' !in s
    ensures StripTags(s) == s
    decreases |s|
  {
    if s != [] {
      StripTagsWithoutLt(s[1..]);
    }
  }

  /** Stripping twice is stripping once. */
  lemma StripTagsIdempotent(s: string)
    ensures StripTags(StripTags(s)) == StripTags(s)
  {
    StripTagsIsTagFree(s);
    StripTagsKeepsTagFree(StripTags(s));
  }

  /** The first `c` after a stretch without `c` is at the end of that stretch. */
  lemma {:induction false} IndexOfAfter(p: string, c: char, rest: string)
    requires c !in p
    ensures IndexOf(p + [c] + rest, c) == |p|
    decreases |p|
  {
    if p != [] {
      assert (p + [c] + rest)[1..] == p[1..] + [c] + rest;
      IndexOfAfter(p[1..], c, rest);
    }
  }

  /** The first tag goes and the text before it stays: with no `<` before it and
      no `>` inside it, `a<t>b` strips to `a` followed by `b` stripped. With
      `StripTagsKeepsTagFree` this determines the result on every input, since
      in text that is not `TagFree` the first `<` with a later `>` starts a tag. */
  lemma {:induction false} StripTagsFirstTag(a: string, t: string, b: string)
    requires '<' !in a && '>' !in t
    ensures StripTags(a + ['<'] + t + ['>'] + b) == a + StripTags(b)
    decreases |a|
  {
    var s := a + ['<'] + t + ['>'] + b;
    if a == [] {
      assert s == ['<'] + t + ['>'] + b;
      assert s[1..] == t + ['>'] + b;
      assert '>' in s[1..] by { assert s[1..][|t|] == '>'; }
      IndexOfAfter(['<'] + t, '>', b);
      assert s == (['<'] + t) + ['>'] + b;
      assert s[|t| + 2..] == b;
    } else {
      assert s[0] == a[0];
      assert s[1..] == a[1..] + ['<'] + t + ['>'] + b;
      StripTagsFirstTag(a[1..], t, b);
      assert a == [a[0]] + a[1..];
    }
  }

  /** Text wrapped in a bold element keeps the text: `<b>Hello</b>` becomes `Hello`. */
  lemma StripTagsBold(w: string)
    requires '<' !in w
    ensures StripTags("<b>" + w + "</b>") == w
  {
    var inner := w + "</b>";
    assert inner == w + ['<'] + "/b" + ['>'] + [];
    StripTagsFirstTag(w, "/b", []);
    assert StripTags([]) == [];
    assert StripTags(inner) == w;
    assert "<b>" + w + "</b>" == [] + ['<'] + "b" + ['>'] + inner;
    StripTagsFirstTag([], "b", inner);
  }

  /** `text?.replace(/<[^>]*>/g, '') || ''`: a missing text becomes empty. */
  function CleanText(text: Option<string>): (r: string)
    ensures text.None? ==> r == ""
    ensures text.Some? ==> r == StripTags(text.value)
  {
    match text
    case None => ""
    case Some(t) => StripTags(t)
  }

  // ---------------------------------------------------------------------------
  // Records.

  /** An ingredient as the upstream service sends it; `amount` is a float, copied opaquely. */
  datatype UpstreamIngredient = UpstreamIngredient(id: int, name: string, amount: real, unit: Option<string>)

  /** A recipe as the upstream service sends it; absent fields are `None`. */
  datatype UpstreamRecipe = UpstreamRecipe(
    id: int,
    title: string,
    image: Option<string>,
    summary: Option<string>,
    instructions: Option<string>,
    readyInMinutes: Option<int>,
    servings: Option<int>,
    extendedIngredients: Option<seq<UpstreamIngredient>>)

  datatype ExternalIngredient = ExternalIngredient(id: int, name: string, amount: real, unit: string)

  /** The `SpoonacularRecipe` record the resolvers return. */
  datatype ExternalRecipe = ExternalRecipe(
    id: int,
    title: string,
    image: Option<string>,
    summary: string,
    instructions: string,
    readyInMinutes: Option<int>,
    servings: Option<int>,
    ingredients: seq<ExternalIngredient>)

  /** One ingredient: `id` and `amount` verbatim, `name` and the defaulted `unit` translated. */
  function MapIngredient(translator: string -> TranslationResponse, ing: UpstreamIngredient): (r: ExternalIngredient)
    ensures r.id == ing.id && r.amount == ing.amount
    ensures r.name == TranslateToBulgarian(translator, ing.name)
    ensures r.unit == TranslateToBulgarian(translator, ing.unit.GetOr(""))
  {
    ExternalIngredient(ing.id, TranslateToBulgarian(translator, ing.name), ing.amount,
                       TranslateToBulgarian(translator, ing.unit.GetOr("")))
  }

  /** One recipe: `id`, `image`, `readyInMinutes` and `servings` verbatim; the
      title, the cleaned summary and instructions translated; one output
      ingredient per upstream ingredient, in order, none when the list is missing. */
  function MapRecipe(translator: string -> TranslationResponse, rec: UpstreamRecipe): (r: ExternalRecipe)
    ensures r.id == rec.id && r.image == rec.image
    ensures r.readyInMinutes == rec.readyInMinutes && r.servings == rec.servings
    ensures r.title == TranslateToBulgarian(translator, rec.title)
    ensures r.summary == TranslateToBulgarian(translator, CleanText(rec.summary))
    ensures r.instructions == TranslateToBulgarian(translator, CleanText(rec.instructions))
    ensures var ings := rec.extendedIngredients.GetOr([]);
      |r.ingredients| == |ings|
      && forall i :: 0 <= i < |ings| ==> r.ingredients[i] == MapIngredient(translator, ings[i])
  {
    var ings := rec.extendedIngredients.GetOr([]);
    ExternalRecipe(
      rec.id,
      TranslateToBulgarian(translator, rec.title),
      rec.image,
      TranslateToBulgarian(translator, CleanText(rec.summary)),
      TranslateToBulgarian(translator, CleanText(rec.instructions)),
      rec.readyInMinutes,
      rec.servings,
      seq(|ings|, i requires 0 <= i < |ings| => MapIngredient(translator, ings[i])))
  }

  /** The outcome of one upstream request: any error, or the parsed body. */
  datatype Upstream<T> = FetchFailed | Fetched(data: T)

  const SearchFailureMessage := "Failed to fetch recipes from Spoonacular"
  const RecipeFailureMessage := "Failed to fetch recipe from Spoonacular"

  /** `searchSpoonacularRecipes(query, number)`: one output record per upstream
      result, in order; if the upstream request fails, the whole call fails
      with the fixed message. */
  function SearchSpoonacularRecipes(
    query: string, number: int,
    search: (string, int) -> Upstream<seq<UpstreamRecipe>>,
    translator: string -> TranslationResponse)
    : (r: Result<seq<ExternalRecipe>, string>)
    ensures r.Failure? <==> search(query, number).FetchFailed?
    ensures r.Failure? ==> r.error == SearchFailureMessage
    ensures r.Success? ==>
      var results := search(query, number).data;
      |r.value| == |results| && forall i :: 0 <= i < |results| ==> r.value[i] == MapRecipe(translator, results[i])
  {
    match search(query, number)
    case FetchFailed => Failure(SearchFailureMessage)
    case Fetched(results) => Success(seq(|results|, i requires 0 <= i < |results| => MapRecipe(translator, results[i])))
  }

  /** `getSpoonacularRecipe(id)`: the mapped record, or the fixed failure message. */
  function GetSpoonacularRecipe(
    id: int,
    fetch: int -> Upstream<UpstreamRecipe>,
    translator: string -> TranslationResponse)
    : (r: Result<ExternalRecipe, string>)
    ensures r.Failure? <==> fetch(id).FetchFailed?
    ensures r.Failure? ==> r.error == RecipeFailureMessage
    ensures r.Success? ==> r.value == MapRecipe(translator, fetch(id).data)
  {
    match fetch(id)
    case FetchFailed => Failure(RecipeFailureMessage)
    case Fetched(rec) => Success(MapRecipe(translator, rec))
  }

  /** A translator whose every request fails. */
  function Offline(): string -> TranslationResponse {
    (text: string) => TranslationFailed
  }

  /** Without any working translation, a record is only normalised: text
      fields keep their original wording, with markup stripped from the summary
      and instructions. */
  lemma MapRecipeOffline(rec: UpstreamRecipe)
    ensures var r := MapRecipe(Offline(), rec);
      && r.title == rec.title
      && r.summary == CleanText(rec.summary) && r.instructions == CleanText(rec.instructions)
      && forall i :: 0 <= i < |r.ingredients| ==>
           r.ingredients[i].name == rec.extendedIngredients.value[i].name
           && r.ingredients[i].unit == rec.extendedIngredients.value[i].unit.GetOr("")
  {
  }

  /** A failed translation of one ingredient unit leaves that unit as sent
      and the search still returns every record. */
  lemma FailedUnitTranslationKeepsUnit(
    query: string, number: int,
    search: (string, int) -> Upstream<seq<UpstreamRecipe>>,
    translator: string -> TranslationResponse, i: nat, j: nat)
    requires search(query, number).Fetched?
    requires i < |search(query, number).data|
    requires var rec := search(query, number).data[i];
      rec.extendedIngredients.Some? && j < |rec.extendedIngredients.value|
      && translator(rec.extendedIngredients.value[j].unit.GetOr("")) == TranslationFailed
    ensures var r := SearchSpoonacularRecipes(query, number, search, translator);
      var rec := search(query, number).data[i];
      && r.Success? && |r.value| == |search(query, number).data|
      && r.value[i].ingredients[j].unit == rec.extendedIngredients.value[j].unit.GetOr("")
  {
  }

  /** The case of the resolver test: one upstream result with id 1, and a
      translator that answers every request with the same text. */
  lemma SearchExample()
    ensures
      var ing := UpstreamIngredient(1, "test ingredient", 100.0, Some("grams"));
      var rec := UpstreamRecipe(1, "Test Recipe", Some("https://example.com/image.jpg"), Some("Test summary"),
                                Some("Test instructions"), Some(30), Some(4), Some([ing]));
      var r := SearchSpoonacularRecipes("pasta", 1, (q: string, n: int) => Fetched([rec]),
                                        (t: string) => Responded(Some("Тестов превод")));
      r.Success? && |r.value| == 1 && r.value[0].id == 1 && r.value[0].title == "Тестов превод"
  {
  }

  /** The failure case of the resolver test. */
  lemma SearchFailureExample(translator: string -> TranslationResponse)
    ensures SearchSpoonacularRecipes("pasta", 1, (q: string, n: int) => FetchFailed, translator)
         == Failure("Failed to fetch recipes from Spoonacular")
  {
  }
}
