/** The recipe submission form: the row lists for ingredients and
    instructions that the page keeps in its state, the helpers that grow,
    shrink and edit them, the numeric bounds of the form schema, and the
    clean-up done when the form is submitted. */
module AddRecipe {
  import opened Wrappers
  import opened Sequences
  import opened JsString
  import opened Schema

  /** The row a new ingredient line starts as. */
  const BlankIngredient := Ingredient("", "", "")

  /** The row a new instruction line starts as. */
  const BlankInstruction := Instruction("")

  // ---------------------------------------------------------------------------
  // Form schema: the insert schema with three numeric fields tightened.

  datatype FormIssue = PrepTimeNegative | CookTimeTooSmall | ServingsTooSmall

  /** The messages the form shows; `prepTime` uses the schema's default one. */
  function IssueMessage(i: FormIssue): string {
    match i
    case PrepTimeNegative => "Number must be greater than or equal to 0"
    case CookTimeTooSmall => "Времето за готвене е задължително"
    case ServingsTooSmall => "Броят порции трябва да бъде поне 1"
  }

  /** The bound violations of a form: `prepTime` optional but at least 0,
      `cookTime` and `servings` at least 1. */
  function FormIssues(d: InsertRecipe): (issues: set<FormIssue>)
    ensures PrepTimeNegative in issues <==> d.prepTime.Some? && d.prepTime.value < 0
    ensures CookTimeTooSmall in issues <==> d.cookTime < 1
    ensures ServingsTooSmall in issues <==> d.servings < 1
    ensures issues == {} <==>
      (d.prepTime.None? || d.prepTime.value >= 0) && d.cookTime >= 1 && d.servings >= 1
  {
    (if d.prepTime.Some? && d.prepTime.value < 0 then {PrepTimeNegative} else {})
    + (if d.cookTime < 1 then {CookTimeTooSmall} else {})
    + (if d.servings < 1 then {ServingsTooSmall} else {})
  }

  // ---------------------------------------------------------------------------
  // Row helpers.

  /** `addIngredient`: one blank row at the end, the others untouched. */
  function AddIngredient(rows: seq<Ingredient>): (r: seq<Ingredient>)
    ensures |r| == |rows| + 1
    ensures r[..|rows|] == rows && r[|rows|] == BlankIngredient
  {
    rows + [BlankIngredient]
  }

  /** `addInstruction`: one blank step at the end, the others untouched. */
  function AddInstruction(rows: seq<Instruction>): (r: seq<Instruction>)
    ensures |r| == |rows| + 1
    ensures r[..|rows|] == rows && r[|rows|] == BlankInstruction
  {
    rows + [BlankInstruction]
  }

  /** `removeIngredient` and `removeInstruction`: with more than one row,
      drops the row at `index` (none if it is out of range); the last
      remaining row is never removed. */
  function RemoveRow<T>(rows: seq<T>, index: int): (r: seq<T>)
    ensures |rows| >= 1 ==> |r| >= 1
    ensures |rows| <= 1 || !(0 <= index < |rows|) ==> r == rows
    ensures |rows| > 1 && 0 <= index < |rows| ==>
      |r| == |rows| - 1 && forall j :: 0 <= j < |r| ==> r[j] == if j < index then rows[j] else rows[j + 1]
  {
    if |rows| > 1 then RemoveIndex(rows, index) else rows
  }

  /** Removing the row just added gives back the rows from before. */
  lemma RemoveAfterAdd(ings: seq<Ingredient>, insts: seq<Instruction>)
    requires |ings| >= 1 && |insts| >= 1
    ensures RemoveRow(AddIngredient(ings), |ings|) == ings
    ensures RemoveRow(AddInstruction(insts), |insts|) == insts
  {
  }

  /** A removed row leaves the others in order, nothing added or lost: the form's
      own statement of `RemoveIndexIsSubsequence`, under the guard of `RemoveRow`. */
  lemma RemoveKeepsOthers<T>(rows: seq<T>, index: int)
    requires |rows| > 1 && 0 <= index < |rows|
    ensures multiset(RemoveRow(rows, index)) + multiset{rows[index]} == multiset(rows)
    ensures IsSubsequence(RemoveRow(rows, index), rows)
  {
    RemoveIndexIsSubsequence(rows, index);
  }

  datatype IngredientField = Amount | Unit | Name

  function FieldValue(ing: Ingredient, f: IngredientField): string {
    match f
    case Amount => ing.amount
    case Unit => ing.unit
    case Name => ing.name
  }

  /** `{ ...ingredient, [field]: value }`: that field reads `value`, the others are kept. */
  function WithField(ing: Ingredient, f: IngredientField, value: string): (r: Ingredient)
    ensures FieldValue(r, f) == value
    ensures forall g :: g != f ==> FieldValue(r, g) == FieldValue(ing, g)
  {
    match f
    case Amount => ing.(amount := value)
    case Unit => ing.(unit := value)
    case Name => ing.(name := value)
  }

  /** `updateIngredient`: copies the rows, then overwrites one field of row `index` in the copy. */
  method UpdateIngredient(rows: seq<Ingredient>, index: nat, f: IngredientField, value: string)
    returns (r: seq<Ingredient>)
    requires index < |rows|
    ensures |r| == |rows|
    ensures FieldValue(r[index], f) == value
    ensures forall g :: g != f ==> FieldValue(r[index], g) == FieldValue(rows[index], g)
    ensures forall j :: 0 <= j < |rows| && j != index ==> r[j] == rows[j]
  {
    var copy := new Ingredient[|rows|](j requires 0 <= j < |rows| => rows[j]);
    copy[index] := WithField(copy[index], f, value);
    r := copy[..];
  }

  /** `updateInstruction`: copies the steps, then replaces step `index` in the copy. */
  method UpdateInstruction(rows: seq<Instruction>, index: nat, value: string)
    returns (r: seq<Instruction>)
    requires index < |rows|
    ensures |r| == |rows|
    ensures r[index].text == value
    ensures forall j :: 0 <= j < |rows| && j != index ==> r[j] == rows[j]
  {
    var copy := new Instruction[|rows|](j requires 0 <= j < |rows| => rows[j]);
    copy[index] := Instruction(value);
    r := copy[..];
  }

  // ---------------------------------------------------------------------------
  // Submission.

  /** Kept on submit: `name` and `amount` non-blank after trimming; `unit` may be blank. */
  predicate IsCompleteIngredient(ing: Ingredient) {
    !IsBlank(ing.name) && !IsBlank(ing.amount)
  }

  /** Kept on submit: `text` non-blank after trimming. */
  predicate IsCompleteInstruction(inst: Instruction) {
    !IsBlank(inst.text)
  }

  /** An ingredient is kept exactly when its name and its amount each hold a
      character that is not white space, whatever its unit. */
  lemma CompleteIngredientIff(ing: Ingredient, unit: string)
    ensures IsCompleteIngredient(ing) <==>
      (exists i :: 0 <= i < |ing.name| && !IsWhiteSpace(ing.name[i]))
      && (exists i :: 0 <= i < |ing.amount| && !IsWhiteSpace(ing.amount[i]))
    ensures IsCompleteIngredient(ing.(unit := unit)) == IsCompleteIngredient(ing)
  {
    BlankIffAllWhiteSpace(ing.name);
    BlankIffAllWhiteSpace(ing.amount);
  }

  datatype SubmitError = NoIngredients | NoInstructions

  /** The error each failed submission reports. */
  function SubmitErrorMessage(e: SubmitError): string {
    match e
    case NoIngredients => "Добавете поне една съставка"
    case NoInstructions => "Добавете поне една стъпка за приготвяне"
  }

  /** `mutationFn`: drops incomplete rows, fails when no ingredient or (then)
      no instruction is left, and otherwise yields the payload that is posted:
      the form data with its lists replaced by the kept rows. A failure posts nothing. */
  function PrepareSubmission(data: InsertRecipe, ings: seq<Ingredient>, insts: seq<Instruction>)
    : (r: Result<InsertRecipe, SubmitError>)
    ensures r == Failure(NoIngredients) <==> forall i :: 0 <= i < |ings| ==> !IsCompleteIngredient(ings[i])
    ensures r == Failure(NoInstructions) <==>
      (exists i :: 0 <= i < |ings| && IsCompleteIngredient(ings[i]))
      && forall j :: 0 <= j < |insts| ==> !IsCompleteInstruction(insts[j])
    ensures r.Success? ==> r.value == data.(ingredients := r.value.ingredients, instructions := r.value.instructions)
    ensures r.Success? ==> r.value.ingredients != [] && r.value.instructions != []
    ensures r.Success? ==> IsSubsequence(r.value.ingredients, ings) && IsSubsequence(r.value.instructions, insts)
    ensures r.Success? ==>
      (forall i :: 0 <= i < |r.value.ingredients| ==> IsCompleteIngredient(r.value.ingredients[i]))
      && (forall i :: 0 <= i < |ings| && IsCompleteIngredient(ings[i]) ==> ings[i] in r.value.ingredients)
    ensures r.Success? ==>
      (forall j :: 0 <= j < |r.value.instructions| ==> IsCompleteInstruction(r.value.instructions[j]))
      && (forall j :: 0 <= j < |insts| && IsCompleteInstruction(insts[j]) ==> insts[j] in r.value.instructions)
    ensures r.Success? ==>
      r.value.ingredients == Filter(ings, IsCompleteIngredient)
      && r.value.instructions == Filter(insts, IsCompleteInstruction)
  {
    var validIngredients := Filter(ings, IsCompleteIngredient);
    var validInstructions := Filter(insts, IsCompleteInstruction);
    FilterEmptyIff(ings, IsCompleteIngredient);
    FilterEmptyIff(insts, IsCompleteInstruction);
    if |validIngredients| == 0 then Failure(NoIngredients)
    else if |validInstructions| == 0 then Failure(NoInstructions)
    else Success(data.(ingredients := validIngredients, instructions := validInstructions))
  }

  /** A submitted payload holds each complete row exactly as many times as the
      form does, and no incomplete row; likewise for the steps. */
  lemma SubmissionKeepsRowCounts(data: InsertRecipe, ings: seq<Ingredient>, insts: seq<Instruction>,
                                 ing: Ingredient, inst: Instruction)
    requires PrepareSubmission(data, ings, insts).Success?
    ensures multiset(PrepareSubmission(data, ings, insts).value.ingredients)[ing]
         == if IsCompleteIngredient(ing) then multiset(ings)[ing] else 0
    ensures multiset(PrepareSubmission(data, ings, insts).value.instructions)[inst]
         == if IsCompleteInstruction(inst) then multiset(insts)[inst] else 0
  {
    FilterMultiplicity(ings, IsCompleteIngredient, ing);
    FilterMultiplicity(insts, IsCompleteInstruction, inst);
  }

  /** Submitting the form as it first appears, one blank row in each list, fails on the ingredients. */
  lemma FreshFormIsRejected(data: InsertRecipe)
    ensures PrepareSubmission(data, [BlankIngredient], [BlankInstruction]) == Failure(NoIngredients)
  {
    assert !IsCompleteIngredient(BlankIngredient);
  }

  /** The page's row state: both lists start with one blank row and, since
      removal spares the last row, are never empty. */
  class RecipeFormRows {
    var ingredients: seq<Ingredient>
    var instructions: seq<Instruction>

    ghost predicate Valid()
      reads this
    {
      |ingredients| >= 1 && |instructions| >= 1
    }

    constructor ()
      ensures Valid()
      ensures ingredients == [BlankIngredient] && instructions == [BlankInstruction]
    {
      ingredients := [BlankIngredient];
      instructions := [BlankInstruction];
    }

    method OnAddIngredient()
      requires Valid()
      modifies this
      ensures Valid()
      ensures ingredients == AddIngredient(old(ingredients)) && instructions == old(instructions)
    {
      ingredients := AddIngredient(ingredients);
    }

    method OnRemoveIngredient(index: int)
      requires Valid()
      modifies this
      ensures Valid()
      ensures ingredients == RemoveRow(old(ingredients), index) && instructions == old(instructions)
    {
      ingredients := RemoveRow(ingredients, index);
    }

    method OnUpdateIngredient(index: nat, f: IngredientField, value: string)
      requires Valid() && index < |ingredients|
      modifies this
      ensures Valid()
      ensures |ingredients| == |old(ingredients)| && FieldValue(ingredients[index], f) == value
      ensures forall g :: g != f ==> FieldValue(ingredients[index], g) == FieldValue(old(ingredients)[index], g)
      ensures forall j :: 0 <= j < |ingredients| && j != index ==> ingredients[j] == old(ingredients)[j]
      ensures instructions == old(instructions)
    {
      ingredients := UpdateIngredient(ingredients, index, f, value);
    }

    method OnAddInstruction()
      requires Valid()
      modifies this
      ensures Valid()
      ensures instructions == AddInstruction(old(instructions)) && ingredients == old(ingredients)
    {
      instructions := AddInstruction(instructions);
    }

    method OnRemoveInstruction(index: int)
      requires Valid()
      modifies this
      ensures Valid()
      ensures instructions == RemoveRow(old(instructions), index) && ingredients == old(ingredients)
    {
      instructions := RemoveRow(instructions, index);
    }

    method OnUpdateInstruction(index: nat, value: string)
      requires Valid() && index < |instructions|
      modifies this
      ensures Valid()
      ensures |instructions| == |old(instructions)| && instructions[index].text == value
      ensures forall j :: 0 <= j < |instructions| && j != index ==> instructions[j] == old(instructions)[j]
      ensures ingredients == old(ingredients)
    {
      instructions := UpdateInstruction(instructions, index, value);
    }

    /** `onSuccess`: both lists go back to a single blank row. */
    method OnSubmitted()
      modifies this
      ensures Valid()
      ensures ingredients == [BlankIngredient] && instructions == [BlankInstruction]
    {
      ingredients := [BlankIngredient];
      instructions := [BlankInstruction];
    }
  }
}
