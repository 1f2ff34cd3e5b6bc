/** The record shapes of the catalog (the `recipes`, `contacts` and `users`
    tables) and their insert schemas, which accept a payload without `id`:
    ids are assigned only by the store. */
module Schema {
  import opened Wrappers

  /** One ingredient row: three strings; `amount` is text, not a number. */
  datatype Ingredient = Ingredient(amount: string, unit: string, name: string)

  /** One preparation step. */
  datatype Instruction = Instruction(text: string)

  /** A stored recipe. `prepTime` and `image` are nullable columns; the others are `notNull`. */
  datatype Recipe = Recipe(
    id: nat,
    title: string,
    description: string,
    category: string,
    prepTime: Option<int>,
    cookTime: int,
    servings: int,
    image: Option<string>,
    ingredients: seq<Ingredient>,
    instructions: seq<Instruction>)

  /** A recipe creation payload: every recipe column except `id`. */
  datatype InsertRecipe = InsertRecipe(
    title: string,
    description: string,
    category: string,
    prepTime: Option<int>,
    cookTime: int,
    servings: int,
    image: Option<string>,
    ingredients: seq<Ingredient>,
    instructions: seq<Instruction>)

  /** `Partial<InsertRecipe>`: each field may be absent (`None`); the nullable
      columns may also be supplied as null (`Some(None)`). */
  datatype RecipePatch = RecipePatch(
    title: Option<string>,
    description: Option<string>,
    category: Option<string>,
    prepTime: Option<Option<int>>,
    cookTime: Option<int>,
    servings: Option<int>,
    image: Option<Option<string>>,
    ingredients: Option<seq<Ingredient>>,
    instructions: Option<seq<Instruction>>)

  /** The patch that supplies no field. */
  const EmptyPatch := RecipePatch(None, None, None, None, None, None, None, None, None)

  datatype Contact = Contact(id: nat, name: string, email: string, subject: string, message: string)

  datatype InsertContact = InsertContact(name: string, email: string, subject: string, message: string)

  /** `username` is declared unique in the table; nothing in the store enforces it. */
  datatype User = User(id: nat, username: string, password: string)

  datatype InsertUser = InsertUser(username: string, password: string)

  /** `{ ...insert, id }`: the stored record for a payload under a given id. */
  function RecipeWithId(r: InsertRecipe, id: nat): (rec: Recipe)
    ensures rec.id == id
    ensures RecipePayload(rec) == r
  {
    Recipe(id, r.title, r.description, r.category, r.prepTime, r.cookTime, r.servings,
           r.image, r.ingredients, r.instructions)
  }

  /** Everything of a stored recipe but its id. */
  function RecipePayload(rec: Recipe): InsertRecipe {
    InsertRecipe(rec.title, rec.description, rec.category, rec.prepTime, rec.cookTime,
                 rec.servings, rec.image, rec.ingredients, rec.instructions)
  }

  /** A stored recipe is its payload plus its id, and nothing else. */
  lemma RecipeIsPayloadWithId(rec: Recipe)
    ensures RecipeWithId(RecipePayload(rec), rec.id) == rec
  {
  }

  function ContactWithId(c: InsertContact, id: nat): (rec: Contact)
    ensures rec.id == id
    ensures InsertContact(rec.name, rec.email, rec.subject, rec.message) == c
  {
    Contact(id, c.name, c.email, c.subject, c.message)
  }

  function UserWithId(u: InsertUser, id: nat): (rec: User)
    ensures rec.id == id
    ensures InsertUser(rec.username, rec.password) == u
  {
    User(id, u.username, u.password)
  }

  // ---------------------------------------------------------------------------
  // Insert schemas. A payload arrives as loosely shaped data: every key may be
  // absent (null and absent are the same here), and it may carry an `id`.

  datatype RecipeField =
    | TitleField | DescriptionField | CategoryField | CookTimeField | ServingsField
    | IngredientsField | InstructionsField

  datatype RawRecipe = RawRecipe(
    id: Option<int>,
    title: Option<string>,
    description: Option<string>,
    category: Option<string>,
    prepTime: Option<int>,
    cookTime: Option<int>,
    servings: Option<int>,
    image: Option<string>,
    ingredients: Option<seq<Ingredient>>,
    instructions: Option<seq<Instruction>>)

  /** The required (`notNull`) recipe columns missing from a payload, in column order. */
  function MissingRecipeFields(raw: RawRecipe): seq<RecipeField> {
    (if raw.title.None? then [TitleField] else [])
    + (if raw.description.None? then [DescriptionField] else [])
    + (if raw.category.None? then [CategoryField] else [])
    + (if raw.cookTime.None? then [CookTimeField] else [])
    + (if raw.servings.None? then [ServingsField] else [])
    + (if raw.ingredients.None? then [IngredientsField] else [])
    + (if raw.instructions.None? then [InstructionsField] else [])
  }

  /** `insertRecipeSchema`: accepts a payload exactly when every required
      column is present, ignores any `id` it carries, and otherwise reports
      every missing column. */
  function ParseInsertRecipe(raw: RawRecipe): (r: Result<InsertRecipe, seq<RecipeField>>)
    ensures r.Success? <==>
      raw.title.Some? && raw.description.Some? && raw.category.Some? && raw.cookTime.Some?
      && raw.servings.Some? && raw.ingredients.Some? && raw.instructions.Some?
    ensures r.Success? ==> r.value == InsertRecipe(
      raw.title.value, raw.description.value, raw.category.value, raw.prepTime,
      raw.cookTime.value, raw.servings.value, raw.image, raw.ingredients.value, raw.instructions.value)
    ensures r.Failure? ==> r.error != [] && r.error == MissingRecipeFields(raw)
  {
    if MissingRecipeFields(raw) != [] then Failure(MissingRecipeFields(raw))
    else Success(InsertRecipe(raw.title.value, raw.description.value, raw.category.value,
                              raw.prepTime, raw.cookTime.value, raw.servings.value, raw.image,
                              raw.ingredients.value, raw.instructions.value))
  }

  /** `id` is omitted from the insert schema: whatever id a payload carries is ignored. */
  lemma ParseInsertIgnoresId(raw: RawRecipe, c: RawContact, u: RawUser, id: Option<int>)
    ensures ParseInsertRecipe(raw.(id := id)) == ParseInsertRecipe(raw)
    ensures ParseInsertContact(c.(id := id)) == ParseInsertContact(c)
    ensures ParseInsertUser(u.(id := id)) == ParseInsertUser(u)
  {
  }

  /** The payload form of a typed insert record. */
  function RecipeToRaw(r: InsertRecipe, id: Option<int>): RawRecipe {
    RawRecipe(id, Some(r.title), Some(r.description), Some(r.category), r.prepTime,
              Some(r.cookTime), Some(r.servings), r.image, Some(r.ingredients), Some(r.instructions))
  }

  /** Every well-typed record passes the schema unchanged, whatever id it carries. */
  lemma ParseInsertRecipeRoundTrip(r: InsertRecipe, id: Option<int>)
    ensures ParseInsertRecipe(RecipeToRaw(r, id)) == Success(r)
  {
  }

  /** A stored recipe sent back as a payload parses to its own payload: the id is dropped. */
  lemma ParseStoredRecipeDropsId(rec: Recipe)
    ensures ParseInsertRecipe(RecipeToRaw(RecipePayload(rec), Some(rec.id))) == Success(RecipePayload(rec))
  {
  }

  datatype ContactField = NameField | EmailField | SubjectField | MessageField

  datatype RawContact = RawContact(
    id: Option<int>, name: Option<string>, email: Option<string>,
    subject: Option<string>, message: Option<string>)

  function MissingContactFields(raw: RawContact): seq<ContactField> {
    (if raw.name.None? then [NameField] else [])
    + (if raw.email.None? then [EmailField] else [])
    + (if raw.subject.None? then [SubjectField] else [])
    + (if raw.message.None? then [MessageField] else [])
  }

  /** `insertContactSchema`: all four text columns are required; any `id` is ignored. */
  function ParseInsertContact(raw: RawContact): (r: Result<InsertContact, seq<ContactField>>)
    ensures r.Success? <==> raw.name.Some? && raw.email.Some? && raw.subject.Some? && raw.message.Some?
    ensures r.Success? ==> r.value == InsertContact(raw.name.value, raw.email.value, raw.subject.value, raw.message.value)
    ensures r.Failure? ==> r.error != [] && r.error == MissingContactFields(raw)
  {
    if MissingContactFields(raw) != [] then Failure(MissingContactFields(raw))
    else Success(InsertContact(raw.name.value, raw.email.value, raw.subject.value, raw.message.value))
  }

  datatype UserField = UsernameField | PasswordField

  datatype RawUser = RawUser(id: Option<int>, username: Option<string>, password: Option<string>)

  /** `insertUserSchema`: picks exactly `username` and `password`, both required. */
  function ParseInsertUser(raw: RawUser): (r: Result<InsertUser, seq<UserField>>)
    ensures r.Success? <==> raw.username.Some? && raw.password.Some?
    ensures r.Success? ==> r.value == InsertUser(raw.username.value, raw.password.value)
    ensures r.Failure? ==> (r.error != []
      && (UsernameField in r.error <==> raw.username.None?)
      && (PasswordField in r.error <==> raw.password.None?))
  {
    var missing := (if raw.username.None? then [UsernameField] else [])
                   + (if raw.password.None? then [PasswordField] else []);
    if missing != [] then Failure(missing)
    else Success(InsertUser(raw.username.value, raw.password.value))
  }
}
