/** The recipe handlers of the legacy back end, src/controllers/recipeController.js:
    create with the caller as author, the optional conjunctive search filters,
    lookup by id, and update and delete matched on id AND author, so that a
    missing recipe and somebody else's recipe give the same 404. The update and
    delete cores are shared with the routes of src/routes/recipe.js. */
module LegacyRecipeController {
  import opened Wrappers
  import opened Text
  import opened Http
  import opened ObjectIds
  import opened LegacyRecipeModel

  const RecipeNotFound := "Recipe not found"
  const NotFoundOrUnauthorized := "Recipe not found or you are unauthorized"
  const Deleted := "Recipe deleted"
  /** The message of a `ValidationError`; Mongoose appends the failing paths,
      which the model does not spell out. */
  const ValidationFailed := "Recipe validation failed"
  const FetchFailed := "Server error fetching recipe"
  const ListFailed := "Server error fetching recipes"
  const UpdateFailed := "Server error updating recipe"
  const DeleteFailed := "Server error deleting recipe"

  /** The Recipe collection of the legacy database. */
  class RecipeStore {
    var recipes: map<Id, Recipe>

    constructor(init: map<Id, Recipe>)
      ensures recipes == init
    {
      recipes := init;
    }

    /** Every stored document passed its validators. */
    predicate Valid()
      reads this
    {
      forall id | id in recipes :: RecipeValid(recipes[id])
    }
  }

  /** A truthy query parameter. */
  predicate Present(p: Option<string>) {
    p.Some? && p.value != ""
  }

  /** `imageUrl ? [{ url: imageUrl }] : []`, with the `trim` setter of `url` applied. */
  function ImageUrlsOf(imageUrl: Field): (r: seq<string>)
    ensures |r| <= 1
    ensures r == [] <==> !Truthy(imageUrl)
    ensures r != [] ==> r[0] == Trim(imageUrl.s)
  {
    if Truthy(imageUrl) then [Trim(imageUrl.s)] else []
  }

  // ---------------------------------------------------------------------
  // createRecipe

  /** The document `new Recipe({...})` builds, or `None` when a path cannot be
      cast: an array given for the string path `instructions`. */
  function NewRecipe(input: RecipeInput, author: Id, now: int): (r: Option<Recipe>)
    ensures r.None? <==> input.instructions.Lines?
    ensures r.Some? ==> r.value.author == author && r.value.createdAt == now && r.value.updatedAt == now
  {
    match input.instructions
    case Lines(_) => None
    case Plain(f) =>
      Some(Recipe(TitleOf(input.title), DescriptionOf(input.description), ImageUrlsOf(input.imageUrl),
                  IngredientsOf(input.ingredients.GetOr([])), TextOf(f), author, now, now))
  }

  /** Every ingredient of the body has a non-empty name and amount. */
  predicate IngredientsComplete(items: seq<IngredientInput>) {
    forall k :: 0 <= k < |items| ==> Truthy(items[k].name) && Truthy(items[k].amount)
  }

  lemma IngredientsOfValid(items: seq<IngredientInput>)
    ensures IngredientsValid(IngredientsOf(items)) <==> IngredientsComplete(items)
  {
    var r := IngredientsOf(items);
    assert forall k :: 0 <= k < |r| ==> r[k] == IngredientOf(items[k]);
  }

  /** The image array passes its validators exactly when a given URL matches. */
  lemma ImageUrlsOfValid(imageUrl: Field)
    ensures ImageUrlsValid(ImageUrlsOf(imageUrl)) <==> (Truthy(imageUrl) ==> UrlOk(Trim(imageUrl.s)))
  {
    if Truthy(imageUrl) && UrlOk(Trim(imageUrl.s)) {
      UrlOkShape(Trim(imageUrl.s));
    }
  }

  /** What a create body must carry for `save` to succeed: a title that is not
      blank, at most a matching image URL, a name and an amount for every
      ingredient and a non-empty instructions string. */
  predicate CreateAccepted(input: RecipeInput, author: Id) {
    && !AllSpace(TextOf(input.title))
    && (Truthy(input.imageUrl) ==> UrlOk(Trim(input.imageUrl.s)))
    && IngredientsComplete(input.ingredients.GetOr([]))
    && input.instructions.Plain? && Truthy(input.instructions.f)
    && author != ""
  }

  /** `save` succeeds on the built document exactly when the body meets
      `CreateAccepted`. */
  lemma CreateAcceptedIff(input: RecipeInput, author: Id, now: int)
    ensures (NewRecipe(input, author, now).Some? && RecipeValid(NewRecipe(input, author, now).value))
            <==> CreateAccepted(input, author)
  {
    IngredientsOfValid(input.ingredients.GetOr([]));
    ImageUrlsOfValid(input.imageUrl);
  }

  /** `createRecipe`: the caller becomes the author; a document the validators
      reject gives 400 with the validation message and stores nothing. */
  method CreateRecipe(db: RecipeStore, input: RecipeInput, user: Id, newId: Id, now: int) returns (r: Reply<Recipe>)
    requires newId !in db.recipes
    modifies db
    ensures var doc := NewRecipe(input, user, now);
            (doc.None? || !RecipeValid(doc.value)) ==> r == Failure(400, ValidationFailed) && db.recipes == old(db.recipes)
    ensures var doc := NewRecipe(input, user, now);
            doc.Some? && RecipeValid(doc.value) ==>
              db.recipes == old(db.recipes)[newId := doc.value] && r == Success(201, doc.value)
    ensures old(db.Valid()) ==> db.Valid()
  {
    var doc := NewRecipe(input, user, now);
    if doc.None? || !RecipeValid(doc.value) {
      return Failure(400, ValidationFailed);
    }
    db.recipes := db.recipes[newId := doc.value];
    r := Success(201, doc.value);
  }

  // ---------------------------------------------------------------------
  // getRecipes and getRecipeById

  /** The filter object: each field is set only when its parameter is truthy. */
  datatype Filter = Filter(title: Option<string>, ingredientName: Option<string>)

  function QueryFilter(title: Option<string>, ingredient: Option<string>): (f: Filter)
    ensures f.title.Some? <==> Present(title)
    ensures f.ingredientName.Some? <==> Present(ingredient)
    ensures f.title.Some? ==> f.title == title
    ensures f.ingredientName.Some? ==> f.ingredientName == ingredient
  {
    Filter(if Present(title) then title else None, if Present(ingredient) then ingredient else None)
  }

  /** Some ingredient name matches `pattern` under the regex test `re`. */
  predicate SomeIngredientMatches(r: Recipe, pattern: string, re: (string, string) -> bool) {
    exists k :: 0 <= k < |r.ingredients| && re(pattern, r.ingredients[k].name)
  }

  /** A document satisfies every field of the filter. */
  predicate Selects(f: Filter, r: Recipe, re: (string, string) -> bool) {
    && (f.title.Some? ==> re(f.title.value, r.title))
    && (f.ingredientName.Some? ==> SomeIngredientMatches(r, f.ingredientName.value, re))
  }

  /** `Recipe.find(filter)`: the documents the filter selects. */
  function Found(recipes: map<Id, Recipe>, f: Filter, re: (string, string) -> bool): (r: map<Id, Recipe>)
    ensures forall id :: id in r <==> id in recipes && Selects(f, recipes[id], re)
    ensures forall id | id in r :: r[id] == recipes[id]
  {
    map id | id in recipes && Selects(f, recipes[id], re) :: recipes[id]
  }

  /** The two parameters are applied only when given, and a document is
      returned only when it satisfies both. */
  lemma QueryFilterIsConjunction(recipes: map<Id, Recipe>, title: Option<string>, ingredient: Option<string>,
                                 re: (string, string) -> bool, id: Id)
    ensures id in Found(recipes, QueryFilter(title, ingredient), re) <==>
            && id in recipes
            && (Present(title) ==> re(title.value, recipes[id].title))
            && (Present(ingredient) ==> SomeIngredientMatches(recipes[id], ingredient.value, re))
  {
  }

  /** Every `$regex` of the filter compiles, given which patterns the
      database's regex engine accepts (`reOk`, left abstract). */
  predicate FilterCompiles(f: Filter, reOk: string -> bool) {
    && (f.title.Some? ==> reOk(f.title.value))
    && (f.ingredientName.Some? ==> reOk(f.ingredientName.value))
  }

  /** `getRecipes`: a 500 from its `catch` when a given parameter is not a
      valid pattern, otherwise the recipes the filter selects. The order of
      `find` without a sort is not modelled. */
  function GetRecipes(recipes: map<Id, Recipe>, title: Option<string>, ingredient: Option<string>,
                      re: (string, string) -> bool, reOk: string -> bool): (r: Reply<map<Id, Recipe>>)
    ensures r.Success? <==> (Present(title) ==> reOk(title.value)) && (Present(ingredient) ==> reOk(ingredient.value))
    ensures r.Failure? ==> r == Failure(500, ListFailed)
    ensures r.Success? ==> r.status == 200 && r.value == Found(recipes, QueryFilter(title, ingredient), re)
    ensures r.Success? ==> r.value.Keys <= recipes.Keys
    ensures !Present(title) && !Present(ingredient) ==> r == Success(200, recipes)
  {
    var f := QueryFilter(title, ingredient);
    if !FilterCompiles(f, reOk) then Failure(500, ListFailed)
    else
      assert !Present(title) && !Present(ingredient) ==> f == Filter(None, None) && Found(recipes, f, re) == recipes;
      Success(200, Found(recipes, f, re))
  }

  /** `getRecipeById`: an id Mongoose cannot cast is a 500, an unknown id a 404. */
  function GetRecipeById(recipes: map<Id, Recipe>, id: Id, isValid: Id -> bool): (r: Reply<Recipe>)
    ensures !isValid(id) ==> r == Failure(500, FetchFailed)
    ensures isValid(id) && id !in recipes ==> r == Failure(404, RecipeNotFound)
    ensures isValid(id) && id in recipes ==> r == Success(200, recipes[id])
  {
    if !isValid(id) then Failure(500, FetchFailed)
    else if id !in recipes then Failure(404, RecipeNotFound)
    else Success(200, recipes[id])
  }

  // ---------------------------------------------------------------------
  // updateRecipe and deleteRecipe

  /** The query `{ _id: id, author: user }` matches a document. */
  predicate Owned(recipes: map<Id, Recipe>, id: Id, user: Id) {
    id in recipes && recipes[id].author == user
  }

  /** The update validators (`runValidators`), which check only the paths the
      update sets; a key that is `undefined` is not part of the update. */
  predicate UpdateValid(input: RecipeInput)
    requires input.instructions.Plain?
  {
    && (input.title.Missing? || RequiredString(TitleOf(input.title)))
    && (input.imageUrl.Missing? || ImageUrlsValid(ImageUrlsOf(input.imageUrl)))
    && (input.ingredients.None? || IngredientsValid(IngredientsOf(input.ingredients.value)))
    && (input.instructions.f.Missing? || RequiredString(TextOf(input.instructions.f)))
  }

  /** The updated document: every path the body gives is replaced (`imageUrls`
      only when the `imageUrl` key is present), and `updatedAt` is refreshed. */
  function Patched(r: Recipe, input: RecipeInput, now: int): (p: Recipe)
    requires input.instructions.Plain?
    ensures p.author == r.author && p.createdAt == r.createdAt && p.updatedAt == now
    ensures input.imageUrl.Missing? ==> p.imageUrls == r.imageUrls
    ensures !input.imageUrl.Missing? && !Truthy(input.imageUrl) ==> p.imageUrls == []
  {
    var f := input.instructions.f;
    r.(title := if input.title.Missing? then r.title else TitleOf(input.title),
       description := if input.description.Missing? then r.description else DescriptionOf(input.description),
       imageUrls := if input.imageUrl.Missing? then r.imageUrls else ImageUrlsOf(input.imageUrl),
       ingredients := if input.ingredients.None? then r.ingredients else IngredientsOf(input.ingredients.value),
       instructions := if f.Missing? then r.instructions else TextOf(f),
       updatedAt := now)
  }

  /** An update that passes the update validators keeps a valid document valid,
      although only the paths it sets were checked. */
  lemma PatchedKeepsValid(r: Recipe, input: RecipeInput, now: int)
    requires input.instructions.Plain?
    requires RecipeValid(r) && UpdateValid(input)
    ensures RecipeValid(Patched(r, input, now))
  {
  }

  /** `findOneAndUpdate({ _id: id, author: user }, updates, { runValidators: true })`.
      The update validators run before the query reaches the store, so an
      invalid update is a 400 even when no document matches. */
  method ApplyUpdate(db: RecipeStore, id: Id, user: Id, input: RecipeInput, now: int, notFound: string)
    returns (r: Reply<Recipe>)
    requires input.instructions.Plain?
    modifies db
    ensures !UpdateValid(input) ==> r == Failure(400, ValidationFailed) && db.recipes == old(db.recipes)
    ensures UpdateValid(input) && !Owned(old(db.recipes), id, user) ==>
              r == Failure(404, notFound) && db.recipes == old(db.recipes)
    ensures UpdateValid(input) && Owned(old(db.recipes), id, user) ==>
              var p := Patched(old(db.recipes)[id], input, now);
              db.recipes == old(db.recipes)[id := p] && r == Success(200, p)
    ensures old(db.Valid()) ==> db.Valid()
  {
    if !UpdateValid(input) {
      return Failure(400, ValidationFailed);
    }
    if id !in db.recipes || db.recipes[id].author != user {
      return Failure(404, notFound);
    }
    var p := Patched(db.recipes[id], input, now);
    if RecipeValid(db.recipes[id]) {
      PatchedKeepsValid(db.recipes[id], input, now);
    }
    db.recipes := db.recipes[id := p];
    r := Success(200, p);
  }

  /** `updateRecipe`. An id that cannot be cast, or an array for the string path
      `instructions`, makes the query throw a `CastError`, which is a 500. */
  method UpdateRecipe(db: RecipeStore, id: Id, user: Id, input: RecipeInput, now: int, isValid: Id -> bool)
    returns (r: Reply<Recipe>)
    modifies db
    ensures !isValid(id) || input.instructions.Lines? ==> r == Failure(500, UpdateFailed) && db.recipes == old(db.recipes)
    ensures isValid(id) && input.instructions.Plain? && !UpdateValid(input) ==>
              r == Failure(400, ValidationFailed) && db.recipes == old(db.recipes)
    ensures isValid(id) && input.instructions.Plain? && UpdateValid(input) && !Owned(old(db.recipes), id, user) ==>
              r == Failure(404, NotFoundOrUnauthorized) && db.recipes == old(db.recipes)
    ensures isValid(id) && input.instructions.Plain? && UpdateValid(input) && Owned(old(db.recipes), id, user) ==>
              var p := Patched(old(db.recipes)[id], input, now);
              db.recipes == old(db.recipes)[id := p] && r == Success(200, p)
    ensures old(db.Valid()) ==> db.Valid()
  {
    if !isValid(id) || input.instructions.Lines? {
      return Failure(500, UpdateFailed);
    }
    r := ApplyUpdate(db, id, user, input, now, NotFoundOrUnauthorized);
  }

  /** `findOneAndDelete({ _id: id, author: user })`: removes exactly the matched
      document, or answers 404 and removes nothing. */
  method DeleteOwned(db: RecipeStore, id: Id, user: Id, notFound: string, done: string) returns (r: Reply<string>)
    modifies db
    ensures !Owned(old(db.recipes), id, user) ==> r == Failure(404, notFound) && db.recipes == old(db.recipes)
    ensures Owned(old(db.recipes), id, user) ==> r == Success(200, done) && db.recipes == old(db.recipes) - {id}
    ensures old(db.Valid()) ==> db.Valid()
  {
    if id !in db.recipes || db.recipes[id].author != user {
      return Failure(404, notFound);
    }
    db.recipes := db.recipes - {id};
    r := Success(200, done);
  }

  /** `deleteRecipe`: an id that cannot be cast is a 500. */
  method DeleteRecipe(db: RecipeStore, id: Id, user: Id, isValid: Id -> bool) returns (r: Reply<string>)
    modifies db
    ensures !isValid(id) ==> r == Failure(500, DeleteFailed) && db.recipes == old(db.recipes)
    ensures isValid(id) && !Owned(old(db.recipes), id, user) ==>
              r == Failure(404, NotFoundOrUnauthorized) && db.recipes == old(db.recipes)
    ensures isValid(id) && Owned(old(db.recipes), id, user) ==>
              r == Success(200, Deleted) && db.recipes == old(db.recipes) - {id}
    ensures old(db.Valid()) ==> db.Valid()
  {
    if !isValid(id) {
      return Failure(500, DeleteFailed);
    }
    r := DeleteOwned(db, id, user, NotFoundOrUnauthorized, Deleted);
  }
}
