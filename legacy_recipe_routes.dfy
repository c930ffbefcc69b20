/** The recipe routes of the legacy back end, src/routes/recipe.js: the newest
    first listing, the two searches (title, and comma-separated ingredient
    terms that must all match), and the author-only PUT and DELETE, which
    reject a malformed id with 400 before anything else and join an
    `instructions` array into one string. */
module LegacyRecipeRoutes {
  import opened Wrappers
  import opened Text
  import opened Http
  import opened ObjectIds
  import opened Listing
  import opened LegacyRecipeModel
  import opened LegacyRecipeController
  import RecipeController

  const MissingTitle := "Missing title query parameter"
  const MissingIngredients := "Missing ingredients query parameter"
  const NameSearchFailed := "Server error searching by name"
  const IngredientSearchFailed := "Server error searching by ingredients"
  const InvalidId := "Invalid recipe ID"
  const NotTheAuthor := "Recipe not found or you\U{2019}re not the author"
  const DeletedForGood := "Recipe successfully deleted"

  function CreatedAt(recipes: map<Id, Recipe>): Id -> int {
    id => if id in recipes then recipes[id].createdAt else 0
  }

  /** `GET /`: every recipe once, newest first. */
  method ListRecipes(db: RecipeStore) returns (r: Reply<seq<Recipe>>, ids: seq<Id>)
    ensures r.Success? && r.status == 200 && |r.value| == |ids|
    ensures NewestFirst(ids, CreatedAt(db.recipes))
    ensures multiset(ids) == multiset(db.recipes.Keys)
    ensures forall k :: 0 <= k < |ids| ==> ids[k] in db.recipes && r.value[k] == db.recipes[ids[k]]
  {
    var recipes := db.recipes;
    ids := SortNewestFirst(recipes.Keys, CreatedAt(recipes));
    forall k | 0 <= k < |ids| ensures ids[k] in recipes {
      assert ids[k] in multiset(ids);
    }
    r := Success(200, seq(|ids|, k requires 0 <= k < |ids| => recipes[ids[k]]));
  }

  /** `GET /search/name`: 400 without a title, a 500 from the `catch` when
      the title is not a valid pattern (`reOk`), otherwise the recipes whose
      title matches it. */
  function SearchByName(recipes: map<Id, Recipe>, title: Option<string>, re: (string, string) -> bool,
                        reOk: string -> bool)
    : (r: Reply<map<Id, Recipe>>)
    ensures !Present(title) ==> r == Failure(400, MissingTitle)
    ensures Present(title) && !reOk(title.value) ==> r == Failure(500, NameSearchFailed)
    ensures Present(title) && reOk(title.value) ==> r.Success? && r.status == 200
    ensures r.Success? ==> forall id :: id in r.value <==> id in recipes && re(title.value, recipes[id].title)
    ensures r.Success? ==> forall id | id in r.value :: r.value[id] == recipes[id]
  {
    if !Present(title) then Failure(400, MissingTitle)
    else if !reOk(title.value) then Failure(500, NameSearchFailed)
    else Success(200, Found(recipes, Filter(title, None), re))
  }

  /** `ingredients.split(',').map(str => str.trim()).filter(Boolean)`. */
  function IngredientTerms(s: string): seq<string> {
    RecipeController.CleanSteps(Split(s, ','))
  }

  /** The terms are the non-empty trimmed comma-separated pieces, in their
      order; none is blank or holds a comma. */
  lemma IngredientTermsMeaning(s: string)
    ensures RecipeController.KeepsNonEmptyTrims(Split(s, ','), IngredientTerms(s), RecipeController.KeptIndices(Split(s, ',')))
    ensures forall k :: 0 <= k < |IngredientTerms(s)| ==>
              IngredientTerms(s)[k] != "" && IsTrimmed(IngredientTerms(s)[k]) && ',' !in IngredientTerms(s)[k]
  {
    var pieces := Split(s, ',');
    var idx := RecipeController.KeptIndices(pieces);
    var terms := IngredientTerms(s);
    RecipeController.CleanStepsKeepsOrder(pieces);
    forall k | 0 <= k < |terms|
      ensures ',' !in terms[k]
    {
      TrimKeepsAbsent(pieces[idx[k]], ',');
    }
  }

  /** Every term matches the name of some ingredient (`$and` of `$elemMatch`). */
  predicate EveryTermMatches(terms: seq<string>, r: Recipe, re: (string, string) -> bool) {
    forall k :: 0 <= k < |terms| ==> SomeIngredientMatches(r, terms[k], re)
  }

  /** `GET /search/ingredients`: 400 without the parameter; a parameter with no
      term left (such as ",") builds an empty `$and`, which the database
      refuses, and a term that is not a valid pattern (`reOk`) fails to
      compile, so either is a 500; otherwise the recipes matching every term. */
  function SearchByIngredients(recipes: map<Id, Recipe>, ingredients: Option<string>, re: (string, string) -> bool,
                               reOk: string -> bool)
    : (r: Reply<map<Id, Recipe>>)
    ensures !Present(ingredients) ==> r == Failure(400, MissingIngredients)
    ensures Present(ingredients) && !TermsCompile(IngredientTerms(ingredients.value), reOk) ==>
              r == Failure(500, IngredientSearchFailed)
    ensures Present(ingredients) && TermsCompile(IngredientTerms(ingredients.value), reOk) ==>
              && r.Success? && r.status == 200
              && forall id :: id in r.value <==>
                   id in recipes && EveryTermMatches(IngredientTerms(ingredients.value), recipes[id], re)
    ensures r.Success? ==> forall id | id in r.value :: id in recipes && r.value[id] == recipes[id]
  {
    if !Present(ingredients) then Failure(400, MissingIngredients)
    else
      var terms := IngredientTerms(ingredients.value);
      if !TermsCompile(terms, reOk) then Failure(500, IngredientSearchFailed)
      else Success(200, map id | id in recipes && EveryTermMatches(terms, recipes[id], re) :: recipes[id])
  }

  /** The `$and` the terms build is one the database runs: it is not empty,
      and every term is a valid pattern. */
  predicate TermsCompile(terms: seq<string>, reOk: string -> bool) {
    terms != [] && forall k :: 0 <= k < |terms| ==> reOk(terms[k])
  }

  /** A parameter made only of separators reaches the database with no term. */
  lemma SeparatorsOnlyFail(recipes: map<Id, Recipe>, re: (string, string) -> bool, reOk: string -> bool)
    ensures SearchByIngredients(recipes, Some(", ,"), re, reOk) == Failure(500, IngredientSearchFailed)
  {
    assert IndexOf(", ,", ',') == Some(0);
    assert ", ,"[1..] == " ,";
    assert IndexOf(" ,", ',') == Some(1);
    assert " ,"[..1] == " " && " ,"[2..] == "";
    assert Split(", ,", ',') == ["", " ", ""];
    assert Trim(" ") == "";
  }

  // ---------------------------------------------------------------------
  // PUT /:id and DELETE /:id

  /** `if (Array.isArray(instructions)) instructions = instructions.join('\n')`. */
  function JoinedInstructions(x: InstructionsField): (r: InstructionsField)
    ensures r.Plain?
    ensures x.Plain? ==> r == x
  {
    match x
    case Plain(_) => x
    case Lines(steps) => Plain(Given(Join(steps, "\n")))
  }

  /** The joined string splits back into the steps when no step holds a line break. */
  lemma JoinedStepsSplitBack(steps: seq<string>)
    requires |steps| >= 1 && forall k :: 0 <= k < |steps| ==> '\n' !in steps[k]
    ensures Split(TextOf(JoinedInstructions(Lines(steps)).f), '\n') == steps
  {
    SplitJoin(steps, '\n');
  }

  /** The joined string passes `required` unless the array is `[]` or `[""]`. */
  lemma JoinedStepsRequired(steps: seq<string>)
    ensures RequiredString(TextOf(JoinedInstructions(Lines(steps)).f)) <==> |steps| >= 2 || (|steps| == 1 && steps[0] != "")
  {
    if |steps| >= 2 {
      var j := Join(steps, "\n");
      assert j == steps[0] + "\n" + Join(steps[1..], "\n");
      assert j[|steps[0]|] == '\n';
    }
  }

  /** `PUT /:id`: 400 for an id `ObjectId.isValid` rejects, then the update
      of `findOneAndUpdate({ _id: id, author: user }, ...)` with the joined
      instructions. */
  method UpdateRecipe(db: RecipeStore, id: Id, user: Id, input: RecipeInput, now: int, isValid: Id -> bool)
    returns (r: Reply<Recipe>)
    modifies db
    ensures !isValid(id) ==> r == Failure(400, InvalidId) && db.recipes == old(db.recipes)
    ensures isValid(id) ==>
              var u := input.(instructions := JoinedInstructions(input.instructions));
              && (!UpdateValid(u) ==> r == Failure(400, ValidationFailed) && db.recipes == old(db.recipes))
              && (UpdateValid(u) && !Owned(old(db.recipes), id, user) ==>
                    r == Failure(404, NotTheAuthor) && db.recipes == old(db.recipes))
              && (UpdateValid(u) && Owned(old(db.recipes), id, user) ==>
                    var p := Patched(old(db.recipes)[id], u, now);
                    db.recipes == old(db.recipes)[id := p] && r == Success(200, p))
    ensures old(db.Valid()) ==> db.Valid()
  {
    if !isValid(id) {
      return Failure(400, InvalidId);
    }
    var u := input.(instructions := JoinedInstructions(input.instructions));
    r := ApplyUpdate(db, id, user, u, now, NotTheAuthor);
  }

  /** `DELETE /:id`: 400 for a malformed id, then 404 unless the caller owns
      the recipe, which is then removed. */
  method DeleteRecipe(db: RecipeStore, id: Id, user: Id, isValid: Id -> bool) returns (r: Reply<string>)
    modifies db
    ensures !isValid(id) ==> r == Failure(400, InvalidId) && db.recipes == old(db.recipes)
    ensures isValid(id) && !Owned(old(db.recipes), id, user) ==>
              r == Failure(404, NotTheAuthor) && db.recipes == old(db.recipes)
    ensures isValid(id) && Owned(old(db.recipes), id, user) ==>
              r == Success(200, DeletedForGood) && db.recipes == old(db.recipes) - {id}
    ensures old(db.Valid()) ==> db.Valid()
  {
    if !isValid(id) {
      return Failure(400, InvalidId);
    }
    r := DeleteOwned(db, id, user, NotTheAuthor, DeletedForGood);
  }
}
