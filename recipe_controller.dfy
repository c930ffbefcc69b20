/** The recipe handlers of recipe-api/src/controllers/recipeController.js:
    instruction normalisation, create, the owner-only update and delete, the
    search filter and the response shapes of the two reads. */
module RecipeController {
  import opened Wrappers
  import opened Text
  import opened Js
  import opened Http
  import opened ObjectIds
  import opened Listing
  import opened RecipeModel
  import opened RecipeValidation
  import Comments

  const NotArrayMessage := "Instructions must be an array of step strings"
  const NotStringMessage := "Each step must be a string"
  const NoStepsMessage := "At least one instruction step is required"
  const RecipeNotFound := "Recipe not found"
  const EditForbidden := "You are not allowed to edit this recipe"
  const DeleteForbidden := "You are not allowed to delete this recipe"
  /** The message of the `ValidationError` a failed `save` throws. */
  const SaveRejected := "Recipe validation failed"
  const UnknownAuthor := "Unknown author"
  /** What `getRecipes`' own `catch` answers with. */
  const FetchRecipesFailed := "Server error fetching recipes"

  // ---------------------------------------------------------------------
  // normalizeSteps

  /** `steps.map(s => s.trim()).filter(Boolean)` on strings. */
  function CleanSteps(steps: seq<string>): (r: seq<string>)
    ensures |r| <= |steps|
    ensures forall k :: 0 <= k < |r| ==> r[k] != "" && IsTrimmed(r[k])
  {
    if steps == [] then []
    else
      var t := Trim(steps[0]);
      (if t == "" then [] else [t]) + CleanSteps(steps[1..])
  }

  /** `r` lists, in their original order, the non-empty trims of `steps`:
      `idx` says which step each entry comes from, and every step not
      listed trims to "". */
  predicate KeepsNonEmptyTrims(steps: seq<string>, r: seq<string>, idx: seq<nat>) {
    && |idx| == |r|
    && (forall k :: 0 <= k < |idx| ==> idx[k] < |steps| && r[k] == Trim(steps[idx[k]]))
    && (forall k, l :: 0 <= k < l < |idx| ==> idx[k] < idx[l])
    && (forall j :: 0 <= j < |steps| && j !in idx ==> Trim(steps[j]) == "")
  }

  function Shifted(idx: seq<nat>): (r: seq<nat>)
    ensures |r| == |idx| && forall k :: 0 <= k < |r| ==> r[k] == idx[k] + 1
  {
    seq(|idx|, k requires 0 <= k < |idx| => idx[k] + 1)
  }

  /** Which steps survive cleaning, by position. */
  function KeptIndices(steps: seq<string>): (idx: seq<nat>)
    ensures |idx| == |CleanSteps(steps)|
  {
    if steps == [] then []
    else (if Trim(steps[0]) == "" then [] else [0]) + Shifted(KeptIndices(steps[1..]))
  }

  lemma {:induction false} KeptIndicesPoint(steps: seq<string>)
    ensures forall k :: 0 <= k < |KeptIndices(steps)| ==>
              KeptIndices(steps)[k] < |steps| && CleanSteps(steps)[k] == Trim(steps[KeptIndices(steps)[k]])
  {
    if steps != [] {
      var rest := steps[1..];
      KeptIndicesPoint(rest);
      var idx, idx' := KeptIndices(steps), KeptIndices(rest);
      var r, r' := CleanSteps(steps), CleanSteps(rest);
      var off := |idx| - |idx'|;
      assert r == r[..off] + r' && idx == idx[..off] + Shifted(idx');
      forall k | off <= k < |idx| ensures idx[k] < |steps| && r[k] == Trim(steps[idx[k]]) {
        assert idx[k] == idx'[k - off] + 1 && r[k] == r'[k - off];
        assert steps[idx[k]] == rest[idx'[k - off]];
      }
    }
  }

  lemma {:induction false} KeptIndicesIncreasing(steps: seq<string>)
    ensures forall k, l :: 0 <= k < l < |KeptIndices(steps)| ==> KeptIndices(steps)[k] < KeptIndices(steps)[l]
  {
    if steps != [] {
      KeptIndicesIncreasing(steps[1..]);
    }
  }

  /** Shifting keeps membership, one position further on. */
  lemma ShiftedMember(idx: seq<nat>, x: nat)
    requires x in idx
    ensures x + 1 in Shifted(idx)
  {
    var k :| 0 <= k < |idx| && idx[k] == x;
    assert Shifted(idx)[k] == x + 1;
  }

  lemma {:induction false} KeptIndicesComplete(steps: seq<string>)
    ensures forall j :: 0 <= j < |steps| && j !in KeptIndices(steps) ==> Trim(steps[j]) == ""
  {
    if steps != [] {
      var rest := steps[1..];
      KeptIndicesComplete(rest);
      var idx' := KeptIndices(rest);
      var head: seq<nat> := if Trim(steps[0]) == "" then [] else [0];
      assert KeptIndices(steps) == head + Shifted(idx');
      forall j | 1 <= j < |steps| && j !in KeptIndices(steps)
        ensures Trim(steps[j]) == ""
      {
        assert j !in Shifted(idx');
        assert j - 1 !in idx' by {
          if j - 1 in idx' {
            ShiftedMember(idx', j - 1);
          }
        }
        assert steps[j] == rest[j - 1];
      }
    }
  }

  /** The cleaned steps are exactly the non-empty trims, in order. */
  lemma CleanStepsKeepsOrder(steps: seq<string>)
    ensures KeepsNonEmptyTrims(steps, CleanSteps(steps), KeptIndices(steps))
  {
    KeptIndicesPoint(steps);
    KeptIndicesIncreasing(steps);
    KeptIndicesComplete(steps);
  }

  /** The schema validator accepts a list exactly when cleaning it drops nothing. */
  lemma {:induction false} ValidatorIffNothingDropped(steps: seq<string>)
    ensures InstructionsValid(steps) <==> |CleanSteps(steps)| == |steps|
  {
    if steps != [] {
      ValidatorIffNothingDropped(steps[1..]);
      assert InstructionsValid(steps) <==> Trim(steps[0]) != "" && InstructionsValid(steps[1..]);
    }
  }

  predicate AllStrings(items: seq<JsValue>) {
    forall k :: 0 <= k < |items| ==> items[k].Str?
  }

  function Strings(items: seq<JsValue>): (r: seq<string>)
    requires AllStrings(items)
    ensures |r| == |items| && forall k :: 0 <= k < |r| ==> items[k] == Str(r[k])
  {
    seq(|items|, k requires 0 <= k < |items| => items[k].s)
  }

  /** `normalizeSteps(steps)`: a non-array and a non-string element are
      rejected; otherwise the non-empty trims are kept in order, and keeping
      none is rejected too. What it returns passes the schema validator. */
  function NormalizeSteps(steps: JsValue): (r: Result<seq<string>>)
    ensures !steps.Arr? ==> r == Err(NotArrayMessage)
    ensures steps.Arr? && !AllStrings(steps.items) ==> r == Err(NotStringMessage)
    ensures steps.Arr? && AllStrings(steps.items) ==>
              (CleanSteps(Strings(steps.items)) == [] ==> r == Err(NoStepsMessage)) &&
              (CleanSteps(Strings(steps.items)) != [] ==> r == Ok(CleanSteps(Strings(steps.items))))
    ensures r.Ok? ==> r.value != [] && InstructionsValid(r.value)
  {
    if !steps.Arr? then Err(NotArrayMessage)
    else if !AllStrings(steps.items) then Err(NotStringMessage)
    else
      var clean := CleanSteps(Strings(steps.items));
      if clean == [] then Err(NoStepsMessage)
      else
        assert InstructionsValid(clean) by {
          forall k | 0 <= k < |clean| ensures Trim(clean[k]) != "" {
            TrimmedIsFixed(clean[k]);
          }
        }
        Ok(clean)
  }

  // ---------------------------------------------------------------------
  // Reading a validated body

  function IngredientOf(v: JsValue): (i: Ingredient)
    requires IngredientOk(v)
  {
    CastIngredient(Get(v.props, "name").s, Get(v.props, "amount").n, Get(v.props, "unit").s)
  }

  /** The stored ingredient list; an absent list is Mongoose's default, []. */
  function IngredientsOf(v: JsValue): (r: seq<Ingredient>)
    requires IngredientsOk(v)
    ensures v.Undefined? ==> r == []
    ensures v.Arr? ==> |r| == |v.items| && forall k :: 0 <= k < |r| ==> r[k] == IngredientOf(v.items[k])
  {
    if v.Undefined? then []
    else seq(|v.items|, k requires 0 <= k < |v.items| => IngredientOf(v.items[k]))
  }

  /** The stored description: trimmed, and absent for `null`. */
  function DescriptionOf(v: JsValue): Option<string>
    requires DescriptionOk(v)
  {
    if v.Str? then Some(Trim(v.s)) else None
  }

  function ImageOf(v: JsValue): Option<string>
    requires ImageOk(v)
  {
    if v.Str? then Some(v.s) else None
  }

  // ---------------------------------------------------------------------
  // The Recipe collection

  class RecipeStore {
    var recipes: map<Id, Recipe>

    constructor (init: map<Id, Recipe>)
      ensures recipes == init
    {
      recipes := init;
    }

    /** Every stored recipe passed the schema when it was saved. */
    predicate Valid()
      reads this
    {
      forall id :: id in recipes ==> RecipeValid(recipes[id])
    }
  }

  /** The document `Recipe.create` is given: the body's fields, the cleaned
      steps, the caller as author and the schema's defaults. */
  function NewRecipe(body: map<string, JsValue>, steps: seq<string>, user: Id, now: int): (r: Recipe)
    requires CreateValid(body)
    ensures r.authorId == user && r.instructions == steps
    ensures r.averageRating == 0.0 && r.ratingCount == 0 && r.createdAt == now && r.updatedAt == now
  {
    Recipe(Get(body, TitleKey).s, DescriptionOf(Get(body, DescriptionKey)), Get(body, CookingTimeKey).n,
           IngredientsOf(Get(body, IngredientsKey)), steps, ImageOf(Get(body, ImageKey)),
           user, 0.0, 0, now, now)
  }

  /** `createRecipe`. The body is the one `validateBody(createRecipeSchema)`
      let through; `newId` is the id the store assigns and `now` the clock. */
  method CreateRecipe(db: RecipeStore, body: map<string, JsValue>, user: Id, newId: Id, now: int)
    returns (r: Reply<Recipe>)
    requires db.Valid() && CreateValid(body) && newId !in db.recipes
    modifies db
    ensures db.Valid()
    ensures NormalizeSteps(Get(body, InstructionsKey)).Err? ==>
              r == Failure(500, NormalizeSteps(Get(body, InstructionsKey)).error) && db.recipes == old(db.recipes)
    ensures NormalizeSteps(Get(body, InstructionsKey)).Ok? ==>
              var rec := NewRecipe(body, NormalizeSteps(Get(body, InstructionsKey)).value, user, now);
              (RecipeValid(rec) ==> r == Success(201, rec) && db.recipes == old(db.recipes)[newId := rec]) &&
              (!RecipeValid(rec) ==> r == Failure(500, SaveRejected) && db.recipes == old(db.recipes))
  {
    var steps := NormalizeSteps(Get(body, InstructionsKey));
    if steps.Err? {
      return ErrorReply(Thrown(steps.error));
    }
    var rec := NewRecipe(body, steps.value, user, now);
    if !RecipeValid(rec) {
      return ErrorReply(Thrown(SaveRejected));
    }
    db.recipes := db.recipes[newId := rec];
    r := Success(201, rec);
  }

  /** A schema accepts a body that `createRecipe` still answers with a 500:
      `instructions` is optional in the schema, but `normalizeSteps` rejects
      its absence, and a list of blank steps. */
  lemma CreateValidButNoSteps()
    ensures var body := map[TitleKey := Str("Soup"), CookingTimeKey := Num(10.0)];
            CreateValid(body) && NormalizeSteps(Get(body, InstructionsKey)) == Err(NotArrayMessage)
    ensures var body := map[TitleKey := Str("Soup"), CookingTimeKey := Num(10.0), InstructionsKey := Arr([Str(" ")])];
            CreateValid(body) && NormalizeSteps(Get(body, InstructionsKey)) == Err(NoStepsMessage)
  {
    var steps := [Str(" ")];
    assert Strings(steps) == [" "];
    assert Trim(" ") == "" by { TrimEmptyIff(" "); }
  }

  // ---------------------------------------------------------------------
  // updateRecipe

  /** The instructions an update stores: the old ones when the body has
      none, otherwise what `normalizeSteps` makes of the body's, or its error. */
  function UpdatedSteps(current: seq<string>, v: JsValue): (r: Result<seq<string>>)
    ensures v.Undefined? ==> r == Ok(current)
    ensures !v.Undefined? ==> r == NormalizeSteps(v)
  {
    if v.Undefined? then Ok(current) else NormalizeSteps(v)
  }

  /** The recipe after `updateRecipe` has assigned the body's fields, with
      `steps` as its instructions. `save` refreshes `updatedAt` only when an
      assignment changed the document; assigning the value a path already
      holds marks nothing modified. */
  function Updated(r: Recipe, body: map<string, JsValue>, steps: seq<string>, now: int): Recipe
    requires UpdateValid(body)
  {
    Saved(r, Assigned(r, body, steps), now)
  }

  /** What `save` stores for a document `r` whose fields now read as in `p`:
      `p` with `updatedAt` set to now when a path changed, else `r` itself. */
  function Saved(r: Recipe, p: Recipe, now: int): Recipe {
    if p == r then r else p.(updatedAt := now)
  }

  /** The recipe with the body's fields assigned, before `save`. */
  function Assigned(r: Recipe, body: map<string, JsValue>, steps: seq<string>): Recipe
    requires UpdateValid(body)
  {
    var t := Get(body, TitleKey);
    var d := Get(body, DescriptionKey);
    var c := Get(body, CookingTimeKey);
    var g := Get(body, IngredientsKey);
    var m := Get(body, ImageKey);
    r.(title := if t.Undefined? then r.title else t.s,
       description := if d.Undefined? then r.description else DescriptionOf(d),
       cookingTime := if c.Undefined? then r.cookingTime else c.n,
       ingredients := if g.Undefined? then r.ingredients else IngredientsOf(g),
       instructions := steps,
       image := if m.Undefined? then r.image else ImageOf(m))
  }

  /** An update sets exactly the fields the body does not leave `undefined`,
      with `instructions` cleaned by `normalizeSteps`; the author, the rating
      stats and the creation time are kept. */
  lemma UpdateChangesGivenFields(r: Recipe, body: map<string, JsValue>, now: int)
    requires UpdateValid(body) && UpdatedSteps(r.instructions, Get(body, InstructionsKey)).Ok?
    ensures var n := Updated(r, body, UpdatedSteps(r.instructions, Get(body, InstructionsKey)).value, now);
      && (Get(body, TitleKey).Undefined? ==> n.title == r.title)
      && (!Get(body, TitleKey).Undefined? ==> n.title == Get(body, TitleKey).s)
      && (Get(body, DescriptionKey).Undefined? ==> n.description == r.description)
      && (!Get(body, DescriptionKey).Undefined? ==> n.description == DescriptionOf(Get(body, DescriptionKey)))
      && (Get(body, CookingTimeKey).Undefined? ==> n.cookingTime == r.cookingTime)
      && (!Get(body, CookingTimeKey).Undefined? ==> n.cookingTime == Get(body, CookingTimeKey).n)
      && (Get(body, IngredientsKey).Undefined? ==> n.ingredients == r.ingredients)
      && (!Get(body, IngredientsKey).Undefined? ==> n.ingredients == IngredientsOf(Get(body, IngredientsKey)))
      && (Get(body, InstructionsKey).Undefined? ==> n.instructions == r.instructions)
      && (!Get(body, InstructionsKey).Undefined? ==> n.instructions == NormalizeSteps(Get(body, InstructionsKey)).value)
      && (Get(body, ImageKey).Undefined? ==> n.image == r.image)
      && (!Get(body, ImageKey).Undefined? ==> n.image == ImageOf(Get(body, ImageKey)))
      && n.authorId == r.authorId && n.averageRating == r.averageRating
      && n.ratingCount == r.ratingCount && n.createdAt == r.createdAt
      && n.updatedAt == (if n.(updatedAt := r.updatedAt) == r then r.updatedAt else now)
  {
  }

  /** An update that assigns nothing new, such as an empty body, leaves the
      recipe as it was, `updatedAt` included. */
  lemma EmptyUpdateKeepsRecipe(r: Recipe, body: map<string, JsValue>, now: int)
    requires forall k :: k in Fields ==> Get(body, k).Undefined?
    ensures UpdateValid(body) && UpdatedSteps(r.instructions, Get(body, InstructionsKey)) == Ok(r.instructions)
    ensures Updated(r, body, r.instructions, now) == r
  {
    assert TitleKey in Fields && DescriptionKey in Fields && CookingTimeKey in Fields;
    assert IngredientsKey in Fields && InstructionsKey in Fields && ImageKey in Fields;
  }

  /** `updateRecipe`: 404 for a missing recipe, then 403 for anyone but its
      author, then the patch; a failing `normalizeSteps` or a document the
      schema rejects on `save` is a 500. Only a success writes the store. */
  method UpdateRecipe(db: RecipeStore, id: Id, user: Id, body: map<string, JsValue>, now: int)
    returns (r: Reply<Recipe>)
    requires db.Valid() && UpdateValid(body)
    modifies db
    ensures db.Valid()
    ensures id !in old(db.recipes) ==> r == Failure(404, RecipeNotFound) && db.recipes == old(db.recipes)
    ensures id in old(db.recipes) && old(db.recipes)[id].authorId != user ==>
              r == Failure(403, EditForbidden) && db.recipes == old(db.recipes)
    ensures id in old(db.recipes) && old(db.recipes)[id].authorId == user ==>
              var steps := UpdatedSteps(old(db.recipes)[id].instructions, Get(body, InstructionsKey));
              (steps.Err? ==> r == Failure(500, steps.error) && db.recipes == old(db.recipes)) &&
              (steps.Ok? ==>
                 var n := Updated(old(db.recipes)[id], body, steps.value, now);
                 (RecipeValid(n) ==> r == Success(200, n) && db.recipes == old(db.recipes)[id := n]) &&
                 (!RecipeValid(n) ==> r == Failure(500, SaveRejected) && db.recipes == old(db.recipes)))
  {
    if id !in db.recipes {
      return ErrorReply(NotFound(RecipeNotFound));
    }
    var stored := db.recipes[id];
    var rec := stored;
    if rec.authorId != user {
      return ErrorReply(Forbidden(EditForbidden));
    }
    var title := Get(body, TitleKey);
    var description := Get(body, DescriptionKey);
    var cookingTime := Get(body, CookingTimeKey);
    var ingredients := Get(body, IngredientsKey);
    var instructions := Get(body, InstructionsKey);
    var image := Get(body, ImageKey);
    rec := rec.(title := if title.Undefined? then rec.title else title.s);
    rec := rec.(description := if description.Undefined? then rec.description else DescriptionOf(description));
    rec := rec.(cookingTime := if cookingTime.Undefined? then rec.cookingTime else cookingTime.n);
    rec := rec.(ingredients := if ingredients.Undefined? then rec.ingredients else IngredientsOf(ingredients));
    if !instructions.Undefined? {
      var steps := NormalizeSteps(instructions);
      if steps.Err? {
        return ErrorReply(Thrown(steps.error));
      }
      rec := rec.(instructions := steps.value);
    }
    rec := rec.(image := if image.Undefined? then rec.image else ImageOf(image));
    var steps := UpdatedSteps(stored.instructions, instructions);
    assert steps == Ok(rec.instructions) && rec == Assigned(stored, body, steps.value);
    rec := Saved(stored, rec, now);
    assert stored == old(db.recipes)[id] && rec == Updated(stored, body, steps.value, now);
    if !RecipeValid(rec) {
      return ErrorReply(Thrown(SaveRejected));
    }
    db.recipes := db.recipes[id := rec];
    r := Success(200, rec);
  }

  /** `deleteRecipe`: 404, then 403, then the recipe is removed and the answer
      is 204. The recipe's ratings, likes and comments stay in their stores. */
  method DeleteRecipe(db: RecipeStore, id: Id, user: Id) returns (r: Reply<()>)
    requires db.Valid()
    modifies db
    ensures db.Valid()
    ensures id !in old(db.recipes) ==> r == Failure(404, RecipeNotFound) && db.recipes == old(db.recipes)
    ensures id in old(db.recipes) && old(db.recipes)[id].authorId != user ==>
              r == Failure(403, DeleteForbidden) && db.recipes == old(db.recipes)
    ensures id in old(db.recipes) && old(db.recipes)[id].authorId == user ==>
              r == Success(204, ()) && db.recipes == old(db.recipes) - {id}
  {
    if id !in db.recipes {
      return ErrorReply(NotFound(RecipeNotFound));
    }
    if db.recipes[id].authorId != user {
      return ErrorReply(Forbidden(DeleteForbidden));
    }
    db.recipes := db.recipes - {id};
    r := Success(204, ());
  }

  // ---------------------------------------------------------------------
  // getRecipes

  /** `(title || ingredient || '').trim()`: the first non-empty of the two
      query parameters, trimmed. */
  function SearchTerm(title: Option<string>, ingredient: Option<string>): (t: string)
    ensures IsTrimmed(t)
    ensures title.Some? && title.value != "" ==> t == Trim(title.value)
    ensures (title.None? || title.value == "") && ingredient.Some? && ingredient.value != "" ==> t == Trim(ingredient.value)
    ensures (title.None? || title.value == "") && (ingredient.None? || ingredient.value == "") ==> t == ""
  {
    if title.Some? && title.value != "" then Trim(title.value)
    else if ingredient.Some? && ingredient.value != "" then Trim(ingredient.value)
    else ""
  }

  /** One clause of the `$or` filter: a case-insensitive `$regex` on a path. */
  datatype Clause = TitleMatches(pattern: string) | IngredientNameMatches(pattern: string)

  /** The query filter: `{}` or `{ $or: clauses }`. */
  datatype Filter = MatchAll | AnyOf(clauses: seq<Clause>)

  /** `tokens.flatMap(token => [title clause, ingredient-name clause])` */
  function TokenClauses(tokens: seq<string>): (r: seq<Clause>)
    ensures |r| == 2 * |tokens|
    ensures forall k :: 0 <= k < |tokens| ==>
              r[2 * k] == TitleMatches(tokens[k]) && r[2 * k + 1] == IngredientNameMatches(tokens[k])
    ensures forall j :: 0 <= j < |r| ==> r[j].pattern == tokens[j / 2]
  {
    seq(2 * |tokens|, j requires 0 <= j < 2 * |tokens| =>
      if j % 2 == 0 then TitleMatches(tokens[j / 2]) else IngredientNameMatches(tokens[j / 2]))
  }

  /** The filter for a search term: none for the empty term, otherwise one
      title clause and one ingredient-name clause per whitespace token. */
  function BuildFilter(term: string): (f: Filter)
    ensures term == "" <==> f.MatchAll?
    ensures f.AnyOf? ==> |f.clauses| == 2 * |Tokens(term)|
  {
    if term == "" then MatchAll else AnyOf(TokenClauses(Tokens(term)))
  }

  /** Whether a clause selects a recipe, given the regex semantics `re`
      (pattern, text), which the model leaves abstract. */
  predicate ClauseMatches(c: Clause, r: Recipe, re: (string, string) -> bool) {
    match c
    case TitleMatches(p) => re(p, r.title)
    case IngredientNameMatches(p) => exists i :: 0 <= i < |r.ingredients| && re(p, r.ingredients[i].name)
  }

  predicate SomeClauseMatches(cs: seq<Clause>, r: Recipe, re: (string, string) -> bool) {
    exists k :: 0 <= k < |cs| && ClauseMatches(cs[k], r, re)
  }

  predicate FilterMatches(f: Filter, r: Recipe, re: (string, string) -> bool) {
    match f
    case MatchAll => true
    case AnyOf(cs) => SomeClauseMatches(cs, r, re)
  }

  /** Every `$regex` of the filter compiles, given which patterns the
      database's regex engine accepts (`reOk`, left abstract); otherwise
      `find` rejects the query. */
  predicate FilterCompiles(f: Filter, reOk: string -> bool) {
    match f
    case MatchAll => true
    case AnyOf(cs) => forall k :: 0 <= k < |cs| ==> reOk(cs[k].pattern)
  }

  /** The filter compiles exactly when the term is empty or every one of
      its whitespace tokens is a valid pattern. */
  lemma FilterCompilesMeaning(term: string, reOk: string -> bool)
    ensures FilterCompiles(BuildFilter(term), reOk) <==> term == "" || AllCompile(Tokens(term), reOk)
  {
    if term != "" {
      ClausesCompile(Tokens(term), reOk);
    }
  }

  predicate AllCompile(patterns: seq<string>, reOk: string -> bool) {
    forall k :: 0 <= k < |patterns| ==> reOk(patterns[k])
  }

  lemma ClausesCompile(tokens: seq<string>, reOk: string -> bool)
    ensures FilterCompiles(AnyOf(TokenClauses(tokens)), reOk) <==> AllCompile(tokens, reOk)
  {
    var cs := TokenClauses(tokens);
    if forall k :: 0 <= k < |tokens| ==> reOk(tokens[k]) {
      forall j | 0 <= j < |cs| ensures reOk(cs[j].pattern) {
        assert cs[j].pattern == tokens[j / 2];
      }
    }
    if forall j :: 0 <= j < |cs| ==> reOk(cs[j].pattern) {
      forall k | 0 <= k < |tokens| ensures reOk(tokens[k]) {
        assert cs[2 * k].pattern == tokens[k];
      }
    }
  }

  /** A token matches the recipe's title or one of its ingredient names. */
  predicate TokenMatches(t: string, r: Recipe, re: (string, string) -> bool) {
    re(t, r.title) || exists i :: 0 <= i < |r.ingredients| && re(t, r.ingredients[i].name)
  }

  predicate SomeTokenMatches(tokens: seq<string>, r: Recipe, re: (string, string) -> bool) {
    exists k :: 0 <= k < |tokens| && TokenMatches(tokens[k], r, re)
  }

  lemma ClauseSelectsByPattern(c: Clause, r: Recipe, re: (string, string) -> bool)
    ensures ClauseMatches(c, r, re) ==> TokenMatches(c.pattern, r, re)
  {
  }

  /** The clauses of some tokens select a recipe exactly when one token matches it. */
  lemma ClausesMeaning(tokens: seq<string>, r: Recipe, re: (string, string) -> bool)
    ensures SomeClauseMatches(TokenClauses(tokens), r, re) <==> SomeTokenMatches(tokens, r, re)
  {
    var cs := TokenClauses(tokens);
    if j :| 0 <= j < |cs| && ClauseMatches(cs[j], r, re) {
      ClauseSelectsByPattern(cs[j], r, re);
      assert TokenMatches(tokens[j / 2], r, re);
    }
    if k :| 0 <= k < |tokens| && TokenMatches(tokens[k], r, re) {
      if re(tokens[k], r.title) {
        assert ClauseMatches(cs[2 * k], r, re);
      } else {
        assert ClauseMatches(cs[2 * k + 1], r, re);
      }
    }
  }

  /** A recipe passes the search exactly when the term is empty or one of its
      whitespace tokens matches the title or an ingredient name. */
  lemma FilterMeaning(term: string, r: Recipe, re: (string, string) -> bool)
    ensures FilterMatches(BuildFilter(term), r, re) <==> term == "" || SomeTokenMatches(Tokens(term), r, re)
  {
    if term != "" {
      var tokens := Tokens(term);
      ClausesMeaning(tokens, r, re);
      assert BuildFilter(term) == AnyOf(TokenClauses(tokens));
    }
  }

  /** Every pattern the filter holds is a non-empty token with no white space. */
  lemma FilterPatternsAreTokens(title: Option<string>, ingredient: Option<string>)
    ensures var f := BuildFilter(SearchTerm(title, ingredient));
            f.AnyOf? ==> forall k :: 0 <= k < |f.clauses| ==>
              f.clauses[k].pattern != "" && NoSpace(f.clauses[k].pattern)
  {
    var term := SearchTerm(title, ingredient);
    if term != "" {
      TokensOfTrimmed(term);
    }
  }

  /** One entry of the `getRecipes` response. */
  datatype Summary = Summary(
    id: Id, title: string, image: Option<string>, author: string, rating: real, editable: bool,
    description: Option<string>, cookingTime: real, ingredients: seq<Ingredient>,
    instructions: seq<string>, ratingCount: int, createdAt: int, updatedAt: int)

  /** `r.authorId?.name || 'Unknown author'`, where `users` maps each user id to
      its name and a deleted author populates as `null`. */
  function AuthorName(users: map<Id, string>, author: Id): (a: string)
    ensures a != ""
    ensures author in users && users[author] != "" ==> a == users[author]
    ensures !(author in users && users[author] != "") ==> a == UnknownAuthor
  {
    if author in users && users[author] != "" then users[author] else UnknownAuthor
  }

  /** The id `populate` leaves on the author reference: absent when the user is gone. */
  function PopulatedAuthorId(users: map<Id, string>, author: Id): Option<Id> {
    if author in users then Some(author) else None
  }

  /** The response shape of one recipe for the viewer `current` (absent for an
      anonymous request). `editable` is strict equality of two optional ids. */
  function SummaryOf(id: Id, r: Recipe, users: map<Id, string>, current: Option<Id>): (s: Summary)
    ensures s.id == id && s.title == r.title && s.rating == r.averageRating
    ensures s.author == AuthorName(users, r.authorId)
    ensures s.editable <==> current == PopulatedAuthorId(users, r.authorId)
  {
    Summary(id, r.title, r.image, AuthorName(users, r.authorId), r.averageRating,
            current == PopulatedAuthorId(users, r.authorId),
            r.description, r.cookingTime, r.ingredients, r.instructions, r.ratingCount,
            r.createdAt, r.updatedAt)
  }

  /** A signed-in viewer may edit exactly the recipes whose author still
      exists and is the viewer; an anonymous viewer is also told `editable`
      for a recipe whose author no longer exists. */
  lemma EditableMeaning(id: Id, r: Recipe, users: map<Id, string>, current: Option<Id>)
    ensures current.Some? ==> (SummaryOf(id, r, users, current).editable <==> r.authorId in users && current.value == r.authorId)
    ensures current.None? ==> (SummaryOf(id, r, users, current).editable <==> r.authorId !in users)
  {
  }

  function CreatedAt(recipes: map<Id, Recipe>): Id -> int {
    id => if id in recipes then recipes[id].createdAt else 0
  }

  /** `getRecipes`: a 500 from its own `catch` when a pattern of the filter
      does not compile; otherwise every recipe the filter selects, each
      once, newest first, in the response shape. The store is only read. */
  method GetRecipes(db: RecipeStore, users: map<Id, string>, title: Option<string>, ingredient: Option<string>,
                    current: Option<Id>, re: (string, string) -> bool, reOk: string -> bool)
    returns (r: Reply<seq<Summary>>, ids: seq<Id>)
    ensures !FilterCompiles(BuildFilter(SearchTerm(title, ingredient)), reOk) ==>
              r == Failure(500, FetchRecipesFailed) && ids == []
    ensures FilterCompiles(BuildFilter(SearchTerm(title, ingredient)), reOk) ==>
              && r.Success? && r.status == 200 && |r.value| == |ids|
              && NewestFirst(ids, CreatedAt(db.recipes))
              && multiset(ids) == multiset(set id | id in db.recipes && FilterMatches(BuildFilter(SearchTerm(title, ingredient)), db.recipes[id], re))
              && forall k :: 0 <= k < |ids| ==> ids[k] in db.recipes && r.value[k] == SummaryOf(ids[k], db.recipes[ids[k]], users, current)
  {
    var recipes := db.recipes;
    var filter := BuildFilter(SearchTerm(title, ingredient));
    if !FilterCompiles(filter, reOk) {
      return Failure(500, FetchRecipesFailed), [];
    }
    var selected := set id | id in recipes && FilterMatches(filter, recipes[id], re);
    ids := SortNewestFirst(selected, CreatedAt(recipes));
    forall k | 0 <= k < |ids| ensures ids[k] in recipes {
      assert ids[k] in multiset(ids);
    }
    var out := seq(|ids|, k requires 0 <= k < |ids| => SummaryOf(ids[k], recipes[ids[k]], users, current));
    r := Success(200, out);
  }

  // ---------------------------------------------------------------------
  // getRecipeById

  /** `getRecipeById`'s response: the recipe, its `authorId` populated with
      the author's `{ _id, name }` (or `null`), the `likeCount` virtual, and
      its comments, newest first, each with its populated author moved from
      `authorId` to `author`. */
  datatype RecipeDetail = RecipeDetail(recipe: Recipe, author: JsValue, likeCount: nat, comments: seq<map<string, JsValue>>)

  /** `getRecipeById`: 404 for a missing recipe; otherwise each comment object
      is reshaped in place, its `authorId` key moved to `author`. `likes` is
      the Like collection as (user, recipe) pairs. */
  method GetRecipeById(db: RecipeStore, comments: Comments.CommentStore, users: map<Id, string>,
                       likes: set<(Id, Id)>, id: Id)
    returns (r: Reply<RecipeDetail>, commentIds: seq<Id>)
    ensures id !in db.recipes ==> r == Failure(404, RecipeNotFound)
    ensures id in db.recipes ==> r.Success? && r.status == 200 && r.value.recipe == db.recipes[id]
    ensures r.Success? ==> r.value.author == Comments.PopulatedUser(users, r.value.recipe.authorId)
    ensures r.Success? ==> r.value.likeCount == LikeCount(likes, id)
    ensures r.Success? ==> |r.value.comments| == |commentIds|
    ensures r.Success? ==> NewestFirst(commentIds, Comments.CreatedAt(comments.comments))
    ensures r.Success? ==> multiset(commentIds) == multiset(Comments.OnRecipe(comments.comments, id))
    ensures r.Success? ==> forall k :: 0 <= k < |commentIds| ==>
              && commentIds[k] in comments.comments
              && r.value.comments[k] == Moved(Comments.CommentObject(commentIds[k], comments.comments[commentIds[k]], users), "authorId", "author")
              && "authorId" !in r.value.comments[k] && "author" in r.value.comments[k]
              && r.value.comments[k]["author"] == Comments.PopulatedUser(users, comments.comments[commentIds[k]].author)
  {
    commentIds := [];
    if id !in db.recipes {
      return ErrorReply(NotFound(RecipeNotFound)), commentIds;
    }
    var store := comments.comments;
    commentIds := Comments.NewestOnRecipe(store, id);
    ghost var want := seq(|commentIds|, k requires 0 <= k < |commentIds| =>
      Moved(Comments.CommentObject(commentIds[k], store[commentIds[k]], users), "authorId", "author"));
    var shaped: seq<map<string, JsValue>> := [];
    var i := 0;
    while i < |commentIds|
      invariant 0 <= i <= |commentIds| && shaped == want[..i]
    {
      var c := new JsObject(Comments.CommentObject(commentIds[i], store[commentIds[i]], users));
      c.MoveKey("authorId", "author");
      assert c.props == want[i];
      TakeOneMore(want, i);
      shaped := shaped + [c.props];
      i := i + 1;
    }
    assert shaped == want;
    forall k | 0 <= k < |commentIds|
      ensures "authorId" !in shaped[k] && "author" in shaped[k]
      ensures shaped[k]["author"] == Comments.PopulatedUser(users, store[commentIds[k]].author)
    {
      ShapedComment(commentIds[k], store[commentIds[k]], users);
    }
    var recipe := db.recipes[id];
    r := Success(200, RecipeDetail(recipe, Comments.PopulatedUser(users, recipe.authorId), LikeCount(likes, id), shaped));
  }

  /** A comment with `authorId` renamed to `author` carries the populated
      author under the new key only. */
  lemma ShapedComment(id: Id, c: Comments.Comment, users: map<Id, string>)
    ensures var m := Moved(Comments.CommentObject(id, c, users), "authorId", "author");
            "authorId" !in m && "author" in m && m["author"] == Comments.PopulatedUser(users, c.author)
  {
    var o := Comments.CommentObject(id, c, users);
    assert "authorId" in o && o["authorId"] == Comments.PopulatedUser(users, c.author);
  }
}
