/** The stored Recipe document of recipe-api/src/models/Recipe.js and the
    rules Mongoose enforces on it when it is saved. */
module RecipeModel {
  import opened Wrappers
  import opened Text
  import opened ObjectIds

  /** `validUnits` */
  const ValidUnits: seq<string> := ["g", "kg", "ml", "l", "tsp", "tbsp", "cup", "piece"]

  /** Smallest ingredient amount. */
  const MinAmount: real := 0.01

  /** Smallest cooking time, in minutes. */
  const MinCookingTime: real := 1.0

  /** Largest average rating. */
  const MaxAverageRating: real := 5.0

  /** An ingredient sub-document (it has no `_id` of its own). */
  datatype Ingredient = Ingredient(name: string, amount: real, unit: string)

  /** A stored recipe. The `_id` is the key it is filed under; `createdAt` and
      `updatedAt` are the `timestamps` Mongoose maintains, as clock ticks. */
  datatype Recipe = Recipe(
    title: string,
    description: Option<string>,
    cookingTime: real,
    ingredients: seq<Ingredient>,
    instructions: seq<string>,
    image: Option<string>,
    authorId: Id,
    averageRating: real,
    ratingCount: int,
    createdAt: int,
    updatedAt: int)

  /** A Mongoose `required` string: present and not empty. */
  predicate RequiredString(s: string) {
    s != ""
  }

  /** The ingredient schema: a required, trimmed name, an amount of at least
      0.01 and a unit from `validUnits`. */
  predicate IngredientValid(i: Ingredient) {
    RequiredString(i.name) && IsTrimmed(i.name) && i.amount >= MinAmount && i.unit in ValidUnits
  }

  /** The `instructions` validator: every step has a non-empty trim. It holds
      for the default, the empty list. */
  predicate InstructionsValid(steps: seq<string>) {
    forall k :: 0 <= k < |steps| ==> Trim(steps[k]) != ""
  }

  /** Everything the schema checks when a recipe is saved. */
  predicate RecipeValid(r: Recipe) {
    && RequiredString(r.title)
    && (r.description.Some? ==> IsTrimmed(r.description.value))
    && r.cookingTime >= MinCookingTime
    && (forall k :: 0 <= k < |r.ingredients| ==> IngredientValid(r.ingredients[k]))
    && InstructionsValid(r.instructions)
    && 0.0 <= r.averageRating <= MaxAverageRating
    && r.ratingCount >= 0
  }

  /** The value an ingredient is stored with: `trim: true` on the name. */
  function CastIngredient(name: string, amount: real, unit: string): (i: Ingredient)
    ensures IsTrimmed(i.name) && i.amount == amount && i.unit == unit
    ensures IngredientValid(i) <==> Trim(name) != "" && amount >= MinAmount && unit in ValidUnits
  {
    Ingredient(Trim(name), amount, unit)
  }

  /** The `likeCount` virtual: how many likes, as (user, recipe) pairs, name
      this recipe. */
  function LikeCount(likes: set<(Id, Id)>, recipe: Id): (n: nat)
    ensures n <= |likes|
    ensures n == 0 <==> forall u :: (u, recipe) !in likes
  {
    var mine := set l | l in likes && l.1 == recipe;
    SubsetSize(mine, likes);
    assert mine != {} ==> exists u :: (u, recipe) in likes by {
      if mine != {} {
        var l :| l in mine;
        assert (l.0, recipe) == l;
      }
    }
    assert (exists u :: (u, recipe) in likes) ==> mine != {} by {
      if u :| (u, recipe) in likes {
        assert (u, recipe) in mine;
      }
    }
    |mine|
  }

  lemma {:induction false} SubsetSize<T>(a: set<T>, b: set<T>)
    requires a <= b
    ensures |a| <= |b|
  {
    if a != {} {
      var x :| x in a;
      SubsetSize(a - {x}, b - {x});
    }
  }

  /** The `id` virtual: the hex string of `_id`, which reads back to it. */
  function IdVirtual(oid: ObjectId): (id: Id)
    ensures |id| == 24
    ensures ParseHex(id) == Some(oid)
  {
    ParseToHexString(oid);
    ToHexString(oid)
  }
}
