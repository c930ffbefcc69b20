/** `rateRecipe` and `myRating` of recipe-api/src/controllers/ratingController.js:
    one rating per (user, recipe), and the count and mean that are copied
    onto the recipe after every vote. The source filters ratings on `recipe`
    in one query and on `recipeId` in the others (lines 20, 26, 37, 78); the
    model uses the one intended key, the recipe id. */
module RatingController {
  import opened Wrappers
  import opened Http
  import opened ObjectIds
  import opened RecipeModel
  import opened RatingValidation
  import opened RecipeController

  datatype Rating = Rating(user: Id, recipe: Id, halves: Halves)

  /** At most one rating per (user, recipe): the unique index of
      recipe-api/src/models/Rating.js. */
  predicate Unique(s: seq<Rating>) {
    forall i, j :: 0 <= i < j < |s| ==> s[i].user != s[j].user || s[i].recipe != s[j].recipe
  }

  /** The Rating collection. */
  class RatingStore {
    var ratings: seq<Rating>

    constructor ()
      ensures ratings == []
    {
      ratings := [];
    }

    predicate Valid()
      reads this
    {
      Unique(ratings)
    }
  }

  /** `Rating.findOne({ user, recipe })?.value`, in half stars. */
  function Find(s: seq<Rating>, user: Id, recipe: Id): (r: Option<Halves>)
    ensures r.None? <==> forall i :: 0 <= i < |s| ==> s[i].user != user || s[i].recipe != recipe
    ensures r.Some? ==> exists i :: 0 <= i < |s| && s[i] == Rating(user, recipe, r.value)
  {
    if s == [] then None
    else if s[0].user == user && s[0].recipe == recipe then Some(s[0].halves)
    else
      var r := Find(s[1..], user, recipe);
      assert r.Some? ==> s[1..] <= s[1..] && exists i :: 1 <= i < |s| && s[i] == Rating(user, recipe, r.value);
      r
  }

  /** The store after the upsert `findOneAndUpdate({ user, recipe }, { value },
      { upsert: true })`: the caller's rating replaced, or added. */
  function Upserted(s: seq<Rating>, user: Id, recipe: Id, h: Halves): seq<Rating> {
    if s == [] then [Rating(user, recipe, h)]
    else if s[0].user == user && s[0].recipe == recipe then [Rating(user, recipe, h)] + s[1..]
    else [s[0]] + Upserted(s[1..], user, recipe, h)
  }

  /** The store after `findOneAndDelete({ user, recipe })`. */
  function Cleared(s: seq<Rating>, user: Id, recipe: Id): seq<Rating> {
    if s == [] then []
    else if s[0].user == user && s[0].recipe == recipe then s[1..]
    else [s[0]] + Cleared(s[1..], user, recipe)
  }

  /** Neither an upsert nor a clear touches another (user, recipe) pair. */
  lemma {:induction false} UpsertedKeepsOthers(s: seq<Rating>, user: Id, recipe: Id, h: Halves, u: Id, r: Id)
    requires u != user || r != recipe
    ensures Find(Upserted(s, user, recipe, h), u, r) == Find(s, u, r)
  {
    if s != [] && !(s[0].user == user && s[0].recipe == recipe) {
      UpsertedKeepsOthers(s[1..], user, recipe, h, u, r);
    }
  }

  lemma {:induction false} ClearedKeepsOthers(s: seq<Rating>, user: Id, recipe: Id, u: Id, r: Id)
    requires u != user || r != recipe
    ensures Find(Cleared(s, user, recipe), u, r) == Find(s, u, r)
  {
    if s != [] && !(s[0].user == user && s[0].recipe == recipe) {
      ClearedKeepsOthers(s[1..], user, recipe, u, r);
    }
  }

  /** After the upsert the store is still unique and the caller's rating holds `h`. */
  lemma {:induction false} UpsertedSpec(s: seq<Rating>, user: Id, recipe: Id, h: Halves)
    requires Unique(s)
    ensures Unique(Upserted(s, user, recipe, h))
    ensures Find(Upserted(s, user, recipe, h), user, recipe) == Some(h)
  {
    if s != [] && !(s[0].user == user && s[0].recipe == recipe) {
      UpsertedSpec(s[1..], user, recipe, h);
      UpsertedKeepsOthers(s[1..], user, recipe, h, s[0].user, s[0].recipe);
      assert forall i :: 1 <= i < |s| ==> s[i].user != s[0].user || s[i].recipe != s[0].recipe;
      assert Find(s[1..], s[0].user, s[0].recipe).None?;
    } else if s != [] {
      assert forall i :: 1 <= i < |s| ==> s[i].user != user || s[i].recipe != recipe;
    }
  }

  /** After clearing, the store is still unique and the caller has no rating. */
  lemma {:induction false} ClearedSpec(s: seq<Rating>, user: Id, recipe: Id)
    requires Unique(s)
    ensures Unique(Cleared(s, user, recipe))
    ensures Find(Cleared(s, user, recipe), user, recipe) == None
  {
    if s != [] && !(s[0].user == user && s[0].recipe == recipe) {
      ClearedSpec(s[1..], user, recipe);
      ClearedKeepsOthers(s[1..], user, recipe, s[0].user, s[0].recipe);
      assert forall i :: 1 <= i < |s| ==> s[i].user != s[0].user || s[i].recipe != s[0].recipe;
      assert Find(s[1..], s[0].user, s[0].recipe).None?;
    } else if s != [] {
      assert forall i :: 1 <= i < |s| ==> s[i].user != user || s[i].recipe != recipe;
      assert Find(s[1..], user, recipe).None?;
    }
  }

  /** Submitting the value already stored changes nothing. */
  lemma {:induction false} UpsertIdempotent(s: seq<Rating>, user: Id, recipe: Id, h: Halves)
    requires Find(s, user, recipe) == Some(h)
    ensures Upserted(s, user, recipe, h) == s
  {
    if s != [] && !(s[0].user == user && s[0].recipe == recipe) {
      UpsertIdempotent(s[1..], user, recipe, h);
    }
  }

  /** How many ratings the recipe has. */
  function Count(s: seq<Rating>, recipe: Id): (n: nat)
    ensures n <= |s|
  {
    if s == [] then 0 else (if s[0].recipe == recipe then 1 else 0) + Count(s[1..], recipe)
  }

  /** The sum of the recipe's ratings, in half stars. */
  function SumHalves(s: seq<Rating>, recipe: Id): int {
    if s == [] then 0 else (if s[0].recipe == recipe then s[0].halves else 0) + SumHalves(s[1..], recipe)
  }

  /** Every rating is between 1 and 10 half stars, so the sum is too, per rating. */
  lemma {:induction false} SumBounds(s: seq<Rating>, recipe: Id)
    ensures Count(s, recipe) <= SumHalves(s, recipe) <= 10 * Count(s, recipe)
  {
    if s != [] {
      SumBounds(s[1..], recipe);
    }
  }

  /** After an upsert the recipe has at least one rating. */
  lemma {:induction false} UpsertedCounts(s: seq<Rating>, user: Id, recipe: Id, h: Halves)
    ensures Count(Upserted(s, user, recipe, h), recipe) >= 1
  {
    if s != [] && !(s[0].user == user && s[0].recipe == recipe) {
      UpsertedCounts(s[1..], user, recipe, h);
    }
  }

  /** The exact mean, in stars: the `$avg` of the `$group` stage. */
  function Mean(s: seq<Rating>, recipe: Id): (m: real)
    requires Count(s, recipe) > 0
    ensures MinRating <= m <= MaxRating
  {
    SumBounds(s, recipe);
    var c := Count(s, recipe) as real;
    var sum := SumHalves(s, recipe) as real;
    MeanOfBoundedSum(sum, c);
    sum / (2.0 * c)
  }

  lemma MeanOfBoundedSum(sum: real, c: real)
    requires c > 0.0 && c <= sum <= 10.0 * c
    ensures MinRating <= sum / (2.0 * c) <= MaxRating
  {
    var q := sum / (2.0 * c);
    assert q * (2.0 * c) == sum;
  }

  /** What the aggregate yields: the count and the rounded mean, or `0` and `0`
      for a recipe with no ratings (`agg[0] || {}`). `round` is the `$round`
      to one decimal, which keeps a value inside 0..5. */
  function Stats(s: seq<Rating>, recipe: Id, round: real -> real): (r: (nat, real))
    requires forall x :: 0.0 <= x <= MaxAverageRating ==> 0.0 <= round(x) <= MaxAverageRating
    ensures r.0 == Count(s, recipe)
    ensures r.0 == 0 ==> r.1 == 0.0
    ensures r.0 > 0 ==> r.1 == round(Mean(s, recipe))
    ensures 0.0 <= r.1 <= MaxAverageRating
  {
    var n := Count(s, recipe);
    if n == 0 then (0, 0.0) else (n, round(Mean(s, recipe)))
  }

  /** The body of a `rateRecipe` answer: `{ ratingCount, averageRating }`. */
  datatype RatingSummary = RatingSummary(ratingCount: nat, averageRating: real)

  /** `rateRecipe`. `value` is the submitted value in half stars, `None` for
      `null` or an absent value; `now` is the clock. */
  method RateRecipe(recipes: RecipeStore, store: RatingStore, user: Id, recipe: Id, value: Option<Halves>,
                    now: int, round: real -> real)
    returns (r: Reply<Option<RatingSummary>>)
    requires recipes.Valid() && store.Valid()
    requires forall x :: 0.0 <= x <= MaxAverageRating ==> 0.0 <= round(x) <= MaxAverageRating
    modifies recipes, store
    ensures recipes.Valid() && store.Valid()
    ensures recipe !in old(recipes.recipes) ==>
              r == Failure(404, RecipeNotFound) && recipes.recipes == old(recipes.recipes) && store.ratings == old(store.ratings)
    ensures recipe in old(recipes.recipes) && value.None? ==>
              r == Success(204, None) && recipes.recipes == old(recipes.recipes) &&
              store.ratings == Cleared(old(store.ratings), user, recipe)
    ensures recipe in old(recipes.recipes) && value.Some? ==>
              var s := Upserted(old(store.ratings), user, recipe, value.value);
              var st := Stats(s, recipe, round);
              && store.ratings == s
              && recipes.recipes == old(recipes.recipes)[recipe := old(recipes.recipes)[recipe].(ratingCount := st.0, averageRating := st.1, updatedAt := now)]
              && r == Success(200, Some(RatingSummary(st.0, st.1)))
              && st.0 >= 1
  {
    if recipe !in recipes.recipes {
      return ErrorReply(NotFound(RecipeNotFound));
    }
    if value.None? {
      ClearedSpec(store.ratings, user, recipe);
      store.ratings := Cleared(store.ratings, user, recipe);
      return Success(204, None);
    }
    UpsertedSpec(store.ratings, user, recipe, value.value);
    UpsertedCounts(store.ratings, user, recipe, value.value);
    store.ratings := Upserted(store.ratings, user, recipe, value.value);
    var st := Stats(store.ratings, recipe, round);
    var rec := recipes.recipes[recipe];
    recipes.recipes := recipes.recipes[recipe := rec.(ratingCount := st.0, averageRating := st.1, updatedAt := now)];
    r := Success(200, Some(RatingSummary(st.0, st.1)));
  }

  /** `myRating`: the caller's stored value in stars, or `null` (here `None`). */
  function MyRating(s: seq<Rating>, user: Id, recipe: Id): (r: Option<real>)
    ensures r.None? <==> forall i :: 0 <= i < |s| ==> s[i].user != user || s[i].recipe != recipe
    ensures r.Some? ==> exists h: Halves :: Rating(user, recipe, h) in s && r.value == Stars(h)
  {
    match Find(s, user, recipe)
    case None => None
    case Some(h) =>
      assert Rating(user, recipe, h) in s;
      Some(Stars(h))
  }

  /** Re-submitting the stored value leaves the store and the answer as they were. */
  lemma ResubmitSameValue(s: seq<Rating>, user: Id, recipe: Id, h: Halves, round: real -> real)
    requires Find(s, user, recipe) == Some(h)
    requires forall x :: 0.0 <= x <= MaxAverageRating ==> 0.0 <= round(x) <= MaxAverageRating
    ensures Upserted(s, user, recipe, h) == s
    ensures Stats(Upserted(s, user, recipe, h), recipe, round) == Stats(s, recipe, round)
  {
    UpsertIdempotent(s, user, recipe, h);
  }
}
