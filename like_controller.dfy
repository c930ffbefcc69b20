/** `likeRecipe` of recipe-api/src/controllers/likeController.js: a like is
    a (user, recipe) pair, and a request toggles the caller's. The source
    filters on `recipeId` while recipe-api/src/models/Like.js names the
    field `recipe`; the model uses the one intended key, the recipe id. */
module LikeController {
  import opened Http
  import opened ObjectIds
  import opened RecipeModel
  import opened RecipeController

  /** The Like collection as (user, recipe) pairs. Being a set, it holds at
      most one like per pair: the unique index of the Like model. */
  class LikeStore {
    var likes: set<(Id, Id)>

    constructor (init: set<(Id, Id)>)
      ensures likes == init
    {
      likes := init;
    }
  }

  /** The store after one toggle: the caller's like removed if it was there,
      added otherwise. */
  function Toggled(likes: set<(Id, Id)>, user: Id, recipe: Id): (r: set<(Id, Id)>)
    ensures (user, recipe) in r <==> (user, recipe) !in likes
    ensures forall p :: p != (user, recipe) ==> (p in r <==> p in likes)
  {
    if (user, recipe) in likes then likes - {(user, recipe)} else likes + {(user, recipe)}
  }

  /** Two toggles by the same user restore the store. */
  lemma ToggleTwice(likes: set<(Id, Id)>, user: Id, recipe: Id)
    ensures Toggled(Toggled(likes, user, recipe), user, recipe) == likes
  {
  }

  function LikesOf(likes: set<(Id, Id)>, recipe: Id): set<(Id, Id)> {
    set l | l in likes && l.1 == recipe
  }

  /** A toggle moves the recipe's like count by exactly one, down when the
      like was there and up otherwise, and leaves every other recipe's count. */
  lemma ToggleCount(likes: set<(Id, Id)>, user: Id, recipe: Id)
    ensures (user, recipe) in likes ==> LikeCount(Toggled(likes, user, recipe), recipe) == LikeCount(likes, recipe) - 1
    ensures (user, recipe) !in likes ==> LikeCount(Toggled(likes, user, recipe), recipe) == LikeCount(likes, recipe) + 1
    ensures forall other :: other != recipe ==> LikeCount(Toggled(likes, user, recipe), other) == LikeCount(likes, other)
  {
    var t := Toggled(likes, user, recipe);
    if (user, recipe) in likes {
      assert LikesOf(t, recipe) == LikesOf(likes, recipe) - {(user, recipe)};
    } else {
      assert LikesOf(t, recipe) == LikesOf(likes, recipe) + {(user, recipe)};
    }
    forall other | other != recipe
      ensures LikeCount(t, other) == LikeCount(likes, other)
    {
      assert LikesOf(t, other) == LikesOf(likes, other);
    }
  }

  /** The body of the answer: `{ liked, likeCount }`. */
  datatype LikeState = LikeState(liked: bool, likeCount: nat)

  /** `likeRecipe`: 404 for a missing recipe, which leaves the store alone;
      otherwise the caller's like is toggled and the new count returned. */
  method LikeRecipe(recipes: RecipeStore, store: LikeStore, user: Id, recipe: Id) returns (r: Reply<LikeState>)
    modifies store
    ensures recipe !in recipes.recipes ==> r == Failure(404, RecipeNotFound) && store.likes == old(store.likes)
    ensures recipe in recipes.recipes ==>
              && store.likes == Toggled(old(store.likes), user, recipe)
              && r == Success(200, LikeState((user, recipe) !in old(store.likes), LikeCount(store.likes, recipe)))
  {
    if recipe !in recipes.recipes {
      return ErrorReply(NotFound(RecipeNotFound));
    }
    var removed := (user, recipe) in store.likes;
    if removed {
      store.likes := store.likes - {(user, recipe)};
    } else {
      store.likes := store.likes + {(user, recipe)};
    }
    r := Success(200, LikeState(!removed, LikeCount(store.likes, recipe)));
  }
}
