/** The comment handlers of recipe-api/src/controllers/commentController.js.
    They read the recipe id from `req.params.recipeId`, which the router at
    recipe-api/src/routes/recipe.js names `:id`; the model passes the recipe
    id the route intends. Comments are filed under `author` (see Comments). */
module CommentController {
  import opened Wrappers
  import opened Text
  import opened Js
  import opened Http
  import opened ObjectIds
  import opened Listing
  import opened Comments
  import RecipeController

  const RecipeNotFound := "Recipe not found"
  const CommentNotFound := "Comment not found"
  const EditForbidden := "Not allowed to edit this comment"
  const DeleteForbidden := "Not allowed to delete this comment"
  const Deleted := "Comment deleted"
  const AddFailed := "Server error adding comment"
  const UpdateFailed := "Server error updating comment"

  /** `addComment`. `content` has passed the comment schema; the stored text is
      its trim, and a text that trims to "" fails the model's `required` (a 500).
      The answer is the new comment as a plain object, its populated author
      moved from `authorId` to `author` in place. */
  method AddComment(recipes: RecipeController.RecipeStore, store: CommentStore, users: map<Id, string>,
                    user: Id, recipe: Id, content: string, newId: Id, now: int)
    returns (r: Reply<map<string, JsValue>>)
    requires newId !in store.comments
    modifies store
    ensures recipe !in recipes.recipes ==> r == Failure(404, RecipeNotFound) && store.comments == old(store.comments)
    ensures recipe in recipes.recipes && Trim(content) == "" ==>
              r == Failure(500, AddFailed) && store.comments == old(store.comments)
    ensures recipe in recipes.recipes && Trim(content) != "" ==>
              var c := Comment(user, recipe, Trim(content), now, now);
              && store.comments == old(store.comments)[newId := c]
              && r == Success(201, Moved(CommentObject(newId, c, users), "authorId", "author"))
              && "authorId" !in r.value && r.value["author"] == PopulatedUser(users, user)
              && r.value["content"] == Str(Trim(content))
  {
    if recipe !in recipes.recipes {
      return Failure(404, RecipeNotFound);
    }
    var text := Trim(content);
    if text == "" {
      return Failure(500, AddFailed);
    }
    var c := Comment(user, recipe, text, now, now);
    store.comments := store.comments[newId := c];
    var obj := new JsObject(CommentObject(newId, c, users));
    obj.MoveKey("authorId", "author");
    r := Success(201, obj.props);
  }

  /** The guard shared by update and delete: 404 unless the comment exists on
      this recipe, checked before the 403 for anyone but its author. */
  function Guard(comments: map<Id, Comment>, recipe: Id, id: Id, user: Id, forbidden: string): (g: Option<Error>)
    ensures g.None? <==> id in comments && comments[id].recipe == recipe && comments[id].author == user
    ensures (id !in comments || comments[id].recipe != recipe) ==> g == Some(NotFound(CommentNotFound))
    ensures id in comments && comments[id].recipe == recipe && comments[id].author != user ==> g == Some(Forbidden(forbidden))
  {
    if id !in comments || comments[id].recipe != recipe then Some(NotFound(CommentNotFound))
    else if comments[id].author != user then Some(Forbidden(forbidden))
    else None
  }

  /** `updateComment`: after the guard, only `content` changes, to the trimmed
      text. The handler also assigns `updatedAt`, which the recipe-api Comment
      schema does not declare, so Mongoose's strict mode does not store it.
      The answer is the saved comment with its author populated. */
  method UpdateComment(store: CommentStore, users: map<Id, string>, user: Id, recipe: Id, id: Id, content: string)
    returns (r: Reply<map<string, JsValue>>)
    modifies store
    ensures Guard(old(store.comments), recipe, id, user, EditForbidden).Some? ==>
              r == ErrorReply(Guard(old(store.comments), recipe, id, user, EditForbidden).value) && store.comments == old(store.comments)
    ensures Guard(old(store.comments), recipe, id, user, EditForbidden).None? && Trim(content) == "" ==>
              r == Failure(500, UpdateFailed) && store.comments == old(store.comments)
    ensures Guard(old(store.comments), recipe, id, user, EditForbidden).None? && Trim(content) != "" ==>
              var c := old(store.comments)[id].(content := Trim(content));
              store.comments == old(store.comments)[id := c] && r == Success(200, ListedComment(id, c, users, "name", false))
  {
    if id !in store.comments || store.comments[id].recipe != recipe {
      return ErrorReply(NotFound(CommentNotFound));
    }
    var comment := store.comments[id];
    if comment.author != user {
      return ErrorReply(Forbidden(EditForbidden));
    }
    var text := Trim(content);
    if text == "" {
      return Failure(500, UpdateFailed);
    }
    comment := comment.(content := text);
    store.comments := store.comments[id := comment];
    r := Success(200, ListedComment(id, comment, users, "name", false));
  }

  /** `getAllComments`: the recipe's comments, each once, newest first, each
      with its author populated under `author` with the user field `field`
      (`name` here, `username` in the legacy handler, whose schema also has
      `timestamps`). */
  method GetAllComments(store: CommentStore, users: map<Id, string>, field: string, timestamps: bool, recipe: Id)
    returns (r: Reply<seq<map<string, JsValue>>>, ids: seq<Id>)
    ensures r.Success? && r.status == 200 && |r.value| == |ids|
    ensures NewestFirst(ids, CreatedAt(store.comments))
    ensures multiset(ids) == multiset(OnRecipe(store.comments, recipe))
    ensures forall k :: 0 <= k < |ids| ==>
              ids[k] in store.comments && r.value[k] == ListedComment(ids[k], store.comments[ids[k]], users, field, timestamps)
  {
    var comments := store.comments;
    ids := NewestOnRecipe(comments, recipe);
    r := Success(200, seq(|ids|, k requires 0 <= k < |ids| => ListedComment(ids[k], comments[ids[k]], users, field, timestamps)));
  }

  /** `deleteComment`: after the guard, exactly that comment is removed. */
  method DeleteComment(store: CommentStore, user: Id, recipe: Id, id: Id) returns (r: Reply<string>)
    modifies store
    ensures Guard(old(store.comments), recipe, id, user, DeleteForbidden).Some? ==>
              r == ErrorReply(Guard(old(store.comments), recipe, id, user, DeleteForbidden).value) && store.comments == old(store.comments)
    ensures Guard(old(store.comments), recipe, id, user, DeleteForbidden).None? ==>
              r == Success(200, Deleted) && store.comments == old(store.comments) - {id}
  {
    if id !in store.comments || store.comments[id].recipe != recipe {
      return ErrorReply(NotFound(CommentNotFound));
    }
    if store.comments[id].author != user {
      return ErrorReply(Forbidden(DeleteForbidden));
    }
    store.comments := store.comments - {id};
    r := Success(200, Deleted);
  }
}
