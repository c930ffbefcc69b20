/** The comment handlers of the legacy back end, src/controllers/commentController.js.
    Unlike the recipe-api variant they reject missing or blank content with 400
    before any lookup, the content limit of src/models/Comment.js (at most 1000
    characters) applies, and an edit refreshes `updatedAt`. Ownership and
    recipe checks are the shared `CommentController.Guard`; listing and delete
    behave as `CommentController.GetAllComments` and `CommentController.DeleteComment`. */
module LegacyCommentController {
  import opened Text
  import opened Http
  import opened ObjectIds
  import opened Js
  import opened Comments
  import opened LegacyRecipeModel
  import LegacyRecipeController
  import CommentController

  const EmptyComment := "Comment cannot be empty"
  const RecipeNotFound := "Recipe not found"
  const AddFailed := "Server error adding comment"
  const UpdateFailed := "Server error updating comment"
  /** The user field the legacy handlers populate the author with. */
  const AuthorField := "username"
  /** `maxlength` of the `content` path. */
  const MaxContentLength := 1000

  /** `!content || !content.trim()`: absent, empty or only white space. */
  predicate Blank(content: Field) {
    !content.Given? || Trim(content.s) == ""
  }

  /** The stored text passes the schema's `maxlength` (it is never empty once
      `Blank` has been ruled out). */
  predicate FitsSchema(text: string) {
    |text| <= MaxContentLength
  }

  /** A blank text is exactly one made of white space only. */
  lemma BlankMeaning(content: Field)
    ensures Blank(content) <==> !content.Given? || AllSpace(content.s)
  {
    if content.Given? {
      TrimEmptyIff(content.s);
    }
  }

  /** `addComment`: 400 for blank content before the recipe lookup, 404 for a
      missing recipe, a 500 when `Comment.create` rejects an over-long text,
      otherwise 201 with the stored comment holding the trimmed text, its
      author populated with `username`. */
  method AddComment(recipes: LegacyRecipeController.RecipeStore, store: CommentStore, users: map<Id, string>,
                    user: Id, recipe: Id, content: Field, newId: Id, now: int)
    returns (r: Reply<map<string, JsValue>>)
    requires newId !in store.comments
    modifies store
    ensures Blank(content) ==> r == Failure(400, EmptyComment) && store.comments == old(store.comments)
    ensures !Blank(content) && recipe !in recipes.recipes ==>
              r == Failure(404, RecipeNotFound) && store.comments == old(store.comments)
    ensures !Blank(content) && recipe in recipes.recipes && !FitsSchema(Trim(content.s)) ==>
              r == Failure(500, AddFailed) && store.comments == old(store.comments)
    ensures !Blank(content) && recipe in recipes.recipes && FitsSchema(Trim(content.s)) ==>
              var c := Comment(user, recipe, Trim(content.s), now, now);
              store.comments == old(store.comments)[newId := c] && r == Success(201, ListedComment(newId, c, users, AuthorField, true))
  {
    if !content.Given? || Trim(content.s) == "" {
      return Failure(400, EmptyComment);
    }
    if recipe !in recipes.recipes {
      return Failure(404, RecipeNotFound);
    }
    var text := Trim(content.s);
    if |text| > MaxContentLength {
      return Failure(500, AddFailed);
    }
    var c := Comment(user, recipe, text, now, now);
    store.comments := store.comments[newId := c];
    r := Success(201, ListedComment(newId, c, users, AuthorField, true));
  }

  /** `updateComment`: in order, 400 for blank content, 404 for a comment that
      is missing or on another recipe, 403 for anyone but its author; then only
      `content` (trimmed) and `updatedAt` change, and the answer is the saved
      comment with its author populated with `username`. */
  method UpdateComment(store: CommentStore, users: map<Id, string>, user: Id, recipe: Id, id: Id, content: Field, now: int)
    returns (r: Reply<map<string, JsValue>>)
    modifies store
    ensures Blank(content) ==> r == Failure(400, EmptyComment) && store.comments == old(store.comments)
    ensures !Blank(content) && CommentController.Guard(old(store.comments), recipe, id, user, CommentController.EditForbidden).Some? ==>
              && r == ErrorReply(CommentController.Guard(old(store.comments), recipe, id, user, CommentController.EditForbidden).value)
              && store.comments == old(store.comments)
    ensures !Blank(content) && CommentController.Guard(old(store.comments), recipe, id, user, CommentController.EditForbidden).None? ==>
              if FitsSchema(Trim(content.s)) then
                var c := old(store.comments)[id].(content := Trim(content.s), updatedAt := now);
                store.comments == old(store.comments)[id := c] && r == Success(200, ListedComment(id, c, users, AuthorField, true))
              else
                r == Failure(500, UpdateFailed) && store.comments == old(store.comments)
  {
    if !content.Given? || Trim(content.s) == "" {
      return Failure(400, EmptyComment);
    }
    var guard := CommentController.Guard(store.comments, recipe, id, user, CommentController.EditForbidden);
    if guard.Some? {
      return ErrorReply(guard.value);
    }
    var text := Trim(content.s);
    if |text| > MaxContentLength {
      return Failure(500, UpdateFailed);
    }
    var c := store.comments[id];
    c := c.(content := text, updatedAt := now);
    store.comments := store.comments[id := c];
    r := Success(200, ListedComment(id, c, users, AuthorField, true));
  }
}
