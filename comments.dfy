/** The Comment collection shared by both comment controllers, and the
    newest-first listing of one recipe's comments. The recipe-api schema
    (recipe-api/src/models/Comment.js) names the author key `authorId` while
    its controller reads `comment.author`; the model files every comment
    under the one intended key, `author`, as the legacy schema does. */
module Comments {
  import opened Js
  import opened ObjectIds
  import opened Listing

  datatype Comment = Comment(author: Id, recipe: Id, content: string, createdAt: int, updatedAt: int)

  /** The Comment collection, keyed by comment id. */
  class CommentStore {
    var comments: map<Id, Comment>

    constructor (init: map<Id, Comment>)
      ensures comments == init
    {
      comments := init;
    }
  }

  /** The ids of the comments on `recipe`: `Comment.find({ recipe })`. */
  function OnRecipe(comments: map<Id, Comment>, recipe: Id): (ids: set<Id>)
    ensures forall id :: id in ids <==> id in comments && comments[id].recipe == recipe
  {
    set id | id in comments && comments[id].recipe == recipe
  }

  /** The creation time of a stored comment (0 for an id not in the store). */
  function CreatedAt(comments: map<Id, Comment>): Id -> int {
    id => if id in comments then comments[id].createdAt else 0
  }

  /** `Comment.find({ recipe }).sort({ createdAt: -1 })`: the ids of the
      recipe's comments, each once, newest first. */
  method NewestOnRecipe(comments: map<Id, Comment>, recipe: Id) returns (ids: seq<Id>)
    ensures NewestFirst(ids, CreatedAt(comments))
    ensures multiset(ids) == multiset(OnRecipe(comments, recipe))
    ensures forall k :: 0 <= k < |ids| ==> ids[k] in comments && comments[ids[k]].recipe == recipe
  {
    ids := SortNewestFirst(OnRecipe(comments, recipe), CreatedAt(comments));
    forall k | 0 <= k < |ids|
      ensures ids[k] in comments && comments[ids[k]].recipe == recipe
    {
      assert ids[k] in multiset(ids);
    }
  }

  /** The user document `populate(path, field)` puts in place of an author
      id: `{ _id, [field]: ... }`, where `users` maps each user id to that
      field's value, or `null` when no such user exists. */
  function PopulatedField(users: map<Id, string>, id: Id, field: string): (v: JsValue)
    ensures v.Null? <==> id !in users
    ensures v.Obj? ==> v.props.Keys == {"_id", field} && v.props[field] == Str(users[id])
    ensures v.Obj? && field != "_id" ==> v.props["_id"] == Str(id)
  {
    if id in users then Obj(map["_id" := Str(id)][field := Str(users[id])]) else Null
  }

  /** `populate(path, 'name')`. */
  function PopulatedUser(users: map<Id, string>, id: Id): (v: JsValue)
    ensures v.Null? <==> id !in users
    ensures v.Obj? ==> v.props == map["_id" := Str(id), "name" := Str(users[id])]
  {
    PopulatedField(users, id, "name")
  }

  /** A stored comment as `toObject()` gives it, after its author has been
      populated under the schema's key `authorId`. */
  function CommentObject(id: Id, c: Comment, users: map<Id, string>): map<string, JsValue> {
    map["_id" := Str(id), "authorId" := PopulatedUser(users, c.author), "recipe" := Str(c.recipe),
        "content" := Str(c.content), "createdAt" := Num(c.createdAt as real)]
  }

  /** A comment document with its author populated under `author` with the
      user field `field`, as `populate('author', field)` leaves it and `res.json`
      sends it. A schema with `timestamps` adds `updatedAt`. */
  function ListedComment(id: Id, c: Comment, users: map<Id, string>, field: string, timestamps: bool): (m: map<string, JsValue>)
    ensures "authorId" !in m && "author" in m && m["author"] == PopulatedField(users, c.author, field)
    ensures "_id" in m && m["_id"] == Str(id) && "content" in m && m["content"] == Str(c.content)
    ensures "updatedAt" in m <==> timestamps
    ensures timestamps ==> m["updatedAt"] == Num(c.updatedAt as real)
  {
    var m := map["_id" := Str(id), "author" := PopulatedField(users, c.author, field), "recipe" := Str(c.recipe),
                 "content" := Str(c.content), "createdAt" := Num(c.createdAt as real)];
    if timestamps then m["updatedAt" := Num(c.updatedAt as real)] else m
  }

  /** Populating the author under `author` with its name gives the same
      object as populating it under `authorId` and then moving it to
      `author`, as `getRecipeById` does. */
  lemma ListedIsMoved(id: Id, c: Comment, users: map<Id, string>)
    ensures ListedComment(id, c, users, "name", false) == Moved(CommentObject(id, c, users), "authorId", "author")
  {
    var a := ListedComment(id, c, users, "name", false);
    var b := Moved(CommentObject(id, c, users), "authorId", "author");
    assert a.Keys == b.Keys;
  }
}
