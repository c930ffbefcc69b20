/** The paginated per-user listings of the legacy back end,
    src/controllers/userController.js: `getLikes` (the recipes a user liked)
    and `getComments` (the comments a user wrote). Both read `page` and
    `limit` from the query string with `Math.max(parseInt(q) || d, 1)`, answer
    404 for an unknown user before reading anything else, and return one
    newest-first window of the user's records with the total count. */
module LegacyUsers {
  import opened Wrappers
  import opened Text
  import opened Numerals
  import opened ObjectIds
  import opened Listing
  import opened Comments
  import LegacyRecipeModel

  const UserNotFound := "USER_NOT_FOUND"
  const NoSuchUser := "No user with given ID"
  const LikesFailed := "Server error fetching likes"
  const CommentsFailed := "Server error fetching comments"
  const DefaultPage := 1
  const DefaultLimit := 10

  // ---------------------------------------------------------------------
  // parseInt

  /** The longest run of `radix` digits at the front of `body`, read as a
      number; `None` when there is none. */
  function ReadDigits(body: string, radix: nat): Option<int> {
    var n := DigitRun(body, radix);
    if n == 0 then None else Some(Value(body[..n], radix))
  }

  /** The digits after the sign: `0x`/`0X` selects radix 16, otherwise 10. */
  function ReadUnsigned(u: string): Option<int> {
    if |u| >= 2 && u[0] == '0' && (u[1] == 'x' || u[1] == 'X') then ReadDigits(u[2..], 16)
    else ReadDigits(u, 10)
  }

  /** `parseInt(s)` with no radix (section 19.2.5 of ECMA-262): leading white
      space is skipped, one sign is read, `0x`/`0X` selects radix 16, and the
      longest run of digits is read; `NaN` (no digit at all) is `None`.
      Precision beyond 2^53 is not modelled. */
  function ParseInt(s: string): Option<int> {
    var t := TrimStart(s);
    if t != [] && t[0] == '-' then
      var v := ReadUnsigned(t[1..]);
      if v.None? then None else Some(-v.value)
    else if t != [] && t[0] == '+' then ReadUnsigned(t[1..])
    else ReadUnsigned(t)
  }

  /** A decimal numeral is read whole (leading zeros included). */
  lemma ReadUnsignedNumeral(s: string)
    requires s != [] && forall i :: 0 <= i < |s| ==> '0' <= s[i] <= '9'
    ensures ReadUnsigned(s) == Some(Value(s, 10) as int)
  {
    forall i | 0 <= i < |s| ensures CharDigit(s[i]) < 10 {
    }
    DigitRunOfDigits(s, 10);
    assert s[..|s|] == s;
    assert |s| >= 2 ==> s[1] != 'x' && s[1] != 'X';
  }

  /** `trimStart` leaves a string that does not start with white space alone. */
  lemma TrimStartUnspaced(s: string)
    requires s != [] && !IsSpace(s[0])
    ensures TrimStart(s) == s
  {
  }

  /** A numeral with no surrounding text is read whole. */
  lemma ParseIntOfNumeral(s: string)
    requires s != [] && forall i :: 0 <= i < |s| ==> '0' <= s[i] <= '9'
    ensures ParseInt(s) == Some(Value(s, 10) as int)
  {
    ReadUnsignedNumeral(s);
    assert '0' <= s[0] <= '9';
    TrimStartUnspaced(s);
    assert s[0] != '-' && s[0] != '+';
  }

  /** A leading minus sign negates what follows. */
  lemma ParseIntNegated(s: string, x: int)
    requires ReadUnsigned(s) == Some(x)
    ensures ParseInt("-" + s) == Some(-x)
  {
    var m := "-" + s;
    assert m[1..] == s;
    ParseIntMinus(m);
  }

  /** A string that starts with a minus sign is read as the negated number
      that follows it. */
  lemma ParseIntMinus(m: string)
    requires m != [] && m[0] == '-'
    ensures ParseInt(m) == if ReadUnsigned(m[1..]).None? then None else Some(-ReadUnsigned(m[1..]).value)
  {
    TrimStartUnspaced(m);
  }

  /** `parseInt` reads back what `String` writes, with or without a minus sign. */
  lemma ParseIntOfDecimal(n: nat)
    ensures ParseInt(Decimal(n)) == Some(n as int)
    ensures ParseInt("-" + Decimal(n)) == Some(-(n as int))
  {
    ValueOfDecimal(n);
    ParseIntOfNumeral(Decimal(n));
    ReadUnsignedNumeral(Decimal(n));
    ParseIntNegated(Decimal(n), n);
  }

  // ---------------------------------------------------------------------
  // page, limit and skip

  /** `Math.max(parseInt(q) || d, 1)`: a missing, unparsable or zero value
      takes the default `d`, and anything below 1 becomes 1. */
  function Clamped(q: Option<string>, d: int): (r: int)
    requires d >= 1
    ensures r >= 1
    ensures (q.None? || ParseInt(q.value).None? || ParseInt(q.value) == Some(0)) ==> r == d
    ensures q.Some? && ParseInt(q.value).Some? && ParseInt(q.value).value != 0 ==>
              r == if ParseInt(q.value).value < 1 then 1 else ParseInt(q.value).value
  {
    var parsed := if q.Some? then ParseInt(q.value) else None;
    var v := if parsed.None? || parsed.value == 0 then d else parsed.value;
    if v < 1 then 1 else v
  }

  /** A positive number in the query is taken as it is. */
  lemma ClampedPositive(n: nat, d: int)
    requires n >= 1 && d >= 1
    ensures Clamped(Some(Decimal(n)), d) == n
  {
    ParseIntOfDecimal(n);
  }

  /** Zero falls back to the default, but a negative number becomes 1: with
      `limit=0` a page holds 10 items, with `limit=-5` it holds one. */
  lemma ZeroAndNegativeDiffer(n: nat)
    requires n >= 1
    ensures Clamped(Some(Decimal(0)), DefaultLimit) == DefaultLimit
    ensures Clamped(Some("-" + Decimal(n)), DefaultLimit) == 1
  {
    assert Clamped(Some(Decimal(0)), DefaultLimit) == DefaultLimit by {
      ParseIntOfDecimal(0);
    }
    assert Clamped(Some("-" + Decimal(n)), DefaultLimit) == 1 by {
      ParseIntOfDecimal(n);
    }
  }

  /** `(page - 1) * limit`: how many records lie on the earlier pages. */
  function Skip(page: int, limit: int): nat
    requires page >= 1 && limit >= 1
  {
    (page - 1) * limit
  }

  /** Consecutive pages follow each other without gap or overlap. */
  lemma PagesTile<T>(s: seq<T>, page: int, limit: int)
    requires page >= 1 && limit >= 1
    ensures Skip(page + 1, limit) == Skip(page, limit) + limit
    ensures Window(s, Skip(page, limit), limit) + Window(s, Skip(page + 1, limit), limit)
            == Window(s, Skip(page, limit), 2 * limit)
  {
    var a := Skip(page, limit);
    assert Skip(page + 1, limit) == a + limit;
    if a + 2 * limit <= |s| {
      assert s[a..a + limit] + s[a + limit..a + 2 * limit] == s[a..a + 2 * limit];
    } else if a + limit <= |s| {
      assert s[a..a + limit] + s[a + limit..|s|] == s[a..|s|];
    }
  }

  // ---------------------------------------------------------------------
  // the handlers

  datatype Like = Like(user: Id, recipe: Id, createdAt: int)

  /** One entry of `getLikes`. The legacy Recipe and User schemas define no
      `cookingTime`, `imageUrl` or `username`, so those keys come out
      undefined and are absent from the JSON. */
  datatype LikedRecipe = LikedRecipe(recipeId: Id, title: string, author: Id, likedAt: string)

  /** One entry of `getComments`. */
  datatype UserComment = UserComment(commentId: Id, recipe: Id, title: string, content: string, createdAt: string)

  /** `{ meta: { total, page, limit }, data }`, or an error body. */
  datatype Listed<T> =
    | Listed(total: nat, page: int, limit: int, data: seq<T>)
    | Refused(status: int, code: string, message: string)

  function LikeTime(likes: map<Id, Like>): Id -> int {
    l => if l in likes then likes[l].createdAt else 0
  }

  function CommentTime(comments: map<Id, Comment>): Id -> int {
    c => if c in comments then comments[c].createdAt else 0
  }

  /** The populated recipe and its author of a like exist; otherwise reading
      `like.recipe._id` or `like.recipe.author._id` throws. */
  predicate LikeResolves(like: Like, users: set<Id>, recipes: map<Id, LegacyRecipeModel.Recipe>) {
    like.recipe in recipes && recipes[like.recipe].author in users
  }

  /** `getLikes`. `userExists` is `User.exists`, which throws (500) for an id
      that is not an ObjectId; `iso` is `Date.prototype.toISOString`. The
      output follows `order`: all the user's likes, each once, newest first. */
  method GetLikes(users: set<Id>, likes: map<Id, Like>, recipes: map<Id, LegacyRecipeModel.Recipe>,
                  id: Id, page: Option<string>, limit: Option<string>, isValid: Id -> bool, iso: int -> string)
    returns (r: Listed<LikedRecipe>, order: seq<Id>)
    ensures !isValid(id) ==> r == Refused(500, "", LikesFailed)
    ensures isValid(id) && id !in users ==> r == Refused(404, UserNotFound, NoSuchUser)
    ensures isValid(id) && id in users ==>
              && NewestFirst(order, LikeTime(likes))
              && multiset(order) == multiset(set l | l in likes && likes[l].user == id)
              && var w := Window(order, Skip(Clamped(page, DefaultPage), Clamped(limit, DefaultLimit)), Clamped(limit, DefaultLimit));
                 if forall k :: 0 <= k < |w| ==> w[k] in likes && LikeResolves(likes[w[k]], users, recipes) then
                   && r.Listed? && r.total == |order|
                   && r.page == Clamped(page, DefaultPage) && r.limit == Clamped(limit, DefaultLimit)
                   && |r.data| == |w| <= r.limit
                   && forall k :: 0 <= k < |w| ==>
                        var like := likes[w[k]];
                        r.data[k] == LikedRecipe(like.recipe, recipes[like.recipe].title, recipes[like.recipe].author, iso(like.createdAt))
                 else r == Refused(500, "", LikesFailed)
  {
    var p := Clamped(page, DefaultPage);
    var n := Clamped(limit, DefaultLimit);
    var skip := Skip(p, n);
    if !isValid(id) {
      return Refused(500, "", LikesFailed), [];
    }
    if id !in users {
      return Refused(404, UserNotFound, NoSuchUser), [];
    }
    var mine := set l | l in likes && likes[l].user == id;
    order := SortNewestFirst(mine, LikeTime(likes));
    var w := Window(order, skip, n);
    if !(forall k :: 0 <= k < |w| ==> w[k] in likes && LikeResolves(likes[w[k]], users, recipes)) {
      return Refused(500, "", LikesFailed), order;
    }
    var data := seq(|w|, k requires 0 <= k < |w| =>
      var like := likes[w[k]];
      LikedRecipe(like.recipe, recipes[like.recipe].title, recipes[like.recipe].author, iso(like.createdAt)));
    r := Listed(|order|, p, n, data);
  }

  /** `getComments`: the same sequence over the comments the user wrote; the
      populated recipe must exist. */
  method GetComments(users: set<Id>, comments: map<Id, Comment>, recipes: map<Id, LegacyRecipeModel.Recipe>,
                     id: Id, page: Option<string>, limit: Option<string>, isValid: Id -> bool, iso: int -> string)
    returns (r: Listed<UserComment>, order: seq<Id>)
    ensures !isValid(id) ==> r == Refused(500, "", CommentsFailed)
    ensures isValid(id) && id !in users ==> r == Refused(404, UserNotFound, NoSuchUser)
    ensures isValid(id) && id in users ==>
              && NewestFirst(order, CommentTime(comments))
              && multiset(order) == multiset(set c | c in comments && comments[c].author == id)
              && var w := Window(order, Skip(Clamped(page, DefaultPage), Clamped(limit, DefaultLimit)), Clamped(limit, DefaultLimit));
                 if forall k :: 0 <= k < |w| ==> w[k] in comments && comments[w[k]].recipe in recipes then
                   && r.Listed? && r.total == |order|
                   && r.page == Clamped(page, DefaultPage) && r.limit == Clamped(limit, DefaultLimit)
                   && |r.data| == |w| <= r.limit
                   && forall k :: 0 <= k < |w| ==>
                        var c := comments[w[k]];
                        r.data[k] == UserComment(w[k], c.recipe, recipes[c.recipe].title, c.content, iso(c.createdAt))
                 else r == Refused(500, "", CommentsFailed)
  {
    var p := Clamped(page, DefaultPage);
    var n := Clamped(limit, DefaultLimit);
    var skip := Skip(p, n);
    if !isValid(id) {
      return Refused(500, "", CommentsFailed), [];
    }
    if id !in users {
      return Refused(404, UserNotFound, NoSuchUser), [];
    }
    var mine := set c | c in comments && comments[c].author == id;
    order := SortNewestFirst(mine, CommentTime(comments));
    var w := Window(order, skip, n);
    if !(forall k :: 0 <= k < |w| ==> w[k] in comments && comments[w[k]].recipe in recipes) {
      return Refused(500, "", CommentsFailed), order;
    }
    var data := seq(|w|, k requires 0 <= k < |w| =>
      var c := comments[w[k]];
      UserComment(w[k], c.recipe, recipes[c.recipe].title, c.content, iso(c.createdAt)));
    r := Listed(|order|, p, n, data);
  }
}
