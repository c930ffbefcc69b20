# Recipe back end, modelled in Dafny

This project models the server side of a recipe-sharing web application. Signed-in users can do these things:

- create, edit and delete their own recipes;
- rate recipes in half stars, like them and comment on them;
- attach one image to each recipe, uploaded as a base64 `data:` URI.

Anyone can list and search recipes.

The application has two Express/Mongoose back ends; each is described below.

- **`recipe-api/`** is the current one. It has these parts:
  - **Middlewares:**
    - `auth` and `optionalAuth` parse the bearer header;
    - `validateBody` runs a Yup schema and flattens its errors;
    - `validateParam` checks an id parameter and loads its document;
    - `errorHandler` maps an error to a status.
  - **Controllers** for recipes, ratings, likes, comments and images.
  - **Schemas**, with their validity rules.
  - **The `cleanIds` transform**, which renames `_id` to `id`.
- **`src/`** is the older, legacy back end. It has these parts:
  - a recipe controller and recipe routes that filter updates and deletes by id *and* author;
  - a comment controller that rejects blank content up front;
  - a user controller with paged `getLikes` and `getComments`.

## How the model is built

- **Collections** are fields of classes, and the handlers change them in place:
  - recipes: `RecipeController.RecipeStore` and `LegacyRecipeController.RecipeStore`;
  - ratings: `RatingController.RatingStore`;
  - likes: `LikeController.LikeStore`;
  - comments: `Comments.CommentStore`;
  - image files: `ImageController.ImageStore`.
- **Request objects** (`Requests.Request`) and **plain JavaScript objects** (`Js.JsObject`) are classes too, because the middlewares and the comment handler write to them.
- **Handlers** are methods. Each returns the status and body it answers, and its `ensures` gives the new store for every branch.
- **The logic without side effects** is functions with lemmas:
  - step cleaning;
  - search filters;
  - error flattening;
  - header parsing;
  - data URI parsing;
  - extension and MIME mapping;
  - `parseInt`;
  - pagination.
- **Ids** are the lower-case hex strings of twelve-byte `ObjectId`s. Comparing two ids with `toString()` is therefore comparing the ids themselves (`ObjectIds.HexStringInjective`).
- **Yup's cast** (`YupCast`) comes before its tests, as `validate` runs them: `number()` reads numeric strings and `string()` writes numbers as text, and the body `validateBody` stores is the cast one (`RecipeValidation.Strip`, `RatingValidation.HalvesOf`).
- **Ratings** are stored as whole numbers of half stars, from 1 to 10. Mean ratings are exact reals, and the rounding is a parameter.

### Where the source disagrees with itself

The model follows the code. Where the code contradicts itself, the model uses the one key the code evidently intends, as listed below.

- **Rating queries:** they filter on `recipe` in one place and on `recipeId` in the others (recipe-api/src/controllers/ratingController.js lines 20, 26, 37 and 78). The model keys ratings by recipe id.
- **Like queries:** they filter on `recipeId`, but the Like schema names the field `recipe` (recipe-api/src/models/Like.js line 11). The model keys likes by recipe id.
- **The comment author:** the recipe-api Comment schema names the author `authorId` (line 4), while its controller reads `comment.author`. The model files every comment under `author`.
- **The comment handlers' recipe id:** they read `req.params.recipeId`, but the router names that parameter `:id`. The model passes the recipe id the route intends.
- **Thrown errors:** recipe-api/src/index.js never mounts `errorHandler.js`; its own catch-all answers every forwarded error with 500. Each handler's reply therefore gives the status at the point where the error is thrown, which is what `errorHandler.js` would produce. The catch-all's actual behaviour is stated separately (see "## Findings").
- **Instructions on create:** `createRecipeSchema` does not make `instructions` required, but `normalizeSteps` rejects a missing list with a plain `Error`. The result is a 500, not a 400 (`RecipeController.CreateValidButNoSteps`).
- **The legacy user schema** has `name`, not `username`, and the legacy Recipe has no `cookingTime` or `imageUrl`. Those keys of the `getLikes` output are therefore `undefined` and dropped from the JSON.

## Model

| member | source | states |
|---|---|---|
| RecipeController.CleanSteps | recipe-api/src/controllers/recipeController.js:14-21 | every kept step is non-empty and equal to its own trim, and no step is added |
| RecipeController.CleanStepsKeepsOrder | recipe-api/src/controllers/recipeController.js:14-21 | the cleaned list is exactly the non-empty trims of the steps, in their original order |
| RecipeController.ValidatorIffNothingDropped | recipe-api/src/models/Recipe.js:22-26 | the schema's instruction validator accepts a list exactly when cleaning drops none of its steps |
| RecipeController.NormalizeSteps | recipe-api/src/controllers/recipeController.js:9-27 | a non-array and a non-string element are rejected with their messages; an empty result is rejected; a success satisfies the schema validator |
| RecipeController.IngredientsOf | recipe-api/src/models/Recipe.js:8-19 | the stored ingredient list is the cast of each body item in order, and [] when absent |
| RecipeController.NewRecipe | recipe-api/src/controllers/recipeController.js:38-45 | the created document has the caller as author, the cleaned steps, zero rating and count, and both timestamps set to now |
| RecipeController.CreateRecipe | recipe-api/src/controllers/recipeController.js:30-48 | bad steps, or a document the schema rejects on save, give 500 and store nothing; otherwise exactly the new document is stored and answered with 201; the store stays valid |
| RecipeController.CreateValidButNoSteps | recipe-api/src/controllers/recipeController.js:23-25 | a body the create schema accepts, with no `instructions` or only blank steps, is still rejected by `normalizeSteps` |
| RecipeController.UpdatedSteps | recipe-api/src/controllers/recipeController.js:150 | absent instructions keep the stored steps; given ones go through `normalizeSteps` |
| RecipeController.UpdateChangesGivenFields | recipe-api/src/controllers/recipeController.js:145-154 | an update sets exactly the fields that are not undefined in the body; author, rating, count and createdAt are kept; updatedAt becomes now only when some assigned value differs from the stored one, as `save` refreshes it only for a modified document |
| RecipeController.UpdateRecipe | recipe-api/src/controllers/recipeController.js:129-156 | 404 for a missing recipe before 403 for a non-author; then 500 for bad steps or a patch the schema rejects; each leaves the store unchanged; otherwise exactly that recipe is patched, stored and returned, its updatedAt refreshed only when the patch changed it |
| RecipeController.EmptyUpdateKeepsRecipe | recipe-api/src/controllers/recipeController.js:145-154 | a body that gives no field, such as `{}`, is accepted and leaves the recipe exactly as it was, updatedAt included |
| RecipeController.DeleteRecipe | recipe-api/src/controllers/recipeController.js:159-177 | 404, then 403, both leaving the store unchanged; otherwise that one recipe is removed and the answer is 204 |
| RecipeController.SearchTerm | recipe-api/src/controllers/recipeController.js:54-55 | a given title that is not the empty string decides, untrimmed, as `title || ingredient` tests it: the term is its trim, so a title of spaces gives "" and the ingredient is ignored; otherwise the trimmed ingredient when it is not empty, otherwise "" |
| RecipeController.TokenClauses | recipe-api/src/controllers/recipeController.js:60-64 | two clauses per token, the title clause and then the ingredient-name clause, each holding that token |
| RecipeController.BuildFilter | recipe-api/src/controllers/recipeController.js:56-65 | no filter exactly for the empty term; otherwise two clauses per white-space token |
| RecipeController.ClausesMeaning | recipe-api/src/controllers/recipeController.js:61-64 | the `$or` clauses select a recipe exactly when some token matches its title or one of its ingredient names |
| RecipeController.FilterMeaning | recipe-api/src/controllers/recipeController.js:59-68 | a recipe passes the search exactly when the term is empty or one of its tokens matches it |
| RecipeController.FilterPatternsAreTokens | recipe-api/src/controllers/recipeController.js:55-64 | every pattern in the filter is a non-empty token with no white space |
| RecipeController.AuthorName | recipe-api/src/controllers/recipeController.js:80 | the author's name when the user exists and the name is non-empty, else 'Unknown author' |
| RecipeController.SummaryOf | recipe-api/src/controllers/recipeController.js:74-92 | each list entry carries the id, title, rating and author name; `editable` is the viewer id strictly equal to the populated author id |
| RecipeController.EditableMeaning | recipe-api/src/controllers/recipeController.js:73-82 | a signed-in viewer may edit exactly the recipes they wrote whose author still exists; an anonymous viewer sees `editable` exactly for recipes whose author is gone |
| RecipeController.FilterCompilesMeaning | recipe-api/src/controllers/recipeController.js:59-64 | the filter's patterns all compile exactly when the term is empty or every white-space token is a valid pattern |
| RecipeController.ClausesCompile | recipe-api/src/controllers/recipeController.js:61-64 | the two clauses per token compile exactly when every token does |
| RecipeController.GetRecipes | recipe-api/src/controllers/recipeController.js:51-102 | a token that is no valid pattern makes `find` fail, answered 500 'Server error fetching recipes'; otherwise 200 with every recipe the filter selects, each once, newest first, each shaped by `SummaryOf` |
| RecipeController.GetRecipeById | recipe-api/src/controllers/recipeController.js:105-126 | 404 for a missing recipe; otherwise the recipe, its author populated as `{ _id, name }` or null when the user is gone, its like count, and exactly its comments, newest first, each comment's populated `authorId` moved to `author` |
| RecipeModel.CastIngredient | recipe-api/src/models/Recipe.js:8-12 | the stored name is trimmed; the ingredient is valid exactly when its name is non-empty, its amount is at least 0.01 and its unit is one of the eight units |
| RecipeModel.LikeCount | recipe-api/src/models/Recipe.js:51-54 | the count of likes naming the recipe, which is 0 exactly when nobody likes it |
| RecipeModel.IdVirtual | recipe-api/src/models/Recipe.js:57-59 | the `id` virtual is a 24-character hex string that reads back to `_id` |
| YupCast.CastNumber | recipe-api/src/validation/recipe.js:17 | `number()` reads a string with its white space removed as a signed decimal numeral, and leaves a number, and any value it cannot read, as it is |
| YupCast.CastString | recipe-api/src/validation/recipe.js:15 | `string()` turns a number into its text and a boolean into 'true' or 'false', and leaves every other value as it is |
| YupCast.CastStringArray | recipe-api/src/validation/recipe.js:23-24 | `array().of(string())` casts every element of an array, in order, and leaves a non-array as it is |
| YupCast.CastIdempotent | recipe-api/src/validation/recipe.js:15-17 | casting a cast value again changes nothing |
| YupCast.CastKeepsTyped | recipe-api/src/validation/recipe.js:15-17 | a number needs no `number()` cast and a string no `string()` cast |
| YupCast.CastUndefined | recipe-api/src/validation/recipe.js:15-17 | an absent value stays absent under both casts |
| YupCast.NumberOfDecimal | recipe-api/src/validation/recipe.js:17 | a decimal numeral reads as its value, and with a leading minus as its negation |
| YupCast.NumberOfFraction | recipe-api/src/validation/rating.js:4 | a numeral with a point reads as its whole part plus its fraction |
| YupCast.PlacesExact | recipe-api/src/validation/recipe.js:15 | for a number with at most 20 fraction digits, the number of places its text is written with holds it exactly |
| YupCast.UnsignedTextRoundTrip | recipe-api/src/validation/recipe.js:15-17 | the text written for a non-negative number with at most 20 fraction digits reads back as that number |
| YupCast.NumberTextRoundTrip | recipe-api/src/validation/recipe.js:15-17 | the text written for any number with at most 20 fraction digits, sign included, reads back as that number |
| YupCast.CastRoundTrip | recipe-api/src/validation/recipe.js:15-17 | a number with at most 20 fraction digits cast by `string()` and then by `number()` is the same number |
| YupCast.WholeText | recipe-api/src/validation/recipe.js:15 | a whole number is written in decimal with no point |
| YupCast.CastNumeral | recipe-api/src/validation/recipe.js:17 | a decimal numeral with white space on both sides is cast to its value |
| RecipeValidation.IngredientCast | recipe-api/src/validation/recipe.js:4-12 | an ingredient object keeps only `name`, `amount` and `unit`, `amount` cast by `number()` and the others by `string()`, dropping absent values; a non-object is left for the type test |
| RecipeValidation.FieldCast | recipe-api/src/validation/recipe.js:14-32 | each top-level field is cast by its own schema: `cookingTime` as a number, `ingredients` item by item, `instructions` as strings, the rest as strings |
| RecipeValidation.Strip | recipe-api/src/middleware/validateBody.js:5-9 | the body `validate` resolves with under `stripUnknown`: only the schema's keys, each holding its field's cast value, none of them undefined |
| RecipeValidation.IngredientCastIdempotent | recipe-api/src/validation/recipe.js:4-12 | the ingredient cast of a cast ingredient changes nothing |
| RecipeValidation.FieldCastIdempotent | recipe-api/src/validation/recipe.js:14-32 | each field's cast of a cast value changes nothing |
| RecipeValidation.StripIdempotent | recipe-api/src/middleware/validateBody.js:5-9 | validating the body a handler receives again gives the same body, and it is still accepted |
| RecipeValidation.StripKeepsValid | recipe-api/src/validation/recipe.js:14-36 | a body whose values already pass the tests is accepted as it is |
| RecipeValidation.CastAcceptsNumerals | recipe-api/src/validation/recipe.js:15-19 | a body with a number as title and a numeral string as cooking time fails the tests uncast but is accepted, storing the title's text and the cooking time's number |
| RecipeValidation.CreateImpliesUpdate | recipe-api/src/validation/recipe.js:34-36 | every body the create schema accepts, the update schema accepts too, both on cast and on uncast values |
| RecipeValidation.UpdateAcceptsSubsets | recipe-api/src/validation/recipe.js:34-36 | the update schema, cast included, accepts any part of a body it accepts |
| RecipeValidation.UpdateRejectsEmptyTitle | recipe-api/src/validation/recipe.js:15 | `partial` keeps `required`'s non-empty test and its refusal of null: the update schema rejects an empty or null title, as the create schema rejects an empty one |
| RecipeValidation.SvgPrefixRejected | recipe-api/src/validation/recipe.js:26-30 | an svg+xml data URI lacks the image prefix the recipe schema demands |
| RatingValidation.HalvesOf | recipe-api/src/validation/rating.js:3-13 | a value is accepted exactly when its `number()` cast is a number from 0.5 to 5 in half steps, and then the cast value is that number of half stars |
| RatingValidation.AcceptedAreHalfSteps | recipe-api/src/validation/rating.js:4-12 | the accepted values are exactly the ten multiples of 0.5 from 0.5 to 5, given as numbers or as strings that read as them once their white space is removed; null and undefined fail `required` |
| RatingValidation.RatingTextAccepted | recipe-api/src/validation/rating.js:4 | a rating sent as the text of its value is accepted as that rating |
| RatingValidation.StarsTextReadsBack | recipe-api/src/validation/rating.js:4 | the text of every half-star value is cast back to that value |
| RatingValidation.PaddedStarsAccepted | recipe-api/src/validation/rating.js:4-12 | a whole number of stars from 1 to 5, sent as a numeral with white space around it, is accepted as twice that many half stars |
| RatingValidation.HalfStarBelowModelMinimum | recipe-api/src/models/Rating.js:19 | the schema accepts 0.5, below the model's `min: 1` |
| RatingController.Find | recipe-api/src/controllers/ratingController.js:78 | no rating exactly when no record holds the (user, recipe) pair; a found value belongs to such a record |
| RatingController.UpsertedSpec | recipe-api/src/controllers/ratingController.js:25-29 | after the upsert there is still at most one rating per (user, recipe), and the caller's holds the new value |
| RatingController.ClearedSpec | recipe-api/src/controllers/ratingController.js:19-22 | after clearing, ratings stay unique and the caller has none |
| RatingController.UpsertedKeepsOthers | recipe-api/src/controllers/ratingController.js:25-29 | an upsert leaves every other (user, recipe) rating as it was |
| RatingController.ClearedKeepsOthers | recipe-api/src/controllers/ratingController.js:19-22 | a clear leaves every other (user, recipe) rating as it was |
| RatingController.UpsertIdempotent | recipe-api/src/controllers/ratingController.js:25-29 | upserting the value already stored leaves the store unchanged |
| RatingController.Count | recipe-api/src/controllers/ratingController.js:44-46 | the recipe's rating count is at most the number of ratings |
| RatingController.SumBounds | recipe-api/src/controllers/ratingController.js:44-47 | the sum of the recipe's ratings lies between 1 and 10 half stars per rating |
| RatingController.UpsertedCounts | recipe-api/src/controllers/ratingController.js:25-46 | after an upsert the recipe has at least one rating |
| RatingController.Mean | recipe-api/src/controllers/ratingController.js:47 | the exact mean of a rated recipe lies between 0.5 and 5 stars |
| RatingController.Stats | recipe-api/src/controllers/ratingController.js:32-61 | the count is the recipe's number of ratings; the average is 0 with none, otherwise the rounded mean, and always within 0 to 5 |
| RatingController.RateRecipe | recipe-api/src/controllers/ratingController.js:7-71 | 404 changes nothing; a missing value clears the caller's rating and answers 204 without touching the recipe; otherwise an upsert, with the persisted count and average equal to the ones answered |
| RatingController.MyRating | recipe-api/src/controllers/ratingController.js:73-85 | the caller's stored value in stars, or null exactly when they have no rating |
| RatingController.ResubmitSameValue | recipe-api/src/controllers/ratingController.js:25-70 | re-submitting the stored value leaves the store and the answered statistics unchanged |
| LikeController.Toggled | recipe-api/src/controllers/likeController.js:17-20 | the caller's like is present after exactly when it was absent before; every other pair is unchanged |
| LikeController.ToggleTwice | recipe-api/src/controllers/likeController.js:17-20 | two toggles by the same user restore the store |
| LikeController.ToggleCount | recipe-api/src/controllers/likeController.js:17-23 | the recipe's count moves by exactly one, down when a like was removed and up otherwise; other recipes' counts stay |
| LikeController.LikeRecipe | recipe-api/src/controllers/likeController.js:6-25 | 404 leaves the store alone; otherwise the like is toggled, and the answer gives `liked` as the negation of the old state plus the new count |
| Comments.OnRecipe | recipe-api/src/controllers/commentController.js:75-76 | exactly the stored comments on the recipe |
| Comments.NewestOnRecipe | recipe-api/src/controllers/commentController.js:75-78 | the recipe's comments, each once, newest first |
| Comments.PopulatedField | recipe-api/src/controllers/commentController.js:76 | the populated user is null exactly when the user is gone, and otherwise holds exactly its `_id` and the selected field |
| Comments.PopulatedUser | recipe-api/src/controllers/commentController.js:24 | the populated author is null exactly when the user is gone, and otherwise exactly `{ _id, name }` |
| Comments.ListedComment | recipe-api/src/controllers/commentController.js:74-78 | a comment as the handlers send it has its id, its content and its populated author under `author`, and no `authorId`; `updatedAt` is present exactly for a schema with timestamps |
| Comments.ListedIsMoved | recipe-api/src/controllers/recipeController.js:109-121 | populating under `author` gives the same object as populating under `authorId` and then moving the key, as `getRecipeById` does |
| CommentController.AddComment | recipe-api/src/controllers/commentController.js:4-35 | 404 for a missing recipe and 500 for blank content, both storing nothing; otherwise exactly the new comment with the trimmed content is stored, and the 201 answer has `author` and no `authorId` |
| CommentController.Guard | recipe-api/src/controllers/commentController.js:47-55 | passes exactly for the author of a comment on this recipe; a missing or other-recipe comment gives 404 before the 403 for a non-author |
| CommentController.UpdateComment | recipe-api/src/controllers/commentController.js:40-69 | a failed guard or blank content changes nothing; otherwise only that comment's content changes, to its trim, and the answer is the saved comment with its author populated; the `updatedAt` the handler assigns is not stored, because the Comment schema declares no such field |
| CommentController.GetAllComments | recipe-api/src/controllers/commentController.js:72-85 | 200 with exactly the recipe's comments, each once, newest first, each listed with its author populated as `{ _id, name }` or null when the user is gone |
| CommentController.DeleteComment | recipe-api/src/controllers/commentController.js:87-105 | a failed guard changes nothing; otherwise exactly that comment is removed; the same holds for src/controllers/commentController.js:81-101 |
| LegacyCommentController.BlankMeaning | src/controllers/commentController.js:38 | content is blank exactly when it is missing or only white space |
| LegacyCommentController.AddComment | src/controllers/commentController.js:4-28 | blank content gives 400 before the recipe lookup, then 404 for a missing recipe, then 500 for a text over 1000 characters, each storing nothing; otherwise exactly the new comment with the trimmed content is stored and answered with 201, its author populated with `username` |
| LegacyCommentController.UpdateComment | src/controllers/commentController.js:33-63 | 400 for blank content, then the shared 404/403 guard, then 500 for an over-long text, each changing nothing; otherwise only that comment's content (trimmed) and updatedAt change, and the answer is the saved comment with its author populated with `username` |
| Js.Moved | recipe-api/src/controllers/commentController.js:27-28 | after the move the `to` key holds the former `from` value, `from` is gone, and every other key is kept |
| Js.JsObject.MoveKey | recipe-api/src/controllers/commentController.js:27-28 | the in-place move leaves the object's properties equal to `Moved` of the old ones |
| CleanIds.Transformed | recipe-api/src/config/cleanIds.js:8-13 | `id` holds the former `_id`; `_id` and `__v` are gone; every other key is unchanged |
| CleanIds.Transform | recipe-api/src/config/cleanIds.js:8-13 | the in-place transform leaves the object equal to `Transformed` of the old one |
| CleanIds.TransformNotIdempotent | recipe-api/src/config/cleanIds.js:9-10 | a second transform overwrites `id` with the now-absent `_id` |
| CleanIds.RenderIsTransform | recipe-api/src/config/cleanIds.js:3-25 | with virtuals on, the `toJSON`/`toObject` output equals the transform of the raw document, whatever the `id` virtual says |
| ObjectIds.ToHexString | recipe-api/src/models/Recipe.js:58 | two lower-case hex digits per byte |
| ObjectIds.ParseToHexString | recipe-api/src/models/Recipe.js:57-59 | the hex string reads back to the same bytes |
| ObjectIds.HexStringInjective | recipe-api/src/controllers/recipeController.js:140 | two ids have the same hex string exactly when they are equal |
| Http.ErrorReply | recipe-api/src/middleware/errorHandler.js:7-22 | an ApiError keeps its status and message; any other error is a 500 |
| ErrorHandler.HandleError | recipe-api/src/middleware/errorHandler.js:3-23 | an ApiError keeps its status, message and errors and is `fail` exactly below 500; any other error is 500 `error` 'Internal server error' with {} |
| ErrorHandler.HandleErrorAgreesWithThrowPoints | recipe-api/src/middleware/errorHandler.js:7-22 | the handler's status equals the status of every handler's error reply |
| ErrorHandler.CatchAllLosesStatus | recipe-api/src/index.js:25-28 | the mounted catch-all answers 500 for an ApiError of any other status |
| ValidateBody.FirstMessages | recipe-api/src/middleware/validateBody.js:13-16 | the error map's keys are exactly the reported paths, each holding its first non-empty message |
| ValidateBody.FirstMessageSnoc | recipe-api/src/middleware/validateBody.js:14-15 | a later issue changes its path's message only while that message is still empty |
| ValidateBody.FirstMessagesSnoc | recipe-api/src/middleware/validateBody.js:14-16 | one step of the loop: the path is written exactly when it is new or its message is falsy |
| ValidateBody.FirstMessageIsFirst | recipe-api/src/middleware/validateBody.js:14-16 | with non-empty messages, a path's entry is its first issue's message and later ones are ignored |
| ValidateBody.FlattenErrors | recipe-api/src/middleware/validateBody.js:13-16 | the `forEach` loop builds exactly the first-message map |
| ValidateBody.ErrorsOf | recipe-api/src/middleware/validateBody.js:13-14 | with no `inner` list the error map is {} |
| ValidateBody.Validate | recipe-api/src/middleware/validateBody.js:3-21 | success replaces the body and proceeds; failure forwards ApiError(400, 'Validation error', map) and leaves the request unchanged |
| ValidateParam.AttachKey | recipe-api/src/utils/validateParam.js:12 | `attachAs` when it is given and non-empty, otherwise `name` |
| ValidateParam.Handle | recipe-api/src/utils/validateParam.js:14-38 | an invalid id forwards 400; a lookup error is forwarded; a missing document forwards 404; a found document or the raw value is attached under the key; nothing is attached on a failure path |
| ValidateParam.ParamErrors | recipe-api/src/utils/validateParam.js:16-30 | the two errors answer 400 'Invalid <name>' and 404 '<name> not found' |
| Auth.BearerToken | src/middleware/auth.js:12-16 | a token exactly when the header starts with 'Bearer '; it is the second space-separated field, contains no space and begins the rest of the header |
| Auth.BearerTokenOfTail | recipe-api/src/middleware/auth.js:16 | the token of 'Bearer ' + tail is the first space-separated piece of the tail |
| Auth.BearerTokenOf | recipe-api/src/middleware/auth.js:16 | 'Bearer t' and 'Bearer t more' both give the token t |
| Auth.Authenticate | recipe-api/src/middleware/auth.js:9-29 | no header or no prefix gives 401 AUTH_TOKEN_MISSING; a failed verify or a missing user gives 401 AUTH_TOKEN_INVALID; only success sets the user and proceeds (the same as src/middleware/auth.js:9-29) |
| Auth.OptionalAuthenticate | recipe-api/src/middleware/optionalAuth.js:5-19 | always proceeds; the user is set only when the prefix, the token and the lookup all succeed, and is otherwise left as it was |
| ImageValidation.UploadAcceptedIff | recipe-api/src/validation/image.js:7 | for an admitted subtype, the schema accepts the URI exactly when the payload is non-empty and all base64 characters |
| ImageValidation.SamePrefixSameSubtype | recipe-api/src/validation/image.js:7 | no string has the prefixes of two different admitted subtypes |
| ImageValidation.PrefixFixesSubtype | recipe-api/src/validation/image.js:7 | the subtype of an accepted URI is the text up to the first ';' |
| ImageValidation.SvgAcceptedOnlyHere | recipe-api/src/validation/image.js:7 | an svg+xml upload passes this schema but fails the recipe body's image rule |
| ImageBase64.DataUriPayload | recipe-api/src/utils/imageBase64.js:11-12 | a data URI's payload follows its last ';base64,' and holds no line break |
| ImageBase64.PayloadOkIff | recipe-api/src/utils/imageBase64.js:14 | the payload test holds exactly for one or more base64 characters followed by white space only |
| ImageBase64.ToBuffer | recipe-api/src/utils/imageBase64.js:10-19 | decodes exactly when the payload, or the whole input when it is not a data URI, passes the test; otherwise 'Invalid Base64 payload' |
| ImageBase64.PayloadAfterMarker | recipe-api/src/utils/imageBase64.js:11-12 | for a payload without ';' the extracted payload is the text after the marker |
| ImageBase64.AcceptedUploadDecodes | recipe-api/src/utils/imageBase64.js:10-18 | every URI the upload schema accepts passes `toBuffer` and decodes its own payload |
| ImageController.ParseDataUri | recipe-api/src/controllers/imageController.js:21-25 | a match is 'data:image/' + subtype + ';base64,' + payload with a non-empty subtype from `[a-zA-Z0-9.+-]` and a single-line payload |
| ImageController.ParseDataUriComplete | recipe-api/src/controllers/imageController.js:21 | every URI of that shape is parsed into its own subtype and payload |
| ImageController.UploadExtensions | recipe-api/src/controllers/imageController.js:26-28 | png and gif keep their names, jpeg and jpg become jpg, svg+xml becomes svg |
| ImageController.UploadAcceptedParses | recipe-api/src/controllers/imageController.js:21-28 | every URI the upload schema accepts matches the upload pattern and gets one of png, jpg, gif, svg |
| ImageController.ExtName | recipe-api/src/controllers/imageController.js:74 | the extension read back holds no dot |
| ImageController.ExtNameOfFileName | recipe-api/src/controllers/imageController.js:74 | the extension of '<id>.<ext>' reads back as ext |
| ImageController.FileNamePrefix | recipe-api/src/controllers/imageController.js:33 | the file is named after the recipe id |
| ImageController.MimeRoundTrip | recipe-api/src/controllers/imageController.js:26-75 | the download of an uploaded image sends the MIME type of the extension its subtype was stored under: every subtype comes back as itself except jpg, which comes back as image/jpeg, and svg+xml, which is stored as svg and comes back as image/svg |
| ImageController.Stored | recipe-api/src/controllers/imageController.js:38-47 | the new file holds the bytes; the old one is removed only when it is named and differs; every other file is kept |
| ImageController.Renamed | recipe-api/src/controllers/imageController.js:50-51 | the recipe's image is the new name; updatedAt moves only when the name changed; nothing else changes |
| ImageController.CreateImage | recipe-api/src/controllers/imageController.js:11-54 | 403, then 400, then a payload 500, then an unlink 500, each changing nothing; otherwise the files and the recipe are updated as above and the name is answered |
| ImageController.GetImage | recipe-api/src/controllers/imageController.js:58-79 | 404 with no image name or no such file; otherwise 200 with the MIME of the extension and the encoded bytes |
| LegacyRecipeModel.UrlOkFromParts | src/models/Recipe.js:3 | every http or https URL with a host, a dot and a tail on one line matches the pattern |
| LegacyRecipeModel.UrlOkShape | src/models/Recipe.js:3 | every matching URL starts with http:// or https:// and has at least ten characters |
| LegacyRecipeModel.TitleOf | src/models/Recipe.js:7-11 | the stored title is trimmed, and empty exactly when the input is missing or blank |
| LegacyRecipeModel.DescriptionOf | src/models/Recipe.js:12-15 | the description is trimmed, and absent exactly when none is given |
| LegacyRecipeModel.IngredientsOf | src/models/Recipe.js:34-39 | one stored ingredient per input, in order |
| LegacyRecipeController.ImageUrlsOf | src/controllers/recipeController.js:9 | at most one entry; empty exactly when `imageUrl` is falsy; otherwise its trimmed url |
| LegacyRecipeController.NewRecipe | src/controllers/recipeController.js:8-18 | an `instructions` array cannot be cast to a string; otherwise the document has the caller as author and both timestamps set to now |
| LegacyRecipeController.IngredientsOfValid | src/models/Recipe.js:34-39 | the stored ingredients are valid exactly when every input has a name and an amount |
| LegacyRecipeController.ImageUrlsOfValid | src/models/Recipe.js:17-33 | the image list is valid exactly when a truthy `imageUrl` matches the URL pattern |
| LegacyRecipeController.CreateAcceptedIff | src/controllers/recipeController.js:11-26 | a created document passes validation exactly when the input meets every schema rule |
| LegacyRecipeController.CreateRecipe | src/controllers/recipeController.js:6-29 | a valid document is stored and answered with 201; a document that fails its cast or its validators gives 400 and stores nothing |
| LegacyRecipeController.QueryFilter | src/controllers/recipeController.js:34-42 | each of the title and ingredient filters is set exactly when its query value is non-empty |
| LegacyRecipeController.Found | src/controllers/recipeController.js:44 | exactly the recipes the filter selects, unchanged |
| LegacyRecipeController.QueryFilterIsConjunction | src/controllers/recipeController.js:37-44 | a recipe is found exactly when it matches every given filter |
| LegacyRecipeController.GetRecipes | src/controllers/recipeController.js:32-50 | 500 'Server error fetching recipes' exactly when a given title or ingredient is no valid pattern; otherwise 200 with exactly the recipes the filter selects, and all of them when no filter is given |
| LegacyRecipeController.GetRecipeById | src/controllers/recipeController.js:53-64 | a malformed id gives 500, a missing recipe 404, otherwise the recipe |
| LegacyRecipeController.Patched | src/controllers/recipeController.js:69-80 | author and createdAt are kept; updatedAt is now; `imageUrls` changes only when the key is present, and becomes [] for a falsy value |
| LegacyRecipeController.PatchedKeepsValid | src/controllers/recipeController.js:76-80 | a patch that passes the update validators keeps a valid recipe valid |
| LegacyRecipeController.ApplyUpdate | src/controllers/recipeController.js:76-87 | failed validation gives 400; a missing recipe or a non-author both give 404; each changes nothing; otherwise only that recipe is patched |
| LegacyRecipeController.UpdateRecipe | src/controllers/recipeController.js:67-95 | a malformed id or an instructions array gives 500; then the outcomes of `ApplyUpdate` |
| LegacyRecipeController.DeleteOwned | src/controllers/recipeController.js:100-110 | the recipe is removed only when id and author match; otherwise 404 and nothing changes |
| LegacyRecipeController.DeleteRecipe | src/controllers/recipeController.js:98-115 | a malformed id gives 500; otherwise the outcomes of `DeleteOwned` |
| LegacyRecipeRoutes.ListRecipes | src/routes/recipe.js:13-21 | 200 with every recipe, each once, newest first |
| LegacyRecipeRoutes.SearchByName | src/routes/recipe.js:28-43 | 400 without a title; 500 'Server error searching by name' for a title that is no valid pattern; otherwise exactly the recipes whose title matches |
| LegacyRecipeRoutes.IngredientTermsMeaning | src/routes/recipe.js:56-59 | the terms are the comma-split, trimmed, non-empty pieces in order, none holding a comma |
| LegacyRecipeRoutes.SearchByIngredients | src/routes/recipe.js:50-76 | 400 without the parameter; 500 when no term survives (an empty `$and`) or a term is no valid pattern; otherwise exactly the recipes in which every term matches some ingredient name |
| LegacyRecipeRoutes.SeparatorsOnlyFail | src/routes/recipe.js:56-67 | a parameter made only of separators and spaces is answered 500 |
| LegacyRecipeRoutes.JoinedInstructions | src/routes/recipe.js:126-128 | an array becomes one string and a string is kept |
| LegacyRecipeRoutes.JoinedStepsSplitBack | src/routes/recipe.js:126-128 | splitting the joined string on newlines gives back steps that hold no newline |
| LegacyRecipeRoutes.JoinedStepsRequired | src/routes/recipe.js:126-128 | the joined string passes `required` exactly when there are two or more steps or one non-empty step |
| LegacyRecipeRoutes.UpdateRecipe | src/routes/recipe.js:111-159 | a malformed id gives 400 before anything else; otherwise the array is joined and the id-and-author update applies |
| LegacyRecipeRoutes.DeleteRecipe | src/routes/recipe.js:165-183 | a malformed id gives 400; a missing recipe or a non-author gives 404 and changes nothing; otherwise exactly that recipe is removed |
| LegacyUsers.ParseIntOfNumeral | src/controllers/userController.js:63 | `parseInt` reads a decimal numeral whole |
| LegacyUsers.ParseIntNegated | src/controllers/userController.js:63 | a leading minus sign negates what follows |
| LegacyUsers.ParseIntOfDecimal | src/controllers/userController.js:63-64 | `parseInt` reads back what `String` writes, with or without a minus sign |
| LegacyUsers.Clamped | src/controllers/userController.js:63-64 | the result is at least 1; a missing, unparsable or zero value gives the default; any other value n gives max(n, 1) |
| LegacyUsers.ClampedPositive | src/controllers/userController.js:63-64 | a positive number in the query is taken as it is |
| LegacyUsers.ZeroAndNegativeDiffer | src/controllers/userController.js:64 | '0' gives the default limit 10, but a negative number gives 1 |
| LegacyUsers.PagesTile | src/controllers/userController.js:65-80 | consecutive pages follow each other without gap or overlap |
| LegacyUsers.GetLikes | src/controllers/userController.js:61-104 | a malformed id gives 500; an unknown user gives 404 USER_NOT_FOUND; otherwise the user's likes newest first, one page of them (at most `limit`), with `meta` echoing total, page and limit, or 500 when a liked recipe or its author is gone |
| LegacyUsers.GetComments | src/controllers/userController.js:110-148 | the same outcomes over the comments the user wrote, 500 when a commented recipe is gone |
| Listing.SortNewestFirst | src/routes/recipe.js:15 | the elements, each exactly once, sorted newest first |
| Listing.Window | src/controllers/userController.js:79-80 | `.skip(s).limit(n)` gives at most n records: the slice starting at s, or [] past the end |

## Left out

- **The browser client** (recipe-ui): UI rendering, hooks and network code.
- **HTTP wiring:** routers, `catchAsync` and `paramAsync`, `response.js` and `app.listen`. Every handler works on its request's already-extracted inputs. Each middleware returns one `Requests.Next`, so it calls `next` exactly once.
- **rateLimiter.js and uploadAvatar.js:** library configuration (express-rate-limit, multer) with no logic of its own.
- **The recipe-api comment schema:** its trim and required rules enter only as the `content` the comment handlers receive.
- **The recipe-api userController.js and authController.js** (password hashing, token signing): database reads and cryptography.
- **Token verification, user lookup and `ObjectId.isValid`:** these are parameters (`verify`, `lookup`, `isValid`).
- **Base64 decoding and encoding** (`Buffer.from`, `toString('base64')`): these are parameters (`decode`, `encode`).
- **The file system:** the storage directory is a map from file name to bytes. Only the failure of deleting an existing old file is modelled (`unlinkError`). Failures of `mkdir`, `writeFile` and `save` are not.
- **MongoDB `$regex` matching and `populate`:**
  - matching is the parameter `re`; the model builds the patterns and states which recipes they select;
  - which patterns the regex engine compiles is the parameter `reOk`; a pattern it rejects makes the query fail, and each search handler answers that with its 500;
  - `populate` joins through the users map.
- **Floating point:**
  - `$round` is the parameter `round`, and the mean is exact;
  - numbers are unbounded reals and integers, so NaN, Infinity and the 2^53 precision limit of `parseInt` are not modelled;
  - dates are integer clock values, with `toISOString` as the parameter `iso`.
- **Concurrency:** the gap between the rating upsert and the aggregate, and simultaneous toggles, are not modelled. Every handler is atomic.
- **Yup's cast** is modelled for the types these schemas use: `number()`, `string()`, `array().of(...)` and `object(...)` under `stripUnknown`. These parts are not:
  - CastNumber: a numeral with an exponent, `Infinity`, or a hex, octal or binary literal is left uncast, so the model rejects it where Yup accepts it; an array given for a number field, which Yup reads through `parseFloat` of its text (so `[5]` is 5), is left uncast and rejected;
  - CastString: a number is written in plain decimal with at most 20 fraction digits, with no exponent form for very large or very small numbers and no rounding to 17 significant digits; `CastRoundTrip` is therefore stated only for numbers with at most 20 fraction digits;
  - the messages of the failed tests: `validateBody` forwards them, but the model only decides acceptance.
- **Mongoose casting:** the typed inputs (`Field`, `InstructionsField`, `JsValue`) stand in for the request body. A cast that fails is the `Lines` or non-string case, answered as the source answers it. The text of a Mongoose `ValidationError` message is one constant.
- LegacyCommentController.AddComment and LegacyCommentController.UpdateComment: the 1000-character limit counts the code points of the text, whereas Mongoose's `maxlength` counts UTF-16 code units, so a text of astral characters such as emoji is counted at half its source length (600 emoji are 600 here and 1200 there), because strings are sequences of characters with no UTF-16 encoding.
- **The legacy Like model:** src/models/Like.js is not part of this model. The legacy likes have the recipe-api shape: a user, a recipe and a creation time.
- **A legacy recipe's `default: []` list of image URLs:** `imageUrls` is always assigned by its handlers, so the default never shows.
- **Legacy `getAllComments`:** LegacyCommentController has no member of its own for it. It is `CommentController.GetAllComments`, because the two handlers differ only in whether the list is wrapped in `data` and which user field `populate` selects (the parameter `field`: `name` here, `username` in the legacy handler; the legacy schema's timestamps add `updatedAt`, the parameter `timestamps`). Legacy `deleteComment` is likewise `CommentController.DeleteComment`.
- **The legacy POST `/` route** of src/routes/recipe.js: it is `LegacyRecipeController.CreateRecipe`, because it differs only in passing `req.user` (whose id is the author) rather than `req.user._id`.
- **RatingController.Stats:** rounding to one decimal is the parameter `round`, assumed to keep values between 0 and 5. The exact rounded value is not modelled.

## Findings

| source | as written | input that shows it | evidently intended | confidence | as-written member | corrected member |
|---|---|---|---|---|---|---|
| recipe-api/src/index.js:25-28 | the only error middleware mounted answers every forwarded error with 500 'Something went wrong!'; recipe-api/src/middleware/errorHandler.js is never mounted | `GET /api/recipe/<unknown id>`: `getRecipeById` throws ApiError(404, 'Recipe not found'), and the client receives 500 | errorHandler.js mounted, answering with the error's own status (404 `fail`) | high, not executed | ErrorHandler.CatchAllLosesStatus | ErrorHandler.HandleErrorAgreesWithThrowPoints |
