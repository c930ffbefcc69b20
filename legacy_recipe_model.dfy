/** The recipe schema of the legacy back end, src/models/Recipe.js: a trimmed
    required title, an optional trimmed description, at most one image URL of
    the form `http(s)://host.domain`, ingredients with a required name and amount (both
    strings), a single required instructions string and a required author. */
module LegacyRecipeModel {
  import opened Wrappers
  import opened Text
  import opened ObjectIds

  /** A string path of a request body as JSON delivers it. */
  datatype Field = Missing | Null | Given(s: string)

  /** The `instructions` of a request body: a string field, or an array of strings. */
  datatype InstructionsField = Plain(f: Field) | Lines(steps: seq<string>)

  datatype IngredientInput = IngredientInput(name: Field, amount: Field)

  /** The fields a create or update body may carry. `ingredients` is `None`
      when the key is absent. */
  datatype RecipeInput = RecipeInput(
    title: Field,
    description: Field,
    imageUrl: Field,
    ingredients: Option<seq<IngredientInput>>,
    instructions: InstructionsField)

  datatype Ingredient = Ingredient(name: string, amount: string)

  /** A stored recipe. A required string path that was missing, `null` or cast
      from nothing holds "", which the `required` validator rejects. */
  datatype Recipe = Recipe(
    title: string,
    description: Option<string>,
    imageUrls: seq<string>,
    ingredients: seq<Ingredient>,
    instructions: string,
    author: Id,
    createdAt: int,
    updatedAt: int)

  /** The text a string path receives: "" stands for `undefined` and `null`,
      which `required` treats like the empty string. */
  function TextOf(f: Field): string {
    if f.Given? then f.s else ""
  }

  /** JavaScript truthiness of a string field. */
  predicate Truthy(f: Field) {
    f.Given? && f.s != ""
  }

  // ---------------------------------------------------------------------
  // The URL pattern `^https?:\/\/.+\..+$` (src/models/Recipe.js line 3)

  /** The length of the `http://` or `https://` prefix of `u`, or 0. */
  function SchemeLength(u: string): (n: nat)
    ensures n == 0 || n == 7 || n == 8
    ensures n > 0 ==> StartsWith(u, if n == 7 then "http://" else "https://")
    ensures n == 0 ==> !StartsWith(u, "http://") && !StartsWith(u, "https://")
  {
    if StartsWith(u, "https://") then 8
    else if StartsWith(u, "http://") then 7
    else 0
  }

  /** `rest` is `.+\..+`: a `.` with at least one character on each side. */
  predicate HasInnerDot(rest: string) {
    exists i :: 1 <= i < |rest| - 1 && rest[i] == '.'
  }

  /** `u` matches the URL pattern: the scheme, then a single line (a regex `.`
      matches no line terminator) that has a dot strictly inside it. */
  predicate UrlOk(u: string) {
    var n := SchemeLength(u);
    n > 0 && SingleLine(u[n..]) && HasInnerDot(u[n..])
  }

  /** Every URL built as scheme, host, dot, rest from single-line non-empty
      parts matches the pattern. */
  lemma UrlOkFromParts(secure: bool, host: string, tail: string)
    requires host != [] && tail != [] && SingleLine(host) && SingleLine(tail)
    ensures UrlOk((if secure then "https://" else "http://") + host + "." + tail)
  {
    var scheme := if secure then "https://" else "http://";
    var u := scheme + host + "." + tail;
    assert u[..|scheme|] == scheme;
    if !secure {
      assert u[4] == ':';
      assert !StartsWith(u, "https://") by { assert "https://"[4] == 's'; }
    }
    var rest := u[|scheme|..];
    assert rest == host + "." + tail;
    assert rest[|host|] == '.';
    forall i | 0 <= i < |rest|
      ensures !IsLineTerminator(rest[i])
    {
      if i < |host| {
        assert rest[i] == host[i];
      } else if i > |host| {
        assert rest[i] == tail[i - |host| - 1];
      }
    }
  }

  /** A matching URL is never empty and always has its scheme, so none of
      "", "ftp://a.b" or "https://ab" is accepted. */
  lemma UrlOkShape(u: string)
    requires UrlOk(u)
    ensures |u| >= 10
    ensures StartsWith(u, "http://") || StartsWith(u, "https://")
  {
    var i :| 1 <= i < |u[SchemeLength(u)..]| - 1 && u[SchemeLength(u)..][i] == '.';
  }

  // ---------------------------------------------------------------------
  // Validity and casting

  predicate RequiredString(s: string) {
    s != ""
  }

  predicate IngredientValid(i: Ingredient) {
    RequiredString(i.name) && RequiredString(i.amount)
  }

  /** The array validator ("You can only add one image") and each url's
      `required` and `match` rules. */
  predicate ImageUrlsValid(urls: seq<string>) {
    |urls| <= 1 && forall k :: 0 <= k < |urls| ==> RequiredString(urls[k]) && UrlOk(urls[k])
  }

  predicate IngredientsValid(items: seq<Ingredient>) {
    forall k :: 0 <= k < |items| ==> IngredientValid(items[k])
  }

  /** What `save` checks of a whole document. */
  predicate RecipeValid(r: Recipe) {
    && RequiredString(r.title)
    && ImageUrlsValid(r.imageUrls)
    && IngredientsValid(r.ingredients)
    && RequiredString(r.instructions)
    && RequiredString(r.author)
  }

  /** The `title` path after its `trim` setter. */
  function TitleOf(f: Field): (t: string)
    ensures IsTrimmed(t)
    ensures t == "" <==> AllSpace(TextOf(f))
  {
    TrimEmptyIff(TextOf(f));
    Trim(TextOf(f))
  }

  /** The `description` path: absent for `undefined` and `null`, trimmed otherwise. */
  function DescriptionOf(f: Field): (d: Option<string>)
    ensures d.None? <==> !f.Given?
    ensures d.Some? ==> d.value == Trim(f.s)
  {
    if f.Given? then Some(Trim(f.s)) else None
  }

  function IngredientOf(i: IngredientInput): Ingredient {
    Ingredient(TextOf(i.name), TextOf(i.amount))
  }

  function IngredientsOf(items: seq<IngredientInput>): (r: seq<Ingredient>)
    ensures |r| == |items|
    ensures forall k :: 0 <= k < |r| ==> r[k] == IngredientOf(items[k])
  {
    seq(|items|, k requires 0 <= k < |items| => IngredientOf(items[k]))
  }
}
