/** The Yup schemas of recipe-api/src/validation/recipe.js, as predicates over
    the value the schema's tests judge, and the cast `validate` applies
    before them with `stripUnknown`. */
module RecipeValidation {
  import opened Text
  import opened Js
  import opened YupCast
  import opened Numerals
  import RecipeModel

  const TitleKey := "title"
  const DescriptionKey := "description"
  const CookingTimeKey := "cookingTime"
  const IngredientsKey := "ingredients"
  const InstructionsKey := "instructions"
  const ImageKey := "image"

  /** The keys the schemas declare; `stripUnknown` drops every other one. */
  const Fields: set<string> := {TitleKey, DescriptionKey, CookingTimeKey, IngredientsKey, InstructionsKey, ImageKey}

  const NameKey := "name"
  const AmountKey := "amount"
  const UnitKey := "unit"

  /** The keys `ingredientSchema` declares. */
  const IngredientFields: set<string> := {NameKey, AmountKey, UnitKey}

  /** The image subtypes the prefix pattern lists. */
  const ImageSubtypes: seq<string> := ["png", "jpeg", "jpg", "gif"]

  // ---------------------------------------------------------------------
  // The cast

  /** The cast of one ingredient field: `amount` is a `number()`, `name`
      and `unit` are `string()`s. */
  function IngredientFieldCast(k: string, v: JsValue): (r: JsValue)
    ensures k == AmountKey ==> r == CastNumber(v)
    ensures k != AmountKey ==> r == CastString(v)
  {
    if k == AmountKey then CastNumber(v) else CastString(v)
  }

  /** The cast of `ingredientSchema`, which the `stripUnknown` option
      reaches too: an object keeps its declared keys, each cast, and a key
      whose cast value is `undefined` is not set; anything else is left for
      the type test. */
  function IngredientCast(v: JsValue): (r: JsValue)
    ensures r.Obj? <==> v.Obj?
    ensures v.Obj? ==> r.props.Keys <= IngredientFields && forall k :: k in r.props ==> r.props[k] != Undefined
    ensures v.Obj? ==> forall k :: k in IngredientFields ==> Get(r.props, k) == IngredientFieldCast(k, Get(v.props, k))
    ensures !v.Obj? ==> r == v
  {
    if v.Obj? then
      Obj(map k | k in v.props && k in IngredientFields && IngredientFieldCast(k, v.props[k]) != Undefined
                :: IngredientFieldCast(k, v.props[k]))
    else v
  }

  /** The elements of an array cast by `ingredientSchema`. */
  function IngredientItems(items: seq<JsValue>): (r: seq<JsValue>)
    ensures |r| == |items| && forall i :: 0 <= i < |items| ==> r[i] == IngredientCast(items[i])
  {
    if items == [] then [] else [IngredientCast(items[0])] + IngredientItems(items[1..])
  }

  /** The cast of `array().of(ingredientSchema)`. */
  function IngredientsCast(v: JsValue): (r: JsValue)
    ensures r.Arr? <==> v.Arr?
    ensures v.Arr? ==> r.items == IngredientItems(v.items)
    ensures !v.Arr? ==> r == v
  {
    if v.Arr? then Arr(IngredientItems(v.items)) else v
  }

  /** The cast of one top-level field, by the field's schema. */
  function FieldCast(k: string, v: JsValue): (r: JsValue)
    ensures k == CookingTimeKey ==> r == CastNumber(v)
    ensures k == IngredientsKey ==> r == IngredientsCast(v)
    ensures k == InstructionsKey ==> r == CastStringArray(v)
    ensures k !in {CookingTimeKey, IngredientsKey, InstructionsKey} ==> r == CastString(v)
  {
    if k == CookingTimeKey then CastNumber(v)
    else if k == IngredientsKey then IngredientsCast(v)
    else if k == InstructionsKey then CastStringArray(v)
    else CastString(v)
  }

  /** The value `validate(body, { stripUnknown: true })` resolves with, and
      that `validateBody` puts in `req.body`: the declared keys only, each
      cast by its field's schema, and none whose cast value is `undefined`. */
  function Strip(body: map<string, JsValue>): (r: map<string, JsValue>)
    ensures r.Keys <= Fields && r.Keys <= body.Keys
    ensures forall k :: k in r ==> r[k] != Undefined
    ensures forall k :: k in Fields ==> Get(r, k) == FieldCast(k, Get(body, k))
  {
    map k | k in body && k in Fields && FieldCast(k, body[k]) != Undefined :: FieldCast(k, body[k])
  }

  // ---------------------------------------------------------------------
  // The tests, on the cast value

  /** `Yup.string().required()`: a string, and not the empty one. */
  predicate RequiredString(v: JsValue) {
    v.Str? && v.s != ""
  }

  /** `Yup.number().min(lo).required()` */
  predicate RequiredNumberAtLeast(v: JsValue, lo: real) {
    v.Num? && v.n >= lo
  }

  /** The ingredient object schema. */
  predicate IngredientOk(v: JsValue) {
    && v.Obj?
    && RequiredString(Get(v.props, "name"))
    && RequiredNumberAtLeast(Get(v.props, "amount"), RecipeModel.MinAmount)
    && RequiredString(Get(v.props, "unit")) && Get(v.props, "unit").s in RecipeModel.ValidUnits
  }

  /** `Yup.array().of(item).min(1)` without `required`: absent, or an array of
      at least one element, each accepted by the item schema. */
  predicate OptionalNonEmptyArray(v: JsValue, item: JsValue -> bool) {
    v.Undefined? || (v.Arr? && |v.items| >= 1 && forall k :: 0 <= k < |v.items| ==> item(v.items[k]))
  }

  /** The image pattern `^data:image\/(png|jpeg|jpg|gif);base64,`: only the
      prefix is checked, not the payload. */
  predicate ImagePrefixOk(s: string) {
    exists k :: 0 <= k < |ImageSubtypes| && StartsWith(s, "data:image/" + ImageSubtypes[k] + ";base64,")
  }

  /** `Yup.string().matches(pattern).optional()` for `image`. */
  predicate ImageOk(v: JsValue) {
    v.Undefined? || (v.Str? && ImagePrefixOk(v.s))
  }

  /** `Yup.string().nullable()` for `description`. */
  predicate DescriptionOk(v: JsValue) {
    v.Undefined? || v.Null? || v.Str?
  }

  predicate IngredientsOk(v: JsValue) {
    OptionalNonEmptyArray(v, IngredientOk)
  }

  predicate InstructionsOk(v: JsValue) {
    OptionalNonEmptyArray(v, RequiredString)
  }

  /** `createRecipeSchema` */
  predicate CreateValid(body: map<string, JsValue>) {
    && RequiredString(Get(body, TitleKey))
    && DescriptionOk(Get(body, DescriptionKey))
    && RequiredNumberAtLeast(Get(body, CookingTimeKey), RecipeModel.MinCookingTime)
    && IngredientsOk(Get(body, IngredientsKey))
    && InstructionsOk(Get(body, InstructionsKey))
    && ImageOk(Get(body, ImageKey))
  }

  /** `createRecipeSchema.noUnknown().partial()`. `partial` makes each
      top-level field optional, so `undefined` passes; a present title must
      still be a non-empty string and a present cooking time a number of at
      least 1, because the non-empty test and the refusal of `null` that
      `required` added stay. `noUnknown` finds nothing once `stripUnknown`
      has dropped the unknown keys. */
  predicate UpdateValid(body: map<string, JsValue>) {
    && (Get(body, TitleKey).Undefined? || RequiredString(Get(body, TitleKey)))
    && DescriptionOk(Get(body, DescriptionKey))
    && (Get(body, CookingTimeKey).Undefined? || RequiredNumberAtLeast(Get(body, CookingTimeKey), RecipeModel.MinCookingTime))
    && IngredientsOk(Get(body, IngredientsKey))
    && InstructionsOk(Get(body, InstructionsKey))
    && ImageOk(Get(body, ImageKey))
  }

  /** `createRecipeSchema.validate` resolves: the cast body passes the tests. */
  predicate CreateAccepts(body: map<string, JsValue>) {
    CreateValid(Strip(body))
  }

  /** `updateRecipeSchema.validate` resolves. */
  predicate UpdateAccepts(body: map<string, JsValue>) {
    UpdateValid(Strip(body))
  }

  // ---------------------------------------------------------------------
  // Properties

  /** The cast leaves a value it has already cast as it is. */
  lemma IngredientCastIdempotent(v: JsValue)
    ensures IngredientCast(IngredientCast(v)) == IngredientCast(v)
  {
    if v.Obj? {
      var once := IngredientCast(v).props;
      var twice := IngredientCast(IngredientCast(v)).props;
      forall k | k in IngredientFields
        ensures Get(twice, k) == Get(once, k)
      {
        CastIdempotent(Get(v.props, k));
      }
      GetExtensional(twice, once, IngredientFields);
    }
  }

  lemma FieldCastIdempotent(k: string, v: JsValue)
    ensures FieldCast(k, FieldCast(k, v)) == FieldCast(k, v)
  {
    CastIdempotent(v);
    if v.Arr? && k == IngredientsKey {
      forall i | 0 <= i < |v.items| {
        IngredientCastIdempotent(v.items[i]);
      }
    } else if v.Arr? && k == InstructionsKey {
      forall i | 0 <= i < |v.items| {
        CastIdempotent(v.items[i]);
      }
    }
  }

  /** Two maps with their keys in `keys` that read alike on every key of
      `keys` are the same map. */
  lemma GetExtensional(a: map<string, JsValue>, b: map<string, JsValue>, keys: set<string>)
    requires a.Keys <= keys && b.Keys <= keys
    requires forall k :: k in a ==> a[k] != Undefined
    requires forall k :: k in b ==> b[k] != Undefined
    requires forall k :: k in keys ==> Get(a, k) == Get(b, k)
    ensures a == b
  {
    assert a.Keys == b.Keys;
  }

  /** The body a handler receives, validated again, is the same body:
      the schema accepts it and the cast changes nothing. */
  lemma StripIdempotent(body: map<string, JsValue>)
    ensures Strip(Strip(body)) == Strip(body)
    ensures CreateAccepts(body) ==> CreateAccepts(Strip(body))
    ensures UpdateAccepts(body) ==> UpdateAccepts(Strip(body))
  {
    var once := Strip(body);
    forall k | k in Fields
      ensures Get(Strip(once), k) == Get(once, k)
    {
      FieldCastIdempotent(k, Get(body, k));
    }
    GetExtensional(Strip(once), once, Fields);
  }

  /** The cast changes nothing the tests look at in a body they already
      accept, so such a body is accepted as it is. */
  lemma StripKeepsValid(body: map<string, JsValue>)
    ensures CreateValid(body) ==> CreateAccepts(body)
    ensures UpdateValid(body) ==> UpdateAccepts(body)
  {
    var r := Strip(body);
    if CreateValid(body) || UpdateValid(body) {
      CastKeepsTyped(Get(body, TitleKey));
      CastKeepsTyped(Get(body, CookingTimeKey));
      CastKeepsTyped(Get(body, ImageKey));
      IngredientsCastKeepsValid(Get(body, IngredientsKey));
      InstructionsCastKeepsValid(Get(body, InstructionsKey));
      assert DescriptionOk(Get(r, DescriptionKey));
    }
  }

  lemma IngredientsCastKeepsValid(v: JsValue)
    requires IngredientsOk(v)
    ensures IngredientsOk(IngredientsCast(v))
  {
    if v.Arr? {
      forall i | 0 <= i < |v.items|
        ensures IngredientOk(IngredientCast(v.items[i]))
      {
        var p := v.items[i].props;
        CastKeepsTyped(Get(p, NameKey));
        CastKeepsTyped(Get(p, AmountKey));
        CastKeepsTyped(Get(p, UnitKey));
      }
    }
  }

  lemma InstructionsCastKeepsValid(v: JsValue)
    requires InstructionsOk(v)
    ensures InstructionsOk(CastStringArray(v))
  {
    if v.Arr? {
      forall i | 0 <= i < |v.items|
        ensures RequiredString(CastString(v.items[i]))
      {
        CastKeepsTyped(v.items[i]);
      }
    }
  }

  /** The cast is what lets some bodies through: a body whose title is
      the number `t` and whose cooking time is the numeral of `c`, with no
      other declared field, fails the tests as it is, but the cast body
      holds the text of `t` and the number `c` and passes them. */
  lemma CastAcceptsNumerals(body: map<string, JsValue>, t: nat, c: nat)
    requires c >= 1
    requires Get(body, TitleKey) == Num(t as real) && Get(body, CookingTimeKey) == Str(Decimal(c))
    requires forall k :: k in Fields && k != TitleKey && k != CookingTimeKey ==> Get(body, k) == Undefined
    ensures !CreateValid(body) && CreateAccepts(body)
    ensures Get(Strip(body), TitleKey) == Str(Decimal(t)) && Get(Strip(body), CookingTimeKey) == Num(c as real)
  {
    WholeText(t);
    CastNumeral(c, "");
    assert "" + Decimal(c) + "" == Decimal(c);
  }

  /** Every body the create schema accepts, the update schema accepts too. */
  lemma CreateImpliesUpdate(body: map<string, JsValue>)
    ensures CreateValid(body) ==> UpdateValid(body)
    ensures CreateAccepts(body) ==> UpdateAccepts(body)
  {
  }

  /** The update schema accepts any part of an accepted body: a key left out
      reads as `undefined`, which every field allows. */
  lemma UpdateAcceptsSubsets(body: map<string, JsValue>, keep: set<string>)
    requires UpdateAccepts(body)
    ensures UpdateAccepts(map k | k in body && k in keep :: body[k])
  {
    var sub := map k | k in body && k in keep :: body[k];
    forall k | k in Fields
      ensures Get(Strip(sub), k) == Get(Strip(body), k) || Get(Strip(sub), k).Undefined?
    {
      assert Get(sub, k) == Get(body, k) || Get(sub, k) == Undefined;
    }
    UpdateValidOfFewer(Strip(sub), Strip(body));
  }

  /** A body that holds, on each declared key, either what a body the update
      tests accept holds or nothing, is accepted too. */
  lemma UpdateValidOfFewer(a: map<string, JsValue>, b: map<string, JsValue>)
    requires UpdateValid(b)
    requires forall k :: k in Fields ==> Get(a, k) == Get(b, k) || Get(a, k).Undefined?
    ensures UpdateValid(a)
  {
    assert TitleKey in Fields && DescriptionKey in Fields && CookingTimeKey in Fields;
    assert IngredientsKey in Fields && InstructionsKey in Fields && ImageKey in Fields;
  }

  /** `partial` keeps the non-empty test of `required`: an empty title is
      rejected by the update schema as by the create schema, and so is a
      `null` one. */
  lemma UpdateRejectsEmptyTitle()
    ensures !UpdateAccepts(map[TitleKey := Str("")])
    ensures !UpdateAccepts(map[TitleKey := Null])
    ensures !CreateAccepts(map[TitleKey := Str(""), CookingTimeKey := Num(1.0)])
  {
    assert Get(Strip(map[TitleKey := Str("")]), TitleKey) == Str("");
    assert Get(Strip(map[TitleKey := Null]), TitleKey) == Null;
    assert Get(Strip(map[TitleKey := Str(""), CookingTimeKey := Num(1.0)]), TitleKey) == Str("");
  }

  /** An svg+xml data URI does not have the prefix the recipe schema asks for. */
  lemma SvgPrefixRejected(payload: string)
    ensures !ImagePrefixOk("data:image/svg+xml;base64," + payload)
  {
    var s := "data:image/svg+xml;base64," + payload;
    forall k | 0 <= k < |ImageSubtypes|
      ensures !StartsWith(s, "data:image/" + ImageSubtypes[k] + ";base64,")
    {
      var p := "data:image/" + ImageSubtypes[k] + ";base64,";
      assert s[11] == 's';
      assert |p| > 11 && p[11] == ImageSubtypes[k][0];
    }
  }
}
