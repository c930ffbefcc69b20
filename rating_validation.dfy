/** `rateRecipeSchema` of recipe-api/src/validation/rating.js: the rating a
    user may submit, which the model stores as a count of half stars. */
module RatingValidation {
  import opened Wrappers
  import opened Js
  import opened Text
  import opened YupCast
  import opened Numerals

  const MinRating: real := 0.5
  const MaxRating: real := 5.0

  /** `min: 1` on `value` in recipe-api/src/models/Rating.js. */
  const ModelMinRating: real := 1.0

  /** A rating as twice its value: 1 is half a star, 10 is five stars. */
  type Halves = h: int | 1 <= h <= 10 witness 1

  /** The value `h` half stars stand for. */
  function Stars(h: int): real {
    h as real / 2.0
  }

  /** The tests on `value`, run on the cast value: a required number from
      0.5 to 5 that passes the half-step test `(v * 2) % 1 === 0`. */
  predicate RatingAccepted(v: JsValue) {
    v.Num? && MinRating <= v.n <= MaxRating && Whole(2.0 * v.n)
  }

  /** The number of half stars a submitted `value` stands for once
      `number()` has cast it, or `None` when the schema rejects it. */
  function HalvesOf(v: JsValue): (r: Option<Halves>)
    ensures r.Some? <==> RatingAccepted(CastNumber(v))
    ensures r.Some? ==> CastNumber(v) == Num(Stars(r.value))
  {
    var x := CastNumber(v);
    if RatingAccepted(x) then
      var h := (2.0 * x.n).Floor;
      assert 1 <= h <= 10;
      Some(h)
    else None
  }

  /** The accepted values are exactly the ten multiples of 0.5 from 0.5 to 5,
      given as numbers or as strings that read as them; `null` and an absent
      value are not among them. */
  lemma AcceptedAreHalfSteps(v: JsValue)
    ensures RatingAccepted(CastNumber(v)) <==>
              exists h: int :: 1 <= h <= 10 &&
                (v == Num(Stars(h)) || (v.Str? && NumberOf(RemoveSpace(v.s)) == Some(Stars(h))))
    ensures !RatingAccepted(CastNumber(Null)) && !RatingAccepted(CastNumber(Undefined))
  {
    if h: int :| 1 <= h <= 10 && (v == Num(Stars(h)) || (v.Str? && NumberOf(RemoveSpace(v.s)) == Some(Stars(h)))) {
      HalvesOfStars(v, h);
    }
    if RatingAccepted(CastNumber(v)) {
      var h := HalvesOf(v).value;
      assert v.Num? ==> v == Num(Stars(h));
      assert v.Str? ==> NumberOf(RemoveSpace(v.s)) == Some(Stars(h));
    }
  }

  /** A rating sent as the text of its value is read as that rating. */
  lemma RatingTextAccepted(h: Halves)
    ensures HalvesOf(Str(NumberText(Stars(h)))) == Some(h)
  {
    StarsTextReadsBack(h);
    HalvesOfStars(Str(NumberText(Stars(h))), h);
  }

  lemma StarsTextReadsBack(h: Halves)
    ensures CastNumber(Str(NumberText(Stars(h)))) == Num(Stars(h))
  {
    assert Shift(Stars(h), 1) == (5 * h) as real;
    CastRoundTrip(Stars(h), 1, 5 * h);
  }

  /** A value cast to the number of `h` half stars is read as `h`. */
  lemma HalvesOfStars(v: JsValue, h: Halves)
    requires CastNumber(v) == Num(Stars(h))
    ensures HalvesOf(v) == Some(h)
  {
    assert 2.0 * Stars(h) == h as real;
    assert (h as real).Floor == h;
  }

  /** A whole number of stars sent as a numeral with white space around it
      is accepted. */
  lemma PaddedStarsAccepted(n: nat, pad: string)
    requires 1 <= n <= 5 && AllSpace(pad)
    ensures HalvesOf(Str(pad + Decimal(n) + pad)) == Some(2 * n)
  {
    CastNumeral(n, pad);
    assert Stars(2 * n) == n as real;
    HalvesOfStars(Str(pad + Decimal(n) + pad), 2 * n);
  }

  /** The schema accepts half a star, which the Rating model's `min: 1` does not. */
  lemma HalfStarBelowModelMinimum()
    ensures RatingAccepted(Num(0.5)) && 0.5 < ModelMinRating
  {
    assert (2.0 * 0.5).Floor == 1;
  }
}
