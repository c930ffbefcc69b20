/** The casts Yup 1.x applies to a value before it runs a schema's tests:
    the transforms of `number()` and `string()`, and how `array().of(item)`
    and `object(shape)` cast their elements. `schema.validate` resolves with
    the cast value, so the cast value is both what the tests judge and what
    the handler finally stores. */
module YupCast {
  import opened Wrappers
  import opened Text
  import opened Numerals
  import opened Js

  // ---------------------------------------------------------------------
  // number()

  /** `value.replace(/\s/g, '')` */
  function RemoveSpace(s: string): (r: string)
    ensures |r| <= |s| && NoSpace(r)
    ensures NoSpace(s) ==> r == s
  {
    if s == [] then []
    else if IsSpace(s[0]) then RemoveSpace(s[1..])
    else [s[0]] + RemoveSpace(s[1..])
  }

  function Pow10(k: nat): (p: nat)
    ensures p >= 1
  {
    if k == 0 then 1 else 10 * Pow10(k - 1)
  }

  predicate AllDigits(s: string) {
    forall i :: 0 <= i < |s| ==> '0' <= s[i] <= '9'
  }

  /** The value of the digits `f` after a point. */
  function FractionValue(f: string): (x: real)
    ensures x >= 0.0
  {
    Value(f, 10) as real / Pow10(|f|) as real
  }

  /** The number written `d.f`. */
  function PointValue(d: string, f: string): (x: real)
    ensures x >= 0.0
  {
    Value(d, 10) as real + FractionValue(f)
  }

  /** An unsigned decimal literal as `Number` reads it: digits with at most
      one '.' and at least one digit in all, so "5." and ".5" are read;
      `None` for any other string. */
  function UnsignedDecimal(u: string): (r: Option<real>)
    ensures r.Some? ==> r.value >= 0.0
  {
    var n := DigitRun(u, 10);
    if n == |u| then
      if n == 0 then None else Some(Value(u, 10) as real)
    else if u[n] == '.' && DigitRun(u[n + 1..], 10) == |u| - n - 1 && |u| >= 2 then
      Some(PointValue(u[..n], u[n + 1..]))
    else None
  }

  /** `+t` for a string without white space: an optional sign, then an
      unsigned decimal literal. */
  function NumberOf(t: string): Option<real> {
    if t != [] && (t[0] == '-' || t[0] == '+') then
      match UnsignedDecimal(t[1..])
      case None => None
      case Some(x) => Some(if t[0] == '-' then -x else x)
    else UnsignedDecimal(t)
  }

  /** The transform of `number()`: a string loses its white space and is
      read as a number. A string that is no numeral becomes NaN, and any
      other non-number goes through `parseFloat` to NaN; either fails the
      type test exactly as the uncast value would, so the model leaves such
      a value as it is. */
  function CastNumber(v: JsValue): (r: JsValue)
    ensures r.Num? <==> v.Num? || (v.Str? && NumberOf(RemoveSpace(v.s)).Some?)
    ensures r.Num? && v.Str? ==> NumberOf(RemoveSpace(v.s)) == Some(r.n)
    ensures v.Num? || !r.Num? ==> r == v
  {
    if v.Str? && NumberOf(RemoveSpace(v.s)).Some? then Num(NumberOf(RemoveSpace(v.s)).value) else v
  }

  // ---------------------------------------------------------------------
  // string()

  /** At most this many digits of a fraction are written. */
  const FractionDigitLimit := 20

  /** `x` has no fraction. */
  predicate Whole(x: real) {
    x.Floor as real == x
  }

  /** `a` times `10^n`, one factor of ten at a time. */
  function Shift(a: real, n: nat): (x: real)
    ensures a >= 0.0 ==> x >= 0.0
  {
    if n == 0 then a else 10.0 * Shift(a, n - 1)
  }

  /** `n` digits after the point write `a` exactly. */
  predicate ExactIn(a: real, n: nat) {
    Whole(Shift(a, n))
  }

  /** The fewest digits after the point, from `k` up to
      `FractionDigitLimit`, that write `a` exactly; `FractionDigitLimit`
      when none does. */
  function Places(a: real, k: nat): (n: nat)
    requires k <= FractionDigitLimit
    ensures k <= n <= FractionDigitLimit
    decreases FractionDigitLimit - k
  {
    if k == FractionDigitLimit || ExactIn(a, k) then k else Places(a, k + 1)
  }

  /** The last `n` decimal digits of `r`, leading zeros included. */
  function Digits(r: nat, n: nat): (s: string)
    ensures |s| == n && AllDigits(s)
  {
    if n == 0 then [] else Digits(r / 10, n - 1) + [DecimalDigit(r % 10)]
  }

  /** The text of a number `a >= 0`: its integer part in decimal and, when
      it has a fraction, a point followed by the fewest digits that write
      it. */
  function UnsignedText(a: real): (s: string)
    requires a >= 0.0
    ensures s != [] && '0' <= s[0] <= '9'
  {
    var n := Places(a, 0);
    var m: nat := Shift(a, n).Floor;
    if n == 0 then Decimal(m) else Decimal(Quotient(m, Pow10(n))) + "." + Digits(m % Pow10(n), n)
  }

  function Quotient(m: nat, p: nat): (q: nat)
    requires p > 0
  {
    m / p
  }

  /** `Number.prototype.toString` of a finite number: a minus sign for a
      negative number, then the text of its magnitude. */
  function NumberText(x: real): (s: string)
    ensures s != [] && NoSpace(s)
    ensures s[0] == '-' || '0' <= s[0] <= '9'
  {
    (if x < 0.0 then "-" else "") + UnsignedText(if x < 0.0 then -x else x)
  }

  /** The transform of `string()`: a number or a boolean becomes its text;
      `null`, `undefined`, arrays and plain objects are left for the type
      test. */
  function CastString(v: JsValue): (r: JsValue)
    ensures r.Str? <==> v.Str? || v.Num? || v.Bool?
    ensures v.Num? ==> r == Str(NumberText(v.n))
    ensures v.Str? || !r.Str? ==> r == v
  {
    match v
    case Num(n) => Str(NumberText(n))
    case Bool(b) => Str(if b then "true" else "false")
    case _ => v
  }

  // ---------------------------------------------------------------------
  // array().of(string())

  /** The elements of an array cast by `string()`. */
  function CastStrings(items: seq<JsValue>): (r: seq<JsValue>)
    ensures |r| == |items| && forall i :: 0 <= i < |items| ==> r[i] == CastString(items[i])
  {
    if items == [] then [] else [CastString(items[0])] + CastStrings(items[1..])
  }

  /** The cast of `array().of(string())`: each element of an array is cast;
      anything else is left for the type test. */
  function CastStringArray(v: JsValue): (r: JsValue)
    ensures r.Arr? <==> v.Arr?
    ensures v.Arr? ==> r.items == CastStrings(v.items)
    ensures !v.Arr? ==> r == v
  {
    if v.Arr? then Arr(CastStrings(v.items)) else v
  }

  // ---------------------------------------------------------------------
  // Properties

  /** Casting a cast value changes nothing. */
  lemma CastIdempotent(v: JsValue)
    ensures CastNumber(CastNumber(v)) == CastNumber(v)
    ensures CastString(CastString(v)) == CastString(v)
  {
  }

  /** `undefined` is cast to `undefined` by both transforms. */
  lemma CastUndefined()
    ensures CastNumber(Undefined) == Undefined && CastString(Undefined) == Undefined
  {
  }

  /** A well-typed value needs no cast. */
  lemma CastKeepsTyped(v: JsValue)
    ensures v.Num? ==> CastNumber(v) == v
    ensures v.Str? ==> CastString(v) == v
  {
  }

  /** The digits followed by anything else: the run of digits stops where
      the digits do. */
  lemma {:induction false} DigitRunOfPrefix(s: string, t: string)
    requires AllDigits(s) && (t != [] ==> CharDigit(t[0]) >= 10)
    ensures DigitRun(s + t, 10) == |s|
  {
    if s != [] {
      assert (s + t)[1..] == s[1..] + t;
      DigitRunOfPrefix(s[1..], t);
    }
  }

  /** A decimal numeral is read as its value. */
  lemma NumberOfDecimal(n: nat)
    ensures NumberOf(Decimal(n)) == Some(n as real)
    ensures NumberOf("-" + Decimal(n)) == Some(-(n as real))
  {
    var d := Decimal(n);
    DigitRunOfPrefix(d, []);
    assert d + [] == d;
    ValueOfDecimal(n);
    assert UnsignedDecimal(d) == Some(n as real);
    assert ("-" + d)[1..] == d;
  }

  /** A numeral with a point is read as its integer part plus its fraction. */
  lemma NumberOfFraction(i: nat, f: string)
    requires f != [] && AllDigits(f)
    ensures UnsignedDecimal(Decimal(i) + "." + f) == Some(PointValue(Decimal(i), f))
  {
    ValueOfDecimal(i);
    UnsignedDecimalOfParts(Decimal(i), f);
  }

  lemma UnsignedDecimalOfParts(d: string, f: string)
    requires AllDigits(d) && AllDigits(f) && f != []
    ensures UnsignedDecimal(d + "." + f) == Some(PointValue(d, f))
  {
    var u := d + "." + f;
    var n := |d|;
    assert u == d + ("." + f);
    DigitRunOfPrefix(d, "." + f);
    DigitRunOfPrefix(f, []);
    assert f + [] == f;
    assert u[n + 1..] == f && u[..n] == d;
    assert DigitRun(u, 10) == n && u[n] == '.' && n != |u|;
    assert DigitRun(u[n + 1..], 10) == |u| - n - 1 && |u| >= 2;
  }

  /** `n` digits read back as the number they were taken from, when it has
      no more than `n` digits. */
  lemma {:induction false} ValueOfDigits(r: nat, n: nat)
    requires r < Pow10(n)
    ensures Value(Digits(r, n), 10) == r
  {
    if n > 0 {
      var s := Digits(r, n);
      assert s[..|s| - 1] == Digits(r / 10, n - 1);
      ValueOfDigits(r / 10, n - 1);
    }
  }

  /** Once `a` times `10^k` is whole, the search for the fewest places stops
      at a whole one. */
  lemma {:induction false} PlacesExact(a: real, j: nat, k: nat, m: int)
    requires j <= k <= FractionDigitLimit && Shift(a, k) == m as real
    ensures ExactIn(a, Places(a, j))
    decreases k - j
  {
    if j == k {
      WholeOfInt(m);
      assert ExactIn(a, j);
    } else if !ExactIn(a, j) {
      PlacesExact(a, j + 1, k, m);
    }
  }

  lemma WholeOfInt(m: int)
    ensures Whole(m as real)
  {
  }

  /** `Shift` multiplies by `10^n`. */
  lemma {:induction false} ShiftMultiplies(a: real, n: nat)
    ensures Shift(a, n) == a * Pow10(n) as real
  {
    if n > 0 {
      ShiftMultiplies(a, n - 1);
      ScaleByTen(a, Pow10(n - 1));
    }
  }

  lemma ScaleByTen(a: real, p: int)
    ensures 10.0 * (a * p as real) == a * (10 * p) as real
  {
  }

  lemma RealOfProduct(a: int, b: int)
    ensures (a * b) as real == a as real * b as real
  {
  }

  /** `q + r / p` is `a` when `a * p` is `q * p + r`. */
  lemma DivideBack(a: real, p: nat, m: int, q: int, r: int)
    requires p > 0 && m == q * p + r && a * p as real == m as real
    ensures q as real + r as real / p as real == a
  {
    RealOfProduct(q, p);
    assert (q as real + r as real / p as real) * p as real == m as real;
  }

  /** What `UnsignedText` writes reads back as the number, for every number
      that some `k <= FractionDigitLimit` digits write exactly. */
  lemma UnsignedTextRoundTrip(a: real, k: nat, m: int)
    requires a >= 0.0 && k <= FractionDigitLimit && Shift(a, k) == m as real
    ensures UnsignedDecimal(UnsignedText(a)) == Some(a)
  {
    var n := Places(a, 0);
    PlacesExact(a, 0, k, m);
    var w: nat := Shift(a, n).Floor;
    assert Shift(a, n) == w as real;
    if n == 0 {
      NumberOfDecimal(w);
    } else {
      FractionRoundTrip(a, n, w);
    }
  }

  /** The text of a number with `n > 0` places, `w` its value times `10^n`,
      reads back as the number. */
  lemma FractionRoundTrip(a: real, n: nat, w: nat)
    requires n > 0 && Shift(a, n) == w as real
    ensures UnsignedDecimal(Decimal(Quotient(w, Pow10(n))) + "." + Digits(w % Pow10(n), n)) == Some(a)
  {
    var p := Pow10(n);
    var q, r := Quotient(w, p), w % p;
    var f := Digits(r, n);
    QuotientRemainder(w, p);
    ScaledBack(a, n, w, q, r);
    ValueOfDigits(r, n);
    ValueOfDecimal(q);
    NumberOfFraction(q, f);
    assert FractionValue(f) == r as real / p as real;
    assert PointValue(Decimal(q), f) == a;
  }

  /** `a` is `q + r / 10^n` when `a` times `10^n` is `q * 10^n + r`. */
  lemma ScaledBack(a: real, n: nat, w: int, q: int, r: int)
    requires Shift(a, n) == w as real && w == q * Pow10(n) + r
    ensures q as real + r as real / Pow10(n) as real == a
  {
    ShiftMultiplies(a, n);
    DivideBack(a, Pow10(n), w, q, r);
  }

  lemma QuotientRemainder(m: nat, p: nat)
    requires p > 0
    ensures m == Quotient(m, p) * p + m % p
  {
  }

  /** `Number(String(x))` is `x` for every number with at most
      `FractionDigitLimit` digits after the point: `x` times `10^k` is the
      whole number `m`. */
  lemma NumberTextRoundTrip(x: real, k: nat, m: int)
    requires k <= FractionDigitLimit && Shift(x, k) == m as real
    ensures NumberOf(RemoveSpace(NumberText(x))) == Some(x)
  {
    var a := if x < 0.0 then -x else x;
    ShiftNegates(x, k);
    UnsignedTextRoundTrip(a, k, if x < 0.0 then -m else m);
    var u := UnsignedText(a);
    var s := NumberText(x);
    if x < 0.0 {
      assert s[0] == '-' && s[1..] == u;
    } else {
      assert s == u;
    }
  }

  lemma {:induction false} ShiftNegates(x: real, n: nat)
    ensures Shift(-x, n) == -Shift(x, n)
  {
    if n > 0 {
      ShiftNegates(x, n - 1);
    }
  }

  /** A number cast to a string and back is the same number, for every
      number with at most `FractionDigitLimit` digits after the point. */
  lemma CastRoundTrip(x: real, k: nat, m: int)
    requires k <= FractionDigitLimit && Shift(x, k) == m as real
    ensures CastNumber(CastString(Num(x))) == Num(x)
  {
    NumberTextRoundTrip(x, k, m);
  }

  /** A whole number is written in decimal, without a point. */
  lemma WholeText(n: nat)
    ensures NumberText(n as real) == Decimal(n)
  {
    WholeOfInt(n);
    assert ExactIn(n as real, 0);
    assert Places(n as real, 0) == 0;
    assert UnsignedText(n as real) == Decimal(n);
  }

  /** A string holding a decimal numeral, white space anywhere, is cast to
      that number. */
  lemma CastNumeral(n: nat, pad: string)
    requires AllSpace(pad)
    ensures CastNumber(Str(pad + Decimal(n) + pad)) == Num(n as real)
  {
    NumberOfDecimal(n);
    RemovePadding(pad, Decimal(n));
  }

  /** White space on both sides of a string without any is removed. */
  lemma {:induction false} RemovePadding(pad: string, s: string)
    requires AllSpace(pad) && NoSpace(s)
    ensures RemoveSpace(pad + s + pad) == s
  {
    RemoveLeading(pad, s + pad);
    assert pad + s + pad == pad + (s + pad);
    RemoveTrailing(s, pad);
  }

  lemma {:induction false} RemoveLeading(pad: string, s: string)
    requires AllSpace(pad)
    ensures RemoveSpace(pad + s) == RemoveSpace(s)
  {
    if pad != [] {
      assert (pad + s)[0] == pad[0] && (pad + s)[1..] == pad[1..] + s;
      assert IsSpace(pad[0]) && AllSpace(pad[1..]);
      RemoveLeading(pad[1..], s);
    } else {
      assert pad + s == s;
    }
  }

  lemma {:induction false} RemoveTrailing(s: string, pad: string)
    requires NoSpace(s) && AllSpace(pad)
    ensures RemoveSpace(s + pad) == s
  {
    if s == [] {
      assert s + pad == pad;
      RemoveLeading(pad, []);
      assert pad + [] == pad;
    } else {
      assert (s + pad)[1..] == s[1..] + pad;
      RemoveTrailing(s[1..], pad);
    }
  }
}
