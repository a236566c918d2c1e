/** Colour arithmetic of scripts/check_theme_contrast.py over exact reals: source-over
    compositing (Compositing and Blending Level 1, section 9.1.4), premultiplied mixing
    (CSS Color 4, section 12.3) and the WCAG 2.1 contrast ratio. */
module Colour {

  datatype Rgb = Rgb(r: real, g: real, b: real)

  /** A colour with its alpha. */
  datatype Paint = Paint(color: Rgb, alpha: real)

  predicate InGamut(c: Rgb) {
    0.0 <= c.r <= 255.0 && 0.0 <= c.g <= 255.0 && 0.0 <= c.b <= 255.0
  }

  predicate InRange(p: Paint) {
    InGamut(p.color) && 0.0 <= p.alpha <= 1.0
  }

  /** One channel of source-over. */
  function Over(top: real, alpha: real, backdrop: real): real {
    top * alpha + backdrop * (1.0 - alpha)
  }

  /** `composite`. */
  function Composite(top: Rgb, alpha: real, backdrop: Rgb): Rgb {
    Rgb(Over(top.r, alpha, backdrop.r), Over(top.g, alpha, backdrop.g), Over(top.b, alpha, backdrop.b))
  }

  /** One channel of the premultiplied mix, before the division by alpha. */
  function Premultiplied(a: real, alphaA: real, weightA: real, b: real, alphaB: real, weightB: real): real {
    a * alphaA * weightA + b * alphaB * weightB
  }

  /** The alpha of the mix before it is floored at zero. */
  function MixedAlpha(alphaA: real, weightA: real, alphaB: real, weightB: real): real {
    alphaA * weightA + alphaB * weightB
  }

  /** The arithmetic at the end of `_mix`, on normalised weights. */
  function Mix(a: Paint, weightA: real, b: Paint, weightB: real): Paint {
    var alpha := MixedAlpha(a.alpha, weightA, b.alpha, weightB);
    if alpha <= 0.0 then Paint(Rgb(0.0, 0.0, 0.0), 0.0)
    else
      Paint(Rgb(Premultiplied(a.color.r, a.alpha, weightA, b.color.r, b.alpha, weightB) / alpha,
                Premultiplied(a.color.g, a.alpha, weightA, b.color.g, b.alpha, weightB) / alpha,
                Premultiplied(a.color.b, a.alpha, weightA, b.color.b, b.alpha, weightB) / alpha),
            alpha)
  }

  /** The same weights applied to two opaque colours. */
  function Weighted(a: Rgb, weightA: real, b: Rgb, weightB: real): Rgb {
    Rgb(a.r * weightA + b.r * weightB, a.g * weightA + b.g * weightB, a.b * weightA + b.b * weightB)
  }

  // ------------------------------------------------------------------ painting and mixing

  /** Painting the mix is mixing the paintings, over this backdrop. */
  predicate Commutes(a: Paint, weightA: real, b: Paint, weightB: real, backdrop: Rgb) {
    var mixed := Mix(a, weightA, b, weightB);
    Composite(mixed.color, mixed.alpha, backdrop) ==
      Weighted(Composite(a.color, a.alpha, backdrop), weightA, Composite(b.color, b.alpha, backdrop), weightB)
  }

  /** The mix keeps its colour: either it has a positive alpha, or nothing is left to keep. */
  predicate NothingLost(a: Paint, weightA: real, b: Paint, weightB: real) {
    var alpha := MixedAlpha(a.alpha, weightA, b.alpha, weightB);
    alpha > 0.0 ||
    (alpha == 0.0 &&
     Premultiplied(a.color.r, a.alpha, weightA, b.color.r, b.alpha, weightB) == 0.0 &&
     Premultiplied(a.color.g, a.alpha, weightA, b.color.g, b.alpha, weightB) == 0.0 &&
     Premultiplied(a.color.b, a.alpha, weightA, b.color.b, b.alpha, weightB) == 0.0)
  }

  lemma OverSum(a: real, alphaA: real, weightA: real, b: real, alphaB: real, weightB: real, backdrop: real)
    requires weightA + weightB == 1.0
    ensures Over(a, alphaA, backdrop) * weightA + Over(b, alphaB, backdrop) * weightB ==
              Premultiplied(a, alphaA, weightA, b, alphaB, weightB) + backdrop * (1.0 - MixedAlpha(alphaA, weightA, alphaB, weightB))
  {
    var x, y := alphaA * weightA, alphaB * weightB;
    assert a * alphaA * weightA == a * x && b * alphaB * weightB == b * y;
    assert (backdrop * (1.0 - alphaA)) * weightA == backdrop * weightA - backdrop * x;
    assert (backdrop * (1.0 - alphaB)) * weightB == backdrop * weightB - backdrop * y;
    assert backdrop * weightA + backdrop * weightB == backdrop * (weightA + weightB);
    assert backdrop * (1.0 - (x + y)) == backdrop - backdrop * x - backdrop * y;
    assert Over(a, alphaA, backdrop) * weightA == a * x + (backdrop * (1.0 - alphaA)) * weightA;
    assert Over(b, alphaB, backdrop) * weightB == b * y + (backdrop * (1.0 - alphaB)) * weightB;
  }

  lemma Undivided(p: real, alpha: real, backdrop: real)
    requires alpha > 0.0
    ensures Over(p / alpha, alpha, backdrop) == p + backdrop * (1.0 - alpha)
  {
    assert (p / alpha) * alpha == p;
  }

  /** Normalised weights of any sign: painting commutes with mixing over every opaque
      backdrop exactly when the mix loses nothing to its zero-alpha branch. */
  lemma PaintingCommutesIff(a: Paint, weightA: real, b: Paint, weightB: real)
    requires weightA + weightB == 1.0
    ensures (forall backdrop :: Commutes(a, weightA, b, weightB, backdrop)) <==> NothingLost(a, weightA, b, weightB)
  {
    hide Over, Premultiplied, Mix, Commutes, MixedAlpha;
    if NothingLost(a, weightA, b, weightB) {
      forall backdrop ensures Commutes(a, weightA, b, weightB, backdrop) {
        CommutesHere(a, weightA, b, weightB, backdrop);
      }
    }
    if forall backdrop :: Commutes(a, weightA, b, weightB, backdrop) {
      var black, white := Rgb(0.0, 0.0, 0.0), Rgb(1.0, 1.0, 1.0);
      assert Commutes(a, weightA, b, weightB, black) && Commutes(a, weightA, b, weightB, white);
      LostIsSeen(a, weightA, b, weightB, black, white);
    }
  }

  lemma CommutesHere(a: Paint, weightA: real, b: Paint, weightB: real, backdrop: Rgb)
    requires weightA + weightB == 1.0 && NothingLost(a, weightA, b, weightB)
    ensures Commutes(a, weightA, b, weightB, backdrop)
  {
    hide Over, Premultiplied, MixedAlpha;
    var alpha := MixedAlpha(a.alpha, weightA, b.alpha, weightB);
    var pr := Premultiplied(a.color.r, a.alpha, weightA, b.color.r, b.alpha, weightB);
    var pg := Premultiplied(a.color.g, a.alpha, weightA, b.color.g, b.alpha, weightB);
    var pb := Premultiplied(a.color.b, a.alpha, weightA, b.color.b, b.alpha, weightB);
    OverSum(a.color.r, a.alpha, weightA, b.color.r, b.alpha, weightB, backdrop.r);
    OverSum(a.color.g, a.alpha, weightA, b.color.g, b.alpha, weightB, backdrop.g);
    OverSum(a.color.b, a.alpha, weightA, b.color.b, b.alpha, weightB, backdrop.b);
    if alpha > 0.0 {
      Undivided(pr, alpha, backdrop.r);
      Undivided(pg, alpha, backdrop.g);
      Undivided(pb, alpha, backdrop.b);
    } else {
      OverNothing(backdrop.r);
      OverNothing(backdrop.g);
      OverNothing(backdrop.b);
    }
  }

  lemma OverNothing(backdrop: real)
    ensures Over(0.0, 0.0, backdrop) == backdrop
  {
  }

  /** A lost colour shows over black or over white. */
  lemma LostIsSeen(a: Paint, weightA: real, b: Paint, weightB: real, black: Rgb, white: Rgb)
    requires weightA + weightB == 1.0 && black == Rgb(0.0, 0.0, 0.0) && white == Rgb(1.0, 1.0, 1.0)
    requires Commutes(a, weightA, b, weightB, black) && Commutes(a, weightA, b, weightB, white)
    ensures NothingLost(a, weightA, b, weightB)
  {
    hide Over, Premultiplied, MixedAlpha;
    OverSum(a.color.r, a.alpha, weightA, b.color.r, b.alpha, weightB, 0.0);
    OverSum(a.color.g, a.alpha, weightA, b.color.g, b.alpha, weightB, 0.0);
    OverSum(a.color.b, a.alpha, weightA, b.color.b, b.alpha, weightB, 0.0);
    OverSum(a.color.r, a.alpha, weightA, b.color.r, b.alpha, weightB, 1.0);
    OverNothing(0.0);
    OverNothing(1.0);
  }

  /** For non-negative weights and alphas nothing is ever lost, zero alpha included. */
  lemma PaintingCommutes(a: Paint, weightA: real, b: Paint, weightB: real, backdrop: Rgb)
    requires weightA >= 0.0 && weightB >= 0.0 && weightA + weightB == 1.0
    requires a.alpha >= 0.0 && b.alpha >= 0.0
    ensures Commutes(a, weightA, b, weightB, backdrop)
  {
    hide Over, Premultiplied, Mix, Commutes;
    if MixedAlpha(a.alpha, weightA, b.alpha, weightB) <= 0.0 {
      NoAlpha(a.alpha, weightA, b.alpha, weightB);
      ZeroPremultiplied(a.color.r, a.alpha, weightA, b.color.r, b.alpha, weightB);
      ZeroPremultiplied(a.color.g, a.alpha, weightA, b.color.g, b.alpha, weightB);
      ZeroPremultiplied(a.color.b, a.alpha, weightA, b.color.b, b.alpha, weightB);
    }
    PaintingCommutesIff(a, weightA, b, weightB);
  }

  lemma NoAlpha(alphaA: real, weightA: real, alphaB: real, weightB: real)
    requires alphaA >= 0.0 && alphaB >= 0.0 && weightA >= 0.0 && weightB >= 0.0
    requires MixedAlpha(alphaA, weightA, alphaB, weightB) <= 0.0
    ensures alphaA * weightA == 0.0 && alphaB * weightB == 0.0
  {
    ProductNonNegative(alphaA, weightA);
    ProductNonNegative(alphaB, weightB);
  }

  lemma ProductNonNegative(x: real, y: real)
    requires x >= 0.0 && y >= 0.0
    ensures x * y >= 0.0
  {
  }

  lemma ZeroPremultiplied(a: real, alphaA: real, weightA: real, b: real, alphaB: real, weightB: real)
    requires alphaA * weightA == 0.0 && alphaB * weightB == 0.0
    ensures Premultiplied(a, alphaA, weightA, b, alphaB, weightB) == 0.0
  {
    assert a * alphaA * weightA == a * (alphaA * weightA);
    assert b * alphaB * weightB == b * (alphaB * weightB);
  }

  // ------------------------------------------------------------------ ranges

  lemma ConvexBound(a: real, x: real, b: real, y: real)
    requires 0.0 <= a <= 255.0 && 0.0 <= b <= 255.0 && x >= 0.0 && y >= 0.0
    ensures 0.0 <= a * x + b * y <= 255.0 * (x + y)
  {
    ProductNonNegative(a, x);
    ProductNonNegative(b, y);
    ProductNonNegative(255.0 - a, x);
    ProductNonNegative(255.0 - b, y);
    assert (255.0 - a) * x == 255.0 * x - a * x;
    assert (255.0 - b) * y == 255.0 * y - b * y;
  }

  lemma DivideBound(p: real, alpha: real)
    requires alpha > 0.0 && 0.0 <= p <= 255.0 * alpha
    ensures 0.0 <= p / alpha <= 255.0
  {
    var q := p / alpha;
    assert q * alpha == p;
    if q < 0.0 { ProductPositive(-q, alpha); }
    if q > 255.0 { ProductPositive(q - 255.0, alpha); }
  }

  lemma ProductPositive(x: real, y: real)
    requires x > 0.0 && y > 0.0
    ensures x * y > 0.0
  {
  }

  lemma ChannelInRange(a: real, alphaA: real, weightA: real, b: real, alphaB: real, weightB: real)
    requires 0.0 <= a <= 255.0 && 0.0 <= b <= 255.0
    requires alphaA * weightA >= 0.0 && alphaB * weightB >= 0.0 && MixedAlpha(alphaA, weightA, alphaB, weightB) > 0.0
    ensures 0.0 <= Premultiplied(a, alphaA, weightA, b, alphaB, weightB) / MixedAlpha(alphaA, weightA, alphaB, weightB) <= 255.0
  {
    var x, y := alphaA * weightA, alphaB * weightB;
    var p := Premultiplied(a, alphaA, weightA, b, alphaB, weightB);
    assert p == a * x + b * y;
    ConvexBound(a, x, b, y);
    assert MixedAlpha(alphaA, weightA, alphaB, weightB) == x + y;
    DivideBound(p, x + y);
  }

  lemma AlphaInRange(alphaA: real, weightA: real, alphaB: real, weightB: real)
    requires 0.0 <= alphaA <= 1.0 && 0.0 <= alphaB <= 1.0 && weightA >= 0.0 && weightB >= 0.0 && weightA + weightB == 1.0
    ensures alphaA * weightA >= 0.0 && alphaB * weightB >= 0.0
    ensures 0.0 <= MixedAlpha(alphaA, weightA, alphaB, weightB) <= 1.0
  {
    ProductNonNegative(alphaA, weightA);
    ProductNonNegative(alphaB, weightB);
    ProductNonNegative(1.0 - alphaA, weightA);
    ProductNonNegative(1.0 - alphaB, weightB);
    assert (1.0 - alphaA) * weightA == weightA - alphaA * weightA;
    assert (1.0 - alphaB) * weightB == weightB - alphaB * weightB;
  }

  /** Mixing in-range paints with non-negative weights stays in range. */
  lemma MixInRange(a: Paint, weightA: real, b: Paint, weightB: real)
    requires InRange(a) && InRange(b) && weightA >= 0.0 && weightB >= 0.0 && weightA + weightB == 1.0
    ensures InRange(Mix(a, weightA, b, weightB))
  {
    hide Premultiplied, MixedAlpha;
    AlphaInRange(a.alpha, weightA, b.alpha, weightB);
    if MixedAlpha(a.alpha, weightA, b.alpha, weightB) > 0.0 {
      ChannelInRange(a.color.r, a.alpha, weightA, b.color.r, b.alpha, weightB);
      ChannelInRange(a.color.g, a.alpha, weightA, b.color.g, b.alpha, weightB);
      ChannelInRange(a.color.b, a.alpha, weightA, b.color.b, b.alpha, weightB);
    }
  }

  lemma CompositeInRange(p: Paint, backdrop: Rgb)
    requires InRange(p) && InGamut(backdrop)
    ensures InGamut(Composite(p.color, p.alpha, backdrop))
  {
    ConvexBound(p.color.r, p.alpha, backdrop.r, 1.0 - p.alpha);
    ConvexBound(p.color.g, p.alpha, backdrop.g, 1.0 - p.alpha);
    ConvexBound(p.color.b, p.alpha, backdrop.b, 1.0 - p.alpha);
  }

  /** Distance of two channels. */
  function Distance(x: real, y: real): real { if x < y then y - x else x - y }

  /** Treating an alpha of at least 0.999 as opaque moves no channel by more than 0.255. */
  lemma OverNear(top: real, alpha: real, backdrop: real)
    requires 0.0 <= top <= 255.0 && 0.0 <= backdrop <= 255.0 && 0.999 <= alpha <= 1.0
    ensures Distance(top, Over(top, alpha, backdrop)) <= 0.255
  {
    var rest, gap := 1.0 - alpha, top - backdrop;
    assert top - Over(top, alpha, backdrop) == gap * rest;
    ProductNonNegative(255.0 - gap, rest);
    ProductNonNegative(255.0 + gap, rest);
    assert (255.0 - gap) * rest == 255.0 * rest - gap * rest;
    assert (255.0 + gap) * rest == 255.0 * rest + gap * rest;
    assert 255.0 * rest <= 0.255;
  }

  // ------------------------------------------------------------------ contrast

  /** The 2.4 power on [0, 1]: any monotone function fixed at both ends. */
  ghost predicate PowerLike(power: real -> real) {
    && power(0.0) == 0.0 && power(1.0) == 1.0
    && forall x, y :: 0.0 <= x <= y <= 1.0 ==> power(x) <= power(y)
  }

  function Linear(power: real -> real, channel: real): real {
    var srgb := channel / 255.0;
    if srgb <= 0.04045 then srgb / 12.92 else power((srgb + 0.055) / 1.055)
  }

  /** `relative_luminance`. */
  function Luminance(power: real -> real, c: Rgb): real {
    0.2126 * Linear(power, c.r) + 0.7152 * Linear(power, c.g) + 0.0722 * Linear(power, c.b)
  }

  /** `contrast`. */
  function Contrast(power: real -> real, a: Rgb, b: Rgb): real
    requires Luminance(power, a) > -0.05 && Luminance(power, b) > -0.05
  {
    var first, second := Luminance(power, a), Luminance(power, b);
    var lighter, darker := if first < second then second else first, if first < second then first else second;
    (lighter + 0.05) / (darker + 0.05)
  }

  lemma LinearInUnit(power: real -> real, channel: real)
    requires PowerLike(power) && 0.0 <= channel <= 255.0
    ensures 0.0 <= Linear(power, channel) <= 1.0
  {
    var srgb := channel / 255.0;
    assert 0.0 <= srgb <= 1.0;
    if srgb > 0.04045 {
      var x := (srgb + 0.055) / 1.055;
      assert 0.0 <= x <= 1.0;
      assert power(0.0) <= power(x) <= power(1.0);
    }
  }

  lemma LuminanceInUnit(power: real -> real, c: Rgb)
    requires PowerLike(power) && InGamut(c)
    ensures 0.0 <= Luminance(power, c) <= 1.0
  {
    hide Linear;
    LinearInUnit(power, c.r);
    LinearInUnit(power, c.g);
    LinearInUnit(power, c.b);
  }

  /** The contrast of two in-gamut colours is symmetric and lies in [1, 21]; it is 1 exactly
      for equal luminances. */
  lemma ContrastRange(power: real -> real, a: Rgb, b: Rgb)
    requires PowerLike(power) && InGamut(a) && InGamut(b)
    ensures Luminance(power, a) > -0.05 && Luminance(power, b) > -0.05
    ensures Contrast(power, a, b) == Contrast(power, b, a)
    ensures 1.0 <= Contrast(power, a, b) <= 21.0
    ensures Contrast(power, a, b) == 1.0 <==> Luminance(power, a) == Luminance(power, b)
  {
    hide Luminance;
    LuminanceInUnit(power, a);
    LuminanceInUnit(power, b);
    var first, second := Luminance(power, a), Luminance(power, b);
    if first < second { RatioRange(second, first); } else { RatioRange(first, second); }
  }

  /** Relative luminance of the primaries, as WCAG 2.1 defines it. */
  lemma PrimaryLuminance(power: real -> real)
    requires PowerLike(power)
    ensures Luminance(power, Rgb(255.0, 0.0, 0.0)) == 0.2126
    ensures Luminance(power, Rgb(0.0, 255.0, 0.0)) == 0.7152
    ensures Luminance(power, Rgb(0.0, 0.0, 255.0)) == 0.0722
  {
    assert Linear(power, 0.0) == 0.0;
    assert (1.0 + 0.055) / 1.055 == 1.0;
    assert Linear(power, 255.0) == 1.0;
  }

  lemma RatioRange(lighter: real, darker: real)
    requires 0.0 <= darker <= lighter <= 1.0
    ensures 1.0 <= (lighter + 0.05) / (darker + 0.05) <= 21.0
    ensures (lighter + 0.05) / (darker + 0.05) == 1.0 <==> lighter == darker
  {
    var n, d := lighter + 0.05, darker + 0.05;
    var q := n / d;
    assert q * d == n;
    if q == 1.0 { assert n == d; }
    if n == d { assert q == 1.0; }
    if q < 1.0 { ProductPositive(1.0 - q, d); }
    if q > 21.0 { ProductPositive(q - 21.0, d); }
  }

  /** Both ends of the range are reached: black on white measures 21. */
  lemma BlackOnWhite(power: real -> real)
    requires PowerLike(power)
    ensures Luminance(power, Rgb(0.0, 0.0, 0.0)) == 0.0 && Luminance(power, Rgb(255.0, 255.0, 255.0)) == 1.0
    ensures Contrast(power, Rgb(0.0, 0.0, 0.0), Rgb(255.0, 255.0, 255.0)) == 21.0
  {
    assert Linear(power, 0.0) == 0.0;
    assert (1.0 + 0.055) / 1.055 == 1.0;
    assert Linear(power, 255.0) == 1.0;
  }
}
