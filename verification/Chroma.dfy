/** The soft matte that removes a known background color. */
module Chroma {
  import opened Wrappers
  import opened Bytes

  datatype Color = Color(r: Byte, g: Byte, b: Byte)

  datatype Pixel = Pixel(color: Color, alpha: Byte)

  datatype Options = Options(key: Color, transparent: Byte, opaqueAt: Byte, despill: bool) {
    predicate Valid() {
      transparent < opaqueAt
    }
  }

  /** Which channels the key color spills into. */
  datatype Channels = Channels(r: bool, g: bool, b: bool) {
    predicate Any() {
      r || g || b
    }
  }

  const KEY_DOMINANCE_THRESHOLD := 16
  const ALPHA_NOISE_FLOOR := 8
  const ALPHA_SCALE := 65_535

  function AbsDiff(a: Byte, b: Byte): Byte {
    if a >= b then a - b else b - a
  }

  function Max(a: int, b: int): int {
    if a >= b then a else b
  }

  function Min(a: int, b: int): int {
    if a <= b then a else b
  }

  function Greatest(c: Color): Byte {
    Max(c.r, Max(c.g, c.b))
  }

  function ChannelDistance(c: Color, key: Color): Byte {
    Max(AbsDiff(c.r, key.r), Max(AbsDiff(c.g, key.g), AbsDiff(c.b, key.b)))
  }

  function SpillChannels(key: Color): Channels {
    var top := Greatest(key);
    if top < 128 then Channels(false, false, false)
    else
      Channels(key.r >= top - 16 && key.r >= 128, key.g >= top - 16 && key.g >= 128,
        key.b >= top - 16 && key.b >= 128)
  }

  /** The least value of the chosen channels, and 0 when there are none. */
  function LeastOf(c: Color, s: Channels): Byte {
    if !s.Any() then 0
    else Min(if s.r then c.r else 255, Min(if s.g then c.g else 255, if s.b then c.b else 255))
  }

  /** The greatest value of the other channels, and 0 when there are none. */
  function GreatestBut(c: Color, s: Channels): Byte {
    Max(if s.r then 0 else c.r, Max(if s.g then 0 else c.g, if s.b then 0 else c.b))
  }

  function KeyDominance(c: Color, key: Color): int {
    var spill := SpillChannels(key);
    if spill.Any() then LeastOf(c, spill) - GreatestBut(c, spill) else 0
  }

  predicate LooksKeyColored(c: Color, key: Color) {
    ChannelDistance(c, key) <= 32 || KeyDominance(c, key) >= KEY_DOMINANCE_THRESHOLD
  }

  /** Where a distance stands between the two thresholds, on the alpha scale. */
  function Ratio(distance: int, transparent: int, opaqueAt: int): int
    requires transparent < opaqueAt
  {
    (distance - transparent) * ALPHA_SCALE / (opaqueAt - transparent)
  }

  function Cubic(ratio: int): int {
    ratio * ratio * (3 * ALPHA_SCALE - 2 * ratio)
  }

  function Smooth(ratio: int): int {
    Cubic(ratio) / (ALPHA_SCALE * ALPHA_SCALE)
  }

  function Narrow(smooth: int): int {
    (smooth * 255 + ALPHA_SCALE / 2) / ALPHA_SCALE
  }

  function SoftAlpha(distance: Byte, transparent: Byte, opaqueAt: Byte): int
    requires transparent < opaqueAt
  {
    if distance <= transparent then 0
    else if distance >= opaqueAt then 255
    else Narrow(Smooth(Ratio(distance, transparent, opaqueAt)))
  }

  function DominanceAlpha(c: Color, key: Color): int {
    var dominance := KeyDominance(c, key);
    if dominance <= 0 then 255
    else
      var denominator := Max(Greatest(key) - GreatestBut(c, SpillChannels(key)), 1);
      var remaining := denominator - Min(dominance, denominator);
      (remaining * 255 + denominator / 2) / denominator
  }

  function Pulled(value: Byte, chosen: bool, anchor: Byte): Byte {
    if chosen then Min(value, anchor) else value
  }

  function CleanupSpill(c: Color, key: Color, alpha: Byte): Color {
    if alpha >= 252 then c
    else
      var spill := SpillChannels(key);
      var anchor := Max(GreatestBut(c, spill) - 1, 0);
      Color(Pulled(c.r, spill.r, anchor), Pulled(c.g, spill.g, anchor), Pulled(c.b, spill.b, anchor))
  }

  // ----- the same, channel by channel

  function At(c: Color, k: nat): int
    requires k < 3
  {
    if k == 0 then c.r else if k == 1 then c.g else c.b
  }

  /** The key spills into its bright channels, as far as no other is much brighter. */
  predicate Chosen(key: Color, k: nat)
    requires k < 3
  {
    At(key, k) >= 128 && forall j :: 0 <= j < 3 ==> At(key, j) <= At(key, k) + 16
  }

  lemma SpillIff(key: Color)
    ensures SpillChannels(key) == Channels(Chosen(key, 0), Chosen(key, 1), Chosen(key, 2))
  {
    assert At(key, 0) == key.r && At(key, 1) == key.g && At(key, 2) == key.b;
  }

  function Apart(c: Color, key: Color, k: nat): int
    requires k < 3
  {
    if At(c, k) >= At(key, k) then At(c, k) - At(key, k) else At(key, k) - At(c, k)
  }

  /** The distance is that of the channel that differs most. */
  lemma DistanceMeaning(c: Color, key: Color)
    ensures forall k :: 0 <= k < 3 ==> Apart(c, key, k) <= ChannelDistance(c, key)
    ensures exists k :: 0 <= k < 3 && Apart(c, key, k) == ChannelDistance(c, key)
  {
    assert Apart(c, key, 0) == AbsDiff(c.r, key.r);
    assert Apart(c, key, 1) == AbsDiff(c.g, key.g);
    assert Apart(c, key, 2) == AbsDiff(c.b, key.b);
  }

  /** One channel of the spill exceeds by `d` every other one, none counting as black. */
  ghost predicate Exceeds(c: Color, key: Color, i: nat, d: int)
    requires i < 3
  {
    Chosen(key, i) && d <= At(c, i) && forall j :: 0 <= j < 3 && !Chosen(key, j) ==> d <= At(c, i) - At(c, j)
  }

  /** The dominance is what every channel of the spill exceeds the others by, and not all of them by more. */
  lemma DominanceMeaning(c: Color, key: Color)
    requires exists k :: 0 <= k < 3 && Chosen(key, k)
    ensures forall i :: 0 <= i < 3 && Chosen(key, i) ==> Exceeds(c, key, i, KeyDominance(c, key))
    ensures exists i :: 0 <= i < 3 && Chosen(key, i) && !Exceeds(c, key, i, KeyDominance(c, key) + 1)
  {
    hide SpillChannels, Chosen;
    SpillIff(key);
    assert At(c, 0) == c.r && At(c, 1) == c.g && At(c, 2) == c.b;
    if Chosen(key, 0) && !Exceeds(c, key, 0, KeyDominance(c, key) + 1) {
    } else if Chosen(key, 1) && !Exceeds(c, key, 1, KeyDominance(c, key) + 1) {
    } else {
      assert !Exceeds(c, key, 2, KeyDominance(c, key) + 1);
    }
  }

  lemma LooksIff(c: Color, key: Color)
    ensures LooksKeyColored(c, key) <==>
      (forall k :: 0 <= k < 3 ==> Apart(c, key, k) <= 32) || KeyDominance(c, key) >= 16
  {
    hide KeyDominance, ChannelDistance;
    DistanceMeaning(c, key);
  }

  // ----- the arithmetic stays within its types

  lemma Divide(a: int, b: int, d: int)
    requires a <= b && d > 0
    ensures a / d <= b / d
  {
    var x, y := a / d, b / d;
    if x > y {
      AtLeastOne(d, x - y);
    }
    assert d * (x - y) == d * x - d * y;
    assert a == d * x + a % d && b == d * y + b % d;
  }

  lemma AtLeastOne(d: int, k: int)
    requires d > 0 && k >= 1
    ensures d * k >= d
  {
  }

  lemma DivideExact(n: int, k: int)
    requires n > 0
    ensures n * k / n == k
  {
    var q := n * k / n;
    if k > q {
      AtLeastOne(n, k - q);
    } else if q > k {
      AtLeastOne(n, q - k);
    }
    assert n * (k - q) == n * k - n * q && n * (q - k) == n * q - n * k;
    assert n * k == n * q + n * k % n;
  }

  lemma SquareBound(x: int, s: int)
    requires 0 <= x <= s
    ensures 0 <= x * x <= s * s
  {
  }

  lemma RatioMonotone(a: int, b: int, transparent: int, opaqueAt: int)
    requires transparent <= a <= b <= opaqueAt && transparent < opaqueAt
    ensures 0 <= Ratio(a, transparent, opaqueAt) <= Ratio(b, transparent, opaqueAt) <= ALPHA_SCALE
  {
    var span := opaqueAt - transparent;
    assert 0 <= (a - transparent) * ALPHA_SCALE <= (b - transparent) * ALPHA_SCALE <= span * ALPHA_SCALE;
    Divide(0, (a - transparent) * ALPHA_SCALE, span);
    Divide((a - transparent) * ALPHA_SCALE, (b - transparent) * ALPHA_SCALE, span);
    Divide((b - transparent) * ALPHA_SCALE, span * ALPHA_SCALE, span);
    DivideExact(span, ALPHA_SCALE);
  }

  lemma CubicMonotone(a: int, b: int)
    requires 0 <= a <= b <= ALPHA_SCALE
    ensures 0 <= Cubic(a) <= Cubic(b) <= ALPHA_SCALE * ALPHA_SCALE * ALPHA_SCALE
  {
    CubicStep(a, b, ALPHA_SCALE);
    CubicStep(b, ALPHA_SCALE, ALPHA_SCALE);
    CubicStep(0, a, ALPHA_SCALE);
  }

  /** The slope of the cubic between two points. */
  function Slope(a: int, b: int, s: int): int {
    3 * s * (a + b) - 2 * (a * a + a * b + b * b)
  }

  lemma CubicDifference(a: int, b: int, s: int)
    ensures b * b * (3 * s - 2 * b) - a * a * (3 * s - 2 * a) == (b - a) * Slope(a, b, s)
  {
  }

  lemma SlopeRange(a: int, b: int, s: int)
    requires 0 <= a <= b <= s
    ensures 0 <= Slope(a, b, s) <= 6 * s * s
  {
    assert s * (a + b) >= b * (a + b);
    assert b * b >= a * b >= a * a >= 0;
    assert s * (a + b) <= s * (2 * s);
  }

  lemma CubicStep(a: int, b: int, s: int)
    requires 0 <= a <= b <= s
    ensures a * a * (3 * s - 2 * a) <= b * b * (3 * s - 2 * b)
  {
    hide Slope;
    CubicDifference(a, b, s);
    SlopeRange(a, b, s);
    assert (b - a) * Slope(a, b, s) >= 0;
  }

  /** Between the thresholds nothing overflows 64 bits, and the result is a byte, greater for a greater distance. */
  lemma SoftAlphaMonotone(a: Byte, b: Byte, transparent: Byte, opaqueAt: Byte)
    requires transparent < opaqueAt && a <= b
    ensures 0 <= SoftAlpha(a, transparent, opaqueAt) <= SoftAlpha(b, transparent, opaqueAt) <= 255
  {
    hide Ratio, Smooth, Narrow;
    var low := if a <= transparent then transparent else if a >= opaqueAt then opaqueAt else a;
    var high := if b <= transparent then transparent else if b >= opaqueAt then opaqueAt else b;
    RatioMonotone(low, high, transparent, opaqueAt);
    SmoothMonotone(Ratio(low, transparent, opaqueAt), Ratio(high, transparent, opaqueAt));
    NarrowMonotone(Smooth(Ratio(low, transparent, opaqueAt)), Smooth(Ratio(high, transparent, opaqueAt)));
  }

  lemma SmoothMonotone(a: int, b: int)
    requires 0 <= a <= b <= ALPHA_SCALE
    ensures 0 <= Smooth(a) <= Smooth(b) <= ALPHA_SCALE
  {
    hide Cubic;
    CubicMonotone(a, b);
    var square := ALPHA_SCALE * ALPHA_SCALE;
    Divide(0, Cubic(a), square);
    Divide(Cubic(a), Cubic(b), square);
    Divide(Cubic(b), ALPHA_SCALE * square, square);
  }

  lemma NarrowMonotone(a: int, b: int)
    requires 0 <= a <= b <= ALPHA_SCALE
    ensures 0 <= Narrow(a) <= Narrow(b) <= 255
  {
    Divide(a * 255 + ALPHA_SCALE / 2, b * 255 + ALPHA_SCALE / 2, ALPHA_SCALE);
  }

  const U64_LIMIT := 0x1_0000_0000_0000_0000

  /** Every intermediate value of the soft alpha fits 64 bits. */
  lemma SoftAlphaFits(distance: Byte, transparent: Byte, opaqueAt: Byte)
    requires transparent < distance < opaqueAt
    ensures (distance - transparent) * ALPHA_SCALE < U64_LIMIT
    ensures var ratio := Ratio(distance, transparent, opaqueAt);
      && 0 <= ratio <= ALPHA_SCALE && ratio * ratio < U64_LIMIT && 0 <= Cubic(ratio) < U64_LIMIT
      && Smooth(ratio) * 255 + ALPHA_SCALE / 2 < U64_LIMIT
  {
    hide Smooth, Ratio, Cubic;
    RatioMonotone(distance, distance, transparent, opaqueAt);
    var ratio := Ratio(distance, transparent, opaqueAt);
    CubicMonotone(ratio, ratio);
    SmoothMonotone(ratio, ratio);
    SquareBound(ratio, ALPHA_SCALE);
  }

  lemma DominanceAlphaRange(c: Color, key: Color)
    ensures 0 <= DominanceAlpha(c, key) <= 255
  {
    var denominator := Max(Greatest(key) - GreatestBut(c, SpillChannels(key)), 1);
    var dominance := KeyDominance(c, key);
    if dominance > 0 {
      var remaining := denominator - Min(dominance, denominator);
      RoundedShare(remaining, denominator);
    }
  }

  /** A share of the whole, rounded, is at most the whole. */
  lemma RoundedShare(part: int, whole: int)
    requires 0 <= part <= whole && whole > 0
    ensures 0 <= (part * 255 + whole / 2) / whole <= 255
  {
    var top := part * 255 + whole / 2;
    Divide(0, top, whole);
    var share := top / whole;
    if share > 255 {
      AtLeastOne(whole, share - 255);
    }
    assert whole * (share - 255) == whole * share - 255 * whole;
    assert top == whole * share + top % whole;
  }

  // ----- how near the rounded values are to the curves they stand for

  lemma Scale(n: int, a: int, b: int)
    requires n >= 0 && a <= b
    ensures n * a <= n * b
  {
  }

  /**
   * The cubic at the rounded-down ratio, on a common denominator: at most the exact one, and less by a bounded slope.
   */
  lemma CubicNear(k: int, n: int, r: int)
    requires 0 <= k <= n && 0 < n && r == k * ALPHA_SCALE / n
    ensures var cube := n * n * n; var exact := k * k * (3 * n - 2 * k); var s := ALPHA_SCALE;
      s * s * s * exact - 6 * s * s * cube <= cube * Cubic(r) <= s * s * s * exact
  {
    var s := ALPHA_SCALE;
    var whole := k * s;
    var part := r * n;
    FloorBelow(whole, n);
    assert whole <= n * s;
    CubicSlope(part, whole, n * s, n);
    CubicRescale(r, n, s);
    CubicRescale(k, s, n);
    Regrouped(n, s);
  }

  lemma FloorBelow(whole: int, n: int)
    requires whole >= 0 && n > 0
    ensures 0 <= whole / n * n <= whole < whole / n * n + n
  {
    Divide(0, whole, n);
    assert whole == n * (whole / n) + whole % n;
  }

  lemma Regrouped(n: int, s: int)
    ensures 6 * (n * s) * (n * s) * n == 6 * s * s * (n * n * n)
  {
    Regroup(n, s, n, s);
    assert (n * s) * (n * s) == (n * n) * (s * s);
    assert (n * n) * (s * s) * n == s * s * (n * n * n);
  }

  /** Stretching the argument and the scale by `m` multiplies the cubic by its cube. */
  lemma CubicRescale(x: int, m: int, s: int)
    ensures (x * m) * (x * m) * (3 * (m * s) - 2 * (x * m)) == m * m * m * (x * x * (3 * s - 2 * x))
  {
    var y := x * m;
    assert 3 * (m * s) - 2 * y == m * (3 * s - 2 * x);
    assert y * y == (m * m) * (x * x);
    assert y * y * (m * (3 * s - 2 * x)) == (m * m) * (x * x) * (m * (3 * s - 2 * x));
    Regroup(m * m, x * x, m, 3 * s - 2 * x);
  }

  lemma Regroup(a: int, b: int, c: int, d: int)
    ensures a * b * (c * d) == a * c * (b * d)
  {
  }

  lemma CubicSlope(a: int, b: int, s: int, n: int)
    requires 0 <= a <= b <= s && b - a <= n
    ensures 0 <= b * b * (3 * s - 2 * b) - a * a * (3 * s - 2 * a) <= 6 * s * s * n
  {
    hide Slope;
    CubicDifference(a, b, s);
    SlopeRange(a, b, s);
    var slope := Slope(a, b, s);
    Scale(slope, 0, b - a);
    Scale(slope, b - a, n);
    Scale(n, slope, 6 * s * s);
  }

  /** The soft alpha is within one level of 255 (3 t^2 - 2 t^3), where t is the place between the two thresholds. */
  lemma SoftAlphaIsSmoothStep(distance: Byte, transparent: Byte, opaqueAt: Byte)
    requires transparent <= distance <= opaqueAt && transparent < opaqueAt
    ensures var k, n := distance - transparent, opaqueAt - transparent;
      var cube, exact := n * n * n, k * k * (3 * n - 2 * k);
      -cube < SoftAlpha(distance, transparent, opaqueAt) * cube - 255 * exact < cube
  {
    hide Cubic;
    var k: int, n: int := distance - transparent, opaqueAt - transparent;
    var cube, exact := n * n * n, k * k * (3 * n - 2 * k);
    assert cube > 0 by {
      AtLeastOne(n, n);
      AtLeastOne(n * n, n);
    }
    if transparent < distance < opaqueAt {
      var r := Ratio(distance, transparent, opaqueAt);
      CubicNear(k, n, r);
      RoundingNear(cube, exact, Cubic(r));
    } else if distance == transparent {
      assert exact == 0;
    } else {
      assert exact == cube by {
        assert 3 * n - 2 * n == n;
      }
    }
  }

  lemma RoundingNear(cube: int, exact: int, cubic: int)
    requires cube > 0
    requires var s := ALPHA_SCALE; s * s * s * exact - 6 * s * s * cube <= cube * cubic <= s * s * s * exact
    ensures -cube < Narrow(cubic / (ALPHA_SCALE * ALPHA_SCALE)) * cube - 255 * exact < cube
  {
    SmoothNear(cube, exact, cubic);
    NarrowNear(cube, exact, cubic / (ALPHA_SCALE * ALPHA_SCALE));
  }

  lemma SmoothNear(cube: int, exact: int, cubic: int)
    requires cube > 0
    requires var s := ALPHA_SCALE; s * s * s * exact - 6 * s * s * cube <= cube * cubic <= s * s * s * exact
    ensures var scaled := cube * (cubic / (ALPHA_SCALE * ALPHA_SCALE));
      scaled <= ALPHA_SCALE * exact <= scaled + 7 * cube
  {
    var s := ALPHA_SCALE;
    var smooth := cubic / (s * s);
    assert s * s * smooth <= cubic <= s * s * (smooth + 1);
    Scale(cube, s * s * smooth, cubic);
    Scale(cube, cubic, s * s * (smooth + 1));
    var scaled := cube * smooth;
    assert cube * (s * s * smooth) == s * s * scaled;
    assert cube * (s * s * (smooth + 1)) == s * s * scaled + s * s * cube;
  }

  lemma NarrowNear(cube: int, exact: int, smooth: int)
    requires cube > 0 && cube * smooth <= ALPHA_SCALE * exact <= cube * smooth + 7 * cube
    ensures -cube < Narrow(smooth) * cube - 255 * exact < cube
  {
    var s := ALPHA_SCALE;
    var result := Narrow(smooth);
    assert s * result <= smooth * 255 + s / 2 <= s * result + s;
    Scale(cube, s * result, smooth * 255 + s / 2);
    Scale(cube, smooth * 255 + s / 2, s * result + s);
    Distribute(cube, s, result, 0);
    Distribute(cube, 255, smooth, s / 2);
    Distribute(cube, s, result, s);
  }

  lemma Distribute(cube: int, a: int, x: int, b: int)
    ensures cube * (a * x + b) == a * (x * cube) + b * cube
    ensures cube * (x * a + b) == a * (cube * x) + b * cube
  {
  }

  /** What the dominance leaves is the rest of the denominator on the scale of 255, rounded to nearest. */
  lemma DominanceAlphaNear(c: Color, key: Color)
    requires KeyDominance(c, key) > 0
    ensures var denominator := Max(Greatest(key) - GreatestBut(c, SpillChannels(key)), 1);
      var remaining := Max(denominator - KeyDominance(c, key), 0);
      -denominator <= 2 * (DominanceAlpha(c, key) * denominator - remaining * 255) <= denominator
  {
    hide KeyDominance, Greatest, GreatestBut;
    var denominator := Max(Greatest(key) - GreatestBut(c, SpillChannels(key)), 1);
    var remaining := Max(denominator - KeyDominance(c, key), 0);
    var top := remaining * 255 + denominator / 2;
    assert top == denominator * (top / denominator) + top % denominator;
  }

  // ----- one pixel

  function Matte(c: Color, o: Options): int
    requires o.Valid()
  {
    if LooksKeyColored(c, o.key)
    then Min(SoftAlpha(ChannelDistance(c, o.key), o.transparent, o.opaqueAt), DominanceAlpha(c, o.key))
    else 255
  }

  lemma MatteRange(c: Color, o: Options)
    requires o.Valid()
    ensures 0 <= Matte(c, o) <= 255
  {
    hide SoftAlpha, DominanceAlpha, ChannelDistance;
    var distance := ChannelDistance(c, o.key);
    SoftAlphaMonotone(distance, distance, o.transparent, o.opaqueAt);
    DominanceAlphaRange(c, o.key);
  }

  /** The matte's share of the source alpha, rounded, with noise removed. */
  function Blend(matte: int, alpha: Byte): Byte
    requires 0 <= matte <= 255
  {
    BlendBound(matte, alpha);
    var blended := (matte * alpha + 127) / 255;
    if blended <= ALPHA_NOISE_FLOOR then 0 else blended
  }

  /** The product fits 16 bits, and the share is never more than the whole. */
  lemma BlendBound(matte: int, alpha: Byte)
    requires 0 <= matte <= 255
    ensures 0 <= matte * alpha + 127 < U16_LIMIT
    ensures 0 <= (matte * alpha + 127) / 255 <= alpha
    ensures matte == 255 ==> (matte * alpha + 127) / 255 == alpha
  {
    var product := matte * alpha;
    assert 0 <= product <= 255 * alpha;
  }

  /** The blended alpha is the product over 255, rounded to nearest, or nothing when that is at most 8. */
  lemma BlendNear(matte: int, alpha: Byte)
    requires 0 <= matte <= 255
    ensures Blend(matte, alpha) == 0 <==> matte * alpha <= 255 * 8 + 127
    ensures Blend(matte, alpha) != 0 ==> -127 <= 255 * Blend(matte, alpha) - matte * alpha <= 127
  {
    var product := matte * alpha;
    BlendBound(matte, alpha);
    assert product + 127 == 255 * ((product + 127) / 255) + (product + 127) % 255;
  }

  function MattePixel(p: Pixel, o: Options): Pixel
    requires o.Valid()
  {
    MatteRange(p.color, o);
    var alpha := Blend(Matte(p.color, o), p.alpha);
    if alpha == 0 then Pixel(Color(0, 0, 0), 0)
    else if o.despill && LooksKeyColored(p.color, o.key) then Pixel(CleanupSpill(p.color, o.key, alpha), alpha)
    else Pixel(p.color, alpha)
  }

  /** The output is never more opaque than the source; it is empty, or above the noise floor. */
  lemma MatteAlpha(p: Pixel, o: Options)
    requires o.Valid()
    ensures var t := MattePixel(p, o);
      t.alpha <= p.alpha && (t == Pixel(Color(0, 0, 0), 0) || t.alpha > ALPHA_NOISE_FLOOR)
  {
    hide Matte, CleanupSpill, LooksKeyColored;
    MatteRange(p.color, o);
    BlendBound(Matte(p.color, o), p.alpha);
  }

  /** A pixel that does not look like the key is untouched, unless it was nearly empty already. */
  lemma MatteKeepsSubject(p: Pixel, o: Options)
    requires o.Valid() && !LooksKeyColored(p.color, o.key)
    ensures MattePixel(p, o) == if p.alpha <= ALPHA_NOISE_FLOOR then Pixel(Color(0, 0, 0), 0) else p
  {
    BlendBound(255, p.alpha);
  }

  /** Pulling the spill back leaves no key dominance, unless the pixel was taken for opaque and left alone. */
  lemma CleanupRemovesDominance(c: Color, key: Color, alpha: Byte)
    ensures KeyDominance(CleanupSpill(c, key, alpha), key) <= 0 <==> alpha < 252 || KeyDominance(c, key) <= 0
    ensures var t, spill := CleanupSpill(c, key, alpha), SpillChannels(key);
      && t.r <= c.r && t.g <= c.g && t.b <= c.b
      && (!spill.r ==> t.r == c.r) && (!spill.g ==> t.g == c.g) && (!spill.b ==> t.b == c.b)
  {
    hide SpillChannels;
    var spill := SpillChannels(key);
    if alpha < 252 {
      var t := CleanupSpill(c, key, alpha);
      assert GreatestBut(t, spill) == GreatestBut(c, spill);
    }
  }

  /** A channel of the spill is pulled back to just below the strongest other one, and no further than it must. */
  lemma CleanupMeaning(c: Color, key: Color, alpha: Byte, k: nat)
    requires k < 3 && Chosen(key, k) && alpha < 252
    ensures var t := At(CleanupSpill(c, key, alpha), k);
      && 0 <= t <= At(c, k)
      && (t == 0 || exists j :: 0 <= j < 3 && !Chosen(key, j) && t < At(c, j))
      && (t < At(c, k) ==> forall j :: 0 <= j < 3 && !Chosen(key, j) ==> t + 1 >= At(c, j))
  {
    hide Chosen, SpillChannels;
    SpillIff(key);
    assert At(c, 0) == c.r && At(c, 1) == c.g && At(c, 2) == c.b;
  }

  lemma MatteDespills(p: Pixel, o: Options)
    requires o.Valid() && o.despill && LooksKeyColored(p.color, o.key)
    ensures MattePixel(p, o).alpha < 252 ==> KeyDominance(MattePixel(p, o).color, o.key) <= 0
  {
    hide Matte, CleanupSpill, LooksKeyColored;
    MatteRange(p.color, o);
    CleanupRemovesDominance(p.color, o.key, Blend(Matte(p.color, o), p.alpha));
    EmptyHasNoDominance(o.key);
  }

  lemma EmptyHasNoDominance(key: Color)
    ensures KeyDominance(Color(0, 0, 0), key) == 0
  {
  }

  /**
   * A pixel within the transparent threshold of the key becomes empty exactly when it looks like the key, as every
   * pixel within 32 does, or was nearly empty already: a threshold above 32 promises more than the matte does.
   */
  lemma WithinThresholdEmptyIff(p: Pixel, o: Options)
    requires o.Valid() && ChannelDistance(p.color, o.key) <= o.transparent
    ensures MattePixel(p, o).alpha == 0 <==> LooksKeyColored(p.color, o.key) || p.alpha <= ALPHA_NOISE_FLOOR
  {
    hide LooksKeyColored, CleanupSpill, ChannelDistance;
    DominanceAlphaRange(p.color, o.key);
    BlendBound(Matte(p.color, o), p.alpha);
    if !LooksKeyColored(p.color, o.key) {
      MatteKeepsSubject(p, o);
    }
  }

  /** Gray is 40 from a green of 168, within a threshold of 64, and stays opaque. */
  lemma ThresholdNotReached(o: Options)
    requires o.Valid() && o.key == Color(128, 168, 128) && o.transparent >= 64
    ensures ChannelDistance(Color(128, 128, 128), o.key) <= o.transparent
    ensures MattePixel(Pixel(Color(128, 128, 128), 255), o) == Pixel(Color(128, 128, 128), 255)
  {
    var gray := Color(128, 128, 128);
    assert KeyDominance(gray, o.key) == 0;
    MatteKeepsSubject(Pixel(gray, 255), o);
  }

  /** The dominance alpha is full exactly when there is nothing to take away. */
  lemma DominanceAlphaFullIff(c: Color, key: Color)
    ensures DominanceAlpha(c, key) == 255 <==> KeyDominance(c, key) <= 0
  {
    hide KeyDominance, Greatest, GreatestBut, SpillChannels;
    var denominator: int := Max(Greatest(key) - GreatestBut(c, SpillChannels(key)), 1);
    var dominance := KeyDominance(c, key);
    if dominance > 0 {
      ShareNotFull(denominator - Min(dominance, denominator), denominator);
    }
  }

  /** A share of less than the whole is not rounded up to all of it. */
  lemma ShareNotFull(part: int, whole: int)
    requires 0 <= part < whole <= 255
    ensures (part * 255 + whole / 2) / whole < 255
  {
    var top := part * 255 + whole / 2;
    var share := top / whole;
    assert top < whole * 255;
    assert top == whole * share + top % whole;
    if share >= 255 {
      Scale(whole, 255, share);
    }
  }

  /**
   * At the opaque threshold and beyond, a pixel keeps its alpha when it does not look like the key or has no key
   * dominance, and an opaque one stays opaque only then: the threshold promises more than the matte does.
   */
  lemma BeyondThresholdOpaqueIff(p: Pixel, o: Options)
    requires o.Valid() && ChannelDistance(p.color, o.key) >= o.opaqueAt
    ensures var kept := !LooksKeyColored(p.color, o.key) || KeyDominance(p.color, o.key) <= 0;
      && (kept && p.alpha > ALPHA_NOISE_FLOOR ==> MattePixel(p, o).alpha == p.alpha)
      && (p.alpha == 255 ==> (MattePixel(p, o).alpha == 255 <==> kept))
  {
    hide LooksKeyColored, CleanupSpill, ChannelDistance, DominanceAlpha, KeyDominance;
    DominanceAlphaRange(p.color, o.key);
    DominanceAlphaFullIff(p.color, o.key);
    MatteRange(p.color, o);
    BlendBound(Matte(p.color, o), p.alpha);
    if p.alpha == 255 {
      var matte := Matte(p.color, o);
      assert (matte * 255 + 127) / 255 == matte;
    }
  }

  /** A green of 150 is 105 from the key green, beyond the default threshold of 96, and keeps an alpha of 105. */
  lemma ThresholdNotEnough(o: Options)
    requires o.Valid() && o.key == Color(0, 255, 0) && o.opaqueAt <= 105
    ensures ChannelDistance(Color(0, 150, 0), o.key) >= o.opaqueAt
    ensures MattePixel(Pixel(Color(0, 150, 0), 255), o).alpha == 105
  {
    var green := Color(0, 150, 0);
    assert KeyDominance(green, o.key) == 150 && DominanceAlpha(green, o.key) == 105;
    assert ChannelDistance(green, o.key) == 105 && LooksKeyColored(green, o.key);
    assert Matte(green, o) == 105;
  }

  // ----- the image

  function Count(pixels: seq<Pixel>, low: int, high: int): nat {
    if pixels == [] then 0
    else
      Count(pixels[..|pixels| - 1], low, high) + (if low <= pixels[|pixels| - 1].alpha <= high then 1 else 0)
  }

  method RemoveChromaKey(pixels: array<Pixel>, o: Options)
    requires o.Valid()
    modifies pixels
    ensures forall i :: 0 <= i < pixels.Length ==> pixels[i] == MattePixel(old(pixels[i]), o)
  {
    hide SoftAlpha, DominanceAlpha, CleanupSpill, LooksKeyColored, ChannelDistance;
    for i := 0 to pixels.Length
      invariant forall j :: 0 <= j < i ==> pixels[j] == MattePixel(old(pixels[j]), o)
      invariant forall j :: i <= j < pixels.Length ==> pixels[j] == old(pixels[j])
    {
      var pixel := pixels[i];
      var distance := ChannelDistance(pixel.color, o.key);
      var keyLike := LooksKeyColored(pixel.color, o.key);
      var matte := 255;
      if keyLike {
        matte := Min(SoftAlpha(distance, o.transparent, o.opaqueAt), DominanceAlpha(pixel.color, o.key));
      }
      MatteRange(pixel.color, o);
      BlendBound(matte, pixel.alpha);
      var alpha := (matte * pixel.alpha + 127) / 255;
      if alpha <= ALPHA_NOISE_FLOOR {
        alpha := 0;
      }
      if alpha == 0 {
        pixels[i] := Pixel(Color(0, 0, 0), 0);
        continue;
      }
      var color := pixel.color;
      if o.despill && keyLike {
        color := CleanupSpill(pixel.color, o.key, alpha);
      }
      pixels[i] := Pixel(color, alpha);
    }
  }

  datatype Summary = Summary(total: nat, transparent: nat, partial: nat, opaqueCount: nat, corners: nat)

  /** Every pixel is counted once, by its alpha. */
  method SummarizeAlpha(pixels: array<Pixel>, width: nat, height: nat) returns (s: Summary)
    requires 0 < width && 0 < height && pixels.Length == width * height
    ensures s.total == width * height == s.transparent + s.partial + s.opaqueCount
    ensures s.transparent == Count(pixels[..], 0, 0)
    ensures s.partial == Count(pixels[..], 1, 254)
    ensures s.opaqueCount == Count(pixels[..], 255, 255)
    ensures s.corners == Count(Corners(pixels[..], width, height), 0, 0)
  {
    var transparent, partial, opaqueCount := 0, 0, 0;
    for i := 0 to pixels.Length
      invariant transparent == Count(pixels[..i], 0, 0)
      invariant partial == Count(pixels[..i], 1, 254)
      invariant opaqueCount == Count(pixels[..i], 255, 255)
      invariant transparent + partial + opaqueCount == i
    {
      assert pixels[..i + 1][..i] == pixels[..i];
      match pixels[i].alpha {
        case 0 => transparent := transparent + 1;
        case 255 => opaqueCount := opaqueCount + 1;
        case _ => partial := partial + 1;
      }
    }
    assert pixels[..pixels.Length] == pixels[..];
    var four := Corners(pixels[..], width, height);
    var corners := 0;
    for k := 0 to |four|
      invariant corners == Count(four[..k], 0, 0)
    {
      assert four[..k + 1][..k] == four[..k];
      if four[k].alpha == 0 {
        corners := corners + 1;
      }
    }
    assert four[..|four|] == four;
    return Summary(width * height, transparent, partial, opaqueCount, corners);
  }

  lemma InRow(x: nat, y: nat, width: nat, height: nat)
    requires x < width && y < height
    ensures y * width + x < width * height
  {
    assert y * width + x < (y + 1) * width <= height * width;
  }

  /** The pixels at the four corners, row by row; in a narrow image they may coincide. */
  function Corners(pixels: seq<Pixel>, width: nat, height: nat): (r: seq<Pixel>)
    requires 0 < width && 0 < height && |pixels| == width * height
    ensures |r| == 4
  {
    InRow(0, 0, width, height);
    InRow(width - 1, 0, width, height);
    InRow(0, height - 1, width, height);
    InRow(width - 1, height - 1, width, height);
    [pixels[0], pixels[width - 1], pixels[(height - 1) * width], pixels[(height - 1) * width + width - 1]]
  }

  /** A matte worth keeping has something removed, something left, and a removed background at the corners. */
  predicate Acceptable(s: Summary, needCorners: bool) {
    var least := Max(s.total / 1000, 1);
    s.transparent >= least && s.opaqueCount + s.partial >= least && (needCorners ==> s.corners >= 2)
  }

  /** Each region is at least one pixel and, counting whole ones, a thousandth of the image. */
  lemma AcceptableIff(s: Summary, needCorners: bool)
    ensures Acceptable(s, needCorners) <==>
      && s.transparent > 0 && s.total < 1000 * s.transparent + 1000
      && s.opaqueCount + s.partial > 0 && s.total < 1000 * (s.opaqueCount + s.partial) + 1000
      && (needCorners ==> s.corners > 1)
  {
  }

  /** An image without a pixel like its key has nothing transparent but what was nearly empty before. */
  lemma {:induction false} NothingKeyedNothingRemoved(before: seq<Pixel>, after: seq<Pixel>, o: Options)
    requires o.Valid() && |before| == |after|
    requires forall i :: 0 <= i < |before| ==> after[i] == MattePixel(before[i], o)
    requires forall p :: p in before ==> !LooksKeyColored(p.color, o.key)
    ensures Count(after, 0, 0) == Count(before, 0, ALPHA_NOISE_FLOOR)
    decreases |before|
  {
    hide LooksKeyColored, MattePixel;
    if before != [] {
      var n := |before| - 1;
      MatteKeepsSubject(before[n], o);
      NothingKeyedNothingRemoved(before[..n], after[..n], o);
    }
  }

  /** So it is refused, unless enough of it was nearly empty before. */
  lemma UnkeyedRefused(before: seq<Pixel>, after: seq<Pixel>, s: Summary, needCorners: bool, o: Options)
    requires o.Valid() && |before| == |after| == s.total && s.transparent == Count(after, 0, 0)
    requires forall i :: 0 <= i < |before| ==> after[i] == MattePixel(before[i], o)
    requires forall p :: p in before ==> !LooksKeyColored(p.color, o.key)
    ensures Acceptable(s, needCorners) ==> Count(before, 0, ALPHA_NOISE_FLOOR) >= Max(s.total / 1000, 1)
  {
    hide LooksKeyColored, MattePixel, Count;
    NothingKeyedNothingRemoved(before, after, o);
  }
}
