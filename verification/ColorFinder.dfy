/**
 From camera bytes to the place of the ball: BGRA pixels become hue, saturation and
 value, a window on the circle of hues selects pixels, and the opened selection has
 a centroid.
 */
module ColorFinder {
  import opened Basics
  import opened Morphology
  import opened ImageMorphology

  const NO_HUE: nat := 0xFFFF

  datatype Hsv = Hsv(h: int, s: int, v: int)

  // ---------- BGRA to HSV ----------

  /** Division that rounds toward zero. */
  function Quotient(a: int, d: nat): int
    requires d > 0
  {
    if a >= 0 then a / d else -((-a) / d)
  }

  function Max(a: int, b: int): int {
    if a > b then a else b
  }

  function Min(a: int, b: int): int {
    if a > b then b else a
  }

  /** Hue before it is brought into the range from 0 on. */
  function RawHue(r: int, g: int, b: int, d: nat): int
    requires d > 0
  {
    var max := Max(Max(r, g), b);
    if max == r then Quotient((g - b) * 60, d)
    else if max == g then 120 + Quotient((b - r) * 60, d)
    else 240 + Quotient((r - g) * 60, d)
  }

  function ToHsv(r: byte, g: byte, b: byte): Hsv {
    var max := Max(Max(r, g), b);
    var d := max - Min(Min(r, g), b);
    if d == 0 then Hsv(NO_HUE, 0, 0)
    else
      var h := RawHue(r, g, b, d);
      Hsv(Wrapped(h), 255 * d / max * 100 / 255, max * 100 / 255)
  }

  predicate Grey(r: byte, g: byte, b: byte) {
    r == g == b
  }

  lemma SmallQuotient(a: int, d: nat)
    requires d > 0 && 0 - d <= a <= d
    ensures -60 <= Quotient(a * 60, d) <= 60
    ensures (a >= 0 ==> Quotient(a * 60, d) >= 0) && (a <= 0 ==> Quotient(a * 60, d) <= 0)
  {
    var m: nat := if a >= 0 then a else -a;
    DivideBelow(m * 60, 60, d);
  }

  lemma DivideBelow(n: nat, k: nat, d: nat)
    requires d > 0
    ensures n <= k * d ==> 0 <= n / d <= k
    ensures k * d <= n ==> k <= n / d
  {
    var q := n / d;
    assert n == q * d + n % d;
    MulMonotone(k + 1, q, d);
    MulMonotone(q + 1, k, d);
    assert (k + 1) * d == k * d + d && (q + 1) * d == q * d + d;
  }

  /** Hue below 360 or the marker for grey; saturation and value are percentages; grey has neither. */
  lemma HsvRange(r: byte, g: byte, b: byte)
    ensures var p := ToHsv(r, g, b);
            && (0 <= p.h < 360 || p.h == NO_HUE) && 0 <= p.s <= 100 && 0 <= p.v <= 100
            && (Grey(r, g, b) <==> p.h == NO_HUE)
            && (Grey(r, g, b) ==> p.s == 0 && p.v == 0)
  {
    var max := Max(Max(r, g), b);
    var d := max - Min(Min(r, g), b);
    if d > 0 {
      SmallQuotient(g - b, d);
      SmallQuotient(b - r, d);
      SmallQuotient(r - g, d);
      SaturationRange(d, max);
    }
  }

  lemma SaturationRange(d: nat, max: nat)
    requires 0 < d <= max <= 255
    ensures 0 <= 255 * d / max * 100 / 255 <= 100 && 0 <= max * 100 / 255 <= 100
  {
    MulMonotone(d, max, 255);
    DivideBelow(255 * d, 255, max);
  }

  function Wrapped(h: int): int {
    if h < 0 then h + 360 else h
  }

  /** The three channels lie within the spread of each other, and the largest of them is met. */
  ghost predicate Spread(r: int, g: int, b: int, d: nat) {
    d > 0 && d == Max(Max(r, g), b) - Min(Min(r, g), b)
  }

  lemma RawHueTurns(r: int, g: int, b: int, d: nat)
    requires Spread(r, g, b, d)
    ensures Wrapped(RawHue(b, r, g, d)) == (Wrapped(RawHue(r, g, b, d)) + 120) % 360
  {
    hide Quotient;
    Ties(d);
    SmallQuotient(g - b, d);
    SmallQuotient(b - r, d);
    SmallQuotient(r - g, d);
  }

  lemma RawHueMirrored(r: int, g: int, b: int, d: nat)
    requires Spread(r, g, b, d)
    ensures Wrapped(RawHue(r, b, g, d)) == (360 - Wrapped(RawHue(r, g, b, d))) % 360
  {
    var (q1, q2, q3) := (Quotient((g - b) * 60, d), Quotient((b - r) * 60, d), Quotient((r - g) * 60, d));
    SmallQuotient(g - b, d);
    SmallQuotient(b - r, d);
    SmallQuotient(r - g, d);
    Odd((g - b) * 60, d);
    Odd((b - r) * 60, d);
    Odd((r - g) * 60, d);
    Ties(d);
    hide Quotient;
    assert (b - g) * 60 == -((g - b) * 60) && (r - b) * 60 == -((b - r) * 60) && (g - r) * 60 == -((r - g) * 60);
    var max := Max(Max(r, g), b);
    assert RawHue(r, b, g, d) == if max == r then -q1 else if max == b then 120 - q3 else 240 - q2;
    assert max == g && max == b ==> g - b == 0 && b - r == d && r - g == 0 - d;
  }

  lemma SameSpread(r: int, g: int, b: int)
    ensures Max(Max(b, r), g) == Max(Max(r, b), g) == Max(Max(r, g), b)
    ensures Min(Min(b, r), g) == Min(Min(r, b), g) == Min(Min(r, g), b)
  {
  }

  /** Moving every channel one place on turns the hue by a third of the circle and nothing else. */
  lemma HueRotates(r: byte, g: byte, b: byte)
    requires !Grey(r, g, b)
    ensures var p, q := ToHsv(r, g, b), ToHsv(b, r, g);
            q == Hsv((p.h + 120) % 360, p.s, p.v)
  {
    SameSpread(r, g, b);
    var d: nat := Max(Max(r, g), b) - Min(Min(r, g), b);
    RawHueTurns(r, g, b, d);
    hide RawHue, Max, Min;
  }

  /** Exchanging green and blue mirrors the hue at red. */
  lemma HueMirrors(r: byte, g: byte, b: byte)
    requires !Grey(r, g, b)
    ensures var p, q := ToHsv(r, g, b), ToHsv(r, b, g);
            q == Hsv((360 - p.h) % 360, p.s, p.v)
  {
    SameSpread(r, g, b);
    var d: nat := Max(Max(r, g), b) - Min(Min(r, g), b);
    RawHueMirrored(r, g, b, d);
    hide RawHue, Max, Min;
  }

  /** For reds between magenta and yellow the hue is the exact one rounded down; the symmetries give the rest. */
  lemma HueOfReds(r: byte, g: byte, b: byte)
    requires r >= g >= b && r > b
    ensures var (h, d) := (ToHsv(r, g, b).h, r - b);
            h * d <= 60 * (g - b) < (h + 1) * d
  {
    var d: nat := r - b;
    FloorBounds((g - b) * 60, d);
    assert RawHue(r, g, b, d) == Quotient((g - b) * 60, d) == (g - b) * 60 / d;
    hide Quotient, RawHue;
  }

  /**
   Value and saturation of a coloured pixel: the percentage of the largest channel, and
   that of the spread in the largest channel, each rounded down, the latter twice.
   */
  lemma ValueAndSaturation(r: byte, g: byte, b: byte, max: byte, min: byte)
    requires max in {r, g, b} && r <= max && g <= max && b <= max
    requires min in {r, g, b} && min <= r && min <= g && min <= b && min < max
    ensures var v := ToHsv(r, g, b).v; 255 * v <= 100 * max < 255 * (v + 1)
    ensures var s := ToHsv(r, g, b).s;
            exists q: nat :: q * max <= 255 * (max - min) as int < (q + 1) * max && 255 * s <= 100 * q < 255 * (s + 1)
  {
    var d: nat := max - min;
    var q := 255 * d / max;
    FloorBounds(255 * d, max);
    FloorBounds(q * 100, 255);
    FloorBounds(max * 100, 255);
    hide RawHue;
    assert q * max <= 255 * d < (q + 1) * max;
  }

  lemma FloorBounds(n: nat, d: nat)
    requires d > 0
    ensures 0 <= n / d && n / d * d <= n < (n / d + 1) * d
  {
    var h := n / d;
    assert n == h * d + n % d;
    assert (h + 1) * d == h * d + d;
  }

  lemma Odd(a: int, d: nat)
    requires d > 0
    ensures Quotient(-a, d) == -Quotient(a, d)
  {
  }

  /** Where two channels share the maximum both formulas agree. */
  lemma Ties(d: nat)
    requires d > 0
    ensures Quotient(d * 60, d) == 60 && Quotient((0 - d) * 60, d) == -60 && Quotient(0, d) == 0
  {
    DivideBelow(d * 60, 60, d);
  }

  /** BGRAtoHSV over a whole image; the hue takes two bytes, high byte first. */
  method BGRAtoHSV(bgra: array<byte>, hsv: array<byte>, n: nat)
    requires bgra.Length == 4 * n && hsv.Length == 4 * n && bgra != hsv
    modifies hsv
    ensures forall i :: 0 <= i < n ==> PixelOf(hsv[..], i) == ToHsv(bgra[4 * i + 2], bgra[4 * i + 1], bgra[4 * i])
  {
    var i := 0;
    while i < n
      invariant 0 <= i <= n
      invariant forall k :: 0 <= k < i ==> PixelOf(hsv[..], k) == ToHsv(bgra[4 * k + 2], bgra[4 * k + 1], bgra[4 * k])
    {
      var p := ConvertPixel(bgra[4 * i + 2], bgra[4 * i + 1], bgra[4 * i]);
      HsvRange(bgra[4 * i + 2], bgra[4 * i + 1], bgra[4 * i]);
      ghost var before := hsv[..];
      hsv[4 * i] := p.h / 256;
      hsv[4 * i + 1] := p.h % 256;
      hsv[4 * i + 2] := p.s;
      hsv[4 * i + 3] := p.v;
      forall k | 0 <= k < i ensures PixelOf(hsv[..], k) == PixelOf(before, k) {
      }
      i := i + 1;
    }
  }

  /** The body of the pixel loop. */
  method ConvertPixel(ir: byte, ig: byte, ib: byte) returns (p: Hsv)
    ensures p == ToHsv(ir, ig, ib)
  {
    var imax: int, imin: int, th, ts, tv;
    if ir > ig {
      imax, imin := ir, ig;
    } else {
      imax, imin := ig, ir;
    }
    if imax > ib {
      if imin > ib { imin := ib; }
    } else {
      imax := ib;
    }
    tv := imax;
    var diffvmin := imax - imin;
    if tv != 0 && diffvmin != 0 {
      ts := 255 * diffvmin / imax;
      if tv == ir {
        th := Quotient((ig - ib) * 60, diffvmin);
      } else if tv == ig {
        th := 120 + Quotient((ib - ir) * 60, diffvmin);
      } else {
        th := 240 + Quotient((ir - ig) * 60, diffvmin);
      }
      if th < 0 { th := th + 360; }
    } else {
      tv, ts, th := 0, 0, NO_HUE;
    }
    p := Hsv(th, ts * 100 / 255, tv * 100 / 255);
  }

  /** Pixel i of an HSV image. */
  function PixelOf(s: seq<byte>, i: nat): Hsv
    requires 4 * i + 3 < |s|
  {
    var high: nat := s[4 * i];
    Hsv(high * 256 + s[4 * i + 1], s[4 * i + 2], s[4 * i + 3])
  }

  // ---------- the hue filter ----------

  /** Distance of two hues on the circle. */
  function Circular(a: int, b: int): nat {
    var d := (if a > b then a - b else b - a) % 360;
    if d <= 180 then d else 360 - d
  }

  /** Two hues some turns and at most half a turn apart, either way round, are that half turn or less apart. */
  lemma CircularExactly(a: int, b: int, k: int, d: int)
    requires 0 <= d <= 180 && (a - b == 360 * k + d || a - b == 360 * k - d)
    ensures Circular(a, b) == d
  {
    var e := if a > b then a - b else b - a;
    var (q, up) := (if a > b then k else -k, (a - b == 360 * k + d) == (a > b));
    if up || d == 0 {
      Remainder(e, q, d);
    } else {
      Remainder(e, q - 1, 360 - d);
    }
  }

  function Upper(hue: int, tol: int): int {
    if hue + tol > 360 then hue + tol - 360 else hue + tol
  }

  function Lower(hue: int, tol: int): int {
    if hue - tol < 0 then hue - tol + 360 else hue - tol
  }

  /** The place on the circle that a hue word names to the filter. */
  function Place(word: int): int {
    if word > 360 then word % 360 else word
  }

  /** The window test on a place. */
  predicate PlaceInWindow(h: int, hue: int, tol: int) {
    if Lower(hue, tol) <= Upper(hue, tol) then Lower(hue, tol) < h < Upper(hue, tol)
    else Lower(hue, tol) < h || h < Upper(hue, tol)
  }

  /** The window test on a hue word. */
  predicate InWindow(word: int, hue: int, tol: int) {
    PlaceInWindow(Place(word), hue, tol)
  }

  /**
   For which target hues and tolerances the window is the circular distance: below
   180 the hues from 0 to 360 and those less than a tolerance beyond; at 180 only hue
   180; further up where the window holds everything, below zero where it holds nothing.
   */
  predicate Faithful(hue: int, tol: int) {
    || (0 <= tol < 180 && (0 <= hue <= 360 || -tol < hue < 360 + tol))
    || (tol == 180 && hue == 180)
    || 720 - tol < hue < tol - 360
    || (tol < 0 && 360 + tol <= hue <= -tol)
  }

  /** Distance on the circle of two places less than a turn apart. */
  function Arc(a: int, b: int): int {
    var d := if a > b then a - b else b - a;
    if d <= 180 then d else 360 - d
  }

  /** The circular distance to a hue is the arc to its place within the first turn. */
  lemma CircularIsArc(word: int, hue: int)
    requires 0 <= word
    ensures 0 <= Place(word) <= 360 && Circular(word % 360, hue) == Arc(Place(word), hue % 360)
  {
    var (w, r) := (word % 360, hue % 360);
    PlaceTurn(word);
    assert hue == 360 * (hue / 360) + r;
    DifferenceTurns(w, r, hue / 360);
  }

  lemma PlaceTurn(word: int)
    requires 0 <= word
    ensures Place(word) == word % 360 || (Place(word) == 360 && word % 360 == 0)
  {
    assert word < 360 ==> word % 360 == word;
  }

  /** Whole turns do not change the remainder of a difference, up to its sign. */
  lemma DifferenceTurns(w: int, r: int, q: int)
    requires 0 <= w < 360 && 0 <= r < 360
    ensures Circular(w, 360 * q + r) == Arc(w, r)
  {
    var d := w - r;
    if w > 360 * q + r {
      Remainder(d - 360 * q, if d >= 0 then -q else -q - 1, if d >= 0 then d else d + 360);
    } else {
      Remainder(360 * q - d, if d <= 0 then q else q - 1, if d <= 0 then -d else 360 - d);
    }
  }

  lemma Remainder(n: int, q: int, r: int)
    requires n == 360 * q + r && 0 <= r < 360
    ensures n % 360 == r
  {
  }

  lemma TurnOf(hue: int)
    ensures 0 <= hue % 360 < 360
    ensures 0 <= hue < 360 ==> hue % 360 == hue
    ensures 360 <= hue < 720 ==> hue % 360 == hue - 360
    ensures -360 <= hue < 0 ==> hue % 360 == hue + 360
  {
    if 0 <= hue < 360 { Remainder(hue, 0, hue); }
    if 360 <= hue < 720 { Remainder(hue, 1, hue - 360); }
    if -360 <= hue < 0 { Remainder(hue, -1, hue + 360); }
  }

  lemma FaithfulPlace(h: int, hue: int, tol: int)
    requires 0 <= h <= 360 && Faithful(hue, tol)
    ensures PlaceInWindow(h, hue, tol) <==> Arc(h, hue % 360) < tol
  {
    TurnOf(hue);
  }

  lemma WindowIsCircular(word: int, hue: int, tol: int)
    requires 0 <= word <= 0xFFFF && Faithful(hue, tol)
    ensures InWindow(word, hue, tol) <==> Circular(word % 360, hue) < tol
  {
    hide Faithful, Circular, Arc, Upper, Lower;
    CircularIsArc(word, hue);
    FaithfulPlace(Place(word), hue, tol);
  }

  /** A place on which an unfaithful window goes wrong. */
  lemma WrongPlace(hue: int, tol: int) returns (h: int)
    requires !Faithful(hue, tol)
    ensures 0 <= h <= 360 && !(PlaceInWindow(h, hue, tol) <==> Arc(h, hue % 360) < tol)
  {
    TurnOf(hue);
    var r := hue % 360;
    if tol < 0 {
      h := if PlaceInWindow(0, hue, tol) then 0 else 360;
    } else if tol < 180 {
      var opposite := if r < 180 then r + 180 else r - 180;
      h := if (PlaceInWindow(0, hue, tol) <==> Arc(0, r) < tol) then
             if (PlaceInWindow(360, hue, tol) <==> Arc(360, r) < tol) then opposite else 360
           else 0;
    } else if tol == 180 {
      h := r;
    } else if Lower(hue, tol) <= Upper(hue, tol) {
      h := if Lower(hue, tol) >= 0 then 0 else 360;
    } else {
      h := if Upper(hue, tol) >= 0 then Upper(hue, tol) else 0;
    }
  }

  /**
   For every target hue and every tolerance: the filter means the circular distance,
   on every hue word, exactly for the faithful pairs.
   */
  lemma FilterExactly(hue: int, tol: int)
    ensures Faithful(hue, tol) <==>
            forall word :: 0 <= word <= 0xFFFF ==> (InWindow(word, hue, tol) <==> Circular(word % 360, hue) < tol)
  {
    hide Faithful, Circular, Arc, Upper, Lower;
    if Faithful(hue, tol) {
      forall word | 0 <= word <= 0xFFFF ensures InWindow(word, hue, tol) <==> Circular(word % 360, hue) < tol {
        WindowIsCircular(word, hue, tol);
      }
    } else {
      var word := WrongPlace(hue, tol);
      CircularIsArc(word, hue);
      assert InWindow(word, hue, tol) <==> PlaceInWindow(word, hue, tol);
    }
  }

  /** A hue beyond the circle by more than the tolerance: red is forty degrees away and yet selected. */
  lemma FarHueGoesWrong()
    ensures InWindow(0, 400, 15) && Circular(0, 400) == 40 && !Faithful(400, 15)
  {
    DifferenceTurns(0, 40, 1);
  }

  datatype Range = Range(hue: int, tolerance: int, minSaturation: int, maxSaturation: int, minValue: int, maxValue: int)

  predicate Selected(p: Hsv, f: Range) {
    && f.minSaturation <= p.s <= f.maxSaturation && f.minValue <= p.v <= f.maxValue
    && InWindow(p.h, f.hue, f.tolerance)
  }

  /**
   Camera pixel to selection: with a saturation above zero demanded and a faithful
   target, such as hue 0 to 360 with a tolerance below 180, exactly the coloured
   pixels in range whose hue is near enough.
   */
  lemma PipelineSelects(r: byte, g: byte, b: byte, f: Range)
    requires f.minSaturation > 0 && Faithful(f.hue, f.tolerance)
    ensures var p := ToHsv(r, g, b);
            Selected(p, f) <==>
              && !Grey(r, g, b) && f.minSaturation <= p.s <= f.maxSaturation && f.minValue <= p.v <= f.maxValue
              && Circular(p.h, f.hue) < f.tolerance
  {
    hide Circular, ToHsv, InWindow, Faithful;
    HsvRange(r, g, b);
    var p := ToHsv(r, g, b);
    WindowIsCircular(p.h, f.hue, f.tolerance);
    TurnOf(p.h);
  }

  // ---------- the centroid ----------

  /** Lit bytes among the first k, and the sums of their columns and rows. */
  function Count(r: seq<bv8>, k: nat): nat
    requires k <= |r|
  {
    if k == 0 then 0 else Count(r, k - 1) + if r[k - 1] > 0 then 1 else 0
  }

  function SumX(r: seq<bv8>, w: nat, k: nat): nat
    requires k <= |r| && w > 0
  {
    if k == 0 then 0 else SumX(r, w, k - 1) + if r[k - 1] > 0 then (k - 1) % w else 0
  }

  function SumY(r: seq<bv8>, w: nat, k: nat): nat
    requires k <= |r| && w > 0
  {
    if k == 0 then 0 else SumY(r, w, k - 1) + if r[k - 1] > 0 then (k - 1) / w else 0
  }

  /** Off the border the sums lie between those of the first and the last inner place. */
  lemma {:induction false} SumBounds(r: seq<bv8>, w: nat, h: nat, k: nat)
    requires k <= |r| && w > 0 && BorderDark(r, w, h)
    ensures Count(r, k) <= SumX(r, w, k) <= Count(r, k) * (w - 2)
    ensures Count(r, k) <= SumY(r, w, k) <= Count(r, k) * (h - 2)
    decreases k
  {
    hide BorderDark;
    if k > 0 {
      SumBounds(r, w, h, k - 1);
      if r[k - 1] > 0 {
        LitInside(r, w, h, k - 1);
        Grow(Count(r, k - 1), SumX(r, w, k - 1), (k - 1) % w, w - 2);
        Grow(Count(r, k - 1), SumY(r, w, k - 1), (k - 1) / w, h - 2);
      }
    }
  }

  lemma LitInside(r: seq<bv8>, w: nat, h: nat, i: nat)
    requires w > 0 && BorderDark(r, w, h) && i < |r| && r[i] > 0
    ensures 1 <= i % w <= w - 2 && 1 <= i / w <= h - 2
  {
  }

  lemma Grow(count: nat, sum: nat, more: nat, last: int)
    requires count <= sum <= count * last && 1 <= more <= last
    ensures count + 1 <= sum + more <= (count + 1) * last
  {
    assert (count + 1) * last == count * last + last;
  }

  /** A mean of columns or rows off the border is one of them. */
  lemma MeanInside(sum: nat, count: nat, last: int)
    requires count > 0 && count <= sum <= count * last
    ensures 1 <= sum / count <= last
  {
    assert last >= 0 by { if last < 0 { MulMonotone(last, 0, count); } }
    DivideBelow(sum, 1, count);
    DivideBelow(sum, last, count);
    assert count * last == last * count;
  }

  /** What the loops have gathered from the first k bytes. */
  ghost predicate Accumulated(r: seq<bv8>, w: nat, k: nat, count: nat, sumX: nat, sumY: nat) {
    w > 0 && k <= |r| && count == Count(r, k) && sumX == SumX(r, w, k) && sumY == SumY(r, w, k)
  }

  lemma NothingAccumulated(r: seq<bv8>, w: nat)
    requires w > 0
    ensures Accumulated(r, w, 0, 0, 0, 0)
  {
  }

  /** One more byte, at a column and a row. */
  lemma AccumulateStep(r: seq<bv8>, w: nat, x: nat, y: nat, count: nat, sumX: nat, sumY: nat)
    requires x < w && w * y + x < |r| && Accumulated(r, w, w * y + x, count, sumX, sumY)
    ensures r[w * y + x] > 0 ==> Accumulated(r, w, w * y + x + 1, count + 1, sumX + x, sumY + y)
    ensures r[w * y + x] == 0 ==> Accumulated(r, w, w * y + x + 1, count, sumX, sumY)
  {
    PlaceOf(w, x, y);
    var k := w * y + x;
    assert k % w == x && k / w == y;
    SumsStep(r, w, k);
  }

  lemma SumsStep(r: seq<bv8>, w: nat, k: nat)
    requires w > 0 && k < |r|
    ensures Count(r, k + 1) == Count(r, k) + if r[k] > 0 then 1 else 0
    ensures SumX(r, w, k + 1) == SumX(r, w, k) + if r[k] > 0 then k % w else 0
    ensures SumY(r, w, k + 1) == SumY(r, w, k) + if r[k] > 0 then k / w else 0
  {
  }

  // ---------- the mean of a set of pixels ----------

  ghost function Columns(s: set<Point>): int {
    if s == {} then 0 else var p :| p in s; p.x + Columns(s - {p})
  }

  ghost function Rows(s: set<Point>): int {
    if s == {} then 0 else var p :| p in s; p.y + Rows(s - {p})
  }

  /** The sums do not depend on the order in which the pixels are taken. */
  lemma {:induction false} SumsWithout(s: set<Point>, p: Point)
    requires p in s
    ensures Columns(s) == p.x + Columns(s - {p}) && Rows(s) == p.y + Rows(s - {p})
    decreases |s|
  {
    var a :| a in s && Columns(s) == a.x + Columns(s - {a});
    if a != p {
      SumsWithout(s - {a}, p);
      SumsWithout(s - {p}, a);
      assert s - {a} - {p} == s - {p} - {a};
    }
    var b :| b in s && Rows(s) == b.y + Rows(s - {b});
    if b != p {
      SumsWithout(s - {b}, p);
      SumsWithout(s - {p}, b);
      assert s - {b} - {p} == s - {p} - {b};
    }
  }

  /** The place of a byte. */
  function PlaceAt(w: nat, i: nat): Point
    requires w > 0
  {
    Point(i % w, i / w)
  }

  /** The pixels of the lit bytes among the first k. */
  ghost function LitTo(r: seq<bv8>, w: nat, k: nat): set<Point>
    requires w > 0 && k <= |r|
  {
    set i | 0 <= i < k && r[i] > 0 :: PlaceAt(w, i)
  }

  /** What is counted and added up byte by byte is the number of lit pixels and the sums of their places. */
  lemma {:induction false} SumsOfPixels(r: seq<bv8>, w: nat, k: nat)
    requires w > 0 && k <= |r|
    ensures Count(r, k) == |LitTo(r, w, k)| && SumX(r, w, k) == Columns(LitTo(r, w, k))
    ensures SumY(r, w, k) == Rows(LitTo(r, w, k))
    decreases k
  {
    hide Count, SumX, SumY, LitTo, Columns, Rows, PlaceAt;
    if k == 0 {
      NoSums(r, w);
    } else {
      SumsOfPixels(r, w, k - 1);
      SumsAtPlace(r, w, k - 1);
      LitStep(r, w, k - 1);
      if r[k - 1] > 0 { SumsWithout(LitTo(r, w, k), PlaceAt(w, k - 1)); }
    }
  }

  lemma NoSums(r: seq<bv8>, w: nat)
    requires w > 0
    ensures Count(r, 0) == SumX(r, w, 0) == SumY(r, w, 0) == 0 && LitTo(r, w, 0) == {}
    ensures Columns({}) == Rows({}) == 0
  {
  }

  lemma SumsAtPlace(r: seq<bv8>, w: nat, k: nat)
    requires w > 0 && k < |r|
    ensures Count(r, k + 1) == Count(r, k) + if r[k] > 0 then 1 else 0
    ensures SumX(r, w, k + 1) == SumX(r, w, k) + if r[k] > 0 then PlaceAt(w, k).x else 0
    ensures SumY(r, w, k + 1) == SumY(r, w, k) + if r[k] > 0 then PlaceAt(w, k).y else 0
  {
    SumsStep(r, w, k);
    hide Count, SumX, SumY;
  }

  lemma LitStep(r: seq<bv8>, w: nat, k: nat)
    requires w > 0 && k < |r|
    ensures var (p, before, after) := (PlaceAt(w, k), LitTo(r, w, k), LitTo(r, w, k + 1));
            if r[k] > 0 then p in after && after - {p} == before && |after| == |before| + 1 else after == before
  {
    hide PlaceAt, LitTo;
    var (p, before) := (PlaceAt(w, k), LitTo(r, w, k));
    if p in before { OtherPlace(r, w, k, p); }
    LitGrows(r, w, k);
    assert before + {p} - {p} == before;
  }

  lemma LitGrows(r: seq<bv8>, w: nat, k: nat)
    requires w > 0 && k < |r|
    ensures LitTo(r, w, k + 1) == LitTo(r, w, k) + if r[k] > 0 then {PlaceAt(w, k)} else {}
  {
    hide PlaceAt;
  }

  lemma OtherPlace(r: seq<bv8>, w: nat, k: nat, p: Point)
    requires w > 0 && k <= |r| && p in LitTo(r, w, k)
    ensures p != PlaceAt(w, k)
  {
    var i :| 0 <= i < k && PlaceAt(w, i) == p;
    assert i == w * (i / w) + i % w;
    assert k == w * (k / w) + k % w;
  }

  /** In an image of zeros and ones the lit pixels are those of the lowest bit. */
  lemma LitPixels(r: seq<bv8>, w: nat, h: nat)
    requires w > 0 && |r| == w * h && Binary(r)
    ensures LitTo(r, w, w * h) == Pixels(r, w, h, 1)
  {
    forall p: Point ensures p in LitTo(r, w, w * h) <==> p in Pixels(r, w, h, 1) {
      PixelAt(r, w, h, 1, p.x, p.y);
      if p in LitTo(r, w, w * h) {
        var i :| 0 <= i < w * h && r[i] > 0 && PlaceAt(w, i) == p;
        PlaceWithin(w, h, i);
      } else if Within(w, h, p.x, p.y) {
        InRange(w, h, p.x, p.y);
        PlaceOf(w, p.x, p.y);
        assert p.y * w + p.x == w * p.y + p.x && PlaceAt(w, w * p.y + p.x) == p;
      }
    }
  }

  /** The mean of the places of some pixels, column and row each rounded down. */
  ghost predicate MeanPlace(lit: set<Point>, x: int, y: int) {
    x * |lit| <= Columns(lit) < (x + 1) * |lit| && y * |lit| <= Rows(lit) < (y + 1) * |lit|
  }

  /** A place is found exactly when the lit pixels are in proportion, and it is their mean. */
  lemma CentroidIsMean(r: seq<bv8>, w: nat, h: nat, minPercent: real, maxPercent: real)
    requires w > 0 && |r| == w * h && Binary(r) && minPercent >= 0.0
    ensures var (lit, c) := (Pixels(r, w, h, 1), Centroid(r, w, minPercent, maxPercent));
            && (c.Found? <==> |r| as real * minPercent / 100.0 < |lit| as real <= |r| as real * maxPercent / 100.0)
            && (c.Found? ==> MeanPlace(lit, c.x, c.y))
  {
    hide Count, SumX, SumY, LitTo, Columns, Rows, Pixels, Binary, MeanPlace, Plausible, Centroid;
    SumsOfPixels(r, w, |r|);
    LitPixels(r, w, h);
    CentroidCases(r, w, minPercent, maxPercent);
    if Count(r, |r|) > 0 { MeanOf(Pixels(r, w, h, 1)); }
  }

  lemma CentroidCases(r: seq<bv8>, w: nat, minPercent: real, maxPercent: real)
    requires w > 0 && minPercent >= 0.0
    ensures var (c, count) := (Centroid(r, w, minPercent, maxPercent), Count(r, |r|));
            && (c.Found? <==> |r| as real * minPercent / 100.0 < count as real <= |r| as real * maxPercent / 100.0)
            && (c.Found? ==> count > 0 && c.x == SumX(r, w, |r|) / count && c.y == SumY(r, w, |r|) / count)
  {
    hide Count, SumX, SumY;
    assert |r| as real * minPercent >= 0.0;
  }

  lemma MeanOf(lit: set<Point>)
    requires |lit| > 0 && Columns(lit) >= 0 && Rows(lit) >= 0
    ensures MeanPlace(lit, Columns(lit) / |lit|, Rows(lit) / |lit|)
  {
    hide Columns, Rows;
    FloorBounds(Columns(lit), |lit|);
    FloorBounds(Rows(lit), |lit|);
  }

  datatype Centre = NotFound | Found(x: int, y: int)

  /** Too few or too many pixels are no ball. */
  predicate Plausible(count: nat, n: nat, minPercent: real, maxPercent: real) {
    n as real * minPercent / 100.0 < count as real <= n as real * maxPercent / 100.0
  }

  function Centroid(r: seq<bv8>, w: nat, minPercent: real, maxPercent: real): Centre
    requires w > 0 && minPercent >= 0.0
  {
    var n := |r|;
    var count := Count(r, n);
    if Plausible(count, n, minPercent, maxPercent)
    then (assert n as real * minPercent >= 0.0; Found(SumX(r, w, n) / count, SumY(r, w, n) / count))
    else NotFound
  }

  /** The centroid of an image without lit border lies off the border. */
  lemma CentroidInside(r: seq<bv8>, w: nat, h: nat, minPercent: real, maxPercent: real)
    requires w > 0 && h > 0 && minPercent >= 0.0 && BorderDark(r, w, h)
    ensures var c := Centroid(r, w, minPercent, maxPercent);
            c == NotFound || (1 <= c.x <= w - 2 && 1 <= c.y <= h - 2)
  {
    var n := |r|;
    assert n as real * minPercent >= 0.0;
    SumBounds(r, w, h, n);
    if Count(r, n) > 0 {
      MeanInside(SumX(r, w, n), Count(r, n), w - 2);
      MeanInside(SumY(r, w, n), Count(r, n), h - 2);
    }
  }

  class ColorFinder {
    var range: Range
    var minPercent: real
    var maxPercent: real
    var result: array<bv8>

    constructor (range: Range, minPercent: real, maxPercent: real, w: nat, h: nat)
      ensures this.range == range && this.minPercent == minPercent && this.maxPercent == maxPercent
      ensures fresh(result) && result.Length == w * h
    {
      this.range, this.minPercent, this.maxPercent := range, minPercent, maxPercent;
      result := new bv8[w * h](_ => 0);
    }

    /** More pixels than the least and no more than the greatest percentage. */
    ghost predicate Proportioned(lit: nat, n: nat)
      reads this
    {
      n as real * minPercent / 100.0 < lit as real <= n as real * maxPercent / 100.0
    }

    /** Filtering: one byte for each pixel, 1 exactly for the selected ones. */
    method Filtering(img: array<byte>)
      requires img.Length == 4 * result.Length
      modifies result
      ensures forall i :: 0 <= i < result.Length ==> result[i] == if Selected(PixelOf(img[..], i), range) then 1 else 0
    {
      var hMax := range.hue + range.tolerance;
      var hMin := range.hue - range.tolerance;
      if hMax > 360 { hMax := hMax - 360; }
      if hMin < 0 { hMin := hMin + 360; }
      var i := 0;
      while i < result.Length
        invariant 0 <= i <= result.Length
        invariant forall k :: 0 <= k < i ==> result[k] == if Selected(PixelOf(img[..], k), range) then 1 else 0
      {
        var high: nat := img[4 * i];
        var h := high * 256 + img[4 * i + 1];
        var s := img[4 * i + 2];
        var v := img[4 * i + 3];
        assert PixelOf(img[..], i) == Hsv(h, s, v);
        if h > 360 { h := h % 360; }
        if s >= range.minSaturation && s <= range.maxSaturation && v >= range.minValue && v <= range.maxValue {
          if hMin <= hMax {
            result[i] := if hMin < h && h < hMax then 1 else 0;
          } else {
            result[i] := if hMin < h || h < hMax then 1 else 0;
          }
        } else {
          result[i] := 0;
        }
        i := i + 1;
      }
    }

    /** The accumulating loops of GetPosition. */
    method Accumulate(w: nat, h: nat) returns (count: nat, sumX: nat, sumY: nat)
      requires result.Length == w * h && w > 0
      ensures Accumulated(result[..], w, w * h, count, sumX, sumY)
    {
      hide Accumulated;
      count, sumX, sumY := 0, 0, 0;
      ghost var r := result[..];
      NothingAccumulated(r, w);
      var y := 0;
      while y < h
        invariant 0 <= y <= h && 0 <= w * y <= |r| && r == result[..]
        invariant Accumulated(r, w, w * y, count, sumX, sumY)
      {
        MulMonotone(y + 1, h, w);
        assert w * (y + 1) == w * y + w;
        var x := 0;
        while x < w
          invariant 0 <= x <= w && 0 <= w * y + x <= |r| && r == result[..]
          invariant Accumulated(r, w, w * y + x, count, sumX, sumY)
        {
          AccumulateStep(r, w, x, y, count, sumX, sumY);
          if result[w * y + x] > 0 {
            sumX := sumX + x;
            sumY := sumY + y;
            count := count + 1;
          }
          x := x + 1;
        }
        y := y + 1;
      }
      assert w * y == w * h;
    }

    /**
     The centroid of the opened selection, off the border, or nothing when the number
     of pixels is out of proportion.
     */
    method GetPosition(img: array<byte>, w: nat, h: nat) returns (c: Centre, ghost selected: seq<bv8>)
      requires result.Length == w * h && img.Length == 4 * result.Length && w > 0 && h > 0 && minPercent >= 0.0
      modifies result
      ensures |selected| == w * h
      ensures forall i :: 0 <= i < w * h ==> selected[i] == if Selected(PixelOf(img[..], i), range) then 1 else 0
      ensures Binary(result[..]) && Pixels(result[..], w, h, 1) == Open(Pixels(selected, w, h, 1), w, h)
      ensures c == Centroid(result[..], w, minPercent, maxPercent)
      ensures var lit := Pixels(result[..], w, h, 1);
              && (c.Found? <==> Proportioned(|lit|, result.Length))
              && (c.Found? ==> MeanPlace(lit, c.x, c.y))
      ensures c == NotFound || (1 <= c.x <= w - 2 && 1 <= c.y <= h - 2)
    {
      hide Pixels, Open, BorderDark, Count, SumX, SumY, Selected, PixelOf, MeanPlace;
      Filtering(img);
      selected := result[..];
      Opening(result, w, h);
      assert SingleBit(1);
      OpenedBinary(result[..], selected, w, h);
      var count, sumX, sumY := Accumulate(w, h);
      CentroidInside(result[..], w, h, minPercent, maxPercent);
      CentroidIsMean(result[..], w, h, minPercent, maxPercent);
      var n := result.Length as real;
      assert n * minPercent >= 0.0;
      if count as real <= n * minPercent / 100.0 || count as real > n * maxPercent / 100.0 {
        c := NotFound;
      } else {
        c := Found(sumX / count, sumY / count);
      }
    }
  }
}
