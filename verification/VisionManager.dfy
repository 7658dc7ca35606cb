/**
 From a camera image to the place of the ball: conversion, colour filter, opening and
 centroid in one call, stated on the bytes that the camera delivers.
 */
module VisionManager {
  import opened Basics
  import opened Morphology
  import opened ImageMorphology
  import opened ColorFinder

  function ByteAt(s: seq<byte>, i: int): byte {
    if 0 <= i < |s| then s[i] else 0
  }

  /** A coloured pixel whose saturation and value are in range and whose hue is near enough to the target. */
  predicate Wanted(r: byte, g: byte, b: byte, f: Range) {
    var p := ToHsv(r, g, b);
    && !(r == g == b) && f.minSaturation <= p.s <= f.maxSaturation && f.minValue <= p.v <= f.maxValue
    && Circular(p.h, f.hue) < f.tolerance
  }

  /** The wanted pixels of an image whose pixels are four bytes: blue, green, red and one that is not used. */
  ghost function WantedPixels(bgra: seq<byte>, w: nat, h: nat, f: Range): set<Point> {
    set x: int, y: int | 0 <= x < w && 0 <= y < h && WantedAt(bgra, y * w + x, f) :: Point(x, y)
  }

  predicate WantedAt(bgra: seq<byte>, i: int, f: Range) {
    Wanted(ByteAt(bgra, 4 * i + 2), ByteAt(bgra, 4 * i + 1), ByteAt(bgra, 4 * i), f)
  }

  /** The pixels that pass the filter, whatever its target hue and tolerance are. */
  ghost function FilteredPixels(bgra: seq<byte>, w: nat, h: nat, f: Range): set<Point> {
    set x: int, y: int | 0 <= x < w && 0 <= y < h && FilteredAt(bgra, y * w + x, f) :: Point(x, y)
  }

  predicate FilteredAt(bgra: seq<byte>, i: int, f: Range) {
    Selected(ToHsv(ByteAt(bgra, 4 * i + 2), ByteAt(bgra, 4 * i + 1), ByteAt(bgra, 4 * i)), f)
  }

  /** With a saturation above zero demanded and a faithful target the filter passes the wanted pixels. */
  lemma FilteredAreWanted(bgra: seq<byte>, w: nat, h: nat, f: Range)
    requires f.minSaturation > 0 && Faithful(f.hue, f.tolerance)
    ensures FilteredPixels(bgra, w, h, f) == WantedPixels(bgra, w, h, f)
  {
    hide ToHsv, Selected, Faithful, Circular;
    forall i: int ensures FilteredAt(bgra, i, f) <==> WantedAt(bgra, i, f) {
      PipelineSelects(ByteAt(bgra, 4 * i + 2), ByteAt(bgra, 4 * i + 1), ByteAt(bgra, 4 * i), f);
    }
  }

  /** The filter's image is the set of the pixels that pass it. */
  lemma SelectedAreFiltered(selected: seq<bv8>, bgra: seq<byte>, hsv: seq<byte>, w: nat, h: nat, f: Range)
    requires |selected| == w * h && |bgra| == |hsv| == 4 * (w * h)
    requires forall i :: 0 <= i < w * h ==> PixelOf(hsv, i) == ToHsv(bgra[4 * i + 2], bgra[4 * i + 1], bgra[4 * i])
    requires forall i :: 0 <= i < w * h ==> selected[i] == if Selected(PixelOf(hsv, i), f) then 1 else 0
    ensures Pixels(selected, w, h, 1) == FilteredPixels(bgra, w, h, f)
  {
    hide PixelOf, ToHsv, Selected;
    forall p: Point ensures p in Pixels(selected, w, h, 1) <==> p in FilteredPixels(bgra, w, h, f) {
      PixelAt(selected, w, h, 1, p.x, p.y);
      if Within(w, h, p.x, p.y) {
        InRange(w, h, p.x, p.y);
        assert Has(1, 1) && !Has(0, 1);
      }
    }
  }

  /** What getBallCenter answers for a set of lit pixels. */
  ghost predicate Answers(lit: set<Point>, finder: ColorFinder, w: nat, h: nat, found: bool, x: int, y: int)
    reads finder
  {
    && (found <==> finder.Proportioned(|lit|, w * h))
    && (if found then MeanPlace(lit, x, y) && 1 <= x <= w - 2 && 1 <= y <= h - 2 else x == y == 0)
  }

  /**
   getBallCenter: whether the opened set of filtered pixels is in proportion to the image,
   and where its mean is; with a faithful target those are the wanted pixels.
   */
  method GetBallCenter(finder: ColorFinder, bgra: array<byte>, w: nat, h: nat) returns (found: bool, x: int, y: int)
    requires finder.result.Length == w * h && bgra.Length == 4 * (w * h) && w > 0 && h > 0
    requires finder.minPercent >= 0.0
    modifies finder.result
    ensures Answers(Open(FilteredPixels(bgra[..], w, h, finder.range), w, h), finder, w, h, found, x, y)
    ensures finder.range.minSaturation > 0 && Faithful(finder.range.hue, finder.range.tolerance) ==>
              Answers(Open(WantedPixels(bgra[..], w, h, finder.range), w, h), finder, w, h, found, x, y)
  {
    hide ToHsv, PixelOf, Selected, Pixels, Open, MeanPlace, Centroid, WantedPixels, FilteredPixels, Faithful;
    var hsv := new byte[4 * (w * h)](_ => 0);
    BGRAtoHSV(bgra, hsv, w * h);
    var c;
    ghost var selected;
    c, selected := finder.GetPosition(hsv, w, h);
    SelectedAreFiltered(selected, bgra[..], hsv[..], w, h, finder.range);
    if finder.range.minSaturation > 0 && Faithful(finder.range.hue, finder.range.tolerance) {
      FilteredAreWanted(bgra[..], w, h, finder.range);
    }
    if c == NotFound {
      found, x, y := false, 0, 0;
    } else {
      found, x, y := true, c.x, c.y;
    }
  }
}
