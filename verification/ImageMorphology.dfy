/**
 Erosion and Dilation over the bytes of an image: the nested loops fill a zeroed
 copy, bit by bit parallel, and copy it back.
 */
module ImageMorphology {
  import opened Morphology

  /** The byte at a place; places outside the data read as zero. */
  function At(s: seq<bv8>, w: nat, x: int, y: int): bv8 {
    if 0 <= y * w + x < |s| then s[y * w + x] else 0
  }

  function Both(a: bv8, b: bv8): bv8 {
    a & b
  }

  function Either(a: bv8, b: bv8): bv8 {
    a | b
  }

  /** The byte has the bit. */
  predicate Has(b: bv8, bit: bv8) {
    b & bit != 0
  }

  /** One row of three. */
  function And3(s: seq<bv8>, w: nat, x: int, y: int): bv8 {
    Both(Both(At(s, w, x - 1, y), At(s, w, x, y)), At(s, w, x + 1, y))
  }

  function Or3(s: seq<bv8>, w: nat, x: int, y: int): bv8 {
    Either(Either(At(s, w, x - 1, y), At(s, w, x, y)), At(s, w, x + 1, y))
  }

  /** The whole block. */
  function And9(s: seq<bv8>, w: nat, x: int, y: int): bv8 {
    Both(Both(And3(s, w, x, y - 1), And3(s, w, x, y)), And3(s, w, x, y + 1))
  }

  function Or9(s: seq<bv8>, w: nat, x: int, y: int): bv8 {
    Either(Either(Or3(s, w, x, y - 1), Or3(s, w, x, y)), Or3(s, w, x, y + 1))
  }

  predicate Inside(w: nat, h: nat, x: int, y: int) {
    1 <= x < w - 1 && 1 <= y < h - 1
  }

  predicate Within(w: nat, h: nat, x: int, y: int) {
    0 <= x < w && 0 <= y < h
  }

  /** The pixels whose byte has the bit. */
  function Pixels(s: seq<bv8>, w: nat, h: nat, bit: bv8): set<Point> {
    set x: int, y: int | 0 <= x < w && 0 <= y < h && Has(At(s, w, x, y), bit) :: Point(x, y)
  }

  predicate SingleBit(bit: bv8) {
    bit in {1, 2, 4, 8, 16, 32, 64, 128}
  }

  ghost predicate IsEroded(r: seq<bv8>, s: seq<bv8>, w: nat, h: nat) {
    |r| == |s| == w * h &&
    forall x, y :: Within(w, h, x, y) ==> At(r, w, x, y) == if Inside(w, h, x, y) then And9(s, w, x, y) else 0
  }

  ghost predicate IsDilated(r: seq<bv8>, s: seq<bv8>, w: nat, h: nat) {
    |r| == |s| == w * h &&
    forall x, y :: Within(w, h, x, y) ==> At(r, w, x, y) == if Inside(w, h, x, y) then Or9(s, w, x, y) else 0
  }

  lemma InRange(w: nat, h: nat, x: int, y: int)
    requires Within(w, h, x, y)
    ensures 0 <= y * w + x < w * h
  {
    assert y * w >= 0;
    assert (y + 1) * w <= h * w;
  }

  lemma Row(w: nat, x: int, y: int, x': int, y': int)
    requires 0 <= x < w && 0 <= x' < w
    ensures y * w + x == y' * w + x' <==> x == x' && y == y'
  {
    if y < y' { assert (y + 1) * w <= y' * w; }
    if y' < y { assert (y' + 1) * w <= y * w; }
  }

  /** The byte that a visit of the inner loop writes. */
  ghost predicate Visited(w: nat, h: nat, x: int, y: int, cx: int, cy: int) {
    Inside(w, h, x, y) && (y < cy || (y == cy && x < cx))
  }

  method Erosion(img: array<bv8>, w: nat, h: nat)
    requires img.Length == w * h
    modifies img
    ensures IsEroded(img[..], old(img[..]), w, h)
  {
    hide And9, At;
    ghost var s := img[..];
    var temp := new bv8[w * h](_ => 0);
    Blank(temp[..], w, h);
    var y := 1;
    while y < h - 1
      invariant 1 <= y && img[..] == s && temp.Length == w * h
      invariant forall i, j :: Within(w, h, i, j) ==>
                  At(temp[..], w, i, j) == if Visited(w, h, i, j, 0, y) then And9(s, w, i, j) else 0
    {
      var x := 1;
      while x < w - 1
        invariant 1 <= x && img[..] == s && temp.Length == w * h
        invariant forall i, j :: Within(w, h, i, j) ==>
                    At(temp[..], w, i, j) == if Visited(w, h, i, j, x, y) then And9(s, w, i, j) else 0
      {
        var b := ReadAnd(img, w, h, x, y);
        WritePixel(temp, w, h, x, y, b);
        x := x + 1;
      }
      y := y + 1;
    }
    CopyBack(img, temp);
  }

  method Dilation(img: array<bv8>, w: nat, h: nat)
    requires img.Length == w * h
    modifies img
    ensures IsDilated(img[..], old(img[..]), w, h)
  {
    hide Or9, At;
    ghost var s := img[..];
    var temp := new bv8[w * h](_ => 0);
    Blank(temp[..], w, h);
    var y := 1;
    while y < h - 1
      invariant 1 <= y && img[..] == s && temp.Length == w * h
      invariant forall i, j :: Within(w, h, i, j) ==>
                  At(temp[..], w, i, j) == if Visited(w, h, i, j, 0, y) then Or9(s, w, i, j) else 0
    {
      var x := 1;
      while x < w - 1
        invariant 1 <= x && img[..] == s && temp.Length == w * h
        invariant forall i, j :: Within(w, h, i, j) ==>
                    At(temp[..], w, i, j) == if Visited(w, h, i, j, x, y) then Or9(s, w, i, j) else 0
      {
        var b := ReadOr(img, w, h, x, y);
        WritePixel(temp, w, h, x, y, b);
        x := x + 1;
      }
      y := y + 1;
    }
    CopyBack(img, temp);
  }

  lemma Blank(s: seq<bv8>, w: nat, h: nat)
    requires forall i :: 0 <= i < |s| ==> s[i] == 0
    ensures forall i, j :: Within(w, h, i, j) ==> At(s, w, i, j) == 0
  {
  }

  lemma BlockInRange(w: nat, h: nat, x: int, y: int)
    requires Inside(w, h, x, y)
    ensures 0 <= (y - 1) * w + (x - 1) < w * h && 0 <= (y - 1) * w + x < w * h && 0 <= (y - 1) * w + (x + 1) < w * h
    ensures 0 <= y * w + (x - 1) < w * h && 0 <= y * w + x < w * h && 0 <= y * w + (x + 1) < w * h
    ensures 0 <= (y + 1) * w + (x - 1) < w * h && 0 <= (y + 1) * w + x < w * h && 0 <= (y + 1) * w + (x + 1) < w * h
  {
    InRange(w, h, x - 1, y - 1);
    InRange(w, h, x, y - 1);
    InRange(w, h, x + 1, y - 1);
    InRange(w, h, x - 1, y);
    InRange(w, h, x, y);
    InRange(w, h, x + 1, y);
    InRange(w, h, x - 1, y + 1);
    InRange(w, h, x, y + 1);
    InRange(w, h, x + 1, y + 1);
  }

  /** The nine-fold conjunction of the inner loop. */
  method ReadAnd(img: array<bv8>, w: nat, h: nat, x: int, y: int) returns (b: bv8)
    requires img.Length == w * h && Inside(w, h, x, y)
    ensures b == And9(img[..], w, x, y)
  {
    BlockInRange(w, h, x, y);
    b := img[(y - 1) * w + (x - 1)] & img[(y - 1) * w + x] & img[(y - 1) * w + (x + 1)] &
         img[y * w + (x - 1)] & img[y * w + x] & img[y * w + (x + 1)] &
         img[(y + 1) * w + (x - 1)] & img[(y + 1) * w + x] & img[(y + 1) * w + (x + 1)];
  }

  method ReadOr(img: array<bv8>, w: nat, h: nat, x: int, y: int) returns (b: bv8)
    requires img.Length == w * h && Inside(w, h, x, y)
    ensures b == Or9(img[..], w, x, y)
  {
    BlockInRange(w, h, x, y);
    b := img[(y - 1) * w + (x - 1)] | img[(y - 1) * w + x] | img[(y - 1) * w + (x + 1)] |
         img[y * w + (x - 1)] | img[y * w + x] | img[y * w + (x + 1)] |
         img[(y + 1) * w + (x - 1)] | img[(y + 1) * w + x] | img[(y + 1) * w + (x + 1)];
  }

  method WritePixel(temp: array<bv8>, w: nat, h: nat, x: int, y: int, b: bv8)
    requires temp.Length == w * h && Within(w, h, x, y)
    modifies temp
    ensures forall i, j :: Within(w, h, i, j) ==>
              At(temp[..], w, i, j) == if i == x && j == y then b else At(old(temp[..]), w, i, j)
  {
    InRange(w, h, x, y);
    ghost var was := temp[..];
    temp[y * w + x] := b;
    forall i, j | Within(w, h, i, j)
      ensures At(temp[..], w, i, j) == if i == x && j == y then b else At(was, w, i, j)
    {
      Row(w, i, j, x, y);
      InRange(w, h, i, j);
    }
  }

  method CopyBack(img: array<bv8>, temp: array<bv8>)
    requires img.Length == temp.Length && img != temp
    modifies img
    ensures img[..] == temp[..]
  {
    var i := 0;
    while i < img.Length
      invariant 0 <= i <= img.Length && temp[..] == old(temp[..]) && img[..i] == temp[..i]
    {
      img[i] := temp[i];
      i := i + 1;
    }
  }

  // ---------- bytes and pixel sets ----------

  lemma BothBit(a: bv8, b: bv8, bit: bv8)
    requires SingleBit(bit)
    ensures Has(Both(a, b), bit) <==> Has(a, bit) && Has(b, bit)
  {
  }

  lemma EitherBit(a: bv8, b: bv8, bit: bv8)
    ensures Has(Either(a, b), bit) <==> Has(a, bit) || Has(b, bit)
  {
  }

  lemma BlankBit(bit: bv8)
    ensures !Has(0, bit)
  {
  }

  predicate Lit(s: seq<bv8>, w: nat, bit: bv8, x: int, y: int) {
    Has(At(s, w, x, y), bit)
  }

  lemma And3Bit(s: seq<bv8>, w: nat, x: int, y: int, bit: bv8)
    requires SingleBit(bit)
    ensures Has(And3(s, w, x, y), bit) <==> Lit(s, w, bit, x - 1, y) && Lit(s, w, bit, x, y) && Lit(s, w, bit, x + 1, y)
  {
    hide At, Both, Has;
    BothBit(At(s, w, x - 1, y), At(s, w, x, y), bit);
    BothBit(Both(At(s, w, x - 1, y), At(s, w, x, y)), At(s, w, x + 1, y), bit);
  }

  lemma Or3Bit(s: seq<bv8>, w: nat, x: int, y: int, bit: bv8)
    ensures Has(Or3(s, w, x, y), bit) <==> Lit(s, w, bit, x - 1, y) || Lit(s, w, bit, x, y) || Lit(s, w, bit, x + 1, y)
  {
    hide At, Either, Has;
    EitherBit(At(s, w, x - 1, y), At(s, w, x, y), bit);
    EitherBit(Either(At(s, w, x - 1, y), At(s, w, x, y)), At(s, w, x + 1, y), bit);
  }

  lemma And9Bit(s: seq<bv8>, w: nat, x: int, y: int, bit: bv8)
    requires SingleBit(bit)
    ensures Has(And9(s, w, x, y), bit) <==>
              Lit(s, w, bit, x - 1, y - 1) && Lit(s, w, bit, x, y - 1) && Lit(s, w, bit, x + 1, y - 1) &&
              Lit(s, w, bit, x - 1, y) && Lit(s, w, bit, x, y) && Lit(s, w, bit, x + 1, y) &&
              Lit(s, w, bit, x - 1, y + 1) && Lit(s, w, bit, x, y + 1) && Lit(s, w, bit, x + 1, y + 1)
  {
    hide Lit, And3, Both, Has;
    And3Bit(s, w, x, y - 1, bit);
    And3Bit(s, w, x, y, bit);
    And3Bit(s, w, x, y + 1, bit);
    BothBit(And3(s, w, x, y - 1), And3(s, w, x, y), bit);
    BothBit(Both(And3(s, w, x, y - 1), And3(s, w, x, y)), And3(s, w, x, y + 1), bit);
  }

  lemma Or9Bit(s: seq<bv8>, w: nat, x: int, y: int, bit: bv8)
    ensures Has(Or9(s, w, x, y), bit) <==>
              Lit(s, w, bit, x - 1, y - 1) || Lit(s, w, bit, x, y - 1) || Lit(s, w, bit, x + 1, y - 1) ||
              Lit(s, w, bit, x - 1, y) || Lit(s, w, bit, x, y) || Lit(s, w, bit, x + 1, y) ||
              Lit(s, w, bit, x - 1, y + 1) || Lit(s, w, bit, x, y + 1) || Lit(s, w, bit, x + 1, y + 1)
  {
    hide Lit, Or3, Either, Has;
    Or3Bit(s, w, x, y - 1, bit);
    Or3Bit(s, w, x, y, bit);
    Or3Bit(s, w, x, y + 1, bit);
    EitherBit(Or3(s, w, x, y - 1), Or3(s, w, x, y), bit);
    EitherBit(Either(Or3(s, w, x, y - 1), Or3(s, w, x, y)), Or3(s, w, x, y + 1), bit);
  }

  lemma PixelAt(s: seq<bv8>, w: nat, h: nat, bit: bv8, x: int, y: int)
    ensures Point(x, y) in Pixels(s, w, h, bit) <==> Within(w, h, x, y) && Lit(s, w, bit, x, y)
  {
  }

  lemma BlockPixels(s: seq<bv8>, w: nat, h: nat, bit: bv8, x: int, y: int)
    requires Inside(w, h, x, y) && SingleBit(bit)
    ensures Block(Point(x, y)) <= Pixels(s, w, h, bit) <==> Has(And9(s, w, x, y), bit)
    ensures Block(Point(x, y)) * Pixels(s, w, h, bit) != {} <==> Has(Or9(s, w, x, y), bit)
  {
    And9Bit(s, w, x, y, bit);
    Or9Bit(s, w, x, y, bit);
    PixelAt(s, w, h, bit, x - 1, y - 1);
    PixelAt(s, w, h, bit, x, y - 1);
    PixelAt(s, w, h, bit, x + 1, y - 1);
    PixelAt(s, w, h, bit, x - 1, y);
    PixelAt(s, w, h, bit, x, y);
    PixelAt(s, w, h, bit, x + 1, y);
    PixelAt(s, w, h, bit, x - 1, y + 1);
    PixelAt(s, w, h, bit, x, y + 1);
    PixelAt(s, w, h, bit, x + 1, y + 1);
    hide Pixels, And9, Or9, Lit, At, Has;
    var p, image := Point(x, y), Pixels(s, w, h, bit);
    assert forall q :: q in Block(p) * image <==> q in Block(p) && q in image;
  }

  /** Eroding the bytes erodes the pixel set of every bit. */
  lemma ErodedPixels(r: seq<bv8>, s: seq<bv8>, w: nat, h: nat, bit: bv8)
    requires IsEroded(r, s, w, h) && SingleBit(bit)
    ensures Pixels(r, w, h, bit) == Erode(Pixels(s, w, h, bit), w, h)
  {
    BlankBit(bit);
    hide Block, Pixels, Interior, And9, At, Has, SingleBit;
    forall p: Point ensures p in Pixels(r, w, h, bit) <==> p in Erode(Pixels(s, w, h, bit), w, h) {
      InteriorPoint(p, w, h);
      PixelAt(r, w, h, bit, p.x, p.y);
      if Inside(w, h, p.x, p.y) { BlockPixels(s, w, h, bit, p.x, p.y); }
      assert p == Point(p.x, p.y);
    }
  }

  lemma DilatedPixels(r: seq<bv8>, s: seq<bv8>, w: nat, h: nat, bit: bv8)
    requires IsDilated(r, s, w, h) && SingleBit(bit)
    ensures Pixels(r, w, h, bit) == Dilate(Pixels(s, w, h, bit), w, h)
  {
    BlankBit(bit);
    hide Block, Pixels, Interior, Or9, At, Has, SingleBit;
    forall p: Point ensures p in Pixels(r, w, h, bit) <==> p in Dilate(Pixels(s, w, h, bit), w, h) {
      InteriorPoint(p, w, h);
      PixelAt(r, w, h, bit, p.x, p.y);
      if Inside(w, h, p.x, p.y) { BlockPixels(s, w, h, bit, p.x, p.y); }
      assert p == Point(p.x, p.y);
    }
  }

  lemma MulMonotone(a: int, b: int, d: nat)
    ensures a <= b ==> a * d <= b * d
  {
  }

  /** No lit byte on the border. */
  ghost predicate BorderDark(r: seq<bv8>, w: nat, h: nat)
    requires w > 0
  {
    forall i :: 0 <= i < |r| && r[i] > 0 ==> Inside(w, h, i % w, i / w)
  }

  lemma PlaceOf(w: nat, x: nat, y: nat)
    requires x < w
    ensures (w * y + x) % w == x && (w * y + x) / w == y
  {
    var n := w * y + x;
    var (q, m) := (n / w, n % w);
    assert n == w * q + m;
    Row(w, x, y, m, q);
  }

  lemma PlaceWithin(w: nat, h: nat, i: nat)
    requires i < w * h
    ensures w > 0 && Within(w, h, i % w, i / w) && i == i / w * w + i % w
  {
    var q := i / w;
    assert i == q * w + i % w;
    MulMonotone(h, q, w);
  }

  /** The result of a dilation is dark on its border. */
  lemma DilatedBorder(r: seq<bv8>, s: seq<bv8>, w: nat, h: nat)
    requires w > 0 && IsDilated(r, s, w, h)
    ensures BorderDark(r, w, h)
  {
    hide Or9;
    forall i | 0 <= i < |r| && r[i] > 0 ensures Inside(w, h, i % w, i / w) {
      PlaceWithin(w, h, i);
      var (x, y) := (i % w, i / w);
      assert At(r, w, x, y) == r[i];
    }
  }

  /** A byte without the higher bits is 0 or 1. */
  lemma LowBit(b: bv8)
    requires !Has(b, 2) && !Has(b, 4) && !Has(b, 8) && !Has(b, 16) && !Has(b, 32) && !Has(b, 64) && !Has(b, 128)
    ensures b == 0 || b == 1
  {
  }

  predicate Binary(s: seq<bv8>) {
    forall i :: 0 <= i < |s| ==> s[i] == 0 || s[i] == 1
  }

  lemma NoHighBits(bit: bv8)
    requires SingleBit(bit) && bit != 1
    ensures !Has(0, bit) && !Has(1, bit)
  {
  }

  /** A 0/1 image stays one. */
  lemma OpenedBinary(r: seq<bv8>, s: seq<bv8>, w: nat, h: nat)
    requires w > 0 && |r| == |s| == w * h && Binary(s)
    requires forall bit :: SingleBit(bit) ==> Pixels(r, w, h, bit) == Open(Pixels(s, w, h, bit), w, h)
    ensures Binary(r)
  {
    hide Open, Has;
    forall bit | SingleBit(bit) && bit != 1 ensures Pixels(r, w, h, bit) == {} {
      NoHighBits(bit);
      BlankBit(bit);
      assert Pixels(s, w, h, bit) == {};
      OpenShrinks({}, w, h);
    }
    forall i | 0 <= i < |r| ensures r[i] == 0 || r[i] == 1 {
      PlaceWithin(w, h, i);
      var (x, y) := (i % w, i / w);
      forall bit | SingleBit(bit) && bit != 1 ensures !Has(r[i], bit) { PixelAt(r, w, h, bit, x, y); }
      LowBit(r[i]);
    }
  }

  /** Erosion then dilation in place is the opening of every bit's pixel set. */
  method Opening(img: array<bv8>, w: nat, h: nat)
    requires img.Length == w * h
    modifies img
    ensures forall bit :: SingleBit(bit) ==> Pixels(img[..], w, h, bit) == Open(Pixels(old(img[..]), w, h, bit), w, h)
    ensures w > 0 ==> BorderDark(img[..], w, h)
  {
    hide Pixels, IsEroded, IsDilated, BorderDark;
    ghost var s := img[..];
    Erosion(img, w, h);
    ghost var e := img[..];
    Dilation(img, w, h);
    if w > 0 { DilatedBorder(img[..], e, w, h); }
    forall bit | SingleBit(bit) ensures Pixels(img[..], w, h, bit) == Open(Pixels(s, w, h, bit), w, h) {
      ErodedPixels(e, s, w, h, bit);
      DilatedPixels(img[..], e, w, h, bit);
    }
  }
}
