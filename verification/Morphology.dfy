/**
 Erosion and dilation of an image in place, and the opening they make together. The
 laws are stated on the set of pixels in which a given bit is set, so they hold for
 every bit of every image, 0/1 images among them.
 */
module Morphology {

  /** A place in the image: column and row. */
  datatype Point = Point(x: int, y: int)

  // ---------- pixel sets ----------

  /** The 3x3 block around a pixel. */
  function Block(p: Point): set<Point> {
    {Point(p.x - 1, p.y - 1), Point(p.x, p.y - 1), Point(p.x + 1, p.y - 1),
     Point(p.x - 1, p.y), p, Point(p.x + 1, p.y),
     Point(p.x - 1, p.y + 1), Point(p.x, p.y + 1), Point(p.x + 1, p.y + 1)}
  }

  /** The pixels both loops visit: all but the border ring. */
  function Interior(w: nat, h: nat): set<Point> {
    set x: int, y: int | 1 <= x < w - 1 && 1 <= y < h - 1 :: Point(x, y)
  }

  function Erode(image: set<Point>, w: nat, h: nat): set<Point> {
    set p | p in Interior(w, h) && Block(p) <= image
  }

  function Dilate(image: set<Point>, w: nat, h: nat): set<Point> {
    set p | p in Interior(w, h) && Block(p) * image != {}
  }

  function Open(image: set<Point>, w: nat, h: nat): set<Point> {
    Dilate(Erode(image, w, h), w, h)
  }

  lemma BlockSymmetric(p: Point, q: Point)
    ensures p in Block(q) <==> q in Block(p)
  {
  }

  lemma InteriorPoint(p: Point, w: nat, h: nat)
    ensures p in Interior(w, h) <==> 1 <= p.x < w - 1 && 1 <= p.y < h - 1
  {
    assert p == Point(p.x, p.y);
  }

  /** A full block of the image, with its centre off the border, contains the pixel. */
  ghost predicate Covered(image: set<Point>, w: nat, h: nat, q: Point) {
    exists p :: p in Interior(w, h) && q in Block(p) && Block(p) <= image
  }

  /** The opening is made of the pixels off the border that lie in a full block. */
  lemma OpenInBlock(image: set<Point>, w: nat, h: nat, q: Point)
    ensures q in Open(image, w, h) <==> q in Interior(w, h) && Covered(image, w, h, q)
  {
    var eroded := Erode(image, w, h);
    hide Block, Interior;
    if q in Open(image, w, h) {
      var p :| p in Block(q) * eroded;
      BlockSymmetric(p, q);
    }
    if q in Interior(w, h) && Covered(image, w, h, q) {
      var p :| p in Interior(w, h) && q in Block(p) && Block(p) <= image;
      BlockSymmetric(p, q);
      assert p in Block(q) * eroded;
    }
  }

  /** Opening removes pixels and adds none. */
  lemma OpenShrinks(image: set<Point>, w: nat, h: nat)
    ensures Open(image, w, h) <= image * Interior(w, h)
  {
    forall q | q in Open(image, w, h) ensures q in image * Interior(w, h) {
      OpenInBlock(image, w, h, q);
    }
  }

  lemma OpenMonotone(a: set<Point>, b: set<Point>, w: nat, h: nat)
    requires a <= b
    ensures Open(a, w, h) <= Open(b, w, h)
  {
    forall q | q in Open(a, w, h) ensures q in Open(b, w, h) {
      OpenInBlock(a, w, h, q);
      OpenInBlock(b, w, h, q);
    }
  }

  /** Eroding an opened image sees exactly the blocks that avoid the border. */
  lemma ErodeOpened(image: set<Point>, w: nat, h: nat)
    ensures Erode(Open(image, w, h), w, h) == Erode(image * Interior(w, h), w, h)
  {
    hide Block, Interior;
    OpenShrinks(image, w, h);
    forall p | p in Erode(image * Interior(w, h), w, h) ensures Block(p) <= Open(image, w, h) {
      forall q | q in Block(p) ensures q in Open(image, w, h) {
        OpenInBlock(image, w, h, q);
      }
    }
  }

  /**
   Opening twice is opening the image without its border; so opening is idempotent
   on an image exactly when clearing the border first makes no difference.
   */
  lemma OpenTwice(image: set<Point>, w: nat, h: nat)
    ensures Open(Open(image, w, h), w, h) == Open(image * Interior(w, h), w, h)
    ensures Open(Open(image, w, h), w, h) == Open(image, w, h) <==>
              Open(image * Interior(w, h), w, h) == Open(image, w, h)
  {
    ErodeOpened(image, w, h);
  }

  /** Idempotence, pixel by pixel: every pixel kept must lie in a block that avoids the border. */
  lemma IdempotentExactly(image: set<Point>, w: nat, h: nat)
    ensures Open(Open(image, w, h), w, h) == Open(image, w, h) <==>
            forall q :: q in Interior(w, h) && Covered(image, w, h, q) ==> Covered(image * Interior(w, h), w, h, q)
  {
    hide Block, Interior, Open, Covered;
    var inner := image * Interior(w, h);
    OpenTwice(image, w, h);
    OpenMonotone(inner, image, w, h);
    forall q: Point
      ensures q in Open(image, w, h) <==> q in Interior(w, h) && Covered(image, w, h, q)
      ensures q in Open(inner, w, h) <==> q in Interior(w, h) && Covered(inner, w, h, q)
    {
      OpenInBlock(image, w, h, q);
      OpenInBlock(inner, w, h, q);
    }
    assert Open(image, w, h) <= Open(inner, w, h) <==> Open(inner, w, h) == Open(image, w, h);
  }

  /** A background border is enough. */
  lemma IdempotentInside(image: set<Point>, w: nat, h: nat)
    requires image <= Interior(w, h)
    ensures Open(Open(image, w, h), w, h) == Open(image, w, h)
  {
    assert image * Interior(w, h) == image;
    OpenTwice(image, w, h);
  }

  /** A block in the corner survives one opening but not two. */
  lemma CornerBlock()
    ensures var image := Block(Point(1, 1));
            Open(image, 5, 5) != {} && Open(Open(image, 5, 5), 5, 5) == {}
  {
    var image := Block(Point(1, 1));
    var c := Point(1, 1);
    InteriorPoint(c, 5, 5);
    assert c in Block(c);
    hide Block, Interior, Open;
    assert Covered(image, 5, 5, c);
    OpenInBlock(image, 5, 5, c);
    OpenTwice(image, 5, 5);
    var inner := image * Interior(5, 5);
    forall q ensures q !in Open(inner, 5, 5) {
      OpenInBlock(inner, 5, 5, q);
      forall p | p in Interior(5, 5) ensures !(Block(p) <= inner) { NotInCorner(p); }
    }
  }

  /** No block off the border fits into the corner block. */
  lemma NotInCorner(p: Point)
    ensures !(Block(p) <= Block(Point(1, 1)) * Interior(5, 5))
  {
    assert Point(p.x - 1, p.y) in Block(p) && Point(p.x + 1, p.y) in Block(p);
    InteriorPoint(Point(p.x - 1, p.y), 5, 5);
    InteriorPoint(Point(p.x + 1, p.y), 5, 5);
  }
}
