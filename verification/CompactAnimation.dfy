/**
 The compact animation file: `GenerateCompactNetAnimXml` of scratch/nr-x2-handover-measures-cho.cc, which reads
 the coordinates in the lines of a file, and writes them again so that they fit a square around the origin.
 Coordinates are exact reals; they are rounded where they become text.
 */
module CompactAnimation {
  import opened Reals
  import opened Sequences

  import opened AttributeText
  import opened DecimalText

  // ----- Points and their box -----

  datatype Point = Point(x: real, y: real)

  datatype Box = Box(minX: real, maxX: real, minY: real, maxY: real)

  ghost predicate IsRange(values: seq<real>, low: real, high: real) {
    low in values && high in values && forall v :: v in values ==> low <= v <= high
  }

  function Xs(points: seq<Point>): (values: seq<real>)
    ensures |values| == |points| && forall i :: 0 <= i < |points| ==> values[i] == points[i].x
  {
    seq(|points|, i requires 0 <= i < |points| => points[i].x)
  }

  function Ys(points: seq<Point>): (values: seq<real>)
    ensures |values| == |points| && forall i :: 0 <= i < |points| ==> values[i] == points[i].y
  {
    seq(|points|, i requires 0 <= i < |points| => points[i].y)
  }

  /** The least box that holds the points. */
  ghost predicate IsBox(points: seq<Point>, box: Box) {
    IsRange(Xs(points), box.minX, box.maxX) && IsRange(Ys(points), box.minY, box.maxY)
  }

  /** The greater of the two extents. */
  function Extent(box: Box): real {
    Max(box.maxX - box.minX, box.maxY - box.minY)
  }

  function Factor(box: Box, halfSpan: real): real {
    (2.0 * halfSpan) / Max(Max(1.0, box.maxX - box.minX), Max(1.0, box.maxY - box.minY))
  }

  /** How far a coordinate is from the middle. */
  function Offset(v: real, low: real, high: real): real {
    v - 0.5 * (low + high)
  }

  function Image(v: real, low: real, high: real, f: real): real {
    Offset(v, low, high) * f
  }

  function Normalise(p: Point, box: Box, halfSpan: real): Point {
    var f := Factor(box, halfSpan);
    Point(Image(p.x, box.minX, box.maxX, f), Image(p.y, box.minY, box.maxY, f))
  }

  function NormaliseAll(points: seq<Point>, box: Box, halfSpan: real): (r: seq<Point>)
    ensures |r| == |points| && forall i :: 0 <= i < |r| ==> r[i] == Normalise(points[i], box, halfSpan)
  {
    seq(|points|, i requires 0 <= i < |points| => Normalise(points[i], box, halfSpan))
  }

  // ----- The factor -----

  /** The half span that the points fill: what is asked for, or less if their extent is below 1. */
  function Filled(extent: real, halfSpan: real): real {
    if extent < 1.0 then halfSpan * extent else halfSpan
  }

  lemma FilledWithin(extent: real, halfSpan: real)
    requires extent >= 0.0 && halfSpan >= 0.0
    ensures 0.0 <= Filled(extent, halfSpan) <= halfSpan
  {
    if extent < 1.0 {
      Product(halfSpan, extent, halfSpan, 1.0);
    }
  }

  lemma Product(a: real, b: real, a': real, b': real)
    requires 0.0 <= a <= a' && 0.0 <= b <= b'
    ensures 0.0 <= a * b <= a' * b'
  {
    assert a * b <= a' * b;
    assert a' * b <= a' * b';
  }

  lemma QuotientSign(a: real, b: real)
    requires a >= 0.0 && b > 0.0
    ensures a / b >= 0.0
  {
  }

  /** The factor takes the extent to the filled span. */
  lemma FactorOfExtent(box: Box, halfSpan: real)
    requires Extent(box) >= 0.0
    ensures Extent(box) * Factor(box, halfSpan) == 2.0 * Filled(Extent(box), halfSpan)
    ensures halfSpan >= 0.0 ==> Factor(box, halfSpan) >= 0.0
    ensures halfSpan < 0.0 ==> Factor(box, halfSpan) <= 0.0
  {
    var w := Max(1.0, Extent(box));
    var f := 2.0 * halfSpan / w;
    assert f == Factor(box, halfSpan);
    assert f * w == 2.0 * halfSpan;
    if halfSpan >= 0.0 {
      QuotientSign(2.0 * halfSpan, w);
    } else {
      QuotientSign(-2.0 * halfSpan, w);
      assert -2.0 * halfSpan / w == -f;
    }
  }

  lemma OffsetBounded(v: real, low: real, high: real, extent: real, f: real, limit: real)
    requires low <= v <= high && high - low <= extent && f >= 0.0 && extent * f <= 2.0 * limit
    ensures -limit <= Image(v, low, high, f) <= limit
  {
    var offset := Offset(v, low, high);
    assert -extent <= 2.0 * offset <= extent;
    hide Offset;
    ProductBounded(offset, extent, f, limit);
  }

  lemma ProductBounded(offset: real, extent: real, f: real, limit: real)
    requires -extent <= 2.0 * offset <= extent && f >= 0.0 && extent * f <= 2.0 * limit
    ensures -limit <= offset * f <= limit
  {
    assert (extent - 2.0 * offset) * f >= 0.0;
    assert (extent + 2.0 * offset) * f >= 0.0;
    assert (extent - 2.0 * offset) * f == extent * f - 2.0 * (offset * f);
    assert (extent + 2.0 * offset) * f == extent * f + 2.0 * (offset * f);
  }

  lemma BoxHolds(points: seq<Point>, box: Box, i: nat)
    requires IsBox(points, box) && i < |points|
    ensures box.minX <= points[i].x <= box.maxX && box.minY <= points[i].y <= box.maxY
  {
    assert Xs(points)[i] in Xs(points) && Ys(points)[i] in Ys(points);
  }

  // ----- The square -----

  ghost predicate InSquare(p: Point, halfSpan: real) {
    -halfSpan <= p.x <= halfSpan && -halfSpan <= p.y <= halfSpan
  }

  lemma AxesWithin(x: real, y: real, box: Box, f: real, halfSpan: real)
    requires box.minX <= x <= box.maxX && box.minY <= y <= box.maxY
    requires f >= 0.0 && Extent(box) * f <= 2.0 * halfSpan
    ensures -halfSpan <= Image(x, box.minX, box.maxX, f) <= halfSpan
    ensures -halfSpan <= Image(y, box.minY, box.maxY, f) <= halfSpan
  {
    var extent := Extent(box);
    assert box.maxX - box.minX <= extent && box.maxY - box.minY <= extent;
    hide Extent, Image;
    OffsetBounded(x, box.minX, box.maxX, extent, f, halfSpan);
    OffsetBounded(y, box.minY, box.maxY, extent, f, halfSpan);
  }

  lemma NormaliseWithin(p: Point, box: Box, halfSpan: real)
    requires box.minX <= p.x <= box.maxX && box.minY <= p.y <= box.maxY && halfSpan >= 0.0
    ensures InSquare(Normalise(p, box, halfSpan), halfSpan)
  {
    hide Factor, Image, Filled;
    FactorOfExtent(box, halfSpan);
    FilledWithin(Extent(box), halfSpan);
    AxesWithin(p.x, p.y, box, Factor(box, halfSpan), halfSpan);
  }

  /** Every point lands in the square of the given half span. */
  lemma WithinSquare(points: seq<Point>, box: Box, halfSpan: real, i: nat)
    requires IsBox(points, box) && i < |points| && halfSpan >= 0.0
    ensures InSquare(Normalise(points[i], box, halfSpan), halfSpan)
  {
    BoxHolds(points, box, i);
    hide *;
    NormaliseWithin(points[i], box, halfSpan);
  }

  /** All distances along both axes change by one factor, which does not reverse them. */
  lemma OneScale(points: seq<Point>, box: Box, halfSpan: real, i: nat, j: nat)
    requires IsBox(points, box) && i < |points| && j < |points| && halfSpan >= 0.0
    ensures var images, f := NormaliseAll(points, box, halfSpan), 2.0 * halfSpan / Max(1.0, Extent(box));
      && f >= 0.0
      && images[i].x - images[j].x == (points[i].x - points[j].x) * f
      && images[i].y - images[j].y == (points[i].y - points[j].y) * f
  {
    hide IsBox, Factor, Extent;
    FactorByExtent(box, halfSpan);
    QuotientSign(2.0 * halfSpan, Max(1.0, Extent(box)));
    ImageDifference(points[i].x, points[j].x, box.minX, box.maxX, Factor(box, halfSpan));
    ImageDifference(points[i].y, points[j].y, box.minY, box.maxY, Factor(box, halfSpan));
  }

  lemma ImageDifference(v: real, w: real, low: real, high: real, f: real)
    ensures Image(v, low, high, f) - Image(w, low, high, f) == (v - w) * f
  {
  }

  // ----- The box afterwards -----

  lemma ImageBounded(v: real, low: real, high: real, f: real)
    requires low <= v <= high
    ensures var limit := 0.5 * ((high - low) * Abs(f)); -limit <= Image(v, low, high, f) <= limit
  {
    var limit := 0.5 * ((high - low) * Abs(f));
    OffsetBounded(v, low, high, high - low, Abs(f), limit);
    assert Image(v, low, high, -f) == -Image(v, low, high, f);
  }

  lemma ImagesOfEnds(low: real, high: real, f: real)
    ensures var limit := 0.5 * ((high - low) * Abs(f));
      && Image(high, low, high, f) == (if f < 0.0 then -limit else limit)
      && Image(low, low, high, f) == -Image(high, low, high, f)
  {
    var d := 0.5 * (high - low);
    assert Offset(high, low, high) == d && Offset(low, low, high) == -d;
    assert d * f == 0.5 * ((high - low) * f);
    assert (high - low) * -f == -((high - low) * f);
  }

  /** The images of a range that is moved to its middle and scaled fill a range around 0. */
  lemma ScaledRange(values: seq<real>, low: real, high: real, f: real, images: seq<real>, low': real, high': real)
    requires IsRange(values, low, high) && IsRange(images, low', high') && |images| == |values|
    requires forall i :: 0 <= i < |values| ==> images[i] == Image(values[i], low, high, f)
    ensures high' == 0.5 * ((high - low) * Abs(f)) && low' == -high'
  {
    hide Image, Abs;
    var limit := 0.5 * ((high - low) * Abs(f));
    ImagesOfEnds(low, high, f);
    assert Image(low, low, high, f) in images && Image(high, low, high, f) in images by {
      var i :| 0 <= i < |values| && values[i] == low;
      var j :| 0 <= j < |values| && values[j] == high;
      assert images[i] in images && images[j] in images;
    }
    forall i | 0 <= i < |values| ensures -limit <= images[i] <= limit {
      assert values[i] in values;
      ImageBounded(values[i], low, high, f);
    }
  }

  lemma NormalisedBox(points: seq<Point>, box: Box, halfSpan: real, box': Box)
    requires IsBox(points, box) && IsBox(NormaliseAll(points, box, halfSpan), box')
    ensures var f := Abs(Factor(box, halfSpan));
      && box'.maxX == 0.5 * ((box.maxX - box.minX) * f) && box'.minX == -box'.maxX
      && box'.maxY == 0.5 * ((box.maxY - box.minY) * f) && box'.minY == -box'.maxY
  {
    var images, f := NormaliseAll(points, box, halfSpan), Factor(box, halfSpan);
    hide Factor, IsRange, Image;
    ScaledRange(Xs(points), box.minX, box.maxX, f, Xs(images), box'.minX, box'.maxX);
    ScaledRange(Ys(points), box.minY, box.maxY, f, Ys(images), box'.minY, box'.maxY);
  }

  lemma MaxTimes(a: real, b: real, f: real)
    requires f >= 0.0
    ensures Max(a * f, b * f) == Max(a, b) * f
  {
    if a < b {
      Product(0.0, 0.0, b - a, f);
    } else {
      Product(0.0, 0.0, a - b, f);
    }
  }

  lemma AbsOfProduct(a: real, f: real)
    requires a >= 0.0
    ensures a * Abs(f) == Abs(a * f)
  {
    if f < 0.0 {
      Product(0.0, 0.0, a, -f);
      assert a * -f == -(a * f);
    } else {
      Product(0.0, 0.0, a, f);
    }
  }

  lemma BoxIsNotEmpty(points: seq<Point>, box: Box)
    requires IsBox(points, box)
    ensures points != [] && box.minX <= box.maxX && box.minY <= box.maxY && Extent(box) >= 0.0
  {
  }

  /** The extent of a box around 0 whose sides are those of another one times f. */
  lemma ScaledExtent(box: Box, f: real, box': Box)
    requires f >= 0.0 && Extent(box) >= 0.0
    requires box'.maxX == 0.5 * ((box.maxX - box.minX) * f) && box'.minX == -box'.maxX
    requires box'.maxY == 0.5 * ((box.maxY - box.minY) * f) && box'.minY == -box'.maxY
    ensures Extent(box') == Extent(box) * f
  {
    var spanX, spanY := box.maxX - box.minX, box.maxY - box.minY;
    MaxTimes(spanX, spanY, f);
    assert box'.maxX - box'.minX == spanX * f && box'.maxY - box'.minY == spanY * f;
  }

  lemma NormalisedExtent(points: seq<Point>, box: Box, halfSpan: real, box': Box)
    requires IsBox(points, box) && IsBox(NormaliseAll(points, box, halfSpan), box')
    ensures Extent(box') == 2.0 * Abs(Filled(Extent(box), halfSpan))
    ensures box'.minX == -box'.maxX && box'.minY == -box'.maxY
  {
    hide IsBox, NormaliseAll, Factor, Filled, Extent, Abs;
    var f := Factor(box, halfSpan);
    BoxIsNotEmpty(points, box);
    NormalisedBox(points, box, halfSpan, box');
    FactorOfExtent(box, halfSpan);
    AbsIsSize(f);
    ScaledExtent(box, Abs(f), box');
    TwiceAbs(Extent(box), f, Filled(Extent(box), halfSpan));
  }

  lemma TwiceAbs(a: real, f: real, b: real)
    requires a >= 0.0 && a * f == 2.0 * b
    ensures a * Abs(f) == 2.0 * Abs(b)
  {
    AbsOfProduct(a, f);
  }

  lemma AbsIsSize(x: real)
    ensures Abs(x) >= 0.0
  {
  }

  lemma ExtentAroundZero(box: Box)
    requires box.minX == -box.maxX && box.minY == -box.maxY
    ensures Extent(box) == 2.0 * Max(box.maxX, box.maxY)
  {
  }

  /** The wider axis reaches both sides of the square if and only if the points were at least 1 apart. */
  lemma FillsSquare(points: seq<Point>, box: Box, halfSpan: real, box': Box)
    requires IsBox(points, box) && IsBox(NormaliseAll(points, box, halfSpan), box')
    requires halfSpan > 0.0
    ensures box'.minX == -box'.maxX && box'.minY == -box'.maxY
    ensures Max(box'.maxX, box'.maxY) <= halfSpan
    ensures Max(box'.maxX, box'.maxY) == halfSpan <==> Extent(box) >= 1.0
  {
    hide IsBox, NormaliseAll, Max, Extent, Filled, Abs;
    BoxIsNotEmpty(points, box);
    NormalisedExtent(points, box, halfSpan, box');
    ExtentAroundZero(box');
    FilledSpan(Extent(box), halfSpan);
  }

  lemma FilledSpan(extent: real, halfSpan: real)
    requires extent >= 0.0 && halfSpan > 0.0
    ensures Abs(Filled(extent, halfSpan)) <= halfSpan
    ensures Abs(Filled(extent, halfSpan)) == halfSpan <==> extent >= 1.0
  {
    FilledWithin(extent, halfSpan);
    if extent < 1.0 {
      StrictProduct(halfSpan, extent);
    }
  }

  lemma StrictProduct(h: real, e: real)
    requires h > 0.0 && e < 1.0
    ensures h * e < h
  {
    PositiveProduct(h, 1.0 - e);
  }

  lemma PositiveProduct(a: real, b: real)
    requires a > 0.0 && b > 0.0
    ensures a * b > 0.0
  {
  }

  // ----- Normalising twice -----

  /** Whether a second pass leaves the points of the first where they are. */
  predicate SettlesAt(extent: real, halfSpan: real) {
    extent == 0.0 || halfSpan == 0.0 || (halfSpan >= 0.5 && (extent >= 1.0 || halfSpan == 0.5))
  }

  lemma SecondFactor(extent: real, halfSpan: real, f: real)
    requires extent > 0.0 && halfSpan != 0.0
    requires f == 2.0 * halfSpan / Max(1.0, 2.0 * Abs(Filled(extent, halfSpan)))
    ensures f == 1.0 <==> SettlesAt(extent, halfSpan)
  {
    QuotientIsOne(2.0 * halfSpan, Max(1.0, 2.0 * Abs(Filled(extent, halfSpan))));
    if halfSpan > 0.0 && extent < 1.0 {
      StrictProduct(halfSpan, extent);
      PositiveProduct(halfSpan, extent);
    }
  }

  lemma QuotientIsOne(a: real, w: real)
    requires w > 0.0
    ensures a / w == 1.0 <==> a == w
  {
    assert a / w * w == a;
  }

  /** For a box around 0 normalising only multiplies. */
  lemma CenteredImage(q: Point, box: Box, halfSpan: real)
    requires box.minX == -box.maxX && box.minY == -box.maxY
    ensures var f := Factor(box, halfSpan); Normalise(q, box, halfSpan) == Point(q.x * f, q.y * f)
  {
    hide Factor;
    assert Offset(q.x, box.minX, box.maxX) == q.x && Offset(q.y, box.minY, box.maxY) == q.y;
  }

  lemma ZeroPoint(points: seq<Point>, box: Box, i: nat)
    requires IsBox(points, box) && i < |points|
    requires Extent(box) == 0.0 && box.minX == -box.maxX && box.minY == -box.maxY
    ensures points[i] == Point(0.0, 0.0)
  {
    BoxHolds(points, box, i);
  }

  lemma FixedByFactor(v: real, f: real)
    requires v != 0.0
    ensures v * f == v ==> f == 1.0
  {
    assert v * (f - 1.0) == v * f - v;
  }

  /** Some coordinate of a box with an extent is not 0. */
  lemma SomethingToScale(points: seq<Point>, box: Box) returns (i: nat)
    requires IsBox(points, box) && Extent(box) > 0.0
    ensures i < |points| && (points[i].x != 0.0 || points[i].y != 0.0)
  {
    if box.minX < box.maxX {
      var v := if box.maxX != 0.0 then box.maxX else box.minX;
      i :| 0 <= i < |points| && Xs(points)[i] == v;
    } else {
      var v := if box.maxY != 0.0 then box.maxY else box.minY;
      i :| 0 <= i < |points| && Ys(points)[i] == v;
    }
  }

  lemma ScaledByFactor(points: seq<Point>, box: Box, halfSpan: real)
    requires IsBox(points, box) && box.minX == -box.maxX && box.minY == -box.maxY
    ensures NormaliseAll(points, box, halfSpan) == points <==> Extent(box) == 0.0 || Factor(box, halfSpan) == 1.0
  {
    hide Normalise, Factor, IsBox, Extent;
    var f, images := Factor(box, halfSpan), NormaliseAll(points, box, halfSpan);
    BoxIsNotEmpty(points, box);
    if Extent(box) == 0.0 || f == 1.0 {
      forall i: nat | i < |points| ensures images[i] == points[i] {
        UnmovedPoint(points, box, halfSpan, i);
      }
    } else {
      var i := SomethingToScale(points, box);
      CenteredImage(points[i], box, halfSpan);
      MovedPoint(points[i], f);
      assert images[i] != points[i];
    }
  }

  lemma UnmovedPoint(points: seq<Point>, box: Box, halfSpan: real, i: nat)
    requires IsBox(points, box) && box.minX == -box.maxX && box.minY == -box.maxY && i < |points|
    requires Extent(box) == 0.0 || Factor(box, halfSpan) == 1.0
    ensures Normalise(points[i], box, halfSpan) == points[i]
  {
    hide Normalise, Factor, IsBox, Extent;
    CenteredImage(points[i], box, halfSpan);
    if Extent(box) == 0.0 {
      ZeroPoint(points, box, i);
    }
  }

  lemma MovedPoint(p: Point, f: real)
    requires (p.x != 0.0 || p.y != 0.0) && f != 1.0
    ensures Point(p.x * f, p.y * f) != p
  {
    FixedByFactor(if p.x != 0.0 then p.x else p.y, f);
  }

  /**
   Compacting twice is compacting once if and only if all points coincide, the half span is 0, or it is at least
   a half and the points have an extent of at least 1 (at a half span of exactly a half any extent will do).
   */
  lemma IdempotentWhenSettled(points: seq<Point>, box: Box, halfSpan: real, box': Box)
    requires IsBox(points, box) && IsBox(NormaliseAll(points, box, halfSpan), box')
    ensures var once := NormaliseAll(points, box, halfSpan);
      NormaliseAll(once, box', halfSpan) == once <==> SettlesAt(Extent(box), halfSpan)
  {
    hide IsBox, Filled, Factor, Extent, NormaliseAll, Normalise;
    BoxIsNotEmpty(points, box);
    NormalisedExtent(points, box, halfSpan, box');
    ScaledByFactor(NormaliseAll(points, box, halfSpan), box', halfSpan);
    FactorByExtent(box', halfSpan);
    NothingFilled(Extent(box), halfSpan);
    if Extent(box) > 0.0 && halfSpan != 0.0 {
      SecondFactor(Extent(box), halfSpan, Factor(box', halfSpan));
    }
  }

  lemma FactorByExtent(box: Box, halfSpan: real)
    ensures Factor(box, halfSpan) == 2.0 * halfSpan / Max(1.0, Extent(box))
  {
  }

  lemma NothingFilled(extent: real, halfSpan: real)
    requires extent >= 0.0
    ensures Filled(extent, halfSpan) == 0.0 <==> extent == 0.0 || halfSpan == 0.0
  {
  }

  // ----- Normalising twice with rounding in between -----

  function RoundPoint(p: Point): Point {
    Point(Rounded(p.x), Rounded(p.y))
  }

  function RoundAll(points: seq<Point>): (r: seq<Point>)
    ensures |r| == |points| && forall i :: 0 <= i < |r| ==> r[i] == RoundPoint(points[i])
  {
    seq(|points|, i requires 0 <= i < |points| => RoundPoint(points[i]))
  }

  lemma RoundedRange(values: seq<real>, low: real, high: real, images: seq<real>, low': real, high': real)
    requires IsRange(values, low, high) && IsRange(images, low', high') && |images| == |values|
    requires forall i :: 0 <= i < |values| ==> images[i] == Rounded(values[i])
    ensures low' == Rounded(low) && high' == Rounded(high)
  {
    hide Rounded;
    assert Rounded(low) in images && Rounded(high) in images by {
      var i :| 0 <= i < |values| && values[i] == low;
      var j :| 0 <= j < |values| && values[j] == high;
      assert images[i] in images && images[j] in images;
    }
    forall i | 0 <= i < |values| ensures Rounded(low) <= images[i] <= Rounded(high) {
      assert values[i] in values;
      RoundedOrder(low, values[i]);
      RoundedOrder(values[i], high);
    }
  }

  lemma RoundedBox(points: seq<Point>, box: Box, box': Box)
    requires IsBox(points, box) && IsBox(RoundAll(points), box')
    ensures box' == Box(Rounded(box.minX), Rounded(box.maxX), Rounded(box.minY), Rounded(box.maxY))
  {
    hide IsRange, Rounded;
    RoundedRange(Xs(points), box.minX, box.maxX, Xs(RoundAll(points)), box'.minX, box'.maxX);
    RoundedRange(Ys(points), box.minY, box.maxY, Ys(RoundAll(points)), box'.minY, box'.maxY);
  }

  lemma WiderRange(values: seq<real>, low: real, high: real, v: real)
    requires IsRange(values, low, high)
    ensures IsRange(values + [v], Min(low, v), Max(high, v))
  {
    var all := values + [v];
    assert all[|values|] == v;
    assert forall u :: u in all <==> u in values || u == v;
  }

  lemma {:induction false} HasRange(values: seq<real>) returns (low: real, high: real)
    requires values != []
    ensures IsRange(values, low, high)
  {
    var n := |values| - 1;
    assert values == values[..n] + [values[n]];
    if n == 0 {
      return values[0], values[0];
    }
    low, high := HasRange(values[..n]);
    WiderRange(values[..n], low, high, values[n]);
    low, high := Min(low, values[n]), Max(high, values[n]);
  }

  lemma HasBox(points: seq<Point>) returns (box: Box)
    requires points != []
    ensures IsBox(points, box)
  {
    hide IsRange;
    var minX, maxX := HasRange(Xs(points));
    var minY, maxY := HasRange(Ys(points));
    box := Box(minX, maxX, minY, maxY);
  }

  /** Rounding the corners of a box around 0 rounds half its extent. */
  lemma RoundedExtent(box: Box, box': Box)
    requires box.minX == -box.maxX && box.minY == -box.maxY
    requires box' == Box(Rounded(box.minX), Rounded(box.maxX), Rounded(box.minY), Rounded(box.maxY))
    ensures box'.minX == -box'.maxX && box'.minY == -box'.maxY
    ensures Extent(box') == 2.0 * Rounded(0.5 * Extent(box))
  {
    hide Rounded;
    RoundedOpposite(box.maxX);
    RoundedOpposite(box.maxY);
    if box.maxX <= box.maxY {
      RoundedOrder(box.maxX, box.maxY);
    } else {
      RoundedOrder(box.maxY, box.maxX);
    }
    ExtentAroundZero(box);
  }

  lemma SettledFactor(extent: real, halfSpan: real, f: real, extent': real)
    requires extent >= 0.0 && SettlesAt(extent, halfSpan) && IsWhole(halfSpan)
    requires extent' == 2.0 * Rounded(Abs(Filled(extent, halfSpan)))
    requires f == 2.0 * halfSpan / Max(1.0, extent')
    ensures extent' == 0.0 || f == 1.0
  {
    NothingFilled(extent, halfSpan);
    RoundedWhole(halfSpan);
    RoundedOpposite(0.0);
    hide Rounded, IsWhole;
    QuotientIsOne(2.0 * halfSpan, Max(1.0, extent'));
    if extent > 0.0 && halfSpan != 0.0 {
      FilledWithin(extent, halfSpan);
      RoundedOrder(Filled(extent, halfSpan), halfSpan);
    }
  }

  /** When compacting settles, and for a half span in whole thousandths, it settles with the rounding as well. */
  lemma RoundedPointsSettle(points: seq<Point>, box: Box, halfSpan: real, box': Box)
    requires IsBox(points, box) && IsBox(RoundAll(NormaliseAll(points, box, halfSpan)), box')
    requires SettlesAt(Extent(box), halfSpan) && IsWhole(halfSpan)
    ensures var once := RoundAll(NormaliseAll(points, box, halfSpan));
      RoundAll(NormaliseAll(once, box', halfSpan)) == once
  {
    hide IsBox, Filled, Factor, Extent, Normalise, Rounded, IsWhole, SettlesAt, Max;
    var images := NormaliseAll(points, box, halfSpan);
    var once := RoundAll(images);
    BoxIsNotEmpty(points, box);
    var middle := HasBox(images);
    NormalisedExtent(points, box, halfSpan, middle);
    RoundedBox(images, middle, box');
    RoundedExtent(middle, box');
    ScaledByFactor(once, box', halfSpan);
    FactorByExtent(box', halfSpan);
    HalfOfTwice(Abs(Filled(Extent(box), halfSpan)));
    SettledFactor(Extent(box), halfSpan, Factor(box', halfSpan), Extent(box'));
    forall i | 0 <= i < |once| ensures RoundPoint(once[i]) == once[i] {
      RoundPointTwice(images[i]);
    }
    assert RoundAll(once) == once;
  }

  lemma HalfOfTwice(x: real)
    ensures 0.5 * (2.0 * x) == x
  {
  }

  lemma RoundPointTwice(p: Point)
    ensures RoundPoint(RoundPoint(p)) == RoundPoint(p)
  {
    hide Rounded, IsWhole;
    RoundedIsWhole(p.x);
    RoundedIsWhole(p.y);
    RoundedWhole(Rounded(p.x));
    RoundedWhole(Rounded(p.y));
  }

  // ----- The lines of the file -----

  /** What a line says: where a node is, or where it moved to. */
  datatype Position = Position(nodeLoc: bool, p: Point)

  datatype CoordRef = CoordRef(lineIndex: nat, position: Position)

  function NameX(nodeLoc: bool): string {
    if nodeLoc then "locX" else "x"
  }

  function NameY(nodeLoc: bool): string {
    if nodeLoc then "locY" else "y"
  }

  function ReadPoint(line: string, nodeLoc: bool): Option<Point> {
    var x := TryReadAttrDouble(line, NameX(nodeLoc));
    var y := TryReadAttrDouble(line, NameY(nodeLoc));
    if x.Some? && y.Some? then Some(Point(x.value, y.value)) else None
  }

  function Mark(nodeLoc: bool): string {
    if nodeLoc then "<node " else "<nu p=\"p\""
  }

  function Coordinates(line: string): Option<Position> {
    var nodeLoc := Contains(line, Mark(true));
    if nodeLoc || Contains(line, Mark(false)) then
      var p := ReadPoint(line, nodeLoc);
      if p.Some? then Some(Position(nodeLoc, p.value)) else None
    else None
  }

  /** The positions in the first n lines. */
  function Refs(lines: seq<string>, n: nat): seq<CoordRef>
    requires n <= |lines|
  {
    if n == 0 then []
    else
      var c := Coordinates(lines[n - 1]);
      Refs(lines, n - 1) + if c.Some? then [CoordRef(n - 1, c.value)] else []
  }

  function Points(refs: seq<CoordRef>): (r: seq<Point>)
    ensures |r| == |refs| && forall i :: 0 <= i < |r| ==> r[i] == refs[i].position.p
  {
    seq(|refs|, i requires 0 <= i < |refs| => refs[i].position.p)
  }

  /** A line with both coordinates written again. */
  function WithPoint(line: string, nodeLoc: bool, p: Point): string {
    ReplaceAttrDouble(ReplaceAttrDouble(line, NameX(nodeLoc), p.x), NameY(nodeLoc), p.y)
  }

  /** What becomes of a line: a position is normalised, and any other line stays as it is. */
  function Compacted(line: string, box: Box, halfSpan: real): string {
    var c := Coordinates(line);
    if c.None? then line else WithPoint(line, c.value.nodeLoc, Normalise(c.value.p, box, halfSpan))
  }

  /** The references are in the order of the lines, and each is what its line says. */
  lemma {:induction false} RefsInOrder(lines: seq<string>, n: nat)
    requires n <= |lines|
    ensures forall k :: 0 <= k < |Refs(lines, n)| ==>
      var r := Refs(lines, n)[k]; r.lineIndex < n && Coordinates(lines[r.lineIndex]) == Some(r.position)
    ensures forall j, k :: 0 <= j < k < |Refs(lines, n)| ==> Refs(lines, n)[j].lineIndex < Refs(lines, n)[k].lineIndex
  {
    hide Coordinates;
    if n > 0 {
      RefsInOrder(lines, n - 1);
    }
  }

  /** No line that says anything is missed. */
  lemma {:induction false} RefsAreComplete(lines: seq<string>, n: nat, i: nat)
    requires i < n <= |lines| && Coordinates(lines[i]).Some?
    ensures exists k :: 0 <= k < |Refs(lines, n)| && Refs(lines, n)[k].lineIndex == i
  {
    hide Coordinates;
    if i == n - 1 {
      assert Refs(lines, n)[|Refs(lines, n - 1)|].lineIndex == i;
    } else {
      RefsAreComplete(lines, n - 1, i);
      var k :| 0 <= k < |Refs(lines, n - 1)| && Refs(lines, n - 1)[k].lineIndex == i;
      assert Refs(lines, n)[k].lineIndex == i;
    }
  }

  /** The first pass: the references, and the box around their points. */
  method CollectCoordinates(lines: array<string>) returns (coords: seq<CoordRef>, box: Box)
    ensures coords == Refs(lines[..], lines.Length)
    ensures coords != [] ==> IsBox(Points(coords), box)
  {
    hide Coordinates, IsBox, Min, Max;
    coords, box := [], Box(0.0, 0.0, 0.0, 0.0);
    for i := 0 to lines.Length
      invariant coords == Refs(lines[..], i)
      invariant coords != [] ==> IsBox(Points(coords), box)
    {
      var c := Coordinates(lines[i]);
      if c.Some? {
        var p := c.value.p;
        WiderBox(coords, box, CoordRef(i, c.value));
        box := if coords == [] then Box(p.x, p.x, p.y, p.y)
               else Box(Min(box.minX, p.x), Max(box.maxX, p.x), Min(box.minY, p.y), Max(box.maxY, p.y));
        coords := coords + [CoordRef(i, c.value)];
      }
    }
  }

  lemma WiderBox(coords: seq<CoordRef>, box: Box, ref: CoordRef)
    requires coords != [] ==> IsBox(Points(coords), box)
    ensures var p := ref.position.p;
      if coords == [] then IsBox(Points(coords + [ref]), Box(p.x, p.x, p.y, p.y))
      else IsBox(Points(coords + [ref]),
                 Box(Min(box.minX, p.x), Max(box.maxX, p.x), Min(box.minY, p.y), Max(box.maxY, p.y)))
  {
    var p := ref.position.p;
    var xs, ys := Xs(Points(coords)), Ys(Points(coords));
    assert Xs(Points(coords + [ref])) == xs + [p.x] && Ys(Points(coords + [ref])) == ys + [p.y];
    if coords == [] {
      assert xs + [p.x] == [p.x] && ys + [p.y] == [p.y];
    } else {
      hide IsRange, Min, Max;
      WiderRange(xs, box.minX, box.maxX, p.x);
      WiderRange(ys, box.minY, box.maxY, p.y);
    }
  }

  /** Between two consecutive references no line says anything. */
  lemma NothingBetween(lines: seq<string>, k: nat, i: nat)
    requires i < |lines| && k <= |Refs(lines, |lines|)|
    requires k > 0 ==> Refs(lines, |lines|)[k - 1].lineIndex < i
    requires k < |Refs(lines, |lines|)| ==> i < Refs(lines, |lines|)[k].lineIndex
    ensures Coordinates(lines[i]).None?
  {
    hide Refs, Coordinates;
    if Coordinates(lines[i]).Some? {
      RefsInOrder(lines, |lines|);
      RefsAreComplete(lines, |lines|, i);
      assert false;
    }
  }

  ghost predicate AllCompacted(was: seq<string>, box: Box, halfSpan: real, lines: seq<string>) {
    |lines| == |was| && forall i :: 0 <= i < |was| ==> lines[i] == Compacted(was[i], box, halfSpan)
  }

  /** The second pass: the lines that have a position are rewritten in place. */
  method WriteCoordinates(lines: array<string>, coords: seq<CoordRef>, box: Box, halfSpan: real)
    requires coords == Refs(lines[..], lines.Length)
    modifies lines
    ensures AllCompacted(old(lines[..]), box, halfSpan, lines[..])
  {
    hide Coordinates, ReplaceAttrDouble, Normalise, Refs;
    ghost var was := lines[..];
    RefsInOrder(was, |was|);
    forall i: nat | i < |was| && (coords == [] || i < coords[0].lineIndex)
      ensures Compacted(was[i], box, halfSpan) == was[i]
    {
      NothingBetween(was, 0, i);
    }
    for k := 0 to |coords|
      invariant forall i :: 0 <= i < |was| ==>
        lines[i] == if k == |coords| || i < coords[k].lineIndex then Compacted(was[i], box, halfSpan) else was[i]
    {
      var ref := coords[k];
      var n := Normalise(ref.position.p, box, halfSpan);
      lines[ref.lineIndex] := ReplaceAttrDouble(lines[ref.lineIndex], NameX(ref.position.nodeLoc), n.x);
      lines[ref.lineIndex] := ReplaceAttrDouble(lines[ref.lineIndex], NameY(ref.position.nodeLoc), n.y);
      assert lines[ref.lineIndex] == Compacted(was[ref.lineIndex], box, halfSpan);
      forall i: nat | ref.lineIndex < i < |was| && (k + 1 == |coords| || i < coords[k + 1].lineIndex)
        ensures Compacted(was[i], box, halfSpan) == was[i]
      {
        NothingBetween(was, k + 1, i);
      }
    }
  }

  /**
   The lines are those of the source file, and become those of the compact file. Nothing is written if no line
   has a position; otherwise every line becomes what it should with respect to the box around all positions.
   */
  method GenerateCompactNetAnimXml(lines: array<string>, halfSpan: real) returns (written: bool)
    modifies lines
    ensures written <==> exists i :: 0 <= i < lines.Length && Coordinates(old(lines[i])).Some?
    ensures !written ==> lines[..] == old(lines[..])
    ensures written ==> exists box ::
      IsBox(Points(Refs(old(lines[..]), lines.Length)), box) && AllCompacted(old(lines[..]), box, halfSpan, lines[..])
  {
    hide Coordinates, IsBox, Refs, AllCompacted;
    var coords, box := CollectCoordinates(lines);
    RefsInOrder(lines[..], lines.Length);
    if coords == [] {
      forall i: nat | i < lines.Length ensures Coordinates(lines[i]).None? {
        NothingBetween(lines[..], 0, i);
      }
      return false;
    }
    assert Coordinates(lines[coords[0].lineIndex]).Some?;
    WriteCoordinates(lines, coords, box, halfSpan);
    written := true;
  }

  // ----- What the compact file says -----

  lemma NamesApart(nodeLoc: bool)
    ensures Apart(NameX(nodeLoc), NameY(nodeLoc)) && Apart(NameY(nodeLoc), NameX(nodeLoc))
  {
    assert "locX"[3] != "locY"[3] && "x"[0] != "y"[0];
  }

  /**
   What a line must be like for a position to be read again that is written: the second coordinate is still found
   when its name is lost with the text of the first, and if the text of the second one takes the name of the first
   away, then what is found instead happens to read the same.
   */
  predicate KeepsPoint(line: string, nodeLoc: bool, p: Point) {
    BothAreFound(line, NameX(nodeLoc), NameY(nodeLoc), p.x)
  }

  /** A position that is written is read again, to three decimals, if and only if the line keeps it. */
  lemma WrittenPointReads(line: string, nodeLoc: bool, p: Point)
    requires ReadPoint(line, nodeLoc).Some?
    ensures ReadPoint(WithPoint(line, nodeLoc, p), nodeLoc) == Some(Point(Rounded(p.x), Rounded(p.y)))
       <==> KeepsPoint(line, nodeLoc, p)
  {
    NamesApart(nodeLoc);
    PointIsLocated(line, nodeLoc);
    hide TryReadAttrDouble, ReplaceAttrDouble, Locate, NameX, NameY, Apart, Rounded, BothAreFound;
    BothReadAfterBoth(line, NameX(nodeLoc), NameY(nodeLoc), p.x, p.y);
  }

  lemma ReadImpliesLocated(line: string, attr: string)
    ensures TryReadAttrDouble(line, attr).Some? ==> Locate(line, attr).Some?
  {
  }

  /** What the compact file says of a position is the normalised one to three decimals, in the square to within that. */
  lemma CompactedLineReads(lines: seq<string>, refs: seq<CoordRef>, box: Box, halfSpan: real,
                           i: nat, position: Position)
    requires refs == Refs(lines, |lines|) && IsBox(Points(refs), box) && halfSpan >= 0.0
    requires i < |lines| && Coordinates(lines[i]) == Some(position)
    ensures var n := Normalise(position.p, box, halfSpan);
      var q := Point(Rounded(n.x), Rounded(n.y));
      && InSquare(q, halfSpan + 0.0005)
      && (ReadPoint(Compacted(lines[i], box, halfSpan), position.nodeLoc) == Some(q)
          <==> KeepsPoint(lines[i], position.nodeLoc, n))
  {
    hide *;
    var p := Normalise(position.p, box, halfSpan);
    var k := RefOfLine(lines, i);
    PositionWithin(refs, box, halfSpan, k, position.p);
    CoordinatesAreRead(lines[i]);
    WrittenPointReads(lines[i], position.nodeLoc, p);
    RoundedWithin(p, halfSpan);
    CompactedPosition(lines[i], box, halfSpan);
  }

  lemma CoordinatesAreRead(line: string)
    ensures Coordinates(line).Some? ==>
      ReadPoint(line, Coordinates(line).value.nodeLoc) == Some(Coordinates(line).value.p)
  {
  }

  lemma CompactedPosition(line: string, box: Box, halfSpan: real)
    requires Coordinates(line).Some?
    ensures var c := Coordinates(line).value;
      Compacted(line, box, halfSpan) == WithPoint(line, c.nodeLoc, Normalise(c.p, box, halfSpan))
  {
  }

  lemma RoundedWithin(p: Point, halfSpan: real)
    requires InSquare(p, halfSpan)
    ensures InSquare(Point(Rounded(p.x), Rounded(p.y)), halfSpan + 0.0005)
  {
    hide Rounded;
  }

  /** Every line that says anything has a reference. */
  lemma RefOfLine(lines: seq<string>, i: nat) returns (k: nat)
    requires i < |lines| && Coordinates(lines[i]).Some?
    ensures k < |Refs(lines, |lines|)| && Refs(lines, |lines|)[k] == CoordRef(i, Coordinates(lines[i]).value)
  {
    hide *;
    RefsAreComplete(lines, |lines|, i);
    k :| 0 <= k < |Refs(lines, |lines|)| && Refs(lines, |lines|)[k].lineIndex == i;
    RefsInOrder(lines, |lines|);
  }

  lemma PositionWithin(refs: seq<CoordRef>, box: Box, halfSpan: real, k: nat, p: Point)
    requires IsBox(Points(refs), box) && halfSpan >= 0.0
    requires k < |refs| && p == refs[k].position.p
    ensures InSquare(Normalise(p, box, halfSpan), halfSpan)
  {
    hide *;
    WithinSquare(Points(refs), box, halfSpan, k);
  }

  // ----- Whether the compact file can be compacted again -----

  lemma MarksAreMarkers(nodeLoc: bool, kind: bool)
    ensures IsMarker(Mark(kind), NameX(nodeLoc)) && IsMarker(Mark(kind), NameY(nodeLoc))
  {
  }

  /** What makes a line one of its kind is also found outside the two texts that are written over. */
  ghost predicate MarkedOutside(line: string, nodeLoc: bool, kind: bool) {
    var x, y := Locate(line, NameX(nodeLoc)), OtherPlace(line, NameX(nodeLoc), NameY(nodeLoc));
    x.Some? && y.Some? && OccursOutsideBoth(line, Mark(kind), x.value, y.value)
  }

  lemma MarkAfterWriting(line: string, nodeLoc: bool, kind: bool, p: Point)
    requires Locate(line, NameX(nodeLoc)).Some? && OtherPlace(line, NameX(nodeLoc), NameY(nodeLoc)).Some?
    ensures Contains(WithPoint(line, nodeLoc, p), Mark(kind)) <==> MarkedOutside(line, nodeLoc, kind)
    ensures MarkedOutside(line, nodeLoc, kind) ==> Contains(line, Mark(kind))
  {
    NamesApart(nodeLoc);
    MarksAreMarkers(nodeLoc, kind);
    hide Mark, NameX, NameY, Locate, Contains, At, IsMarker, IsClear, Apart, OtherPlace, ReplaceAttrDouble;
    MarkerAfterBoth(line, NameX(nodeLoc), NameY(nodeLoc), p.x, p.y, Mark(kind));
    ContainsOccurrence(line, Mark(kind));
  }

  /**
   A line that is compacted says the normalised position, to three decimals and with the same kind, if and only if
   it keeps the position and what makes it a line of its kind was not only in the texts that are written over.
   */
  lemma CompactedLineKeepsKind(line: string, box: Box, halfSpan: real, position: Position)
    requires Coordinates(line) == Some(position)
    ensures var n := Normalise(position.p, box, halfSpan);
      Coordinates(Compacted(line, box, halfSpan)) == Some(Position(position.nodeLoc, Point(Rounded(n.x), Rounded(n.y))))
      <==> KeepsPoint(line, position.nodeLoc, n) && MarkedOutside(line, position.nodeLoc, position.nodeLoc)
  {
    var nodeLoc := position.nodeLoc;
    var n := Normalise(position.p, box, halfSpan);
    CoordinatesAreRead(line);
    PointIsLocated(line, nodeLoc);
    KindOfLine(line);
    KindOfLine(WithPoint(line, nodeLoc, n));
    KeptIsFound(line, nodeLoc, n);
    hide *;
    CompactedPosition(line, box, halfSpan);
    WrittenPointReads(line, nodeLoc, n);
    if OtherPlace(line, NameX(nodeLoc), NameY(nodeLoc)).Some? {
      MarkAfterWriting(line, nodeLoc, true, n);
      MarkAfterWriting(line, nodeLoc, false, n);
    }
  }

  lemma KeptIsFound(line: string, nodeLoc: bool, p: Point)
    requires Locate(line, NameY(nodeLoc)).Some?
    ensures KeepsPoint(line, nodeLoc, p) ==> OtherPlace(line, NameX(nodeLoc), NameY(nodeLoc)).Some?
  {
    hide Locate, NameX, NameY;
  }

  lemma PointIsLocated(line: string, nodeLoc: bool)
    requires ReadPoint(line, nodeLoc).Some?
    ensures Locate(line, NameX(nodeLoc)).Some? && Locate(line, NameY(nodeLoc)).Some?
  {
    ReadImpliesLocated(line, NameX(nodeLoc));
    ReadImpliesLocated(line, NameY(nodeLoc));
  }

  /** The kind of a line, and when it says a position of that kind. */
  lemma KindOfLine(line: string)
    ensures Coordinates(line).Some? ==> Coordinates(line).value.nodeLoc == Contains(line, Mark(true))
    ensures forall kind, p :: Coordinates(line) == Some(Position(kind, p)) <==>
      kind == Contains(line, Mark(true)) && (kind || Contains(line, Mark(false))) && ReadPoint(line, kind) == Some(p)
  {
  }

  // ----- Compacting the compact file -----

  /** A line that says a position, and goes on to say what is written, whatever that is. */
  ghost predicate IsFirm(line: string) {
    var c := Coordinates(line);
    c.Some? ==>
      && !Swallows(line, NameY(c.value.nodeLoc), NameX(c.value.nodeLoc))
      && MarkedOutside(line, c.value.nodeLoc, c.value.nodeLoc)
  }

  /** What a firm line says after it is compacted. */
  function After(c: Option<Position>, box: Box, halfSpan: real): Option<Position> {
    if c.None? then None
    else Some(Position(c.value.nodeLoc, RoundPoint(Normalise(c.value.p, box, halfSpan))))
  }

  lemma FirmKeepsPoint(line: string, p: Point)
    requires IsFirm(line) && Coordinates(line).Some?
    ensures KeepsPoint(line, Coordinates(line).value.nodeLoc, p)
  {
    hide Locate, NameX, NameY, Coordinates;
  }

  lemma FirmLineSays(line: string, box: Box, halfSpan: real)
    requires IsFirm(line)
    ensures Coordinates(Compacted(line, box, halfSpan)) == After(Coordinates(line), box, halfSpan)
  {
    hide Coordinates, Normalise, KeepsPoint, MarkedOutside, Swallows, Rounded, NameX, NameY, WithPoint;
    if Coordinates(line).Some? {
      var c := Coordinates(line).value;
      FirmKeepsPoint(line, Normalise(c.p, box, halfSpan));
      CompactedLineKeepsKind(line, box, halfSpan, c);
    }
  }

  lemma WrittenLineIsMarked(line: string, nodeLoc: bool, x: real, y: real)
    requires Locate(line, NameX(nodeLoc)).Some? && Locate(line, NameY(nodeLoc)).Some?
    requires var at := Locate(line, NameX(nodeLoc)).value; line[at.start..at.end] == Print(x)
    requires var at := Locate(line, NameY(nodeLoc)).value; line[at.start..at.end] == Print(y)
    requires !Swallows(line, NameX(nodeLoc), NameY(nodeLoc)) && Contains(line, Mark(nodeLoc))
    ensures MarkedOutside(line, nodeLoc, nodeLoc)
  {
    MarksAreMarkers(nodeLoc, nodeLoc);
    hide Locate, NameX, NameY, Mark, Contains, IsMarker, Print, Swallows;
    MarkerOutsideWritten(line, NameX(nodeLoc), NameY(nodeLoc), x, y, Mark(nodeLoc));
  }

  lemma FirmStaysFirm(line: string, box: Box, halfSpan: real)
    requires IsFirm(line)
    ensures IsFirm(Compacted(line, box, halfSpan))
  {
    FirmLineSays(line, box, halfSpan);
    if Coordinates(line).Some? {
      var c := Coordinates(line).value;
      FirmPlaces(line);
      hide *;
      var n := Normalise(c.p, box, halfSpan);
      CompactedPosition(line, box, halfSpan);
      NamesApart(c.nodeLoc);
      var l := WithPoint(line, c.nodeLoc, n);
      assert WithPoint(line, c.nodeLoc, n)
          == ReplaceAttrDouble(ReplaceAttrDouble(line, NameX(c.nodeLoc), n.x), NameY(c.nodeLoc), n.y) by {
        WithPointIsBoth(line, c.nodeLoc, n);
      }
      WrittenTexts(line, NameX(c.nodeLoc), NameY(c.nodeLoc), n.x, n.y);
      AfterSays(Coordinates(line), box, halfSpan);
      KindIsMarked(l);
      WrittenLineIsMarked(l, c.nodeLoc, n.x, n.y);
      IsFirmByParts(l);
    }
  }

  lemma FirmPlaces(line: string)
    requires IsFirm(line) && Coordinates(line).Some?
    ensures var x, y := NameX(Coordinates(line).value.nodeLoc), NameY(Coordinates(line).value.nodeLoc);
      Locate(line, x).Some? && OtherPlace(line, x, y).Some? && !Swallows(line, y, x)
  {
    hide Locate, NameX, NameY, Coordinates;
  }

  lemma WithPointIsBoth(line: string, nodeLoc: bool, p: Point)
    ensures WithPoint(line, nodeLoc, p)
         == ReplaceAttrDouble(ReplaceAttrDouble(line, NameX(nodeLoc), p.x), NameY(nodeLoc), p.y)
  {
  }

  lemma AfterSays(c: Option<Position>, box: Box, halfSpan: real)
    requires c.Some?
    ensures var after := After(c, box, halfSpan); after.Some? && after.value.nodeLoc == c.value.nodeLoc
  {
  }

  lemma KindIsMarked(line: string)
    requires Coordinates(line).Some?
    ensures Contains(line, Mark(Coordinates(line).value.nodeLoc))
  {
    hide Contains, Mark, ReadPoint;
  }

  lemma IsFirmByParts(line: string)
    requires Coordinates(line).Some?
    requires var k := Coordinates(line).value.nodeLoc;
      !Swallows(line, NameY(k), NameX(k)) && MarkedOutside(line, k, k)
    ensures IsFirm(line)
  {
  }

  lemma {:induction false} RefsOfCompacted(lines: seq<string>, once: seq<string>, n: nat, box: Box, halfSpan: real)
    requires n <= |lines| == |once|
    requires forall i :: 0 <= i < n ==> Coordinates(once[i]) == After(Coordinates(lines[i]), box, halfSpan)
    ensures Points(Refs(once, n)) == RoundAll(NormaliseAll(Points(Refs(lines, n)), box, halfSpan))
  {
    hide Coordinates, Normalise, RoundPoint;
    if n > 0 {
      RefsOfCompacted(lines, once, n - 1, box, halfSpan);
      var k := |Refs(lines, n - 1)|;
      assert |Refs(once, n - 1)| == |Points(Refs(once, n - 1))| == |Points(Refs(lines, n - 1))| == k;
      assert forall i :: 0 <= i < k ==> Points(Refs(once, n))[i] == Points(Refs(once, n - 1))[i];
      assert forall i :: 0 <= i < k ==> Points(Refs(lines, n))[i] == Points(Refs(lines, n - 1))[i];
    }
  }

  /**
   The compact file of a compact file says the same positions, to three decimals: if the half span is in whole
   thousandths and the positions settle for it, and every line with a position is firm.
   */
  lemma CompactingTwice(lines: seq<string>, once: seq<string>, box: Box, box': Box, halfSpan: real)
    requires IsBox(Points(Refs(lines, |lines|)), box) && AllCompacted(lines, box, halfSpan, once)
    requires IsBox(Points(Refs(once, |once|)), box')
    requires forall i :: 0 <= i < |lines| ==> IsFirm(lines[i])
    requires SettlesAt(Extent(box), halfSpan) && IsWhole(halfSpan)
    ensures forall i :: 0 <= i < |once| ==> Coordinates(Compacted(once[i], box', halfSpan)) == Coordinates(once[i])
  {
    hide IsBox, IsFirm, Coordinates, Compacted, SettlesAt, IsWhole, Refs, RoundAll, NormaliseAll, Points, After;
    forall i | 0 <= i < |lines| ensures Coordinates(once[i]) == After(Coordinates(lines[i]), box, halfSpan) {
      assert once[i] == Compacted(lines[i], box, halfSpan);
      FirmLineSays(lines[i], box, halfSpan);
    }
    RefsOfCompacted(lines, once, |lines|, box, halfSpan);
    var points := Points(Refs(once, |once|));
    RoundedPointsSettle(Points(Refs(lines, |lines|)), box, halfSpan, box');
    forall i: nat | i < |once| ensures Coordinates(Compacted(once[i], box', halfSpan)) == Coordinates(once[i]) {
      assert once[i] == Compacted(lines[i], box, halfSpan);
      FirmStaysFirm(lines[i], box, halfSpan);
      FirmLineSays(once[i], box', halfSpan);
      SettledLine(once, i, box', halfSpan);
    }
  }

  lemma SettledLine(lines: seq<string>, i: nat, box: Box, halfSpan: real)
    requires i < |lines|
    requires var points := Points(Refs(lines, |lines|)); RoundAll(NormaliseAll(points, box, halfSpan)) == points
    ensures After(Coordinates(lines[i]), box, halfSpan) == Coordinates(lines[i])
  {
    hide Coordinates, Refs, RoundPoint, Normalise;
    if Coordinates(lines[i]).Some? {
      var k := RefOfLine(lines, i);
      var points := Points(Refs(lines, |lines|));
      assert RoundAll(NormaliseAll(points, box, halfSpan))[k] == RoundPoint(Normalise(points[k], box, halfSpan));
    }
  }

  // ----- Lines that lose a coordinate -----

  /** The second coordinate is read where the text of the first ends. */
  const LOSES_SECOND: string := "<nu p=\"p\" x=\"1 y=\" 5\""

  /** And the other way round. */
  const LOSES_FIRST: string := "<nu p=\"p\" y=\"2 x=\" 3\""

  lemma ReadInPlace(line: string, attr: string, span: Span, r: real)
    requires Locate(line, attr) == Some(span) && Parse(line[span.start..span.end]) == Some(r)
    ensures TryReadAttrDouble(line, attr) == Some(r)
  {
  }

  lemma NotThere(line: string, attr: string)
    requires attr != "" && attr[0] !in line
    ensures Locate(line, attr).None? && TryReadAttrDouble(line, attr).None?
  {
    if Locate(line, attr).Some? {
      Located(line, attr);
      var i: nat := Locate(line, attr).value.start - |Token(attr)|;
      FirstLetter(line, Token(attr), i);
      assert false;
    }
  }

  lemma ReadsOneAndFive()
    ensures Locate(LOSES_SECOND, "x") == Some(Span(13, 17)) && Locate(LOSES_SECOND, "y") == Some(Span(18, 20))
    ensures TryReadAttrDouble(LOSES_SECOND, "x") == Some(1.0) && TryReadAttrDouble(LOSES_SECOND, "y") == Some(5.0)
  {
    hide Locate, Parse, SkipSpaces;
    var line := LOSES_SECOND;
    assert At(line, Token("x"), 10) && At(line, Token("y"), 15);
    FirstByLetter(line, "x", Span(13, 17));
    FirstByLetter(line, "y", Span(18, 20));
    assert line[13..17] == [Digit(1)] + " y=" && line[18..20] == " " + "5";
    ParsedDigitBefore(1, " y=");
    ParsedDigit("5", 5);
    SpaceIsSkipped("5");
    ReadInPlace(line, "x", Span(13, 17), 1.0);
    ReadInPlace(line, "y", Span(18, 20), 5.0);
  }

  lemma ReadsTwoAndThree()
    ensures Locate(LOSES_FIRST, "y") == Some(Span(13, 17)) && Locate(LOSES_FIRST, "x") == Some(Span(18, 20))
    ensures TryReadAttrDouble(LOSES_FIRST, "y") == Some(2.0) && TryReadAttrDouble(LOSES_FIRST, "x") == Some(3.0)
  {
    hide Locate, Parse, SkipSpaces;
    var line := LOSES_FIRST;
    assert At(line, Token("y"), 10) && At(line, Token("x"), 15);
    FirstByLetter(line, "y", Span(13, 17));
    FirstByLetter(line, "x", Span(18, 20));
    assert line[13..17] == [Digit(2)] + " x=" && line[18..20] == " " + "3";
    ParsedDigitBefore(2, " x=");
    ParsedDigit("3", 3);
    SpaceIsSkipped("3");
    ReadInPlace(line, "y", Span(13, 17), 2.0);
    ReadInPlace(line, "x", Span(18, 20), 3.0);
  }

  lemma MarksOfExamples()
    ensures Contains(LOSES_SECOND, Mark(false)) && !Contains(LOSES_SECOND, Mark(true))
    ensures Contains(LOSES_FIRST, Mark(false)) && !Contains(LOSES_FIRST, Mark(true))
  {
    assert At(LOSES_SECOND, Mark(false), 0) && At(LOSES_FIRST, Mark(false), 0);
    ContainsOccurrence(LOSES_SECOND, Mark(false));
    ContainsOccurrence(LOSES_FIRST, Mark(false));
    NoSecondLetter(LOSES_SECOND);
    NoSecondLetter(LOSES_FIRST);
  }

  lemma NoSecondLetter(line: string)
    requires 'o' !in line
    ensures !Contains(line, Mark(true))
  {
    ContainsOccurrence(line, Mark(true));
    forall i: nat ensures !At(line, Mark(true), i) {
      ThirdLetter(line, i);
    }
  }

  lemma ThirdLetter(line: string, i: nat)
    ensures At(line, Mark(true), i) ==> line[i + 2] == 'o'
  {
    assert At(line, Mark(true), i) ==> line[i..i + |Mark(true)|][2] == Mark(true)[2];
  }

  lemma PointsOfExamples()
    ensures Coordinates(LOSES_SECOND) == Some(Position(false, Point(1.0, 5.0)))
    ensures Coordinates(LOSES_FIRST) == Some(Position(false, Point(3.0, 2.0)))
  {
    ReadsOneAndFive();
    ReadsTwoAndThree();
    MarksOfExamples();
    hide TryReadAttrDouble, Contains, Mark;
  }

  lemma NothingBehind()
    ensures Locate(LOSES_SECOND[17..], "y").None? && TryReadAttrDouble(LOSES_FIRST[20..], "x").None?
  {
    assert LOSES_SECOND[17..] == "\" 5\"" && LOSES_FIRST[20..] == "\"";
    NotThere("\" 5\"", "y");
    NotThere("\"", "x");
  }

  lemma SecondIsLost(p: Point)
    ensures !KeepsPoint(LOSES_SECOND, false, p)
  {
    hide TryReadAttrDouble, Locate, Rounded, LOSES_SECOND, LOSES_FIRST;
    ReadsOneAndFive();
    NothingBehind();
  }

  lemma FirstIsLost(p: Point)
    ensures !KeepsPoint(LOSES_FIRST, false, p)
  {
    hide TryReadAttrDouble, Locate, Rounded, LOSES_SECOND, LOSES_FIRST;
    ReadsTwoAndThree();
    NothingBehind();
  }

  /** Two lines that say a position, (1, 5) and (3, 2), and do not say what is written, whatever that is. */
  lemma WrittenPointMayBeLost(p: Point)
    ensures Coordinates(LOSES_SECOND) == Some(Position(false, Point(1.0, 5.0)))
    ensures Coordinates(LOSES_FIRST) == Some(Position(false, Point(3.0, 2.0)))
    ensures var q := Some(Point(Rounded(p.x), Rounded(p.y)));
      && ReadPoint(WithPoint(LOSES_SECOND, false, p), false) != q
      && ReadPoint(WithPoint(LOSES_FIRST, false, p), false) != q
  {
    hide *;
    PointsOfExamples();
    CoordinatesAreRead(LOSES_SECOND);
    CoordinatesAreRead(LOSES_FIRST);
    SecondIsLost(p);
    FirstIsLost(p);
    WrittenPointReads(LOSES_SECOND, false, p);
    WrittenPointReads(LOSES_FIRST, false, p);
  }

  // ----- A node -----

  const NODE_LINE: string := "<node id=\"0\" locX=\"1\" locY=\"2\"/>"

  lemma NodeTokens()
    ensures Token("locX") == "locX=\"" && Token("locY") == "locY=\""
    ensures NODE_LINE[13..19] == "locX=\"" && NODE_LINE[22..28] == "locY=\""
  {
    assert "locX" + "=\"" == "locX=\"" && "locY" + "=\"" == "locY=\"";
  }

  lemma NodeQuotes()
    ensures Quoted(NODE_LINE, Span(19, 20)) && Quoted(NODE_LINE, Span(28, 29))
  {
  }

  lemma NodeLetters()
    ensures forall k: nat :: k < 13 ==> NODE_LINE[k] != 'l'
    ensures forall k: nat :: 3 <= k < 25 ==> NODE_LINE[k] != 'Y'
  {
  }

  lemma NodeSpans()
    ensures Locate(NODE_LINE, "locX") == Some(Span(19, 20)) && Locate(NODE_LINE, "locY") == Some(Span(28, 29))
  {
    NodeTokens();
    NodeQuotes();
    NodeLetters();
    assert |NODE_LINE| == 32;
    hide Locate, NODE_LINE, Token, Quoted;
    assert |Token("locX")| == 6 && |Token("locY")| == 6 && At(NODE_LINE, Token("locX"), 13);
    assert At(NODE_LINE, Token("locY"), 22);
    hide At;
    FirstByLetter(NODE_LINE, "locX", Span(19, 20));
    FirstByFourth(NODE_LINE, "locY", Span(28, 29));
  }

  lemma FirstByFourth(line: string, attr: string, span: Span)
    requires Quoted(line, span) && |attr| > 3
    requires |Token(attr)| <= span.start && At(line, Token(attr), span.start - |Token(attr)|)
    requires forall k :: 3 <= k < span.start - |Token(attr)| + 3 && k < |line| ==> line[k] != attr[3]
    ensures Locate(line, attr) == Some(span)
  {
    var t := Token(attr);
    forall i: nat | i < span.start - |t| ensures !At(line, t, i) {
      FourthLetter(line, t, i);
    }
    LocatedIsUnique(line, attr, span);
  }

  lemma FourthLetter(line: string, token: string, i: nat)
    requires |token| > 3
    ensures At(line, token, i) ==> i + 3 < |line| && line[i + 3] == token[3]
  {
    assert At(line, token, i) ==> line[i..i + |token|][3] == token[3];
  }

  lemma OneLetter(line: string, i: nat)
    requires i < |line|
    ensures line[i..i + 1] == [line[i]]
  {
  }

  lemma NodeTexts()
    ensures |NODE_LINE| == 32 && NODE_LINE[19..20] == "1" && NODE_LINE[28..29] == "2"
  {
    assert NODE_LINE[19] == '1' && NODE_LINE[28] == '2';
    OneLetter(NODE_LINE, 19);
    OneLetter(NODE_LINE, 28);
  }

  lemma NodeMark()
    ensures Contains(NODE_LINE, Mark(true))
  {
    var mark := Mark(true);
    assert mark == "<node " && |mark| == 6;
    assert NODE_LINE[0..6] == mark;
    ContainsOccurrence(NODE_LINE, mark);
    assert At(NODE_LINE, mark, 0);
  }

  lemma NodePoint()
    ensures ReadPoint(NODE_LINE, true) == Some(Point(1.0, 2.0))
  {
    NodeSpans();
    NodeTexts();
    hide Locate, Parse, NODE_LINE;
    ParsedDigit("1", 1);
    ParsedDigit("2", 2);
    ReadInPlace(NODE_LINE, "locX", Span(19, 20), 1.0);
    ReadInPlace(NODE_LINE, "locY", Span(28, 29), 2.0);
    hide TryReadAttrDouble;
  }

  lemma ReadAsNode(line: string, p: Point)
    requires Contains(line, Mark(true)) && ReadPoint(line, true) == Some(p)
    ensures Coordinates(line) == Some(Position(true, p))
  {
  }

  /** A node says its place by other names, and an element of either kind is known by how it begins. */
  lemma NodeIsRead()
    ensures Coordinates("<node id=\"0\" locX=\"1\" locY=\"2\"/>") == Some(Position(true, Point(1.0, 2.0)))
  {
    hide ReadPoint, Contains, Coordinates;
    NodeMark();
    NodePoint();
    ReadAsNode(NODE_LINE, Point(1.0, 2.0));
  }
}
