/**
 * The acceptance filter of `detect_pillars` (app.py): walk the external
 * contours in the order they were found, keep those whose area exceeds
 * MIN_AREA and whose bounding box is taller than MIN_HEIGHT (and, under the
 * strict policy of the commented-out variant, whose width/height ratio lies
 * in [0.1, 0.8]), draw each kept contour in its own colour on a copy of the
 * image and collect its points.
 *
 * Contour tracing, `cv2.contourArea` and `cv2.boundingRect` are outside the
 * model: each contour arrives with its area and bounding-box size already
 * measured.
 */
module Detection {

  const MIN_AREA: int := 100
  const MIN_HEIGHT: int := 5
  /** The aspect-ratio band of the strict policy. */
  const MIN_ASPECT: real := 0.1
  const MAX_ASPECT: real := 0.8
  /** Stroke width passed to `cv2.drawContours`. */
  const OUTLINE_THICKNESS: nat := 2

  datatype Point = Point(x: int, y: int)

  /**
   * One external contour as found in the binary mask, with its measurements:
   * `twiceArea` is twice the enclosed polygon area (the shoelace area of
   * integer points is a multiple of 1/2), `w` and `h` the bounding-box size.
   */
  datatype Contour = Contour(points: seq<Point>, twiceArea: nat, w: nat, h: nat)

  /** One colour channel, as `np.random.randint(0, 256)` draws it. */
  type Channel = c: int | 0 <= c < 256

  datatype Color = Rgb(r: Channel, g: Channel, b: Channel)

  /** The source of display colours: the k-th accepted pillar gets colour k. */
  type Palette = nat -> Color

  /** An outline drawn onto the copy of the input image. */
  datatype Outline = Outline(points: seq<Point>, color: Color, thickness: nat)

  datatype Outcome =
    | Detected(pillars: seq<seq<Point>>, outlines: seq<Outline>)
      /** The strict variant divides by the height of contour `index`, which is 0. */
    | ZeroHeight(index: nat)

  /**
   * The acceptance predicate in exact integer form:
   * area > MIN_AREA is twiceArea > 2 * MIN_AREA, and for h > 0 the band
   * 0.1 <= w/h <= 0.8 is 10w >= h and 5w <= 4h (see AcceptedMatchesRatio).
   */
  predicate Accepted(c: Contour, strict: bool) {
    c.twiceArea > 2 * MIN_AREA && c.h > MIN_HEIGHT &&
    (strict ==> 10 * c.w >= c.h && 5 * c.w <= 4 * c.h)
  }

  /** The point lists of the accepted contours, in discovery order. */
  function Filter(cs: seq<Contour>, strict: bool): seq<seq<Point>> {
    if cs == [] then []
    else
      var last := cs[|cs| - 1];
      Filter(cs[..|cs| - 1], strict) + (if Accepted(last, strict) then [last.points] else [])
  }

  /** The positions, in the input, of the accepted contours. */
  function Selected(cs: seq<Contour>, strict: bool): seq<nat> {
    if cs == [] then []
    else
      Selected(cs[..|cs| - 1], strict) + (if Accepted(cs[|cs| - 1], strict) then [|cs| - 1] else [])
  }

  function AcceptedSet(cs: seq<Contour>, strict: bool): set<nat> {
    set i: nat | i < |cs| && Accepted(cs[i], strict)
  }

  predicate StrictlyIncreasing(idx: seq<nat>) {
    forall k, l :: 0 <= k < l < |idx| ==> idx[k] < idx[l]
  }

  /** `a` is `b` with some elements left out, the rest kept in order. */
  ghost predicate SubsequenceVia<T>(a: seq<T>, b: seq<T>, idx: seq<nat>) {
    |idx| == |a| && StrictlyIncreasing(idx) &&
    forall k :: 0 <= k < |idx| ==> idx[k] < |b| && a[k] == b[idx[k]]
  }

  ghost predicate IsSubsequence<T>(a: seq<T>, b: seq<T>) {
    exists idx: seq<nat> :: SubsequenceVia(a, b, idx)
  }

  /**
   * The loop of `detect_pillars`. Under the strict policy the source
   * computes `float(w) / h` before testing anything, so the first contour
   * of height 0 ends the run with an error.
   */
  method DetectPillars(contours: seq<Contour>, strict: bool, palette: Palette)
    returns (result: Outcome)
    ensures result.ZeroHeight? <==> strict && exists i :: 0 <= i < |contours| && contours[i].h == 0
    ensures result.ZeroHeight? ==>
      result.index < |contours| && contours[result.index].h == 0 &&
      forall j :: 0 <= j < result.index ==> contours[j].h != 0
    ensures result.Detected? ==>
      result.pillars == Filter(contours, strict) &&
      |result.outlines| == |result.pillars| &&
      forall k :: 0 <= k < |result.outlines| ==>
        result.outlines[k] == Outline(result.pillars[k], palette(k), OUTLINE_THICKNESS)
  {
    var pillars: seq<seq<Point>> := [];
    var outlines: seq<Outline> := [];
    for i := 0 to |contours|
      invariant pillars == Filter(contours[..i], strict)
      invariant |outlines| == |pillars|
      invariant forall k :: 0 <= k < |outlines| ==>
        outlines[k] == Outline(pillars[k], palette(k), OUTLINE_THICKNESS)
      invariant strict ==> forall j :: 0 <= j < i ==> contours[j].h != 0
    {
      var contour := contours[i];
      if strict && contour.h == 0 {
        return ZeroHeight(i);
      }
      assert contours[..i + 1][..i] == contours[..i];
      if Accepted(contour, strict) {
        outlines := outlines + [Outline(contour.points, palette(|pillars|), OUTLINE_THICKNESS)];
        pillars := pillars + [contour.points];
      }
    }
    assert contours[..|contours|] == contours;
    result := Detected(pillars, outlines);
  }

  lemma SignOfProduct(a: real, scale: real)
    requires scale > 0.0
    ensures a >= 0.0 <==> a * scale >= 0.0
  {
    if a < 0.0 {
      assert (0.0 - a) * scale > 0.0;
    }
  }

  /** For h > 0, the band 0.1 <= w/h <= 0.8 in integers. */
  lemma RatioBand(w: nat, h: nat)
    requires h > 0
    ensures MIN_ASPECT <= w as real / h as real <==> h <= 10 * w
    ensures w as real / h as real <= MAX_ASPECT <==> 5 * w <= 4 * h
  {
    var ratio, height := w as real / h as real, h as real;
    assert ratio * height == w as real;
    SignOfProduct(10.0 * ratio - 1.0, height);
    assert (10.0 * ratio - 1.0) * height == (10 * w - h) as real;
    SignOfProduct(4.0 - 5.0 * ratio, height);
    assert (4.0 - 5.0 * ratio) * height == (4 * h - 5 * w) as real;
  }

  /**
   * The integer predicate is the source's test: area > 100 and h > 5, and
   * under the strict policy 0.1 <= w/h <= 0.8 on exact ratios.
   */
  lemma AcceptedMatchesRatio(c: Contour, strict: bool)
    ensures Accepted(c, strict) <==>
      (c.twiceArea as real / 2.0 > MIN_AREA as real && c.h > MIN_HEIGHT &&
       (strict ==> MIN_ASPECT <= c.w as real / c.h as real <= MAX_ASPECT))
  {
    if c.h > 0 {
      RatioBand(c.w, c.h);
    }
  }

  /** Every strictly accepted contour is accepted by the baseline policy. */
  lemma StrictImpliesBaseline(c: Contour)
    ensures Accepted(c, true) ==> Accepted(c, false)
  {
  }

  /**
   * The result is exactly the accepted contours' own point lists, in the
   * order the contours were found: the selected positions increase, each
   * names an accepted contour whose points are the k-th pillar, and no
   * accepted contour is missing.
   */
  lemma {:induction false} FilterSelects(cs: seq<Contour>, strict: bool)
    ensures var idx := Selected(cs, strict);
      |idx| == |Filter(cs, strict)| && StrictlyIncreasing(idx) &&
      (forall k :: 0 <= k < |idx| ==>
         idx[k] < |cs| && Accepted(cs[idx[k]], strict) && Filter(cs, strict)[k] == cs[idx[k]].points) &&
      (forall i :: 0 <= i < |cs| && Accepted(cs[i], strict) ==> i in idx)
  {
    if cs != [] {
      var pre := cs[..|cs| - 1];
      FilterSelects(pre, strict);
      assert forall i :: 0 <= i < |pre| ==> pre[i] == cs[i];
    }
  }

  /** Each pillar's contour passed the filter: area > 100 and height > 5. */
  lemma EveryPillarPassed(cs: seq<Contour>, strict: bool, k: nat)
    requires k < |Filter(cs, strict)|
    ensures exists i :: (0 <= i < |cs| && Filter(cs, strict)[k] == cs[i].points &&
                         cs[i].twiceArea > 2 * MIN_AREA && cs[i].h > MIN_HEIGHT &&
                         (strict ==> 10 * cs[i].w >= cs[i].h && 5 * cs[i].w <= 4 * cs[i].h))
  {
    FilterSelects(cs, strict);
    var i := Selected(cs, strict)[k];
    assert Accepted(cs[i], strict);
  }

  /** The pillars are a subsequence of the contours' point lists. */
  lemma FilterIsSubsequence(cs: seq<Contour>, strict: bool)
    ensures IsSubsequence(Filter(cs, strict), seq(|cs|, i requires 0 <= i < |cs| => cs[i].points))
  {
    FilterSelects(cs, strict);
    assert SubsequenceVia(Filter(cs, strict), seq(|cs|, i requires 0 <= i < |cs| => cs[i].points),
                          Selected(cs, strict));
  }

  lemma {:induction false} SelectedElements(cs: seq<Contour>, strict: bool)
    ensures forall k :: 0 <= k < |Selected(cs, strict)| ==> Selected(cs, strict)[k] in AcceptedSet(cs, strict)
    ensures forall i :: i in AcceptedSet(cs, strict) ==> i in Selected(cs, strict)
  {
    FilterSelects(cs, strict);
  }

  /** A sequence without repetitions has as many elements as its set. */
  lemma {:induction false} DistinctCardinality(idx: seq<nat>)
    requires StrictlyIncreasing(idx)
    ensures |set k | 0 <= k < |idx| :: idx[k]| == |idx|
  {
    if idx != [] {
      var pre := idx[..|idx| - 1];
      DistinctCardinality(pre);
      var s := set k | 0 <= k < |idx| :: idx[k];
      var p := set k | 0 <= k < |pre| :: pre[k];
      assert s == p + {idx[|idx| - 1]};
      assert idx[|idx| - 1] !in p;
    }
  }

  /** The number of pillars is the number of contours that pass the filter. */
  lemma CountMatches(cs: seq<Contour>, strict: bool)
    ensures |Filter(cs, strict)| == |AcceptedSet(cs, strict)|
  {
    var idx := Selected(cs, strict);
    FilterSelects(cs, strict);
    SelectedElements(cs, strict);
    DistinctCardinality(idx);
    assert (set k | 0 <= k < |idx| :: idx[k]) == AcceptedSet(cs, strict);
  }

  /** No pillar at all exactly when no contour passes: an empty list, not an error. */
  lemma {:induction false} EmptyWhenNoneAccepted(cs: seq<Contour>, strict: bool)
    ensures Filter(cs, strict) == [] <==> forall i :: 0 <= i < |cs| ==> !Accepted(cs[i], strict)
  {
    if cs != [] {
      var pre := cs[..|cs| - 1];
      EmptyWhenNoneAccepted(pre, strict);
      assert forall i :: 0 <= i < |pre| ==> pre[i] == cs[i];
    }
  }

  /** The strict policy keeps a subsequence of what the baseline keeps. */
  lemma {:induction false} StrictWithinBaseline(cs: seq<Contour>)
    ensures IsSubsequence(Filter(cs, true), Filter(cs, false))
  {
    if cs == [] {
      assert SubsequenceVia<seq<Point>>([], [], []);
    } else {
      var pre := cs[..|cs| - 1];
      var last := cs[|cs| - 1];
      StrictWithinBaseline(pre);
      var a, b := Filter(pre, true), Filter(pre, false);
      var idx: seq<nat> :| SubsequenceVia(a, b, idx);
      StrictImpliesBaseline(last);
      if Accepted(last, true) {
        assert SubsequenceVia(a + [last.points], b + [last.points], idx + [|b|]);
      } else if Accepted(last, false) {
        assert Filter(cs, true) == a && Filter(cs, false) == b + [last.points];
        assert SubsequenceVia(a, b + [last.points], idx);
      } else {
        assert Filter(cs, true) == a && Filter(cs, false) == b;
        assert SubsequenceVia(a, b, idx);
      }
    }
  }

  /**
   * Worked cases: a 10x50 upright bar is a pillar under both policies, a
   * 50x50 square only under the baseline, a 20x3 bar under neither, and a
   * 100x5 bar, large as its area is, under neither because it is not taller
   * than MIN_HEIGHT.
   */
  lemma Scenarios()
    ensures Accepted(Contour([Point(0, 0), Point(0, 49), Point(9, 49), Point(9, 0)], 882, 10, 50), false)
    ensures Accepted(Contour([Point(0, 0), Point(0, 49), Point(9, 49), Point(9, 0)], 882, 10, 50), true)
    ensures Accepted(Contour([Point(0, 0), Point(0, 49), Point(49, 49), Point(49, 0)], 4802, 50, 50), false)
    ensures !Accepted(Contour([Point(0, 0), Point(0, 49), Point(49, 49), Point(49, 0)], 4802, 50, 50), true)
    ensures !Accepted(Contour([Point(0, 0), Point(0, 2), Point(19, 2), Point(19, 0)], 76, 20, 3), false)
    ensures !Accepted(Contour([Point(0, 0), Point(0, 2), Point(19, 2), Point(19, 0)], 76, 20, 3), true)
    ensures !Accepted(Contour([Point(0, 0), Point(0, 4), Point(99, 4), Point(99, 0)], 792, 100, 5), false)
    ensures !Accepted(Contour([Point(0, 0), Point(0, 4), Point(99, 4), Point(99, 0)], 792, 100, 5), true)
  {
  }
}
