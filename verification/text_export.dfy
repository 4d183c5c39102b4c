/**
 * The text export of the earlier version of app.py (`save_points_to_text`,
 * kept there as comments): for each pillar in order a header line
 * "Pillar k:", one "x,y" line per point, then a blank line. The parser
 * below is the inverse used to show that the export loses nothing.
 */
module TextExport {
  import opened Options
  import opened Decimal
  import opened Detection

  /** `f"Pillar {ordinal}:"`, without its line break. */
  function Header(ordinal: nat): string {
    "Pillar " + NatToDecimal(ordinal) + ":"
  }

  /** `f"{x},{y}"`, without its line break. */
  function PointLine(p: Point): string {
    IntToDecimal(p.x) + "," + IntToDecimal(p.y)
  }

  function PointLines(points: seq<Point>): seq<string> {
    seq(|points|, j requires 0 <= j < |points| => PointLine(points[j]))
  }

  /** The lines of one pillar: its header, its points, a blank line. */
  function BlockLines(ordinal: nat, points: seq<Point>): seq<string> {
    [Header(ordinal)] + PointLines(points) + [""]
  }

  /** The lines of the pillars, numbered from `ordinal` on. */
  function LinesFrom(pillars: seq<seq<Point>>, ordinal: nat): seq<string> {
    if pillars == [] then []
    else BlockLines(ordinal, pillars[0]) + LinesFrom(pillars[1..], ordinal + 1)
  }

  /** Each line followed by a line break. */
  function JoinLines(lines: seq<string>): string {
    if lines == [] then ""
    else JoinLines(lines[..|lines| - 1]) + lines[|lines| - 1] + "\n"
  }

  function PointsText(pillars: seq<seq<Point>>): string {
    JoinLines(LinesFrom(pillars, 1))
  }

  /** The nested loops that accumulate `points_text`. */
  method SavePointsToText(pillars: seq<seq<Point>>) returns (pointsText: string)
    ensures pointsText == PointsText(pillars)
  {
    pointsText := "";
    for i := 0 to |pillars|
      invariant pointsText == PointsText(pillars[..i])
    {
      var points := pillars[i];
      ghost var head := LinesFrom(pillars[..i], 1) + [Header(i + 1)];
      pointsText := pointsText + Header(i + 1) + "\n";
      HeaderStep(pillars, i);
      for j := 0 to |points|
        invariant pointsText == JoinLines(head + PointLines(points[..j]))
      {
        pointsText := pointsText + PointLine(points[j]) + "\n";
        PointStep(head, points, j);
      }
      pointsText := pointsText + "\n";
      BlockStep(pillars, i);
    }
    assert pillars[..|pillars|] == pillars;
  }

  /** Writing the header of pillar i starts its block. */
  lemma HeaderStep(pillars: seq<seq<Point>>, i: nat)
    requires i < |pillars|
    ensures PointsText(pillars[..i]) + Header(i + 1) + "\n" ==
      JoinLines(LinesFrom(pillars[..i], 1) + [Header(i + 1)] + PointLines(pillars[i][..0]))
  {
    var head := LinesFrom(pillars[..i], 1) + [Header(i + 1)];
    AppendLine(LinesFrom(pillars[..i], 1), Header(i + 1));
    assert head + PointLines(pillars[i][..0]) == head;
  }

  /** The blank line after the points of pillar i completes the first i + 1 blocks. */
  lemma BlockStep(pillars: seq<seq<Point>>, i: nat)
    requires i < |pillars|
    ensures JoinLines(LinesFrom(pillars[..i], 1) + [Header(i + 1)] + PointLines(pillars[i][..|pillars[i]|])) + "\n" ==
      PointsText(pillars[..i + 1])
  {
    var body := LinesFrom(pillars[..i], 1) + [Header(i + 1)] + PointLines(pillars[i][..|pillars[i]|]);
    AppendLine(body, "");
    assert JoinLines(body) + "" + "\n" == JoinLines(body) + "\n";
    BlockDone(pillars, i);
  }

  lemma AppendLine(lines: seq<string>, line: string)
    ensures JoinLines(lines + [line]) == JoinLines(lines) + line + "\n"
  {
    assert (lines + [line])[..|lines|] == lines;
  }

  lemma PointLinesSnoc(points: seq<Point>, j: nat)
    requires j < |points|
    ensures PointLines(points[..j + 1]) == PointLines(points[..j]) + [PointLine(points[j])]
  {
  }

  /** Writing the line of point j extends the text by that line. */
  lemma PointStep(head: seq<string>, points: seq<Point>, j: nat)
    requires j < |points|
    ensures JoinLines(head + PointLines(points[..j])) + PointLine(points[j]) + "\n" ==
      JoinLines(head + PointLines(points[..j + 1]))
  {
    var line := PointLine(points[j]);
    var before := head + PointLines(points[..j]);
    AppendLine(before, line);
    PointLinesSnoc(points, j);
    assert before + [line] == head + PointLines(points[..j + 1]) by {
      assert head + (PointLines(points[..j]) + [line]) == before + [line];
    }
  }

  /** After pillar i, the lines so far are those of the first i + 1 pillars. */
  lemma BlockDone(pillars: seq<seq<Point>>, i: nat)
    requires i < |pillars|
    ensures LinesFrom(pillars[..i + 1], 1) ==
      LinesFrom(pillars[..i], 1) + [Header(i + 1)] + PointLines(pillars[i][..|pillars[i]|]) + [""]
  {
    assert pillars[i][..|pillars[i]|] == pillars[i];
    assert pillars[..i + 1] == pillars[..i] + [pillars[i]];
    LinesFromSnoc(pillars[..i], pillars[i], 1);
  }

  lemma {:induction false} LinesFromSnoc(pillars: seq<seq<Point>>, points: seq<Point>, ordinal: nat)
    ensures LinesFrom(pillars + [points], ordinal) ==
      LinesFrom(pillars, ordinal) + BlockLines(ordinal + |pillars|, points)
  {
    if pillars != [] {
      assert (pillars + [points])[1..] == pillars[1..] + [points];
      LinesFromSnoc(pillars[1..], points, ordinal + 1);
    }
  }

  // Reading the text back.

  /** The position of the first `ch` in `s`, or |s| when there is none. */
  function IndexOf(s: string, ch: char): (n: nat)
    ensures n <= |s|
    ensures forall i :: 0 <= i < n ==> s[i] != ch
    ensures n < |s| ==> s[n] == ch
  {
    if s == [] then 0
    else if s[0] == ch then 0
    else 1 + IndexOf(s[1..], ch)
  }

  /** Cut text into lines at its line breaks. */
  function SplitLines(text: string): seq<string>
    decreases |text|
  {
    if text == [] then []
    else
      var n := IndexOf(text, '\n');
      if n == |text| then [text]
      else [text[..n]] + SplitLines(text[n + 1..])
  }

  /** Parse "x,y". */
  function ParsePoint(line: string): Option<Point> {
    var c := IndexOf(line, ',');
    if c == |line| then None
    else
      match (ParseInt(line[..c]), ParseInt(line[c + 1..]))
      case (Some(x), Some(y)) => Some(Point(x, y))
      case _ => None
  }

  /** Point lines up to and including the blank line that ends a pillar. */
  function ParseBody(lines: seq<string>): (r: Option<(seq<Point>, seq<string>)>)
    ensures r.Some? ==> |r.value.1| < |lines|
  {
    if lines == [] then None
    else if lines[0] == "" then Some(([], lines[1..]))
    else
      match ParsePoint(lines[0])
      case None => None
      case Some(p) =>
        match ParseBody(lines[1..])
        case None => None
        case Some((points, rest)) => Some(([p] + points, rest))
  }

  /** Pillars numbered from `ordinal` on, each header carrying its number. */
  function ParseBlocks(lines: seq<string>, ordinal: nat): Option<seq<seq<Point>>>
    decreases |lines|
  {
    if lines == [] then Some([])
    else if lines[0] != Header(ordinal) then None
    else
      match ParseBody(lines[1..])
      case None => None
      case Some((points, rest)) =>
        match ParseBlocks(rest, ordinal + 1)
        case None => None
        case Some(more) => Some([points] + more)
  }

  function ParsePointsText(text: string): Option<seq<seq<Point>>> {
    ParseBlocks(SplitLines(text), 1)
  }

  lemma {:induction false} IndexOfAfter(s: string, ch: char, t: string)
    requires forall i :: 0 <= i < |s| ==> s[i] != ch
    ensures IndexOf(s + [ch] + t, ch) == |s|
  {
    if s != [] {
      assert (s + [ch] + t)[1..] == s[1..] + [ch] + t;
      IndexOfAfter(s[1..], ch, t);
    }
  }

  lemma PointRoundTrip(p: Point)
    ensures ParsePoint(PointLine(p)) == Some(p)
  {
    var xs, ys := IntToDecimal(p.x), IntToDecimal(p.y);
    var line := PointLine(p);
    IndexOfAfter(xs, ',', ys);
    assert line[..|xs|] == xs;
    assert line[|xs| + 1..] == ys;
    IntRoundTrip(p.x);
    IntRoundTrip(p.y);
  }

  /** A point line followed by a well-formed body parses as that point and the body's points. */
  lemma ParseBodyCons(lines: seq<string>, points: seq<Point>, rest: seq<string>)
    requires points != [] && lines != [] && lines[0] == PointLine(points[0])
    requires ParseBody(lines[1..]) == Some((points[1..], rest))
    ensures ParseBody(lines) == Some((points, rest))
  {
    PointRoundTrip(points[0]);
    assert lines[0] != "" by {
      assert |IntToDecimal(points[0].x)| >= 1;
    }
    assert [points[0]] + points[1..] == points;
  }

  lemma PointLinesCons(points: seq<Point>, rest: seq<string>)
    requires points != []
    ensures (PointLines(points) + [""] + rest)[0] == PointLine(points[0])
    ensures (PointLines(points) + [""] + rest)[1..] == PointLines(points[1..]) + [""] + rest
  {
    assert PointLines(points) + [""] + rest == [PointLine(points[0])] + (PointLines(points[1..]) + [""] + rest);
  }

  /** A blank line ends a pillar without points. */
  lemma EmptyBody(rest: seq<string>)
    ensures ParseBody(PointLines([]) + [""] + rest) == Some(([], rest))
  {
    assert PointLines([]) + [""] + rest == [""] + rest;
  }

  lemma {:induction false} BodyRoundTrip(points: seq<Point>, rest: seq<string>)
    ensures ParseBody(PointLines(points) + [""] + rest) == Some((points, rest))
  {
    if points == [] {
      EmptyBody(rest);
    } else {
      PointLinesCons(points, rest);
      BodyRoundTrip(points[1..], rest);
      ParseBodyCons(PointLines(points) + [""] + rest, points, rest);
    }
  }

  /** One pillar's block followed by well-formed blocks parses as that pillar and the rest. */
  lemma ParseBlocksCons(lines: seq<string>, ordinal: nat, pillars: seq<seq<Point>>, rest: seq<string>)
    requires pillars != [] && lines != [] && lines[0] == Header(ordinal)
    requires ParseBody(lines[1..]) == Some((pillars[0], rest))
    requires ParseBlocks(rest, ordinal + 1) == Some(pillars[1..])
    ensures ParseBlocks(lines, ordinal) == Some(pillars)
  {
    assert [pillars[0]] + pillars[1..] == pillars;
  }

  /** The lines of a non-empty list of pillars: the first header, then the first body and the rest. */
  lemma LinesFromCons(pillars: seq<seq<Point>>, ordinal: nat)
    requires pillars != []
    ensures LinesFrom(pillars, ordinal)[0] == Header(ordinal)
    ensures LinesFrom(pillars, ordinal)[1..] ==
      PointLines(pillars[0]) + [""] + LinesFrom(pillars[1..], ordinal + 1)
  {
    var body := PointLines(pillars[0]) + [""] + LinesFrom(pillars[1..], ordinal + 1);
    assert LinesFrom(pillars, ordinal) == [Header(ordinal)] + body;
  }

  lemma {:induction false} BlocksRoundTrip(pillars: seq<seq<Point>>, ordinal: nat)
    ensures ParseBlocks(LinesFrom(pillars, ordinal), ordinal) == Some(pillars)
  {
    if pillars != [] {
      var rest := LinesFrom(pillars[1..], ordinal + 1);
      LinesFromCons(pillars, ordinal);
      BodyRoundTrip(pillars[0], rest);
      BlocksRoundTrip(pillars[1..], ordinal + 1);
      ParseBlocksCons(LinesFrom(pillars, ordinal), ordinal, pillars, rest);
    }
  }

  predicate NoLineBreak(line: string) {
    forall i :: 0 <= i < |line| ==> line[i] != '\n'
  }

  lemma {:induction false} JoinCons(line: string, lines: seq<string>)
    ensures JoinLines([line] + lines) == line + "\n" + JoinLines(lines)
    decreases |lines|
  {
    if lines != [] {
      var init := lines[..|lines| - 1];
      assert ([line] + lines)[..|lines|] == [line] + init;
      JoinCons(line, init);
    }
  }

  lemma {:induction false} SplitJoin(lines: seq<string>)
    requires forall k :: 0 <= k < |lines| ==> NoLineBreak(lines[k])
    ensures SplitLines(JoinLines(lines)) == lines
  {
    if lines != [] {
      var line, more := lines[0], lines[1..];
      assert [line] + more == lines;
      JoinCons(line, more);
      var text := JoinLines(lines);
      IndexOfAfter(line, '\n', JoinLines(more));
      assert text[..|line|] == line;
      assert text[|line| + 1..] == JoinLines(more);
      SplitJoin(more);
    }
  }

  lemma {:induction false} LinesHaveNoBreaks(pillars: seq<seq<Point>>, ordinal: nat)
    ensures forall k :: 0 <= k < |LinesFrom(pillars, ordinal)| ==> NoLineBreak(LinesFrom(pillars, ordinal)[k])
  {
    if pillars != [] {
      LinesHaveNoBreaks(pillars[1..], ordinal + 1);
      var block := BlockLines(ordinal, pillars[0]);
      forall k | 0 <= k < |block|
        ensures NoLineBreak(block[k])
      {
        if k == 0 {
          assert block[0] == "Pillar " + NatToDecimal(ordinal) + ":";
        }
      }
    }
  }

  /** Reading the exported text back yields the pillars, in order. */
  lemma TextRoundTrip(pillars: seq<seq<Point>>)
    ensures ParsePointsText(PointsText(pillars)) == Some(pillars)
  {
    LinesHaveNoBreaks(pillars, 1);
    SplitJoin(LinesFrom(pillars, 1));
    BlocksRoundTrip(pillars, 1);
  }
}
