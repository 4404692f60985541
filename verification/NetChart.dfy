/**
The history chart of the gateway's Internet tab (public/js/gateway-net-kit.js, `chartGeometry`): the line is cut
into runs of values, the scale is chosen, and every drawn point lies inside the padded box. Exact arithmetic.
*/
module NetChart {
  import opened Wrappers

  /** A measurement; no value, or one that is not a finite number, is None. */
  datatype Point = Point(t: real, rtt: Option<real>)

  /** The time window and the limit of a gap between neighbours. */
  datatype Window = Window(start: real, end: real, gap: real)

  predicate Ok(p: Point, w: Window) { p.rtt.Some? && p.rtt.value >= 0.0 && w.start <= p.t <= w.end }

  // ---------- Sorting by time ----------

  function Insert(s: seq<Point>, p: Point): seq<Point> {
    if s == [] || s[|s| - 1].t <= p.t then s + [p] else Insert(s[..|s| - 1], p) + [s[|s| - 1]]
  }

  /** `points.slice().sort((a, b) => a.t - b.t)`: stable. */
  function SortByTime(points: seq<Point>): seq<Point> {
    if points == [] then [] else Insert(SortByTime(points[..|points| - 1]), points[|points| - 1])
  }

  predicate InTime(s: seq<Point>) {
    forall i, j :: 0 <= i < j < |s| ==> s[i].t <= s[j].t
  }

  lemma {:induction false} InsertIs(s: seq<Point>, p: Point)
    requires InTime(s)
    ensures InTime(Insert(s, p)) && forall x :: x in Insert(s, p) <==> x == p || x in s
  {
    if s != [] && p.t < s[|s| - 1].t {
      var front, last := s[..|s| - 1], s[|s| - 1];
      InsertIs(front, p);
      var r := Insert(front, p);
      assert s == front + [last];
      forall i | 0 <= i < |r| ensures r[i].t <= last.t {
        assert r[i] in r;
      }
    }
  }

  lemma {:induction false} InsertCounts(s: seq<Point>, p: Point)
    ensures multiset(Insert(s, p)) == multiset(s) + multiset{p}
  {
    if s != [] && p.t < s[|s| - 1].t {
      var front, last := s[..|s| - 1], s[|s| - 1];
      InsertCounts(front, p);
      assert s == front + [last];
    }
  }

  lemma {:induction false} SortInTime(points: seq<Point>)
    ensures InTime(SortByTime(points))
  {
    if points != [] {
      SortInTime(points[..|points| - 1]);
      InsertIs(SortByTime(points[..|points| - 1]), points[|points| - 1]);
    }
  }

  lemma SnocCounts(s: seq<Point>)
    requires s != []
    ensures multiset(s) == multiset(s[..|s| - 1]) + multiset{s[|s| - 1]}
  {
    assert s == s[..|s| - 1] + [s[|s| - 1]];
  }

  lemma {:induction false} SortCounts(points: seq<Point>)
    ensures multiset(SortByTime(points)) == multiset(points)
  {
    if points != [] {
      var front, last := points[..|points| - 1], points[|points| - 1];
      SortCounts(front);
      InsertCounts(SortByTime(front), last);
      SnocCounts(points);
    }
  }

  /** Sorting keeps the points and puts them in time order. */
  lemma SortByTimeIs(points: seq<Point>)
    ensures InTime(SortByTime(points)) && multiset(SortByTime(points)) == multiset(points)
  {
    SortInTime(points);
    SortCounts(points);
  }

  // ---------- Runs ----------

  /** The points from `a` up to `b` are values without a gap above the limit between neighbours. */
  ghost predicate IsRun(s: seq<Point>, w: Window, a: nat, b: nat)
    requires b <= |s|
  {
    && a < b
    && (forall k :: a <= k < b ==> Ok(s[k], w))
    && (forall k :: a < k < b ==> Joined(s, w, k))
  }

  /** Point `k` follows its predecessor without a gap. */
  predicate Joined(s: seq<Point>, w: Window, k: nat)
    requires 0 < k < |s|
  {
    s[k].t - s[k - 1].t <= w.gap
  }

  /** The line may not go on from point `k - 1` to point `k`. */
  ghost predicate Break(s: seq<Point>, w: Window, k: nat)
    requires k <= |s|
  {
    k == 0 || k == |s| || !Ok(s[k - 1], w) || !Ok(s[k], w) || !Joined(s, w, k)
  }

  ghost predicate IsMaximalRun(s: seq<Point>, w: Window, a: nat, b: nat)
    requires b <= |s|
  {
    IsRun(s, w, a, b) && Break(s, w, a) && Break(s, w, b)
  }

  /** A run in its own words: values that are not negative, in the window, and no gap above the limit between them. */
  lemma RunMeans(s: seq<Point>, w: Window, a: nat, b: nat)
    requires b <= |s|
    ensures IsRun(s, w, a, b) <==>
            && a < b
            && (forall k :: a <= k < b ==> match s[k].rtt { case None => false case Some(v) => v >= 0.0 })
            && (forall k :: a <= k < b ==> s[k].t >= w.start && s[k].t <= w.end)
            && (forall k :: a < k < b ==> !(s[k].t - s[k - 1].t > w.gap))
  {
    assert forall k :: a < k < b ==> (Joined(s, w, k) <==> !(s[k].t - s[k - 1].t > w.gap));
  }

  /** Where the run that is open before point `i` began; `i` when none is open. */
  function Start(s: seq<Point>, w: Window, i: nat): (a: nat)
    requires i <= |s|
    ensures a <= i
  {
    if i == 0 || !Ok(s[i - 1], w) then i
    else if Start(s, w, i - 1) < i - 1 && Joined(s, w, i - 1) then Start(s, w, i - 1)
    else i - 1
  }

  /** Point `i` ends the open run. */
  predicate Flushes(s: seq<Point>, w: Window, i: nat)
    requires i < |s|
  {
    !Ok(s[i], w) || (Start(s, w, i) < i && !Joined(s, w, i))
  }

  /** The runs of at least two points that ended before point `i`. */
  function Closed(s: seq<Point>, w: Window, i: nat): seq<(nat, nat)>
    requires i <= |s|
  {
    if i == 0 then []
    else
      Closed(s, w, i - 1)
      + if Flushes(s, w, i - 1) && i - 1 - Start(s, w, i - 1) >= 2 then [(Start(s, w, i - 1), i - 1)] else []
  }

  function Runs(s: seq<Point>, w: Window): seq<(nat, nat)> {
    Closed(s, w, |s|) + if |s| - Start(s, w, |s|) >= 2 then [(Start(s, w, |s|), |s|)] else []
  }

  /** The open run is a run that could not begin earlier. */
  lemma {:induction false} StartIs(s: seq<Point>, w: Window, i: nat)
    requires i <= |s|
    ensures Start(s, w, i) < i ==> IsRun(s, w, Start(s, w, i), i) && Break(s, w, Start(s, w, i))
    ensures Start(s, w, i) == i ==> i == 0 || !Ok(s[i - 1], w)
  {
    if i > 0 {
      StartIs(s, w, i - 1);
    }
  }

  /** A run that cannot begin earlier is the open run at each of its points. */
  lemma {:induction false} RunStarts(s: seq<Point>, w: Window, a: nat, i: nat)
    requires i <= |s| && IsRun(s, w, a, i) && Break(s, w, a)
    ensures Start(s, w, i) == a
  {
    StartIs(s, w, i - 1);
    if a < i - 1 {
      RunStarts(s, w, a, i - 1);
    }
  }

  lemma {:induction false} ClosedBounds(s: seq<Point>, w: Window, i: nat)
    requires i <= |s|
    ensures forall r :: r in Closed(s, w, i) ==> r.0 + 2 <= r.1 < i
  {
    if i > 0 {
      ClosedBounds(s, w, i - 1);
    }
  }

  /** The closed runs are exactly the maximal runs of two or more points that end before `i`. */
  lemma {:induction false} ClosedIs(s: seq<Point>, w: Window, i: nat, a: nat, b: nat)
    requires b < i <= |s|
    ensures (a, b) in Closed(s, w, i) <==> IsMaximalRun(s, w, a, b) && b >= a + 2
    decreases i
  {
    ClosedBounds(s, w, i - 1);
    if b < i - 1 {
      ClosedIs(s, w, i - 1, a, b);
    } else {
      FlushedIsMaximal(s, w, b);
    }
  }

  lemma {:induction false} ClosedAscends(s: seq<Point>, w: Window, i: nat)
    requires i <= |s|
    ensures Ascending(Closed(s, w, i))
  {
    if i > 0 {
      var before := Closed(s, w, i - 1);
      ClosedAscends(s, w, i - 1);
      forall k | 0 <= k < |before| ensures before[k].1 <= Start(s, w, i - 1) {
        ClosedEnds(s, w, i - 1, before[k]);
      }
    }
  }

  /** A closed run ends before the open one begins. */
  lemma ClosedEnds(s: seq<Point>, w: Window, i: nat, r: (nat, nat))
    requires i <= |s| && r in Closed(s, w, i)
    ensures r.0 + 2 <= r.1 <= Start(s, w, i)
  {
    ClosedBounds(s, w, i);
    ClosedIs(s, w, i, r.0, r.1);
    EndsBefore(s, w, i, r);
  }

  /** The runs that end at point `j`: the open one, exactly when the point flushes it. */
  lemma FlushedIsMaximal(s: seq<Point>, w: Window, j: nat)
    requires j < |s|
    ensures forall a: nat :: IsMaximalRun(s, w, a, j) <==> a == Start(s, w, j) && a < j && Flushes(s, w, j)
  {
    StartIs(s, w, j);
    forall a: nat | IsMaximalRun(s, w, a, j) ensures Start(s, w, j) == a {
      RunStarts(s, w, a, j);
    }
  }

  /** One run ends before the next begins. */
  ghost predicate Ascending(rs: seq<(nat, nat)>) {
    forall k, l :: 0 <= k < l < |rs| ==> rs[k].1 <= rs[l].0
  }

  lemma NoBreakInside(s: seq<Point>, w: Window, a: nat, b: nat, k: nat)
    requires b <= |s| && IsRun(s, w, a, b) && a < k < b
    ensures !Break(s, w, k)
  {
  }

  lemma EndsBefore(s: seq<Point>, w: Window, i: nat, r: (nat, nat))
    requires i <= |s| && r.0 < r.1 < i && IsMaximalRun(s, w, r.0, r.1)
    ensures r.1 <= Start(s, w, i)
  {
    StartIs(s, w, i);
    if Start(s, w, i) < r.1 {
      NoBreakInside(s, w, Start(s, w, i), i, r.1);
      assert false;
    }
  }

  /**
  The runs are exactly the maximal runs of at least two points, once each and in time order; the open run of one
  point at the end is the only isolated point that is drawn.
  */
  lemma RunsAreMaximal(s: seq<Point>, w: Window)
    ensures forall a: nat, b: nat :: b <= |s| ==> ((a, b) in Runs(s, w) <==> IsMaximalRun(s, w, a, b) && b >= a + 2)
    ensures forall r :: r in Runs(s, w) ==> r.0 + 2 <= r.1 <= |s|
    ensures Ascending(Runs(s, w))
    ensures |s| - Start(s, w, |s|) == 1 <==> |s| > 0 && IsMaximalRun(s, w, |s| - 1, |s|)
  {
    var n := |s|;
    var closed := Closed(s, w, n);
    StartIs(s, w, n);
    ClosedBounds(s, w, n);
    ClosedAscends(s, w, n);
    forall a: nat | IsMaximalRun(s, w, a, n) ensures Start(s, w, n) == a {
      RunStarts(s, w, a, n);
    }
    forall a: nat, b: nat | b < n ensures (a, b) in closed <==> IsMaximalRun(s, w, a, b) && b >= a + 2 {
      ClosedIs(s, w, n, a, b);
    }
    forall k | 0 <= k < |closed| ensures closed[k].1 <= Start(s, w, n) {
      ClosedEnds(s, w, n, closed[k]);
    }
  }

  // ---------- The drawing ----------

  datatype Vertex = Vertex(x: real, y: real)

  /** The box, its padding and the chosen upper end of the scale. */
  datatype BoxData = BoxData(width: real, height: real, pad: real, max: real)

  type Box = b: BoxData | b.max > 0.0 witness BoxData(1000.0, 160.0, 8.0, 20.0)

  function Span(w: Window): real { if w.end - w.start >= 1.0 then w.end - w.start else 1.0 }

  /** The part `a / b` of the length `c`. */
  function Share(a: real, b: real, c: real): real
    requires b > 0.0
  {
    a / b * c
  }

  function XAt(t: real, w: Window, box: Box): real { Share(t - w.start, Span(w), box.width) }

  function YAt(v: real, box: Box): real { box.height - box.pad - Share(v, box.max, box.height - 2.0 * box.pad) }

  function Draw(p: Point, w: Window, box: Box): Vertex {
    var v := if p.rtt.Some? then p.rtt.value else 0.0;
    Vertex(XAt(p.t, w, box), YAt(if v <= box.max then v else box.max, box))
  }

  /** The line of the points from `a` up to `b`. */
  function Line(s: seq<Point>, w: Window, box: Box, a: nat, b: nat): seq<Vertex> {
    if a >= b || b > |s| then [] else Line(s, w, box, a, b - 1) + [Draw(s[b - 1], w, box)]
  }

  /** The lines of the runs that ended before point `i`. */
  function DrawnClosed(s: seq<Point>, w: Window, box: Box, i: nat): seq<seq<Vertex>>
    requires i <= |s|
  {
    if i == 0 then []
    else
      DrawnClosed(s, w, box, i - 1)
      + if Flushes(s, w, i - 1) && i - 1 - Start(s, w, i - 1) >= 2
        then [Line(s, w, box, Start(s, w, i - 1), i - 1)] else []
  }

  function Drawn(s: seq<Point>, w: Window, box: Box): seq<seq<Vertex>> {
    var a := Start(s, w, |s|);
    DrawnClosed(s, w, box, |s|)
    + if |s| - a >= 2 then [Line(s, w, box, a, |s|)]
      else if |s| - a == 1 then [[Draw(s[a], w, box), Draw(s[a], w, box)]] else []
  }

  lemma {:induction false} LineLength(s: seq<Point>, w: Window, box: Box, a: nat, b: nat)
    requires a <= b <= |s|
    ensures |Line(s, w, box, a, b)| == b - a
    ensures forall k :: 0 <= k < b - a ==> Line(s, w, box, a, b)[k] == Draw(s[a + k], w, box)
  {
    if a < b {
      LineLength(s, w, box, a, b - 1);
    }
  }

  lemma {:induction false} DrawnClosedIs(s: seq<Point>, w: Window, box: Box, i: nat)
    requires i <= |s|
    ensures |DrawnClosed(s, w, box, i)| == |Closed(s, w, i)|
    ensures forall k :: 0 <= k < |Closed(s, w, i)| ==>
              DrawnClosed(s, w, box, i)[k] == Line(s, w, box, Closed(s, w, i)[k].0, Closed(s, w, i)[k].1)
  {
    if i > 0 {
      DrawnClosedIs(s, w, box, i - 1);
    }
  }

  /** One line per maximal run, in order; behind them at most the doubled point of an isolated value at the end. */
  lemma DrawnIsRuns(s: seq<Point>, w: Window, box: Box)
    ensures |Runs(s, w)| <= |Drawn(s, w, box)|
    ensures forall k :: 0 <= k < |Runs(s, w)| ==>
              Drawn(s, w, box)[k] == Line(s, w, box, Runs(s, w)[k].0, Runs(s, w)[k].1)
    ensures Drawn(s, w, box)[|Runs(s, w)|..]
         == if |s| > 0 && IsMaximalRun(s, w, |s| - 1, |s|)
            then [[Draw(s[|s| - 1], w, box), Draw(s[|s| - 1], w, box)]] else []
  {
    DrawnClosedIs(s, w, box, |s|);
    RunsAreMaximal(s, w);
  }

  /** The loop over the sorted points. */
  method ChartLines(points: seq<Point>, w: Window, box: Box) returns (lines: seq<seq<Vertex>>)
    ensures lines == Drawn(SortByTime(points), w, box)
  {
    var s := SortByTime(points);
    lines := [];
    var cur: seq<Vertex>, lastT: Option<real> := [], None;
    for i := 0 to |s|
      invariant lines == DrawnClosed(s, w, box, i)
      invariant cur == Line(s, w, box, Start(s, w, i), i)
      invariant i > 0 && Ok(s[i - 1], w) ==> lastT == Some(s[i - 1].t)
    {
      LineLength(s, w, box, Start(s, w, i), i);
      StartIs(s, w, i);
      var p := s[i];
      var ok := Ok(p, w);
      var flush := !ok || (lastT.Some? && p.t - lastT.value > w.gap);
      assert cur != [] ==> (flush <==> Flushes(s, w, i));
      if flush {
        if |cur| > 1 {
          lines := lines + [cur];
        }
        cur := [];
      }
      if ok {
        cur := cur + [Draw(p, w, box)];
        lastT := Some(p.t);
      }
      LineStep(s, w, box, i);
    }
    LineLength(s, w, box, Start(s, w, |s|), |s|);
    if |cur| > 1 {
      lines := lines + [cur];
    } else if |cur| == 1 {
      lines := lines + [[cur[0], cur[0]]];
    }
  }

  lemma LineStep(s: seq<Point>, w: Window, box: Box, i: nat)
    requires i < |s|
    ensures Line(s, w, box, Start(s, w, i + 1), i + 1)
         == (if Flushes(s, w, i) then [] else Line(s, w, box, Start(s, w, i), i))
            + if Ok(s[i], w) then [Draw(s[i], w, box)] else []
  {
    StartIs(s, w, i);
  }

  // ---------- The scale and the box ----------

  /** The largest value of all points, in the window or not; 0 without any. */
  function Top(points: seq<Point>): (top: real)
    ensures top >= 0.0
  {
    if points == [] then 0.0
    else
      var before, p := Top(points[..|points| - 1]), points[|points| - 1];
      if p.rtt.Some? && p.rtt.value > before then p.rtt.value else before
  }

  function Ceil(x: real): int { -(-x).Floor }

  function FirstStep(steps: seq<real>, least: real): Option<real> {
    if steps == [] then None else if steps[0] >= least then Some(steps[0]) else FirstStep(steps[1..], least)
  }

  const STEPS: seq<real> := [20.0, 50.0, 100.0, 200.0, 500.0, 1000.0, 2000.0, 5000.0]

  /** The upper end: a round number with a tenth to spare, whole seconds beyond the list, at least 20. */
  function ScaleMax(points: seq<Point>): real {
    var top := Top(points);
    var step := FirstStep(STEPS, top * 1.1);
    var max :=
      if step.Some? then step.value
      else if Ceil(top / 1000.0) != 0 then Ceil(top / 1000.0) as real * 1000.0 else 20.0;
    if max < 20.0 then 20.0 else max
  }

  lemma {:induction false} TopIsLargest(points: seq<Point>, k: nat)
    requires k < |points| && points[k].rtt.Some?
    ensures points[k].rtt.value <= Top(points)
  {
    if k < |points| - 1 {
      TopIsLargest(points[..|points| - 1], k);
    }
  }

  /** And it is one of the values, unless none is above 0. */
  lemma {:induction false} TopIsReached(points: seq<Point>)
    ensures Top(points) == 0.0 || exists k :: 0 <= k < |points| && points[k].rtt == Some(Top(points))
  {
    if points != [] {
      var n := |points| - 1;
      TopIsReached(points[..n]);
      if Top(points) == Top(points[..n]) && Top(points) != 0.0 {
        var k :| 0 <= k < n && points[..n][k].rtt == Some(Top(points));
        assert points[k].rtt == Some(Top(points));
      } else if Top(points) != 0.0 {
        assert points[n].rtt == Some(Top(points));
      }
    }
  }

  lemma {:induction false} FirstStepReaches(steps: seq<real>, least: real)
    ensures FirstStep(steps, least).Some? ==>
              FirstStep(steps, least).value >= least && FirstStep(steps, least).value in steps
  {
    if steps != [] && steps[0] < least {
      FirstStepReaches(steps[1..], least);
    }
  }

  /** The scale is never below the largest value, so no drawn value is cut off. */
  lemma ScaleCovers(points: seq<Point>, k: nat)
    requires k < |points| && points[k].rtt.Some?
    ensures ScaleMax(points) >= 20.0 && points[k].rtt.value <= ScaleMax(points)
  {
    var top := Top(points);
    TopIsLargest(points, k);
    FirstStepReaches(STEPS, top * 1.1);
    assert Ceil(top / 1000.0) as real >= top / 1000.0;
  }

  lemma {:induction false} FirstStepIsFirst(steps: seq<real>, least: real, k: nat)
    requires k < |steps| && steps[k] >= least && forall m :: 0 <= m < k ==> steps[m] < least
    ensures FirstStep(steps, least) == Some(steps[k])
  {
    if k > 0 {
      FirstStepIsFirst(steps[1..], least, k - 1);
    }
  }

  lemma {:induction false} NoStepReaches(steps: seq<real>, least: real)
    requires forall m :: 0 <= m < |steps| ==> steps[m] < least
    ensures FirstStep(steps, least) == None
  {
    if steps != [] {
      NoStepReaches(steps[1..], least);
    }
  }

  ghost predicate IsSeconds(x: real, n: int) { x == n as real * 1000.0 }

  /** The scale is no larger than needed: the first round number with a tenth to spare. */
  lemma ScaleIsTight(points: seq<Point>, k: nat)
    requires k < |STEPS| && STEPS[k] >= Top(points) * 1.1
    requires forall m :: 0 <= m < k ==> STEPS[m] < Top(points) * 1.1
    ensures ScaleMax(points) == STEPS[k]
  {
    FirstStepIsFirst(STEPS, Top(points) * 1.1, k);
  }

  /** Beyond the list, the whole seconds at or above the largest value. */
  lemma ScaleInSeconds(points: seq<Point>)
    requires Top(points) * 1.1 > 5000.0
    ensures Top(points) <= ScaleMax(points) < Top(points) + 1000.0
    ensures exists n: int :: IsSeconds(ScaleMax(points), n)
  {
    var top := Top(points);
    NoStepReaches(STEPS, top * 1.1);
    var n := Ceil(top / 1000.0);
    assert top / 1000.0 <= n as real < top / 1000.0 + 1.0;
    assert IsSeconds(ScaleMax(points), n);
  }

  lemma ShareInside(a: real, b: real, c: real)
    requires 0.0 <= a <= b && b > 0.0 && c >= 0.0
    ensures 0.0 <= Share(a, b, c) <= c
  {
    var f := a / b;
    assert f * b == a;
    UnitFraction(f, b);
    Product(f, c);
    Product(1.0 - f, c);
    assert (1.0 - f) * c == c - f * c;
  }

  lemma Product(f: real, c: real)
    requires f >= 0.0 && c >= 0.0
    ensures f * c >= 0.0
  {
  }

  lemma UnitFraction(f: real, b: real)
    requires 0.0 <= f * b <= b && b > 0.0
    ensures 0.0 <= f <= 1.0
  {
  }

  /** Every drawn point lies inside the padded box, before rounding. */
  lemma DrawnInside(points: seq<Point>, k: nat, w: Window, box: Box)
    requires k < |points| && Ok(points[k], w) && box.max == ScaleMax(points)
    requires box.width >= 0.0 && box.pad >= 0.0 && box.height >= 2.0 * box.pad
    ensures var v := Draw(points[k], w, box);
      && 0.0 <= v.x <= box.width && box.pad <= v.y <= box.height - box.pad
      && v.y == YAt(points[k].rtt.value, box)
  {
    var max := box.max;
    ScaleCovers(points, k);
    assert points[k].rtt.value <= max;
    ShareInside(points[k].t - w.start, Span(w), box.width);
    ShareInside(points[k].rtt.value, max, box.height - 2.0 * box.pad);
  }

  /**
  What a drawn vertex says of its point, without a division: the height over the base line is to the height of the
  padded box as the value to the scale, and the way from the left edge is to the width as the time to the window.
  */
  ghost predicate Plots(v: Vertex, p: Point, w: Window, box: Box) {
    && p.rtt.Some? && box.max * (box.height - box.pad - v.y) == p.rtt.value * (box.height - 2.0 * box.pad)
    && Span(w) * v.x == (p.t - w.start) * box.width
  }

  lemma ShareIs(a: real, b: real, c: real)
    requires b > 0.0
    ensures b * Share(a, b, c) == a * c
  {
    var f := a / b;
    assert b * f == a;
    assert b * (f * c) == (b * f) * c;
  }

  lemma DrawPlots(p: Point, w: Window, box: Box)
    requires p.rtt.Some? && p.rtt.value <= box.max
    ensures Plots(Draw(p, w, box), p, w, box)
  {
    ShareIs(p.rtt.value, box.max, box.height - 2.0 * box.pad);
    ShareIs(p.t - w.start, Span(w), box.width);
  }

  lemma SmallerFactor(a: real, x: real, y: real)
    requires a > 0.0 && a * x < a * y
    ensures x < y
  {
    FactorOrder(a, x, y);
  }

  lemma FactorOrder(a: real, x: real, y: real)
    requires a > 0.0
    ensures y <= x ==> a * y <= a * x
  {
    assert a * x - a * y == a * (x - y);
  }

  lemma LargerProduct(a: real, x: real, y: real)
    requires a > 0.0 && x < y
    ensures x * a < y * a
  {
  }

  lemma SameFactor(a: real, x: real, y: real)
    requires a > 0.0 && a * x == a * y
    ensures x == y
  {
  }

  /** A larger value is drawn higher, and a later point further to the right. */
  lemma PlotIsMonotone(v: Vertex, p: Point, u: Vertex, q: Point, w: Window, box: Box)
    requires Plots(v, p, w, box) && Plots(u, q, w, box)
    ensures p.rtt.value < q.rtt.value && box.height > 2.0 * box.pad ==> v.y > u.y
    ensures p.t < q.t && box.width > 0.0 ==> v.x < u.x
  {
    var inner, base := box.height - 2.0 * box.pad, box.height - box.pad;
    if p.rtt.value < q.rtt.value && inner > 0.0 {
      LargerProduct(inner, p.rtt.value, q.rtt.value);
      SmallerFactor(box.max, base - v.y, base - u.y);
    }
    if p.t < q.t && box.width > 0.0 {
      LargerProduct(box.width, p.t - w.start, q.t - w.start);
      SmallerFactor(Span(w), v.x, u.x);
    }
  }

  /** The ends: 0 on the base line, the scale at the top, the window from the left to the right edge. */
  lemma PlotEnds(v: Vertex, p: Point, w: Window, box: Box)
    requires Plots(v, p, w, box)
    ensures p.rtt.value == 0.0 ==> v.y == box.height - box.pad
    ensures p.rtt.value == box.max ==> v.y == box.pad
    ensures p.t == w.start ==> v.x == 0.0
    ensures p.t == w.end && w.end - w.start >= 1.0 ==> v.x == box.width
  {
    var inner, base := box.height - 2.0 * box.pad, box.height - box.pad;
    if p.rtt.value == 0.0 {
      SameFactor(box.max, base - v.y, 0.0);
    }
    if p.rtt.value == box.max {
      SameFactor(box.max, base - v.y, inner);
    }
    if p.t == w.start {
      SameFactor(Span(w), v.x, 0.0);
    }
    if p.t == w.end && w.end - w.start >= 1.0 {
      SameFactor(Span(w), v.x, box.width);
    }
  }

  ghost predicate IsInside(v: Vertex, box: Box) {
    0.0 <= v.x <= box.width && box.pad <= v.y <= box.height - box.pad
  }

  /** Sorting brings no new points. */
  lemma SortedIsPoint(points: seq<Point>, i: nat) returns (k: nat)
    requires i < |SortByTime(points)|
    ensures k < |points| && points[k] == SortByTime(points)[i]
  {
    SortByTimeIs(points);
    var p := SortByTime(points)[i];
    assert p in multiset(SortByTime(points)) && p in multiset(points);
    k :| 0 <= k < |points| && points[k] == p;
  }

  /** The point of the sorted list that vertex `j` of line `k` shows. */
  function Shown(s: seq<Point>, w: Window, k: nat, j: nat): int {
    if k < |Runs(s, w)| then Runs(s, w)[k].0 + j else |s| - 1
  }

  lemma VertexShows(s: seq<Point>, w: Window, box: Box, k: nat, j: nat)
    requires k < |Drawn(s, w, box)| && j < |Drawn(s, w, box)[k]|
    ensures 0 <= Shown(s, w, k, j) < |s| && Ok(s[Shown(s, w, k, j)], w)
    ensures Drawn(s, w, box)[k][j] == Draw(s[Shown(s, w, k, j)], w, box)
  {
    var lines, runs := Drawn(s, w, box), Runs(s, w);
    DrawnIsRuns(s, w, box);
    if k < |runs| {
      RunIsMaximal(s, w, k);
      LineLength(s, w, box, runs[k].0, runs[k].1);
    } else {
      assert lines[k] == lines[|runs|..][k - |runs|];
    }
  }

  /**
  Every vertex of every line that is drawn shows one of the valid points, in the order of the sorted points, at its
  value and time, and lies inside the padded box of the chosen scale.
  */
  lemma LinesInside(points: seq<Point>, w: Window, box: Box, k: nat, j: nat) returns (i: nat)
    requires box.max == ScaleMax(points) && box.width >= 0.0 && box.pad >= 0.0 && box.height >= 2.0 * box.pad
    requires var lines := Drawn(SortByTime(points), w, box); k < |lines| && j < |lines[k]|
    ensures var v := Drawn(SortByTime(points), w, box)[k][j];
      && IsInside(v, box) && i < |points| && Ok(points[i], w) && Plots(v, points[i], w, box)
      && var n := Shown(SortByTime(points), w, k, j);
         0 <= n < |SortByTime(points)| && points[i] == SortByTime(points)[n]
  {
    var s := SortByTime(points);
    VertexShows(s, w, box, k, j);
    i := SortedIsPoint(points, Shown(s, w, k, j));
    DrawnInside(points, i, w, box);
    ScaleCovers(points, i);
    DrawPlots(points[i], w, box);
  }

  lemma RunIsMaximal(s: seq<Point>, w: Window, k: nat)
    requires k < |Runs(s, w)|
    ensures var r := Runs(s, w)[k]; r.0 + 2 <= r.1 <= |s| && IsRun(s, w, r.0, r.1)
  {
    RunsAreMaximal(s, w);
    var r := Runs(s, w)[k];
    assert r in Runs(s, w) && (r.0, r.1) == r;
  }

  /** Later points are drawn no further to the left, so lines and points come in time order. */
  lemma DrawnInTimeOrder(p: Point, q: Point, w: Window, box: Box)
    requires p.t <= q.t && box.width >= 0.0
    ensures Draw(p, w, box).x <= Draw(q, w, box).x
  {
    var d, span := (q.t - p.t) / Span(w), Span(w);
    assert d * span == q.t - p.t;
    NotNegative(d, span);
    assert (q.t - w.start) / span == (p.t - w.start) / span + d;
    Product(d, box.width);
  }

  lemma NotNegative(f: real, b: real)
    requires f * b >= 0.0 && b > 0.0
    ensures f >= 0.0
  {
  }
}
