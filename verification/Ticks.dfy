/** Axis ticks of the dashboard chart (public/js/dashboard-ui.js), in exact arithmetic. */
module Ticks {

  // ---------- Nice steps ----------

  function Pow10(k: int): (p: real)
    ensures p > 0.0
    decreases if k < 0 then -k else k
  {
    if k == 0 then 1.0 else if k > 0 then 10.0 * Pow10(k - 1) else Pow10(k + 1) / 10.0
  }

  lemma Pow10Step(k: int)
    ensures Pow10(k + 1) == 10.0 * Pow10(k)
  {
  }

  lemma Reciprocal(x: real)
    requires 0.0 < x < 1.0
    ensures (1.0 / (10.0 * x)).Floor < (1.0 / x).Floor && 1.0 / x > 1.0
  {
    var y := 1.0 / x;
    assert y * x == 1.0;
    assert y > 1.0;
    assert (y / 10.0) * (10.0 * x) == 1.0;
    assert 1.0 / (10.0 * x) == y / 10.0;
  }

  /** `Math.floor(Math.log10(x))`: the exponent of the power of ten at or below `x`. */
  function Decade(x: real): (k: int)
    requires x > 0.0
    ensures Pow10(k) <= x < 10.0 * Pow10(k)
    decreases x < 1.0, if x < 1.0 then (1.0 / x).Floor else x.Floor
  {
    if x >= 10.0 then
      var k := Decade(x / 10.0);
      Pow10Step(k);
      k + 1
    else if x < 1.0 then
      Reciprocal(x);
      var k := Decade(10.0 * x);
      Pow10Step(k - 1);
      k - 1
    else 0
  }

  /** The power of ten at or below a number is unique, so `Decade` is the only reading of the logarithm. */
  lemma {:induction false} Pow10Grows(j: int, k: int)
    requires j < k
    ensures 10.0 * Pow10(j) <= Pow10(k)
    decreases k - j
  {
    Pow10Step(k - 1);
    if j < k - 1 {
      Pow10Grows(j, k - 1);
    }
  }

  lemma DecadeIsUnique(x: real, k: int)
    requires x > 0.0 && Pow10(k) <= x < 10.0 * Pow10(k)
    ensures k == Decade(x)
  {
    if k < Decade(x) {
      Pow10Grows(k, Decade(x));
    } else if Decade(x) < k {
      Pow10Grows(Decade(x), k);
    }
  }

  /** The first of 1, 2, 2.5, 5 and 10 times `p` that reaches `raw`. */
  function NiceMultiple(raw: real, p: real): real {
    if p >= raw then p else if 2.0 * p >= raw then 2.0 * p else if 2.5 * p >= raw then 2.5 * p
    else if 5.0 * p >= raw then 5.0 * p else 10.0 * p
  }

  /** The step for an equal share `raw` of the maximum. */
  function StepFor(raw: real): (step: real)
    ensures step > 0.0
  {
    if raw <= 0.0 then 1.0 else NiceMultiple(raw, Pow10(Decade(raw)))
  }

  function NiceStep(max: real, count: nat): (step: real)
    ensures step > 0.0
  {
    StepFor(max / (if count == 0 then 4 else count) as real)
  }

  /** A nice step reaches an equal share of the maximum and is less than twice as large. */
  lemma NiceStepIsTight(max: real, count: nat)
    requires max > 0.0 && count > 0
    ensures var share := max / count as real;
      0.0 < share <= NiceStep(max, count) < 2.0 * share
  {
    QuotientIs(max, count as real);
    StepIsTight(max / count as real);
  }

  lemma StepIsTight(raw: real)
    requires raw > 0.0
    ensures raw <= StepFor(raw) < 2.0 * raw
  {
    MultipleIsTight(raw);
  }

  /** 1, 2, 2.5 or 5 times a power of ten. */
  ghost predicate IsNice(x: real) { exists k: int :: IsNiceAt(x, Pow10(k)) }

  ghost predicate IsNiceAt(x: real, p: real) { x == p || x == 2.0 * p || x == 2.5 * p || x == 5.0 * p }

  ghost predicate SmallestNice(step: real, raw: real) {
    IsNice(step) && raw <= step && forall x :: IsNice(x) && raw <= x ==> step <= x
  }

  /** A nice step is the smallest nice number that reaches an equal share of the maximum. */
  lemma NiceStepIsSmallest(raw: real)
    requires raw > 0.0
    ensures SmallestNice(StepFor(raw), raw)
  {
    var k := Decade(raw);
    MultipleIsNice(raw, k);
    forall x | IsNice(x) && raw <= x ensures StepFor(raw) <= x {
      var j: int :| IsNiceAt(x, Pow10(j));
      NoSmaller(raw, k, x, j);
    }
  }

  lemma MultipleIsNice(raw: real, k: int)
    requires Pow10(k) <= raw < 10.0 * Pow10(k)
    ensures raw <= NiceMultiple(raw, Pow10(k)) && IsNice(NiceMultiple(raw, Pow10(k)))
  {
    Pow10Step(k);
    assert IsNiceAt(NiceMultiple(raw, Pow10(k)), Pow10(k)) || IsNiceAt(NiceMultiple(raw, Pow10(k)), Pow10(k + 1));
  }

  lemma NoSmaller(raw: real, k: int, x: real, j: int)
    requires Pow10(k) <= raw < 10.0 * Pow10(k) && IsNiceAt(x, Pow10(j)) && raw <= x
    ensures NiceMultiple(raw, Pow10(k)) <= x
  {
    if j < k {
      Pow10Grows(j, k);
    } else if k < j {
      Pow10Grows(k, j);
    }
  }

  lemma QuotientIs(a: real, c: real)
    requires a > 0.0 && c > 0.0
    ensures c * (a / c) == a && a / c > 0.0
  {
    Positive(a / c, c);
  }

  lemma Shares(max: real, c: real, raw: real, step: real)
    requires c > 0.0 && c * raw == max && raw <= step < 2.0 * raw
    ensures max <= c * step < 2.0 * max
  {
    Scale(raw, step, c);
    Scale(step, 2.0 * raw, c);
    assert c * (2.0 * raw) == 2.0 * (c * raw);
  }

  lemma MultipleIsTight(raw: real)
    requires raw > 0.0
    ensures raw <= NiceMultiple(raw, Pow10(Decade(raw))) < 2.0 * raw
  {
  }

  lemma Positive(a: real, c: real)
    requires a * c > 0.0 && c > 0.0
    ensures a > 0.0
  {
  }

  lemma Scale(a: real, b: real, c: real)
    requires c > 0.0
    ensures a < b ==> c * a < c * b
    ensures a <= b ==> c * a <= c * b
  {
    assert c * b - c * a == c * (b - a);
  }

  // ---------- Byte ticks ----------

  function Pow1024(i: nat): (p: real)
    ensures p >= 1.0
  {
    if i == 0 then 1.0 else 1024.0 * Pow1024(i - 1)
  }

  predicate IsUnit(v: real, i: nat) {
    i <= 5 && (i < 5 ==> v < 1024.0 * Pow1024(i)) && (i > 0 ==> v >= Pow1024(i))
  }

  /** The binary unit that keeps the value below 1024, as far as there are units. */
  method UnitIndex(bytes: real) returns (i: nat)
    ensures IsUnit(if bytes < 0.0 then -bytes else bytes, i)
  {
    ghost var all := if bytes < 0.0 then -bytes else bytes;
    var v := if bytes < 0.0 then -bytes else bytes;
    i := 0;
    ghost var p := 1.0;
    while v >= 1024.0 && i < 5
      invariant i <= 5 && p == Pow1024(i) && v >= 0.0 && v * p == all
      invariant i > 0 ==> v >= 1.0
    {
      UnitStep(v, p);
      v := v / 1024.0;
      p := 1024.0 * p;
      i := i + 1;
    }
    UnitBounds(v, p, all);
  }

  lemma UnitStep(v: real, p: real)
    ensures (v / 1024.0) * (1024.0 * p) == v * p
  {
  }

  lemma UnitBounds(v: real, p: real, all: real)
    requires p > 0.0 && v * p == all
    ensures (v < 1024.0 ==> all < 1024.0 * p) && (v >= 1.0 ==> all >= p)
  {
    Scale(v, 1024.0, p);
    Scale(1.0, v, p);
  }

  function Ceil(x: real): int { -(-x).Floor }

  lemma CeilOfQuotient(m: real, step: real)
    requires m > 0.0 && step > 0.0
    ensures var n := Ceil(m / step); (n - 1) as real * step < m <= n as real * step && n >= 1
  {
    var x := m / step;
    assert x * step == m;
    Positive(x, step);
    var n := Ceil(x);
    Scale((n - 1) as real, x, step);
    Scale(x, n as real, step);
  }

  /** The number of intervals of nice steps up to `m`: at most `count`, and more than half of it. */
  lemma IntervalCount(m: real, count: nat, step: real, n: int)
    requires count > 0 && step > 0.0 && m <= count as real * step < 2.0 * m
    requires (n - 1) as real * step < m <= n as real * step
    ensures n <= count && 2 * n > count
  {
    assert (n - 1) as real * step < count as real * step;
    Cancel((n - 1) as real, count as real, step);
    assert count as real * step < (2 * n) as real * step;
    Cancel(count as real, (2 * n) as real, step);
  }

  lemma Cancel(a: real, b: real, c: real)
    requires c > 0.0 && a * c < b * c
    ensures a < b
  {
    if a >= b {
      Scale(b, a, c);
    }
  }

  /** The ticks: multiples of one step from 0 on. */
  ghost predicate EqualSteps(ticks: seq<real>, step: real) {
    forall k :: 0 <= k < |ticks| ==> ticks[k] == k as real * step
  }

  /**
  An axis of steps `step` for a positive maximum: it ends less than a step above, with more than c/2 and up to c
  steps.
  */
  ghost predicate IsAxis(maxBytes: real, c: nat, step: real, top: real, ticks: seq<real>) {
    && step > 0.0 && EqualSteps(ticks, step)
    && c < 2 * (|ticks| - 1) && |ticks| - 1 <= c && ticks[|ticks| - 1] == top
    && maxBytes <= top < maxBytes + step
  }

  method ByteTicks(maxBytes: real, count: nat) returns (top: real, unit: nat, ticks: seq<real>, ghost step: real)
    ensures maxBytes <= 0.0 ==> top == 1024.0 && unit == 1 && ticks == [0.0, 1024.0]
    ensures maxBytes > 0.0 ==>
      var c := if count == 0 then 4 else count;
      && IsUnit(maxBytes, unit) && SmallestNice(step, maxBytes / Pow1024(unit) / c as real)
      && IsAxis(maxBytes, c, step * Pow1024(unit), top, ticks)
  {
    if maxBytes <= 0.0 {
      return 1024.0, 1, [0.0, 1024.0], 1024.0;
    }
    unit := UnitIndex(maxBytes);
    top, ticks, step := TicksInUnit(maxBytes, if count == 0 then 4 else count, Pow1024(unit));
  }

  method TicksInUnit(maxBytes: real, c: nat, scale: real) returns (top: real, ticks: seq<real>, ghost step: real)
    requires maxBytes > 0.0 && c > 0 && scale > 0.0
    ensures SmallestNice(step, maxBytes / scale / c as real) && IsAxis(maxBytes, c, step * scale, top, ticks)
  {
    var m := maxBytes / scale;
    QuotientIs(maxBytes, scale);
    var s := StepIn(m, c);
    top, ticks := ScaledTicks(maxBytes, m, c, s, scale);
    step := s;
  }

  method StepIn(m: real, c: nat) returns (step: real)
    requires m > 0.0 && c > 0
    ensures SmallestNice(step, m / c as real) && step > 0.0 && m <= c as real * step < 2.0 * m
  {
    step := StepForShare(m, c, m / c as real);
    StepsReach(m, c as real, m / c as real, step);
  }

  method StepForShare(m: real, c: nat, ghost share: real) returns (step: real)
    requires m > 0.0 && c > 0 && share == m / c as real
    ensures SmallestNice(step, share) && 0.0 < share <= step < 2.0 * share
  {
    NiceStepIsTight(m, c);
    NiceStepIsSmallest(share);
    step := NiceStep(m, c);
  }

  /** As many nice steps as asked for reach the maximum, and do not reach twice as far. */
  lemma StepsReach(m: real, c: real, raw: real, step: real)
    requires c > 0.0 && raw == m / c && raw <= step < 2.0 * raw
    ensures m <= c * step < 2.0 * m
  {
    assert c * raw == m;
    Shares(m, c, raw, step);
  }

  /** The ticks in the chosen unit, scaled back to bytes. */
  method ScaledTicks(maxBytes: real, m: real, c: nat, step: real, scale: real) returns (top: real, ticks: seq<real>)
    requires m > 0.0 && c > 0 && scale > 0.0 && step > 0.0 && m <= c as real * step < 2.0 * m
    requires scale * m == maxBytes
    ensures IsAxis(maxBytes, c, step * scale, top, ticks)
  {
    var intervals := Ceil(m / step);
    AxisIs(m, c, step);
    var topScaled := step * intervals as real;
    TopBounds(m, step, intervals, scale);
    ticks := Multiples(step, topScaled, scale, intervals);
    top := topScaled * scale;
    assert ticks[1] == 1.0 * (step * scale);
  }

  /** The scaled maximum lies less than one step below the top, with a bounded number of intervals. */
  lemma AxisIs(m: real, c: nat, step: real)
    requires m > 0.0 && c > 0 && step > 0.0 && m <= c as real * step < 2.0 * m
    ensures var n := Ceil(m / step);
      (n - 1) as real * step < m <= n as real * step && 1 <= n <= c && 2 * n > c
  {
    CeilOfQuotient(m, step);
    IntervalCount(m, c, step, Ceil(m / step));
  }

  /** The loop of the ticks, which stops behind the top. */
  method Multiples(step: real, topScaled: real, scale: real, ghost n: int) returns (ticks: seq<real>)
    requires step > 0.0 && n >= 0 && topScaled == step * n as real
    ensures |ticks| == n + 1 && EqualSteps(ticks, step * scale)
  {
    ticks := [];
    var k := 0;
    while k as real * step <= topScaled
      invariant 0 <= k <= n + 1 && |ticks| == k && EqualSteps(ticks, step * scale)
      decreases n + 1 - k
    {
      WithinTop(k, n, step);
      var v := k as real * step;
      assert v * scale == k as real * (step * scale);
      ticks := ticks + [v * scale];
      k := k + 1;
    }
    WithinTop(k, n, step);
  }

  lemma WithinTop(k: int, n: int, s: real)
    requires s > 0.0
    ensures k as real * s <= s * n as real <==> k <= n
  {
    Scale(k as real, n as real, s);
    Scale(n as real, k as real, s);
  }

  lemma TopBounds(m: real, s: real, n: int, scale: real)
    requires scale > 0.0 && s > 0.0 && (n - 1) as real * s < m <= n as real * s
    ensures scale * m <= s * n as real * scale < scale * m + s * scale
    ensures s * n as real * scale == n as real * (s * scale) && s * scale > 0.0
  {
    Scale(m, n as real * s, scale);
    Scale(n as real * s, m + s, scale);
  }

  // ---------- Labels of the time axis ----------

  function CeilDiv(n: nat, e: nat): nat
    requires e > 0
  {
    (n + e - 1) / e
  }

  lemma CeilDivIs(n: nat, e: nat, c: nat)
    requires e > 0
    ensures CeilDiv(n, e) <= c <==> n <= c * e
  {
    var q := CeilDiv(n, e);
    assert q * e <= n + e - 1 < q * e + e;
    if q <= c {
      assert q * e <= c * e;
    } else {
      assert (c + 1) * e <= q * e;
    }
  }

  /** Labelling every ceil(n / cap)-th point makes at most `cap` labels. */
  lemma CeilOfCeil(n: nat, cap: nat)
    requires n > 0 && cap > 0
    ensures CeilDiv(n, cap) > 0 && CeilDiv(n, CeilDiv(n, cap)) <= cap
  {
    CeilDivIs(n, cap, 0);
    CeilDivIs(n, cap, CeilDiv(n, cap));
    CeilDivIs(n, CeilDiv(n, cap), cap);
  }

  /** The preferred distances of a time unit. */
  function Preferred(unit: string): seq<nat> {
    if unit == "minute" then [10, 15, 20, 30] else if unit == "hour" then [3, 4, 6, 8, 12]
    else if unit == "day" then [1, 2, 5, 7, 10] else [1, 2, 5, 10]
  }

  /** Ten minutes at least, three hours, and single days, by the multiples people read. */
  lemma PreferredAre(unit: string)
    ensures unit == "minute" ==> Preferred(unit) == [10, 15, 20, 30]
    ensures unit == "hour" ==> Preferred(unit) == [3, 4, 6, 8, 12]
    ensures unit == "day" ==> Preferred(unit) == [1, 2, 5, 7, 10]
    ensures unit !in {"minute", "hour", "day"} ==> Preferred(unit) == [1, 2, 5, 10]
  {
  }

  /** `pref.find((e) => Math.ceil(n / e) <= cap)`, 0 for none. */
  function FirstFitting(pref: seq<nat>, n: nat, cap: nat): (e: nat)
    requires forall i :: 0 <= i < |pref| ==> pref[i] > 0
    ensures e > 0 ==> CeilDiv(n, e) <= cap
  {
    if pref == [] then 0 else if CeilDiv(n, pref[0]) <= cap then pref[0] else FirstFitting(pref[1..], n, cap)
  }

  /** The first preferred distance at position `i` or later that keeps to the cap. */
  ghost predicate IsFirstFit(pref: seq<nat>, n: nat, cap: nat, i: nat)
    requires forall k :: 0 <= k < |pref| ==> pref[k] > 0
  {
    i < |pref| && CeilDiv(n, pref[i]) <= cap && forall k :: 0 <= k < i ==> CeilDiv(n, pref[k]) > cap
  }

  lemma {:induction false} FirstFittingIs(pref: seq<nat>, n: nat, cap: nat, i: nat)
    requires forall k :: 0 <= k < |pref| ==> pref[k] > 0
    ensures IsFirstFit(pref, n, cap, i) ==> FirstFitting(pref, n, cap) == pref[i]
    ensures (forall k :: 0 <= k < |pref| ==> CeilDiv(n, pref[k]) > cap) ==> FirstFitting(pref, n, cap) == 0
  {
    if pref != [] && CeilDiv(n, pref[0]) > cap {
      FirstFittingIs(pref[1..], n, cap, if i > 0 then i - 1 else 0);
    }
  }

  /** The distance between two labels. */
  function Distance(n: nat, unit: string, cap: nat): (every: nat)
    requires n > 0 && cap > 0
  {
    var fitting := FirstFitting(Preferred(unit), n, cap);
    if n <= cap && unit == "day" then 1 else if fitting > 0 then fitting else CeilDiv(n, cap)
  }

  /**
  The distance is the first preferred one that keeps to the cap, else an equal share; the case of few days makes no
  difference.
  */
  lemma DistanceIs(n: nat, unit: string, cap: nat, i: nat)
    requires n > 0 && cap > 0
    ensures var pref := Preferred(unit);
      && (IsFirstFit(pref, n, cap, i) ==> Distance(n, unit, cap) == pref[i])
      && ((forall k :: 0 <= k < |pref| ==> CeilDiv(n, pref[k]) > cap) ==> Distance(n, unit, cap) == CeilDiv(n, cap))
  {
    var pref := Preferred(unit);
    FirstFittingIs(pref, n, cap, i);
    if n <= cap && unit == "day" {
      CeilDivIs(n, 1, cap);
      assert pref[0] == 1;
      FirstFittingIs(pref, n, cap, 0);
    }
  }

  lemma DistanceFits(n: nat, unit: string, cap: nat)
    requires n > 0 && cap > 0
    ensures Distance(n, unit, cap) > 0 && n <= cap * Distance(n, unit, cap)
  {
    CeilOfCeil(n, cap);
    CeilDivIs(n, Distance(n, unit, cap), cap);
    CeilDivIs(n, 1, cap);
  }

  /** At most `cap` indices, equally spaced upwards, ending at the last point and leaving no room in front. */
  method XTickIndices(n: int, unit: string, maxLabels: nat) returns (out: seq<nat>)
    ensures n <= 0 ==> out == []
    ensures n > 0 ==>
      var cap := if maxLabels == 0 then 7 else maxLabels;
      var every := Distance(n, unit, cap);
      && 0 < |out| <= cap && out[|out| - 1] == n - 1 && out[0] < every
      && every > 0 && Spaced(out, every)
  {
    out := [];
    if n <= 0 {
      return;
    }
    var cap := if maxLabels == 0 then 7 else maxLabels;
    var every := Distance(n, unit, cap);
    DistanceFits(n, unit, cap);
    var i := n - 1;
    while i >= 0
      invariant -every <= i <= n - 1
      invariant |out| * every == n - 1 - i
      invariant if out == [] then i == n - 1 else out[0] == i + every && out[|out| - 1] == n - 1
      invariant Spaced(out, every)
      decreases i + every
    {
      SpacedCons(i, out, every);
      out := [i] + out;
      i := i - every;
    }
    FewerThan(|out|, cap, every, n);
  }

  ghost predicate Spaced(s: seq<nat>, every: nat) {
    forall k :: 0 < k < |s| ==> s[k] == s[k - 1] + every
  }

  lemma SpacedCons(i: nat, s: seq<nat>, every: nat)
    requires Spaced(s, every) && (s != [] ==> s[0] == i + every)
    ensures Spaced([i] + s, every) && |[i] + s| * every == |s| * every + every
  {
    var t := [i] + s;
    forall k | 0 < k < |t| ensures t[k] == t[k - 1] + every {
      assert t[k] == s[k - 1] && (k > 1 ==> t[k - 1] == s[k - 2]);
    }
  }

  lemma FewerThan(count: nat, cap: nat, every: nat, n: nat)
    requires every > 0 && count * every < n + every && n <= cap * every
    ensures count <= cap
  {
    assert count * every < (cap + 1) * every;
  }
}
