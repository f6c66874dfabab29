/**
 * Rejection sampling of scattered points (src/ui/layout/randomDistribute.ts): each point is drawn
 * uniformly in the area until it is at least minDist away from every point placed before it,
 * giving up after maxTriesPerPoint draws. The random source is a parameter: `rng(k)` is the k-th
 * value it yields; the out-parameter `used` says how many values were consumed.
 */
module RandomDistribute {
  import opened Wrappers
  import opened LayoutTypes

  const DefaultMinDist: real := 120.0
  const DefaultMaxTries: int := 40

  datatype ScatterParams = ScatterParams(count: int, area: Rect, minDist: Option<real>, maxTriesPerPoint: Option<int>)
  {
    function MinDist(): real { minDist.GetOr(DefaultMinDist) }
    function MaxTries(): int { maxTriesPerPoint.GetOr(DefaultMaxTries) }
  }

  datatype ScatterResult = ScatterResult(points: seq<Point>, fits: bool)

  /** `a + (b - a) * r`: a value between a and b for r in [0, 1]. */
  function RandBetween(a: real, b: real, r: real): real {
    a + (b - a) * r
  }

  /** v lies between a and b, whichever of the two is larger. */
  predicate InSpan(v: real, a: real, b: real) {
    (a <= v <= b) || (b <= v <= a)
  }

  lemma MulNonneg(x: real, y: real)
    requires x >= 0.0 && y >= 0.0
    ensures x * y >= 0.0
  {
  }

  lemma RandBetweenInSpan(a: real, b: real, r: real)
    requires 0.0 <= r < 1.0
    ensures InSpan(RandBetween(a, b, r), a, b)
  {
    var d := b - a;
    assert d - d * r == d * (1.0 - r);
    if a <= b {
      MulNonneg(d, r);
      MulNonneg(d, 1.0 - r);
    } else {
      MulNonneg(-d, r);
      MulNonneg(-d, 1.0 - r);
    }
  }

  /**
   * The distance test `Distance.Between(p, q) >= minDist`, on squares: a distance is never negative,
   * so every pair passes a minDist of 0 or less.
   */
  predicate FarEnough(p: Point, q: Point, minDist: real) {
    minDist <= 0.0 || (p.x - q.x) * (p.x - q.x) + (p.y - q.y) * (p.y - q.y) >= minDist * minDist
  }

  /** A value drawn from a source of values in [0, 1) lands between the two bounds. */
  lemma SampleInSpan(a: real, b: real, rng: nat -> real, k: nat)
    ensures UnitSource(rng) ==> InSpan(RandBetween(a, b, rng(k)), a, b)
  {
    if UnitSource(rng) {
      RandBetweenInSpan(a, b, rng(k));
    }
  }

  /** Every two distinct points of the list are at least minDist apart. */
  predicate Spread(points: seq<Point>, minDist: real) {
    forall a, b :: 0 <= a < b < |points| ==> FarEnough(points[a], points[b], minDist)
  }

  /** The test `points.every(...)` applied to a candidate. */
  predicate FarFromAll(points: seq<Point>, q: Point, minDist: real) {
    forall a :: 0 <= a < |points| ==> FarEnough(points[a], q, minDist)
  }

  predicate InArea(q: Point, area: Rect) {
    InSpan(q.x, area.x, area.x + area.w) && InSpan(q.y, area.y, area.y + area.h)
  }

  /** The random source only yields values in [0, 1). */
  ghost predicate UnitSource(rng: nat -> real) {
    forall k :: 0.0 <= rng(k) < 1.0
  }

  function Max0(n: int): nat {
    if n > 0 then n else 0
  }

  /** Source values that i points may consume: two per try, maxTries tries per point. */
  function Budget(i: nat, maxTries: int): nat {
    2 * i * Max0(maxTries)
  }

  lemma BudgetStep(i: nat, maxTries: int)
    ensures Budget(i + 1, maxTries) == Budget(i, maxTries) + 2 * Max0(maxTries)
  {
  }

  lemma BudgetMono(i: nat, j: nat, maxTries: int)
    requires i <= j
    ensures Budget(i, maxTries) <= Budget(j, maxTries)
  {
    assert Budget(j, maxTries) - Budget(i, maxTries) == 2 * (j - i) * Max0(maxTries);
  }

  /** The checks every later point passes keep the list spread when it is appended. */
  lemma AppendKeepsSpread(points: seq<Point>, q: Point, minDist: real)
    requires Spread(points, minDist) && FarFromAll(points, q, minDist)
    ensures Spread(points + [q], minDist)
  {
  }

  /** The candidate read from source values k and k + 1: x from the first, y from the second. */
  function Candidate(area: Rect, rng: nat -> real, k: nat): Point {
    Point(RandBetween(area.x, area.x + area.w, rng(k)), RandBetween(area.y, area.y + area.h, rng(k + 1)))
  }

  /** The candidates of an area and a source, by the source position they start at. */
  function Draws(area: Rect, rng: nat -> real): nat -> Point {
    (k: nat) => Candidate(area, rng, k)
  }

  /** With a source of values in [0, 1), the candidate lies in the area. */
  lemma CandidateInArea(area: Rect, rng: nat -> real, k: nat)
    ensures UnitSource(rng) ==> InArea(Candidate(area, rng, k), area)
  {
    SampleInSpan(area.x, area.x + area.w, rng, k);
    SampleInSpan(area.y, area.y + area.h, rng, k + 1);
  }

  /** With a source of values in [0, 1), every candidate lies in the area. */
  lemma DrawsInArea(area: Rect, rng: nat -> real, k: nat)
    ensures UnitSource(rng) ==> InArea(Draws(area, rng)(k), area)
  {
    CandidateInArea(area, rng, k);
  }

  /** With a source of values in [0, 1), no candidate falls outside the area. */
  lemma AllDrawsInArea(area: Rect, rng: nat -> real)
    ensures UnitSource(rng) ==> forall k :: InArea(Draws(area, rng)(k), area)
  {
    forall k: nat
      ensures UnitSource(rng) ==> InArea(Draws(area, rng)(k), area)
    {
      DrawsInArea(area, rng, k);
    }
  }

  /** Try t of a point whose tries start at source value `used`: two values per try. */
  function Try(draw: nat -> Point, used: nat, t: nat): Point {
    draw(used + 2 * t)
  }

  /**
   * The first try at or after t, below maxTries, whose candidate is far enough from every placed
   * point; none when every remaining try fails.
   */
  function FirstFit(points: seq<Point>, minDist: real, maxTries: nat, draw: nat -> Point, used: nat, t: nat): Option<nat>
    requires t <= maxTries
    decreases maxTries - t
  {
    if t == maxTries then None
    else if FarFromAll(points, Try(draw, used, t), minDist) then Some(t)
    else FirstFit(points, minDist, maxTries, draw, used, t + 1)
  }

  /**
   * The first fit is a try that passes, every earlier try fails, and there is none only when every
   * remaining try fails.
   */
  lemma {:induction false} FirstFitSpec(points: seq<Point>, minDist: real, maxTries: nat, draw: nat -> Point, used: nat, t: nat)
    requires t <= maxTries
    ensures var r := FirstFit(points, minDist, maxTries, draw, used, t);
            (r.Some? ==> t <= r.value < maxTries && FarFromAll(points, Try(draw, used, r.value), minDist)) &&
            (r.Some? ==> forall s :: t <= s < r.value ==> !FarFromAll(points, Try(draw, used, s), minDist)) &&
            (r.None? ==> forall s :: t <= s < maxTries ==> !FarFromAll(points, Try(draw, used, s), minDist))
    decreases maxTries - t
  {
    if t < maxTries && !FarFromAll(points, Try(draw, used, t), minDist) {
      FirstFitSpec(points, minDist, maxTries, draw, used, t + 1);
    }
  }

  /**
   * Placing n more points after `points`, the tries of the next point starting at source value
   * `used`: each point is its first fitting try; the first point without one ends the scatter
   * unfitted. Also the source position reached.
   */
  function Scatter(points: seq<Point>, n: nat, minDist: real, maxTries: nat, draw: nat -> Point, used: nat): (ScatterResult, nat)
    decreases n
  {
    if n == 0 then (ScatterResult(points, true), used)
    else
      match FirstFit(points, minDist, maxTries, draw, used, 0)
      case None => (ScatterResult(points, false), used + 2 * maxTries)
      case Some(t) => Scatter(points + [Try(draw, used, t)], n - 1, minDist, maxTries, draw, used + 2 * t + 2)
  }

  /** A point placed at its first fitting try leaves the rest of the scatter to the next point. */
  lemma ScatterPlaced(points: seq<Point>, n: nat, minDist: real, maxTries: nat, draw: nat -> Point, used: nat, t: nat)
    requires n > 0 && FirstFit(points, minDist, maxTries, draw, used, 0) == Some(t)
    ensures Scatter(points, n, minDist, maxTries, draw, used) ==
            Scatter(points + [Try(draw, used, t)], n - 1, minDist, maxTries, draw, used + 2 * t + 2)
  {
  }

  /** A point without a fitting try ends the scatter, unfitted, after all its tries. */
  lemma ScatterGaveUp(points: seq<Point>, n: nat, minDist: real, maxTries: nat, draw: nat -> Point, used: nat)
    requires n > 0 && FirstFit(points, minDist, maxTries, draw, used, 0).None?
    ensures Scatter(points, n, minDist, maxTries, draw, used) == (ScatterResult(points, false), used + 2 * maxTries)
  {
  }

  /** The scatter only appends: at most n new points, fitted exactly when all n were placed. */
  lemma {:induction false} ScatterShape(points: seq<Point>, n: nat, minDist: real, maxTries: nat, draw: nat -> Point, used: nat)
    ensures var res := Scatter(points, n, minDist, maxTries, draw, used).0;
            |points| <= |res.points| <= |points| + n && res.points[..|points|] == points &&
            (res.fits <==> |res.points| == |points| + n)
    decreases n
  {
    if n > 0 {
      match FirstFit(points, minDist, maxTries, draw, used, 0)
      case None =>
      case Some(t) =>
        var q := Try(draw, used, t);
        ScatterShape(points + [q], n - 1, minDist, maxTries, draw, used + 2 * t + 2);
        var res := Scatter(points + [q], n - 1, minDist, maxTries, draw, used + 2 * t + 2).0;
        assert res.points[..|points|] == res.points[..|points| + 1][..|points|];
    }
  }

  /** The scatter reads at most two source values per try, maxTries tries per point. */
  lemma {:induction false} ScatterBudget(points: seq<Point>, n: nat, minDist: real, maxTries: nat, draw: nat -> Point, used: nat)
    ensures var next := Scatter(points, n, minDist, maxTries, draw, used).1;
            used <= next <= used + Budget(n, maxTries)
    decreases n
  {
    if n > 0 {
      BudgetStep(n - 1, maxTries);
      FirstFitSpec(points, minDist, maxTries, draw, used, 0);
      match FirstFit(points, minDist, maxTries, draw, used, 0)
      case None =>
      case Some(t) =>
        ScatterBudget(points + [Try(draw, used, t)], n - 1, minDist, maxTries, draw, used + 2 * t + 2);
    }
  }

  /**
   * The scatter keeps the points pairwise at least minDist apart, and inside the area when every
   * candidate is.
   */
  lemma {:induction false} ScatterSpread(points: seq<Point>, n: nat, minDist: real, maxTries: nat, draw: nat -> Point, used: nat,
                                         area: Rect, inArea: bool)
    requires Spread(points, minDist)
    requires inArea ==> forall k :: InArea(draw(k), area)
    requires inArea ==> forall k :: 0 <= k < |points| ==> InArea(points[k], area)
    ensures var res := Scatter(points, n, minDist, maxTries, draw, used).0;
            Spread(res.points, minDist) && (inArea ==> forall k :: 0 <= k < |res.points| ==> InArea(res.points[k], area))
    decreases n
  {
    if n > 0 {
      FirstFitSpec(points, minDist, maxTries, draw, used, 0);
      match FirstFit(points, minDist, maxTries, draw, used, 0)
      case None =>
      case Some(t) =>
        var q := Try(draw, used, t);
        AppendKeepsSpread(points, q, minDist);
        ScatterSpread(points + [q], n - 1, minDist, maxTries, draw, used + 2 * t + 2, area, inArea);
    }
  }

  /** With no tries allowed, the first point already fails: nothing is placed. */
  lemma ScatterNoTries(n: nat, minDist: real, draw: nat -> Point)
    requires n > 0
    ensures Scatter([], n, minDist, 0, draw, 0).0 == ScatterResult([], false)
  {
  }

  /**
   * What the scatter of count points from an empty list and the first source value promises: at
   * most count points, pairwise at least minDist apart, inside the area when the source yields
   * values in [0, 1), fits exactly when all count points were placed, nothing placed when no try is
   * allowed, and at most two source values per try read.
   */
  lemma ScatterFromEmpty(p: ScatterParams, rng: nat -> real, res: ScatterResult, used: nat)
    requires (res, used) == Scatter([], Max0(p.count), p.MinDist(), Max0(p.MaxTries()), Draws(p.area, rng), 0)
    ensures |res.points| <= Max0(p.count)
    ensures res.fits <==> |res.points| == Max0(p.count)
    ensures Spread(res.points, p.MinDist())
    ensures UnitSource(rng) ==> forall k :: 0 <= k < |res.points| ==> InArea(res.points[k], p.area)
    ensures p.MaxTries() <= 0 && p.count > 0 ==> res == ScatterResult([], false)
    ensures used <= Budget(Max0(p.count), p.MaxTries())
  {
    var minDist, tries, draw := p.MinDist(), Max0(p.MaxTries()), Draws(p.area, rng);
    ScatterShape([], Max0(p.count), minDist, tries, draw, 0);
    AllDrawsInArea(p.area, rng);
    ScatterSpread([], Max0(p.count), minDist, tries, draw, 0, p.area, UnitSource(rng));
    ScatterBudget([], Max0(p.count), minDist, tries, draw, 0);
    if p.MaxTries() <= 0 && p.count > 0 {
      ScatterNoTries(Max0(p.count), minDist, draw);
    }
  }

  /**
   * `randomDistributePoints`: the scatter of count points from an empty list and the first source
   * value, with what ScatterFromEmpty proves of it.
   */
  method Distribute(p: ScatterParams, rng: nat -> real) returns (res: ScatterResult, used: nat)
    ensures (res, used) == Scatter([], Max0(p.count), p.MinDist(), Max0(p.MaxTries()), Draws(p.area, rng), 0)
    ensures |res.points| <= Max0(p.count)
    ensures res.fits <==> |res.points| == Max0(p.count)
    ensures Spread(res.points, p.MinDist())
    ensures UnitSource(rng) ==> forall k :: 0 <= k < |res.points| ==> InArea(res.points[k], p.area)
    ensures p.MaxTries() <= 0 && p.count > 0 ==> res == ScatterResult([], false)
    ensures used <= Budget(Max0(p.count), p.MaxTries())
  {
    var minDist := p.MinDist();
    var maxTries := p.MaxTries();
    ghost var tries := Max0(maxTries);
    ghost var draw := Draws(p.area, rng);
    ghost var goal := Scatter([], Max0(p.count), minDist, tries, draw, 0);
    var points: seq<Point> := [];
    used := 0;
    var i := 0;
    while i < p.count
      invariant 0 <= i <= Max0(p.count) && |points| == i
      invariant Scatter(points, Max0(p.count) - i, minDist, tries, draw, used) == goal
    {
      var placed, next := TryPlace(points, p.area, minDist, maxTries, rng, used);
      ghost var left: nat := Max0(p.count) - i;
      match placed {
        case None =>
          ScatterGaveUp(points, left, minDist, tries, draw, used);
          ScatterFromEmpty(p, rng, ScatterResult(points, false), next);
          return ScatterResult(points, false), next;
        case Some(q) =>
          ScatterPlaced(points, left, minDist, tries, draw, used, FirstFit(points, minDist, tries, draw, used, 0).value);
          points := points + [q];
          used := next;
          i := i + 1;
      }
    }
    ScatterFromEmpty(p, rng, ScatterResult(points, true), used);
    return ScatterResult(points, true), used;
  }

  /**
   * The inner loop: up to maxTries candidates, each from two fresh source values (x first, then y);
   * the first candidate far enough from every placed point is returned with the source position
   * after it; when every try fails, none, after two values per try.
   */
  method TryPlace(points: seq<Point>, area: Rect, minDist: real, maxTries: int, rng: nat -> real, used: nat)
    returns (placed: Option<Point>, next: nat)
    ensures match FirstFit(points, minDist, Max0(maxTries), Draws(area, rng), used, 0)
            case None => placed == None && next == used + 2 * Max0(maxTries)
            case Some(t) => placed == Some(Try(Draws(area, rng), used, t)) && next == used + 2 * t + 2
    ensures placed.Some? ==> FarFromAll(points, placed.value, minDist)
  {
    ghost var draw := Draws(area, rng);
    next := used;
    var t := 0;
    ghost var tries := Max0(maxTries);
    ghost var fit := FirstFit(points, minDist, tries, draw, used, 0);
    while t < maxTries
      invariant 0 <= t <= tries && next == used + 2 * t
      invariant FirstFit(points, minDist, tries, draw, used, t) == fit
    {
      var q := Candidate(area, rng, next);
      next := next + 2;
      var ok := AllFar(points, q, minDist);
      if ok {
        return Some(q), next;
      }
      t := t + 1;
    }
    return None, next;
  }

  /** `points.every(p => distance(p, q) >= minDist)`, scanning the list in order. */
  method AllFar(points: seq<Point>, q: Point, minDist: real) returns (ok: bool)
    ensures ok <==> FarFromAll(points, q, minDist)
  {
    var a := 0;
    while a < |points|
      invariant 0 <= a <= |points|
      invariant FarFromAll(points[..a], q, minDist)
    {
      var pa := points[a];
      if !FarEnough(pa, q, minDist) {
        return false;
      }
      a := a + 1;
    }
    assert points[..a] == points;
    return true;
  }
}
