/**
 * The travel-order optimiser of GrblFile.cs: `OptimizePaths` orders the
 * traced paths greedily by nearest neighbour over a matrix of squared
 * travel distances, and `ParallelOptimizePaths` splits large inputs into
 * contiguous blocks (`GetTaskJob`) that are ordered independently and
 * joined in block order.
 */
module PathOptimizer {
  import opened Numbers
  import opened Geometry

  /** A path: a non-empty run of curves drawn without lifting the laser. */
  type Path = seq<Curve>

  predicate ValidPaths(list: seq<Path>)
  {
    forall i :: 0 <= i < |list| ==> |list[i]| > 0
  }

  /** `First().A`: where a path begins. */
  function Start(p: Path): Point
    requires |p| > 0
  {
    p[0].A
  }

  /** `Last().B`: where a path ends. */
  function End(p: Path): Point
    requires |p| > 0
  {
    p[|p| - 1].B
  }

  /** `SquareDistance`: the squared distance from a to b. */
  function SquareDistance(a: Point, b: Point): Double
  {
    var dX := Sub(b.X, a.X);
    var dY := Sub(b.Y, a.Y);
    Add(Mul(dX, dX), Mul(dY, dY))
  }

  /** `SquareDistanceZero`: the squared distance from the origin. */
  function SquareDistanceZero(a: Point): Double
  {
    Add(Mul(a.X, a.X), Mul(a.Y, a.Y))
  }

  /** The squared distance is a non-negative number unless a coordinate is
      NaN, does not depend on direction, and measured from the origin it is
      `SquareDistanceZero`. */
  lemma SquareDistanceProperties(a: Point, b: Point)
    ensures SquareDistance(a, b).NaN? <==> !(FinitePoint(a) && FinitePoint(b))
    ensures SquareDistance(a, b).Num? ==> SquareDistance(a, b).v >= 0.0
    ensures SquareDistance(a, b) == SquareDistance(b, a)
    ensures SquareDistance(Point(Num(0.0), Num(0.0)), a) == SquareDistanceZero(a)
    ensures FinitePoint(a) ==> SquareDistance(a, a) == Num(0.0)
  {
    if FinitePoint(a) && FinitePoint(b) {
      var dX, dY := b.X.v - a.X.v, b.Y.v - a.Y.v;
      assert dX * dX >= 0.0 && dY * dY >= 0.0;
      assert (a.X.v - b.X.v) * (a.X.v - b.X.v) == dX * dX;
      assert (a.Y.v - b.Y.v) * (a.Y.v - b.Y.v) == dY * dY;
    }
  }

  /** `d < bound` on doubles: false when d is NaN. */
  predicate Below(d: Double, bound: real)
  {
    d.Num? && d.v < bound
  }

  /** `costs[c1, c2]`: travel from the end of path c1 to the start of path
      c2, and `double.MaxValue` from a path to itself. */
  function Cost(list: seq<Path>, c1: int, c2: int): Double
    requires ValidPaths(list) && 0 <= c1 < |list| && 0 <= c2 < |list|
  {
    if c1 == c2 then Num(DoubleMax) else SquareDistance(End(list[c1]), Start(list[c2]))
  }

  // ---------------------------------------------------------------------
  // Picking the first strict minimum

  /** The search both loops of `OptimizePaths` perform: scan the values in
      order, starting from `double.MaxValue`, and keep the position of each
      value strictly below the best so far. The position is -1 when no
      value is below `double.MaxValue`. */
  function FirstMin(vals: seq<Double>): (r: (int, real))
    ensures -1 <= r.0 < |vals|
  {
    if vals == [] then (-1, DoubleMax)
    else
      var r := FirstMin(vals[..|vals| - 1]);
      var v := vals[|vals| - 1];
      if Below(v, r.1) then (|vals| - 1, v.v) else r
  }

  /** `FirstMin` finds the first position holding the least value: nothing
      is strictly smaller, everything before it is strictly larger or NaN,
      and it finds nothing only when no value is below `double.MaxValue`. */
  lemma {:induction false} FirstMinSpec(vals: seq<Double>)
    ensures var (p, d) := FirstMin(vals);
      && (p == -1 <==> forall q :: 0 <= q < |vals| ==> !Below(vals[q], DoubleMax))
      && (p == -1 ==> d == DoubleMax)
      && (p != -1 ==> vals[p] == Num(d) && d < DoubleMax)
      && (p != -1 ==> forall q :: 0 <= q < |vals| ==> !Below(vals[q], d))
      && (p != -1 ==> forall q :: 0 <= q < p ==> !(vals[q].Num? && vals[q].v <= d))
  {
    if vals != [] {
      var n := |vals|;
      var pre := vals[..n - 1];
      FirstMinSpec(pre);
      assert forall q :: 0 <= q < n - 1 ==> vals[q] == pre[q];
    }
  }

  lemma FirstMinPrefix(vals: seq<Double>, t: int)
    requires 0 <= t < |vals|
    ensures var r := FirstMin(vals[..t]);
      FirstMin(vals[..t + 1]) == if Below(vals[t], r.1) then (t, vals[t].v) else r
  {
    assert vals[..t + 1][..t] == vals[..t];
  }

  // ---------------------------------------------------------------------
  // The greedy order

  /** `Enumerable.Range(0, n)`. */
  function Range(n: nat): (r: seq<int>)
    ensures |r| == n && forall i :: 0 <= i < n ==> r[i] == i
  {
    seq(n, i => i)
  }

  predicate StrictlySorted(s: seq<int>)
  {
    forall i, j :: 0 <= i < j < |s| ==> s[i] < s[j]
  }

  predicate InRange(s: seq<int>, n: int)
  {
    forall i :: 0 <= i < |s| ==> 0 <= s[i] < n
  }

  /** `List.Remove`: drops the first occurrence of x, if any. */
  function Remove(s: seq<int>, x: int): seq<int>
  {
    if s == [] then [] else if s[0] == x then s[1..] else [s[0]] + Remove(s[1..], x)
  }

  /** A sorted list without its head is sorted, and above its head. */
  lemma SortedTail(s: seq<int>)
    requires StrictlySorted(s) && s != []
    ensures StrictlySorted(s[1..]) && forall y :: y in s[1..] ==> s[0] < y
  {
    var t := s[1..];
    forall i, j | 0 <= i < j < |t| ensures t[i] < t[j] {
      assert t[i] == s[i + 1] && t[j] == s[j + 1];
    }
    forall y | y in t ensures s[0] < y {
      var j :| 0 <= j < |t| && t[j] == y;
      assert s[j + 1] == y;
    }
  }

  /** A value below every element of a sorted list can head it. */
  lemma SortedCons(a: int, r: seq<int>)
    requires StrictlySorted(r) && forall y :: y in r ==> a < y
    ensures StrictlySorted([a] + r)
  {
    forall i, j | 0 <= i < j < |r| + 1 ensures ([a] + r)[i] < ([a] + r)[j] {
      if i > 0 {
        assert ([a] + r)[i] == r[i - 1] && ([a] + r)[j] == r[j - 1];
      } else {
        assert ([a] + r)[j] in r;
      }
    }
  }

  /** `Remove` keeps the other elements and drops one occurrence of x. */
  lemma {:induction false} RemoveMembers(s: seq<int>, x: int)
    ensures forall y :: y in Remove(s, x) ==> y in s
    ensures forall y :: y in s && y != x ==> y in Remove(s, x)
    ensures x in s ==> |Remove(s, x)| == |s| - 1
  {
    if s != [] {
      RemoveMembers(s[1..], x);
      assert s == [s[0]] + s[1..];
    }
  }

  lemma {:induction false} RemoveSpec(s: seq<int>, x: int)
    requires StrictlySorted(s)
    ensures StrictlySorted(Remove(s, x))
    ensures forall y :: y in Remove(s, x) <==> y in s && y != x
    ensures x in s ==> |Remove(s, x)| == |s| - 1
  {
    RemoveMembers(s, x);
    if s != [] {
      var t := s[1..];
      SortedTail(s);
      if s[0] != x {
        assert StrictlySorted(Remove(t, x)) && x !in Remove(t, x) by {
          RemoveSpec(t, x);
        }
        RemoveMembers(t, x);
        SortedCons(s[0], Remove(t, x));
      } else {
        assert x !in t;
      }
    }
  }

  /** The costs from path `last` to each unvisited path, in list order. */
  function Row(list: seq<Path>, last: int, U: seq<int>): (r: seq<Double>)
    requires ValidPaths(list) && 0 <= last < |list| && InRange(U, |list|)
    ensures |r| == |U|
  {
    seq(|U|, t requires 0 <= t < |U| => Cost(list, last, U[t]))
  }

  /** The choice of the next path after `last`, as `OptimizePaths` makes it
      when some unvisited path is reachable at a cost below
      `double.MaxValue`; otherwise the first unvisited path (see
      `SelectAsWritten` for what the source does then). */
  function Select(list: seq<Path>, last: int, U: seq<int>): int
    requires ValidPaths(list) && 0 <= last < |list| && InRange(U, |list|) && U != []
  {
    var p := FirstMin(Row(list, last, U)).0;
    if p == -1 then U[0] else U[p]
  }

  /** The choice exactly as written: `bestIndex` starts at 0, so when no
      unvisited cost is below `double.MaxValue` (NaN coordinates make every
      cost NaN) the choice is path 0, visited or not. */
  function SelectAsWritten(list: seq<Path>, last: int, U: seq<int>): int
    requires ValidPaths(list) && 0 <= last < |list| && InRange(U, |list|)
  {
    var p := FirstMin(Row(list, last, U)).0;
    if p == -1 then 0 else U[p]
  }

  /** The next path is an unvisited one at the least cost from `last`, the
      lowest-numbered one among equals; when no cost is below
      `double.MaxValue`, it is the lowest-numbered unvisited path. */
  lemma SelectSpec(list: seq<Path>, last: int, U: seq<int>)
    requires ValidPaths(list) && 0 <= last < |list| && InRange(U, |list|) && U != [] && StrictlySorted(U)
    ensures var b := Select(list, last, U);
      && b in U
      && ((forall u :: u in U ==> !Below(Cost(list, last, u), DoubleMax)) ==> b == U[0])
      && ((exists u :: u in U && Below(Cost(list, last, u), DoubleMax)) ==>
            && Below(Cost(list, last, b), DoubleMax)
            && (forall u :: u in U ==> !Below(Cost(list, last, u), Cost(list, last, b).v))
            && (forall u :: u in U && u < b ==> !(Cost(list, last, u).Num? && Cost(list, last, u).v <= Cost(list, last, b).v)))
  {
    var vals := Row(list, last, U);
    FirstMinSpec(vals);
    var (p, d) := FirstMin(vals);
    if p != -1 {
      forall u | u in U ensures !Below(Cost(list, last, u), d) {
        var q :| 0 <= q < |U| && U[q] == u;
        assert vals[q] == Cost(list, last, u);
      }
      forall u | u in U && u < U[p] ensures !(Cost(list, last, u).Num? && Cost(list, last, u).v <= d) {
        var q :| 0 <= q < |U| && U[q] == u;
        assert vals[q] == Cost(list, last, u);
      }
    } else {
      forall u | u in U ensures !Below(Cost(list, last, u), DoubleMax) {
        var q :| 0 <= q < |U| && U[q] == u;
        assert vals[q] == Cost(list, last, u);
      }
    }
  }

  /** Whenever some unvisited path is reachable below `double.MaxValue`,
      the choice is the one the source makes. */
  lemma SelectAgrees(list: seq<Path>, last: int, U: seq<int>)
    requires ValidPaths(list) && 0 <= last < |list| && InRange(U, |list|) && U != []
    requires exists u :: u in U && Below(Cost(list, last, u), DoubleMax)
    ensures Select(list, last, U) == SelectAsWritten(list, last, U)
  {
    var vals := Row(list, last, U);
    FirstMinSpec(vals);
    var u :| u in U && Below(Cost(list, last, u), DoubleMax);
    var q :| 0 <= q < |U| && U[q] == u;
    assert vals[q] == Cost(list, last, u);
  }

  /** From a path that ends at NaN every cost is NaN, and the source picks
      path 0 even when it has already been visited; the corrected choice is
      always an unvisited path. */
  lemma SelectAsWrittenRevisits(list: seq<Path>, last: int, U: seq<int>)
    requires ValidPaths(list) && 0 <= last < |list| && InRange(U, |list|) && U != []
    requires !FinitePoint(End(list[last])) && last !in U && 0 !in U
    ensures SelectAsWritten(list, last, U) == 0 && 0 !in U
    ensures Select(list, last, U) == U[0]
  {
    var r := Row(list, last, U);
    forall q | 0 <= q < |r| ensures !Below(r[q], DoubleMax) {
      assert U[q] != last;
      SquareDistanceProperties(End(list[last]), Start(list[U[q]]));
    }
    FirstMinSpec(r);
  }

  /** Three paths that reach that state: the first starts at the origin and
      ends at (1, 0), the second starts at (2, 0) and ends at NaN, the third
      starts at (5, 0). */
  predicate RevisitingPaths(list: seq<Path>)
  {
    && ValidPaths(list) && |list| == 3
    && Start(list[0]) == Point(Num(0.0), Num(0.0)) && End(list[0]) == Point(Num(1.0), Num(0.0))
    && Start(list[1]) == Point(Num(2.0), Num(0.0)) && !FinitePoint(End(list[1]))
    && Start(list[2]) == Point(Num(5.0), Num(0.0))
  }

  /** The walk over those paths begins with the path that starts at the origin. */
  lemma WalkBegins(list: seq<Path>)
    requires RevisitingPaths(list)
    ensures NearestToZero(list) == 0
  {
    var dz := Distances(list);
    assert dz[0] == Num(0.0);
    assert dz[..1][..0] == [] && dz[..1] == [Num(0.0)];
    FirstMinSpec(dz);
  }

  /** From (1, 0), the start (2, 0) is at squared distance 1 and (5, 0) at 16. */
  lemma WalkCosts(list: seq<Path>)
    requires RevisitingPaths(list)
    ensures Cost(list, 0, 1) == Num(1.0) && Cost(list, 0, 2) == Num(16.0)
  {
    var e := Point(Num(1.0), Num(0.0));
    CostBetween(list, 0, 1, e, Point(Num(2.0), Num(0.0)));
    CostBetween(list, 0, 2, e, Point(Num(5.0), Num(0.0)));
    SquareDistanceAlongX(1.0, 2.0);
    SquareDistanceAlongX(1.0, 5.0);
  }

  /** The cost between two different paths is the squared distance from the
      end of the first to the start of the second. */
  lemma CostBetween(list: seq<Path>, c1: int, c2: int, a: Point, b: Point)
    requires ValidPaths(list) && 0 <= c1 < |list| && 0 <= c2 < |list| && c1 != c2
    requires End(list[c1]) == a && Start(list[c2]) == b
    ensures Cost(list, c1, c2) == SquareDistance(a, b)
  {
  }

  /** Between two points on the X axis the squared distance is the square of
      the difference of their abscissas. */
  lemma SquareDistanceAlongX(x1: real, x2: real)
    ensures SquareDistance(Point(Num(x1), Num(0.0)), Point(Num(x2), Num(0.0))) == Num((x2 - x1) * (x2 - x1))
  {
  }

  /** From (1, 0) the nearer of the two remaining starts is (2, 0). */
  lemma WalkContinues(list: seq<Path>)
    requires RevisitingPaths(list)
    ensures Select(list, 0, [1, 2]) == 1
  {
    var r := Row(list, 0, [1, 2]);
    WalkCosts(list);
    assert r[0] == Num(1.0) && r[1] == Num(16.0);
    assert FirstMin(r[..1]) == (0, 1.0) by {
      FirstMinPrefix(r, 0);
      assert r[..0] == [];
    }
    assert FirstMin(r) == (0, 1.0) by {
      FirstMinPrefix(r, 1);
      assert r[..2] == r;
    }
  }

  /** The walk goes 0, then 1, and from 1 the only unvisited path is 2, yet
      the source picks 0 again. */
  lemma RevisitingWalk(list: seq<Path>)
    requires RevisitingPaths(list)
    ensures NearestToZero(list) == 0
    ensures Remove(Range(3), 0) == [1, 2] && Select(list, 0, [1, 2]) == 1
    ensures Remove([1, 2], 1) == [2] && SelectAsWritten(list, 1, [2]) == 0
  {
    WalkBegins(list);
    WalkContinues(list);
    assert Range(3) == [0, 1, 2];
    SelectAsWrittenRevisits(list, 1, [2]);
  }

  /** One turn of the source's loop as written: the choice, then the
      unvisited list after `unvisited.Remove(bestIndex)`. */
  function StepAsWritten(list: seq<Path>, last: int, U: seq<int>): (int, seq<int>)
    requires ValidPaths(list) && 0 <= last < |list| && InRange(U, |list|)
  {
    var b := SelectAsWritten(list, last, U);
    (b, Remove(U, b))
  }

  /** Removing a value that is not there leaves the list as it was. */
  lemma {:induction false} RemoveAbsent(s: seq<int>, x: int)
    requires x !in s
    ensures Remove(s, x) == s
  {
    if s != [] {
      assert x !in s[1..];
      RemoveAbsent(s[1..], x);
      assert [s[0]] + s[1..] == s;
    }
  }

  /** When the current path is path 0, already visited, and it ends at NaN,
      a turn of the loop as written picks path 0 again and removes nothing:
      the state repeats, so the loop never ends while paths are unvisited. */
  lemma AsWrittenStalls(list: seq<Path>, U: seq<int>)
    requires ValidPaths(list) && |list| > 0 && InRange(U, |list|) && U != []
    requires 0 !in U && !FinitePoint(End(list[0]))
    ensures StepAsWritten(list, 0, U) == (0, U)
  {
    SelectAsWrittenRevisits(list, 0, U);
    RemoveAbsent(U, 0);
  }

  /** Two paths that reach that state: the first starts at the origin and
      ends at NaN, the second starts at (1, 0). */
  predicate StallingPaths(list: seq<Path>)
  {
    && ValidPaths(list) && |list| == 2
    && Start(list[0]) == Point(Num(0.0), Num(0.0)) && !FinitePoint(End(list[0]))
    && Start(list[1]) == Point(Num(1.0), Num(0.0))
  }

  /** The walk starts at path 0, leaving [1] unvisited, and then every turn
      picks path 0 and leaves [1] unvisited. */
  lemma StallingWalk(list: seq<Path>)
    requires StallingPaths(list)
    ensures NearestToZero(list) == 0 && Remove(Range(2), 0) == [1]
    ensures StepAsWritten(list, 0, [1]) == (0, [1])
  {
    var dz := Distances(list);
    assert dz[0] == Num(0.0);
    assert dz[..1][..0] == [] && dz[..1] == [Num(0.0)];
    FirstMinSpec(dz);
    assert Range(2) == [0, 1];
    AsWrittenStalls(list, [1]);
  }

  /** The distances of the path starts from the origin. */
  function Distances(list: seq<Path>): (r: seq<Double>)
    requires ValidPaths(list)
    ensures |r| == |list|
  {
    seq(|list|, i requires 0 <= i < |list| => SquareDistanceZero(Start(list[i])))
  }

  /** `nearestToZero`: the first path whose start is strictly nearest to
      the origin, or path 0 when no distance is below `double.MaxValue`. */
  function NearestToZero(list: seq<Path>): int
    requires ValidPaths(list)
  {
    var p := FirstMin(Distances(list)).0;
    if p == -1 then 0 else p
  }

  lemma NearestToZeroSpec(list: seq<Path>)
    requires ValidPaths(list) && |list| > 0
    ensures var b := NearestToZero(list);
      && 0 <= b < |list|
      && ((forall j :: 0 <= j < |list| ==> !Below(SquareDistanceZero(Start(list[j])), DoubleMax)) ==> b == 0)
      && ((exists j :: 0 <= j < |list| && Below(SquareDistanceZero(Start(list[j])), DoubleMax)) ==>
            var d := SquareDistanceZero(Start(list[b]));
            && Below(d, DoubleMax)
            && (forall j :: 0 <= j < |list| ==> !Below(SquareDistanceZero(Start(list[j])), d.v))
            && (forall j :: 0 <= j < b ==> !(SquareDistanceZero(Start(list[j])).Num? && SquareDistanceZero(Start(list[j])).v <= d.v)))
  {
    var dz := Distances(list);
    FirstMinSpec(dz);
    assert forall j :: 0 <= j < |list| ==> dz[j] == SquareDistanceZero(Start(list[j]));
  }

  /** The indices visited after `last`, nearest first, from the unvisited
      indices U. */
  function Greedy(list: seq<Path>, last: int, U: seq<int>): (r: seq<int>)
    requires ValidPaths(list) && 0 <= last < |list| && InRange(U, |list|) && StrictlySorted(U)
    ensures InRange(r, |list|)
    decreases |U|
  {
    if U == [] then []
    else
      var b := Select(list, last, U);
      RemoveStep(list, last, U);
      [b] + Greedy(list, b, Remove(U, b))
  }

  /** One step of the walk: the chosen path is unvisited, and what is left
      is still a sorted list of valid indices, one shorter. */
  lemma RemoveStep(list: seq<Path>, last: int, U: seq<int>)
    requires ValidPaths(list) && 0 <= last < |list| && InRange(U, |list|) && StrictlySorted(U) && U != []
    ensures var b := Select(list, last, U);
      && b in U && 0 <= b < |list|
      && InRange(Remove(U, b), |list|) && StrictlySorted(Remove(U, b))
      && |Remove(U, b)| == |U| - 1
      && forall y :: y in Remove(U, b) <==> y in U && y != b
  {
    var b := Select(list, last, U);
    SelectSpec(list, last, U);
    RemoveSpec(U, b);
    var R := Remove(U, b);
    forall i | 0 <= i < |R| ensures 0 <= R[i] < |list| {
      assert R[i] in R;
      var j :| 0 <= j < |U| && U[j] == R[i];
    }
  }

  /** Prepending an index not in a distinct list keeps it distinct. */
  lemma ConsDistinct(b: int, g: seq<int>)
    requires Distinct(g) && b !in g
    ensures Distinct([b] + g)
  {
    forall i, j | 0 <= i < j < |g| + 1 ensures ([b] + g)[i] != ([b] + g)[j] {
      if i == 0 {
        assert ([b] + g)[j] == g[j - 1];
      } else {
        assert ([b] + g)[i] == g[i - 1] && ([b] + g)[j] == g[j - 1];
      }
    }
  }

  predicate Distinct(s: seq<int>)
  {
    forall i, j :: 0 <= i < j < |s| ==> s[i] != s[j]
  }

  /** The greedy walk visits every unvisited index exactly once. */
  lemma {:induction false} GreedyVisitsAll(list: seq<Path>, last: int, U: seq<int>)
    requires ValidPaths(list) && 0 <= last < |list| && InRange(U, |list|) && StrictlySorted(U)
    ensures var g := Greedy(list, last, U);
      |g| == |U| && Distinct(g) && forall x :: x in g <==> x in U
    decreases |U|
  {
    if U != [] {
      var b := Select(list, last, U);
      RemoveStep(list, last, U);
      var R := Remove(U, b);
      GreedyVisitsAll(list, b, R);
      var g := Greedy(list, b, R);
      assert Greedy(list, last, U) == [b] + g;
      ConsDistinct(b, g);
    }
  }

  /** The visiting order of `OptimizePaths`: the identity for at most one
      path, else the path nearest the origin followed by the greedy walk. */
  function Order(list: seq<Path>): (r: seq<int>)
    requires ValidPaths(list)
    ensures InRange(r, |list|)
  {
    if |list| <= 1 then Range(|list|)
    else
      var n0 := NearestToZero(list);
      FirstStep(list);
      [n0] + Greedy(list, n0, Remove(Range(|list|), n0))
  }

  /** The first step: the path nearest the origin leaves the others, in
      order, unvisited. */
  lemma FirstStep(list: seq<Path>)
    requires ValidPaths(list) && |list| > 1
    ensures var n0 := NearestToZero(list);
      var R := Remove(Range(|list|), n0);
      && 0 <= n0 < |list|
      && InRange(R, |list|) && StrictlySorted(R) && |R| == |list| - 1
      && forall y :: y in R <==> 0 <= y < |list| && y != n0
  {
    var n := |list|;
    var n0 := NearestToZero(list);
    NearestToZeroSpec(list);
    assert StrictlySorted(Range(n));
    RemoveSpec(Range(n), n0);
    assert n0 in Range(n) by {
      assert Range(n)[n0] == n0;
    }
    var R := Remove(Range(n), n0);
    forall y | 0 <= y < n ensures y in Range(n) {
      assert Range(n)[y] == y;
    }
    forall i | 0 <= i < |R| ensures 0 <= R[i] < n {
      assert R[i] in R;
    }
  }

  /** `order` lists each of lo..hi-1 exactly once. */
  predicate Enumerates(order: seq<int>, lo: int, hi: int)
  {
    |order| == hi - lo && Within(order, lo, hi) && Distinct(order) && Covers(order, lo, hi)
  }

  predicate Within(order: seq<int>, lo: int, hi: int)
  {
    forall i :: 0 <= i < |order| ==> lo <= order[i] < hi
  }

  predicate Covers(order: seq<int>, lo: int, hi: int)
  {
    forall x :: lo <= x < hi ==> x in order
  }

  /** The paths picked out by an order. */
  function Permute(list: seq<Path>, order: seq<int>): (r: seq<Path>)
    requires InRange(order, |list|)
    ensures |r| == |order|
  {
    seq(|order|, i requires 0 <= i < |order| => list[order[i]])
  }

  /** `OptimizePaths` returns a permutation of its input: every path once. */
  lemma OrderIsPermutation(list: seq<Path>)
    requires ValidPaths(list)
    ensures Enumerates(Order(list), 0, |list|)
  {
    var n := |list|;
    if n > 1 {
      var n0 := NearestToZero(list);
      FirstStep(list);
      var R := Remove(Range(n), n0);
      GreedyVisitsAll(list, n0, R);
      var g := Greedy(list, n0, R);
      var o := [n0] + g;
      assert Order(list) == o;
      ConsDistinct(n0, g);
      forall x | 0 <= x < n ensures x in o {
        if x != n0 {
          assert x in g;
        }
      }
    } else {
      assert forall x :: 0 <= x < n ==> x in Range(n) by {
        forall x | 0 <= x < n ensures x in Range(n) {
          assert Range(n)[x] == x;
        }
      }
    }
  }

  /** At most one path: returned unchanged. */
  lemma OrderOfFew(list: seq<Path>)
    requires ValidPaths(list) && |list| <= 1
    ensures Permute(list, Order(list)) == list
  {
  }

  // ---------------------------------------------------------------------
  // The source's loops

  /** The cost matrix holds `Cost` for every pair of paths. */
  ghost predicate HoldsCosts(list: seq<Path>, costs: array2<Double>)
    requires ValidPaths(list)
    reads costs
  {
    && costs.Length0 == |list| && costs.Length1 == |list|
    && forall i, j :: 0 <= i < |list| && 0 <= j < |list| ==> costs[i, j] == Cost(list, i, j)
  }

  /** One turn of the greedy loop moves the chosen path from the walk
      still to come onto the order so far. */
  lemma WalkStep(list: seq<Path>, order: seq<int>, last: int, U: seq<int>)
    requires ValidPaths(list) && 0 <= last < |list| && InRange(U, |list|) && StrictlySorted(U) && U != []
    ensures var b := Select(list, last, U);
      && 0 <= b < |list| && InRange(Remove(U, b), |list|) && StrictlySorted(Remove(U, b))
      && |Remove(U, b)| < |U|
      && order + Greedy(list, last, U) == (order + [b]) + Greedy(list, b, Remove(U, b))
  {
    RemoveStep(list, last, U);
  }

  /** Picking one more path appends it to the permuted list. */
  lemma PermuteSnoc(list: seq<Path>, order: seq<int>, b: int)
    requires InRange(order, |list|) && 0 <= b < |list|
    ensures InRange(order + [b], |list|)
    ensures Permute(list, order + [b]) == Permute(list, order) + [list[b]]
  {
  }

  /** The inner `foreach` of the greedy loop: the unvisited path reachable
      most cheaply from `lastIndex`, read from the cost matrix. */
  method PickNext(list: seq<Path>, costs: array2<Double>, lastIndex: int, unvisited: seq<int>) returns (bestIndex: int)
    requires ValidPaths(list) && 0 <= lastIndex < |list| && InRange(unvisited, |list|) && unvisited != []
    requires HoldsCosts(list, costs)
    ensures bestIndex == Select(list, lastIndex, unvisited)
  {
    ghost var vals := Row(list, lastIndex, unvisited);
    bestIndex := unvisited[0];
    var bestDistance := DoubleMax;
    ghost var p := -1;
    var t := 0;
    while t < |unvisited|
      invariant 0 <= t <= |unvisited|
      invariant (p, bestDistance) == FirstMin(vals[..t])
      invariant bestIndex == if p == -1 then unvisited[0] else unvisited[p]
    {
      var nextIndex := unvisited[t];
      var dist := costs[lastIndex, nextIndex];
      FirstMinPrefix(vals, t);
      assert vals[t] == dist;
      if Below(dist, bestDistance) {
        bestIndex := nextIndex;
        bestDistance := dist.v;
        p := t;
      }
      t := t + 1;
    }
    assert vals[..t] == vals;
  }

  /** The first loop of `OptimizePaths`: fill the cost matrix and find the
      path starting nearest the origin. */
  method CostMatrix(list: seq<Path>) returns (costs: array2<Double>, nearestToZero: int)
    requires ValidPaths(list)
    ensures fresh(costs) && HoldsCosts(list, costs)
    ensures nearestToZero == NearestToZero(list)
  {
    var n := |list|;
    costs := new Double[n, n];
    nearestToZero := 0;
    var bestDistanceToZero := DoubleMax;
    ghost var dz := Distances(list);
    ghost var p := -1;
    for c1 := 0 to n
      invariant forall i, j :: 0 <= i < c1 && 0 <= j < n ==> costs[i, j] == Cost(list, i, j)
      invariant (p, bestDistanceToZero) == FirstMin(dz[..c1])
      invariant nearestToZero == if p == -1 then 0 else p
    {
      for c2 := 0 to n
        invariant forall i, j :: 0 <= i < c1 && 0 <= j < n ==> costs[i, j] == Cost(list, i, j)
        invariant forall j :: 0 <= j < c2 ==> costs[c1, j] == Cost(list, c1, j)
      {
        if c1 == c2 {
          costs[c1, c2] := Num(DoubleMax);
        } else {
          costs[c1, c2] := SquareDistance(End(list[c1]), Start(list[c2]));
        }
      }
      var distZero := SquareDistanceZero(Start(list[c1]));
      FirstMinPrefix(dz, c1);
      if Below(distZero, bestDistanceToZero) {
        nearestToZero := c1;
        bestDistanceToZero := distZero.v;
        p := c1;
      }
    }
    assert dz[..n] == dz;
  }

  /** `OptimizePaths`: the paths in greedy nearest-neighbour order. */
  method OptimizePaths(list: seq<Path>) returns (bestPath: seq<Path>)
    requires ValidPaths(list)
    ensures bestPath == Permute(list, Order(list))
  {
    var n := |list|;
    if n <= 1 {
      return list;
    }
    var costs, nearestToZero := CostMatrix(list);
    FirstStep(list);
    var unvisited := Range(n);
    bestPath := [list[nearestToZero]];
    unvisited := Remove(unvisited, nearestToZero);
    var lastIndex := nearestToZero;
    ghost var order := [nearestToZero];
    while |unvisited| > 0
      invariant 0 <= lastIndex < n && InRange(unvisited, n) && StrictlySorted(unvisited) && InRange(order, n)
      invariant order + Greedy(list, lastIndex, unvisited) == Order(list)
      invariant bestPath == Permute(list, order)
      invariant HoldsCosts(list, costs)
      decreases |unvisited|
    {
      var bestIndex := PickNext(list, costs, lastIndex, unvisited);
      WalkStep(list, order, lastIndex, unvisited);
      var rest := Remove(unvisited, bestIndex);
      PermuteSnoc(list, order, bestIndex);
      bestPath := bestPath + [list[bestIndex]];
      order := order + [bestIndex];
      unvisited := rest;
      lastIndex := bestIndex;
    }
    assert order == Order(list);
  }

  // ---------------------------------------------------------------------
  // Splitting into blocks

  /** `maxblocksize`: the most paths one task orders. */
  const MaxBlockSize := 2048

  /** `blocknum`, `(int)Math.Ceiling(Count / (double)maxblocksize)`. */
  function BlockCount(n: nat): nat
  {
    (n + MaxBlockSize - 1) / MaxBlockSize
  }

  lemma BlockCountIsCeiling(n: nat)
    ensures (BlockCount(n) - 1) * MaxBlockSize < n <= BlockCount(n) * MaxBlockSize
  {
  }

  /** `from` of `GetTaskJob(i, k, list)`: block i starts at i * Count / k;
      it ends where block i + 1 starts. */
  function From(i: int, k: int, n: int): int
    requires k > 0
  {
    Quotient(Product(i, n), k)
  }

  lemma ProductsOrdered(i: int, k: int, n: nat)
    requires 0 <= i < k
    ensures Product(0, n) == 0
    ensures 0 <= Product(i, n) <= Product(i + 1, n) <= Product(k, n)
  {
    ProductIsMul(0, n);
    ProductIsMul(i, n);
    ProductIsMul(i + 1, n);
    ProductIsMul(k, n);
    MulMono(0, i, n);
    MulMono(i, i + 1, n);
    MulMono(i + 1, k, n);
  }

  lemma QuotientsOrdered(x0: int, x1: int, k: int)
    requires k > 0 && 0 <= x0 <= x1
    ensures 0 <= Quotient(x0, k) <= Quotient(x1, k)
  {
    QuotientIsDiv(x0, k);
    QuotientIsDiv(x1, k);
    DivLower(x0, k, 0);
    assert (x0 / k) * k <= x0;
    DivLower(x1, k, x0 / k);
  }

  lemma QuotientOfMultiple(n: nat, k: int)
    requires k > 0
    ensures Quotient(0, k) == 0 && Quotient(Product(k, n), k) == n
  {
    ProductIsMul(k, n);
    QuotientIsDiv(k * n, k);
    assert (n + 1) * k == k * n + k && n * k == k * n;
    DivLower(k * n, k, n);
    DivUpper(k * n, k, n + 1);
  }

  /** The blocks are consecutive: the first starts at 0, the last ends at
      Count, and each starts no later than it ends. */
  lemma FromBounds(i: int, k: int, n: nat)
    requires 0 <= i < k
    ensures From(0, k, n) == 0 && From(k, k, n) == n
    ensures 0 <= From(i, k, n) <= From(i + 1, k, n) <= n
  {
    ProductsOrdered(i, k, n);
    QuotientsOrdered(Product(i, n), Product(i + 1, n), k);
    QuotientsOrdered(Product(i + 1, n), Product(k, n), k);
    QuotientOfMultiple(n, k);
  }

  /** `GetTaskJob`: block i of k, `list.GetRange(from, to - from)`. */
  function GetTaskJob(i: int, k: int, list: seq<Path>): (r: seq<Path>)
    requires 0 <= i < k && ValidPaths(list)
    ensures ValidPaths(r) && |r| == From(i + 1, k, |list|) - From(i, k, |list|)
  {
    FromBounds(i, k, |list|);
    list[From(i, k, |list|)..From(i + 1, k, |list|)]
  }

  /** With `blocknum` blocks no block holds more than `maxblocksize`
      paths. */
  lemma BlockSize(i: int, list: seq<Path>)
    requires ValidPaths(list) && 0 <= i < BlockCount(|list|)
    ensures |GetTaskJob(i, BlockCount(|list|), list)| <= MaxBlockSize
  {
    var n, k := |list|, BlockCount(|list|);
    BlockCountIsCeiling(n);
    ProductIsMul(i, n);
    ProductIsMul(i + 1, n);
    MulMono(0, i, n);
    QuotientIsDiv(i * n, k);
    QuotientIsDiv(i * n + n, k);
    assert (i + 1) * n == i * n + n;
    DivGap(i * n, n, k, MaxBlockSize);
  }

  /** Adding at most c * k to a dividend adds at most c to the quotient. */
  lemma DivGap(x: int, d: int, k: int, c: int)
    requires k > 0 && 0 <= x && 0 <= d <= c * k
    ensures (x + d) / k - x / k <= c
  {
    var f := x / k;
    assert x < (f + 1) * k by {
      assert (f + 1) * k == f * k + k;
    }
    assert x + d < (f + c + 1) * k by {
      assert (f + c + 1) * k == (f + 1) * k + c * k;
    }
    DivUpper(x + d, k, f + c + 1);
  }

  /** An order shifted to start at d. */
  function Shift(d: int, o: seq<int>): (r: seq<int>)
    ensures |r| == |o|
  {
    seq(|o|, t requires 0 <= t < |o| => d + o[t])
  }

  /** What each parallel task computes: the order of its own block. */
  function BlockOrders(list: seq<Path>, k: int): (r: seq<seq<int>>)
    requires ValidPaths(list) && k > 0
    ensures |r| == k
  {
    seq(k, i requires 0 <= i < k => Order(GetTaskJob(i, k, list)))
  }

  /** One order per block, each ranging over the indices of its block. */
  predicate FitsBlocks(n: nat, k: int, orders: seq<seq<int>>)
    requires k > 0
  {
    |orders| == k && forall i :: 0 <= i < k ==> InRange(orders[i], From(i + 1, k, n) - From(i, k, n))
  }

  /** Block i's order, as indices into the whole list of n paths. */
  function BlockOrder(n: nat, k: int, i: int, orders: seq<seq<int>>): (r: seq<int>)
    requires k > 0 && 0 <= i < k && FitsBlocks(n, k, orders)
    ensures InRange(r, n)
  {
    FromBounds(i, k, n);
    Shift(From(i, k, n), orders[i])
  }

  /** The orders of blocks 0 to m - 1, joined in block order. */
  function BlocksOrder(n: nat, k: int, m: int, orders: seq<seq<int>>): (r: seq<int>)
    requires k > 0 && 0 <= m <= k && FitsBlocks(n, k, orders)
    ensures InRange(r, n)
  {
    if m == 0 then [] else BlocksOrder(n, k, m - 1, orders) + BlockOrder(n, k, m - 1, orders)
  }

  /** Each task's order is a permutation of its block. */
  lemma BlockOrdersEnumerate(list: seq<Path>, k: int)
    requires ValidPaths(list) && k > 0
    ensures FitsBlocks(|list|, k, BlockOrders(list, k))
    ensures forall i :: 0 <= i < k ==>
      Enumerates(BlockOrders(list, k)[i], 0, From(i + 1, k, |list|) - From(i, k, |list|))
  {
    var orders := BlockOrders(list, k);
    forall i | 0 <= i < k
      ensures Enumerates(orders[i], 0, From(i + 1, k, |list|) - From(i, k, |list|))
    {
      OrderIsPermutation(GetTaskJob(i, k, list));
    }
    forall i | 0 <= i < k
      ensures InRange(orders[i], From(i + 1, k, |list|) - From(i, k, |list|))
    {
      assert Enumerates(orders[i], 0, From(i + 1, k, |list|) - From(i, k, |list|));
    }
  }

  /** The visiting order of `ParallelOptimizePaths`. */
  function ParallelOrder(list: seq<Path>): (r: seq<int>)
    requires ValidPaths(list)
    ensures InRange(r, |list|)
  {
    if |list| <= 1 then Range(|list|)
    else if BlockCount(|list|) <= 1 then Order(list)
    else
      BlockOrdersEnumerate(list, BlockCount(|list|));
      BlocksOrder(|list|, BlockCount(|list|), BlockCount(|list|), BlockOrders(list, BlockCount(|list|)))
  }

  lemma EnumeratesShift(o: seq<int>, m: int, d: int)
    requires Enumerates(o, 0, m)
    ensures Enumerates(Shift(d, o), d, d + m)
  {
    var s := Shift(d, o);
    forall x | d <= x < d + m ensures x in s {
      assert x - d in o;
      var t :| 0 <= t < |o| && o[t] == x - d;
      assert s[t] == x;
    }
  }

  lemma EnumeratesAppend(a: seq<int>, b: seq<int>, lo: int, mid: int, hi: int)
    requires Enumerates(a, lo, mid) && Enumerates(b, mid, hi)
    ensures Enumerates(a + b, lo, hi)
  {
    var s := a + b;
    forall i, j | 0 <= i < j < |s| ensures s[i] != s[j] {
      if j < |a| {
        assert s[i] == a[i] && s[j] == a[j];
      } else if i >= |a| {
        assert s[i] == b[i - |a|] && s[j] == b[j - |a|];
      } else {
        assert s[i] == a[i] && s[j] == b[j - |a|];
      }
    }
    forall x | lo <= x < hi ensures x in s {
      if x < mid {
        assert x in a;
      } else {
        assert x in b;
      }
    }
  }

  lemma EnumeratesJoin(r: seq<int>, a: seq<int>, b: seq<int>, mid: int, hi: int)
    requires r == a + b && Enumerates(a, 0, mid) && Enumerates(b, mid, hi)
    ensures Enumerates(r, 0, hi)
  {
    EnumeratesAppend(a, b, 0, mid, hi);
  }

  /** Blocks 0 to m - 1 together visit each of the first From(m) paths
      once, when each block's order visits each of its paths once. */
  lemma {:induction false} BlocksEnumerate(n: nat, k: int, m: int, orders: seq<seq<int>>)
    requires k > 0 && 0 <= m <= k && FitsBlocks(n, k, orders)
    requires forall i :: 0 <= i < k ==> Enumerates(orders[i], 0, From(i + 1, k, n) - From(i, k, n))
    ensures Enumerates(BlocksOrder(n, k, m, orders), 0, From(m, k, n))
  {
    if m > 0 {
      BlocksEnumerate(n, k, m - 1, orders);
      var lo, hi := From(m - 1, k, n), From(m, k, n);
      var a, b := BlocksOrder(n, k, m - 1, orders), BlockOrder(n, k, m - 1, orders);
      assert Enumerates(b, lo, hi) by {
        FromBounds(m - 1, k, n);
        assert Enumerates(orders[m - 1], 0, hi - lo);
        EnumeratesShift(orders[m - 1], hi - lo, lo);
      }
      EnumeratesAppend(a, b, 0, lo, hi);
    } else {
      FromBounds(0, k, n);
    }
  }

  /** `ParallelOptimizePaths` returns a permutation of its input. */
  lemma ParallelOrderIsPermutation(list: seq<Path>)
    requires ValidPaths(list)
    ensures Enumerates(ParallelOrder(list), 0, |list|)
  {
    var n, k := |list|, BlockCount(|list|);
    if n <= 1 || k <= 1 {
      OrderIsPermutation(list);
    } else {
      BlockOrdersEnumerate(list, k);
      BlocksEnumerate(n, k, k, BlockOrders(list, k));
      FromBounds(0, k, n);
    }
  }

  lemma PermuteAppend(list: seq<Path>, a: seq<int>, b: seq<int>)
    requires InRange(a, |list|) && InRange(b, |list|)
    ensures InRange(a + b, |list|)
    ensures Permute(list, a + b) == Permute(list, a) + Permute(list, b)
  {
  }

  lemma PermuteShift(list: seq<Path>, lo: int, hi: int, o: seq<int>)
    requires 0 <= lo <= hi <= |list| && InRange(o, hi - lo)
    ensures InRange(Shift(lo, o), |list|)
    ensures Permute(list, Shift(lo, o)) == Permute(list[lo..hi], o)
  {
  }

  /** Block i's share of the result is that block, permuted by its own order. */
  lemma PermuteBlock(list: seq<Path>, k: int, i: int, orders: seq<seq<int>>)
    requires ValidPaths(list) && k > 0 && 0 <= i < k && FitsBlocks(|list|, k, orders)
    ensures Permute(list, BlocksOrder(|list|, k, i + 1, orders))
         == Permute(list, BlocksOrder(|list|, k, i, orders)) + Permute(GetTaskJob(i, k, list), orders[i])
  {
    FromBounds(i, k, |list|);
    var lo, hi := From(i, k, |list|), From(i + 1, k, |list|);
    PermuteShift(list, lo, hi, orders[i]);
    PermuteAppend(list, BlocksOrder(|list|, k, i, orders), BlockOrder(|list|, k, i, orders));
  }

  /** `ParallelOptimizePaths`: small inputs are ordered as one; larger ones
      as `blocknum` blocks whose results are joined in block order. */
  method ParallelOptimizePaths(list: seq<Path>) returns (rv: seq<Path>)
    requires ValidPaths(list)
    ensures rv == Permute(list, ParallelOrder(list))
  {
    var n := |list|;
    if n <= 1 {
      return list;
    }
    var blocknum := (n + MaxBlockSize - 1) / MaxBlockSize;
    if blocknum <= 1 {
      rv := OptimizePaths(list);
      return;
    }
    ghost var k := BlockCount(n);
    assert blocknum == k;
    ghost var orders := BlockOrders(list, k);
    BlockOrdersEnumerate(list, k);
    rv := [];
    for i := 0 to blocknum
      invariant rv == Permute(list, BlocksOrder(n, k, i, orders))
    {
      var lc := OptimizePaths(GetTaskJob(i, blocknum, list));
      assert rv + lc == Permute(list, BlocksOrder(n, k, i + 1, orders)) by {
        assert lc == Permute(GetTaskJob(i, k, list), orders[i]);
        PermuteBlock(list, k, i, orders);
      }
      rv := rv + lc;
    }
  }
}
