/**
 * The bookkeeping of the simulated lidar: how one sample point of a beam is
 * classified (wall exit, obstacle or free), how a beam is marched until its
 * first stopping sample, and how wall exits are tallied.
 *
 * The trigonometry that places start points and samples is not modelled: a
 * beam is given as the function from step length to sample point.
 */
module Lidar {
  import opened Field

  /** A sample strictly closer than one radius to a circle centre hits it: 30 * 30 squared. */
  const HitSq: int := CircleRadius * CircleRadius

  /** A sample position; the source computes these in floating point. */
  datatype Point = Point(x: real, y: real)

  /** The four screen edges, named as the collision tally names them. */
  datatype Wall = Top | Bottom | Left | Right

  /** An axis-aligned goal rectangle: corner, width and height (colour left out). */
  datatype Goal = Goal(x: int, y: int, w: int, h: int)

  /** The two goals of the scene, in list order. */
  const Goals: seq<Goal> := [Goal(60, 200, 27, 200), Goal(763, 200, 27, 200)]

  /** Beams are marched at step lengths 1 .. MaxLength - 1. */
  const MaxLength: int := if Width >= Height then Width else Height

  /** One lidar beam as drawn: its start point and where it ended. */
  datatype Ray = Ray(start: Point, end: Point)

  /** Per-wall count of beams that left the screen through that wall. */
  datatype Tally = Tally(top: nat, bottom: nat, left: nat, right: nat)
  {
    function Total(): nat { top + bottom + left + right }

    function Count(w: Wall): nat
    {
      match w
      case Top => top
      case Bottom => bottom
      case Left => left
      case Right => right
    }
  }

  const NoCollisions: Tally := Tally(0, 0, 0, 0)

  /** What one sample says about its beam. */
  datatype Verdict = Exit(wall: Wall, at: Point) | Obstructed | Pass

  /** How a whole beam ended. */
  datatype Stop = WallExit(wall: Wall, at: Point) | Blocked(at: Point) | Open(at: Point)

  predicate InsideScreen(p: Point)
  {
    0.0 < p.x < Width as real && 0.0 < p.y < Height as real
  }

  /** The exit point lies on the named screen edge. */
  predicate OnWall(w: Wall, p: Point)
  {
    match w
    case Left => p.x == 0.0
    case Right => p.x == Width as real
    case Top => p.y == 0.0
    case Bottom => p.y == Height as real
  }

  /** The sample lies strictly within one radius of the circle centre `c`. */
  predicate Near(p: Point, c: Pos)
  {
    var dx, dy := p.x - c.x as real, p.y - c.y as real;
    dx * dx + dy * dy < HitSq as real
  }

  /** The sample lies in the closed rectangle of goal `g`. */
  predicate InGoal(p: Point, g: Goal)
  {
    g.x as real <= p.x <= (g.x + g.w) as real && g.y as real <= p.y <= (g.y + g.h) as real
  }

  /** Linear scan, in list order, of the circles other than the emitting one. */
  function HitsCircle(p: Point, others: seq<Pos>): (hit: bool)
    ensures hit <==> exists j :: 0 <= j < |others| && Near(p, others[j])
  {
    if others == [] then false
    else if Near(p, others[0]) then true
    else
      var rest := HitsCircle(p, others[1..]);
      assert forall j :: 1 <= j < |others| ==> others[j] == others[1..][j - 1];
      rest
  }

  /** Linear scan, in list order, of the goal rectangles. */
  function HitsGoal(p: Point, goals: seq<Goal>): (hit: bool)
    ensures hit <==> exists j :: 0 <= j < |goals| && InGoal(p, goals[j])
  {
    if goals == [] then false
    else if InGoal(p, goals[0]) then true
    else
      var rest := HitsGoal(p, goals[1..]);
      assert forall j :: 1 <= j < |goals| ==> goals[j] == goals[1..][j - 1];
      rest
  }

  /**
   * The per-sample tests in the source's order: left, right, top, bottom
   * edge, then the other circles, then the goals. A crossed edge clamps the
   * crossed coordinate to that edge.
   */
  function Classify(p: Point, others: seq<Pos>): (v: Verdict)
    ensures v.Exit? <==> !InsideScreen(p)
    ensures v.Exit? ==> OnWall(v.wall, v.at)
    // side walls win over top and bottom when a corner is crossed
    ensures v.Exit? ==> ((v.wall == Left || v.wall == Right) <==> (p.x <= 0.0 || p.x >= Width as real))
    ensures v.Exit? && v.wall == Left ==> p.x <= 0.0 && v.at.y == p.y
    ensures v.Exit? && v.wall == Right ==> p.x >= Width as real && v.at.y == p.y
    ensures v.Exit? && v.wall == Top ==> p.y <= 0.0 && v.at.x == p.x
    ensures v.Exit? && v.wall == Bottom ==> p.y >= Height as real && v.at.x == p.x
    ensures v.Obstructed? <==>
      && InsideScreen(p)
      && ((exists j :: 0 <= j < |others| && Near(p, others[j])) || (exists j :: 0 <= j < |Goals| && InGoal(p, Goals[j])))
  {
    if p.x <= 0.0 then Exit(Left, Point(0.0, p.y))
    else if p.x >= Width as real then Exit(Right, Point(Width as real, p.y))
    else if p.y <= 0.0 then Exit(Top, Point(p.x, 0.0))
    else if p.y >= Height as real then Exit(Bottom, Point(p.x, Height as real))
    else if HitsCircle(p, others) then Obstructed
    else if HitsGoal(p, Goals) then Obstructed
    else Pass
  }

  /** Every sample at lengths from .. to - 1 lets the beam through. */
  predicate AllPass(beam: nat -> Point, others: seq<Pos>, from: nat, to: nat)
  {
    forall k :: from <= k < to ==> Classify(beam(k), others).Pass?
  }

  /** `s` is how a beam ends when its first non-passing sample is `p`. */
  predicate StopsAt(s: Stop, p: Point, others: seq<Pos>)
  {
    match Classify(p, others)
    case Exit(w, at) => s == WallExit(w, at)
    case Obstructed => s == Blocked(p)
    case Pass => false
  }

  /**
   * Marching one beam from step length `from` on, testing each sample in
   * turn and stopping at the first that is not free; a beam whose samples are
   * all free ends open at the last one.
   */
  function TraceFrom(beam: nat -> Point, others: seq<Pos>, from: nat): (s: Stop)
    requires 1 <= from < MaxLength
    decreases MaxLength - from
    ensures s.WallExit? ==> OnWall(s.wall, s.at)
  {
    match Classify(beam(from), others)
    case Exit(w, at) => WallExit(w, at)
    case Obstructed => Blocked(beam(from))
    case Pass =>
      if from == MaxLength - 1 then Open(beam(from))
      else TraceFrom(beam, others, from + 1)
  }

  /**
   * How a beam ends is decided by its first sample that is not free: it ends
   * open, at its last sample, exactly when every sample is free; otherwise it
   * stops as that first non-free sample says.
   */
  lemma {:induction false} TraceFromFirstStop(beam: nat -> Point, others: seq<Pos>, from: nat)
    requires 1 <= from < MaxLength
    decreases MaxLength - from
    ensures TraceFrom(beam, others, from).Open? <==> AllPass(beam, others, from, MaxLength)
    ensures TraceFrom(beam, others, from).Open? ==> TraceFrom(beam, others, from).at == beam(MaxLength - 1)
    ensures !TraceFrom(beam, others, from).Open? ==>
      exists k :: from <= k < MaxLength && AllPass(beam, others, from, k) && StopsAt(TraceFrom(beam, others, from), beam(k), others)
  {
    var s := TraceFrom(beam, others, from);
    if !Classify(beam(from), others).Pass? {
      assert AllPass(beam, others, from, from);
      assert StopsAt(s, beam(from), others);
    } else if from < MaxLength - 1 {
      TraceFromFirstStop(beam, others, from + 1);
      if !s.Open? {
        var k :| from + 1 <= k < MaxLength && AllPass(beam, others, from + 1, k) && StopsAt(s, beam(k), others);
        assert AllPass(beam, others, from, k);
      }
    }
  }

  /** Conversely, the first sample that is not free decides how the beam ends. */
  lemma {:induction false} TraceFromStopsAtFirst(beam: nat -> Point, others: seq<Pos>, from: nat, k: nat)
    requires 1 <= from <= k < MaxLength
    requires AllPass(beam, others, from, k)
    requires !Classify(beam(k), others).Pass?
    decreases k - from
    ensures StopsAt(TraceFrom(beam, others, from), beam(k), others)
  {
    if from < k {
      assert Classify(beam(from), others).Pass?;
      TraceFromStopsAtFirst(beam, others, from + 1, k);
    }
  }

  /** A whole beam, marched from step length 1. */
  function Trace(beam: nat -> Point, others: seq<Pos>): Stop
  {
    TraceFrom(beam, others, 1)
  }

  /** Beam `i` of a sampling: the samples of ray `i` by step length. */
  function Beam(sample: (nat, nat) -> Point, i: nat): nat -> Point
  {
    (k: nat) => sample(i, k)
  }

  /** How the first `n` beams of a sampling ended, in ray order. */
  function Traces(n: nat, sample: (nat, nat) -> Point, others: seq<Pos>): (stops: seq<Stop>)
    ensures |stops| == n
    ensures forall i :: 0 <= i < n ==> stops[i] == Trace(Beam(sample, i), others)
  {
    if n == 0 then [] else Traces(n - 1, sample, others) + [Trace(Beam(sample, n - 1), others)]
  }

  /** The rays drawn for beams that ended at `stops`, in ray order: ray `i` runs from `start(i)` to where beam `i` ended. */
  function Segments(start: nat -> Point, stops: seq<Stop>): (rays: seq<Ray>)
    ensures |rays| == |stops|
    ensures forall i :: 0 <= i < |stops| ==> rays[i] == Ray(start(i), stops[i].at)
  {
    if stops == [] then []
    else Segments(start, stops[..|stops| - 1]) + [Ray(start(|stops| - 1), stops[|stops| - 1].at)]
  }

  /** A drawn ray whose beam left the screen ends on the wall it crossed. */
  lemma WallRaysEndOnWall(start: nat -> Point, sample: (nat, nat) -> Point, others: seq<Pos>, n: nat, i: nat)
    requires i < n
    requires Traces(n, sample, others)[i].WallExit?
    ensures OnWall(Traces(n, sample, others)[i].wall, Segments(start, Traces(n, sample, others))[i].end)
  {
  }

  /** One more exit through wall `w`: exactly that counter goes up, by one. */
  function Bump(t: Tally, w: Wall): (r: Tally)
    ensures r.Count(w) == t.Count(w) + 1
    ensures forall v :: v != w ==> r.Count(v) == t.Count(v)
    ensures r.Total() == t.Total() + 1
  {
    match w
    case Top => t.(top := t.top + 1)
    case Bottom => t.(bottom := t.bottom + 1)
    case Left => t.(left := t.left + 1)
    case Right => t.(right := t.right + 1)
  }

  /** The tally after one more beam: only a wall exit is counted. */
  function Record(t: Tally, s: Stop): (r: Tally)
    ensures forall w :: r.Count(w) == t.Count(w) + (if s.WallExit? && s.wall == w then 1 else 0)
    ensures r.Total() == t.Total() + (if s.WallExit? then 1 else 0)
  {
    if s.WallExit? then Bump(t, s.wall) else t
  }

  /**
   * The collision tally of a frame, counted from zero over the beams' stops
   * in ray order; each beam adds at most one.
   */
  function CountWalls(stops: seq<Stop>): (t: Tally)
    ensures t.Total() <= |stops|
  {
    if stops == [] then NoCollisions
    else Record(CountWalls(stops[..|stops| - 1]), stops[|stops| - 1])
  }

  /** How many of the beams ended by leaving the screen through wall `w`. */
  function ExitsThrough(stops: seq<Stop>, w: Wall): nat
  {
    if stops == [] then 0
    else ExitsThrough(stops[1..], w) + (if stops[0].WallExit? && stops[0].wall == w then 1 else 0)
  }

  /** Removing the last beam takes off its own exit, counted from the front. */
  lemma {:induction false} ExitsThroughLast(stops: seq<Stop>, w: Wall)
    requires stops != []
    ensures ExitsThrough(stops, w)
      == ExitsThrough(stops[..|stops| - 1], w) + (if stops[|stops| - 1].WallExit? && stops[|stops| - 1].wall == w then 1 else 0)
  {
    if |stops| > 1 {
      ExitsThroughLast(stops[1..], w);
      assert stops[1..][..|stops| - 2] == stops[..|stops| - 1][1..];
    }
  }

  /** Each counter of the tally is the number of beams that left through its wall. */
  lemma {:induction false} CountWallsPerWall(stops: seq<Stop>, w: Wall)
    ensures CountWalls(stops).Count(w) == ExitsThrough(stops, w)
  {
    if stops != [] {
      CountWallsPerWall(stops[..|stops| - 1], w);
      ExitsThroughLast(stops, w);
    }
  }

  /** The tally reaches the number of beams exactly when every beam left the screen. */
  lemma {:induction false} CountWallsFull(stops: seq<Stop>)
    ensures CountWalls(stops).Total() == |stops| <==> forall i :: 0 <= i < |stops| ==> stops[i].WallExit?
  {
    if stops != [] {
      var init, last := stops[..|stops| - 1], stops[|stops| - 1];
      CountWallsFull(init);
      var t := CountWalls(init);
      assert CountWalls(stops) == Record(t, last);
      assert t.Total() <= |init|;
      assert (forall i :: 0 <= i < |stops| ==> stops[i].WallExit?)
        <==> (forall i :: 0 <= i < |init| ==> init[i].WallExit?) && last.WallExit?;
    }
  }

  /** The tally is non-zero exactly when some beam left the screen. */
  lemma {:induction false} CountWallsSome(stops: seq<Stop>)
    ensures CountWalls(stops).Total() > 0 <==> exists i :: 0 <= i < |stops| && stops[i].WallExit?
  {
    if stops != [] {
      var init, last := stops[..|stops| - 1], stops[|stops| - 1];
      CountWallsSome(init);
      var t := CountWalls(init);
      assert CountWalls(stops).Total() == t.Total() + (if last.WallExit? then 1 else 0);
      if exists i :: 0 <= i < |init| && init[i].WallExit? {
        var i :| 0 <= i < |init| && init[i].WallExit?;
        assert stops[i] == init[i];
      }
      if exists i :: 0 <= i < |stops| && stops[i].WallExit? {
        var i :| 0 <= i < |stops| && stops[i].WallExit?;
        if i < |init| {
          assert init[i] == stops[i];
        }
      }
    }
  }
}
