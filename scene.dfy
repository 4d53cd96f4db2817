/**
 * The scene state of the lidar demo and the handlers of its input events:
 * four draggable circles, the sensor's rotation and tilt, and the per-frame
 * wall-collision tally filled in by casting the rays.
 *
 * Angles are kept in whole degrees: every change is a multiple of one degree.
 */
module Scene {
  import opened Field
  import opened Lidar

  datatype Option<T> = None | Some(value: T)

  /** A circle of the scene: its centre and whether the mouse is dragging it. */
  datatype Circle = Circle(pos: Pos, dragging: bool)

  /** The keys the handler distinguishes. */
  datatype Key = ArrowLeft | ArrowRight | ArrowUp | ArrowDown | OtherKey

  /** The input events the main loop reacts to. */
  datatype Event =
    | Quit
    | MouseButtonDown(button: int, pos: Pos)
    | MouseButtonUp(button: int)
    | MouseMotion(pos: Pos)
    | KeyDown(key: Key)
    | OtherEvent

  /** pygame's number for the left mouse button. */
  const LeftButton: int := 1
  /** Rotation and tilt steps, in degrees. */
  const RotationStep: int := 5
  const TiltStep: int := 1
  /** Number of rays cast per frame. */
  const RaysDefault: nat := 24

  function Positions(cs: seq<Circle>): (ps: seq<Pos>)
    ensures |ps| == |cs|
    ensures forall i :: 0 <= i < |cs| ==> ps[i] == cs[i].pos
  {
    seq(|cs|, i requires 0 <= i < |cs| => cs[i].pos)
  }

  /** The centres the rays can hit: every circle but the first, which emits them. */
  function Others(cs: seq<Circle>): seq<Pos>
    requires |cs| > 0
  {
    Positions(cs)[1..]
  }

  /** The start-up layout: circle i at (150 + 200 i, 150 + 100 i), none dragged. */
  function InitialCircles(): seq<Circle>
  {
    seq(NumCircles, i => Circle(Pos(150 + i * 200, 150 + i * 100), false))
  }

  lemma InitialLayoutWellPlaced()
    ensures |InitialCircles()| == NumCircles
    ensures forall i :: 0 <= i < NumCircles ==> !InitialCircles()[i].dragging
    ensures WellPlaced(Positions(InitialCircles()))
  {
    var ps := Positions(InitialCircles());
    assert ps == [Pos(150, 150), Pos(350, 250), Pos(550, 350), Pos(750, 450)];
    forall i, j | 0 <= i < |ps| && 0 <= j < |ps| && i != j
      ensures SqDist(ps[i], ps[j]) >= MinSqGap
    {
      var dx, dy := ps[i].x - ps[j].x, ps[i].y - ps[j].y;
      assert dx == 200 * (i - j) && dy == 100 * (i - j);
      assert dx * dx >= 200 * 200 by {
        assert dx <= -200 || dx >= 200;
      }
    }
  }

  /** The click at `p` grabs a circle centred at `c`: at most one radius away. */
  predicate Grabs(c: Pos, p: Pos)
  {
    SqDist(p, c) <= GrabSq
  }

  /** The grab scan of a left click from index `from` on: the first circle under the click starts dragging. */
  function PressFrom(cs: seq<Circle>, p: Pos, from: nat): (r: seq<Circle>)
    requires from <= |cs|
    decreases |cs| - from
    ensures |r| == |cs|
    ensures forall i :: 0 <= i < |cs| ==> r[i].pos == cs[i].pos
    ensures forall i :: 0 <= i < |cs| ==>
      r[i].dragging == (cs[i].dragging || (from <= i && Grabs(cs[i].pos, p) && forall j :: from <= j < i ==> !Grabs(cs[j].pos, p)))
  {
    if from == |cs| then cs
    else if Grabs(cs[from].pos, p) then cs[from := cs[from].(dragging := true)]
    else PressFrom(cs, p, from + 1)
  }

  /**
   * The circles after a mouse-button press at `p`: for the left button, the
   * first circle in list order under the click starts dragging; nothing else
   * changes, and other buttons change nothing.
   */
  function Press(cs: seq<Circle>, button: int, p: Pos): (r: seq<Circle>)
    ensures button != LeftButton ==> r == cs
    ensures |r| == |cs|
    ensures forall i :: 0 <= i < |cs| ==> r[i].pos == cs[i].pos
    ensures forall i :: 0 <= i < |cs| ==>
      r[i].dragging == (cs[i].dragging || (button == LeftButton && Grabs(cs[i].pos, p) && forall j :: 0 <= j < i ==> !Grabs(cs[j].pos, p)))
  {
    if button == LeftButton then PressFrom(cs, p, 0) else cs
  }

  /** A press starts dragging at most one circle that was not dragging before. */
  lemma PressGrabsAtMostOne(cs: seq<Circle>, button: int, p: Pos, i: int, j: int)
    requires 0 <= i < j < |cs|
    requires !cs[i].dragging && !cs[j].dragging
    ensures !(Press(cs, button, p)[i].dragging && Press(cs, button, p)[j].dragging)
  {
  }

  /**
   * The motion handler's step at circle `i`: a dragged circle moves to `p`
   * when the validator accepts `p` against the CURRENT centres; otherwise,
   * and for a circle not being dragged, nothing changes.
   */
  function MoveStep(cs: seq<Circle>, p: Pos, i: nat): (r: seq<Circle>)
    requires i < |cs|
    ensures |r| == |cs|
    ensures forall j :: 0 <= j < |cs| && j != i ==> r[j] == cs[j]
    ensures r[i].dragging == cs[i].dragging
    ensures r[i].pos == p || r[i].pos == cs[i].pos
    ensures r[i].pos != cs[i].pos ==> cs[i].dragging && IsValidPosition(Positions(cs), i, p)
    ensures cs[i].dragging && IsValidPosition(Positions(cs), i, p) ==> r[i].pos == p
  {
    if cs[i].dragging && IsValidPosition(Positions(cs), i, p) then cs[i := cs[i].(pos := p)] else cs
  }

  /**
   * The motion handler from circle `from` on, in list order, each step seeing
   * the moves of the steps before it. Dragging flags never change; a centre
   * either stays or becomes `p`, and only a dragged circle's can.
   */
  function DragFrom(cs: seq<Circle>, p: Pos, from: nat): (r: seq<Circle>)
    requires from <= |cs|
    decreases |cs| - from
    ensures |r| == |cs|
    ensures forall i :: 0 <= i < |cs| ==> r[i].dragging == cs[i].dragging
    ensures forall i :: 0 <= i < |cs| ==> r[i].pos == cs[i].pos || (from <= i && cs[i].dragging && r[i].pos == p)
  {
    if from == |cs| then cs else DragFrom(MoveStep(cs, p, from), p, from + 1)
  }

  /** The circles after the mouse moved to `p`. */
  function Drag(cs: seq<Circle>, p: Pos): seq<Circle>
  {
    DragFrom(cs, p, 0)
  }

  /** The motion handler keeps the scene invariant: in bounds, no overlap. */
  lemma {:induction false} DragFromKeepsWellPlaced(cs: seq<Circle>, p: Pos, from: nat)
    requires from <= |cs|
    requires WellPlaced(Positions(cs))
    decreases |cs| - from
    ensures WellPlaced(Positions(DragFrom(cs, p, from)))
  {
    if from < |cs| {
      var next := MoveStep(cs, p, from);
      if next != cs {
        ValidMoveKeepsWellPlaced(Positions(cs), from, p);
        assert Positions(next) == Positions(cs)[from := p];
      }
      DragFromKeepsWellPlaced(next, p, from + 1);
    }
  }

  lemma DragKeepsWellPlaced(cs: seq<Circle>, p: Pos)
    requires WellPlaced(Positions(cs))
    ensures WellPlaced(Positions(Drag(cs, p)))
  {
    DragFromKeepsWellPlaced(cs, p, 0);
  }

  /** With no circle dragged from `from` on, the rest of the motion handler changes nothing. */
  lemma {:induction false} DragFromIdle(cs: seq<Circle>, p: Pos, from: nat)
    requires from <= |cs|
    requires forall j :: from <= j < |cs| ==> !cs[j].dragging
    decreases |cs| - from
    ensures DragFrom(cs, p, from) == cs
  {
    if from < |cs| {
      DragFromIdle(cs, p, from + 1);
    }
  }

  /**
   * With exactly one circle `k` dragged, a mouse motion to `p` moves circle
   * `k` to `p` exactly when the validator accepts `p` for it, and changes
   * nothing else.
   */
  lemma {:induction false} DragSingle(cs: seq<Circle>, p: Pos, k: nat)
    requires k < |cs|
    requires forall j :: 0 <= j < |cs| ==> (cs[j].dragging <==> j == k)
    ensures Drag(cs, p) == cs[k := cs[k].(pos := if IsValidPosition(Positions(cs), k, p) then p else cs[k].pos)]
  {
    DragSkipsIdle(cs, p, 0, k);
    var next := MoveStep(cs, p, k);
    DragFromIdle(next, p, k + 1);
  }

  /** Circles not being dragged before `k` are passed over unchanged. */
  lemma {:induction false} DragSkipsIdle(cs: seq<Circle>, p: Pos, from: nat, k: nat)
    requires from <= k <= |cs|
    requires forall j :: from <= j < k ==> !cs[j].dragging
    decreases k - from
    ensures DragFrom(cs, p, from) == DragFrom(cs, p, k)
  {
    if from < k {
      DragSkipsIdle(cs, p, from + 1, k);
    }
  }

  /** The circle `i` moves to `p` in the motion handler's step: it is dragged and the validator accepts `p`. */
  predicate Moves(cs: seq<Circle>, p: Pos, i: nat)
    requires i < |cs|
  {
    cs[i].dragging && IsValidPosition(Positions(cs), i, p)
  }

  /** The first index at or after `from` whose circle would move to `p`, or `|cs|` if none would. */
  function FirstMove(cs: seq<Circle>, p: Pos, from: nat): (k: nat)
    requires from <= |cs|
    decreases |cs| - from
    ensures from <= k <= |cs|
    ensures forall j :: from <= j < k ==> !Moves(cs, p, j)
    ensures k < |cs| ==> Moves(cs, p, k)
  {
    if from == |cs| then |cs|
    else if Moves(cs, p, from) then from
    else FirstMove(cs, p, from + 1)
  }

  /**
   * Once some circle `m` sits at `p`, no later step moves anything: every
   * other circle would overlap it, and `m` itself is already there.
   */
  lemma {:induction false} DragFromOccupied(cs: seq<Circle>, p: Pos, from: nat, m: nat)
    requires from <= |cs| && m < |cs|
    requires cs[m].pos == p
    decreases |cs| - from
    ensures DragFrom(cs, p, from) == cs
  {
    if from < |cs| {
      if from != m {
        assert SqDist(p, Positions(cs)[m]) == 0;
        assert !IsValidPosition(Positions(cs), from, p);
      } else {
        assert cs[from := cs[from].(pos := p)] == cs;
      }
      assert MoveStep(cs, p, from) == cs;
      DragFromOccupied(cs, p, from + 1, m);
    }
  }

  /**
   * The motion handler from `from` on moves at most one circle: the first
   * dragged one the validator accepts at `p`; every later one then overlaps it.
   */
  lemma {:induction false} DragFromFirstMove(cs: seq<Circle>, p: Pos, from: nat)
    requires from <= |cs|
    decreases |cs| - from
    ensures var k := FirstMove(cs, p, from);
      DragFrom(cs, p, from) == if k < |cs| then cs[k := cs[k].(pos := p)] else cs
  {
    if from < |cs| {
      if Moves(cs, p, from) {
        var next := cs[from := cs[from].(pos := p)];
        assert MoveStep(cs, p, from) == next;
        DragFromOccupied(next, p, from + 1, from);
      } else {
        assert MoveStep(cs, p, from) == cs;
        DragFromFirstMove(cs, p, from + 1);
      }
    }
  }

  /**
   * A mouse motion to `p` moves exactly the first dragged circle whose move
   * the validator accepts, and nothing else; with no such circle it changes nothing.
   */
  lemma DragMovesFirstAccepted(cs: seq<Circle>, p: Pos)
    ensures var k := FirstMove(cs, p, 0);
      Drag(cs, p) == if k < |cs| then cs[k := cs[k].(pos := p)] else cs
  {
    DragFromFirstMove(cs, p, 0);
  }

  /** The circles after a mouse-button release: the left button ends every drag. */
  function Release(cs: seq<Circle>, button: int): (r: seq<Circle>)
    ensures button != LeftButton ==> r == cs
    ensures |r| == |cs|
    ensures Positions(r) == Positions(cs)
    ensures button == LeftButton ==> forall i :: 0 <= i < |cs| ==> !r[i].dragging
  {
    if button == LeftButton then seq(|cs|, i requires 0 <= i < |cs| => Circle(cs[i].pos, false)) else cs
  }

  /** After a left-button release, a mouse motion moves nothing. */
  lemma ReleaseStopsDrag(cs: seq<Circle>, p: Pos)
    ensures Drag(Release(cs, LeftButton), p) == Release(cs, LeftButton)
  {
    DragFromIdle(Release(cs, LeftButton), p, 0);
  }

  /** The part of the demo's state the input events change. */
  datatype Controls = Controls(circles: seq<Circle>, rotation: int, tilt: int)

  /** A key press: the arrows turn the sensor, every other key leaves it. */
  function Turn(c: Controls, key: Key): (r: Controls)
    ensures r.circles == c.circles
    ensures r.rotation == c.rotation + (if key == ArrowRight then RotationStep else if key == ArrowLeft then -RotationStep else 0)
    ensures r.tilt == c.tilt + (if key == ArrowUp then TiltStep else if key == ArrowDown then -TiltStep else 0)
  {
    match key
    case ArrowLeft => c.(rotation := c.rotation - RotationStep)
    case ArrowRight => c.(rotation := c.rotation + RotationStep)
    case ArrowDown => c.(tilt := c.tilt - TiltStep)
    case ArrowUp => c.(tilt := c.tilt + TiltStep)
    case OtherKey => c
  }

  /** The effect of one input event on the controls. */
  function Apply(c: Controls, e: Event): Controls
  {
    match e
    case Quit => c
    case MouseButtonDown(button, pos) => c.(circles := Press(c.circles, button, pos))
    case MouseButtonUp(button) => c.(circles := Release(c.circles, button))
    case MouseMotion(pos) => c.(circles := Drag(c.circles, pos))
    case KeyDown(key) => Turn(c, key)
    case OtherEvent => c
  }

  /** The effect of a sequence of events, applied in order. */
  function ApplyAll(c: Controls, events: seq<Event>): Controls
    decreases |events|
  {
    if events == [] then c else ApplyAll(Apply(c, events[0]), events[1..])
  }

  /** Four circles, all in the play field, none overlapping. */
  predicate Settled(cs: seq<Circle>)
  {
    |cs| == NumCircles && WellPlaced(Positions(cs))
  }

  /** Every event keeps the circles settled. */
  lemma ApplyKeepsSettled(c: Controls, e: Event)
    requires Settled(c.circles)
    ensures Settled(Apply(c, e).circles)
  {
    if e.MouseMotion? {
      DragKeepsWellPlaced(c.circles, e.pos);
    } else if e.MouseButtonDown? {
      assert Positions(Press(c.circles, e.button, e.pos)) == Positions(c.circles);
    }
  }

  /** Any sequence of events keeps the circles settled. */
  lemma {:induction false} ApplyAllKeepsSettled(c: Controls, events: seq<Event>)
    requires Settled(c.circles)
    decreases |events|
    ensures Settled(ApplyAll(c, events).circles)
  {
    if events != [] {
      ApplyKeepsSettled(c, events[0]);
      ApplyAllKeepsSettled(Apply(c, events[0]), events[1..]);
    }
  }

  /** Presses of `plus` minus presses of `minus` among the events. */
  function NetPresses(events: seq<Event>, plus: Key, minus: Key): int
  {
    if events == [] then 0
    else
      var step := if events[0] == KeyDown(plus) then 1 else if events[0] == KeyDown(minus) then -1 else 0;
      NetPresses(events[1..], plus, minus) + step
  }

  /**
   * Only the arrow keys turn the sensor, each by one fixed step, whatever
   * order the events come in.
   */
  lemma {:induction false} ApplyAllAngles(c: Controls, events: seq<Event>)
    decreases |events|
    ensures ApplyAll(c, events).rotation == c.rotation + RotationStep * NetPresses(events, ArrowRight, ArrowLeft)
    ensures ApplyAll(c, events).tilt == c.tilt + TiltStep * NetPresses(events, ArrowUp, ArrowDown)
  {
    if events != [] {
      ApplyAllAngles(Apply(c, events[0]), events[1..]);
    }
  }

  /** The mutable state of the demo: the circles, the sensor angles and the collision tally. */
  class Scene {
    var circles: seq<Circle>
    /** Rotation of the ray start points around the sensor circle, in degrees. */
    var rotation: int
    /** Tilt of the ray directions relative to their start points, in degrees. */
    var tilt: int
    /** Wall exits counted during the last ray cast. */
    var tally: Tally

    /** Four circles, every centre in the play field, no two overlapping. */
    predicate Valid()
      reads this
    {
      Settled(circles)
    }

    /** The controls part of the current state. */
    function Snapshot(): Controls
      reads this
    {
      Controls(circles, rotation, tilt)
    }

    constructor ()
      ensures Valid()
      ensures circles == InitialCircles()
      ensures rotation == 0 && tilt == 0 && tally == NoCollisions
    {
      circles := InitialCircles();
      rotation, tilt := 0, 0;
      tally := NoCollisions;
      InitialLayoutWellPlaced();
    }

    /** A mouse button went down at `pos`. */
    method OnMouseDown(button: int, pos: Pos)
      requires Valid()
      modifies this`circles
      ensures Valid()
      ensures circles == Press(old(circles), button, pos)
    {
      if button == LeftButton {
        var i := 0;
        while i < |circles|
          invariant 0 <= i <= |circles|
          invariant circles == old(circles)
          invariant PressFrom(circles, pos, i) == Press(circles, button, pos)
        {
          if Grabs(circles[i].pos, pos) {
            circles := circles[i := circles[i].(dragging := true)];
            assert Positions(circles) == Positions(old(circles));
            break;
          }
          i := i + 1;
        }
      }
    }

    /** A mouse button went up: the left button ends every drag. */
    method OnMouseUp(button: int)
      requires Valid()
      modifies this`circles
      ensures Valid()
      ensures button != LeftButton ==> circles == old(circles)
      ensures |circles| == |old(circles)|
      ensures button == LeftButton ==> forall i :: 0 <= i < |circles| ==> circles[i] == Circle(old(circles)[i].pos, false)
      ensures circles == Release(old(circles), button)
    {
      if button == LeftButton {
        var i := 0;
        while i < |circles|
          invariant 0 <= i <= |circles| == |old(circles)|
          invariant forall j :: 0 <= j < i ==> circles[j] == Circle(old(circles)[j].pos, false)
          invariant forall j :: i <= j < |circles| ==> circles[j] == old(circles)[j]
        {
          circles := circles[i := circles[i].(dragging := false)];
          i := i + 1;
        }
        assert Positions(circles) == Positions(old(circles));
      }
    }

    /** The mouse moved to `pos`: every dragged circle, in list order, tries to follow it. */
    method OnMouseMotion(pos: Pos)
      requires Valid()
      modifies this`circles
      ensures Valid()
      ensures circles == Drag(old(circles), pos)
    {
      var i := 0;
      while i < |circles|
        invariant 0 <= i <= |circles| == NumCircles
        invariant DragFrom(circles, pos, i) == Drag(old(circles), pos)
      {
        if circles[i].dragging && IsValidPosition(Positions(circles), i, pos) {
          circles := circles[i := circles[i].(pos := pos)];
        }
        i := i + 1;
      }
      DragKeepsWellPlaced(old(circles), pos);
    }

    /** A key went down: the arrows turn the sensor, other keys do nothing. */
    method OnKeyDown(key: Key)
      requires Valid()
      modifies this`rotation, this`tilt
      ensures Valid()
      ensures key == ArrowLeft ==> rotation == old(rotation) - RotationStep && tilt == old(tilt)
      ensures key == ArrowRight ==> rotation == old(rotation) + RotationStep && tilt == old(tilt)
      ensures key == ArrowDown ==> tilt == old(tilt) - TiltStep && rotation == old(rotation)
      ensures key == ArrowUp ==> tilt == old(tilt) + TiltStep && rotation == old(rotation)
      ensures key == OtherKey ==> rotation == old(rotation) && tilt == old(tilt)
      ensures Snapshot() == Turn(old(Snapshot()), key)
    {
      if key == ArrowLeft {
        rotation := rotation - RotationStep;
      } else if key == ArrowRight {
        rotation := rotation + RotationStep;
      }
      if key == ArrowDown {
        tilt := tilt - TiltStep;
      } else if key == ArrowUp {
        tilt := tilt + TiltStep;
      }
    }

    /** Dispatches one input event to its handler. */
    method Handle(e: Event)
      requires Valid()
      modifies this`circles, this`rotation, this`tilt
      ensures Valid()
      ensures e.MouseButtonDown? ==> circles == Press(old(circles), e.button, e.pos)
      ensures e.MouseMotion? ==> circles == Drag(old(circles), e.pos)
      ensures !e.KeyDown? ==> rotation == old(rotation) && tilt == old(tilt)
      ensures e.Quit? || e.KeyDown? || e.OtherEvent? ==> circles == old(circles)
      ensures e.MouseButtonUp? ==> circles == Release(old(circles), e.button)
      ensures e.KeyDown? ==> Snapshot() == Turn(old(Snapshot()), e.key)
      ensures Snapshot() == Apply(old(Snapshot()), e)
    {
      match e
      case Quit =>
      case MouseButtonDown(button, pos) => OnMouseDown(button, pos);
      case MouseButtonUp(button) => OnMouseUp(button);
      case MouseMotion(pos) => OnMouseMotion(pos);
      case KeyDown(key) => OnKeyDown(key);
      case OtherEvent =>
    }

    /** Handles one frame's pending events in order; the scene invariant survives every one. */
    method HandleAll(events: seq<Event>)
      requires Valid()
      modifies this`circles, this`rotation, this`tilt
      ensures Valid()
      ensures Snapshot() == ApplyAll(old(Snapshot()), events)
    {
      for n := 0 to |events|
        invariant Valid()
        invariant ApplyAll(Snapshot(), events[n..]) == ApplyAll(old(Snapshot()), events)
      {
        assert events[n..][0] == events[n] && events[n..][1..] == events[n + 1..];
        Handle(events[n]);
      }
      assert events[|events|..] == [];
    }

    /**
     * Marches one beam, `beam(k)` being its sample at step length `k`, and
     * returns where it ended; a wall exit bumps that wall's counter.
     */
    method March(beam: nat -> Point, others: seq<Pos>) returns (end: Point)
      modifies this`tally
      ensures end == Trace(beam, others).at
      ensures tally == Record(old(tally), Trace(beam, others))
    {
      ghost var stop := Trace(beam, others);
      var rayEnd: Option<Point> := None;
      var last := beam(1);
      var length := 1;
      while length < MaxLength && rayEnd.None?
        invariant 1 <= length <= MaxLength
        invariant rayEnd.None? ==> tally == old(tally)
        invariant rayEnd.None? && length < MaxLength ==> TraceFrom(beam, others, length) == stop
        invariant rayEnd.None? && length == MaxLength ==> stop == Open(last)
        invariant rayEnd.Some? ==> rayEnd.value == stop.at && tally == Record(old(tally), stop)
        decreases MaxLength - length, if rayEnd.None? then 1 else 0
      {
        var p := beam(length);
        last := p;
        match Classify(p, others)
        case Exit(wall, at) =>
          tally := Bump(tally, wall);
          rayEnd := Some(at);
        case Obstructed =>
          rayEnd := Some(p);
        case Pass =>
          length := length + 1;
      }
      if rayEnd.None? {
        rayEnd := Some(last);
      }
      end := rayEnd.value;
    }

    /**
     * Casts `numRays` rays from the first circle and recomputes the tally.
     * Ray `i` starts at `start(i)`; its sample at step length `k` is
     * `sample(i, k)`. The result has one ray per index, each ending where
     * its beam stopped, and the tally counts this frame's wall exits only.
     */
    method CastRays(numRays: nat, start: nat -> Point, sample: (nat, nat) -> Point) returns (rays: seq<Ray>)
      requires |circles| > 0
      requires numRays > 0
      modifies this`tally
      ensures rays == Segments(start, Traces(numRays, sample, Others(circles)))
      ensures tally == CountWalls(Traces(numRays, sample, Others(circles)))
      ensures |rays| == numRays && tally.Total() <= numRays
    {
      tally := NoCollisions;
      var others := Others(circles);
      rays := [];
      for i := 0 to numRays
        invariant rays == Segments(start, Traces(i, sample, others))
        invariant tally == CountWalls(Traces(i, sample, others))
      {
        var end := March(Beam(sample, i), others);
        assert Traces(i + 1, sample, others)[..i] == Traces(i, sample, others);
        assert Traces(i + 1, sample, others)[i].at == end;
        rays := rays + [Ray(start(i), end)];
      }
    }

    /**
     * One frame of the main loop: handle the pending events, then cast the
     * default number of rays from the first circle.
     */
    method Frame(events: seq<Event>, start: nat -> Point, sample: (nat, nat) -> Point) returns (rays: seq<Ray>)
      requires Valid()
      modifies this`circles, this`rotation, this`tilt, this`tally
      ensures Valid()
      ensures Snapshot() == ApplyAll(old(Snapshot()), events)
      ensures rays == Segments(start, Traces(RaysDefault, sample, Others(circles)))
      ensures tally == CountWalls(Traces(RaysDefault, sample, Others(circles)))
    {
      HandleAll(events);
      rays := CastRays(RaysDefault, start, sample);
    }
  }
}
