/**
 * The play field of the lidar demo: its dimensions, circle centres, and the
 * check that decides whether a dragged circle may move to a proposed centre.
 *
 * Centres are integers (pygame reports mouse positions as integers, and the
 * initial layout is integral), so the source's `sqrt(d2) < 60` is the exact
 * integer comparison `d2 < 3600` used here.
 */
module Field {

  /** Screen size in pixels. */
  const Width: int := 850
  const Height: int := 627
  /** Radius of every circle. */
  const CircleRadius: int := 30
  /** Extra inset of the play field beyond one radius. */
  const Margin: int := 5
  /** Number of circles in the scene. */
  const NumCircles: int := 4

  /** Two centres closer than two radii overlap: 60 * 60 squared. */
  const MinSqGap: int := (2 * CircleRadius) * (2 * CircleRadius)
  /** A click at most one radius from a centre grabs that circle: 30 * 30 squared. */
  const GrabSq: int := CircleRadius * CircleRadius

  /** A circle centre in screen pixels. */
  datatype Pos = Pos(x: int, y: int)

  /** Squared Euclidean distance between two centres. */
  function SqDist(a: Pos, b: Pos): (d: nat)
    ensures d == 0 <==> a == b
  {
    var dx, dy := a.x - b.x, a.y - b.y;
    assert dx * dx >= 0 && dy * dy >= 0;
    assert dx != 0 ==> dx * dx > 0;
    assert dy != 0 ==> dy * dy > 0;
    dx * dx + dy * dy
  }

  lemma SqDistSymmetric(a: Pos, b: Pos)
    ensures SqDist(a, b) == SqDist(b, a)
  {
    assert (a.x - b.x) * (a.x - b.x) == (b.x - a.x) * (b.x - a.x);
    assert (a.y - b.y) * (a.y - b.y) == (b.y - a.y) * (b.y - a.y);
  }

  /**
   * The rectangle a centre may occupy, written with the source's own
   * comparisons; the bounds come out asymmetric: strict on the left edge,
   * inclusive on the top edge.
   */
  function InBounds(p: Pos): (b: bool)
    ensures b <==> 35 < p.x <= 815 && 35 <= p.y <= 592
  {
    && CircleRadius <= p.x <= Width - Margin - CircleRadius
    && p.x > Margin + CircleRadius
    && CircleRadius <= p.y <= Height - Margin - CircleRadius
    && p.y >= Margin + CircleRadius
  }

  /**
   * The collision scan of the validator from index `from` on: walks the
   * circles in list order, skipping `index`, and stops at the first one
   * closer than two radii.
   */
  function ClearFrom(ps: seq<Pos>, index: int, p: Pos, from: nat): (ok: bool)
    requires from <= |ps|
    decreases |ps| - from
    ensures ok <==> forall j :: from <= j < |ps| && j != index ==> SqDist(p, ps[j]) >= MinSqGap
  {
    if from == |ps| then true
    else if from != index && SqDist(p, ps[from]) < MinSqGap then false
    else ClearFrom(ps, index, p, from + 1)
  }

  /**
   * Whether the circle at `index` may move to `p`, given the current centres
   * `ps` of all circles: `p` lies in the play field and is at least two radii
   * from every OTHER circle; the moving circle's own centre is never compared.
   */
  function IsValidPosition(ps: seq<Pos>, index: int, p: Pos): (ok: bool)
    ensures ok <==> InBounds(p) && forall j :: 0 <= j < |ps| && j != index ==> SqDist(p, ps[j]) >= MinSqGap
  {
    InBounds(p) && ClearFrom(ps, index, p, 0)
  }

  /** A proposed centre outside the play field is refused whatever the other circles are. */
  lemma OutsideFieldRejected(ps: seq<Pos>, index: int, p: Pos)
    requires p.x <= 35 || p.x > 815 || p.y < 35 || p.y > 592
    ensures !IsValidPosition(ps, index, p)
  {
  }

  /** The scene invariant: every centre in the play field, no two circles overlapping. */
  predicate WellPlaced(ps: seq<Pos>)
  {
    && (forall i :: 0 <= i < |ps| ==> InBounds(ps[i]))
    && (forall i, j :: 0 <= i < |ps| && 0 <= j < |ps| && i != j ==> SqDist(ps[i], ps[j]) >= MinSqGap)
  }

  /** Moving one circle to a position the validator accepts keeps the scene well placed. */
  lemma ValidMoveKeepsWellPlaced(ps: seq<Pos>, index: int, p: Pos)
    requires WellPlaced(ps)
    requires 0 <= index < |ps|
    requires IsValidPosition(ps, index, p)
    ensures WellPlaced(ps[index := p])
  {
    var qs := ps[index := p];
    forall i, j | 0 <= i < |qs| && 0 <= j < |qs| && i != j
      ensures SqDist(qs[i], qs[j]) >= MinSqGap
    {
      if j == index {
        SqDistSymmetric(qs[i], qs[j]);
      }
    }
  }
}
