# Lidar visualizer scene model

A Dafny model of the scene logic of a small pygame demo ("Lidar Sim"). The demo has four
draggable circles on a 850 x 627 field. The first circle carries a simulated lidar that casts
24 rays. The rays stop at the screen edges, at the other circles or at two goal rectangles,
and a debug panel shows how many rays left through each edge.

The model has three modules:

- `Field` (`field.dfy`): the field constants, integer circle centres, the squared
  distance, and the drag-validity check `IsValidPosition` (`is_valid_position`). It also
  defines the scene invariant `WellPlaced`: every centre lies in the play field and no two
  circles overlap.
- `Lidar` (`lidar.dfy`): the bookkeeping of `cast_rays`. It covers the per-sample
  classifier (left/right edge, then top/bottom edge, then the other circles, then the
  goals), the marching of one beam to its first stopping sample, and the per-wall
  collision tally.
- `Scene` (`scene.dfy`): the class `Scene`. It holds the scene's mutable state: the circle
  list, the rotation and tilt angles, and the tally. Its methods are the event handlers of
  the main loop and the ray cast. Each handler is proved against a value-level function
  (`Press`, `Release`, `Drag`, `Turn`), and a frame's events against their fold `ApplyAll`.
  Each handler keeps the invariant `Valid()`.

Circle centres are integers, because pygame reports mouse positions as integers and the
initial layout is integral. So the source's `sqrt(d2) < 60` is exactly `d2 < 3600`, and
`sqrt(d2) <= 30` is exactly `d2 <= 900`. Angles are whole degrees: each rotation step is
5 degrees and each tilt step is 1 degree.

Three details of the code shape the model:

- `cast_rays` divides a full turn by `num_rays` (main.py:79), so zero rays is a division
  by zero. `CastRays` therefore requires at least one ray.
- The bounds test (main.py:62) is asymmetric: `35 < x <= 815` but `35 <= y <= 592`.
  `InBounds` keeps it as written.
- Each sample along a ray is computed and then tested once, in order (main.py:99-133).
  `TraceFrom` does the same, and the marching loop in `March` follows it.

## Model

| member | source | states |
|---|---|---|
| `Field.SqDist` | main.py:55-57 | the squared distance is zero exactly when the two centres coincide |
| `Field.SqDistSymmetric` | main.py:55-57 | the distance does not depend on the order of its arguments |
| `Field.InBounds` | main.py:62 | the bounds test accepts exactly the centres with 35 < x <= 815 and 35 <= y <= 592 |
| `Field.ClearFrom` | main.py:65-71 | the collision scan from index `from` on passes exactly when every circle other than `index` at or after `from` is at squared distance >= 3600 |
| `Field.IsValidPosition` | main.py:59-71 | a move is accepted exactly when the new centre is in bounds and at squared distance >= 3600 from every other circle; the moving circle's own centre is never compared |
| `Field.OutsideFieldRejected` | main.py:62-63 | a centre with x <= 35, x > 815, y < 35 or y > 592 is rejected whatever the other circles are |
| `Field.ValidMoveKeepsWellPlaced` | main.py:59-71 | moving one circle to an accepted position keeps every centre in bounds and all pairs at squared distance >= 3600 |
| `Scene.InitialLayoutWellPlaced` | main.py:43-46 | the start-up layout has four circles, none dragged, all in bounds and pairwise far enough apart |
| `Scene.PressFrom` | main.py:151-154 | the grab scan from `from` on leaves positions alone and sets `dragging` on exactly the first circle at or after `from` with squared distance <= 900 to the click |
| `Scene.Press` | main.py:149-154 | a left click starts dragging exactly the first circle in list order within one radius; other flags and all positions are unchanged; other buttons change nothing |
| `Scene.PressGrabsAtMostOne` | main.py:151-154 | a press newly sets `dragging` on at most one circle |
| `Scene.MoveStep` | main.py:163-166 | one motion step changes only circle `i`, only its centre, only to `p`, and exactly when it is dragged and the validator accepts `p` against the current centres |
| `Scene.DragFrom` | main.py:162-166 | the motion handler never changes a dragging flag; each centre either keeps its value or, for a dragged circle, becomes the mouse position |
| `Scene.FirstMove` | main.py:162-166 | the index of the first circle at or after `from` that is dragged and whose move to `p` the validator accepts, or the list length if there is none |
| `Scene.DragFromOccupied` | main.py:162-166 | once some circle is centred at the mouse position, no later step of the motion handler changes anything, because the validator rejects every other circle there |
| `Scene.DragFromFirstMove` | main.py:162-166 | the motion handler from `from` on moves exactly the first circle it accepts to the mouse position and leaves every other circle as it was |
| `Scene.DragMovesFirstAccepted` | main.py:161-166 | a mouse motion moves exactly the first dragged circle whose move the validator accepts; with none, it changes nothing |
| `Scene.DragFromKeepsWellPlaced` | main.py:161-166 | the motion handler from any index on keeps the scene in bounds and overlap-free |
| `Scene.DragKeepsWellPlaced` | main.py:161-166 | a whole mouse motion keeps the scene in bounds and overlap-free |
| `Scene.DragFromIdle` | main.py:162-163 | when no circle from `from` on is dragged, the rest of the handler changes nothing |
| `Scene.DragSkipsIdle` | main.py:162-163 | circles that are not dragged are passed over without effect |
| `Scene.DragSingle` | main.py:161-166 | with exactly one circle dragged, a motion moves it to the mouse exactly when the validator accepts that position, and changes nothing else |
| `Scene.Scene.constructor` | main.py:43-46 | the scene starts in the initial layout with angles 0, an empty tally and the invariant established |
| `Scene.Scene.OnMouseDown` | main.py:149-154 | the new circle list is `Press` of the old one, and the invariant holds |
| `Scene.Release` | main.py:156-159 | a left-button release clears every dragging flag and keeps the centres; other buttons change nothing |
| `Scene.ReleaseStopsDrag` | main.py:156-166 | after a left-button release, a mouse motion moves no circle |
| `Scene.Turn` | main.py:168-176 | right/left change the rotation by +5/-5 degrees, up/down change the tilt by +1/-1 degree, other keys change neither; the circles are untouched |
| `Scene.ApplyKeepsSettled` | main.py:145-176 | every single event keeps four circles in the play field, none overlapping |
| `Scene.ApplyAllKeepsSettled` | main.py:144-176 | any sequence of events keeps four circles in the play field, none overlapping |
| `Scene.ApplyAllAngles` | main.py:168-176 | after a sequence of events, the rotation has moved by 5 degrees per right-arrow press minus 5 per left-arrow press, and the tilt by 1 degree per up-arrow press minus 1 per down-arrow press, in any order |
| `Scene.Scene.OnMouseUp` | main.py:156-159 | a left-button release clears every dragging flag and keeps every position, so the new list is `Release` of the old one; other buttons change nothing |
| `Scene.Scene.OnMouseMotion` | main.py:161-166 | the new circle list is `Drag` of the old one, and the invariant holds |
| `Scene.Scene.OnKeyDown` | main.py:168-176 | left/right change the rotation by -5/+5 degrees and keep the tilt; down/up change the tilt by -1/+1 degree and keep the rotation; other keys change neither; the new angles are `Turn` of the old ones |
| `Scene.Scene.Handle` | main.py:145-176 | each event goes to its handler: a press gives `Press`, a release `Release`, a motion `Drag`, a key `Turn` of the old state, and the whole new state is `Apply` of the old one; only key events turn the sensor, only mouse events change circles, and the invariant holds |
| `Scene.Scene.HandleAll` | main.py:144-176 | handling a frame's events in order leaves the state `ApplyAll` of the old one, the events folded in order, and keeps the scene invariant |
| `Scene.Scene.Frame` | main.py:143-197 | one frame handles its events in order and then casts the default 24 rays from the first circle; the rays and the tally are those of the circles after the events |
| `Scene.Scene.March` | main.py:97-136 | marching one beam returns the end point of its first stop, and the tally gains one on that stop's wall if the beam left the screen, and nothing otherwise |
| `Scene.Scene.CastRays` | main.py:73-139 | the tally is recounted from zero; the result has exactly `numRays` rays, ray `i` from its start point to where beam `i` stopped; the tally total is at most `numRays` |
| `Lidar.HitsCircle` | main.py:122-125 | the circle scan hits exactly when some other circle's centre is strictly within one radius of the sample |
| `Lidar.HitsGoal` | main.py:127-130 | the goal scan hits exactly when the sample lies in some goal's closed rectangle |
| `Lidar.Classify` | main.py:103-130 | a sample exits exactly when it is not strictly inside the screen; a crossed side edge wins over top/bottom; the exit point is clamped onto the crossed edge and keeps the other coordinate; a sample inside the screen is obstructed exactly when it is near another circle or inside a goal |
| `Lidar.TraceFrom` | main.py:99-136 | a beam that ends by leaving the screen ends on the wall it crossed |
| `Lidar.TraceFromFirstStop` | main.py:99-136 | a beam ends open, at its last sample, exactly when every sample is free; otherwise it stops as its first non-free sample says |
| `Lidar.TraceFromStopsAtFirst` | main.py:99-133 | conversely, the first non-free sample always decides how the beam ends |
| `Lidar.Traces` | main.py:80-136 | one stop per ray, in ray order, each the marching of that ray's beam |
| `Lidar.Segments` | main.py:135-138 | one ray per stop, ray `i` from `start(i)` to where beam `i` ended |
| `Lidar.WallRaysEndOnWall` | main.py:104-119 | a drawn ray whose beam left the screen ends at x = 0, x = 850, y = 0 or y = 627 for the left, right, top or bottom wall |
| `Lidar.Bump` | main.py:104-118 | a wall exit raises exactly that wall's counter, by one |
| `Lidar.Record` | main.py:103-119 | a beam that left the screen raises the counter of the wall it crossed by one and no other counter; a beam that did not leave changes no counter; the total rises by one or zero to match |
| `Lidar.CountWalls` | main.py:76-119 | a tally counted from zero over `n` beams totals at most `n` |
| `Lidar.CountWallsFull` | main.py:76-119 | the tally total equals the number of beams exactly when every beam left the screen |
| `Lidar.CountWallsSome` | main.py:76-119 | the tally total is positive exactly when some beam left the screen |
| `Lidar.CountWallsPerWall` | main.py:76-119 | each wall's counter equals the number of beams that left the screen through that wall |

## Left out

- Window creation, event polling, drawing, fonts, the debug-panel text and frame pacing
  (main.py:6, 36-40, 145, 180-222) are pygame I/O. `HandleAll` takes a frame's events as a
  sequence instead.
- The trigonometry that places each ray's start point and samples (main.py:79-101:
  `cos`/`sin`, the 1.2 step). `CastRays` takes the start points and samples as function
  inputs. For that reason the rotation and tilt do not feed the cast in the model, and the
  claim that each start point lies one radius from the centre is not modelled.
- Floating point. `sqrt` is replaced by exact squared comparisons, and samples are exact
  reals, so rounding at a boundary is not modelled. Angles are whole degrees rather than
  accumulated radians, and their rounding for display (main.py:209-212) is left out.
- Quit events change nothing in `Handle`, because the `running` flag and process
  exit (main.py:146-147) are lifecycle, not scene logic.
- Colours of circles and goals: presentation only.
