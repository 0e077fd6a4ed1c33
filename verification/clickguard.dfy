/**
  Clicks that end a pan. A browser delivers `click` after `mouseup`, and
  the `mouseup` handler has already cleared `isDragging`, so the click
  handler's `isDragging` guard never holds when a click arrives: every pan
  (press, move, release) ends by placing a point. `PanThenClickAddsPoint`
  shows this on the editor as written. `StepGuarded` is the evidently
  intended behaviour: the session also remembers whether the mouse moved
  while pressed, and a click after such a move is ignored.
*/
module ClickGuard {
  import opened Geometry
  import opened JsonValue
  import opened Editor

  /** The editor state, plus whether the pointer moved while pressed since
      the last `mousedown`. */
  datatype Session = Session(view: State, moved: bool)

  /** One event with the corrected click guard. Every other event acts as
      in the editor as written. */
  function StepGuarded(ss: Session, e: Event, round: real -> real): (r: Session)
    requires Valid(ss.view)
    ensures Valid(r.view)
    ensures e.ClickEvent? && ss.moved ==> r.view == ss.view
    ensures !(e.ClickEvent? && ss.moved) ==> r.view == Step(ss.view, e, round)
  {
    match e
    case Down(x, y) => Session(MouseDown(ss.view, x, y), false)
    case Move(x, y) =>
      var dragged := ss.view.isDragging && (x != ss.view.dragStartX || y != ss.view.dragStartY);
      Session(MouseMove(ss.view, x, y), ss.moved || dragged)
    case ClickEvent(x, y) =>
      if ss.moved then ss.(moved := false) else Session(Click(ss.view, x, y, round), false)
    case _ => Session(Step(ss.view, e, round), ss.moved)
  }

  /** A session of events under the corrected guard. */
  function RunGuarded(ss: Session, events: seq<Event>, round: real -> real): (r: Session)
    requires Valid(ss.view)
    ensures Valid(r.view)
    decreases |events|
  {
    if |events| == 0 then ss else RunGuarded(StepGuarded(ss, events[0], round), events[1..], round)
  }

  /** As written: pressing at `(a, b)`, dragging to `(c, d)` and releasing
      pans the view, and the click the browser then delivers appends a
      point as well. */
  lemma PanThenClickAddsPoint(s: State, a: real, b: real, c: real, d: real, x: real, y: real, round: real -> real)
    requires Valid(s) && s.hasImage
    ensures var r := Run(s, [Down(a, b), Move(c, d), Up, ClickEvent(x, y)], round);
      && r.offsetX == s.offsetX + (c - a) && r.offsetY == s.offsetY + (d - b)
      && |r.points| == |s.points| + 1
  {
    var events := [Down(a, b), Move(c, d), Up, ClickEvent(x, y)];
    var s1 := Step(s, events[0], round);
    var s2 := Step(s1, events[1], round);
    var s3 := Step(s2, events[2], round);
    var s4 := Step(s3, events[3], round);
    assert !s3.isDragging && s3.hasImage;
    assert events[1..][1..][1..][1..] == [];
    assert Run(s, events, round) == Run(s1, events[1..], round);
    assert Run(s1, events[1..], round) == Run(s2, events[1..][1..], round);
    assert Run(s2, events[1..][1..], round) == Run(s3, events[1..][1..][1..], round);
    assert Run(s3, events[1..][1..][1..], round) == Run(s4, [], round);
  }

  /** Corrected: after a press, a real drag and a release, the click that
      follows leaves the points as they were. */
  lemma PanThenClickKeepsPoints(ss: Session, a: real, b: real, c: real, d: real, x: real, y: real, round: real -> real)
    requires Valid(ss.view)
    requires c != a || d != b
    ensures var r := RunGuarded(ss, [Down(a, b), Move(c, d), Up, ClickEvent(x, y)], round);
      && r.view.offsetX == ss.view.offsetX + (c - a) && r.view.offsetY == ss.view.offsetY + (d - b)
      && r.view.points == ss.view.points
  {
    var events := [Down(a, b), Move(c, d), Up, ClickEvent(x, y)];
    var s1 := StepGuarded(ss, events[0], round);
    var s2 := StepGuarded(s1, events[1], round);
    var s3 := StepGuarded(s2, events[2], round);
    var s4 := StepGuarded(s3, events[3], round);
    assert s2.moved && s3.moved;
    assert events[1..][1..][1..][1..] == [];
    assert RunGuarded(ss, events, round) == RunGuarded(s1, events[1..], round);
    assert RunGuarded(s1, events[1..], round) == RunGuarded(s2, events[1..][1..], round);
    assert RunGuarded(s2, events[1..][1..], round) == RunGuarded(s3, events[1..][1..][1..], round);
    assert RunGuarded(s3, events[1..][1..][1..], round) == RunGuarded(s4, [], round);
  }

  /** Corrected: a plain click (press and release without moving) still
      places a point. */
  lemma PlainClickAddsPoint(ss: Session, a: real, b: real, x: real, y: real, round: real -> real)
    requires Valid(ss.view) && ss.view.hasImage
    ensures |RunGuarded(ss, [Down(a, b), Up, ClickEvent(x, y)], round).view.points| == |ss.view.points| + 1
  {
    var events := [Down(a, b), Up, ClickEvent(x, y)];
    var s1 := StepGuarded(ss, events[0], round);
    var s2 := StepGuarded(s1, events[1], round);
    var s3 := StepGuarded(s2, events[2], round);
    assert !s2.moved && !s2.view.isDragging;
    assert events[1..][1..][1..] == [];
    assert RunGuarded(ss, events, round) == RunGuarded(s1, events[1..], round);
    assert RunGuarded(s1, events[1..], round) == RunGuarded(s2, events[1..][1..], round);
    assert RunGuarded(s2, events[1..][1..], round) == RunGuarded(s3, [], round);
  }
}
