/**
 * The app's edge-swipe navigation: a touch that starts near the left edge
 * and moves far enough to the right goes back; one that starts near the
 * right edge and moves far enough to the left goes forward. A touch that
 * moves too little sideways or too much vertically does nothing.
 */
module Swipe {
  const MinSwipeDistance: real := 50.0
  const MaxVerticalDistance: real := 50.0
  const EdgeWidth: real := 50.0

  /** The history step taken at the end of a touch: none, `navigate(-1)` or `navigate(1)`. */
  datatype Navigation = NoNavigation | Back | Forward

  function Abs(x: real): real {
    if x < 0.0 then -x else x
  }

  /**
   * handleTouchEnd's decision for a touch from (startX, startY) to (endX, endY)
   * on a screen `width` CSS pixels wide; touch coordinates are fractional.
   */
  function Decide(startX: real, startY: real, endX: real, endY: real, width: int): Navigation {
    var diffX := endX - startX;
    var diffY := endY - startY;
    if Abs(diffX) > MinSwipeDistance && Abs(diffY) < MaxVerticalDistance then
      if diffX > 0.0 && startX < EdgeWidth then Back
      else if diffX < 0.0 && startX > width as real - EdgeWidth then Forward
      else NoNavigation
    else NoNavigation
  }

  /** Back and forward each happen exactly under their own edge and direction condition. */
  lemma DecideCases(startX: real, startY: real, endX: real, endY: real, width: int)
    ensures var d := Decide(startX, startY, endX, endY, width);
      && (d == Back <==> endX - startX > 50.0 && Abs(endY - startY) < 50.0 && startX < 50.0)
      && (d == Forward <==> startX - endX > 50.0 && Abs(endY - startY) < 50.0 && startX > width as real - 50.0)
      && (d != NoNavigation ==> Abs(endX - startX) > 50.0 && Abs(endY - startY) < 50.0)
  {
  }

  /** The rule is symmetric: mirroring a touch across the screen swaps back and forward. */
  lemma Mirror(startX: real, startY: real, endX: real, endY: real, width: int)
    ensures var d := Decide(startX, startY, endX, endY, width);
      var m := Decide(width as real - startX, startY, width as real - endX, endY, width);
      && (d == Back <==> m == Forward)
      && (d == Forward <==> m == Back)
  {
  }

  /** On a screen narrower than 100, a start can be near both edges; a single touch still navigates once. */
  lemma BothEdges(startY: real, endY: real)
    requires Abs(endY - startY) < 50.0
    ensures Decide(40.0, startY, 100.0, endY, 80) == Back
    ensures Decide(40.0, startY, -20.0, endY, 80) == Forward
  {
  }

  /**
   * The edge tests are strict on fractional coordinates: a start at 49.5
   * is near the left edge, one at exactly 50 is not.
   */
  lemma FractionalEdge(startY: real, endY: real)
    requires Abs(endY - startY) < 50.0
    ensures Decide(49.5, startY, 100.0, endY, 400) == Back
    ensures Decide(50.0, startY, 100.5, endY, 400) == NoNavigation
    ensures Decide(350.5, startY, 300.0, endY, 400) == Forward
    ensures Decide(350.0, startY, 299.5, endY, 400) == NoNavigation
  {
  }

  /** The closure variables of the hook: where the current touch started. */
  class Tracker {
    var touchStartX: real
    var touchStartY: real

    constructor ()
      ensures touchStartX == 0.0 && touchStartY == 0.0
    {
      touchStartX, touchStartY := 0.0, 0.0;
    }

    /** handleTouchStart. */
    method TouchStart(x: real, y: real)
      modifies this
      ensures touchStartX == x && touchStartY == y
    {
      touchStartX := x;
      touchStartY := y;
    }

    /** handleTouchEnd: the navigation for the touch ending at (x, y); the start is kept. */
    method TouchEnd(x: real, y: real, innerWidth: int) returns (nav: Navigation)
      ensures nav == Decide(touchStartX, touchStartY, x, y, innerWidth)
    {
      var diffX := x - touchStartX;
      var diffY := y - touchStartY;
      nav := NoNavigation;
      if Abs(diffX) > MinSwipeDistance && Abs(diffY) < MaxVerticalDistance {
        if diffX > 0.0 && touchStartX < EdgeWidth {
          nav := Back;
        } else if diffX < 0.0 && touchStartX > innerWidth as real - EdgeWidth {
          nav := Forward;
        }
      }
    }
  }
}
