/** When the tracked cursor counts as having left the screen through the target edge. */
module EdgeDetection {
  import opened Proto

  const DEAD_ZONE_PX := 50

  datatype EdgeHit = NoHit | Triggered(edge: Edge)

  datatype EdgeDetector = EdgeDetector(screen: Screen, target: Edge, deadZone: nat) {

    predicate InCorner(x: int, y: int) {
      var w, h := screen.width, screen.height;
      var inTop, inBottom := y < deadZone, y > h - deadZone;
      var inLeft, inRight := x < deadZone, x > w - deadZone;
      (inTop || inBottom) && (inLeft || inRight)
    }

    function Check(x: int, y: int): EdgeHit {
      if InCorner(x, y) then NoHit
      else match target
        case Right => if x >= screen.width - 1 then Triggered(Edge.Right) else NoHit
        case Left => if x <= 0 then Triggered(Edge.Left) else NoHit
        case Top => if y <= 0 then Triggered(Edge.Top) else NoHit
        case Bottom => if y >= screen.height - 1 then Triggered(Edge.Bottom) else NoHit
    }

    predicate Fires(x: int, y: int) {
      Check(x, y) != NoHit
    }

    /** Coordinate across the target edge, its value on the border, and the two extents. */
    function Across(x: int, y: int): int {
      if target.Left? || target.Right? then x else y
    }

    function AcrossExtent(): nat {
      if target.Left? || target.Right? then screen.width else screen.height
    }

    function Along(x: int, y: int): int {
      if target.Left? || target.Right? then y else x
    }

    function AlongExtent(): nat {
      if target.Left? || target.Right? then screen.height else screen.width
    }

    function Border(): nat {
      if target.Left? || target.Top? then 0 else AcrossExtent() - 1
    }

    function Centre(): nat {
      AcrossExtent() / 2
    }

    predicate InBounds(x: int, y: int) {
      0 <= x < screen.width && 0 <= y < screen.height
    }

    /** The exact screens on which some cell fires. The second disjunct is the dead zone of one
        pixel, which covers the low border cell of an axis but never the high one. */
    predicate HasFiringCell() {
      || 2 * deadZone <= AlongExtent()
      || (deadZone == 1 && AcrossExtent() >= 2 && (target.Right? || target.Bottom?))
    }

    /** A cell of the border on which the detector fires. */
    function FiringCell(): (c: (int, int))
      requires HasFiringCell()
      ensures InBounds(c.0, c.1) && Fires(c.0, c.1)
    {
      var along := if 2 * deadZone <= AlongExtent() && deadZone < AlongExtent() then deadZone else 0;
      if target.Left? || target.Right? then (Border(), along) else (along, Border())
    }

    /** A hit names the target edge, lies on its border cell, and needs a screen that has one. */
    lemma FiresOnlyOnBorder(x: int, y: int)
      requires InBounds(x, y) && Fires(x, y)
      ensures Check(x, y) == Triggered(target)
      ensures Across(x, y) == Border()
      ensures HasFiringCell()
    {
    }

    /** The exact firing set: the border cells at least the dead zone away from both corners. The
        one exception is a dead zone of one pixel, which covers no cell of a high border. */
    lemma FiresIff(x: int, y: int)
      requires InBounds(x, y)
      ensures Fires(x, y) <==>
                && Across(x, y) == Border()
                && (deadZone <= Along(x, y) <= AlongExtent() - deadZone || (deadZone == 1 && Border() > 0))
      ensures Check(x, y) == if Fires(x, y) then Triggered(target) else NoHit
    {
    }
  }
}
