/** Which screens let the focus leave at all. */
module EdgeReach {
  import opened Proto
  import opened EdgeDetection
  import opened Peer
  import Tracker

  lemma StuckStep(p: Peer, i: Input)
    requires p.Valid() && !p.remote && !p.detector.HasFiringCell()
    ensures !Next(p, i).remote
  {
    hide Tracker.Track, AsI32, EdgeDetector.Check;
    match i
    case Captured(head, _, _) =>
      if head.MouseMove? {
        NeverAtEdge(p.Tracked(head).Moved(head.dx, head.dy));
      }
    case Datagram(frame, now) =>
      NeverAtEdge(Walk(p, frame.events, InCooldown(p, now)).peer);
    case _ =>
  }

  lemma NeverAtEdge(p: Peer)
    requires p.Valid() && !p.detector.HasFiringCell()
    ensures !p.AtEdge()
  {
    if p.AtEdge() {
      p.detector.FiresOnlyOnBorder(p.x, p.y);
    }
  }

  lemma {:induction false} StuckRun(p: Peer, inputs: seq<Input>)
    requires p.Valid() && !p.remote && !p.detector.HasFiringCell()
    ensures !Run(p, inputs).remote
    decreases inputs
  {
    if inputs != [] {
      StuckStep(p, inputs[0]);
      StuckRun(Next(p, inputs[0]), inputs[1..]);
    }
  }

  /** The single captured move that carries the cursor to a given cell. */
  function MoveTo(p: Peer, cell: (int, int)): Input {
    Input.Captured(MouseMove((cell.0 - p.x) as real, (cell.1 - p.y) as real), [], [])
  }

  lemma OneMoveReaches(p: Peer)
    requires p.Valid() && !p.remote && !p.receiveOnly && p.detector.HasFiringCell()
    ensures Legal(p, MoveTo(p, p.detector.FiringCell())) && Next(p, MoveTo(p, p.detector.FiringCell())).remote
  {
    var cell := p.detector.FiringCell();
    AsI32Exact(cell.0 - p.x);
    AsI32Exact(cell.1 - p.y);
    var head := MoveTo(p, cell).head;
    var m := p.Tracked(head).Moved(head.dx, head.dy);
    assert m.x == cell.0 && m.y == cell.1;
  }

  /** A frame whose one move carries the receiver's cursor to a firing cell. */
  function PushFrame(p: Peer): EventFrame
    requires p.Valid() && p.detector.HasFiringCell()
  {
    EventFrame(0, [MoveTo(p, p.detector.FiringCell()).head])
  }

  lemma PushHits(p: Peer, frame: EventFrame)
    requires p.Valid() && p.detector.HasFiringCell() && frame.events == PushFrame(p).events
    ensures Walk(p, frame.events, false).hit
  {
    var cell := p.detector.FiringCell();
    AsI32Exact(cell.0 - p.x);
    AsI32Exact(cell.1 - p.y);
    var head := frame.events[0];
    var m := p.Moved(head.dx, head.dy);
    assert m.x == cell.0 && m.y == cell.1;
  }

  /** A legal run at the end of which the other machine has the focus. */
  ghost predicate Leaves(p: Peer, inputs: seq<Input>)
    requires p.Valid()
  {
    LegalRun(p, inputs) && Run(p, inputs).remote
  }

  /** From any cursor position of a local session, some legal run hands the focus over exactly
      when the screen has a firing cell: its extent along the edge is at least twice the dead
      zone, or the dead zone is a single pixel that leaves the high border uncovered. */
  lemma FocusCanLeaveIff(p: Peer)
    requires p.Valid() && !p.remote && !p.receiveOnly
    ensures (exists inputs :: Leaves(p, inputs)) <==> p.detector.HasFiringCell()
  {
    if p.detector.HasFiringCell() {
      OneMoveReaches(p);
      var i := MoveTo(p, p.detector.FiringCell());
      var inputs := [i];
      assert inputs[0] == i && inputs[1..] == [];
      assert Run(p, inputs) == Next(p, i);
      assert Leaves(p, inputs);
    } else {
      forall inputs | LegalRun(p, inputs)
        ensures !Leaves(p, inputs)
      {
        StuckRun(p, inputs);
      }
    }
  }

  /** With the dead zone the daemon uses, that means 100 pixels along the edge. */
  lemma DefaultDeadZone(p: Peer)
    requires p.Valid() && !p.remote && !p.receiveOnly && p.detector.deadZone == DEAD_ZONE_PX
    ensures (exists inputs :: Leaves(p, inputs)) <==> p.detector.AlongExtent() >= 100
  {
    FocusCanLeaveIff(p);
  }
}
