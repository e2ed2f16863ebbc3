/** The session's cursor as two independent trackers, and how far two sessions can drift. */
module CursorDrift {
  import opened Proto
  import opened Peer
  import Tracker

  function Moves(events: seq<InputEvent>, horizontal: bool): seq<i32> {
    if events == [] then []
    else
      var rest := Moves(events[1..], horizontal);
      if !events[0].MouseMove? then rest
      else [AsI32(if horizontal then events[0].dx else events[0].dy)] + rest
  }

  /** A frame received in cooldown takes each axis through the clamped moves it contains. */
  lemma {:induction false} WalkIsTwoTrackers(p: Peer, events: seq<InputEvent>)
    requires p.Valid()
    ensures var q := Walk(p, events, true).peer;
            && q.x == Tracker.TrackAll(p.x, p.Screen().width, Moves(events, true))
            && q.y == Tracker.TrackAll(p.y, p.Screen().height, Moves(events, false))
    decreases events
  {
    hide AsI32, Tracker.Track;
    if events != [] {
      var m := if events[0].MouseMove? then p.Moved(events[0].dx, events[0].dy) else p;
      WalkIsTwoTrackers(m, events[1..]);
      if events[0].MouseMove? {
        assert Moves(events, true)[1..] == Moves(events[1..], true);
        assert Moves(events, false)[1..] == Moves(events[1..], false);
      }
    }
  }

  // ---------------------------------------------------------------- where a frame hits

  /** Where a list of events leaves the cursor if nothing stops it. */
  function CursorAfter(p: Peer, events: seq<InputEvent>): (int, int)
    requires p.Valid()
  {
    (Tracker.TrackAll(p.x, p.Screen().width, Moves(events, true)),
     Tracker.TrackAll(p.y, p.Screen().height, Moves(events, false)))
  }

  /** The k-th event is a move, and with it the cursor stands on a cell that fires. */
  predicate EdgeAfter(p: Peer, events: seq<InputEvent>, k: nat)
    requires p.Valid() && k < |events|
  {
    events[k].MouseMove? &&
    var c := CursorAfter(p, events[..k + 1]); p.detector.Fires(c.0, c.1)
  }

  lemma CursorAfterCons(p: Peer, events: seq<InputEvent>)
    requires p.Valid() && events != []
    ensures var m := if events[0].MouseMove? then p.Moved(events[0].dx, events[0].dy) else p;
            CursorAfter(p, events) == CursorAfter(m, events[1..])
  {
    hide AsI32, Tracker.Track;
    if events[0].MouseMove? {
      assert Moves(events, true)[1..] == Moves(events[1..], true);
      assert Moves(events, false)[1..] == Moves(events[1..], false);
    }
  }

  lemma EdgeAfterFirst(p: Peer, events: seq<InputEvent>)
    requires p.Valid() && events != [] && events[0].MouseMove?
    ensures EdgeAfter(p, events, 0) <==> p.Moved(events[0].dx, events[0].dy).AtEdge()
  {
    hide AsI32, Tracker.Track;
    CursorAfterCons(p, events[..1]);
    assert events[..1][0] == events[0] && events[..1][1..] == [];
  }

  lemma EdgeAfterCons(p: Peer, events: seq<InputEvent>, k: nat)
    requires p.Valid() && 0 < k < |events|
    ensures var m := if events[0].MouseMove? then p.Moved(events[0].dx, events[0].dy) else p;
            EdgeAfter(p, events, k) <==> EdgeAfter(m, events[1..], k - 1)
  {
    CursorAfterCons(p, events[..k + 1]);
    assert events[..k + 1][0] == events[0];
    assert events[..k + 1][1..] == events[1..][..k];
  }

  /** The walk of a frame stops at its first move onto a cell that fires, with the cursor there;
      in cooldown, or if there is none, it goes through all events. */
  lemma {:induction false} WalkStopsAtFirst(p: Peer, events: seq<InputEvent>, inCooldown: bool)
    requires p.Valid()
    ensures var w := Walk(p, events, inCooldown);
            && (w.hit <==> !inCooldown && exists k :: 0 <= k < |events| && EdgeAfter(p, events, k))
            && (w.hit ==> w.processed > 0 && EdgeAfter(p, events, w.processed - 1)
                          && forall k :: 0 <= k < w.processed - 1 ==> !EdgeAfter(p, events, k))
            && (!w.hit ==> w.processed == |events|)
            && (w.peer.x, w.peer.y) == CursorAfter(p, events[..w.processed])
    decreases events
  {
    hide EdgeAfter, CursorAfter, Peer.Moved, Peer.AtEdge;
    if events == [] {
      NoMoves(p);
    } else {
      var m := if events[0].MouseMove? then p.Moved(events[0].dx, events[0].dy) else p;
      var w := Walk(p, events, inCooldown);
      FirstEvent(p, events);
      forall k | 0 < k < |events|
        ensures EdgeAfter(p, events, k) <==> EdgeAfter(m, events[1..], k - 1)
      {
        EdgeAfterCons(p, events, k);
      }
      if events[0].MouseMove? && !inCooldown && m.AtEdge() {
        assert EdgeAfter(p, events, 0);
      } else {
        WalkStopsAtFirst(m, events[1..], inCooldown);
        assert events[..w.processed][0] == events[0] && events[..w.processed][1..] == events[1..][..w.processed - 1];
        CursorAfterCons(p, events[..w.processed]);
        if k :| 0 <= k < |events[1..]| && EdgeAfter(m, events[1..], k) {
          assert EdgeAfter(p, events, k + 1);
        }
      }
    }
  }

  lemma NoMoves(p: Peer)
    requires p.Valid()
    ensures CursorAfter(p, []) == (p.x, p.y)
  {
  }

  lemma FirstEvent(p: Peer, events: seq<InputEvent>)
    requires p.Valid() && events != []
    ensures events[0].MouseMove? ==>
              var m := p.Moved(events[0].dx, events[0].dy);
              && (EdgeAfter(p, events, 0) <==> m.AtEdge())
              && CursorAfter(p, events[..1]) == (m.x, m.y)
    ensures !events[0].MouseMove? ==> !EdgeAfter(p, events, 0)
  {
    if events[0].MouseMove? {
      EdgeAfterFirst(p, events);
      CursorAfterCons(p, events[..1]);
      NoMoves(p.Moved(events[0].dx, events[0].dy));
      assert events[..1][0] == events[0] && events[..1][1..] == [];
    }
  }

  // ---------------------------------------------------------------- drift

  /** Two cursors on one screen, taken through the same frame without a hit, end no further
      apart on either axis than they were and on the same sides of each other. */
  lemma CursorsNeverDriftApart(p: Peer, q: Peer, events: seq<InputEvent>)
    requires p.Valid() && q.Valid() && p.detector == q.detector && p.x <= q.x && p.y <= q.y
    requires Tracker.NoOverflow(p.Screen().width, Moves(events, true))
    requires Tracker.NoOverflow(p.Screen().height, Moves(events, false))
    ensures var p1, q1 := Walk(p, events, true).peer, Walk(q, events, true).peer;
            0 <= q1.x - p1.x <= q.x - p.x && 0 <= q1.y - p1.y <= q.y - p.y
  {
    WalkIsTwoTrackers(p, events);
    WalkIsTwoTrackers(q, events);
    Tracker.Contraction(p.x, q.x, p.Screen().width, Moves(events, true));
    Tracker.Contraction(p.y, q.y, p.Screen().height, Moves(events, false));
  }
}
