/** How often the focus can change hands: the motion one switch costs, and the time. */
module Switching {
  import opened Proto
  import opened EdgeDetection
  import opened Peer
  import opened EdgeReach
  import Tracker

  // ---------------------------------------------------------------- motion paid per switch

  /** Motion of one event across the target edge, as the tracker rounds it. */
  function AxisMotion(d: EdgeDetector, e: InputEvent): nat {
    if !e.MouseMove? then 0
    else Abs(AsI32(if d.target.Left? || d.target.Right? then e.dx else e.dy))
  }

  function Motion(d: EdgeDetector, events: seq<InputEvent>, n: nat): nat
    requires n <= |events|
  {
    if n == 0 then 0 else AxisMotion(d, events[0]) + Motion(d, events[1..], n - 1)
  }

  /** The motion a step processes while local: a hit ends the frame it happens in. */
  function LocalMotion(p: Peer, i: Input): nat
    requires p.Valid()
  {
    if p.remote then 0
    else match i
      case Captured(head, _, _) => AxisMotion(p.detector, head)
      case Datagram(frame, now) =>
        Motion(p.detector, frame.events, Walk(p, frame.events, InCooldown(p, now)).processed)
      case _ => 0
  }

  function TotalMotion(p: Peer, inputs: seq<Input>): nat
    requires p.Valid()
    decreases inputs
  {
    if inputs == [] then 0 else LocalMotion(p, inputs[0]) + TotalMotion(Next(p, inputs[0]), inputs[1..])
  }

  /** Edge hits, on local or received motion. */
  function Hits(p: Peer, inputs: seq<Input>): nat
    requires p.Valid()
    decreases inputs
  {
    if inputs == [] then 0
    else
      var q := Next(p, inputs[0]);
      (if !p.remote && q.remote then 1 else 0) + Hits(q, inputs[1..])
  }

  function HalfSpan(d: EdgeDetector): nat {
    Abs(d.Border() - d.Centre())
  }

  function Offset(p: Peer): nat {
    Abs(p.detector.Across(p.x, p.y) - p.detector.Centre())
  }

  lemma MoveBound(p: Peer, e: InputEvent)
    requires p.Valid() && e.MouseMove?
    ensures Offset(p.Moved(e.dx, e.dy)) <= Offset(p) + AxisMotion(p.detector, e)
  {
    Tracker.StepBound(p.x, p.Screen().width, AsI32(e.dx));
    Tracker.StepBound(p.y, p.Screen().height, AsI32(e.dy));
  }

  lemma {:induction false} WalkBound(p: Peer, events: seq<InputEvent>, inCooldown: bool)
    requires p.Valid()
    ensures var w := Walk(p, events, inCooldown);
            Offset(w.peer) <= Offset(p) + Motion(p.detector, events, w.processed)
    decreases events
  {
    if events != [] {
      var m := if events[0].MouseMove? then p.Moved(events[0].dx, events[0].dy) else p;
      if events[0].MouseMove? {
        MoveBound(p, events[0]);
      }
      if events[0].MouseMove? && !inCooldown && m.AtEdge() {
        assert Motion(p.detector, events, 1) == AxisMotion(p.detector, events[0]);
      } else {
        WalkBound(m, events[1..], inCooldown);
      }
    }
  }

  ghost predicate RemoteIsCentred(p: Peer) {
    p.remote ==> p.AtCentre()
  }

  /** The cursor moved to `m` by `paid` and, if that fires, the focus is taken there. */
  lemma HitPays(p: Peer, m: Peer, paid: nat)
    requires p.Valid() && m.Valid() && m.detector == p.detector && Offset(m) <= Offset(p) + paid
    requires m.AtEdge()
    ensures Offset(m.Centred()) == 0 && paid + Offset(p) >= HalfSpan(p.detector)
  {
    m.detector.FiresOnlyOnBorder(m.x, m.y);
  }

  /** The step keeps a forwarding cursor centred and pays for the hit it may be. */
  ghost predicate Pays(p: Peer, i: Input)
    requires p.Valid()
  {
    var q := Next(p, i);
    && RemoteIsCentred(q)
    && LocalMotion(p, i) + Offset(p) >= (if !p.remote && q.remote then HalfSpan(p.detector) else 0) + Offset(q)
  }

  lemma CapturePays(p: Peer, i: Input)
    requires p.Valid() && RemoteIsCentred(p) && i.Captured?
    ensures Pays(p, i)
  {
    hide Tracker.Track, AsI32, EdgeDetector.Check, Walk;
    if !p.remote && i.head.MouseMove? {
      var m := p.Tracked(i.head).Moved(i.head.dx, i.head.dy);
      MoveBound(p, i.head);
      if m.AtEdge() {
        HitPays(p, m, AxisMotion(p.detector, i.head));
      }
    }
  }

  lemma DatagramPays(p: Peer, i: Input)
    requires p.Valid() && RemoteIsCentred(p) && i.Datagram?
    ensures Pays(p, i)
  {
    hide Tracker.Track, AsI32, EdgeDetector.Check, Walk;
    if !p.remote {
      var w := Walk(p, i.frame.events, InCooldown(p, i.now));
      WalkBound(p, i.frame.events, InCooldown(p, i.now));
      if w.hit {
        HitPays(p, w.peer, Motion(p.detector, i.frame.events, w.processed));
      }
    }
  }

  lemma StepPays(p: Peer, i: Input)
    requires p.Valid() && RemoteIsCentred(p)
    ensures Pays(p, i)
  {
    match i
    case Captured(_, _, _) => CapturePays(p, i);
    case Datagram(_, _) => DatagramPays(p, i);
    case _ =>
  }

  lemma OneMoreSpan(k: nat, span: nat)
    ensures (0 + k) * span == k * span && (1 + k) * span == span + k * span
  {
  }

  /** Along any run of either loop, a remote session keeps its cursor at the centre, and every
      edge hit has been paid for by a centre-to-edge span of motion processed while local. */
  lemma {:induction false} SwitchingIsPaid(p: Peer, inputs: seq<Input>)
    requires p.Valid() && RemoteIsCentred(p)
    ensures RemoteIsCentred(Run(p, inputs))
    ensures TotalMotion(p, inputs) + Offset(p)
         >= Hits(p, inputs) * HalfSpan(p.detector) + Offset(Run(p, inputs))
    decreases inputs
  {
    if inputs != [] {
      var q := Next(p, inputs[0]);
      StepPays(p, inputs[0]);
      SwitchingIsPaid(q, inputs[1..]);
      OneMoreSpan(Hits(q, inputs[1..]), HalfSpan(p.detector));
    }
  }

  /** From a fresh session: k hits cost at least k centre-to-edge spans. */
  lemma FreshSwitchingIsPaid(p: Peer, inputs: seq<Input>)
    requires p.Valid() && Fresh(p)
    ensures Run(p, inputs).remote ==> Run(p, inputs).AtCentre()
    ensures TotalMotion(p, inputs) >= Hits(p, inputs) * HalfSpan(p.detector)
  {
    SwitchingIsPaid(p, inputs);
  }

  // ---------------------------------------------------------------- time between returns

  predicate Timed(i: Input) {
    i.Datagram? || i.Control?
  }

  predicate MonotoneClock(inputs: seq<Input>) {
    forall i, j :: 0 <= i < j < |inputs| && Timed(inputs[i]) && Timed(inputs[j]) ==>
      inputs[i].now <= inputs[j].now
  }

  /** Motion the peer forwarded to us hit the edge and handed the focus back. */
  predicate Returns(p: Peer, i: Input)
    requires p.Valid()
  {
    i.Datagram? && !p.remote && Next(p, i).remote
  }

  predicate NoEmergency(p: Peer, inputs: seq<Input>)
    requires p.Valid()
    decreases inputs
  {
    inputs != [] ==>
      && (inputs[0].Captured? ==> !Emergency(p, inputs[0].head))
      && NoEmergency(Next(p, inputs[0]), inputs[1..])
  }

  /** Some message gave the focus back meanwhile. */
  predicate FocusGiven(inputs: seq<Input>) {
    exists k :: 0 <= k < |inputs| && GivesFocus(inputs[k])
  }

  lemma FocusGivenCons(inputs: seq<Input>)
    requires inputs != []
    ensures FocusGiven(inputs) <==> GivesFocus(inputs[0]) || FocusGiven(inputs[1..])
  {
    if FocusGiven(inputs[1..]) {
      var k :| 0 <= k < |inputs[1..]| && GivesFocus(inputs[1..][k]);
      assert GivesFocus(inputs[k + 1]);
    }
    if FocusGiven(inputs) && !GivesFocus(inputs[0]) {
      var k :| 0 <= k < |inputs| && GivesFocus(inputs[k]);
      assert GivesFocus(inputs[1..][k - 1]);
    }
  }

  lemma StepStamps(p: Peer, i: Input)
    requires p.Valid() && !Next(p, i).receiveOnly
    ensures !p.receiveOnly
    ensures Next(p, i).lastSwitch == if GivesFocus(i) then i.now else p.lastSwitch
    ensures p.remote && !GivesFocus(i) && (i.Captured? ==> !Emergency(p, i.head)) ==> Next(p, i).remote
  {
  }

  lemma {:induction false} LoopNeverComesBack(p: Peer, inputs: seq<Input>)
    requires p.Valid() && !Run(p, inputs).receiveOnly
    ensures !p.receiveOnly
    decreases inputs
  {
    if inputs != [] {
      LoopNeverComesBack(Next(p, inputs[0]), inputs[1..]);
      StepStamps(p, inputs[0]);
    }
  }

  /** The stamp tells whether a focus message was processed since `t`, and the focus cannot
      leave a remote session without one, but for the emergency. */
  lemma {:induction false} StampFollows(p: Peer, inputs: seq<Input>, t: int)
    requires p.Valid() && !Run(p, inputs).receiveOnly
    requires forall k :: 0 <= k < |inputs| && inputs[k].Control? ==> inputs[k].now >= t
    ensures !FocusGiven(inputs) ==> Run(p, inputs).lastSwitch == p.lastSwitch
    ensures FocusGiven(inputs) || p.lastSwitch >= t ==> Run(p, inputs).lastSwitch >= t
    ensures p.remote && NoEmergency(p, inputs) && !FocusGiven(inputs) ==> Run(p, inputs).remote
    decreases inputs
  {
    hide Step, Emergency;
    if inputs != [] {
      LoopNeverComesBack(Next(p, inputs[0]), inputs[1..]);
      StepStamps(p, inputs[0]);
      FocusGivenCons(inputs);
      StampFollows(Next(p, inputs[0]), inputs[1..], t);
    }
  }

  lemma ReturnMeansHit(p: Peer, frame: EventFrame, now: int)
    requires p.Valid()
    ensures Returns(p, Datagram(frame, now)) <==> !p.remote && Walk(p, frame.events, InCooldown(p, now)).hit
    ensures Returns(p, Datagram(frame, now)) ==>
              !InCooldown(p, now) && p.detector.HasFiringCell()
              && Next(p, Datagram(frame, now)).lastSwitch == p.lastSwitch
  {
    hide EdgeDetector.Check;
    var w := Walk(p, frame.events, InCooldown(p, now));
    if w.hit {
      w.peer.detector.FiresOnlyOnBorder(w.peer.x, w.peer.y);
    }
  }

  lemma CanReturnIff(p: Peer, now: int)
    requires p.Valid() && !p.remote && p.detector.HasFiringCell()
    ensures (exists f :: Returns(p, Datagram(f, now))) <==> !InCooldown(p, now)
  {
    if InCooldown(p, now) {
      forall f
        ensures !Returns(p, Datagram(f, now))
      {
        ReturnMeansHit(p, f, now);
      }
    } else {
      PushHits(p, PushFrame(p));
      ReturnMeansHit(p, PushFrame(p), now);
    }
  }

  /** In the main loop, within the cooldown after a return, a session that is local again can
      return the focus a second time if and only if no focus message brought it back. */
  lemma SecondReturnIff(p: Peer, first: Input, between: seq<Input>, now: int)
    requires p.Valid() && Returns(p, first) && MonotoneClock([first] + between)
    requires first.now <= now < first.now + EDGE_COOLDOWN
    requires var s := Run(Next(p, first), between); !s.receiveOnly && !s.remote
    ensures var s := Run(Next(p, first), between);
            (exists f :: Returns(s, Datagram(f, now))) <==> !FocusGiven(between)
  {
    hide Next, Walk, EdgeDetector.HasFiringCell;
    AfterFirst(first, between);
    StampFollows(Next(p, first), between, first.now);
    ReturnMeansHit(p, first.frame, first.now);
    CanReturnIff(Run(Next(p, first), between), now);
  }

  lemma AfterFirst(first: Input, between: seq<Input>)
    requires Timed(first) && MonotoneClock([first] + between)
    ensures forall k :: 0 <= k < |between| && Timed(between[k]) ==> between[k].now >= first.now
  {
    var all := [first] + between;
    forall k | 0 <= k < |between| && Timed(between[k])
      ensures between[k].now >= first.now
    {
      assert all[0] == first && all[k + 1] == between[k];
    }
  }

  /** Hence two returns with no emergency release between them are at least the cooldown apart,
      whatever else happens meanwhile. */
  lemma ReturnsAreSeparated(p: Peer, first: Input, between: seq<Input>, second: Input)
    requires p.Valid() && Returns(p, first)
    requires NoEmergency(Next(p, first), between)
    requires var s := Run(Next(p, first), between); !s.receiveOnly && Returns(s, second)
    requires MonotoneClock([first] + between + [second])
    ensures second.now - first.now >= EDGE_COOLDOWN
  {
    hide Next, Walk;
    assert second == Datagram(second.frame, second.now);
    var all := [first] + between + [second];
    assert all == [first] + (between + [second]) && all[..|between| + 1] == [first] + between;
    AfterFirst(first, between + [second]);
    assert (between + [second])[|between|] == second;
    forall k | 0 <= k < |between| && between[k].Control?
      ensures between[k].now >= first.now
    {
      assert (between + [second])[k] == between[k];
    }
    StampFollows(Next(p, first), between, first.now);
    if second.now < first.now + EDGE_COOLDOWN {
      SecondReturnIff(p, first, between, second.now);
    }
  }

  // The emergency release stamps nothing, so it voids the separation.

  function PushRight(): Input {
    Datagram(EventFrame(0, [MouseMove(1000.0, 0.0)]), EDGE_COOLDOWN)
  }

  function EscapeDuring(held: seq<InputEvent>): Input {
    Input.Captured(Key(EMERGENCY_HOTKEY_ESC, KeyState.Pressed), [], held)
  }

  lemma PushRightReturns(p: Peer)
    requires p.detector == EdgeDetector(ScreenInfo(200, 200), Edge.Right, DEAD_ZONE_PX)
    requires p.AtCentre() && !p.remote && !p.receiveOnly && p.lastSwitch == 0
    ensures p.Valid() && Returns(p, PushRight())
    ensures Next(p, PushRight()) == p.(remote := true, grab := true)
  {
    AsI32Exact(1000);
    AsI32Exact(0);
    var m := p.Moved(1000.0, 0.0);
    assert m.x == 199 && m.y == 100 && m.AtEdge();
    assert Walk(p, PushRight().frame.events, false) == Walked(m, true, 1);
  }

  /** Two returns in the same millisecond, with only an emergency release between them: Ctrl and
      Alt were already held on this machine, and Escape completes the chord. */
  lemma EmergencyVoidsCooldown(p: Peer)
    requires p.detector == EdgeDetector(ScreenInfo(200, 200), Edge.Right, DEAD_ZONE_PX)
    requires p.AtCentre() && !p.remote && !p.receiveOnly && p.lastSwitch == 0
    requires p.held == Held({EMERGENCY_HOTKEY_CTRL, EMERGENCY_HOTKEY_ALT}, {})
    ensures p.Valid() && Returns(p, PushRight())
    ensures var releases := [Key(29, KeyState.Released), Key(56, KeyState.Released), Key(1, KeyState.Released)];
            var q := Next(p, PushRight());
            Legal(q, EscapeDuring(releases)) && Returns(Next(q, EscapeDuring(releases)), PushRight())
  {
    PushRightReturns(p);
    var releases := [Key(29, KeyState.Released), Key(56, KeyState.Released), Key(1, KeyState.Released)];
    var q := p.(remote := true, grab := true);
    var chord := Held({29, 56, 1}, {});
    assert Apply(q.held, EscapeDuring(releases).head) == chord;
    assert IsFlush(releases, chord) by {
      assert releases[0] == Key(29, KeyState.Released);
      assert releases[1] == Key(56, KeyState.Released);
      assert releases[2] == Key(1, KeyState.Released);
    }
    PushRightReturns(Next(q, EscapeDuring(releases)));
  }
}
