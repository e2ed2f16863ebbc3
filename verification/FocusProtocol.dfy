/** Two sessions joined by two ordered control streams and two lossy datagram paths. */
module FocusProtocol {
  import opened Proto
  import opened Peer

  /** `toB` and `toA` are the streams in delivery order. `framesToB` and `framesToA` hold every
      frame ever sent: a path may deliver any of them, in any order, any number of times. */
  datatype System = System(
    a: Peer, b: Peer,
    toA: seq<ControlCommand>, toB: seq<ControlCommand>,
    framesToA: set<EventFrame>, framesToB: set<EventFrame>)
  {
    function Mirrored(): System {
      System(b, a, toB, toA, framesToB, framesToA)
    }
  }

  /** One step of machine A. Machine B's steps are these in the mirror. */
  datatype Action =
    | Capture(head: InputEvent, drained: seq<InputEvent>, releases: seq<InputEvent>)
    | LoseCapture
    | ReceiveFrame(frame: EventFrame, now: int)
    | ReceiveControl(now: int)
    | Chatter(cmd: ControlCommand)  // a message outside the focus protocol

  datatype Move = Move(mirrored: bool, action: Action)

  ghost predicate Enabled(s: System, action: Action) {
    match action
    case Capture(head, drained, releases) => Legal(s.a, Input.Captured(head, drained, releases))
    case LoseCapture => Legal(s.a, CaptureClosed)
    case ReceiveFrame(frame, _) => frame in s.framesToA
    case ReceiveControl(_) => s.toA != []
    case Chatter(cmd) => !IsFocus(cmd) && !cmd.PeerDisconnecting?
  }

  function InputOf(s: System, action: Action): Input
    requires action.ReceiveControl? ==> s.toA != []
    requires !action.Chatter?
  {
    match action
    case Capture(head, drained, releases) => Input.Captured(head, drained, releases)
    case LoseCapture => CaptureClosed
    case ReceiveFrame(frame, now) => Datagram(frame, now)
    case ReceiveControl(now) => Control(s.toA[0], now)
  }

  function ActA(s: System, action: Action): System
    requires s.a.Valid() && (action.ReceiveControl? ==> s.toA != [])
  {
    if action.Chatter? then s.(toB := s.toB + [action.cmd])
    else
      var (a, o) := Step(s.a, InputOf(s, action));
      s.(a := a,
         toA := if action.ReceiveControl? then s.toA[1..] else s.toA,
         toB := s.toB + o.controls,
         framesToB := s.framesToB + set f | f in o.data + o.flush)
  }

  ghost predicate Allowed(s: System, m: Move) {
    if m.mirrored then Enabled(s.Mirrored(), m.action) else Enabled(s, m.action)
  }

  ghost function Do(s: System, m: Move): System
    requires s.a.Valid() && s.b.Valid() && Allowed(s, m)
  {
    if m.mirrored then ActA(s.Mirrored(), m.action).Mirrored() else ActA(s, m.action)
  }

  predicate NoDisconnect(cs: seq<ControlCommand>) {
    forall i :: 0 <= i < |cs| ==> !cs[i].PeerDisconnecting?
  }

  predicate FocusInFlight(cs: seq<ControlCommand>) {
    exists i :: 0 <= i < |cs| && IsFocus(cs[i])
  }

  ghost predicate Initial(s: System) {
    && s.a.Valid() && s.b.Valid() && Fresh(s.a) && Fresh(s.b)
    && s.toA == s.toB == [] && s.framesToA == s.framesToB == {}
  }

  ghost predicate Safe(s: System) {
    s.a.remote && s.b.remote ==> FocusInFlight(s.toA) || FocusInFlight(s.toB)
  }

  ghost predicate Inv(s: System) {
    && s.a.Valid() && s.b.Valid()
    && NoDisconnect(s.toA) && NoDisconnect(s.toB)
    && Safe(s)
  }

  /** What any step of one side does to its focus flag, as far as the streams can see. */
  lemma FocusOnlyThroughMessages(p: Peer, i: Input)
    requires p.Valid()
    ensures var (q, o) := Step(p, i);
            && (!p.remote && q.remote ==> o.controls == [SWITCH])
            && (i.Control? && IsFocus(i.cmd) ==> !q.remote)
            && NoDisconnect(o.controls)
  {
  }

  lemma ActKeepsInv(s: System, action: Action)
    requires Inv(s) && Enabled(s, action)
    ensures Inv(ActA(s, action))
  {
    var t := ActA(s, action);
    if !action.Chatter? {
      var i := InputOf(s, action);
      var (q, o) := Step(s.a, i);
      FocusOnlyThroughMessages(s.a, i);
      if t.a.remote && t.b.remote {
        if !s.a.remote {
          assert t.toB[|s.toB|] == SWITCH;
        } else if FocusInFlight(s.toB) {
          var k :| 0 <= k < |s.toB| && IsFocus(s.toB[k]);
          assert t.toB[k] == s.toB[k];
        } else {
          var k :| 0 <= k < |s.toA| && IsFocus(s.toA[k]);
          if action.ReceiveControl? {
            assert t.toA[k - 1] == s.toA[k];
          }
        }
      }
    } else if FocusInFlight(s.toB) {
      var k :| 0 <= k < |s.toB| && IsFocus(s.toB[k]);
      assert t.toB[k] == s.toB[k];
    }
  }

  ghost predicate Reaches(s: System, moves: seq<Move>, t: System)
    decreases moves
  {
    if moves == [] then s == t
    else
      && s.a.Valid() && s.b.Valid() && Allowed(s, moves[0])
      && Reaches(Do(s, moves[0]), moves[1..], t)
  }

  lemma {:induction false} RunKeepsInv(s: System, moves: seq<Move>, t: System)
    requires Inv(s) && Reaches(s, moves, t)
    ensures Inv(t)
    decreases moves
  {
    if moves != [] {
      if moves[0].mirrored {
        ActKeepsInv(s.Mirrored(), moves[0].action);
      } else {
        ActKeepsInv(s, moves[0].action);
      }
      RunKeepsInv(Do(s, moves[0]), moves[1..], t);
    }
  }

  /** Both machines forward to each other only while a focus message is still in flight. */
  lemma FocusSafety(s: System, moves: seq<Move>, t: System)
    requires Initial(s) && Reaches(s, moves, t)
    ensures t.a.remote && t.b.remote ==> FocusInFlight(t.toA) || FocusInFlight(t.toB)
  {
    RunKeepsInv(s, moves, t);
  }

  // ---------------------------------------------------------------- draining

  /** A Ping costs two deliveries, its own and its Pong's. */
  function Work(cs: seq<ControlCommand>): nat {
    if cs == [] then 0 else (if cs[0].Ping? then 2 else 1) + Work(cs[1..])
  }

  lemma {:induction false} WorkAppend(xs: seq<ControlCommand>, ys: seq<ControlCommand>)
    ensures Work(xs + ys) == Work(xs) + Work(ys)
  {
    if xs == [] {
      assert xs + ys == ys;
    } else {
      assert (xs + ys)[1..] == xs[1..] + ys;
      WorkAppend(xs[1..], ys);
    }
  }

  function Pending(s: System): nat {
    Work(s.toA) + Work(s.toB)
  }

  ghost predicate DeliveriesOnly(moves: seq<Move>) {
    forall i :: 0 <= i < |moves| ==> moves[i].action.ReceiveControl?
  }

  lemma DeliveryCostsOne(s: System, now: int)
    requires Inv(s) && s.toA != []
    ensures Pending(ActA(s, ReceiveControl(now))) == Pending(s) - 1
  {
    var (q, o) := Step(s.a, Control(s.toA[0], now));
    WorkAppend(s.toB, o.controls);
    assert Work(o.controls) == if s.toA[0].Ping? then 1 else 0;
  }

  /** Delivery alone always terminates: a run of deliveries is as long as the work it does,
      whatever the schedule. */
  lemma {:induction false} DrainLength(s: System, moves: seq<Move>, t: System)
    requires Inv(s) && Reaches(s, moves, t) && DeliveriesOnly(moves)
    ensures Inv(t) && |moves| + Pending(t) == Pending(s)
    decreases moves
  {
    if moves != [] {
      var m := moves[0];
      if m.mirrored {
        ActKeepsInv(s.Mirrored(), m.action);
        DeliveryCostsOne(s.Mirrored(), m.action.now);
      } else {
        ActKeepsInv(s, m.action);
        DeliveryCostsOne(s, m.action.now);
      }
      DrainLength(Do(s, m), moves[1..], t);
    }
  }

  /** No delivery is left to make. */
  ghost predicate Drained(s: System) {
    forall m: Move :: m.action.ReceiveControl? ==> !Allowed(s, m)
  }

  /** From any reachable state, a schedule of deliveries that cannot be extended has emptied
      both streams, and leaves at least one machine local. */
  lemma DrainedLeavesOneLocal(s0: System, history: seq<Move>, s: System, deliveries: seq<Move>, t: System)
    requires Initial(s0) && Reaches(s0, history, s)
    requires Reaches(s, deliveries, t) && DeliveriesOnly(deliveries) && Drained(t)
    ensures t.toA == t.toB == [] && |deliveries| == Pending(s)
    ensures t.a.Valid() && t.b.Valid() && !(t.a.remote && t.b.remote)
  {
    hide Reaches;
    RunKeepsInv(s0, history, s);
    DrainLength(s, deliveries, t);
    assert !Allowed(t, Move(false, ReceiveControl(0)));
    assert !Allowed(t, Move(true, ReceiveControl(0)));
  }

  /** The machine acts on a frame: it replays it, if it can, or takes the focus back. */
  predicate Serves(p: Peer, frame: EventFrame, now: int)
    requires p.Valid()
  {
    var o := Step(p, Datagram(frame, now)).1;
    o.controls == [SWITCH] || (p.hasEmulator ==> o.emulated == frame.events)
  }

  /** So on drained streams a machine that still forwards has a partner that acts on every
      frame it sends. */
  lemma ForwarderIsServed(s0: System, history: seq<Move>, s: System, deliveries: seq<Move>, t: System,
                          frame: EventFrame, now: int)
    requires Initial(s0) && Reaches(s0, history, s)
    requires Reaches(s, deliveries, t) && DeliveriesOnly(deliveries) && Drained(t)
    ensures t.a.Valid() && t.b.Valid()
    ensures t.a.remote ==> Serves(t.b, frame, now)
    ensures t.b.remote ==> Serves(t.a, frame, now)
  {
    hide Drained;
    DrainedLeavesOneLocal(s0, history, s, deliveries, t);
    if t.a.remote {
      LocalServes(t.b, frame, now);
    }
    if t.b.remote {
      LocalServes(t.a, frame, now);
    }
  }

  lemma LocalServes(p: Peer, frame: EventFrame, now: int)
    requires p.Valid() && !p.remote
    ensures Serves(p, frame, now)
  {
  }

  // ---------------------------------------------------------------- where the focus ends up

  /** Where deliveries alone will leave a machine. */
  ghost predicate Forwards(p: Peer, incoming: seq<ControlCommand>) {
    p.remote && !FocusInFlight(incoming)
  }

  lemma FocusInFlightSplits(xs: seq<ControlCommand>, ys: seq<ControlCommand>)
    ensures FocusInFlight(xs + ys) <==> FocusInFlight(xs) || FocusInFlight(ys)
  {
    if FocusInFlight(xs) {
      var k :| 0 <= k < |xs| && IsFocus(xs[k]);
      assert (xs + ys)[k] == xs[k];
    }
    if FocusInFlight(ys) {
      var k :| 0 <= k < |ys| && IsFocus(ys[k]);
      assert (xs + ys)[|xs| + k] == ys[k];
    }
  }

  lemma DeliveryKeepsOutcome(s: System, now: int)
    requires Inv(s) && s.toA != []
    ensures var t := ActA(s, ReceiveControl(now));
            && (Forwards(t.a, t.toA) <==> Forwards(s.a, s.toA))
            && (Forwards(t.b, t.toB) <==> Forwards(s.b, s.toB))
  {
    var o := Step(s.a, Control(s.toA[0], now)).1;
    assert s.toA == [s.toA[0]] + s.toA[1..];
    FocusInFlightSplits([s.toA[0]], s.toA[1..]);
    FocusInFlightSplits(s.toB, o.controls);
  }

  /** Deliveries alone leave a machine forwarding exactly if it was forwarding before and no
      focus message was on its way to it, whatever the schedule. */
  lemma {:induction false} DrainOutcome(s: System, deliveries: seq<Move>, t: System)
    requires Inv(s) && Reaches(s, deliveries, t) && DeliveriesOnly(deliveries)
    requires t.toA == t.toB == []
    ensures t.a.remote <==> Forwards(s.a, s.toA)
    ensures t.b.remote <==> Forwards(s.b, s.toB)
    decreases deliveries
  {
    if deliveries != [] {
      var m := deliveries[0];
      if m.mirrored {
        ActKeepsInv(s.Mirrored(), m.action);
        DeliveryKeepsOutcome(s.Mirrored(), m.action.now);
      } else {
        ActKeepsInv(s, m.action);
        DeliveryKeepsOutcome(s, m.action.now);
      }
      DrainOutcome(Do(s, m), deliveries[1..], t);
    }
  }

  /** The emergency chord at one machine frees both, once the streams have drained. */
  lemma EmergencyFreesBoth(s: System, act: Action, deliveries: seq<Move>, t: System)
    requires Inv(s) && act.Capture? && Enabled(s, act) && Emergency(s.a, act.head)
    requires Reaches(ActA(s, act), deliveries, t) && DeliveriesOnly(deliveries) && t.toA == t.toB == []
    ensures !t.a.remote && !t.b.remote
  {
    var u := ActA(s, act);
    ActKeepsInv(s, act);
    FocusInFlightSplits(s.toB, [ReleaseFocus]);
    assert IsFocus([ReleaseFocus][0]);
    DrainOutcome(u, deliveries, t);
  }

  /** After an edge hit the hand-over completes, with this machine forwarding and the other
      local, exactly when no focus message was coming the other way. */
  lemma HandoverCompletesIff(s: System, act: Action, deliveries: seq<Move>, t: System)
    requires Inv(s) && Enabled(s, act) && !s.a.remote && ActA(s, act).a.remote
    requires Reaches(ActA(s, act), deliveries, t) && DeliveriesOnly(deliveries) && t.toA == t.toB == []
    ensures !t.b.remote
    ensures t.a.remote <==> !FocusInFlight(s.toA)
  {
    var u := ActA(s, act);
    ActKeepsInv(s, act);
    FocusOnlyThroughMessages(s.a, InputOf(s, act));
    assert u.toB == s.toB + [SWITCH];
    FocusInFlightSplits(s.toB, [SWITCH]);
    assert IsFocus([SWITCH][0]);
    DrainOutcome(u, deliveries, t);
  }
}
