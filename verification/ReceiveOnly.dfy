/** The receive-only loop repeats the main loop's transitions, but never stamps a switch. */
module ReceiveOnly {
  import opened Proto
  import opened Peer
  import opened EdgeReach

  /** A main-loop session and a receive-only one that look alike but for their stamps. */
  ghost predicate Alike(m: Peer, r: Peer) {
    && m.Valid() && r.Valid() && !m.receiveOnly && r.receiveOnly
    && m.detector == r.detector && m.hasEmulator == r.hasEmulator
    && m.remote == r.remote && m.x == r.x && m.y == r.y
  }

  /** What the peer and the user can see of a step. */
  function Visible(o: Output): (seq<ControlCommand>, seq<InputEvent>) {
    (o.controls, o.emulated)
  }

  predicate NoCapture(inputs: seq<Input>) {
    forall i :: 0 <= i < |inputs| ==> inputs[i].Datagram? || inputs[i].Control?
  }

  ghost predicate OutputsAgree(m: Peer, r: Peer, inputs: seq<Input>)
    requires m.Valid() && r.Valid()
    decreases inputs
  {
    inputs != [] ==>
      && Visible(Step(m, inputs[0]).1) == Visible(Step(r, inputs[0]).1)
      && OutputsAgree(Next(m, inputs[0]), Next(r, inputs[0]), inputs[1..])
  }

  /** A frame that reaches the edge while just one of the two is still cooling down. */
  predicate Diverges(m: Peer, r: Peer, i: Input)
    requires m.Valid()
  {
    && i.Datagram? && !m.remote
    && InCooldown(m, i.now) != InCooldown(r, i.now)
    && Walk(m, i.frame.events, false).hit
  }

  ghost predicate NeverDiverges(m: Peer, r: Peer, inputs: seq<Input>)
    requires m.Valid() && r.Valid()
    decreases inputs
  {
    inputs != [] ==>
      && !Diverges(m, r, inputs[0])
      && NeverDiverges(Next(m, inputs[0]), Next(r, inputs[0]), inputs[1..])
  }

  /** A walk that reaches no edge ends in the same place with or without the cooldown. */
  lemma {:induction false} CooldownOnlyHidesHits(p: Peer, events: seq<InputEvent>)
    requires p.Valid() && !Walk(p, events, false).hit
    ensures Walk(p, events, true) == Walk(p, events, false)
    decreases events
  {
    if events != [] {
      var m := if events[0].MouseMove? then p.Moved(events[0].dx, events[0].dy) else p;
      CooldownOnlyHidesHits(m, events[1..]);
    }
  }

  lemma StepAgreesIff(m: Peer, r: Peer, i: Input)
    requires Alike(m, r) && (i.Datagram? || i.Control?)
    ensures Visible(Step(m, i).1) == Visible(Step(r, i).1) <==> !Diverges(m, r, i)
    ensures !Diverges(m, r, i) ==> Alike(Next(m, i), Next(r, i))
  {
    if i.Datagram? && !m.remote {
      var events := i.frame.events;
      WalkCongruent(m, r, events, false);
      WalkCongruent(m, r, events, true);
      if !Walk(m, events, false).hit {
        CooldownOnlyHidesHits(m, events);
        CooldownOnlyHidesHits(r, events);
      }
    }
  }

  /** From like states, on any sequence of frames and control messages, the two loops send and
      replay exactly the same if and only if no frame reaches the edge while one of them is in
      its cooldown and the other is not; and then they end alike. */
  lemma {:induction false} LoopsAgreeIff(m: Peer, r: Peer, inputs: seq<Input>)
    requires Alike(m, r) && NoCapture(inputs)
    ensures OutputsAgree(m, r, inputs) <==> NeverDiverges(m, r, inputs)
    ensures NeverDiverges(m, r, inputs) ==> Alike(Run(m, inputs), Run(r, inputs))
    decreases inputs
  {
    hide Step;
    if inputs != [] {
      StepAgreesIff(m, r, inputs[0]);
      if !Diverges(m, r, inputs[0]) {
        LoopsAgreeIff(Next(m, inputs[0]), Next(r, inputs[0]), inputs[1..]);
      }
    }
  }

  /** No frame finds the main loop local and cooling down. */
  ghost predicate NeverCooling(m: Peer, inputs: seq<Input>)
    requires m.Valid()
    decreases inputs
  {
    inputs != [] ==>
      && (inputs[0].Datagram? && !m.remote ==> !InCooldown(m, inputs[0].now))
      && NeverCooling(Next(m, inputs[0]), inputs[1..])
  }

  lemma StampsStayOrdered(m: Peer, r: Peer, i: Input)
    requires Alike(m, r) && r.lastSwitch <= m.lastSwitch
    requires i.Datagram? || (i.Control? && i.now >= r.lastSwitch)
    ensures Next(r, i).lastSwitch == r.lastSwitch <= Next(m, i).lastSwitch
  {
  }

  lemma {:induction false} OutsideCooldownNothingDiverges(m: Peer, r: Peer, inputs: seq<Input>)
    requires Alike(m, r) && NoCapture(inputs) && r.lastSwitch <= m.lastSwitch
    requires forall i :: 0 <= i < |inputs| ==> inputs[i].now >= r.lastSwitch
    requires NeverCooling(m, inputs)
    ensures NeverDiverges(m, r, inputs)
    decreases inputs
  {
    hide Step;
    if inputs != [] {
      StampsStayOrdered(m, r, inputs[0]);
      StepAgreesIff(m, r, inputs[0]);
      OutsideCooldownNothingDiverges(Next(m, inputs[0]), Next(r, inputs[0]), inputs[1..]);
    }
  }

  /** From equal state and stamp, and with no frame inside the main loop's cooldown, the
      receive-only loop simulates the main loop. */
  lemma ReceiveOnlySimulates(m: Peer, r: Peer, inputs: seq<Input>)
    requires Alike(m, r) && NoCapture(inputs) && r.lastSwitch == m.lastSwitch
    requires forall i :: 0 <= i < |inputs| ==> inputs[i].now >= r.lastSwitch
    requires NeverCooling(m, inputs)
    ensures OutputsAgree(m, r, inputs) && Alike(Run(m, inputs), Run(r, inputs))
  {
    OutsideCooldownNothingDiverges(m, r, inputs);
    LoopsAgreeIff(m, r, inputs);
  }

  /** The frame that pushes a cursor at the centre to the edge. */
  function PushFromCentre(m: Peer): EventFrame
    requires m.Valid() && m.detector.HasFiringCell()
  {
    PushFrame(m.Centred())
  }

  /** And inside the cooldown they do differ: right after any hand-over, the same frame is
      replayed by the main loop and answered with the focus by the receive-only loop. */
  lemma LoopsDifferInCooldown(m: Peer, r: Peer, t: int)
    requires Alike(m, r) && m.detector.HasFiringCell() && !InCooldown(r, t)
    ensures !OutputsAgree(m, r, [Control(SWITCH, t), Datagram(PushFromCentre(m), t)])
  {
    var focus, push := Control(SWITCH, t), Datagram(PushFromCentre(m), t);
    var inputs := [focus, push];
    assert inputs[1..] == [push] && [push][1..] == [];
    var m1, r1 := Next(m, focus), Next(r, focus);
    assert m1 == m.Centred().(remote := false, lastSwitch := t, grab := false);
    assert r1 == r.Centred().(remote := false);
    PushHits(m1, push.frame);
    StepAgreesIff(m, r, focus);
    StepAgreesIff(m1, r1, push);
  }
}
