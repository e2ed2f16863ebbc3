/** One peer session as a state machine: what each branch of the session's `select!` does to
    the daemon state, and what it sends. `Session.dfy` holds the loops that implement it. */
module Peer {
  import opened Proto
  import opened EdgeDetection
  import Tracker

  const EMERGENCY_HOTKEY_CTRL: u32 := 29
  const EMERGENCY_HOTKEY_ALT: u32 := 56
  const EMERGENCY_HOTKEY_ESC: u32 := 1

  const EVENT_BATCH_LIMIT := 64
  /** Milliseconds. */
  const EDGE_COOLDOWN := 500

  // ---------------------------------------------------------------- held keys and buttons

  datatype Held = Held(keys: set<u32>, buttons: set<MouseButton>) {
    predicate Chord() {
      EMERGENCY_HOTKEY_CTRL in keys && EMERGENCY_HOTKEY_ALT in keys && EMERGENCY_HOTKEY_ESC in keys
    }

    predicate Within(other: Held) {
      keys <= other.keys && buttons <= other.buttons
    }

    predicate Nothing() {
      keys == {} && buttons == {}
    }
  }

  function Apply(h: Held, e: InputEvent): Held {
    match e
    case Key(k, Pressed) => h.(keys := h.keys + {k})
    case Key(k, Released) => h.(keys := h.keys - {k})
    case Button(b, Pressed) => h.(buttons := h.buttons + {b})
    case Button(b, Released) => h.(buttons := h.buttons - {b})
    case _ => h
  }

  function ApplyAll(h: Held, es: seq<InputEvent>): Held
    decreases es
  {
    if es == [] then h else ApplyAll(Apply(h, es[0]), es[1..])
  }

  lemma {:induction false} ApplyAppend(h: Held, xs: seq<InputEvent>, ys: seq<InputEvent>)
    ensures ApplyAll(h, xs + ys) == ApplyAll(ApplyAll(h, xs), ys)
    decreases xs
  {
    if xs == [] {
      assert xs + ys == ys;
    } else {
      assert (xs + ys)[1..] == xs[1..] + ys;
      ApplyAppend(Apply(h, xs[0]), xs[1..], ys);
    }
  }

  // Last action wins, said of the list itself.

  /** A key or a button. */
  datatype Code = KeyCode(scancode: u32) | ButtonCode(button: MouseButton)

  predicate Holds(h: Held, c: Code) {
    match c
    case KeyCode(k) => k in h.keys
    case ButtonCode(b) => b in h.buttons
  }

  predicate ActsOn(e: InputEvent, c: Code) {
    match c
    case KeyCode(k) => e.Key? && e.scancode == k
    case ButtonCode(b) => e.Button? && e.button == b
  }

  predicate IsPress(e: InputEvent) {
    (e.Key? && e.kstate.Pressed?) || (e.Button? && e.bstate.Pressed?)
  }

  ghost predicate Untouched(es: seq<InputEvent>, c: Code) {
    forall i :: 0 <= i < |es| ==> !ActsOn(es[i], c)
  }

  ghost predicate LastPressed(es: seq<InputEvent>, c: Code) {
    exists i :: 0 <= i < |es| && ActsOn(es[i], c) && IsPress(es[i]) && Untouched(es[i + 1..], c)
  }

  /** Something is held after a list of events if and only if the last action on it was a
      press, or there was none and it was held before. */
  lemma {:induction false} LastActionWins(h: Held, es: seq<InputEvent>, c: Code)
    ensures Holds(ApplyAll(h, es), c) <==> LastPressed(es, c) || (Untouched(es, c) && Holds(h, c))
    decreases es
  {
    if es != [] {
      var rest := es[1..];
      LastActionWins(Apply(h, es[0]), rest, c);
      forall i | 0 < i < |es|
        ensures es[i] == rest[i - 1] && es[i + 1..] == rest[i..]
      {
      }
      if LastPressed(rest, c) {
        var i :| 0 <= i < |rest| && ActsOn(rest[i], c) && IsPress(rest[i]) && Untouched(rest[i + 1..], c);
        assert es[i + 1] == rest[i] && es[i + 2..] == rest[i + 1..];
      }
      if LastPressed(es, c) {
        var i :| 0 <= i < |es| && ActsOn(es[i], c) && IsPress(es[i]) && Untouched(es[i + 1..], c);
        if i > 0 {
          assert ActsOn(rest[i - 1], c) && Untouched(rest[i - 1 + 1..], c);
        }
      }
      assert Untouched(es, c) <==> !ActsOn(es[0], c) && Untouched(rest, c);
      assert es[0 + 1..] == rest;
    }
  }

  /** One release per held key, then one per held button, in any order within each group:
      hash sets promise no order. */
  ghost predicate IsFlush(releases: seq<InputEvent>, h: Held) {
    && |releases| == |h.keys| + |h.buttons|
    && (forall k :: k in h.keys ==> Key(k, KeyState.Released) in releases)
    && (forall b :: b in h.buttons ==> Button(b, ButtonState.Released) in releases)
    && (forall e :: e in releases ==>
          || (e.Key? && e.kstate.Released? && e.scancode in h.keys)
          || (e.Button? && e.bstate.Released? && e.button in h.buttons))
    && (forall i, j :: 0 <= i < j < |releases| && releases[j].Key? ==> releases[i].Key?)
  }

  // ---------------------------------------------------------------- the session state

  datatype Peer = Peer(
    detector: EdgeDetector,
    hasEmulator: bool,
    receiveOnly: bool,
    remote: bool,
    x: int,
    y: int,
    held: Held,
    seqNo: u32,
    lastSwitch: int,
    grab: bool)
  {
    predicate Valid() {
      detector.InBounds(x, y)
    }

    function Screen(): Screen {
      detector.screen
    }

    function Centred(): Peer {
      this.(x := Screen().width / 2, y := Screen().height / 2)
    }

    predicate AtCentre() {
      x == Screen().width / 2 && y == Screen().height / 2
    }

    function Moved(dx: real, dy: real): (p: Peer)
      ensures p.Valid()
    {
      this.(x := Tracker.Track(x, Screen().width, AsI32(dx)),
            y := Tracker.Track(y, Screen().height, AsI32(dy)))
    }

    predicate AtEdge() {
      detector.Fires(x, y)
    }

    function Tracked(e: InputEvent): Peer {
      this.(held := Apply(held, e))
    }
  }

  /** A session that has just finished its handshake: local focus, cursor centred. */
  predicate Fresh(p: Peer) {
    !p.remote && !p.grab && !p.receiveOnly && p.AtCentre()
  }

  /** What every step keeps: the cursor is on the screen, and the set-up is as it was. */
  ghost predicate Keeps(p: Peer, q: Peer) {
    q.Valid() && q.detector == p.detector && q.hasEmulator == p.hasEmulator
  }

  function NextSeq(s: u32): u32 {
    (s + 1) % 0x1_0000_0000
  }

  /** What one step sends. `data` are event batches, `flush` the release frame of an emergency;
      `grabs` are the values written to the capture thread's watch channel. */
  datatype Output = Output(
    data: seq<EventFrame>,
    flush: seq<EventFrame>,
    controls: seq<ControlCommand>,
    emulated: seq<InputEvent>,
    grabs: seq<bool>)

  const QUIET := Output([], [], [], [], [])
  const SWITCH := SwitchFocus("remote")

  function TakeRemote(p: Peer): Peer {
    p.Centred().(remote := true)
  }

  // ---------------------------------------------------------------- captured input

  predicate Emergency(p: Peer, head: InputEvent) {
    p.remote && Apply(p.held, head).Chord()
  }

  predicate Batches(p: Peer, head: InputEvent) {
    p.remote && !Emergency(p, head)
  }

  /** `drained` is what `try_recv` yields after the head; `releases` one order of the flush. */
  function OnCaptured(p: Peer, head: InputEvent, drained: seq<InputEvent>, releases: seq<InputEvent>)
    : (r: (Peer, Output))
    requires p.Valid()
    ensures Keeps(p, r.0)
  {
    var q := p.Tracked(head);
    if Emergency(p, head) then
      var q' := q.(remote := false, grab := false, seqNo := NextSeq(p.seqNo));
      (q', QUIET.(flush := if releases == [] then [] else [EventFrame(q'.seqNo, releases)],
                  controls := [ReleaseFocus], grabs := [false]))
    else if p.remote then
      var q' := q.(held := ApplyAll(q.held, drained), seqNo := NextSeq(p.seqNo));
      (q', QUIET.(data := [EventFrame(q'.seqNo, [head] + drained)]))
    else if head.MouseMove? then
      var m := q.Moved(head.dx, head.dy);
      if m.AtEdge() then (TakeRemote(m).(grab := true), QUIET.(controls := [SWITCH], grabs := [true]))
      else (m, QUIET)
    else
      (q, QUIET)
  }

  // ---------------------------------------------------------------- frames from the peer

  datatype Walked = Walked(peer: Peer, hit: bool, processed: nat)

  /** Follow the moves of a frame, stopping at the first that fires unless in cooldown. */
  function Walk(p: Peer, events: seq<InputEvent>, inCooldown: bool): (w: Walked)
    requires p.Valid()
    ensures w.peer.Valid()
    ensures w.peer == p.(x := w.peer.x, y := w.peer.y)
    ensures w.processed <= |events|
    ensures w.hit ==> !inCooldown && w.peer.AtEdge()
    decreases events
  {
    if events == [] then Walked(p, false, 0)
    else
      var m := if events[0].MouseMove? then p.Moved(events[0].dx, events[0].dy) else p;
      if events[0].MouseMove? && !inCooldown && m.AtEdge() then Walked(m, true, 1)
      else
        var w := Walk(m, events[1..], inCooldown);
        w.(processed := 1 + w.processed)
  }

  /** The walk looks at nothing but the detector and the cursor. */
  lemma {:induction false} WalkCongruent(p: Peer, q: Peer, events: seq<InputEvent>, inCooldown: bool)
    requires p.Valid() && q.Valid() && p.detector == q.detector && p.x == q.x && p.y == q.y
    ensures var v, w := Walk(p, events, inCooldown), Walk(q, events, inCooldown);
            v.peer.x == w.peer.x && v.peer.y == w.peer.y && v.hit == w.hit && v.processed == w.processed
    decreases events
  {
    if events != [] {
      var m := if events[0].MouseMove? then p.Moved(events[0].dx, events[0].dy) else p;
      var n := if events[0].MouseMove? then q.Moved(events[0].dx, events[0].dy) else q;
      WalkCongruent(m, n, events[1..], inCooldown);
    }
  }

  predicate InCooldown(p: Peer, now: int) {
    now - p.lastSwitch < EDGE_COOLDOWN
  }

  function OnDatagram(p: Peer, frame: EventFrame, now: int): (r: (Peer, Output))
    requires p.Valid()
    ensures Keeps(p, r.0)
  {
    if p.remote then (p, QUIET)
    else
      var w := Walk(p, frame.events, InCooldown(p, now));
      if w.hit then (TakeRemote(w.peer).(grab := true), QUIET.(controls := [SWITCH], grabs := [true]))
      else (w.peer, QUIET.(emulated := if p.hasEmulator then frame.events else []))
  }

  /** The receive-only loop has no capture thread to ask for a grab. */
  function OnDatagramReceiveOnly(p: Peer, frame: EventFrame, now: int): (r: (Peer, Output))
    requires p.Valid()
    ensures Keeps(p, r.0)
  {
    if p.remote then (p, QUIET)
    else
      var w := Walk(p, frame.events, InCooldown(p, now));
      if w.hit then (TakeRemote(w.peer), QUIET.(controls := [SWITCH]))
      else (w.peer, QUIET.(emulated := if p.hasEmulator then frame.events else []))
  }

  // ---------------------------------------------------------------- control messages

  predicate IsFocus(cmd: ControlCommand) {
    cmd.SwitchFocus? || cmd.ReleaseFocus?
  }

  function OnControl(p: Peer, cmd: ControlCommand, now: int): (r: (Peer, Output))
    requires p.Valid()
    ensures Keeps(p, r.0)
  {
    if IsFocus(cmd) then
      (p.Centred().(remote := false, lastSwitch := now, grab := false), QUIET.(grabs := [false]))
    else if cmd.Ping? then (p, QUIET.(controls := [Pong(cmd.timestampUs)]))
    else (p, QUIET)
  }

  /** The receive-only loop does not stamp the switch. */
  function OnControlReceiveOnly(p: Peer, cmd: ControlCommand): (r: (Peer, Output))
    requires p.Valid()
    ensures Keeps(p, r.0)
  {
    if IsFocus(cmd) then (p.Centred().(remote := false), QUIET)
    else if cmd.Ping? then (p, QUIET.(controls := [Pong(cmd.timestampUs)]))
    else (p, QUIET)
  }

  // ---------------------------------------------------------------- the end of a session

  function OnCleanup(p: Peer, releases: seq<InputEvent>): (Peer, Output) {
    var sends := p.remote && releases != [];
    var s := if sends then NextSeq(p.seqNo) else p.seqNo;
    (p.(remote := false, held := Held({}, {}), seqNo := s),
     QUIET.(flush := if sends then [EventFrame(s, releases)] else []))
  }

  // ---------------------------------------------------------------- runs

  datatype Input =
    | Captured(head: InputEvent, drained: seq<InputEvent>, releases: seq<InputEvent>)
    | Datagram(frame: EventFrame, now: int)
    | Control(cmd: ControlCommand, now: int)
    | CaptureClosed

  /** The other machine hands the focus over, or back. */
  predicate GivesFocus(i: Input) {
    i.Control? && IsFocus(i.cmd)
  }

  function Step(p: Peer, i: Input): (r: (Peer, Output))
    requires p.Valid()
    ensures Keeps(p, r.0)
  {
    match i
    case Captured(head, drained, releases) => OnCaptured(p, head, drained, releases)
    case Datagram(frame, now) =>
      if p.receiveOnly then OnDatagramReceiveOnly(p, frame, now) else OnDatagram(p, frame, now)
    case Control(cmd, now) =>
      if p.receiveOnly then OnControlReceiveOnly(p, cmd) else OnControl(p, cmd, now)
    case CaptureClosed => (p.(receiveOnly := true), QUIET)
  }

  function Next(p: Peer, i: Input): (q: Peer)
    requires p.Valid()
    ensures Keeps(p, q)
  {
    Step(p, i).0
  }

  /** What the environment can offer in a state. The receive-only loop has no capture branch;
      events are drained only into a batch; a disconnect ends the session. */
  ghost predicate Legal(p: Peer, i: Input) {
    match i
    case Captured(head, drained, releases) =>
      && !p.receiveOnly
      && |drained| < EVENT_BATCH_LIMIT
      && (!Batches(p, head) ==> drained == [])
      && (Emergency(p, head) ==> IsFlush(releases, Apply(p.held, head)))
    case Datagram(_, _) => true
    case Control(cmd, _) => !cmd.PeerDisconnecting?
    case CaptureClosed => !p.receiveOnly
  }

  function Run(p: Peer, inputs: seq<Input>): (q: Peer)
    requires p.Valid()
    ensures Keeps(p, q)
    decreases inputs
  {
    if inputs == [] then p else Run(Next(p, inputs[0]), inputs[1..])
  }

  function Outputs(p: Peer, inputs: seq<Input>): (os: seq<Output>)
    requires p.Valid()
    ensures |os| == |inputs|
    decreases inputs
  {
    if inputs == [] then []
    else [Step(p, inputs[0]).1] + Outputs(Next(p, inputs[0]), inputs[1..])
  }

  ghost predicate LegalRun(p: Peer, inputs: seq<Input>)
    requires p.Valid()
    decreases inputs
  {
    inputs != [] ==> Legal(p, inputs[0]) && LegalRun(Next(p, inputs[0]), inputs[1..])
  }
}
