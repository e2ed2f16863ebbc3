/** The session as the source runs it: fields updated in place, one method per branch of the
    `select!`, each proved against the state machine of `Peer`. */
module Session {
  import opened Proto
  import opened EdgeDetection
  import opened Peer
  import Tracker

  class PeerSession {
    // The daemon state
    var focusIsRemote: bool
    var cursorX: int
    var cursorY: int
    var pressedKeys: set<u32>
    var pressedButtons: set<MouseButton>
    var seqCounter: u32
    var lastFocusSwitch: int
    // The session's own variables
    const edgeDetector: EdgeDetector
    const hasEmulator: bool
    var receiveOnly: bool
    var grabRequest: bool
    var captureQueue: seq<InputEvent>
    // Everything sent so far, to the peer and to the capture thread, and everything replayed here
    var sentFrames: seq<EventFrame>
    var sentControls: seq<ControlCommand>
    var grabSends: seq<bool>
    var emulated: seq<InputEvent>

    ghost function State(): Peer
      reads this
    {
      Peer(edgeDetector, hasEmulator, receiveOnly, focusIsRemote, cursorX, cursorY,
           Held(pressedKeys, pressedButtons), seqCounter, lastFocusSwitch, grabRequest)
    }

    ghost predicate Valid()
      reads this
    {
      State().Valid()
    }

    /** The logs grew by exactly what `o` sends. */
    twostate predicate Sent(o: Output)
      reads this
    {
      && sentFrames == old(sentFrames) + o.data + o.flush
      && sentControls == old(sentControls) + o.controls
      && emulated == old(emulated) + o.emulated
      && grabSends == old(grabSends) + o.grabs
    }

    constructor (detector: EdgeDetector, emulator: bool, now: int)
      ensures Fresh(State()) && Valid() && State().held.Nothing() && seqCounter == 0
      ensures edgeDetector == detector && hasEmulator == emulator && lastFocusSwitch == now
      ensures sentFrames == [] && sentControls == [] && grabSends == [] && emulated == [] && captureQueue == []
    {
      focusIsRemote, receiveOnly, grabRequest := false, false, false;
      cursorX, cursorY := detector.screen.width / 2, detector.screen.height / 2;
      pressedKeys, pressedButtons, seqCounter := {}, {}, 0;
      lastFocusSwitch, edgeDetector, hasEmulator := now, detector, emulator;
      captureQueue, sentFrames, sentControls, grabSends, emulated := [], [], [], [], [];
    }

    /** The capture thread puts an event on the channel. */
    method CaptureArrives(event: InputEvent)
      modifies this`captureQueue
      ensures captureQueue == old(captureQueue) + [event]
    {
      captureQueue := captureQueue + [event];
    }

    /** The channel closed after its last event: the session goes on receive-only. */
    method CaptureEnds()
      requires Valid() && !receiveOnly && captureQueue == []
      modifies this`receiveOnly
      ensures Valid() && State() == Step(old(State()), CaptureClosed).0
    {
      receiveOnly := true;
    }

    method TrackKeyState(event: InputEvent)
      modifies this`pressedKeys, this`pressedButtons
      ensures State() == old(State()).Tracked(event)
    {
      match event {
        case Key(scancode, Pressed) => pressedKeys := pressedKeys + {scancode};
        case Key(scancode, Released) => pressedKeys := pressedKeys - {scancode};
        case Button(button, Pressed) => pressedButtons := pressedButtons + {button};
        case Button(button, Released) => pressedButtons := pressedButtons - {button};
        case _ =>
      }
    }

    method CheckEmergencyHotkey() returns (chord: bool)
      ensures chord == State().held.Chord()
      ensures chord <==> 29 in pressedKeys && 56 in pressedKeys && 1 in pressedKeys
    {
      chord := EMERGENCY_HOTKEY_CTRL in pressedKeys
            && EMERGENCY_HOTKEY_ALT in pressedKeys
            && EMERGENCY_HOTKEY_ESC in pressedKeys;
    }

    method TakeSeq() returns (s: u32)
      modifies this`seqCounter
      ensures s == seqCounter == NextSeq(old(seqCounter))
    {
      seqCounter := if seqCounter == 0xffff_ffff then 0 else seqCounter + 1;
      s := seqCounter;
    }

    method FlushPressedKeys() returns (releases: seq<InputEvent>)
      ensures IsFlush(releases, State().held)
    {
      releases := [];
      var keys := pressedKeys;
      while keys != {}
        invariant keys <= pressedKeys && |releases| + |keys| == |pressedKeys|
        invariant forall k :: k in pressedKeys - keys ==> Key(k, KeyState.Released) in releases
        invariant forall e :: e in releases ==> e.Key? && e.kstate.Released? && e.scancode in pressedKeys
        decreases keys
      {
        var k :| k in keys;
        releases, keys := releases + [Key(k, KeyState.Released)], keys - {k};
      }
      var buttons := pressedButtons;
      while buttons != {}
        invariant buttons <= pressedButtons
        invariant |releases| + |buttons| == |pressedKeys| + |pressedButtons| && |pressedKeys| <= |releases|
        invariant forall k :: k in pressedKeys ==> Key(k, KeyState.Released) in releases
        invariant forall b :: b in pressedButtons - buttons ==> Button(b, ButtonState.Released) in releases
        invariant forall i :: 0 <= i < |pressedKeys| ==>
          releases[i].Key? && releases[i].kstate.Released? && releases[i].scancode in pressedKeys
        invariant forall i :: |pressedKeys| <= i < |releases| ==>
          releases[i].Button? && releases[i].bstate.Released? && releases[i].button in pressedButtons
        decreases buttons
      {
        var b :| b in buttons;
        assert |pressedKeys| <= |releases|;
        releases, buttons := releases + [Button(b, ButtonState.Released)], buttons - {b};
      }
    }

    /** `grab_tx.send`: the watch channel keeps the latest value. */
    method AskGrab(grab: bool)
      modifies this`grabRequest, this`grabSends
      ensures grabRequest == grab && grabSends == old(grabSends) + [grab]
    {
      grabRequest, grabSends := grab, grabSends + [grab];
    }

    method CentreCursor()
      modifies this`cursorX, this`cursorY
      ensures State() == old(State()).Centred()
    {
      cursorX := edgeDetector.screen.width / 2;
      cursorY := edgeDetector.screen.height / 2;
    }

    method MoveCursor(dx: real, dy: real)
      modifies this`cursorX, this`cursorY
      ensures State() == old(State()).Moved(dx, dy)
    {
      cursorX := Clamp(WrapI32(cursorX + AsI32(dx)), 0, edgeDetector.screen.width - 1);
      cursorY := Clamp(WrapI32(cursorY + AsI32(dy)), 0, edgeDetector.screen.height - 1);
    }

    /** `capture_rx.recv()` yielded an event. While remote, up to 63 more are drained. */
    method OnCaptured() returns (ghost input: Input)
      requires Valid() && !receiveOnly && captureQueue != []
      modifies this
      ensures Valid() && input.Captured? && Legal(old(State()), input)
      ensures old(captureQueue) == [input.head] + input.drained + captureQueue
      ensures Batches(old(State()), input.head) ==>
        captureQueue == [] || |input.drained| == EVENT_BATCH_LIMIT - 1
      ensures var (q, o) := Step(old(State()), input); State() == q && Sent(o)
    {
      hide Tracker.Track, AsI32, IsFlush;
      var event := captureQueue[0];
      captureQueue := captureQueue[1..];
      TrackKeyState(event);
      var chord := CheckEmergencyHotkey();
      if chord && focusIsRemote {
        var releases := ReleaseFocusNow();
        input := Input.Captured(event, [], releases);
      } else if focusIsRemote {
        var batch := SendBatch(event);
        assert batch == [event] + batch[1..];
        input := Input.Captured(event, batch[1..], []);
      } else {
        if event.MouseMove? {
          MoveLocally(event.dx, event.dy);
        }
        input := Input.Captured(event, [], []);
      }
    }

    /** The cursor has left through the edge: the other machine gets the input from now on. */
    method GiveFocus()
      modifies this`focusIsRemote, this`grabRequest, this`grabSends, this`cursorX, this`cursorY, this`sentControls
      ensures State() == TakeRemote(old(State())).(grab := true)
      ensures sentControls == old(sentControls) + [SWITCH] && grabSends == old(grabSends) + [true]
    {
      focusIsRemote := true;
      AskGrab(true);
      CentreCursor();
      sentControls := sentControls + [SwitchFocus("remote")];
    }

    method MoveLocally(dx: real, dy: real)
      modifies this`focusIsRemote, this`grabRequest, this`grabSends, this`cursorX, this`cursorY, this`sentControls
      ensures var m := old(State()).Moved(dx, dy);
              State() == (if m.AtEdge() then TakeRemote(m).(grab := true) else m)
              && sentControls == old(sentControls) + (if m.AtEdge() then [SWITCH] else [])
              && grabSends == old(grabSends) + if m.AtEdge() then [true] else []
    {
      MoveCursor(dx, dy);
      if edgeDetector.Check(cursorX, cursorY) != NoHit {
        GiveFocus();
      }
    }

    method SendBatch(event: InputEvent) returns (batch: seq<InputEvent>)
      modifies this
      ensures 1 <= |batch| <= EVENT_BATCH_LIMIT && batch[0] == event
      ensures old(captureQueue) == batch[1..] + captureQueue
      ensures captureQueue == [] || |batch| == EVENT_BATCH_LIMIT
      ensures State() == old(State()).(held := ApplyAll(old(State()).held, batch[1..]),
                                       seqNo := NextSeq(old(seqCounter)))
      ensures Sent(QUIET.(data := [EventFrame(seqCounter, batch)]))
    {
      batch := DrainBatch(event);
      var s := TakeSeq();
      sentFrames := sentFrames + [EventFrame(s, batch)];
    }

    method ReleaseFocusNow() returns (releases: seq<InputEvent>)
      modifies this
      ensures IsFlush(releases, old(State()).held) && captureQueue == old(captureQueue)
      ensures State() == old(State()).(remote := false, grab := false, seqNo := NextSeq(old(seqCounter)))
      ensures Sent(QUIET.(flush := if releases == [] then [] else [EventFrame(seqCounter, releases)],
                          controls := [ReleaseFocus], grabs := [false]))
    {
      focusIsRemote := false;
      AskGrab(false);
      releases := FlushPressedKeys();
      var s := TakeSeq();
      if releases != [] {
        sentFrames := sentFrames + [EventFrame(s, releases)];
      }
      sentControls := sentControls + [ReleaseFocus];
    }

    method DrainBatch(event: InputEvent) returns (batch: seq<InputEvent>)
      modifies this`captureQueue, this`pressedKeys, this`pressedButtons
      ensures 1 <= |batch| <= EVENT_BATCH_LIMIT && batch[0] == event
      ensures old(captureQueue) == batch[1..] + captureQueue
      ensures captureQueue == [] || |batch| == EVENT_BATCH_LIMIT
      ensures State() == old(State()).(held := ApplyAll(old(State()).held, batch[1..]))
    {
      batch := [event];
      while |batch| < EVENT_BATCH_LIMIT && captureQueue != []
        invariant 1 <= |batch| <= EVENT_BATCH_LIMIT && batch[0] == event
        invariant old(captureQueue) == batch[1..] + captureQueue
        invariant State() == old(State()).(held := ApplyAll(old(State()).held, batch[1..]))
        decreases |captureQueue|
      {
        var ev := captureQueue[0];
        captureQueue := captureQueue[1..];
        ApplyAppend(old(State()).held, batch[1..], [ev]);
        assert (batch + [ev])[1..] == batch[1..] + [ev];
        TrackKeyState(ev);
        batch := batch + [ev];
      }
    }

    /** Follow the moves of a received frame, in either loop. */
    method WalkCursor(events: seq<InputEvent>, inCooldown: bool) returns (hit: bool)
      requires Valid()
      modifies this`cursorX, this`cursorY
      ensures Valid()
      ensures var w := Walk(old(State()), events, inCooldown); State() == w.peer && hit == w.hit
    {
      hit := false;
      var i := 0;
      while i < |events|
        invariant 0 <= i <= |events| && Valid()
        invariant Walk(old(State()), events, inCooldown).peer == Walk(State(), events[i..], inCooldown).peer
        invariant Walk(old(State()), events, inCooldown).hit == Walk(State(), events[i..], inCooldown).hit
      {
        assert events[i..][1..] == events[i + 1..];
        if events[i].MouseMove? {
          MoveCursor(events[i].dx, events[i].dy);
          if !inCooldown && edgeDetector.Check(cursorX, cursorY) != NoHit {
            hit := true;
            return;
          }
        }
        i := i + 1;
      }
    }

    method OnDatagram(frame: EventFrame, now: int)
      requires Valid() && !receiveOnly
      modifies this
      ensures Valid() && captureQueue == old(captureQueue)
      ensures var (q, o) := Step(old(State()), Datagram(frame, now)); State() == q && Sent(o)
    {
      hide Apply, ApplyAll, EdgeDetector.Check;
      if !focusIsRemote {
        var inCooldown := now - lastFocusSwitch < EDGE_COOLDOWN;
        var hitEdge := WalkCursor(frame.events, inCooldown);
        if hitEdge {
          GiveFocus();
        } else if hasEmulator {
          emulated := emulated + frame.events;
        }
      }
    }

    method OnDatagramReceiveOnly(frame: EventFrame, now: int)
      requires Valid() && receiveOnly
      modifies this
      ensures Valid() && captureQueue == old(captureQueue)
      ensures var (q, o) := Step(old(State()), Datagram(frame, now)); State() == q && Sent(o)
    {
      if !focusIsRemote {
        var inCooldown := now - lastFocusSwitch < EDGE_COOLDOWN;
        var hitEdge := WalkCursor(frame.events, inCooldown);
        if hitEdge {
          focusIsRemote := true;
          CentreCursor();
          sentControls := sentControls + [SwitchFocus("remote")];
        } else if hasEmulator {
          emulated := emulated + frame.events;
        }
      }
    }

    /** The other machine has handed the focus over, or back. */
    method TakeFocus(now: int)
      modifies this`focusIsRemote, this`cursorX, this`cursorY, this`lastFocusSwitch, this`grabRequest, this`grabSends
      ensures State() == old(State()).Centred().(remote := false, lastSwitch := now, grab := false)
      ensures grabSends == old(grabSends) + [false]
    {
      focusIsRemote := false;
      CentreCursor();
      lastFocusSwitch := now;
      AskGrab(false);
    }

    method OnControl(cmd: ControlCommand, now: int) returns (ended: bool)
      requires Valid() && !receiveOnly
      modifies this
      ensures Valid() && captureQueue == old(captureQueue) && ended == cmd.PeerDisconnecting?
      ensures var (q, o) := Step(old(State()), Control(cmd, now)); State() == q && Sent(o)
    {
      hide Walk, Apply, ApplyAll, EdgeDetector.Check;
      ended := false;
      match cmd {
        case SwitchFocus(_) =>
          TakeFocus(now);
        case ReleaseFocus =>
          TakeFocus(now);
        case PeerDisconnecting => ended := true;
        case Ping(timestampUs) => sentControls := sentControls + [Pong(timestampUs)];
        case _ =>
      }
    }

    method OnControlReceiveOnly(cmd: ControlCommand, now: int) returns (ended: bool)
      requires Valid() && receiveOnly
      modifies this
      ensures Valid() && captureQueue == old(captureQueue) && ended == cmd.PeerDisconnecting?
      ensures var (q, o) := Step(old(State()), Control(cmd, now)); State() == q && Sent(o)
    {
      hide Walk, Apply, ApplyAll, EdgeDetector.Check;
      ended := false;
      match cmd {
        case SwitchFocus(_) =>
          focusIsRemote := false;
          CentreCursor();
        case ReleaseFocus =>
          focusIsRemote := false;
          CentreCursor();
        case PeerDisconnecting => ended := true;
        case Ping(timestampUs) => sentControls := sentControls + [Pong(timestampUs)];
        case _ =>
      }
    }

    method Cleanup() returns (ghost releases: seq<InputEvent>)
      requires Valid()
      modifies this
      ensures Valid() && IsFlush(releases, old(State()).held)
      ensures var (q, o) := OnCleanup(old(State()), releases); State() == q && Sent(o)
    {
      var rs := FlushPressedKeys();
      releases := rs;
      if focusIsRemote && rs != [] {
        var s := TakeSeq();
        sentFrames := sentFrames + [EventFrame(s, rs)];
      }
      focusIsRemote, pressedKeys, pressedButtons := false, {}, {};
    }
  }
}
