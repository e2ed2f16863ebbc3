/** What a session's steps do, said field by field for both loops, and what follows for runs. */
module Transitions {
  import opened Proto
  import opened Peer
  import opened CursorDrift
  import opened Batching

  // ---------------------------------------------------------------- what moves the focus

  /** A local cursor comes to stand on a cell that fires: by a captured move, or, 500 ms after
      the last stamped switch, by any move of a received frame. */
  ghost predicate ReachesEdge(p: Peer, i: Input)
    requires p.Valid()
  {
    !p.remote &&
    match i
    case Captured(head, _, _) => EdgeAfter(p, [head], 0)
    case Datagram(frame, now) =>
      now - p.lastSwitch >= 500 && exists k :: 0 <= k < |frame.events| && EdgeAfter(p, frame.events, k)
    case _ => false
  }

  /** While forwarding, Ctrl, Alt and Escape are all down once the event is counted. */
  predicate CompletesChord(p: Peer, i: Input) {
    i.Captured? && p.remote && forall k :: k in {29, 56, 1} ==> Holds(Apply(p.held, i.head), KeyCode(k))
  }

  lemma EmergencyIsChord(p: Peer, i: Input)
    ensures CompletesChord(p, i) <==> i.Captured? && Emergency(p, i.head)
  {
    if CompletesChord(p, i) {
      assert Holds(Apply(p.held, i.head), KeyCode(29));
      assert Holds(Apply(p.held, i.head), KeyCode(56));
      assert Holds(Apply(p.held, i.head), KeyCode(1));
    }
  }

  lemma StandsStill(p: Peer, head: InputEvent)
    requires p.Valid() && !head.MouseMove?
    ensures CursorAfter(p, [head]) == (p.x, p.y) && !EdgeAfter(p, [head], 0)
  {
    CursorAfterCons(p, [head]);
    assert [head][1..] == [];
    NoMoves(p);
  }

  lemma LocalCapture(p: Peer, i: Input)
    requires p.Valid() && !p.remote && i.Captured?
    ensures var q, c := p.Tracked(i.head), CursorAfter(p, [i.head]);
            Step(p, i) == if ReachesEdge(p, i)
                          then (TakeRemote(q).(grab := true), QUIET.(controls := [SWITCH], grabs := [true]))
                          else (q.(x := c.0, y := c.1), QUIET)
  {
    hide CursorAfter, EdgeAfter;
    if i.head.MouseMove? {
      FirstEvent(p, [i.head]);
      assert [i.head][..1] == [i.head];
      var m := p.Moved(i.head.dx, i.head.dy);
      assert p.Tracked(i.head).Moved(i.head.dx, i.head.dy) == m.(held := p.Tracked(i.head).held);
    } else {
      StandsStill(p, i.head);
    }
  }

  lemma LocalFrame(p: Peer, i: Input)
    requires p.Valid() && !p.remote && i.Datagram?
    ensures var c := CursorAfter(p, i.frame.events);
            Step(p, i) == if ReachesEdge(p, i)
                          then (TakeRemote(p).(grab := p.grab || !p.receiveOnly),
                                QUIET.(controls := [SWITCH], grabs := if p.receiveOnly then [] else [true]))
                          else (p.(x := c.0, y := c.1),
                                QUIET.(emulated := if p.hasEmulator then i.frame.events else []))
  {
    hide CursorAfter, EdgeAfter;
    WalkStopsAtFirst(p, i.frame.events, InCooldown(p, i.now));
    assert i.frame.events[..|i.frame.events|] == i.frame.events;
  }

  // ---------------------------------------------------------------- one step

  /** The focus leaves on reaching the edge, and comes back by the chord or a focus message. */
  lemma FocusMovesIff(p: Peer, i: Input)
    requires p.Valid()
    ensures Next(p, i).remote <==>
              if p.remote then !CompletesChord(p, i) && !GivesFocus(i) else ReachesEdge(p, i)
  {
    hide CompletesChord, EdgeAfter, CursorAfter;
    EmergencyIsChord(p, i);
    if !p.remote && i.Captured? {
      LocalCapture(p, i);
    } else if !p.remote && i.Datagram? {
      LocalFrame(p, i);
    }
  }

  /** Everything a step sends: SwitchFocus exactly on reaching the edge, ReleaseFocus exactly on
      the chord, a Pong for each Ping; a batch exactly while forwarding; the flush with the chord. */
  lemma StepSends(p: Peer, i: Input)
    requires p.Valid()
    ensures var o := Step(p, i).1;
            && o.controls == (if ReachesEdge(p, i) then [SwitchFocus("remote")]
                              else if CompletesChord(p, i) then [ReleaseFocus]
                              else if i.Control? && i.cmd.Ping? then [Pong(i.cmd.timestampUs)] else [])
            && (o.data == if i.Captured? && p.remote && !CompletesChord(p, i)
                          then [EventFrame(NextSeq(p.seqNo), [i.head] + i.drained)] else [])
            && (o.flush == if CompletesChord(p, i) && i.releases != []
                           then [EventFrame(NextSeq(p.seqNo), i.releases)] else [])
  {
    hide CompletesChord, EdgeAfter, CursorAfter;
    EmergencyIsChord(p, i);
    if !p.remote && i.Captured? {
      LocalCapture(p, i);
    } else if !p.remote && i.Datagram? {
      LocalFrame(p, i);
    }
  }

  /** A frame is replayed whole or not at all: whole exactly when it finds the session local and
      with an emulator and does not reach the edge. Nothing else is ever replayed. */
  lemma ReplaysIff(p: Peer, i: Input)
    requires p.Valid()
    ensures Step(p, i).1.emulated ==
              if i.Datagram? && !p.remote && p.hasEmulator && !ReachesEdge(p, i) then i.frame.events else []
  {
    hide ReachesEdge, CursorAfter;
    if !p.remote && i.Captured? {
      LocalCapture(p, i);
    } else if !p.remote && i.Datagram? {
      LocalFrame(p, i);
    }
  }

  /** The grab is asked for on reaching the edge and dropped when the focus comes back, but the
      receive-only loop asks for nothing on what it receives. */
  lemma GrabAskedIff(p: Peer, i: Input)
    requires p.Valid()
    ensures var (q, o) := Step(p, i);
            && (o.grabs == if p.receiveOnly && !i.Captured? then []
                           else if ReachesEdge(p, i) then [true]
                           else if CompletesChord(p, i) || GivesFocus(i) then [false] else [])
            && (q.grab == if o.grabs == [] then p.grab else o.grabs[0])
  {
    hide CompletesChord, EdgeAfter, CursorAfter;
    EmergencyIsChord(p, i);
    if !p.remote && i.Captured? {
      LocalCapture(p, i);
    } else if !p.remote && i.Datagram? {
      LocalFrame(p, i);
    }
  }

  function Centre(p: Peer): (int, int) {
    (p.Screen().width / 2, p.Screen().height / 2)
  }

  /** The cursor follows the moves a local session captures or receives, and jumps to the centre
      on reaching the edge and on every focus message; nothing else moves it. */
  lemma CursorFollows(p: Peer, i: Input)
    requires p.Valid()
    ensures var q := Next(p, i);
            (q.x, q.y) ==
              if ReachesEdge(p, i) || GivesFocus(i) then Centre(p)
              else if !p.remote && i.Captured? then CursorAfter(p, [i.head])
              else if !p.remote && i.Datagram? then CursorAfter(p, i.frame.events)
              else (p.x, p.y)
  {
    hide CursorAfter, EdgeAfter;
    if !p.remote && i.Captured? {
      LocalCapture(p, i);
    } else if !p.remote && i.Datagram? {
      LocalFrame(p, i);
    }
  }

  /** What is left of the state: the loop changes when the capture ends, the stamp with each
      focus message of the main loop, the number with each frame. */
  lemma RestFollows(p: Peer, i: Input)
    requires p.Valid() && Legal(p, i)
    ensures var (q, o) := Step(p, i);
            && (q.receiveOnly <==> p.receiveOnly || i.CaptureClosed?)
            && (q.lastSwitch == if GivesFocus(i) && !p.receiveOnly then i.now else p.lastSwitch)
            && (q.seqNo == if o.data + o.flush == [] then p.seqNo else (p.seqNo + 1) % 0x1_0000_0000)
  {
  }
  // ---------------------------------------------------------------- runs

  lemma {:induction false} RunAppend(p: Peer, xs: seq<Input>, i: Input)
    requires p.Valid()
    ensures Run(p, xs + [i]) == Next(Run(p, xs), i)
    decreases xs
  {
    if xs == [] {
      assert [i][1..] == [];
    } else {
      assert (xs + [i])[1..] == xs[1..] + [i];
      RunAppend(Next(p, xs[0]), xs[1..], i);
    }
  }

  /** The k-th input of a run takes the focus to the other machine. */
  ghost predicate Takes(p: Peer, inputs: seq<Input>, k: nat)
    requires p.Valid() && k < |inputs|
  {
    ReachesEdge(Run(p, inputs[..k]), inputs[k])
  }

  /** The k-th input brings it home, if it is away. */
  ghost predicate Returns(p: Peer, inputs: seq<Input>, k: nat)
    requires p.Valid() && k < |inputs|
  {
    CompletesChord(Run(p, inputs[..k]), inputs[k]) || GivesFocus(inputs[k])
  }

  ghost predicate NoneReturnsFrom(p: Peer, inputs: seq<Input>, from: nat)
    requires p.Valid()
  {
    forall k :: from <= k < |inputs| ==> !Returns(p, inputs, k)
  }

  /** After any run of either loop the focus is away exactly if some input took it there and
      none since brought it home, or it was away at the start and none ever did. */
  lemma {:induction false} FocusHistory(p: Peer, inputs: seq<Input>)
    requires p.Valid()
    ensures Run(p, inputs).remote <==>
              || (p.remote && NoneReturnsFrom(p, inputs, 0))
              || (exists k :: 0 <= k < |inputs| && Takes(p, inputs, k) && NoneReturnsFrom(p, inputs, k + 1))
    decreases |inputs|
  {
    hide ReachesEdge, CompletesChord, Step;
    if inputs != [] {
      var n := |inputs| - 1;
      var before, last := inputs[..n], inputs[n];
      assert inputs == before + [last];
      RunAppend(p, before, last);
      FocusHistory(p, before);
      FocusMovesIff(Run(p, before), last);
      HitsAreLocal(Run(p, before), last);
      forall k | 0 <= k < n
        ensures Takes(p, inputs, k) <==> Takes(p, before, k)
        ensures Returns(p, inputs, k) <==> Returns(p, before, k)
      {
        assert inputs[..k] == before[..k] && inputs[k] == before[k];
      }
      forall from | 0 <= from <= n
        ensures NoneReturnsFrom(p, inputs, from) <==> NoneReturnsFrom(p, before, from) && !Returns(p, inputs, n)
      {
        NoneReturnsStep(p, inputs, from);
      }
      assert NoneReturnsFrom(p, inputs, n + 1) && (NoneReturnsFrom(p, before, n));
      if k :| 0 <= k < n && Takes(p, before, k) && NoneReturnsFrom(p, before, k + 1) && !Returns(p, inputs, n) {
        assert Takes(p, inputs, k) && NoneReturnsFrom(p, inputs, k + 1);
      }
      if k :| 0 <= k < n && Takes(p, inputs, k) && NoneReturnsFrom(p, inputs, k + 1) {
        assert Takes(p, before, k) && NoneReturnsFrom(p, before, k + 1);
      }
      assert Takes(p, inputs, n) <==> ReachesEdge(Run(p, before), last);
    }
  }

  lemma HitsAreLocal(p: Peer, i: Input)
    requires p.Valid()
    ensures ReachesEdge(p, i) ==> !p.remote && !CompletesChord(p, i) && !i.Control?
    ensures CompletesChord(p, i) ==> !i.Control?
  {
  }

  lemma NoneReturnsStep(p: Peer, inputs: seq<Input>, from: nat)
    requires p.Valid() && from < |inputs|
    requires forall k :: 0 <= k < |inputs| - 1 ==>
               (Returns(p, inputs, k) <==> Returns(p, inputs[..|inputs| - 1], k))
    ensures NoneReturnsFrom(p, inputs, from) <==>
              NoneReturnsFrom(p, inputs[..|inputs| - 1], from) && !Returns(p, inputs, |inputs| - 1)
  {
    hide Returns;
    var before := inputs[..|inputs| - 1];
    assert forall k :: from <= k < |before| ==> (Returns(p, inputs, k) <==> Returns(p, before, k));
  }

  function Pings(inputs: seq<Input>): seq<nat> {
    if inputs == [] then []
    else (if inputs[0].Control? && inputs[0].cmd.Ping? then [inputs[0].cmd.timestampUs] else []) + Pings(inputs[1..])
  }

  function Pongs(os: seq<Output>): seq<nat> {
    if os == [] then []
    else (if |os[0].controls| == 1 && os[0].controls[0].Pong? then [os[0].controls[0].echoTimestampUs] else [])
         + Pongs(os[1..])
  }

  /** Along any run of either loop the Pongs sent echo the Pings received, each once and in order. */
  lemma {:induction false} PongsEchoPings(p: Peer, inputs: seq<Input>)
    requires p.Valid()
    ensures Pongs(Outputs(p, inputs)) == Pings(inputs)
    decreases inputs
  {
    hide ReachesEdge, CompletesChord, Step;
    if inputs != [] {
      StepSends(p, inputs[0]);
      HitsAreLocal(p, inputs[0]);
      PongsEchoPings(Next(p, inputs[0]), inputs[1..]);
      assert Outputs(p, inputs)[1..] == Outputs(Next(p, inputs[0]), inputs[1..]);
    }
  }

  /** After a run, a captured event frees the focus by the chord if and only if the session is
      forwarding and, for each of the three keys, the last action in everything captured up to
      and including this event was a press, or there was none and it was down at the start. */
  lemma ChordInStream(p: Peer, inputs: seq<Input>, i: Input)
    requires p.Valid() && LegalRun(p, inputs) && i.Captured?
    ensures var q, stream := Run(p, inputs), Consumed(inputs) + [i.head];
            Step(q, i).1.controls == [ReleaseFocus] <==>
              q.remote && forall k :: k in {29, 56, 1} ==>
                LastPressed(stream, KeyCode(k)) || (Untouched(stream, KeyCode(k)) && k in p.held.keys)
  {
    hide ReachesEdge, Step, LastPressed, Untouched;
    var q, stream := Run(p, inputs), Consumed(inputs) + [i.head];
    StepSends(q, i);
    HitsAreLocal(q, i);
    HeldIsStreamFold(p, inputs);
    ApplyAppend(p.held, Consumed(inputs), [i.head]);
    assert ApplyAll(q.held, [i.head]) == Apply(q.held, i.head) by {
      assert [i.head][1..] == [];
    }
    forall k: u32
      ensures Holds(Apply(q.held, i.head), KeyCode(k)) <==>
                LastPressed(stream, KeyCode(k)) || (Untouched(stream, KeyCode(k)) && k in p.held.keys)
    {
      LastActionWins(p.held, stream, KeyCode(k));
    }
  }

  // ---------------------------------------------------------------- the end of a session

  /** Cleanup takes the focus home and forgets what was held; the other machine is sent one frame
      of releases if and only if the session was forwarding and held something. */
  lemma CleanupEnds(p: Peer, releases: seq<InputEvent>)
    requires IsFlush(releases, p.held)
    ensures var (q, o) := OnCleanup(p, releases);
            && !q.remote && q.held.Nothing()
            && (o.flush != [] <==> p.remote && !p.held.Nothing())
            && (o.flush != [] ==> o.flush == [EventFrame(q.seqNo, releases)] && q.seqNo == NextSeq(p.seqNo))
            && (o.flush == [] ==> q.seqNo == p.seqNo)
            && o == QUIET.(flush := o.flush)
            && q == p.(remote := false, held := q.held, seqNo := q.seqNo)
  {
  }
}
