/** What the receiving machine holds down on behalf of the forwarding one. */
module HeldKeys {
  import opened Proto
  import opened Peer
  import opened EdgeReach

  const NONE := Held({}, {})

  /** One remote period over an in-order lossless path. `start` is what the sender tracked at
      its beginning; `frames` are all frames sent since, of which the receiver has taken the first
      `replayed`; `tracked[i]` is what the sender tracked when it sent frame i; `held` is what the
      receiver's emulator holds because of this sender. */
  datatype Link = Link(
    start: Held, sender: Peer, frames: seq<EventFrame>, tracked: seq<Held>,
    replayed: nat, receiver: Peer, held: Held)

  function Flatten(frames: seq<EventFrame>): seq<InputEvent> {
    if frames == [] then [] else frames[0].events + Flatten(frames[1..])
  }

  lemma {:induction false} FlattenAppend(xs: seq<EventFrame>, ys: seq<EventFrame>)
    ensures Flatten(xs + ys) == Flatten(xs) + Flatten(ys)
  {
    if xs == [] {
      assert xs + ys == ys;
    } else {
      assert (xs + ys)[1..] == xs[1..] + ys;
      FlattenAppend(xs[1..], ys);
    }
  }

  lemma FlattenOne(frame: EventFrame)
    ensures Flatten([frame]) == frame.events
  {
    assert [frame][1..] == [];
  }

  ghost predicate Paired(l: Link) {
    && l.sender.Valid() && l.receiver.Valid()
    && l.sender.remote && !l.receiver.remote
    && l.replayed <= |l.frames| == |l.tracked|
  }

  datatype LinkAction =
    | Send(input: Input)          // anything at the sender that leaves it forwarding
    | Replay(now: int)            // the receiver takes the next frame and stays local
    | Otherwise(receiver: Peer)   // anything else at the receiver that leaves it local

  ghost predicate Fits(l: Link, act: LinkAction) {
    Paired(l) &&
    match act
    case Send(input) => Legal(l.sender, input) && Next(l.sender, input).remote
    case Replay(now) =>
      l.replayed < |l.frames| && !Next(l.receiver, Datagram(l.frames[l.replayed], now)).remote
    case Otherwise(r) => r.Valid() && !r.remote && r.hasEmulator == l.receiver.hasEmulator
  }

  ghost function Happen(l: Link, act: LinkAction): Link
    requires Fits(l, act)
  {
    match act
    case Send(input) =>
      var (q, o) := Step(l.sender, input);
      var sent := o.data + o.flush;
      l.(sender := q, frames := l.frames + sent, tracked := l.tracked + if sent == [] then [] else [q.held])
    case Replay(now) =>
      var (q, o) := Step(l.receiver, Datagram(l.frames[l.replayed], now));
      l.(receiver := q, replayed := l.replayed + 1, held := ApplyAll(l.held, o.emulated))
    case Otherwise(r) => l.(receiver := r)
  }

  ghost predicate Unfolds(l: Link, acts: seq<LinkAction>, t: Link)
    decreases acts
  {
    if acts == [] then l == t
    else Fits(l, acts[0]) && Unfolds(Happen(l, acts[0]), acts[1..], t)
  }

  /** The start of a remote period: nothing sent yet, and nothing held for this sender. */
  ghost predicate Idle(l: Link) {
    && Paired(l) && l.start == l.sender.held
    && l.frames == [] && l.tracked == [] && l.replayed == 0 && l.held == NONE
  }

  /** Each record is the fold of the frames up to and including its own. */
  ghost predicate Recorded(start: Held, frames: seq<EventFrame>, tracked: seq<Held>) {
    && |frames| == |tracked|
    && forall i :: 0 <= i < |tracked| ==> tracked[i] == ApplyAll(start, Flatten(frames[..i + 1]))
  }

  lemma RecordOneMore(start: Held, frames: seq<EventFrame>, tracked: seq<Held>, frame: EventFrame, h: Held)
    requires Recorded(start, frames, tracked)
    requires h == ApplyAll(ApplyAll(start, Flatten(frames)), frame.events)
    ensures Recorded(start, frames + [frame], tracked + [h])
    ensures h == ApplyAll(start, Flatten(frames + [frame]))
  {
    FlattenAppend(frames, [frame]);
    FlattenOne(frame);
    ApplyAppend(start, Flatten(frames), frame.events);
    var more := frames + [frame];
    assert more[..|frames| + 1] == more;
    forall i | 0 <= i < |tracked|
      ensures tracked[i] == ApplyAll(start, Flatten(more[..i + 1]))
    {
      assert more[..i + 1] == frames[..i + 1];
    }
  }

  /** Both machines' sets as folds of the frames alone. */
  ghost predicate Exact(l: Link) {
    && Paired(l)
    && l.sender.held == ApplyAll(l.start, Flatten(l.frames))
    && Recorded(l.start, l.frames, l.tracked)
    && l.held == if l.receiver.hasEmulator then ApplyAll(NONE, Flatten(l.frames[..l.replayed])) else NONE
  }

  /** A step that keeps a session forwarding sends one batch or nothing, and tracks what it sends. */
  lemma ForwardingStep(p: Peer, i: Input)
    requires p.Valid() && p.remote && Legal(p, i) && Next(p, i).remote
    ensures var (q, o) := Step(p, i);
            var sent := o.data + o.flush;
            && |sent| <= 1
            && (sent == [] ==> q.held == p.held)
            && (sent != [] ==> q.held == ApplyAll(p.held, sent[0].events))
  {
    if i.Captured? {
      assert ([i.head] + i.drained)[1..] == i.drained;
    }
  }

  lemma SendKeepsExact(l: Link, input: Input)
    requires Exact(l) && Fits(l, Send(input))
    ensures Exact(Happen(l, Send(input)))
  {
    hide Step, Legal, Recorded;
    ForwardingStep(l.sender, input);
    var q, o := Next(l.sender, input), Step(l.sender, input).1;
    var sent := o.data + o.flush;
    var t := Happen(l, Send(input));
    assert t.frames[..l.replayed] == l.frames[..l.replayed];
    if sent == [] {
      assert t.frames == l.frames && t.tracked == l.tracked;
    } else {
      assert sent == [sent[0]];
      assert t.frames == l.frames + [sent[0]] && t.tracked == l.tracked + [q.held];
      RecordOneMore(l.start, l.frames, l.tracked, sent[0], q.held);
    }
  }

  lemma LocalReplay(b: Peer, frame: EventFrame, now: int)
    requires b.Valid() && !b.remote && !Next(b, Datagram(frame, now)).remote
    ensures Step(b, Datagram(frame, now)).1.emulated == if b.hasEmulator then frame.events else []
  {
  }

  lemma ReplayKeepsExact(l: Link, now: int)
    requires Exact(l) && Fits(l, Replay(now))
    ensures Exact(Happen(l, Replay(now)))
  {
    hide Step;
    var n, frame := l.replayed, l.frames[l.replayed];
    LocalReplay(l.receiver, frame, now);
    assert l.frames[..n + 1] == l.frames[..n] + [frame];
    FlattenAppend(l.frames[..n], [frame]);
    FlattenOne(frame);
    ApplyAppend(NONE, Flatten(l.frames[..n]), frame.events);
  }

  /** Throughout the period, whatever the two machines do, both sets are those folds. */
  lemma {:induction false} RunKeepsExact(l: Link, acts: seq<LinkAction>, t: Link)
    requires Exact(l) && Unfolds(l, acts, t)
    ensures Exact(t) && t.start == l.start && t.receiver.hasEmulator == l.receiver.hasEmulator
    decreases acts
  {
    hide Exact, Step;
    if acts != [] {
      match acts[0] {
        case Send(input) => SendKeepsExact(l, input);
        case Replay(now) => ReplayKeepsExact(l, now);
        case Otherwise(r) => OtherwiseKeepsExact(l, r);
      }
      RunKeepsExact(Happen(l, acts[0]), acts[1..], t);
    }
  }

  lemma OtherwiseKeepsExact(l: Link, r: Peer)
    requires Exact(l) && Fits(l, Otherwise(r))
    ensures Exact(Happen(l, Otherwise(r)))
  {
  }

  lemma PeriodIsExact(l: Link, acts: seq<LinkAction>, t: Link)
    requires Idle(l) && Unfolds(l, acts, t)
    ensures Exact(t) && t.start == l.sender.held && t.receiver.hasEmulator == l.receiver.hasEmulator
  {
    assert l.frames[..0] == [];
    RunKeepsExact(l, acts, t);
  }

  lemma {:induction false} ApplyMonotone(h: Held, k: Held, es: seq<InputEvent>)
    requires h.Within(k)
    ensures ApplyAll(h, es).Within(ApplyAll(k, es))
    decreases es
  {
    if es != [] {
      ApplyMonotone(Apply(h, es[0]), Apply(k, es[0]), es[1..]);
    }
  }

  /** What the sender tracked when it sent the last frame the receiver has taken. */
  function LastTracked(l: Link): Held
    requires l.replayed <= |l.tracked|
  {
    if l.replayed == 0 then l.start else l.tracked[l.replayed - 1]
  }

  /** What the receiver will hold once it has taken the frames still under way. */
  function Due(l: Link): Held
    requires l.replayed <= |l.frames|
  {
    if l.receiver.hasEmulator then ApplyAll(l.held, Flatten(l.frames[l.replayed..])) else l.held
  }

  lemma DueIsFold(l: Link)
    requires Exact(l)
    ensures Due(l) == if l.receiver.hasEmulator then ApplyAll(NONE, Flatten(l.frames)) else NONE
    ensures LastTracked(l) == ApplyAll(l.start, Flatten(l.frames[..l.replayed]))
  {
    var n := l.replayed;
    assert l.frames == l.frames[..n] + l.frames[n..];
    FlattenAppend(l.frames[..n], l.frames[n..]);
    ApplyAppend(NONE, Flatten(l.frames[..n]), Flatten(l.frames[n..]));
    assert n == 0 ==> Flatten(l.frames[..n]) == [];
  }

  /** At every moment of the period the receiver holds no more than the sender tracked when it
      sent the last frame taken, and once the frames under way are taken, no more than the
      sender tracks now. */
  lemma NoStuckKeys(l: Link, acts: seq<LinkAction>, t: Link)
    requires Idle(l) && Unfolds(l, acts, t)
    ensures Paired(t)
    ensures t.held.Within(LastTracked(t))
    ensures Due(t).Within(t.sender.held)
    ensures t.replayed == |t.frames| ==> t.held.Within(t.sender.held)
  {
    PeriodIsExact(l, acts, t);
    DueIsFold(t);
    ApplyMonotone(NONE, t.start, Flatten(t.frames[..t.replayed]));
    ApplyMonotone(NONE, t.start, Flatten(t.frames));
    if t.replayed == |t.frames| {
      assert t.frames[..t.replayed] == t.frames;
    }
  }

  /** If the sender held nothing when the period began, and the receiver has an emulator, these
      bounds are equalities. */
  lemma ReceiverMirrors(l: Link, acts: seq<LinkAction>, t: Link)
    requires Idle(l) && Unfolds(l, acts, t) && l.sender.held == NONE && l.receiver.hasEmulator
    ensures Paired(t) && t.held == LastTracked(t) && Due(t) == t.sender.held
  {
    PeriodIsExact(l, acts, t);
    DueIsFold(t);
  }

  // ---------------------------------------------------------------- how the period ends

  function Minus(h: Held, k: Held): Held {
    Held(h.keys - k.keys, h.buttons - k.buttons)
  }

  predicate IsRelease(e: InputEvent) {
    (e.Key? && e.kstate.Released?) || (e.Button? && e.bstate.Released?)
  }

  lemma {:induction false} ReleaseAll(h: Held, releases: seq<InputEvent>)
    requires forall e :: e in releases ==> IsRelease(e)
    ensures var r := ApplyAll(h, releases);
            && (forall k :: k in r.keys <==> k in h.keys && Key(k, KeyState.Released) !in releases)
            && (forall b :: b in r.buttons <==> b in h.buttons && Button(b, ButtonState.Released) !in releases)
    decreases releases
  {
    if releases != [] {
      assert releases[0] in releases;
      ReleaseAll(Apply(h, releases[0]), releases[1..]);
      assert forall e :: e in releases <==> e == releases[0] || e in releases[1..];
    }
  }

  /** A flush of `tracked` takes away exactly what was tracked. */
  lemma FlushSubtracts(h: Held, releases: seq<InputEvent>, tracked: Held)
    requires IsFlush(releases, tracked)
    ensures ApplyAll(h, releases) == Minus(h, tracked)
  {
    ReleaseAll(h, releases);
    var r := ApplyAll(h, releases);
    assert r.keys == h.keys - tracked.keys;
    assert r.buttons == h.buttons - tracked.buttons;
  }

  /** The event lets go of something the receiver holds. */
  predicate LetsGo(h: Held, e: InputEvent) {
    IsRelease(e) && if e.Key? then e.scancode in h.keys else e.button in h.buttons
  }

  lemma OnlyLettingGoLeaks(due: Held, held: Held, head: InputEvent)
    requires due.Within(held)
    ensures Minus(due, Apply(held, head)).Nothing() <==> !LetsGo(due, head)
  {
    if LetsGo(due, head) {
      if head.Key? {
        assert head.scancode in Minus(due, Apply(held, head)).keys;
      } else {
        assert head.button in Minus(due, Apply(held, head)).buttons;
      }
    }
  }

  /** What one flush frame does to a receiver. */
  lemma FlushFrame(due: Held, frame: EventFrame, tracked: Held)
    requires IsFlush(frame.events, tracked)
    ensures ApplyAll(due, Flatten([frame])) == Minus(due, tracked)
  {
    assert Flatten([frame]) == frame.events + [] == frame.events;
    FlushSubtracts(due, frame.events, tracked);
  }

  /** After an emergency release and once its flush has been taken, the receiver holds nothing
      for this sender, except in one case: the event that found the chord complete was itself a
      release, of something the receiver holds. That event is tracked but never sent. */
  lemma EmergencyFlushes(l: Link, acts: seq<LinkAction>, t: Link, input: Input)
    requires Idle(l) && Unfolds(l, acts, t)
    requires t.sender.Valid() && input.Captured? && Legal(t.sender, input) && Emergency(t.sender, input.head)
    ensures Paired(t)
    ensures var o := Step(t.sender, input).1;
            var left := ApplyAll(Due(t), Flatten(o.data + o.flush));
            && left == Minus(Due(t), Apply(t.sender.held, input.head))
            && (left.Nothing() <==> !LetsGo(Due(t), input.head))
  {
    hide IsFlush;
    NoStuckKeys(l, acts, t);
    var tracked := Apply(t.sender.held, input.head);
    ChordFlushIsNotEmpty(input.releases, tracked);
    var frame := EventFrame(NextSeq(t.sender.seqNo), input.releases);
    var o := Step(t.sender, input).1;
    assert o.data + o.flush == [frame];
    FlushFrame(Due(t), frame, tracked);
    OnlyLettingGoLeaks(Due(t), t.sender.held, input.head);
  }

  lemma ChordFlushIsNotEmpty(releases: seq<InputEvent>, tracked: Held)
    requires IsFlush(releases, tracked) && tracked.Chord()
    ensures releases != []
  {
    assert Key(EMERGENCY_HOTKEY_CTRL, KeyState.Released) in releases;
  }

  function Press(k: u32): InputEvent {
    Key(k, KeyState.Pressed)
  }

  function Release(k: u32): InputEvent {
    Key(k, KeyState.Released)
  }

  /** A key and the chord go down in one batch, so the chord is found complete only when the
      key comes up: a flush that misses the key. */
  function PressWithChord(k: u32): LinkAction {
    Send(Input.Captured(Press(k), [Press(EMERGENCY_HOTKEY_CTRL), Press(EMERGENCY_HOTKEY_ALT),
                                   Press(EMERGENCY_HOTKEY_ESC)], []))
  }

  lemma EmergencyStrandsKey(l: Link, k: u32, releases: seq<InputEvent>)
    requires Idle(l) && l.sender.held == NONE && !l.sender.receiveOnly && l.receiver.hasEmulator
    requires k !in {EMERGENCY_HOTKEY_CTRL, EMERGENCY_HOTKEY_ALT, EMERGENCY_HOTKEY_ESC}
    requires IsFlush(releases, Held({EMERGENCY_HOTKEY_CTRL, EMERGENCY_HOTKEY_ALT, EMERGENCY_HOTKEY_ESC}, {}))
    ensures Fits(l, PressWithChord(k))
    ensures var t := Happen(l, PressWithChord(k));
            var up := Input.Captured(Release(k), [], releases);
            && Paired(t) && Legal(t.sender, up) && Emergency(t.sender, up.head) && LetsGo(Due(t), up.head)
            && var o := Step(t.sender, up).1;
               ApplyAll(Due(t), Flatten(o.data + o.flush)) == Held({k}, {})
  {
    hide IsFlush;
    var input := PressWithChord(k).input;
    var chord := Held({EMERGENCY_HOTKEY_CTRL, EMERGENCY_HOTKEY_ALT, EMERGENCY_HOTKEY_ESC}, {});
    var down := Held(chord.keys + {k}, {});
    ApplyFour(NONE, [input.head] + input.drained);
    assert ([input.head] + input.drained)[1..] == input.drained;
    assert Next(l.sender, input).held == down;
    var t := Happen(l, PressWithChord(k));
    assert [PressWithChord(k)][1..] == [];
    assert Unfolds(l, [PressWithChord(k)], t);
    ReceiverMirrors(l, [PressWithChord(k)], t);
    assert Apply(down, Release(k)) == chord;
    assert Minus(down, chord).keys == {k};
    EmergencyFlushes(l, [PressWithChord(k)], t, Input.Captured(Release(k), [], releases));
  }

  lemma ApplyFour(h: Held, es: seq<InputEvent>)
    requires |es| == 4
    ensures ApplyAll(h, es) == Apply(Apply(Apply(Apply(h, es[0]), es[1]), es[2]), es[3])
  {
    assert es == es[..3] + [es[3]] && es[..3] == es[..2] + [es[2]] && es[..2] == [es[0]] + [es[1]];
    ApplyAppend(h, es[..3], [es[3]]);
    ApplyAppend(h, es[..2], [es[2]]);
    ApplyAppend(h, [es[0]], [es[1]]);
    ApplyOne(h, es[0]);
    ApplyOne(ApplyAll(h, [es[0]]), es[1]);
    ApplyOne(ApplyAll(h, es[..2]), es[2]);
    ApplyOne(ApplyAll(h, es[..3]), es[3]);
  }

  lemma ApplyOne(h: Held, e: InputEvent)
    ensures ApplyAll(h, [e]) == Apply(h, e)
  {
    assert [e][1..] == [];
  }

  /** Cleanup of a session that is forwarding leaves the receiver holding nothing. */
  lemma CleanupFlushes(l: Link, acts: seq<LinkAction>, t: Link, releases: seq<InputEvent>)
    requires Idle(l) && Unfolds(l, acts, t) && IsFlush(releases, t.sender.held)
    ensures Paired(t)
    ensures ApplyAll(Due(t), Flatten(OnCleanup(t.sender, releases).1.flush)).Nothing()
  {
    NoStuckKeys(l, acts, t);
    var o := OnCleanup(t.sender, releases).1;
    if releases != [] {
      FlushFrame(Due(t), o.flush[0], t.sender.held);
      assert o.flush == [o.flush[0]];
    } else {
      FlushSubtracts(Due(t), releases, t.sender.held);
    }
  }

  // ---------------------------------------------------------------- the ordinary hand-back

  predicate ForwardsNothing(p: Peer, i: Input)
    requires p.Valid()
  {
    Step(p, i).1.data == [] && Step(p, i).1.flush == []
  }

  lemma LocalForwardsNothing(p: Peer, i: Input)
    requires p.Valid() && !p.remote
    ensures ForwardsNothing(p, i)
  {
  }

  /** The step with which a receiver takes the focus back replays nothing, and while it has the
      focus elsewhere it replays none of the frames still under way. */
  lemma TakingFocusReplaysNothing(b: Peer, taking: Input, frame: EventFrame, now: int)
    requires b.Valid() && !b.remote && Next(b, taking).remote
    ensures var o := Step(b, taking).1; o.controls == [SWITCH] && o.emulated == []
    ensures Step(Next(b, taking), Datagram(frame, now)) == (Next(b, taking), QUIET)
  {
  }

  /** Hand-back by whatever step of the receiver: its focus message sends the sender home without
      a release, a sender at home forwards nothing, frames under way are dropped, and the receiver
      is left holding exactly what a replayed frame last pressed. If the sender held nothing when
      the period began, that is what it tracked when it sent the last frame replayed; so nothing
      is stranded if and only if it tracked nothing then. */
  lemma HandbackLeavesExactly(l: Link, acts: seq<LinkAction>, t: Link, taking: Input, cmd: ControlCommand, now: int)
    requires Idle(l) && Unfolds(l, acts, t) && l.receiver.hasEmulator
    requires t.receiver.Valid() && Next(t.receiver, taking).remote && IsFocus(cmd)
    ensures Paired(t)
    ensures var o := Step(t.receiver, taking).1; o.controls == [SWITCH] && ApplyAll(t.held, o.emulated) == t.held
    ensures forall frame, at :: Step(Next(t.receiver, taking), Datagram(frame, at)).1 == QUIET
    ensures var (home, o) := Step(t.sender, Control(cmd, now));
            !home.remote && o.data == o.flush == [] && forall i :: ForwardsNothing(home, i)
    ensures forall c :: Holds(t.held, c) <==> LastPressed(Flatten(t.frames[..t.replayed]), c)
    ensures l.sender.held == NONE ==> t.held == LastTracked(t)
    ensures l.sender.held == NONE ==> (t.held.Nothing() <==> LastTracked(t).Nothing())
  {
    PeriodIsExact(l, acts, t);
    if l.sender.held == NONE {
      ReceiverMirrors(l, acts, t);
    }
    forall frame, at
      ensures Step(Next(t.receiver, taking), Datagram(frame, at)).1 == QUIET
    {
      TakingFocusReplaysNothing(t.receiver, taking, frame, at);
    }
    TakingFocusReplaysNothing(t.receiver, taking, EventFrame(0, []), 0);
    var home := Next(t.sender, Control(cmd, now));
    forall i
      ensures ForwardsNothing(home, i)
    {
      LocalForwardsNothing(home, i);
    }
    forall c
      ensures Holds(t.held, c) <==> LastPressed(Flatten(t.frames[..t.replayed]), c)
    {
      LastActionWins(NONE, Flatten(t.frames[..t.replayed]), c);
    }
  }

  /** If instead every frame under way still gets replayed, the receiver ends with what the sender
      tracks at the hand-back: nothing if and only if the sender holds nothing then. */
  lemma HandbackAfterAllFrames(l: Link, acts: seq<LinkAction>, t: Link, cmd: ControlCommand, now: int)
    requires Idle(l) && Unfolds(l, acts, t) && l.receiver.hasEmulator && l.sender.held == NONE
    requires t.sender.Valid() && IsFocus(cmd)
    ensures Paired(t)
    ensures var o := Step(t.sender, Control(cmd, now)).1;
            var left := ApplyAll(Due(t), Flatten(o.data + o.flush));
            left == t.sender.held && (left.Nothing() <==> t.sender.held.Nothing())
  {
    ReceiverMirrors(l, acts, t);
    assert Flatten([]) == [];
  }

  lemma StartsWithPress(l: Link, k: u32, now: int)
    requires Idle(l) && l.sender.held == NONE && !l.sender.receiveOnly && l.receiver.hasEmulator
    ensures var press := Send(Input.Captured(Press(k), [], []));
            && Fits(l, press) && Fits(Happen(l, press), Replay(now))
            && var t := Happen(Happen(l, press), Replay(now));
               && Paired(t) && t.replayed == 1 && |t.frames| == 1
               && t.sender.held == t.held == Held({k}, {}) && !t.sender.receiveOnly
               && t.receiver == l.receiver
  {
    var input := Input.Captured(Press(k), [], []);
    var frame := EventFrame(NextSeq(l.sender.seqNo), [Press(k)]);
    assert [Press(k)] + [] == [Press(k)] && [Press(k)][1..] == [];
    assert Step(l.sender, input).1.data + Step(l.sender, input).1.flush == [frame];
    assert Walk(l.receiver, [Press(k)], InCooldown(l.receiver, now)) == Walked(l.receiver, false, 1);
    assert ApplyAll(NONE, [Press(k)]) == Held({k}, {});
  }

  /** The frame that carries the receiver's cursor to its edge. */
  lemma ThenPushes(t: Link, k: u32, now: int)
    requires Paired(t) && t.replayed == |t.frames| && t.sender.held == Held({k}, {}) && !t.sender.receiveOnly
    requires t.receiver.detector.HasFiringCell() && !InCooldown(t.receiver, now)
    ensures var push := Send(Input.Captured(PushFrame(t.receiver).events[0], [], []));
            && Fits(t, push)
            && var u := Happen(t, push);
               && u.replayed < |u.frames| && u.sender.held == t.sender.held && u.held == t.held
               && !u.sender.receiveOnly && u.sender.Valid() && u.receiver == t.receiver
               && Next(u.receiver, Datagram(u.frames[u.replayed], now)).remote
  {
    var head := PushFrame(t.receiver).events[0];
    var input := Input.Captured(head, [], []);
    var frame := EventFrame(NextSeq(t.sender.seqNo), [head]);
    assert [head] + [] == [head];
    assert Step(t.sender, input).1.data + Step(t.sender, input).1.flush == [frame];
    PushHits(t.receiver, frame);
  }

  /** A key goes down and is replayed, then the pointer moves to the receiver's edge. */
  function StrandingRun(l: Link, k: u32, now: int): seq<LinkAction>
    requires l.receiver.Valid() && l.receiver.detector.HasFiringCell()
  {
    [Send(Input.Captured(Press(k), [], [])), Replay(now),
     Send(Input.Captured(PushFrame(l.receiver).events[0], [], []))]
  }

  /** The next frame hands the focus back without replaying anything, the key then comes up at a
      sender that is local, tracks nothing any more and sends nothing, and the receiver holds it. */
  ghost predicate Strands(t: Link, k: u32, now: int) {
    && Paired(t) && t.replayed < |t.frames| && t.held == Held({k}, {})
    && (var taking := Datagram(t.frames[t.replayed], now);
        var o := Step(t.receiver, taking).1;
        Next(t.receiver, taking).remote && o.controls == [SWITCH] && o.emulated == [])
    && (var home := Next(t.sender, Control(SWITCH, now));
        var up := Input.Captured(Release(k), [], []);
        !home.remote && Legal(home, up) && Step(home, up).1 == QUIET && Next(home, up).held == NONE)
  }

  /** A whole run that strands a key, from any idle link whose receiver can hand the focus back. */
  lemma HandbackStrandsKey(l: Link, k: u32, now: int)
    requires Idle(l) && l.sender.held == NONE && !l.sender.receiveOnly
    requires l.receiver.hasEmulator && l.receiver.detector.HasFiringCell() && !InCooldown(l.receiver, now)
    ensures exists t :: Unfolds(l, StrandingRun(l, k, now), t) && Strands(t, k, now)
  {
    hide PushFrame, Walk, IsFlush;
    StartsWithPress(l, k, now);
    var acts := StrandingRun(l, k, now);
    var l1 := Happen(l, acts[0]);
    var l2 := Happen(l1, acts[1]);
    ThenPushes(l2, k, now);
    var t := Happen(l2, acts[2]);
    assert acts[1..] == [acts[1], acts[2]] && [acts[1], acts[2]][1..] == [acts[2]] && [acts[2]][1..] == [];
    assert Unfolds(l2, [acts[2]], t);
    assert Unfolds(l1, [acts[1], acts[2]], t);
    TakingFocusReplaysNothing(t.receiver, Datagram(t.frames[t.replayed], now), EventFrame(0, []), 0);
    assert Strands(t, k, now);
  }
}
