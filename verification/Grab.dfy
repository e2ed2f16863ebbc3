/** The capture thread's grab, driven by a latest-value watch channel. */
module Grab {
  import opened EdgeReach
  import opened Peer
  import opened Transitions

  /** `changed` is the receiver's unseen-version flag; `calls` logs the calls that succeeded,
      true for a grab. */
  datatype Watch = Watch(value: bool, changed: bool, grabbed: bool, calls: seq<bool>)

  const IDLE := Watch(false, false, false, [])

  function OnSend(w: Watch, v: bool): Watch {
    w.(value := v, changed := true)
  }

  /** One check of the channel before `next_event`; `fails` is whether a call made now fails. */
  function OnPoll(w: Watch, fails: bool): Watch {
    if !w.changed then w
    else
      var seen := w.(changed := false);
      if w.value == w.grabbed || fails then seen
      else seen.(grabbed := w.value, calls := w.calls + [w.value])
  }

  class CaptureThread {
    var watchValue: bool
    var watchChanged: bool
    var grabbed: bool
    var calls: seq<bool>

    function State(): Watch
      reads this
    {
      Watch(watchValue, watchChanged, grabbed, calls)
    }

    constructor ()
      ensures State() == IDLE
    {
      watchValue, watchChanged, grabbed, calls := false, false, false, [];
    }

    method Send(v: bool)
      modifies this
      ensures State() == OnSend(old(State()), v)
    {
      watchValue, watchChanged := v, true;
    }

    method Poll(fails: bool)
      modifies this
      ensures State() == OnPoll(old(State()), fails)
    {
      if watchChanged {
        var shouldGrab := watchValue;
        watchChanged := false;
        if shouldGrab && !grabbed {
          if !fails {
            grabbed, calls := true, calls + [true];
          }
        } else if !shouldGrab && grabbed {
          if !fails {
            grabbed, calls := false, calls + [false];
          }
        }
      }
    }
  }

  /** A session in its main loop with its capture thread. */
  datatype Action = Session(i: Input) | Poll(fails: bool)

  function Sends(w: Watch, vs: seq<bool>): Watch
    decreases vs
  {
    if vs == [] then w else Sends(OnSend(w, vs[0]), vs[1..])
  }

  ghost predicate MainLoop(p: Peer, act: Action) {
    act.Session? ==> Legal(p, act.i) && !act.i.CaptureClosed?
  }

  function Do(p: Peer, w: Watch, act: Action): (r: (Peer, Watch))
    requires p.Valid()
    ensures r.0.Valid()
  {
    match act
    case Session(i) => (Next(p, i), Sends(w, Step(p, i).1.grabs))
    case Poll(fails) => (p, OnPoll(w, fails))
  }

  ghost predicate Reaches(p: Peer, w: Watch, acts: seq<Action>, q: Peer, v: Watch)
    decreases acts
  {
    if acts == [] then p == q && w == v
    else
      && p.Valid() && MainLoop(p, acts[0])
      && var (p1, w1) := Do(p, w, acts[0]); Reaches(p1, w1, acts[1..], q, v)
  }

  /** The watch carries the focus flag, and the log alternates from a grab. */
  ghost predicate Inv(p: Peer, w: Watch) {
    && p.Valid() && !p.receiveOnly
    && p.remote == p.grab == w.value
    && (forall k :: 0 <= k < |w.calls| ==> w.calls[k] == (k % 2 == 0))
    && w.grabbed == (|w.calls| % 2 == 1)
  }

  /** In the main loop the focus flag changes only together with the grab request. */
  lemma GrabRequestFollows(p: Peer, i: Input)
    requires p.Valid() && !p.receiveOnly && Legal(p, i) && !i.CaptureClosed? && p.grab == p.remote
    ensures var q, gs := Next(p, i), Step(p, i).1.grabs;
            && !q.receiveOnly && q.grab == q.remote
            && (gs == [] ==> q.remote == p.remote)
            && (gs != [] ==> gs == [q.remote])
  {
  }

  lemma DoKeepsInv(p: Peer, w: Watch, act: Action)
    requires Inv(p, w) && MainLoop(p, act)
    ensures Inv(Do(p, w, act).0, Do(p, w, act).1)
  {
    hide Step, Legal;
    if act.Session? {
      GrabRequestFollows(p, act.i);
      var gs := Step(p, act.i).1.grabs;
      if gs != [] {
        assert gs[1..] == [];
        assert Sends(w, gs) == OnSend(w, gs[0]);
      }
    }
  }

  lemma {:induction false} RunKeepsInv(p: Peer, w: Watch, acts: seq<Action>, q: Peer, v: Watch)
    requires Inv(p, w) && Reaches(p, w, acts, q, v)
    ensures Inv(q, v)
    decreases acts
  {
    if acts != [] {
      DoKeepsInv(p, w, acts[0]);
      var (p1, w1) := Do(p, w, acts[0]);
      RunKeepsInv(p1, w1, acts[1..], q, v);
    }
  }

  /** In every interleaving of session steps and polls, failing or not, the watch value is the
      focus flag, and successful calls strictly alternate, starting with a grab. */
  lemma GrabAlternates(p: Peer, acts: seq<Action>, q: Peer, v: Watch)
    requires p.Valid() && Fresh(p) && Reaches(p, IDLE, acts, q, v)
    ensures v.value == q.remote
    ensures forall k :: 0 <= k < |v.calls| ==> v.calls[k] == (k % 2 == 0)
    ensures v.grabbed == (|v.calls| % 2 == 1)
  {
    RunKeepsInv(p, IDLE, acts, q, v);
  }

  predicate NoFailures(acts: seq<Action>) {
    forall i :: 0 <= i < |acts| ==> !(acts[i].Poll? && acts[i].fails)
  }

  /** Nothing unseen means nothing left to do. */
  predicate Settled(w: Watch) {
    !w.changed ==> w.grabbed == w.value
  }

  lemma {:induction false} SendsMarkChange(w: Watch, vs: seq<bool>)
    ensures vs != [] ==> Sends(w, vs).changed
    decreases vs
  {
    if |vs| > 1 {
      SendsMarkChange(OnSend(w, vs[0]), vs[1..]);
    } else if |vs| == 1 {
      assert vs[1..] == [];
    }
  }

  lemma {:induction false} StaysSettled(p: Peer, w: Watch, acts: seq<Action>, q: Peer, v: Watch)
    requires Settled(w) && NoFailures(acts) && Reaches(p, w, acts, q, v)
    ensures Settled(v)
    decreases acts
  {
    if acts != [] {
      var (p1, w1) := Do(p, w, acts[0]);
      if acts[0].Session? {
        SendsMarkChange(w, Step(p, acts[0].i).1.grabs);
      }
      StaysSettled(p1, w1, acts[1..], q, v);
    }
  }

  /** If no call fails, one poll after any run brings the grab in line with the focus. */
  lemma GrabFollowsFocus(p: Peer, acts: seq<Action>, q: Peer, v: Watch)
    requires p.Valid() && Fresh(p) && NoFailures(acts) && Reaches(p, IDLE, acts, q, v)
    ensures OnPoll(v, false).grabbed == q.remote
  {
    GrabAlternates(p, acts, q, v);
    StaysSettled(p, IDLE, acts, q, v);
  }

  /** After any run, failures included, one good poll brings the grab in line with the focus if
      and only if a request is still unseen or the grab is in line already. */
  lemma PollSettlesIff(p: Peer, acts: seq<Action>, q: Peer, v: Watch)
    requires p.Valid() && Fresh(p) && Reaches(p, IDLE, acts, q, v)
    ensures OnPoll(v, false).grabbed == q.remote <==> v.changed || v.grabbed == q.remote
  {
    GrabAlternates(p, acts, q, v);
  }

  /** The focus goes out, or something brings it home: a message may do so again and again. */
  ghost predicate MovesFocus(p: Peer, i: Input)
    requires p.Valid()
  {
    ReachesEdge(p, i) || CompletesChord(p, i) || GivesFocus(i)
  }

  /** Something moved the focus since the last poll. */
  ghost predicate MovedSincePoll(p: Peer, acts: seq<Action>, before: bool)
    requires p.Valid()
    decreases acts
  {
    if acts == [] then before
    else if acts[0].Poll? then MovedSincePoll(p, acts[1..], false)
    else MovedSincePoll(Next(p, acts[0].i), acts[1..], before || MovesFocus(p, acts[0].i))
  }

  /** So a call that failed is made again exactly if something has moved the focus since: a
      repeated focus message counts, though it changes nothing else. */
  lemma {:induction false} UnseenIffMoved(p: Peer, w: Watch, acts: seq<Action>, q: Peer, v: Watch)
    requires p.Valid() && !p.receiveOnly && Reaches(p, w, acts, q, v)
    ensures v.changed <==> MovedSincePoll(p, acts, w.changed)
    decreases acts
  {
    hide Step, ReachesEdge, CompletesChord;
    if acts != [] {
      var (p1, w1) := Do(p, w, acts[0]);
      if acts[0].Session? {
        GrabAskedIff(p, acts[0].i);
        RestFollows(p, acts[0].i);
        var gs := Step(p, acts[0].i).1.grabs;
        assert w1.changed <==> w.changed || gs != [] by {
          SendsMarkChange(w, gs);
        }
      }
      UnseenIffMoved(p1, w1, acts[1..], q, v);
    }
  }

  predicate PollsOnly(acts: seq<Action>) {
    forall i :: 0 <= i < |acts| ==> acts[i].Poll?
  }

  /** With nothing unseen, any number of polls is possible and changes nothing. */
  lemma {:induction false} PollsChangeNothing(p: Peer, w: Watch, polls: seq<Action>)
    requires p.Valid() && !w.changed && PollsOnly(polls)
    ensures Reaches(p, w, polls, p, w)
    decreases polls
  {
    if polls != [] {
      PollsChangeNothing(p, w, polls[1..]);
    }
  }

  function FailedGrab(p: Peer): seq<Action>
    requires p.Valid() && p.detector.HasFiringCell()
  {
    [Session(MoveTo(p, p.detector.FiringCell())), Poll(true)]
  }

  /** A failed call is not tried again: the pointer crosses the edge, the grab fails once, and
      however many polls follow, the devices stay ungrabbed while their input is forwarded. */
  lemma FailedGrabIsNotRetried(p: Peer, polls: seq<Action>)
    requires p.Valid() && Fresh(p) && p.detector.HasFiringCell() && PollsOnly(polls)
    ensures var q := Next(p, MoveTo(p, p.detector.FiringCell()));
            q.remote && Reaches(p, IDLE, FailedGrab(p) + polls, q, Watch(true, false, false, []))
  {
    OneMoveReaches(p);
    var acts := FailedGrab(p) + polls;
    var i, q := acts[0].i, Next(p, acts[0].i);
    var w1 := OnSend(IDLE, true);
    GrabRequestFollows(p, i);
    assert Step(p, i).1.grabs == [true] && [true][1..] == [];
    assert Do(p, IDLE, acts[0]) == (q, w1);
    assert acts[1..] == [Poll(true)] + polls && ([Poll(true)] + polls)[1..] == polls;
    PollsChangeNothing(q, OnPoll(w1, true), polls);
    assert Reaches(q, w1, acts[1..], q, OnPoll(w1, true));
  }
}
