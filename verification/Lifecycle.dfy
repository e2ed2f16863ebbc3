/** The daemon state that all sessions and connection attempts share. */
module Lifecycle {
  import opened Proto
  import opened Peer

  datatype ConnectionState =
    | Disconnected | Discovering | Pairing | Connected | Active | Suspended | Reconnecting
  {
    predicate CanTransitionTo(next: ConnectionState) {
      match this
      case Disconnected => next.Discovering? || next.Active?
      case Discovering => next.Pairing? || next.Connected?
      case Pairing => next.Connected?
      case Connected => next.Active? || next.Disconnected?
      case Active => next.Suspended? || next.Disconnected? || next.Reconnecting?
      case Suspended => next.Reconnecting?
      case Reconnecting => next.Active? || next.Disconnected?
    }

    predicate IsConnected() {
      Connected? || Active? || Suspended? || Reconnecting?
    }

    /** A refused transition is reported to callers that ignore it, and changes nothing. */
    function After(next: ConnectionState): ConnectionState {
      if CanTransitionTo(next) then next else this
    }
  }

  datatype Shared = Shared(
    connection: ConnectionState,
    remoteScreen: Option<Screen>,
    focusIsRemote: bool,
    held: Held)

  const IDLE := Shared(Disconnected, None, false, Held({}, {}))

  function OnEstablished(s: Shared, screen: Screen): Shared {
    s.(remoteScreen := Some(screen), connection := s.connection.After(Active))
  }

  function OnEnded(s: Shared): Shared {
    Shared(s.connection.After(Disconnected), None, false, Held({}, {}))
  }

  function OnRetry(s: Shared): Shared {
    s.(connection := s.connection.After(Reconnecting))
  }

  class DaemonState {
    var connectionState: ConnectionState
    var remoteScreen: Option<Screen>
    var focusIsRemote: bool
    var pressedKeys: set<u32>
    var pressedButtons: set<MouseButton>

    function State(): Shared
      reads this
    {
      Shared(connectionState, remoteScreen, focusIsRemote, Held(pressedKeys, pressedButtons))
    }

    constructor ()
      ensures State() == IDLE
    {
      connectionState, remoteScreen, focusIsRemote := Disconnected, None, false;
      pressedKeys, pressedButtons := {}, {};
    }

    method TransitionTo(next: ConnectionState) returns (ok: bool)
      modifies this`connectionState
      ensures ok == old(connectionState).CanTransitionTo(next)
      ensures connectionState == if ok then next else old(connectionState)
    {
      ok := connectionState.CanTransitionTo(next);
      if ok {
        connectionState := next;
      }
    }

    method HandshakeComplete(screen: Screen)
      modifies this
      ensures State() == OnEstablished(old(State()), screen)
    {
      remoteScreen := Some(screen);
      var _ := TransitionTo(Active);
    }

    method Cleanup()
      modifies this
      ensures State() == OnEnded(old(State()))
    {
      var _ := TransitionTo(Disconnected);
      remoteScreen, focusIsRemote := None, false;
      pressedKeys, pressedButtons := {}, {};
    }

    method AttemptFailed()
      modifies this
      ensures State() == OnRetry(old(State()))
    {
      var _ := TransitionTo(Reconnecting);
    }
  }

  // ---------------------------------------------------------------- runs of many sessions

  /** `Works` is anything a session's loop does to the focus and the tracked keys. */
  datatype Action =
    | Establish(id: nat, screen: Screen)
    | Works(id: nat, remote: bool, held: Held)
    | End(id: nat)
    | Retry

  function Live(acts: seq<Action>): set<nat> {
    if acts == [] then {}
    else
      var before, last := Live(acts[..|acts| - 1]), acts[|acts| - 1];
      match last
      case Establish(id, _) => before + {id}
      case End(id) => before - {id}
      case _ => before
  }

  function After(acts: seq<Action>): Shared {
    if acts == [] then IDLE
    else
      var s := After(acts[..|acts| - 1]);
      match acts[|acts| - 1]
      case Establish(_, screen) => OnEstablished(s, screen)
      case Works(_, remote, held) => s.(focusIsRemote := remote, held := held)
      case End(_) => OnEnded(s)
      case Retry => OnRetry(s)
  }

  /** Only established sessions work or end; failed handshakes touch nothing. */
  predicate Legal(acts: seq<Action>) {
    acts == [] ||
    var before, last := acts[..|acts| - 1], acts[|acts| - 1];
    && Legal(before)
    && (last.Establish? ==> last.id !in Live(before))
    && (last.Works? || last.End? ==> last.id in Live(before))
  }

  predicate NeverOverlaps(acts: seq<Action>) {
    acts == [] ||
    var before, last := acts[..|acts| - 1], acts[|acts| - 1];
    NeverOverlaps(before) && (last.Establish? ==> Live(before) == {})
  }

  /** The last session to come or go came. */
  predicate LastCame(acts: seq<Action>) {
    acts != [] &&
    var last := acts[|acts| - 1];
    last.Establish? || (!last.End? && LastCame(acts[..|acts| - 1]))
  }

  /** For any number of overlapping sessions and retries: the state is one of three; with no
      session established everything is back to idle; and the daemon reports a connection, and
      knows the remote screen, exactly when the last session to come or go came. */
  lemma {:induction false} Lifecycle(acts: seq<Action>)
    requires Legal(acts)
    ensures var s := After(acts);
            && (s.connection.Disconnected? || s.connection.Active? || s.connection.Reconnecting?)
            && (Live(acts) == {} ==> s == IDLE)
            && (s.connection.IsConnected() <==> LastCame(acts))
            && (s.remoteScreen.Some? <==> LastCame(acts))
    decreases |acts|
  {
    if acts != [] {
      var before, last := acts[..|acts| - 1], acts[|acts| - 1];
      Lifecycle(before);
      if last.Establish? {
        assert last.id in Live(acts);
      } else if last.Works? {
        assert last.id in Live(acts);
      }
    }
  }

  /** The last session to come or go, or attempt to fail, was one that came. */
  predicate LastUp(acts: seq<Action>) {
    acts != [] &&
    var last := acts[|acts| - 1];
    last.Establish? || (last.Works? && LastUp(acts[..|acts| - 1]))
  }

  /** The screen of the last session to come, if none has gone since. */
  function LastScreen(acts: seq<Action>): Option<Screen> {
    if acts == [] then None
    else
      var last := acts[|acts| - 1];
      if last.Establish? then Some(last.screen)
      else if last.End? then None
      else LastScreen(acts[..|acts| - 1])
  }

  /** What a session's loop last did, if no session has gone since. */
  function LastWork(acts: seq<Action>): (bool, Held) {
    if acts == [] then (false, Held({}, {}))
    else
      var last := acts[|acts| - 1];
      if last.Works? then (last.remote, last.held)
      else if last.End? then (false, Held({}, {}))
      else LastWork(acts[..|acts| - 1])
  }

  /** The whole shared state after any run: Active exactly if a session came since the last one
      went or an attempt last failed; Reconnecting exactly if an attempt failed since a session
      came and none has gone; the screen of the last session to come; and the focus and the
      tracked keys as last worked, which another session's handshake leaves alone. */
  lemma {:induction false} SharedStateIs(acts: seq<Action>)
    requires Legal(acts)
    ensures var s := After(acts);
            && (s.connection.Active? <==> LastUp(acts))
            && (s.connection.Reconnecting? <==> LastCame(acts) && !LastUp(acts))
            && s.remoteScreen == LastScreen(acts)
            && (s.focusIsRemote, s.held) == LastWork(acts)
    decreases |acts|
  {
    if acts != [] {
      SharedStateIs(acts[..|acts| - 1]);
      Lifecycle(acts[..|acts| - 1]);
    }
  }

  // ---------------------------------------------------------------- the table of transitions

  ghost predicate Path(states: seq<ConnectionState>) {
    && states != [] && states[0] == Disconnected
    && forall k :: 0 < k < |states| ==> states[k - 1].CanTransitionTo(states[k])
  }

  /** Connected or active, and not disconnected since. */
  predicate UpSince(states: seq<ConnectionState>) {
    states != [] &&
    var last := states[|states| - 1];
    last.Connected? || last.Active? || (!last.Disconnected? && UpSince(states[..|states| - 1]))
  }

  /** Along any path of allowed transitions the daemon counts as connected exactly if a session
      came up since it was last disconnected. */
  lemma {:induction false} ConnectedIffUpSince(states: seq<ConnectionState>)
    requires Path(states)
    ensures states[|states| - 1].IsConnected() <==> UpSince(states)
    decreases |states|
  {
    var n := |states| - 1;
    if n > 0 {
      ConnectedIffUpSince(states[..n]);
      assert states[n - 1].CanTransitionTo(states[n]);
    }
  }

  /** Where each state can be entered from. So discovery and pairing happen only before a session
      is up, suspension only from an active one, and no transition leaves a state as it is. */
  lemma Predecessors(from: ConnectionState)
    ensures from.CanTransitionTo(Discovering) <==> from.Disconnected?
    ensures from.CanTransitionTo(Pairing) <==> from.Discovering?
    ensures from.CanTransitionTo(Connected) <==> from.Discovering? || from.Pairing?
    ensures from.CanTransitionTo(Active) <==> from.Connected? || from.Reconnecting? || from.Disconnected?
    ensures from.CanTransitionTo(Suspended) <==> from.Active?
    ensures from.CanTransitionTo(Reconnecting) <==> from.Active? || from.Suspended?
    ensures from.CanTransitionTo(Disconnected) <==> from.Connected? || from.Active? || from.Reconnecting?
  {
  }

  /** If sessions never overlap there is at most one, and it came last. */
  lemma {:induction false} AloneMeansLast(acts: seq<Action>)
    requires Legal(acts) && NeverOverlaps(acts)
    ensures forall i, j :: i in Live(acts) && j in Live(acts) ==> i == j
    ensures Live(acts) != {} <==> LastCame(acts)
    decreases |acts|
  {
    if acts != [] {
      var before, last := acts[..|acts| - 1], acts[|acts| - 1];
      AloneMeansLast(before);
      if last.End? {
        assert Live(acts) == {};
      } else if last.Establish? {
        assert last.id in Live(acts);
      }
    }
  }

  lemma NonOverlappingIsExact(acts: seq<Action>)
    requires Legal(acts) && NeverOverlaps(acts)
    ensures Live(acts) != {} <==> After(acts).connection.IsConnected()
    ensures Live(acts) != {} <==> After(acts).remoteScreen.Some?
  {
    Lifecycle(acts);
    AloneMeansLast(acts);
  }

  /** Two overlapping sessions: the first to end disconnects the daemon, takes the focus back
      and forgets the held keys while the second is still established. */
  lemma OverlapBreaksReport(screen: Screen, held: Held)
    ensures var acts := [Establish(1, screen), Establish(2, screen), Works(2, true, held), End(1)];
            Legal(acts) && 2 in Live(acts) && After(acts) == IDLE
  {
    var a1 := [Establish(1, screen)];
    var a2 := a1 + [Establish(2, screen)];
    var a3 := a2 + [Works(2, true, held)];
    var a4 := a3 + [End(1)];
    assert a1[..0] == [] && a2[..1] == a1 && a3[..2] == a2 && a4[..3] == a3;
    assert Live(a1) == {1};
    assert Live(a2) == {1, 2} && Live(a3) == {1, 2};
    assert Legal(a1);
    assert Legal(a2) && Legal(a3) && Legal(a4);
    assert After(a1) == Shared(Active, Some(screen), false, Held({}, {}));
    assert After(a3) == Shared(Active, Some(screen), true, held);
    assert a4 == [Establish(1, screen), Establish(2, screen), Works(2, true, held), End(1)];
  }
}
