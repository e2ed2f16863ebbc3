/** The table of announced peers: receipt, refresh and timed expiry. */
module Discovery {
  import opened Proto

  /** Milliseconds. */
  const PEER_TTL := 10_000

  datatype Addr = Addr(ip: nat, port: u16)
  /** The source keys the table by the text "hostname:port". */
  datatype PeerKey = PeerKey(hostname: string, port: u16)
  datatype DiscoveredPeer = DiscoveredPeer(addr: Addr, fingerprint: string, lastSeen: int)
  datatype Announce = Announce(hostname: string, port: u16, fingerprint: string)

  type Table = map<PeerKey, DiscoveredPeer>

  function KeyOf(a: Announce): PeerKey {
    PeerKey(a.hostname, a.port)
  }

  /** A first announce inserts and notifies; a repeated one refreshes time and address only. */
  function OnAnnounce(t: Table, me: string, ip: nat, a: Announce, now: int): (Table, Option<Addr>) {
    var k, addr := KeyOf(a), Addr(ip, a.port);
    if a.hostname == me then (t, None)
    else if k !in t then (t[k := DiscoveredPeer(addr, a.fingerprint, now)], Some(addr))
    else (t[k := t[k].(lastSeen := now, addr := addr)], None)
  }

  function OnSweep(t: Table, now: int): Table {
    map k | k in t && now - t[k].lastSeen < PEER_TTL :: t[k]
  }

  class DiscoveryTable {
    const myHostname: string
    var peers: Table
    var notified: seq<Addr>

    constructor (hostname: string)
      ensures myHostname == hostname && peers == map[] && notified == []
    {
      myHostname, peers, notified := hostname, map[], [];
    }

    method Receive(ip: nat, a: Announce, now: int)
      modifies this
      ensures var (t, n) := OnAnnounce(old(peers), myHostname, ip, a, now);
              peers == t && notified == old(notified) + if n.Some? then [n.value] else []
    {
      if a.hostname == myHostname {
        return;
      }
      var addr, key := Addr(ip, a.port), PeerKey(a.hostname, a.port);
      var alreadyKnown := key in peers;
      if !alreadyKnown {
        peers := peers[key := DiscoveredPeer(addr, a.fingerprint, now)];
        notified := notified + [addr];
      } else {
        peers := peers[key := peers[key].(lastSeen := now, addr := addr)];
      }
    }

    method Sweep(now: int)
      modifies this`peers
      ensures peers == OnSweep(old(peers), now)
    {
      var kept: Table := map[];
      var rest := peers.Keys;
      while rest != {}
        invariant rest <= peers.Keys
        invariant kept == map k | k in peers && k !in rest && now - peers[k].lastSeen < PEER_TTL :: peers[k]
        decreases rest
      {
        var k :| k in rest;
        if now - peers[k].lastSeen < PEER_TTL {
          kept := kept[k := peers[k]];
        }
        rest := rest - {k};
      }
      peers := kept;
    }
  }

  // ---------------------------------------------------------------- timed runs

  /** A key's latest announce, and the fingerprint of the one that was last notified. */
  datatype Latest = Latest(at: int, addr: Addr, fingerprint: string)

  /** `heard` knows every other machine ever heard. */
  datatype State = State(table: Table, me: string, now: int, swept: int, heard: map<PeerKey, Latest>)

  datatype Action = Heard(ip: nat, a: Announce, at: int) | Sweep

  function Begin(me: string, start: int): State {
    State(map[], me, start, start, map[])
  }

  /** Time does not run backwards, and sweeps come every PEER_TTL. A machine hears its own
      broadcasts too. */
  predicate Allowed(s: State, act: Action) {
    act.Heard? ==> s.now <= act.at <= s.swept + PEER_TTL
  }

  function Record(s: State, ip: nat, a: Announce, at: int): map<PeerKey, Latest> {
    var k := KeyOf(a);
    if a.hostname == s.me then s.heard
    else
      var again := k in s.heard && OnAnnounce(s.table, s.me, ip, a, at).1.None?;
      s.heard[k := Latest(at, Addr(ip, a.port), if again then s.heard[k].fingerprint else a.fingerprint)]
  }

  function Do(s: State, act: Action): State {
    match act
    case Heard(ip, a, at) =>
      s.(table := OnAnnounce(s.table, s.me, ip, a, at).0, now := at, heard := Record(s, ip, a, at))
    case Sweep =>
      var at := s.swept + PEER_TTL;
      s.(table := OnSweep(s.table, at), now := at, swept := at)
  }

  ghost predicate Reaches(s: State, acts: seq<Action>, t: State)
    decreases acts
  {
    if acts == [] then s == t
    else Allowed(s, acts[0]) && Reaches(Do(s, acts[0]), acts[1..], t)
  }

  ghost predicate Inv(s: State) {
    && s.swept <= s.now <= s.swept + PEER_TTL
    && (forall k :: k in s.heard ==> k.hostname != s.me)
    && (forall k :: k in s.table ==> k in s.heard && s.table[k] == Entry(s.heard[k]))
    && (forall k :: k in s.table ==> s.heard[k].at > s.swept - PEER_TTL)
    && (forall k :: k in s.heard && k !in s.table ==> s.now - s.heard[k].at >= PEER_TTL)
  }

  function Entry(l: Latest): DiscoveredPeer {
    DiscoveredPeer(l.addr, l.fingerprint, l.at)
  }

  lemma DoKeepsInv(s: State, act: Action)
    requires Inv(s) && Allowed(s, act)
    ensures Inv(Do(s, act)) && Do(s, act).me == s.me
  {
  }

  lemma {:induction false} RunKeepsInv(s: State, acts: seq<Action>, t: State)
    requires Inv(s) && Reaches(s, acts, t)
    ensures Inv(t) && t.me == s.me
    decreases acts
  {
    hide Do, Inv;
    if acts != [] {
      DoKeepsInv(s, acts[0]);
      RunKeepsInv(Do(s, acts[0]), acts[1..], t);
    }
  }

  /** At any moment up to the next sweep, a key heard within one PEER_TTL is in the table, and
      a key in the table was heard within two. */
  lemma TableTiming(me: string, start: int, acts: seq<Action>, s: State, k: PeerKey, at: int)
    requires Reaches(Begin(me, start), acts, s) && s.now <= at <= s.swept + PEER_TTL
    ensures k in s.table ==> k in s.heard && at - s.heard[k].at < 2 * PEER_TTL
    ensures k in s.heard && s.now - s.heard[k].at < PEER_TTL ==> k in s.table
  {
    RunKeepsInv(Begin(me, start), acts, s);
  }

  /** A sweep expires exactly the keys whose latest announce is a whole PEER_TTL old. */
  lemma SweepExpiresIff(me: string, start: int, acts: seq<Action>, s: State, k: PeerKey)
    requires Reaches(Begin(me, start), acts, s) && k in s.table
    ensures k in s.heard && (k !in Do(s, Sweep).table <==> s.swept + PEER_TTL - s.heard[k].at >= PEER_TTL)
  {
    RunKeepsInv(Begin(me, start), acts, s);
  }

  /** An announce notifies, if at all, the address it came from and the port it names. Of a key
      already heard it notifies only after a gap of at least one PEER_TTL, and always after a gap
      of two; the first announce of another machine's key always notifies. */
  lemma NotifyGap(me: string, start: int, acts: seq<Action>, s: State, ip: nat, a: Announce, at: int)
    requires Reaches(Begin(me, start), acts, s) && Allowed(s, Heard(ip, a, at))
    ensures var n := OnAnnounce(s.table, s.me, ip, a, at).1;
            && (n.Some? ==> n.value == Addr(ip, a.port))
            && (KeyOf(a) !in s.heard && a.hostname != me ==> n.Some?)
            && (KeyOf(a) in s.heard && n.Some? ==> at - s.heard[KeyOf(a)].at >= PEER_TTL)
            && (KeyOf(a) in s.heard && at - s.heard[KeyOf(a)].at >= 2 * PEER_TTL ==> n.Some?)
  {
    RunKeepsInv(Begin(me, start), acts, s);
  }

  /** In every run a machine that hears its own broadcasts is never in its own table, and they
      change and notify nothing. */
  lemma NeverSelf(me: string, start: int, acts: seq<Action>, s: State, ip: nat, a: Announce, at: int)
    requires Reaches(Begin(me, start), acts, s)
    ensures forall k :: k in s.table ==> k.hostname != me
    ensures s.me == me && (a.hostname == me ==> forall t :: OnAnnounce(t, me, ip, a, at) == (t, None))
  {
    RunKeepsInv(Begin(me, start), acts, s);
  }

  /** An entry holds the address and the time of its key's latest announce, but the fingerprint
      of the one that was last notified: a refresh does not replace it. */
  lemma EntriesAreLatest(me: string, start: int, acts: seq<Action>, s: State, k: PeerKey)
    requires Reaches(Begin(me, start), acts, s) && k in s.table
    ensures k in s.heard && s.table[k] == Entry(s.heard[k])
  {
    RunKeepsInv(Begin(me, start), acts, s);
  }

  /** The key is in the table all along. */
  ghost predicate StaysIn(s: State, acts: seq<Action>, k: PeerKey)
    decreases acts
  {
    k in s.table && (acts != [] ==> StaysIn(Do(s, acts[0]), acts[1..], k))
  }

  /** At every sweep, the key has announced itself since the sweep before. */
  ghost predicate HeardBySweeps(s: State, acts: seq<Action>, k: PeerKey)
    decreases acts
  {
    acts != [] ==>
      && (acts[0].Sweep? ==> k in s.heard && s.heard[k].at > s.swept)
      && HeardBySweeps(Do(s, acts[0]), acts[1..], k)
  }

  predicate Announces(act: Action, k: PeerKey) {
    act.Heard? && KeyOf(act.a) == k
  }

  lemma StaysOneStep(s: State, act: Action, k: PeerKey)
    requires Inv(s) && Allowed(s, act) && k in s.table
    ensures k in Do(s, act).table <==> (act.Sweep? ==> k in s.heard && s.heard[k].at > s.swept)
    ensures Announces(act, k) ==> OnAnnounce(s.table, s.me, act.ip, act.a, act.at).1.None?
  {
  }

  /** A peer in the table is never dropped, exactly when it announces itself between any two
      sweeps, and then it is not notified again. */
  lemma {:induction false} StaysInIff(s: State, acts: seq<Action>, t: State, k: PeerKey)
    requires Inv(s) && Reaches(s, acts, t) && k in s.table
    ensures StaysIn(s, acts, k) <==> HeardBySweeps(s, acts, k)
    ensures StaysIn(s, acts, k) ==>
              forall i :: 0 <= i < |acts| && Announces(acts[i], k) ==> !Notifies(s, acts, i)
    decreases acts
  {
    hide Do, Inv, OnAnnounce;
    if acts != [] {
      StaysOneStep(s, acts[0], k);
      DoKeepsInv(s, acts[0]);
    }
    if acts != [] && k in Do(s, acts[0]).table {
      StaysInIff(Do(s, acts[0]), acts[1..], t, k);
      forall i | 0 < i < |acts| && Announces(acts[i], k)
        ensures StaysIn(s, acts, k) ==> !Notifies(s, acts, i)
      {
        assert acts[1..][i - 1] == acts[i];
      }
    }
  }

  /** Less than PEER_TTL passes between any two announces of the key, and after the last. */
  ghost predicate ShortGaps(s: State, acts: seq<Action>, k: PeerKey)
    requires k in s.heard
    decreases acts
  {
    if acts == [] then s.now - s.heard[k].at < PEER_TTL
    else
      && (Announces(acts[0], k) ==> acts[0].at - s.heard[k].at < PEER_TTL)
      && ShortGaps(Do(s, acts[0]), acts[1..], k)
  }

  lemma {:induction false} ShortGapsNow(s: State, acts: seq<Action>, t: State, k: PeerKey)
    requires Inv(s) && Reaches(s, acts, t) && k in s.heard && ShortGaps(s, acts, k)
    ensures s.now - s.heard[k].at < PEER_TTL
    ensures HeardBySweeps(s, acts, k)
    decreases acts
  {
    if acts != [] {
      ShortGapsNow(Do(s, acts[0]), acts[1..], t, k);
    }
  }

  /** A peer whose announces follow each other in less than PEER_TTL is in the table from the
      first to the last, and is notified once. */
  lemma AnnouncerStays(s: State, acts: seq<Action>, t: State, k: PeerKey)
    requires Inv(s) && Reaches(s, acts, t) && k in s.heard && ShortGaps(s, acts, k)
    ensures StaysIn(s, acts, k)
    ensures forall i :: 0 <= i < |acts| && Announces(acts[i], k) ==> !Notifies(s, acts, i)
  {
    ShortGapsNow(s, acts, t, k);
    StaysInIff(s, acts, t, k);
  }

  ghost predicate Notifies(s: State, acts: seq<Action>, i: nat)
    requires i < |acts| && acts[i].Heard?
    decreases i
  {
    if i == 0 then OnAnnounce(s.table, s.me, acts[0].ip, acts[0].a, acts[0].at).1.Some?
    else Notifies(Do(s, acts[0]), acts[1..], i - 1)
  }
}
