/** Clipboard echo suppression: two tasks per machine share one hash. */
module Clipboard {
  import opened Proto

  type Hash = string -> nat

  datatype Content = Text(text: string) | Image | FileUri

  /** What a machine's clipboard holds, and the shared hash. */
  datatype Machine = Machine(clip: string, last: nat)

  predicate Differs(m: Machine, h: Hash) {
    h(m.clip) != m.last && m.clip != ""
  }

  /** One round of the outgoing task. */
  function OnPoll(m: Machine, h: Hash): (Machine, Option<string>) {
    if Differs(m, h) then (m.(last := h(m.clip)), Some(m.clip)) else (m, None)
  }

  /** One payload at the incoming task: the hash is stored first, then the clipboard written. */
  function OnApply(m: Machine, c: Content, h: Hash): Machine {
    if c.Text? then Written(Stored(m, c.text, h), c.text) else m
  }

  function Stored(m: Machine, text: string, h: Hash): Machine {
    m.(last := h(text))
  }

  function Written(m: Machine, text: string): Machine {
    m.(clip := text)
  }

  class ClipboardSync {
    const simpleHash: Hash
    var clipboard: string
    var sharedHash: nat
    var outgoing: seq<string>

    function State(): Machine
      reads this
    {
      Machine(clipboard, sharedHash)
    }

    constructor (hash: Hash, initial: string)
      ensures simpleHash == hash && State() == Machine(initial, 0) && outgoing == []
    {
      simpleHash, clipboard, sharedHash, outgoing := hash, initial, 0, [];
    }

    method PollOnce()
      modifies this`sharedHash, this`outgoing
      ensures var (m, sent) := OnPoll(old(State()), simpleHash);
              State() == m && outgoing == old(outgoing) + if sent.Some? then [sent.value] else []
    {
      var hash := simpleHash(clipboard);
      var prev := sharedHash;
      if hash != prev && clipboard != "" {
        sharedHash := hash;
        outgoing := outgoing + [clipboard];
      }
    }

    method ApplyIncoming(content: Content)
      modifies this`sharedHash, this`clipboard
      ensures State() == OnApply(old(State()), content, simpleHash)
    {
      match content {
        case Text(text) =>
          sharedHash := simpleHash(text);
          clipboard := text;
        case Image =>
        case FileUri =>
      }
    }
  }

  // ---------------------------------------------------------------- two machines

  /** A machine with its history: whether its user put the present text there, how often the
      user copied, what, and how often the machine sent. */
  datatype Side = Side(m: Machine, byUser: bool, copied: set<string>, copies: nat, sends: nat)

  function Begin(initial: string): Side {
    Side(Machine(initial, 0), true, {initial}, 0, 0)
  }

  /** Payloads travel on a stream each, so any of them may arrive next. */
  datatype Net = Net(a: Side, b: Side, toA: multiset<string>, toB: multiset<string>) {
    function Mirrored(): Net {
      Net(b, a, toB, toA)
    }
  }

  datatype Action = Copy(text: string) | Poll | Arrive(text: string)
  datatype Move = Move(mirrored: bool, action: Action)

  function ActA(n: Net, act: Action, h: Hash): Net
    requires act.Arrive? ==> act.text in n.toA
  {
    match act
    case Copy(text) =>
      n.(a := n.a.(m := n.a.m.(clip := text), byUser := true, copied := n.a.copied + {text},
                   copies := n.a.copies + 1))
    case Poll =>
      var (m, sent) := OnPoll(n.a.m, h);
      if sent.Some? then n.(a := n.a.(m := m, sends := n.a.sends + 1), toB := n.toB + multiset{sent.value})
      else n.(a := n.a.(m := m))
    case Arrive(text) =>
      n.(a := n.a.(m := OnApply(n.a.m, Text(text), h), byUser := false), toA := n.toA - multiset{text})
  }

  predicate Allowed(n: Net, mv: Move) {
    mv.action.Arrive? ==> mv.action.text in if mv.mirrored then n.toB else n.toA
  }

  function Do(n: Net, mv: Move, h: Hash): Net
    requires Allowed(n, mv)
  {
    if mv.mirrored then ActA(n.Mirrored(), mv.action, h).Mirrored() else ActA(n, mv.action, h)
  }

  ghost predicate Reaches(n: Net, moves: seq<Move>, h: Hash, t: Net)
    decreases moves
  {
    if moves == [] then n == t
    else Allowed(n, moves[0]) && Reaches(Do(n, moves[0], h), moves[1..], h, t)
  }

  ghost predicate SideInv(s: Side, h: Hash) {
    && (s.byUser ==> s.m.clip in s.copied)
    && (!s.byUser ==> s.m.last == h(s.m.clip))
    && s.sends + (if Differs(s.m, h) then 1 else 0) <= s.copies + 1
  }

  ghost predicate Inv(n: Net, h: Hash) {
    && SideInv(n.a, h) && SideInv(n.b, h)
    && (forall t :: t in n.toB ==> t in n.a.copied)
    && (forall t :: t in n.toA ==> t in n.b.copied)
    && n.a.m.clip in n.a.copied + n.b.copied
    && n.b.m.clip in n.a.copied + n.b.copied
  }

  lemma ActKeepsInv(n: Net, act: Action, h: Hash)
    requires Inv(n, h) && (act.Arrive? ==> act.text in n.toA)
    ensures Inv(ActA(n, act, h), h)
  {
  }

  /** In every run of two machines, whatever the hash: a payload on its way was put on the
      sender's clipboard by the sender's own user, or was there at the start; so was every text
      on either clipboard, on one of the two; a machine about to send holds a text of its own
      user's; and no machine sends more often than its user copied, plus once. */
  lemma Provenance(initA: string, initB: string, moves: seq<Move>, h: Hash, t: Net)
    requires Reaches(Net(Begin(initA), Begin(initB), multiset{}, multiset{}), moves, h, t)
    ensures forall x :: x in t.toB ==> x in t.a.copied
    ensures forall x :: x in t.toA ==> x in t.b.copied
    ensures OnPoll(t.a.m, h).1.Some? ==> t.a.byUser
    ensures OnPoll(t.b.m, h).1.Some? ==> t.b.byUser
    ensures t.a.m.clip in t.a.copied + t.b.copied && t.b.m.clip in t.a.copied + t.b.copied
    ensures t.a.sends <= t.a.copies + 1 && t.b.sends <= t.b.copies + 1
  {
    RunKeepsInv(Net(Begin(initA), Begin(initB), multiset{}, multiset{}), moves, h, t);
  }

  lemma {:induction false} RunKeepsInv(n: Net, moves: seq<Move>, h: Hash, t: Net)
    requires Inv(n, h) && Reaches(n, moves, h, t)
    ensures Inv(t, h)
    decreases moves
  {
    if moves != [] {
      if moves[0].mirrored {
        ActKeepsInv(n.Mirrored(), moves[0].action, h);
      } else {
        ActKeepsInv(n, moves[0].action, h);
      }
      RunKeepsInv(Do(n, moves[0], h), moves[1..], h, t);
    }
  }

  /** A delivered text replaces what was on the clipboard, and the next poll does not send it
      back; images and file lists change nothing. */
  lemma DeliveryReplaces(m: Machine, c: Content, h: Hash)
    ensures var m' := OnApply(m, c, h);
            && (c.Text? ==> m'.clip == c.text && OnPoll(m', h) == (m', None))
            && (!c.Text? ==> m' == m)
  {
  }

  /** One machine's user copies, its outgoing task polls, and the other machine takes delivery. */
  function Spread(text: string): seq<Move> {
    [Move(false, Copy(text)), Move(false, Poll), Move(true, Arrive(text))]
  }

  /** From any state, a copied text is sent and delivered if and only if it is not empty and of
      another hash than the last one sent or received; then both clipboards hold it, and neither
      machine sends it again. */
  lemma CopySpreadsIff(n: Net, text: string, h: Hash, t: Net)
    requires text !in n.toB
    ensures (exists u :: Reaches(n, Spread(text), h, u)) <==> text != "" && h(text) != n.a.m.last
    ensures Reaches(n, Spread(text), h, t) ==>
              && t.a.m.clip == t.b.m.clip == text
              && OnPoll(t.a.m, h).1 == OnPoll(t.b.m, h).1 == None
              && t.toA == n.toA && t.toB == n.toB
  {
    var copied := CopiedAndPolled(n, text, h);
    hide Do, Allowed, CopiedAndPolled;
    SpreadReaches(n, text, h, t);
    Delivered(n, text, h);
    forall u
      ensures Reaches(n, Spread(text), h, u) <==>
                Allowed(copied, Move(true, Arrive(text))) && u == Do(copied, Move(true, Arrive(text)), h)
    {
      SpreadReaches(n, text, h, u);
    }
    if Allowed(copied, Move(true, Arrive(text))) {
      assert Reaches(n, Spread(text), h, Do(copied, Move(true, Arrive(text)), h));
    }
  }

  function CopiedAndPolled(n: Net, text: string, h: Hash): Net {
    Do(Do(n, Move(false, Copy(text)), h), Move(false, Poll), h)
  }

  lemma SpreadReaches(n: Net, text: string, h: Hash, u: Net)
    ensures Reaches(n, Spread(text), h, u) <==>
              var c := CopiedAndPolled(n, text, h);
              Allowed(c, Move(true, Arrive(text))) && u == Do(c, Move(true, Arrive(text)), h)
  {
    hide ActA;
    var copy, poll, arrive := Spread(text)[0], Spread(text)[1], Spread(text)[2];
    assert Spread(text)[1..] == [poll, arrive] && [poll, arrive][1..] == [arrive] && [arrive][1..] == [];
    var n1 := Do(n, copy, h);
    var n2 := Do(n1, poll, h);
    assert Reaches(n, Spread(text), h, u) <==> Reaches(n1, [poll, arrive], h, u);
    assert Reaches(n1, [poll, arrive], h, u) <==> Reaches(n2, [arrive], h, u);
  }

  lemma Delivered(n: Net, text: string, h: Hash)
    requires text !in n.toB
    ensures var c := CopiedAndPolled(n, text, h);
            && (Allowed(c, Move(true, Arrive(text))) <==> text != "" && h(text) != n.a.m.last)
            && (Allowed(c, Move(true, Arrive(text))) ==>
                  var t := Do(c, Move(true, Arrive(text)), h);
                  && t.a.m.clip == t.b.m.clip == text
                  && OnPoll(t.a.m, h).1 == OnPoll(t.b.m, h).1 == None
                  && t.toA == n.toA && t.toB == n.toB)
  {
  }

  // ---------------------------------------------------------------- between the two actions

  /** What the user and the outgoing task can do between the incoming task's two actions. */
  datatype Meanwhile = UserCopies(text: string) | Polls

  function During(m: Machine, ops: seq<Meanwhile>, h: Hash): (Machine, seq<string>)
    decreases ops
  {
    if ops == [] then (m, [])
    else if ops[0].UserCopies? then During(m.(clip := ops[0].text), ops[1..], h)
    else
      var (m1, sent) := OnPoll(m, h);
      var (m2, rest) := During(m1, ops[1..], h);
      (m2, (if sent.Some? then [sent.value] else []) + rest)
  }

  lemma {:induction false} HashIsOfLastSent(m: Machine, ops: seq<Meanwhile>, h: Hash)
    ensures var (m', sent) := During(m, ops, h);
            m'.last == if sent == [] then m.last else h(sent[|sent| - 1])
    decreases ops
  {
    if ops != [] {
      if ops[0].UserCopies? {
        HashIsOfLastSent(m.(clip := ops[0].text), ops[1..], h);
      } else {
        HashIsOfLastSent(OnPoll(m, h).0, ops[1..], h);
      }
    }
  }

  /** Storing the hash and writing the clipboard are two actions. The delivered text is echoed
      back by the next poll exactly when it is not empty and the outgoing task got in between
      and sent, the last time, something of another hash. */
  lemma EchoIff(m: Machine, text: string, ops: seq<Meanwhile>, h: Hash)
    ensures var (m', sent) := During(Stored(m, text, h), ops, h);
            OnPoll(Written(m', text), h).1 == Some(text) <==>
            text != "" && sent != [] && h(sent[|sent| - 1]) != h(text)
  {
    HashIsOfLastSent(Stored(m, text, h), ops, h);
  }

  /** One poll in between is enough: the user's text goes out, and then the peer's comes back. */
  lemma OnePollEchoes(m: Machine, text: string, h: Hash)
    requires text != "" && m.clip != "" && h(m.clip) != h(text)
    ensures var (m', sent) := During(Stored(m, text, h), [Polls], h);
            sent == [m.clip] && OnPoll(Written(m', text), h).1 == Some(text)
  {
    assert [Polls][1..] == [];
    EchoIff(m, text, [Polls], h);
  }
}
