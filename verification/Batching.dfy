/** Batching the captured stream into frames neither loses, adds nor reorders events. */
module Batching {
  import opened Proto
  import opened Peer
  import opened HeldKeys
  import Tracker

  // ---------------------------------------------------------------- what a run consumed and sent

  function Consumed(inputs: seq<Input>): seq<InputEvent> {
    if inputs == [] then []
    else ConsumedBy(inputs[0]) + Consumed(inputs[1..])
  }

  function ConsumedBy(i: Input): seq<InputEvent> {
    if i.Captured? then [i.head] + i.drained else []
  }

  function DataFrames(os: seq<Output>): seq<EventFrame> {
    if os == [] then [] else os[0].data + DataFrames(os[1..])
  }

  function AllFrames(os: seq<Output>): seq<EventFrame> {
    if os == [] then [] else os[0].data + os[0].flush + AllFrames(os[1..])
  }

  // ---------------------------------------------------------------- one event at a time

  /** The stream event by event, without frames. `isHead` marks the events that `recv` yields;
      only those are checked for the emergency chord. */
  datatype Item = Event(e: InputEvent, isHead: bool) | Other(i: Input)

  function Items(inputs: seq<Input>): seq<Item> {
    if inputs == [] then []
    else ItemsOf(inputs[0]) + Items(inputs[1..])
  }

  function ItemsOf(i: Input): seq<Item> {
    if i.Captured? then [Event(i.head, true)] + Tail(i.drained) else [Other(i)]
  }

  function Tail(es: seq<InputEvent>): seq<Item> {
    seq(|es|, k requires 0 <= k < |es| => Event(es[k], false))
  }

  /** The state after one item, and what it forwards to the other machine. */
  function OneItem(p: Peer, item: Item): (r: (Peer, seq<InputEvent>))
    requires p.Valid()
    ensures r.0.Valid()
  {
    if item.Other? then (Next(p, item.i), [])
    else
      var q := p.Tracked(item.e);
      if q.remote && item.isHead && q.held.Chord() then (q.(remote := false, grab := false), [])
      else if q.remote then (q, [item.e])
      else if item.e.MouseMove? then
        var m := q.Moved(item.e.dx, item.e.dy);
        (if m.AtEdge() then TakeRemote(m).(grab := true) else m, [])
      else (q, [])
  }

  function StateAfter(p: Peer, items: seq<Item>): (q: Peer)
    requires p.Valid()
    ensures q.Valid()
    decreases items
  {
    if items == [] then p else StateAfter(OneItem(p, items[0]).0, items[1..])
  }

  function Forwarded(p: Peer, items: seq<Item>): seq<InputEvent>
    requires p.Valid()
    decreases items
  {
    if items == [] then [] else OneItem(p, items[0]).1 + Forwarded(OneItem(p, items[0]).0, items[1..])
  }

  lemma {:induction false} ItemsAppend(p: Peer, xs: seq<Item>, ys: seq<Item>)
    requires p.Valid()
    ensures StateAfter(p, xs + ys) == StateAfter(StateAfter(p, xs), ys)
    ensures Forwarded(p, xs + ys) == Forwarded(p, xs) + Forwarded(StateAfter(p, xs), ys)
    decreases xs
  {
    if xs == [] {
      assert xs + ys == ys;
    } else {
      assert (xs + ys)[1..] == xs[1..] + ys;
      ItemsAppend(OneItem(p, xs[0]).0, xs[1..], ys);
    }
  }

  /** Equal but for the sequence counter, which only frames use. */
  predicate Same(p: Peer, q: Peer) {
    p == q.(seqNo := p.seqNo)
  }

  lemma {:induction false} TailForwardsAll(p: Peer, es: seq<InputEvent>)
    requires p.Valid() && p.remote
    ensures StateAfter(p, Tail(es)) == p.(held := ApplyAll(p.held, es))
    ensures Forwarded(p, Tail(es)) == es
    decreases es
  {
    if es != [] {
      assert Tail(es)[1..] == Tail(es[1..]);
      TailForwardsAll(p.Tracked(es[0]), es[1..]);
    }
  }

  lemma CaptureIsItsItems(p: Peer, q: Peer, i: Input)
    requires p.Valid() && q.Valid() && Same(p, q) && Legal(p, i) && i.Captured?
    ensures Same(OnCaptured(p, i.head, i.drained, i.releases).0, StateAfter(q, ItemsOf(i)))
    ensures Flatten(OnCaptured(p, i.head, i.drained, i.releases).1.data) == Forwarded(q, ItemsOf(i))
  {
    hide AsI32, Tracker.Track, IsFlush;
    var items := ItemsOf(i);
    assert items[0] == Event(i.head, true) && items[1..] == Tail(i.drained);
    if Batches(p, i.head) {
      TailForwardsAll(q.Tracked(i.head), i.drained);
      var frame := EventFrame(NextSeq(p.seqNo), [i.head] + i.drained);
      assert Flatten([frame]) == frame.events + [] == frame.events;
    } else {
      assert items[1..] == [];
    }
  }

  lemma BatchIsItsItems(p: Peer, q: Peer, i: Input)
    requires p.Valid() && q.Valid() && Same(p, q) && Legal(p, i)
    ensures Same(Next(p, i), StateAfter(q, ItemsOf(i)))
    ensures Flatten(Step(p, i).1.data) == Forwarded(q, ItemsOf(i))
  {
    if i.Captured? {
      CaptureIsItsItems(p, q, i);
    } else {
      if i.Datagram? {
        WalkCongruent(p, q, i.frame.events, InCooldown(p, i.now));
      }
      assert ItemsOf(i)[1..] == [];
    }
  }

  /** However the stream was cut into batches and whatever ran in between, the events in the
      data frames are, in order, what the event-by-event machine forwards, and it ends in the
      same state. */
  lemma {:induction false} BatchingConserves(p: Peer, q: Peer, inputs: seq<Input>)
    requires p.Valid() && q.Valid() && Same(p, q) && LegalRun(p, inputs)
    ensures Same(Run(p, inputs), StateAfter(q, Items(inputs)))
    ensures Flatten(DataFrames(Outputs(p, inputs))) == Forwarded(q, Items(inputs))
    decreases inputs
  {
    if inputs != [] {
      var p1, q1 := Next(p, inputs[0]), StateAfter(q, ItemsOf(inputs[0]));
      BatchIsItsItems(p, q, inputs[0]);
      BatchingConserves(p1, q1, inputs[1..]);
      ItemsAppend(q, ItemsOf(inputs[0]), Items(inputs[1..]));
      var os := Outputs(p, inputs);
      assert os[1..] == Outputs(p1, inputs[1..]);
      FlattenAppend(os[0].data, DataFrames(os[1..]));
    }
  }

  lemma HeldAfterStep(p: Peer, i: Input)
    requires p.Valid() && Legal(p, i)
    ensures Next(p, i).held == ApplyAll(p.held, ConsumedBy(i))
  {
    if i.Captured? {
      assert ([i.head] + i.drained)[1..] == i.drained;
    }
  }

  /** The tracked sets are the last-action-wins fold over the whole captured stream. */
  lemma {:induction false} HeldIsStreamFold(p: Peer, inputs: seq<Input>)
    requires p.Valid() && LegalRun(p, inputs)
    ensures Run(p, inputs).held == ApplyAll(p.held, Consumed(inputs))
    decreases inputs
  {
    hide Step, Legal;
    if inputs != [] {
      HeldAfterStep(p, inputs[0]);
      HeldIsStreamFold(Next(p, inputs[0]), inputs[1..]);
      ApplyAppend(p.held, ConsumedBy(inputs[0]), Consumed(inputs[1..]));
    }
  }

  /** Said of the stream: something is tracked exactly when the last action on it, over
      everything captured, was a press, or there was none and it was tracked at the start. */
  lemma HeldIffLastPressed(p: Peer, inputs: seq<Input>, c: Code)
    requires p.Valid() && LegalRun(p, inputs)
    ensures Holds(Run(p, inputs).held, c) <==>
              LastPressed(Consumed(inputs), c) || (Untouched(Consumed(inputs), c) && Holds(p.held, c))
  {
    HeldIsStreamFold(p, inputs);
    LastActionWins(p.held, Consumed(inputs), c);
  }

  // ---------------------------------------------------------------- frame sizes and numbers

  /** Consecutive numbers after `s`, wrapping at 2^32. */
  ghost predicate Numbered(s: u32, fs: seq<EventFrame>) {
    forall k :: 0 <= k < |fs| ==> fs[k].seqNo == (s + k + 1) % 0x1_0000_0000
  }

  lemma ModStep(s: nat, k: nat)
    ensures ((s + 1) % 0x1_0000_0000 + k) % 0x1_0000_0000 == (s + k + 1) % 0x1_0000_0000
  {
  }

  lemma NumberedCons(s: u32, f: EventFrame, rest: seq<EventFrame>)
    requires f.seqNo == NextSeq(s) && Numbered(NextSeq(s), rest)
    ensures Numbered(s, [f] + rest)
  {
    var fs := [f] + rest;
    forall k | 0 <= k < |fs|
      ensures fs[k].seqNo == (s + k + 1) % 0x1_0000_0000
    {
      if k > 0 {
        assert fs[k] == rest[k - 1];
        ModStep(s, k);
      }
    }
  }

  /** What one step puts on the wire: at most one frame, carrying the next number. */
  lemma OneFrame(p: Peer, i: Input)
    requires p.Valid() && Legal(p, i)
    ensures var q, o := Next(p, i), Step(p, i).1;
            var fs := o.data + o.flush;
            && (fs == [] ==> q.seqNo == p.seqNo)
            && (fs != [] ==> |fs| == 1 && fs[0].seqNo == q.seqNo == NextSeq(p.seqNo))
            && (forall f :: f in o.data ==> 1 <= |f.events| <= EVENT_BATCH_LIMIT)
  {
    if i.Captured? && Emergency(p, i.head) {
      ChordFlushIsNotEmpty(i.releases, Apply(p.held, i.head));
    }
  }

  /** Data frames carry 1 to 64 events, and the k-th frame of a run the number start + k + 1
      modulo 2^32: releases flushed in an emergency are numbered like everything else. */
  lemma {:induction false} FramesAreNumbered(p: Peer, inputs: seq<Input>)
    requires p.Valid() && LegalRun(p, inputs)
    ensures var fs := AllFrames(Outputs(p, inputs));
            Numbered(p.seqNo, fs) && Run(p, inputs).seqNo == (p.seqNo + |fs|) % 0x1_0000_0000
    ensures forall f :: f in DataFrames(Outputs(p, inputs)) ==> 1 <= |f.events| <= EVENT_BATCH_LIMIT
    decreases inputs
  {
    hide Step, Legal;
    if inputs != [] {
      var q, o := Next(p, inputs[0]), Step(p, inputs[0]).1;
      OneFrame(p, inputs[0]);
      FramesAreNumbered(q, inputs[1..]);
      var os := Outputs(p, inputs);
      assert os[1..] == Outputs(q, inputs[1..]);
      var first, rest := o.data + o.flush, AllFrames(os[1..]);
      assert AllFrames(os) == first + rest;
      if first != [] {
        assert first == [first[0]];
        NumberedCons(p.seqNo, first[0], rest);
        ModStep(p.seqNo, |rest|);
      }
    }
  }

  // ---------------------------------------------------------------- independence of the cuts

  predicate CapturesOnly(inputs: seq<Input>) {
    forall i :: 0 <= i < |inputs| ==> inputs[i].Captured?
  }

  ghost predicate ChordFree(h: Held, es: seq<InputEvent>)
    decreases es
  {
    es != [] ==> !Apply(h, es[0]).Chord() && ChordFree(Apply(h, es[0]), es[1..])
  }

  ghost predicate Carries(items: seq<Item>, es: seq<InputEvent>) {
    |items| == |es| && forall k :: 0 <= k < |items| ==> items[k].Event? && items[k].e == es[k]
  }

  lemma CarriesAppend(xs: seq<Item>, es: seq<InputEvent>, ys: seq<Item>, fs: seq<InputEvent>)
    requires Carries(xs, es) && Carries(ys, fs)
    ensures Carries(xs + ys, es + fs)
  {
  }

  lemma {:induction false} ItemsCarryConsumed(inputs: seq<Input>)
    requires CapturesOnly(inputs)
    ensures Carries(Items(inputs), Consumed(inputs))
  {
    if inputs != [] {
      ItemsCarryConsumed(inputs[1..]);
      assert Carries(ItemsOf(inputs[0]), ConsumedBy(inputs[0]));
      CarriesAppend(ItemsOf(inputs[0]), ConsumedBy(inputs[0]), Items(inputs[1..]), Consumed(inputs[1..]));
    }
  }

  /** With no chord in the stream the head marks make no difference. */
  lemma {:induction false} HeadsDoNotMatter(p: Peer, xs: seq<Item>, ys: seq<Item>, es: seq<InputEvent>)
    requires p.Valid() && Carries(xs, es) && Carries(ys, es) && ChordFree(p.held, es)
    ensures StateAfter(p, xs) == StateAfter(p, ys) && Forwarded(p, xs) == Forwarded(p, ys)
    decreases es
  {
    if es != [] {
      HeadsDoNotMatter(OneItem(p, xs[0]).0, xs[1..], ys[1..], es[1..]);
    }
  }

  /** Cutting the same chord-free stream into batches differently changes nothing but the
      frame boundaries. */
  lemma CutsDoNotMatter(p: Peer, some: seq<Input>, others: seq<Input>)
    requires p.Valid() && LegalRun(p, some) && LegalRun(p, others)
    requires CapturesOnly(some) && CapturesOnly(others) && Consumed(some) == Consumed(others)
    requires ChordFree(p.held, Consumed(some))
    ensures Same(Run(p, some), Run(p, others))
    ensures Flatten(DataFrames(Outputs(p, some))) == Flatten(DataFrames(Outputs(p, others)))
  {
    BatchingConserves(p, p, some);
    BatchingConserves(p, p, others);
    ItemsCarryConsumed(some);
    ItemsCarryConsumed(others);
    HeadsDoNotMatter(p, Items(some), Items(others), Consumed(some));
  }
}
