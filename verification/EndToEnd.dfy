/** From the sender's kernel records to the receiver's: capture, batching, replay and writing
    together. */
module EndToEnd {
  import opened Proto
  import opened Peer
  import opened HeldKeys
  import Batching
  import Evdev

  function Emulated(os: seq<Output>): seq<InputEvent> {
    if os == [] then [] else os[0].emulated + Emulated(os[1..])
  }

  function FramesOf(arrivals: seq<Input>): seq<EventFrame>
    requires forall i :: 0 <= i < |arrivals| ==> arrivals[i].Datagram?
  {
    if arrivals == [] then [] else [arrivals[0].frame] + FramesOf(arrivals[1..])
  }

  /** A receiver that takes these frames one after the other and returns none of them. */
  ghost predicate StaysLocal(b: Peer, arrivals: seq<Input>)
    requires b.Valid()
    decreases arrivals
  {
    !b.remote &&
    (arrivals != [] ==> arrivals[0].Datagram? && StaysLocal(Next(b, arrivals[0]), arrivals[1..]))
  }

  lemma {:induction false} ReplaysAll(b: Peer, arrivals: seq<Input>)
    requires b.Valid() && b.hasEmulator && StaysLocal(b, arrivals)
    ensures forall i :: 0 <= i < |arrivals| ==> arrivals[i].Datagram?
    ensures Emulated(Outputs(b, arrivals)) == Flatten(FramesOf(arrivals))
    decreases arrivals
  {
    if arrivals != [] {
      var b1, os := Next(b, arrivals[0]), Outputs(b, arrivals);
      assert !b1.remote && os[0].emulated == arrivals[0].frame.events;
      ReplaysAll(b1, arrivals[1..]);
      assert os[1..] == Outputs(b1, arrivals[1..]);
      forall i | 0 <= i < |arrivals|
        ensures arrivals[i].Datagram?
      {
        assert i > 0 ==> arrivals[i] == arrivals[1..][i - 1];
      }
    }
  }

  /** While no chord completes, a forwarding session forwards everything it captures. */
  lemma {:induction false} ForwardsAll(a: Peer, items: seq<Batching.Item>, es: seq<InputEvent>)
    requires a.Valid() && a.remote && Batching.Carries(items, es) && Batching.ChordFree(a.held, es)
    ensures Batching.Forwarded(a, items) == es
    decreases es
  {
    if es != [] {
      ForwardsAll(a.Tracked(es[0]), items[1..], es[1..]);
    }
  }

  /** The sender captures any record stream from rest while it forwards and no chord completes;
      the receiver gets the frames in order and stays local. Whatever the device interleaving
      and the batch boundaries, what the receiver's emulator writes has the effect of the
      sender's own records, up to the motion still pending in the sender's decoder. */
  lemma RemoteDesktopFollows(f: Evdev.Effect, d: Evdev.Decoder, raws: seq<Evdev.Raw>,
                             a: Peer, captures: seq<Input>, b: Peer, arrivals: seq<Input>)
    requires Evdev.Still(d) && (forall e :: e in Evdev.Decode(d, raws).1 ==> Evdev.Encodable(e))
    requires a.Valid() && a.remote && LegalRun(a, captures) && Batching.CapturesOnly(captures)
    requires Batching.Consumed(captures) == Evdev.Decode(d, raws).1
    requires Batching.ChordFree(a.held, Batching.Consumed(captures))
    requires b.Valid() && b.hasEmulator && StaysLocal(b, arrivals)
    requires forall i :: 0 <= i < |arrivals| ==> arrivals[i].Datagram?
    requires FramesOf(arrivals) == Batching.DataFrames(Outputs(a, captures))
    ensures var written := Evdev.EncodeAll(Emulated(Outputs(b, arrivals)));
            Evdev.RawTotal(f, raws) == Evdev.Ahead(Evdev.RawTotal(f, written), Evdev.Decode(d, raws).0)
  {
    var es := Evdev.Decode(d, raws).1;
    Batching.BatchingConserves(a, a, captures);
    Batching.ItemsCarryConsumed(captures);
    ForwardsAll(a, Batching.Items(captures), es);
    ReplaysAll(b, arrivals);
    assert Emulated(Outputs(b, arrivals)) == es;
    Evdev.ReplayPreservesEffect(f, d, raws);
  }
}
