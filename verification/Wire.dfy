/** Byte formats: the length-prefixed control stream and the announce packet. */
module Wire {
  import opened Proto

  type Bytes = seq<byte>

  const TWO32 := 0x1_0000_0000

  // ---------------------------------------------------------------- the control stream

  /** `(len as u32).to_le_bytes()`. */
  function Le32(n: nat): Bytes {
    var m := n % TWO32;
    [m % 256, m / 256 % 256, m / 65536 % 256, m / 16777216 % 256]
  }

  function FromLe32(b: Bytes): nat
    requires |b| >= 4
  {
    var b0: int, b1: int, b2: int, b3: int := b[0], b[1], b[2], b[3];
    b0 + 256 * b1 + 65536 * b2 + 16777216 * b3
  }

  lemma Quotients(m: nat)
    requires m < TWO32
    ensures m / 65536 == m / 256 / 256 && m / 16777216 == m / 65536 / 256 < 256
  {
  }

  lemma LastDigit(m: nat)
    ensures m == m % 256 + 256 * (m / 256)
  {
  }

  lemma Le32RoundTrip(n: nat)
    ensures FromLe32(Le32(n)) == n % TWO32
  {
    var m := n % TWO32;
    Quotients(m);
    LastDigit(m);
    LastDigit(m / 256);
    LastDigit(m / 65536);
  }

  function Frame(payload: Bytes): Bytes {
    Le32(|payload|) + payload
  }

  /** One receive on the bytes that have arrived: None while the message is incomplete. */
  function Receive(stream: Bytes): (r: Option<(Bytes, Bytes)>)
    ensures r.Some? ==> |r.value.1| < |stream|
  {
    if |stream| < 4 then None
    else
      var len := FromLe32(stream);
      if |stream| < 4 + len then None else Some((stream[4..4 + len], stream[4 + len..]))
  }

  class ControlStream {
    var inFlight: Bytes

    method SendControl(payload: Bytes)
      modifies this
      ensures inFlight == old(inFlight) + Frame(payload)
    {
      var len := Le32(|payload|);
      inFlight := inFlight + len;
      inFlight := inFlight + payload;
    }

    /** One whole `recv_control`; while it waits, nothing counts as consumed. */
    method RecvControl() returns (r: Option<Bytes>)
      modifies this
      ensures var w := Receive(old(inFlight));
              if w.Some? then r == Some(w.value.0) && inFlight == w.value.1
              else r == None && inFlight == old(inFlight)
    {
      if |inFlight| < 4 {
        return None;
      }
      var lenBuf := inFlight[..4];
      var len := FromLe32(lenBuf);
      if |inFlight| - 4 < len {
        return None;
      }
      r := Some(inFlight[4..4 + len]);
      inFlight := inFlight[4 + len..];
    }
  }

  function ReceiveAll(stream: Bytes): (seq<Bytes>, Bytes)
    decreases |stream|
  {
    var r := Receive(stream);
    if r.None? then ([], stream)
    else
      var (rest, left) := ReceiveAll(r.value.1);
      ([r.value.0] + rest, left)
  }

  function Stream(payloads: seq<Bytes>): Bytes {
    if payloads == [] then [] else Frame(payloads[0]) + Stream(payloads[1..])
  }

  predicate Framable(payloads: seq<Bytes>) {
    forall i :: 0 <= i < |payloads| ==> |payloads[i]| < TWO32
  }

  lemma ReceiveFrame(payload: Bytes, rest: Bytes)
    requires |payload| < TWO32
    ensures Receive(Frame(payload) + rest) == Some((payload, rest))
  {
    Le32RoundTrip(|payload|);
    var s := Frame(payload) + rest;
    assert FromLe32(s) == FromLe32(Le32(|payload|));
    assert s[4..4 + |payload|] == payload && s[4 + |payload|..] == rest;
  }

  /** A proper prefix of a frame keeps the receiver waiting. */
  lemma ReceivePartial(payload: Bytes, n: nat)
    requires |payload| < TWO32 && n < |Frame(payload)|
    ensures Receive(Frame(payload)[..n]) == None
  {
    Le32RoundTrip(|payload|);
    if n >= 4 {
      assert FromLe32(Frame(payload)[..n]) == FromLe32(Le32(|payload|));
    }
  }

  /** How many of the frames lie whole within the first n bytes. */
  function Whole(payloads: seq<Bytes>, n: nat): (k: nat)
    ensures k <= |payloads|
  {
    if payloads == [] || n < |Frame(payloads[0])| then 0
    else 1 + Whole(payloads[1..], n - |Frame(payloads[0])|)
  }

  /** On every byte prefix of the stream the receiver yields exactly the payloads whose frames
      have arrived whole, in order, and is then waiting on what is left. */
  lemma {:induction false} PrefixReceives(payloads: seq<Bytes>, n: nat)
    requires Framable(payloads) && n <= |Stream(payloads)|
    ensures var k := Whole(payloads, n);
            var sent := Stream(payloads[..k]);
            && |sent| <= n
            && ReceiveAll(Stream(payloads)[..n]) == (payloads[..k], Stream(payloads)[|sent|..n])
            && Receive(Stream(payloads)[|sent|..n]) == None
    decreases payloads
  {
    hide Frame, Receive;
    var all := Stream(payloads);
    if payloads == [] {
      assert all[..n] == [];
    } else {
      var first, rest := Frame(payloads[0]), payloads[1..];
      if n < |first| {
        assert all[..n] == first[..n];
        ReceivePartial(payloads[0], n);
        assert payloads[..0] == [];
      } else {
        var k := Whole(rest, n - |first|);
        PrefixReceives(rest, n - |first|);
        assert all[..n] == first + Stream(rest)[..n - |first|];
        ReceiveFrame(payloads[0], Stream(rest)[..n - |first|]);
        assert payloads[..k + 1] == [payloads[0]] + rest[..k];
        assert payloads[..k + 1][1..] == rest[..k];
        assert Stream(payloads[..k + 1]) == first + Stream(rest[..k]);
        var m := |Stream(rest[..k])|;
        assert all[|first| + m..n] == Stream(rest)[m..n - |first|];
      }
    }
  }

  lemma {:induction false} WholeStream(payloads: seq<Bytes>)
    ensures Whole(payloads, |Stream(payloads)|) == |payloads|
  {
    if payloads != [] {
      WholeStream(payloads[1..]);
    }
  }

  /** The stream carries any list of payloads below 2^32 bytes without loss, and a single
      payload comes back if and only if it is that short: longer lengths wrap. */
  lemma StreamRoundTrip(payloads: seq<Bytes>)
    requires Framable(payloads)
    ensures ReceiveAll(Stream(payloads)) == (payloads, [])
  {
    var n := |Stream(payloads)|;
    WholeStream(payloads);
    PrefixReceives(payloads, n);
    assert Stream(payloads)[..n] == Stream(payloads) && payloads[..|payloads|] == payloads;
  }

  lemma FrameRoundTripIff(payload: Bytes)
    ensures Receive(Frame(payload)) == Some((payload, [])) <==> |payload| < TWO32
  {
    if |payload| < TWO32 {
      ReceiveFrame(payload, []);
      assert Frame(payload) + [] == Frame(payload);
    } else {
      Le32RoundTrip(|payload|);
      assert FromLe32(Frame(payload)) == |payload| % TWO32 < |payload|;
    }
  }

  // A receive dropped half way: `select!` forgets the k bytes it had consumed.

  /** JSON text without control characters, as `to_vec` writes every control message: the
      shortest variant name is already longer than three letters. */
  predicate Textual(payload: Bytes) {
    |payload| >= 3 && forall i :: 0 <= i < |payload| ==> payload[i] >= 0x20
  }

  /** The message comes back from what is left if and only if nothing had been consumed. */
  lemma DroppedReceiveLosesIff(payload: Bytes, rest: Bytes, k: nat)
    requires |payload| < TWO32 && k <= |Frame(payload)|
    ensures Receive(Frame(payload)[k..] + rest) == Some((payload, rest)) <==> k == 0
  {
    var left := Frame(payload)[k..] + rest;
    if k == 0 {
      assert left == Frame(payload) + rest;
      ReceiveFrame(payload, rest);
    } else {
      assert |left| == 4 + |payload| - k + |rest|;
    }
  }

  lemma LengthAtLeast(b: Bytes)
    requires |b| >= 4
    ensures var top: int := b[3]; FromLe32(b) >= 16777216 * top
  {
  }

  /** With part of the length or of the text consumed, the next four bytes end in a text byte and
      read as a length of at least 2^29: the stream stalls until that much has arrived. */
  lemma DroppedReceiveStalls(payload: Bytes, rest: Bytes, k: nat)
    requires Textual(payload) && 1 <= k <= |payload|
    requires |payload| + |rest| < 0x2000_0000
    ensures Receive(Frame(payload)[k..] + rest) == None
  {
    var left := Frame(payload)[k..] + rest;
    assert left[3] == Frame(payload)[k + 3] == payload[k - 1];
    LengthAtLeast(left);
  }

  /** With all but the last one to three bytes consumed, the receiver takes a length across the
      boundary of two messages, and what it then reads begins with a zero byte: no message. */
  lemma DroppedReceiveGarbles(payload: Bytes, next: Bytes, rest: Bytes, k: nat)
    requires Textual(payload) && |next| < 256 && |payload| < k < |Frame(payload)|
    ensures var r := Receive(Frame(payload)[k..] + (Frame(next) + rest));
            r.Some? ==> r.value.0 != [] && r.value.0[0] == 0
  {
    var tail := Frame(payload)[k..];
    var left := tail + (Frame(next) + rest);
    var n := |tail|;
    assert 1 <= n <= 3 && left[0] == Frame(payload)[k] == payload[k - 4];
    assert FromLe32(left) >= left[0];
    assert left[4] == Frame(next)[4 - n];
    assert Le32(|next|)[1] == Le32(|next|)[2] == Le32(|next|)[3] == 0;
  }

  /** Between two messages, and until 2^29 bytes have arrived, the receiver resumes with a message
      if and only if the dropped receive had consumed nothing, or all of the first message. */
  lemma DroppedReceiveResumesIff(payload: Bytes, next: Bytes, rest: Bytes, k: nat)
    requires Textual(payload) && Textual(next) && |next| < 256 && k <= |Frame(payload)|
    requires |payload| + |Frame(next) + rest| < 0x2000_0000
    ensures var r := Receive(Frame(payload)[k..] + (Frame(next) + rest));
            (r.Some? && Textual(r.value.0)) <==> k == 0 || k == |Frame(payload)|
  {
    var more := Frame(next) + rest;
    if k == 0 {
      DroppedReceiveLosesIff(payload, more, 0);
    } else if k <= |payload| {
      DroppedReceiveStalls(payload, more, k);
    } else if k < |Frame(payload)| {
      DroppedReceiveGarbles(payload, next, rest, k);
    } else {
      assert Frame(payload)[k..] + more == more;
      ReceiveFrame(next, rest);
    }
  }

  // ---------------------------------------------------------------- the announce packet

  const MAGIC: Bytes := [75, 77, 70, 76, 79, 87]  // "KMFLOW"

  /** Strings are their UTF-8 bytes. */
  datatype Announce = Announce(hostname: Bytes, port: u16, fingerprint: Bytes)

  function Build(a: Announce): Bytes {
    MAGIC + [a.port / 256, a.port % 256] + [|a.fingerprint| % 256] + a.fingerprint + a.hostname
  }

  /** `from_utf8_lossy`: the identity on valid UTF-8, the empty text included; otherwise
      replacement characters, which never make the text shorter. */
  ghost predicate IsLossy(lossy: Bytes -> Bytes) {
    lossy([]) == [] && forall b :: |lossy(b)| >= |b|
  }

  function FromBe16(hi: int, lo: int): u16
    requires 0 <= hi < 256 && 0 <= lo < 256
  {
    hi * 256 + lo
  }

  function Parse(data: Bytes, lossy: Bytes -> Bytes): Option<Announce> {
    if |data| < 9 || data[..6] != MAGIC then None
    else
      var fpLen: int := data[8];
      if |data| < 9 + fpLen then None
      else
        var fingerprint, hostname := lossy(data[9..9 + fpLen]), lossy(data[9 + fpLen..]);
        if hostname == [] then None
        else Some(Announce(hostname, FromBe16(data[6], data[7]), fingerprint))
  }

  lemma BuildShape(a: Announce)
    ensures var d := Build(a);
            && |d| == 9 + |a.fingerprint| + |a.hostname| && d[..6] == MAGIC
            && d[6] == a.port / 256 && d[7] == a.port % 256 && d[8] == |a.fingerprint| % 256
            && d[9..] == a.fingerprint + a.hostname
  {
  }

  /** A packet is accepted exactly if it starts with the magic and has at least one byte left
      for the hostname after the fingerprint that its ninth byte measures. */
  lemma ParsesIff(data: Bytes, lossy: Bytes -> Bytes)
    requires IsLossy(lossy)
    ensures Parse(data, lossy).Some? <==>
              |data| > 9 && data[..6] == MAGIC && var fpLen: int := data[8]; 9 + fpLen < |data|
  {
  }

  /** Parsing what was built gives it back, for valid UTF-8 strings, exactly when the
      fingerprint fits its length byte and the hostname is not empty. */
  lemma ParseAfterBuildIff(a: Announce, lossy: Bytes -> Bytes)
    requires IsLossy(lossy) && lossy(a.fingerprint) == a.fingerprint && lossy(a.hostname) == a.hostname
    ensures Parse(Build(a), lossy) == Some(a) <==> |a.fingerprint| <= 255 && a.hostname != []
  {
    BuildShape(a);
    var d, f := Build(a), |a.fingerprint|;
    assert d[9..] == a.fingerprint + a.hostname;
    if f <= 255 {
      assert d[9..9 + f] == d[9..][..f] == a.fingerprint;
      assert d[9 + f..] == d[9..][f..] == a.hostname;
    } else {
      var cut := f % 256;
      assert |d[9 + cut..]| == |a.hostname| + (f - cut);
    }
  }

  /** Whenever parsing succeeds, building its result gives back the packet byte for byte
      exactly when both strings were valid UTF-8 to begin with. */
  lemma BuildAfterParseIff(data: Bytes, lossy: Bytes -> Bytes)
    requires IsLossy(lossy) && Parse(data, lossy).Some?
    ensures var fpLen: int := data[8];
            Build(Parse(data, lossy).value) == data <==>
            lossy(data[9..9 + fpLen]) == data[9..9 + fpLen] && lossy(data[9 + fpLen..]) == data[9 + fpLen..]
  {
    var n: int := data[8];
    var a := Parse(data, lossy).value;
    var fp, host := data[9..9 + n], data[9 + n..];
    BuildShape(a);
    var d := Build(a);
    assert data[9..] == fp + host;
    if d == data {
      assert |a.fingerprint| + |a.hostname| == |fp| + |host|;
      assert a.fingerprint == (a.fingerprint + a.hostname)[..n];
      assert a.hostname == (a.fingerprint + a.hostname)[n..];
    }
    if a.fingerprint == fp && a.hostname == host {
      assert data == data[..6] + [data[6], data[7]] + [data[8]] + data[9..];
    }
  }
}
