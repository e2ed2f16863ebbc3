/** The message and event types both machines share, and the numeric casts of the source. */
module Proto {

  const I32_MIN := -0x8000_0000
  const I32_MAX := 0x7fff_ffff

  type i32 = x: int | -0x8000_0000 <= x <= 0x7fff_ffff
  type u32 = x: int | 0 <= x <= 0xffff_ffff
  type u16 = x: int | 0 <= x <= 0xffff
  type byte = x: int | 0 <= x <= 0xff

  datatype Option<+T> = None | Some(value: T)

  datatype Edge = Left | Right | Top | Bottom

  datatype MouseButton = Left | Right | Middle | Back | Forward

  datatype ButtonState = Pressed | Released

  datatype KeyState = Pressed | Released

  /** Motion is `real`: the wire carries f64, and only the `as i32` casts below round it. */
  datatype InputEvent =
    | MouseMove(dx: real, dy: real)
    | Button(button: MouseButton, bstate: ButtonState)
    | Scroll(dx: real, dy: real)
    | Key(scancode: u32, kstate: KeyState)

  datatype EventFrame = EventFrame(seqNo: u32, events: seq<InputEvent>)

  /** The handshake messages are no-ops once a session runs, so their payload is dropped. */
  datatype ControlCommand =
    | Ping(timestampUs: nat)
    | Pong(echoTimestampUs: nat)
    | Handshake
    | HandshakeAck
    | SwitchFocus(toPeer: string)
    | ReleaseFocus
    | PeerDisconnecting

  /** Extents past 2^30 pixels are excluded: `clamp` panics once `width as i32` turns negative. */
  const MAX_EXTENT := 0x4000_0000
  datatype ScreenInfo = ScreenInfo(width: nat, height: nat)
  type Screen = s: ScreenInfo | 1 <= s.width <= MAX_EXTENT && 1 <= s.height <= MAX_EXTENT
    witness ScreenInfo(1, 1)

  /** Rust's `f64 as i32`: truncate toward zero, then saturate. */
  function AsI32(r: real): i32 {
    var t := if r >= 0.0 then r.Floor else -(-r).Floor;
    if t > I32_MAX then I32_MAX else if t < I32_MIN then I32_MIN else t
  }

  lemma AsI32Exact(v: i32)
    ensures AsI32(v as real) == v
  {
    if v < 0 {
      var n: int := v;
      assert -(n as real) == (-n) as real;
    }
  }

  lemma AsI32Truncates(r: real)
    ensures var v := AsI32(r) as real;
            && (r >= I32_MAX as real ==> v == I32_MAX as real)
            && (r <= I32_MIN as real ==> v == I32_MIN as real)
            && (0.0 <= r < I32_MAX as real ==> 0.0 <= v <= r < v + 1.0)
            && (I32_MIN as real < r <= 0.0 ==> v - 1.0 < r <= v <= 0.0)
  {
    if r < 0.0 {
      var f := (-r).Floor;
      assert f as real <= -r < f as real + 1.0;
    }
  }

  /** Two's-complement wrap of a sum or negation that left the i32 range by less than 2^32. */
  function WrapI32(x: int): (v: int)
    ensures I32_MIN <= x <= I32_MAX ==> v == x
  {
    if x > I32_MAX then x - 0x1_0000_0000
    else if x < I32_MIN then x + 0x1_0000_0000
    else x
  }

  /** The sum of two i32 values wraps to the only i32 value congruent to it modulo 2^32. */
  lemma WrapIsCongruent(x: int, v: int)
    requires 2 * I32_MIN <= x <= 2 * I32_MAX + 1 && I32_MIN <= v <= I32_MAX
    ensures I32_MIN <= WrapI32(x) <= I32_MAX
    ensures v == WrapI32(x) <==> (v - x) % 0x1_0000_0000 == 0
  {
  }

  function Abs(x: int): nat {
    if x < 0 then -x else x
  }

  function Clamp(x: int, lo: int, hi: int): (r: int)
    requires lo <= hi
    ensures lo <= r <= hi
  {
    if x < lo then lo else if x > hi then hi else x
  }
}
