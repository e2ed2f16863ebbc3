/** Kernel input records: the capture that decodes them and the emulator that writes them. */
module Evdev {
  import opened Proto

  const EV_SYN: u16 := 0x00
  const EV_KEY: u16 := 0x01
  const EV_REL: u16 := 0x02
  const SYN_REPORT: u16 := 0x00
  const REL_X: u16 := 0x00
  const REL_Y: u16 := 0x01
  const REL_HWHEEL: u16 := 0x06
  const REL_WHEEL: u16 := 0x08
  const BTN_LEFT: u16 := 0x110
  const BTN_RIGHT: u16 := 0x111
  const BTN_MIDDLE: u16 := 0x112
  const BTN_SIDE: u16 := 0x113
  const BTN_EXTRA: u16 := 0x114

  datatype Raw = Raw(kind: u16, code: u16, value: i32)

  const SYN := Raw(EV_SYN, SYN_REPORT, 0)

  predicate IsButtonCode(code: int) {
    BTN_LEFT <= code <= BTN_EXTRA
  }

  function CodeOf(b: MouseButton): u16 {
    match b
    case Left => BTN_LEFT
    case Right => BTN_RIGHT
    case Middle => BTN_MIDDLE
    case Back => BTN_SIDE
    case Forward => BTN_EXTRA
  }

  function ButtonOf(code: u16): MouseButton
    requires IsButtonCode(code)
  {
    if code == BTN_LEFT then MouseButton.Left
    else if code == BTN_RIGHT then MouseButton.Right
    else if code == BTN_MIDDLE then Middle
    else if code == BTN_SIDE then Back
    else Forward
  }

  /** The kernel numbers the buttons left, right, middle, side, extra from 0x110. */
  lemma ButtonsInKernelOrder(k: nat)
    requires k < 5
    ensures var order := [MouseButton.Left, MouseButton.Right, Middle, Back, Forward];
            CodeOf(order[k]) == 0x110 + k && ButtonOf(0x110 + k) == order[k]
  {
  }

  function Listed<T>(o: Option<T>): seq<T> {
    if o.Some? then [o.value] else []
  }

  lemma NoneListed<T>(xs: seq<T>)
    ensures Listed<T>(None) + xs == xs && xs + Listed<T>(None) == xs
  {
  }

  // ---------------------------------------------------------------- the emulator

  /** `-(v as i32)`: the least i32 is its own negation. */
  function NegI32(v: i32): i32 {
    if v == I32_MIN then v else -v
  }

  function Encode(e: InputEvent): seq<Raw> {
    match e
    case MouseMove(dx, dy) =>
      (if dx != 0.0 then [Raw(EV_REL, REL_X, AsI32(dx))] else [])
      + (if dy != 0.0 then [Raw(EV_REL, REL_Y, AsI32(dy))] else []) + [SYN]
    case Button(b, s) =>
      [Raw(EV_KEY, CodeOf(b), if s.Pressed? then 1 else 0), SYN]
    case Scroll(dx, dy) =>
      (if dy != 0.0 then [Raw(EV_REL, REL_WHEEL, NegI32(AsI32(dy)))] else [])
      + (if dx != 0.0 then [Raw(EV_REL, REL_HWHEEL, AsI32(dx))] else []) + [SYN]
    case Key(scancode, s) =>
      [Raw(EV_KEY, scancode % 0x1_0000, if s.Pressed? then 1 else 0), SYN]
  }

  function EncodeAll(es: seq<InputEvent>): seq<Raw> {
    if es == [] then [] else Encode(es[0]) + EncodeAll(es[1..])
  }

  class EvdevEmulator {
    var written: seq<Raw>

    method WriteEvent(kind: u16, code: u16, value: i32)
      modifies this
      ensures written == old(written) + [Raw(kind, code, value)]
    {
      written := written + [Raw(kind, code, value)];
    }

    method SynReport()
      modifies this
      ensures written == old(written) + [SYN]
    {
      WriteEvent(EV_SYN, SYN_REPORT, 0);
    }

    method Emit(event: InputEvent)
      modifies this
      ensures written == old(written) + Encode(event)
    {
      match event {
        case MouseMove(dx, dy) =>
          if dx != 0.0 {
            WriteEvent(EV_REL, REL_X, AsI32(dx));
          }
          if dy != 0.0 {
            WriteEvent(EV_REL, REL_Y, AsI32(dy));
          }
          SynReport();
        case Button(button, state) =>
          WriteEvent(EV_KEY, CodeOf(button), if state.Pressed? then 1 else 0);
          SynReport();
        case Scroll(dx, dy) =>
          if dy != 0.0 {
            WriteEvent(EV_REL, REL_WHEEL, NegI32(AsI32(dy)));
          }
          if dx != 0.0 {
            WriteEvent(EV_REL, REL_HWHEEL, AsI32(dx));
          }
          SynReport();
        case Key(scancode, state) =>
          WriteEvent(EV_KEY, scancode % 0x1_0000, if state.Pressed? then 1 else 0);
          SynReport();
      }
    }
  }

  // ---------------------------------------------------------------- the capture

  /** What capture remembers between records: motion since the last report, and held keys. */
  datatype Decoder = Decoder(dx: real, dy: real, heldKeys: set<u16>)

  predicate Still(d: Decoder) {
    d.dx == 0.0 && d.dy == 0.0
  }

  function Translate(raw: Raw, held: set<u16>): (Option<InputEvent>, set<u16>) {
    if IsButtonCode(raw.code) then
      (Some(Button(ButtonOf(raw.code), if raw.value != 0 then ButtonState.Pressed else ButtonState.Released)), held)
    else if raw.value == 2 then (None, held)
    else if raw.value != 0 then (Some(Key(raw.code, KeyState.Pressed)), held + {raw.code})
    else (Some(Key(raw.code, KeyState.Released)), held - {raw.code})
  }

  /** One record: the new state and the event it completes, if any. */
  function Read(d: Decoder, raw: Raw): (Decoder, Option<InputEvent>) {
    var v := raw.value as real;
    if raw.kind == EV_SYN && raw.code == SYN_REPORT && !Still(d) then
      (d.(dx := 0.0, dy := 0.0), Some(MouseMove(d.dx, d.dy)))
    else if raw.kind == EV_REL then
      if raw.code == REL_X then (d.(dx := d.dx + v), None)
      else if raw.code == REL_Y then (d.(dy := d.dy + v), None)
      else if raw.code == REL_WHEEL then (d, Some(Scroll(0.0, -v)))
      else if raw.code == REL_HWHEEL then (d, Some(Scroll(v, 0.0)))
      else (d, None)
    else if raw.kind == EV_KEY then
      var (e, held) := Translate(raw, d.heldKeys);
      (d.(heldKeys := held), e)
    else (d, None)
  }

  /** The whole-stream translation. */
  function Decode(d: Decoder, raws: seq<Raw>): (Decoder, seq<InputEvent>)
    decreases raws
  {
    if raws == [] then (d, [])
    else
      var (d1, e) := Read(d, raws[0]);
      var (d2, es) := Decode(d1, raws[1..]);
      (d2, Listed(e) + es)
  }

  /** One call of `next_event` on a stream: it stops at the record that completes an event. */
  function Next(d: Decoder, raws: seq<Raw>): (r: (Decoder, Option<InputEvent>, seq<Raw>))
    ensures r.1.Some? ==> |r.2| < |raws|
    ensures r.1.None? ==> r.2 == []
    decreases raws
  {
    if raws == [] then (d, None, [])
    else
      var (d1, e) := Read(d, raws[0]);
      if e.Some? then (d1, e, raws[1..]) else Next(d1, raws[1..])
  }

  /** Calls of `next_event` until one finds no event in what is left. */
  function Calls(d: Decoder, raws: seq<Raw>): (Decoder, seq<InputEvent>)
    decreases |raws|
  {
    var (d1, e, rest) := Next(d, raws);
    if e.None? then (d1, [])
    else
      var (d2, es) := Calls(d1, rest);
      (d2, [e.value] + es)
  }

  lemma {:induction false} NextThenRest(d: Decoder, raws: seq<Raw>)
    ensures var (d1, e, rest) := Next(d, raws);
            var (d2, es) := Decode(d1, rest);
            Decode(d, raws) == (d2, Listed(e) + es)
    decreases raws
  {
    if raws != [] {
      var d1 := Read(d, raws[0]).0;
      var es := Decode(d1, raws[1..]).1;
      NextThenRest(d1, raws[1..]);
      NoneListed(es);
    } else {
      NoneListed<InputEvent>([]);
    }
  }

  /** Stopping early loses nothing: repeated calls are one translation of the whole stream. */
  lemma {:induction false} RepeatedCallsTranslate(d: Decoder, raws: seq<Raw>)
    ensures Calls(d, raws) == Decode(d, raws)
    decreases |raws|
  {
    NextThenRest(d, raws);
    var (d1, e, rest) := Next(d, raws);
    if e.Some? {
      RepeatedCallsTranslate(d1, rest);
    } else {
      assert Decode(d1, rest) == (d1, []);
      NoneListed<InputEvent>([]);
    }
  }

  lemma {:induction false} DecodeAppend(d: Decoder, xs: seq<Raw>, ys: seq<Raw>)
    ensures var (d1, es) := Decode(d, xs);
            var (d2, fs) := Decode(d1, ys);
            Decode(d, xs + ys) == (d2, es + fs)
    decreases xs
  {
    if xs == [] {
      assert xs + ys == ys;
      var es := Decode(d, ys).1;
      assert [] + es == es;
    } else {
      var (d1, e) := Read(d, xs[0]);
      assert (xs + ys)[1..] == xs[1..] + ys;
      DecodeAppend(d1, xs[1..], ys);
      var (d2, es) := Decode(d1, xs[1..]);
      var fs := Decode(d2, ys).1;
      assert Listed(e) + (es + fs) == (Listed(e) + es) + fs;
    }
  }

  /** What successive calls took and returned, from one state to another. */
  ghost predicate Called(d: Decoder, takens: seq<seq<Raw>>, results: seq<Option<InputEvent>>, t: Decoder)
    decreases takens
  {
    |takens| == |results| &&
    if takens == [] then d == t
    else
      var (d1, r, rest) := Next(d, takens[0]);
      r == results[0] && rest == [] && Called(d1, takens[1..], results[1..], t)
  }

  function Concat(xss: seq<seq<Raw>>): seq<Raw> {
    if xss == [] then [] else xss[0] + Concat(xss[1..])
  }

  function Events(rs: seq<Option<InputEvent>>): seq<InputEvent> {
    if rs == [] then [] else Listed(rs[0]) + Events(rs[1..])
  }

  /** Successive calls, however each chose among the devices, translate the records they took
      as one stream. */
  lemma {:induction false} SuccessiveCallsTranslate(d: Decoder, takens: seq<seq<Raw>>,
                                                    results: seq<Option<InputEvent>>, t: Decoder)
    requires Called(d, takens, results, t)
    ensures Decode(d, Concat(takens)) == (t, Events(results))
    decreases takens
  {
    if takens != [] {
      var (d1, r, rest) := Next(d, takens[0]);
      NextThenRest(d, takens[0]);
      NoneListed(Listed(r));
      assert Decode(d, takens[0]) == (d1, Listed(r) + []);
      SuccessiveCallsTranslate(d1, takens[1..], results[1..], t);
      DecodeAppend(d, takens[0], Concat(takens[1..]));
    }
  }

  /** The records `taken`, each the head of the queue that `order` names, leave `after`. */
  ghost predicate Drains(before: seq<seq<Raw>>, order: seq<nat>, taken: seq<Raw>, after: seq<seq<Raw>>)
    decreases order
  {
    |order| == |taken| &&
    if order == [] then before == after
    else
      && order[0] < |before| && before[order[0]] != [] && taken[0] == before[order[0]][0]
      && Drains(before[order[0] := before[order[0]][1..]], order[1..], taken[1..], after)
  }

  lemma {:induction false} DrainsOneMore(before: seq<seq<Raw>>, order: seq<nat>, taken: seq<Raw>,
                                         after: seq<seq<Raw>>, i: nat)
    requires Drains(before, order, taken, after) && i < |after| && after[i] != []
    ensures Drains(before, order + [i], taken + [after[i][0]], after[i := after[i][1..]])
    decreases order
  {
    if order == [] {
      assert ([i])[1..] == [] && [after[i][0]][1..] == [];
    } else {
      var o := order[0];
      DrainsOneMore(before[o := before[o][1..]], order[1..], taken[1..], after, i);
      assert (order + [i])[1..] == order[1..] + [i];
      assert (taken + [after[i][0]])[1..] == taken[1..] + [after[i][0]];
    }
  }

  lemma {:induction false} NextOneMore(d: Decoder, xs: seq<Raw>, raw: Raw)
    requires Next(d, xs).1.None?
    ensures var s := Next(d, xs).0; Next(d, xs + [raw]) == (Read(s, raw).0, Read(s, raw).1, [])
    decreases xs
  {
    if xs == [] {
      assert ([raw])[1..] == [];
    } else {
      assert (xs + [raw])[1..] == xs[1..] + [raw];
      NextOneMore(Read(d, xs[0]).0, xs[1..], raw);
    }
  }

  class EvdevCapture {
    var devices: seq<seq<Raw>>  // the unread records of each device
    var grabbed: bool
    var heldKeys: set<u16>
    var pendingDx: real
    var pendingDy: real

    function State(): Decoder
      reads this
    {
      Decoder(pendingDx, pendingDy, heldKeys)
    }

    constructor (queues: seq<seq<Raw>>)
      ensures devices == queues && !grabbed && Still(State()) && heldKeys == {}
    {
      devices, grabbed, heldKeys, pendingDx, pendingDy := queues, false, {}, 0.0, 0.0;
    }

    /** Each entry of `wakeups` is one result of `epoll_wait`, a list of ready devices. The
        records read, from whichever devices and in whatever order, make one call of `Next`. */
    method NextEvent(wakeups: seq<seq<nat>>) returns (r: Option<InputEvent>, ghost taken: seq<Raw>, ghost order: seq<nat>)
      requires forall w, i :: 0 <= w < |wakeups| && 0 <= i < |wakeups[w]| ==> wakeups[w][i] < |devices|
      modifies this`devices, this`heldKeys, this`pendingDx, this`pendingDy
      ensures Next(old(State()), taken) == (State(), r, [])
      ensures Drains(old(devices), order, taken, devices)
    {
      r, taken, order := None, [], [];
      var w := 0;
      while w < |wakeups|
        invariant |devices| == |old(devices)| && r == None
        invariant Next(old(State()), taken) == (State(), None, [])
        invariant Drains(old(devices), order, taken, devices)
        decreases |wakeups| - w
      {
        var k := 0;
        while k < |wakeups[w]|
          invariant |devices| == |old(devices)| && r == None
          invariant Next(old(State()), taken) == (State(), None, [])
          invariant Drains(old(devices), order, taken, devices)
          decreases |wakeups[w]| - k
        {
          var fd := wakeups[w][k];
          while devices[fd] != []
            invariant |devices| == |old(devices)| && r == None
            invariant Next(old(State()), taken) == (State(), None, [])
            invariant Drains(old(devices), order, taken, devices)
            decreases |devices[fd]|
          {
            var raw := devices[fd][0];
            DrainsOneMore(old(devices), order, taken, devices, fd);
            NextOneMore(old(State()), taken, raw);
            devices := devices[fd := devices[fd][1..]];
            taken, order := taken + [raw], order + [fd];
            r := HandleRecord(raw);
            if r.Some? {
              return;
            }
          }
          k := k + 1;
        }
        w := w + 1;
      }
    }

    method HandleRecord(raw: Raw) returns (r: Option<InputEvent>)
      modifies this`heldKeys, this`pendingDx, this`pendingDy
      ensures (State(), r) == Read(old(State()), raw)
    {
      r := None;
      if raw.kind == EV_SYN && raw.code == SYN_REPORT && (pendingDx != 0.0 || pendingDy != 0.0) {
        r := Some(MouseMove(pendingDx, pendingDy));
        pendingDx, pendingDy := 0.0, 0.0;
      } else if raw.kind == EV_REL {
        if raw.code == REL_X {
          pendingDx := pendingDx + raw.value as real;
        } else if raw.code == REL_Y {
          pendingDy := pendingDy + raw.value as real;
        } else if raw.code == REL_WHEEL {
          r := Some(Scroll(0.0, -(raw.value as real)));
        } else if raw.code == REL_HWHEEL {
          r := Some(Scroll(raw.value as real, 0.0));
        }
      } else if raw.kind == EV_KEY {
        r := TranslateKeyEvent(raw);
      }
    }

    method TranslateKeyEvent(raw: Raw) returns (r: Option<InputEvent>)
      modifies this`heldKeys
      ensures (r, heldKeys) == Translate(raw, old(heldKeys))
    {
      if IsButtonCode(raw.code) {
        var state := if raw.value != 0 then ButtonState.Pressed else ButtonState.Released;
        r := Some(Button(ButtonOf(raw.code), state));
      } else if raw.value == 2 {
        r := None;
      } else if raw.value != 0 {
        heldKeys := heldKeys + {raw.code};
        r := Some(Key(raw.code, KeyState.Pressed));
      } else {
        heldKeys := heldKeys - {raw.code};
        r := Some(Key(raw.code, KeyState.Released));
      }
    }

    method GrabPointer()
      modifies this`grabbed
      ensures grabbed
    {
      grabbed := true;
    }

    /** Only a real ungrab forgets the held keys; pending motion is kept. */
    method UngrabPointer()
      modifies this`grabbed, this`heldKeys
      ensures !grabbed
      ensures heldKeys == if old(grabbed) then {} else old(heldKeys)
    {
      if grabbed {
        grabbed, heldKeys := false, {};
      }
    }
  }

  // ---------------------------------------------------------------- motion between reports

  predicate IsReport(raw: Raw) {
    raw.kind == EV_SYN && raw.code == SYN_REPORT
  }

  /** What the records of one axis add up to. */
  function AxisTotal(raws: seq<Raw>, code: u16): real {
    if raws == [] then 0.0
    else (if raws[0].kind == EV_REL && raws[0].code == code then raws[0].value as real else 0.0)
         + AxisTotal(raws[1..], code)
  }

  /** Between two reports motion only adds up, in whatever order the axes come, and no move is
      captured; the report then captures all of it as one move, unless both axes add up to zero. */
  lemma {:induction false} OneMovePerReport(d: Decoder, raws: seq<Raw>, report: Raw)
    requires (forall i :: 0 <= i < |raws| ==> !IsReport(raws[i])) && IsReport(report)
    ensures var (t, es) := Decode(d, raws);
            && (t.dx, t.dy) == (d.dx + AxisTotal(raws, REL_X), d.dy + AxisTotal(raws, REL_Y))
            && (forall e :: e in es ==> !e.MouseMove?)
            && Read(t, report) == (t.(dx := 0.0, dy := 0.0), if Still(t) then None else Some(MouseMove(t.dx, t.dy)))
    decreases raws
  {
    if raws != [] {
      assert !IsReport(raws[0]);
      OneMovePerReport(Read(d, raws[0]).0, raws[1..], report);
    }
  }

  /** What a record that carries no motion says by itself. */
  function Direct(raw: Raw): Option<InputEvent> {
    if raw.kind == EV_KEY && IsButtonCode(raw.code) then
      Some(Button(ButtonOf(raw.code), if raw.value == 0 then ButtonState.Released else ButtonState.Pressed))
    else if raw.kind == EV_KEY && raw.value != 2 then
      Some(Key(raw.code, if raw.value == 0 then KeyState.Released else KeyState.Pressed))
    else if raw.kind == EV_REL && raw.code == REL_WHEEL then Some(Scroll(0.0, -(raw.value as real)))
    else if raw.kind == EV_REL && raw.code == REL_HWHEEL then Some(Scroll(raw.value as real, 0.0))
    else None
  }

  function DirectAll(raws: seq<Raw>): seq<InputEvent> {
    if raws == [] then [] else Listed(Direct(raws[0])) + DirectAll(raws[1..])
  }

  function WithoutMoves(es: seq<InputEvent>): seq<InputEvent> {
    if es == [] then []
    else (if es[0].MouseMove? then [] else [es[0]]) + WithoutMoves(es[1..])
  }

  /** Everything but motion is captured record by record, whatever went before: neither pending
      motion nor the remembered keys make any other event appear, vanish or wait. */
  lemma {:induction false} OthersComeAtOnce(d: Decoder, raws: seq<Raw>)
    ensures WithoutMoves(Decode(d, raws).1) == DirectAll(raws)
    decreases raws
  {
    if raws != [] {
      var (d1, e) := Read(d, raws[0]);
      var rest := Decode(d1, raws[1..]).1;
      OthersComeAtOnce(d1, raws[1..]);
      if e.Some? {
        assert ([e.value] + rest)[1..] == rest;
      } else {
        assert [] + rest == rest;
      }
      assert WithoutMoves(Listed(e) + rest) == (if e.Some? && !e.value.MouseMove? then [e.value] else []) + WithoutMoves(rest);
    }
  }

  // ---------------------------------------------------------------- decode after encode

  predicate Whole(r: real) {
    r == r.Floor as real && I32_MIN <= r.Floor <= I32_MAX
  }

  lemma WholeIffExact(r: real)
    ensures AsI32(r) as real == r <==> Whole(r)
  {
    if Whole(r) {
      AsI32Exact(r.Floor);
    }
  }

  /** The events that survive the trip. */
  predicate Encodable(e: InputEvent) {
    match e
    case MouseMove(dx, dy) => Whole(dx) && Whole(dy)
    case Button(_, _) => true
    case Scroll(dx, dy) => Whole(dx) && Whole(dy) && dy != I32_MIN as real
    case Key(scancode, _) => scancode <= 0xffff && !IsButtonCode(scancode)
  }

  /** What one event is expected to come back as: zero motion vanishes, and a scroll on two
      axes becomes two, vertical first. */
  function Expected(e: InputEvent): seq<InputEvent> {
    match e
    case MouseMove(dx, dy) => if dx == 0.0 && dy == 0.0 then [] else [e]
    case Scroll(dx, dy) =>
      (if dy != 0.0 then [Scroll(0.0, dy)] else []) + (if dx != 0.0 then [Scroll(dx, 0.0)] else [])
    case _ => [e]
  }

  function ExpectedAll(es: seq<InputEvent>): seq<InputEvent> {
    if es == [] then [] else Expected(es[0]) + ExpectedAll(es[1..])
  }

  lemma DecodeTwo(d: Decoder, a: Raw, b: Raw)
    ensures var (d1, e) := Read(d, a);
            var (d2, f) := Read(d1, b);
            Decode(d, [a, b]) == (d2, Listed(e) + Listed(f))
  {
    var (d1, e) := Read(d, a);
    var (d2, f) := Read(d1, b);
    assert [a, b][1..] == [b] && [b][1..] == [];
    assert Decode(d1, [b]) == (d2, Listed(f) + []);
    assert Listed(f) + [] == Listed(f);
  }

  lemma DecodeThree(d: Decoder, a: Raw, b: Raw, c: Raw)
    ensures var (d1, e) := Read(d, a);
            var (d2, es) := Decode(d1, [b, c]);
            Decode(d, [a, b, c]) == (d2, Listed(e) + es)
  {
    assert [a, b, c][1..] == [b, c];
  }

  /** What a written move is captured as. */
  lemma MoveComesBack(d: Decoder, e: InputEvent)
    requires Still(d) && e.MouseMove?
    ensures var x, y := AsI32(e.dx) as real, AsI32(e.dy) as real;
            Decode(d, Encode(e)) == (d, if x == 0.0 && y == 0.0 then [] else [MouseMove(x, y)])
  {
    var x, y := Raw(EV_REL, REL_X, AsI32(e.dx)), Raw(EV_REL, REL_Y, AsI32(e.dy));
    if e.dx != 0.0 && e.dy != 0.0 {
      assert Encode(e) == [x, y, SYN];
      DecodeThree(d, x, y, SYN);
      DecodeTwo(Read(d, x).0, y, SYN);
      NoneListed(Listed(Read(Read(Read(d, x).0, y).0, SYN).1));
    } else if e.dx != 0.0 {
      assert Encode(e) == [x, SYN];
      DecodeTwo(d, x, SYN);
      NoneListed(Listed(Read(Read(d, x).0, SYN).1));
    } else if e.dy != 0.0 {
      assert Encode(e) == [y, SYN];
      DecodeTwo(d, y, SYN);
      NoneListed(Listed(Read(Read(d, y).0, SYN).1));
    } else {
      assert Encode(e) == [SYN] && [SYN][1..] == [];
    }
  }

  /** What a written scroll is captured as: truncated steps are captured even at zero. */
  lemma ScrollComesBack(d: Decoder, e: InputEvent)
    requires Still(d) && e.Scroll?
    ensures var v, h := Scroll(0.0, -(NegI32(AsI32(e.dy)) as real)), Scroll(AsI32(e.dx) as real, 0.0);
            Decode(d, Encode(e)) == (d, (if e.dy != 0.0 then [v] else []) + if e.dx != 0.0 then [h] else [])
  {
    var v, h := Raw(EV_REL, REL_WHEEL, NegI32(AsI32(e.dy))), Raw(EV_REL, REL_HWHEEL, AsI32(e.dx));
    if e.dx != 0.0 && e.dy != 0.0 {
      assert Encode(e) == [v, h, SYN];
      DecodeThree(d, v, h, SYN);
      DecodeTwo(d, h, SYN);
      NoneListed([Scroll(AsI32(e.dx) as real, 0.0)]);
    } else if e.dx != 0.0 {
      assert Encode(e) == [h, SYN];
      DecodeTwo(d, h, SYN);
      NoneListed([Scroll(AsI32(e.dx) as real, 0.0)]);
    } else if e.dy != 0.0 {
      assert Encode(e) == [v, SYN];
      DecodeTwo(d, v, SYN);
      NoneListed([Scroll(0.0, -(NegI32(AsI32(e.dy)) as real))]);
    } else {
      assert Encode(e) == [SYN] && [SYN][1..] == [];
    }
  }

  lemma NegExactIff(r: real)
    ensures -(NegI32(AsI32(r)) as real) == r <==> Whole(r) && r != I32_MIN as real
  {
    WholeIffExact(r);
    var v: int := AsI32(r);
    assert -((-v) as real) == v as real;
  }

  lemma ConcatSplits<T>(a: seq<T>, b: seq<T>, c: seq<T>, d: seq<T>)
    requires |a| <= |c| && |b| <= |d|
    ensures a + b == c + d <==> a == c && b == d
  {
    if a + b == c + d {
      assert |a| == |c|;
      assert a == (a + b)[..|a|] && c == (c + d)[..|a|];
      assert b == (a + b)[|a|..] && d == (c + d)[|a|..];
    }
  }

  lemma PairsDifferIff(a: InputEvent, b: InputEvent, c: InputEvent, d: InputEvent, p: bool, q: bool)
    ensures (if p then [a] else []) + (if q then [b] else []) == (if p then [c] else []) + (if q then [d] else [])
       <==> (p ==> a == c) && (q ==> b == d)
  {
    ConcatSplits(if p then [a] else [], if q then [b] else [], if p then [c] else [], if q then [d] else []);
    assert [a] == [c] <==> [a][0] == [c][0];
    assert [b] == [d] <==> [b][0] == [d][0];
  }

  lemma ScrollComesBackIff(d: Decoder, e: InputEvent)
    requires Still(d) && e.Scroll?
    ensures Decode(d, Encode(e)).1 == Expected(e) <==> Encodable(e)
  {
    ScrollComesBack(d, e);
    WholeIffExact(e.dx);
    NegExactIff(e.dy);
    assert Whole(0.0);
    PairsDifferIff(Scroll(0.0, -(NegI32(AsI32(e.dy)) as real)), Scroll(AsI32(e.dx) as real, 0.0),
                   Scroll(0.0, e.dy), Scroll(e.dx, 0.0), e.dy != 0.0, e.dx != 0.0);
  }

  lemma MoveComesBackIff(d: Decoder, e: InputEvent)
    requires Still(d) && e.MouseMove?
    ensures Decode(d, Encode(e)).1 == Expected(e) <==> Encodable(e)
  {
    MoveComesBack(d, e);
    WholeIffExact(e.dx);
    WholeIffExact(e.dy);
    assert Whole(0.0);
    var m := MouseMove(AsI32(e.dx) as real, AsI32(e.dy) as real);
    assert [m] == [e] <==> [m][0] == [e][0];
  }

  /** What a written key is captured as: its scancode cut to 16 bits, which may be a button's. */
  lemma KeyComesBack(d: Decoder, e: InputEvent)
    requires Still(d) && e.Key?
    ensures var code, down := e.scancode % 0x1_0000, e.kstate.Pressed?;
            Decode(d, Encode(e)).1 ==
              [if IsButtonCode(code) then Button(ButtonOf(code), if down then ButtonState.Pressed else ButtonState.Released)
               else Key(code, e.kstate)]
    ensures Still(Decode(d, Encode(e)).0)
  {
    var raw := Encode(e)[0];
    DecodeTwo(d, raw, SYN);
    var came := Read(d, raw).1.value;
    assert Decode(d, Encode(e)).1 == [came] + [] == [came];
  }

  lemma KeyComesBackIff(d: Decoder, e: InputEvent)
    requires Still(d) && e.Key?
    ensures Decode(d, Encode(e)).1 == [e] <==> Encodable(e)
  {
    KeyComesBack(d, e);
    var came := Decode(d, Encode(e)).1[0];
    assert [came] == [e] <==> [came][0] == [e][0];
  }

  /** One event comes back as expected exactly when it is encodable, and never as more. */
  lemma EventComesBackIff(d: Decoder, e: InputEvent)
    requires Still(d)
    ensures Still(Decode(d, Encode(e)).0)
    ensures |Decode(d, Encode(e)).1| <= |Expected(e)|
    ensures Decode(d, Encode(e)).1 == Expected(e) <==> Encodable(e)
  {
    match e
    case MouseMove(_, _) =>
      MoveComesBack(d, e);
      MoveComesBackIff(d, e);
    case Scroll(_, _) =>
      ScrollComesBack(d, e);
      ScrollComesBackIff(d, e);
    case Button(_, _) => DecodeTwo(d, Encode(e)[0], SYN);
    case Key(_, _) =>
      KeyComesBack(d, e);
      KeyComesBackIff(d, e);
  }

  /** Any list of events, written by the emulator and captured again from rest, comes back as
      expected if and only if every event in it is encodable. */
  lemma {:induction false} StreamComesBackIff(d: Decoder, es: seq<InputEvent>)
    requires Still(d)
    ensures Still(Decode(d, EncodeAll(es)).0)
    ensures |Decode(d, EncodeAll(es)).1| <= |ExpectedAll(es)|
    ensures Decode(d, EncodeAll(es)).1 == ExpectedAll(es) <==> forall e :: e in es ==> Encodable(e)
    decreases es
  {
    hide Encode, Encodable, Expected;
    if es != [] {
      var (d1, piece) := Decode(d, Encode(es[0]));
      EventComesBackIff(d, es[0]);
      StreamComesBackIff(d1, es[1..]);
      DecodeAppend(d, Encode(es[0]), EncodeAll(es[1..]));
      ConcatSplits(piece, Decode(d1, EncodeAll(es[1..])).1, Expected(es[0]), ExpectedAll(es[1..]));
      assert forall e :: e in es <==> e == es[0] || e in es[1..];
    }
  }

  // ---------------------------------------------------------------- effects

  /** The cumulative effect of input on a desktop; `held` are key and button codes. */
  datatype Effect = Effect(x: real, y: real, wheel: real, hwheel: real, held: set<u32>)

  function RawEffect(f: Effect, raw: Raw): Effect {
    var v := raw.value as real;
    if raw.kind == EV_REL then
      if raw.code == REL_X then f.(x := f.x + v)
      else if raw.code == REL_Y then f.(y := f.y + v)
      else if raw.code == REL_WHEEL then f.(wheel := f.wheel + v)
      else if raw.code == REL_HWHEEL then f.(hwheel := f.hwheel + v)
      else f
    else if raw.kind == EV_KEY then
      if raw.value == 0 then f.(held := f.held - {raw.code})
      else if raw.value == 2 && !IsButtonCode(raw.code) then f  // autorepeat
      else f.(held := f.held + {raw.code})
    else f
  }

  function RawTotal(f: Effect, raws: seq<Raw>): Effect
    decreases raws
  {
    if raws == [] then f else RawTotal(RawEffect(f, raws[0]), raws[1..])
  }

  function EventEffect(f: Effect, e: InputEvent): Effect {
    match e
    case MouseMove(dx, dy) => f.(x := f.x + dx, y := f.y + dy)
    case Scroll(dx, dy) => f.(wheel := f.wheel - dy, hwheel := f.hwheel + dx)
    case Button(b, Pressed) => f.(held := f.held + {CodeOf(b)})
    case Button(b, Released) => f.(held := f.held - {CodeOf(b)})
    case Key(k, Pressed) => f.(held := f.held + {k})
    case Key(k, Released) => f.(held := f.held - {k})
  }

  function EventTotal(f: Effect, es: seq<InputEvent>): Effect
    decreases es
  {
    if es == [] then f else EventTotal(EventEffect(f, es[0]), es[1..])
  }

  /** `f` is `g` plus the motion still pending in the decoder. */
  function Ahead(g: Effect, d: Decoder): Effect {
    g.(x := g.x + d.dx, y := g.y + d.dy)
  }

  /** Capture accounts for every record: raw totals are those of the captured events plus the
      pending motion, and the wheels and the held codes agree outright. */
  lemma {:induction false} CaptureAccounts(g: Effect, d: Decoder, raws: seq<Raw>)
    ensures var (t, es) := Decode(d, raws);
            RawTotal(Ahead(g, d), raws) == Ahead(EventTotal(g, es), t)
    decreases raws
  {
    if raws != [] {
      var (d1, e) := Read(d, raws[0]);
      var rest := Decode(d1, raws[1..]).1;
      var g1 := if e.Some? then EventEffect(g, e.value) else g;
      RecordAccounts(g, d, raws[0]);
      CaptureAccounts(g1, d1, raws[1..]);
      if e.Some? {
        assert ([e.value] + rest)[1..] == rest;
      } else {
        assert [] + rest == rest;
      }
    }
  }

  /** Capture remembers as held exactly the keys, not the buttons, that its events leave down. */
  lemma {:induction false} HeldKeysFollow(f: Effect, d: Decoder, raws: seq<Raw>)
    requires forall k :: k in d.heldKeys <==> k in f.held && k <= 0xffff && !IsButtonCode(k)
    ensures var (t, es) := Decode(d, raws);
            forall k :: k in t.heldKeys <==> k in EventTotal(f, es).held && k <= 0xffff && !IsButtonCode(k)
    decreases raws
  {
    if raws != [] {
      var (d1, e) := Read(d, raws[0]);
      var rest := Decode(d1, raws[1..]).1;
      HeldKeysFollow(if e.Some? then EventEffect(f, e.value) else f, d1, raws[1..]);
      if e.Some? {
        assert ([e.value] + rest)[1..] == rest;
      } else {
        assert [] + rest == rest;
      }
    }
  }

  lemma RecordAccounts(g: Effect, d: Decoder, raw: Raw)
    ensures var (d1, e) := Read(d, raw);
            RawEffect(Ahead(g, d), raw) == Ahead(if e.Some? then EventEffect(g, e.value) else g, d1)
  {
  }

  lemma {:induction false} RawTotalAppend(f: Effect, xs: seq<Raw>, ys: seq<Raw>)
    ensures RawTotal(f, xs + ys) == RawTotal(RawTotal(f, xs), ys)
    decreases xs
  {
    if xs == [] {
      assert xs + ys == ys;
    } else {
      assert (xs + ys)[1..] == xs[1..] + ys;
      RawTotalAppend(RawEffect(f, xs[0]), xs[1..], ys);
    }
  }

  lemma RawTotalThree(f: Effect, a: seq<Raw>, b: seq<Raw>)
    requires |a| <= 1 && |b| <= 1
    ensures var f1 := if a == [] then f else RawEffect(f, a[0]);
            var f2 := if b == [] then f1 else RawEffect(f1, b[0]);
            RawTotal(f, a + b + [SYN]) == f2
  {
    RawTotalAppend(f, a + b, [SYN]);
    RawTotalAppend(f, a, b);
    assert [SYN][1..] == [];
    assert a != [] ==> a[1..] == [];
    assert b != [] ==> b[1..] == [];
  }

  /** The records written for an encodable event have the event's own effect. */
  lemma EmitAccounts(f: Effect, e: InputEvent)
    requires Encodable(e)
    ensures RawTotal(f, Encode(e)) == EventEffect(f, e)
  {
    match e
    case MouseMove(dx, dy) =>
      WholeIffExact(dx);
      WholeIffExact(dy);
      RawTotalThree(f, if dx != 0.0 then [Raw(EV_REL, REL_X, AsI32(dx))] else [],
                    if dy != 0.0 then [Raw(EV_REL, REL_Y, AsI32(dy))] else []);
    case Scroll(dx, dy) =>
      WholeIffExact(dx);
      WholeIffExact(dy);
      RawTotalThree(f, if dy != 0.0 then [Raw(EV_REL, REL_WHEEL, NegI32(AsI32(dy)))] else [],
                    if dx != 0.0 then [Raw(EV_REL, REL_HWHEEL, AsI32(dx))] else []);
    case _ =>
      RawTotalThree(f, [Encode(e)[0]], []);
      assert Encode(e) == [Encode(e)[0]] + [] + [SYN];
  }

  lemma {:induction false} EmitAllAccounts(f: Effect, es: seq<InputEvent>)
    requires forall e :: e in es ==> Encodable(e)
    ensures RawTotal(f, EncodeAll(es)) == EventTotal(f, es)
    decreases es
  {
    hide Encode, Encodable, EventEffect;
    if es != [] {
      EmitAccounts(f, es[0]);
      EmitAllAccounts(EventEffect(f, es[0]), es[1..]);
      RawTotalAppend(f, Encode(es[0]), EncodeAll(es[1..]));
    }
  }

  /** Replaying what was captured from any record stream, however the devices interleave, has
      the effect of the original up to the motion still pending. The captured events must be
      encodable: motion between two reports within i32, and no wheel record of value -2^31. */
  lemma ReplayPreservesEffect(f: Effect, d: Decoder, raws: seq<Raw>)
    requires Still(d)
    requires forall e :: e in Decode(d, raws).1 ==> Encodable(e)
    ensures var (t, es) := Decode(d, raws);
            RawTotal(f, raws) == Ahead(RawTotal(f, EncodeAll(es)), t)
  {
    CaptureAccounts(f, d, raws);
    EmitAllAccounts(f, Decode(d, raws).1);
    assert Ahead(f, d) == f;
  }
}
