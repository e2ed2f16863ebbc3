/** One axis of the clamped cursor that stands in for the real pointer. */
module Tracker {
  import opened Proto

  /** One move: the i32 sum may wrap, then it is clamped into the screen. */
  function Track(c: int, extent: nat, d: i32): (r: int)
    requires 1 <= extent <= MAX_EXTENT
    ensures 0 <= r < extent
  {
    Clamp(WrapI32(c + d), 0, extent - 1)
  }

  function TrackAll(c: int, extent: nat, ds: seq<i32>): (r: int)
    requires 1 <= extent <= MAX_EXTENT && 0 <= c < extent
    ensures 0 <= r < extent
    decreases ds
  {
    if ds == [] then c else TrackAll(Track(c, extent, ds[0]), extent, ds[1..])
  }

  /** No sum leaves i32, whatever in-bounds position the cursor is at. */
  ghost predicate NoOverflow(extent: nat, ds: seq<i32>) {
    forall i :: 0 <= i < |ds| ==> extent - 1 + ds[i] <= I32_MAX
  }

  function Sum(ds: seq<int>): int {
    if ds == [] then 0 else ds[0] + Sum(ds[1..])
  }

  lemma SumCons(ds: seq<int>)
    requires ds != []
    ensures Sum(ds) == ds[0] + Sum(ds[1..])
  {
  }

  /** Even a wrapped step never moves the cursor further than the motion it was given. */
  lemma StepBound(c: int, extent: nat, d: i32)
    requires 1 <= extent <= MAX_EXTENT && 0 <= c < extent
    ensures Abs(Track(c, extent, d) - c) <= Abs(d)
  {
  }

  /** One move is a plain clamp of the sum exactly when the sum fits i32. When it does not, the
      wrap throws a cursor pushed far right, or down, to the left, or upper, border. */
  lemma TrackIsClampIff(c: int, extent: nat, d: i32)
    requires 1 <= extent <= MAX_EXTENT && 0 <= c < extent
    ensures Track(c, extent, d) == Clamp(c + d, 0, extent - 1) <==> c + d <= I32_MAX || extent == 1
    ensures c + d > I32_MAX ==> Track(c, extent, d) == 0
  {
  }

  // The tracker without the wrap, to which it reduces when no sum overflows.

  function Slide(c: int, n: nat, ds: seq<int>): (r: int)
    requires 0 <= c <= n
    ensures 0 <= r <= n
    decreases ds
  {
    if ds == [] then c else Slide(Clamp(c + ds[0], 0, n), n, ds[1..])
  }

  lemma {:induction false} TrackIsSlide(c: int, extent: nat, ds: seq<i32>)
    requires 1 <= extent <= MAX_EXTENT && 0 <= c < extent && NoOverflow(extent, ds)
    ensures TrackAll(c, extent, ds) == Slide(c, extent - 1, ds)
    decreases ds
  {
    if ds != [] {
      TrackIsSlide(Track(c, extent, ds[0]), extent, ds[1..]);
    }
  }

  lemma {:induction false} SlideContracts(a: int, b: int, n: nat, ds: seq<int>)
    requires 0 <= a <= b <= n
    ensures 0 <= Slide(b, n, ds) - Slide(a, n, ds) <= b - a
    decreases ds
  {
    if ds != [] {
      SlideContracts(Clamp(a + ds[0], 0, n), Clamp(b + ds[0], 0, n), n, ds[1..]);
    }
  }

  lemma ClampThenClamp(k: int, d: int, n: int, s: int, total: int, lo: int, hi: int)
    requires 0 <= k <= n && lo <= hi && total == d + s
    ensures var first, last := Clamp(Clamp(0 + d, 0, n) + s, lo, hi), Clamp(Clamp(n + d, 0, n) + s, lo, hi);
            first <= last && Clamp(Clamp(k + d, 0, n) + s, lo, hi) == Clamp(k + total, first, last)
  {
  }

  lemma OneCell(c: int, n: nat)
    requires 0 <= c <= n
    ensures Slide(0, n, []) == 0 && Slide(n, n, []) == n
    ensures Slide(c, n, []) == c == Clamp(c + Sum([]), 0, n)
  {
  }

  lemma {:induction false} SlideIsOneClamp(c: int, n: nat, ds: seq<int>)
    requires 0 <= c <= n
    ensures Slide(0, n, ds) <= Slide(n, n, ds)
    ensures Slide(c, n, ds) == Clamp(c + Sum(ds), Slide(0, n, ds), Slide(n, n, ds))
    decreases ds
  {
    hide Clamp, Slide, Sum;
    if ds == [] {
      OneCell(c, n);
    } else {
      var d, rest := ds[0], ds[1..];
      SumCons(ds);
      FirstMove(c, n, ds);
      FirstMove(0, n, ds);
      FirstMove(n, n, ds);
      ClampThenClamp(c, d, n, Sum(rest), Sum(ds), Slide(0, n, rest), Slide(n, n, rest));
    }
  }

  lemma {:induction false} FirstMove(k: int, n: nat, ds: seq<int>)
    requires 0 <= k <= n && ds != []
    ensures Slide(0, n, ds[1..]) <= Slide(n, n, ds[1..])
    ensures Slide(k, n, ds) == Clamp(Clamp(k + ds[0], 0, n) + Sum(ds[1..]),
                                     Slide(0, n, ds[1..]), Slide(n, n, ds[1..]))
    decreases ds, 0
  {
    SlideIsOneClamp(Clamp(k + ds[0], 0, n), n, ds[1..]);
  }

  /** Any run of clamped moves is one clamp of start plus total, to the interval whose ends
      are where the two border cells themselves are carried. */
  lemma RunIsOneClamp(c: int, extent: nat, ds: seq<i32>)
    requires 1 <= extent <= MAX_EXTENT && 0 <= c < extent && NoOverflow(extent, ds)
    ensures TrackAll(0, extent, ds) <= TrackAll(extent - 1, extent, ds)
    ensures TrackAll(c, extent, ds)
         == Clamp(c + Sum(ds), TrackAll(0, extent, ds), TrackAll(extent - 1, extent, ds))
  {
    TrackIsSlide(c, extent, ds);
    TrackIsSlide(0, extent, ds);
    TrackIsSlide(extent - 1, extent, ds);
    SlideIsOneClamp(c, extent - 1, ds);
  }

  /** Two trackers fed the same moves never drift apart and never swap order. */
  lemma Contraction(a: int, b: int, extent: nat, ds: seq<i32>)
    requires 1 <= extent <= MAX_EXTENT && 0 <= a <= b < extent && NoOverflow(extent, ds)
    ensures 0 <= TrackAll(b, extent, ds) - TrackAll(a, extent, ds) <= b - a
  {
    TrackIsSlide(a, extent, ds);
    TrackIsSlide(b, extent, ds);
    SlideContracts(a, b, extent - 1, ds);
  }

  /** The tracker further from a border stands on that border. */
  predicate AtFarBorder(a: int, b: int, extent: nat, ds: seq<i32>)
    requires 1 <= extent <= MAX_EXTENT && 0 <= a < b < extent
  {
    TrackAll(b, extent, ds) == 0 || TrackAll(a, extent, ds) == extent - 1
  }

  /** Two trackers started apart have met exactly when, after some prefix of the moves, the
      one further from a border stood on that border; so once met they stay together. */
  lemma {:induction false} MeetIffBorder(a: int, b: int, extent: nat, ds: seq<i32>)
    requires 1 <= extent <= MAX_EXTENT && 0 <= a < b < extent && NoOverflow(extent, ds)
    ensures TrackAll(a, extent, ds) == TrackAll(b, extent, ds)
       <==> exists i :: 0 <= i <= |ds| && AtFarBorder(a, b, extent, ds[..i])
    decreases ds
  {
    if ds == [] {
      assert ds[..0] == [];
    } else {
      var a1, b1 := Track(a, extent, ds[0]), Track(b, extent, ds[0]);
      if a1 == b1 {
        assert ds[..1] == [ds[0]];
        assert AtFarBorder(a, b, extent, ds[..1]);
      } else {
        MeetIffBorder(a1, b1, extent, ds[1..]);
        forall i | 0 < i <= |ds|
          ensures AtFarBorder(a, b, extent, ds[..i]) <==> AtFarBorder(a1, b1, extent, ds[1..][..i - 1])
        {
          assert ds[..i][1..] == ds[1..][..i - 1];
        }
        if i :| 0 <= i <= |ds| - 1 && AtFarBorder(a1, b1, extent, ds[1..][..i]) {
          assert ds[1..][..(i + 1) - 1] == ds[1..][..i];
          assert AtFarBorder(a, b, extent, ds[..i + 1]);
        }
        assert ds[..0] == [];
      }
    }
  }
}
