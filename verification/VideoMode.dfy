/** Choosing a video mode (ChangeVideoMode_XF86VidMode and ChangeVideoMode_XcbRandR_1_4 in
    src/common/gfxwrapper_opengl.c). Refresh rates are real numbers here. */
module VideoMode {
  import opened Wrappers

  datatype Mode = Mode(id: int, width: int, height: int, refreshRate: real, interlaced: bool)

  datatype Wish = Wish(width: int, height: int, refreshRate: real)

  const MAX_INT := 0x7FFF_FFFF

  function SizeError(m: Mode, wish: Wish): int {
    var dw, dh := m.width - wish.width, m.height - wish.height;
    dw * dw + dh * dh
  }

  function RefreshRateError(m: Mode, wish: Wish): real {
    if m.refreshRate >= wish.refreshRate then m.refreshRate - wish.refreshRate else wish.refreshRate - m.refreshRate
  }

  /** The comparison in the loops: lexicographic, and strict. */
  predicate Less(size: int, rate: real, bestSize: int, bestRate: real) {
    size < bestSize || (size == bestSize && rate < bestRate)
  }

  predicate Beats(m: Mode, n: Mode, wish: Wish) {
    Less(SizeError(m, wish), RefreshRateError(m, wish), SizeError(n, wish), RefreshRateError(n, wish))
  }

  /** The arithmetic on 32-bit integers does not overflow. */
  predicate NoOverflow(m: Mode, wish: Wish) {
    var dw, dh := m.width - wish.width, m.height - wish.height;
    -MAX_INT - 1 <= dw <= MAX_INT && -MAX_INT - 1 <= dh <= MAX_INT && SizeError(m, wish) <= MAX_INT
  }

  /** The mode is better than the initial values of bestSizeError and bestRefreshRateError. */
  predicate Acceptable(m: Mode, wish: Wish) {
    Less(SizeError(m, wish), RefreshRateError(m, wish), MAX_INT, 1000000.0)
  }

  predicate Eligible(m: Mode, outputModes: Option<seq<int>>) {
    outputModes.Some? ==> !m.interlaced && m.id in outputModes.value
  }

  /** best is the first of the least eligible modes; None if no eligible mode is acceptable. */
  ghost predicate IsBest(modes: seq<Mode>, wish: Wish, outputs: Option<seq<int>>, best: Option<nat>) {
    match best
    case None =>
      forall i :: 0 <= i < |modes| && Eligible(modes[i], outputs) ==> !Acceptable(modes[i], wish)
    case Some(b) =>
      && b < |modes| && Eligible(modes[b], outputs) && Acceptable(modes[b], wish)
      && (forall i :: 0 <= i < |modes| && Eligible(modes[i], outputs) ==> !Beats(modes[i], modes[b], wish))
      && (forall i :: 0 <= i < b && Eligible(modes[i], outputs) ==> Beats(modes[b], modes[i], wish))
  }

  lemma BestNext(modes: seq<Mode>, n: nat, wish: Wish, outputs: Option<seq<int>>, best: Option<nat>)
    requires n < |modes| && IsBest(modes[..n], wish, outputs, best)
    ensures var m := modes[n];
            IsBest(modes[..n + 1], wish, outputs,
                   if Eligible(m, outputs) && (if best.Some? then Beats(m, modes[best.value], wish) else Acceptable(m, wish))
                   then Some(n) else best)
  {
    assert modes[..n + 1] == modes[..n] + [modes[n]];
  }

  /** Both searches: every mode, or with RandR the non-interlaced ones of the primary output. */
  method FindMode(modes: seq<Mode>, wish: Wish, outputs: Option<seq<int>>) returns (best: Option<nat>)
    requires forall i :: 0 <= i < |modes| && Eligible(modes[i], outputs) ==> NoOverflow(modes[i], wish)
    ensures IsBest(modes, wish, outputs, best)
  {
    best := None;
    var bestSizeError, bestRefreshRateError := MAX_INT, 1000000.0;
    for i := 0 to |modes|
      invariant IsBest(modes[..i], wish, outputs, best)
      invariant best.None? ==> bestSizeError == MAX_INT && bestRefreshRateError == 1000000.0
      invariant best.Some? ==> bestSizeError == SizeError(modes[best.value], wish)
                               && bestRefreshRateError == RefreshRateError(modes[best.value], wish)
    {
      BestNext(modes, i, wish, outputs, best);
      var mode := modes[i];
      var valid := true;
      if outputs.Some? {
        valid := false;
        if !mode.interlaced {
          valid := ValidOutputMode(mode.id, outputs.value);
        }
      }
      if valid {
        var sizeError, refreshRateError := SizeError(mode, wish), RefreshRateError(mode, wish);
        if sizeError < bestSizeError
           || (sizeError == bestSizeError && refreshRateError < bestRefreshRateError)
        {
          best := Some(i);
          bestSizeError, bestRefreshRateError := sizeError, refreshRateError;
        }
      }
    }
    assert modes[..|modes|] == modes;
  }

  method ValidOutputMode(id: int, outputModes: seq<int>) returns (valid: bool)
    ensures valid <==> id in outputModes
  {
    valid := false;
    for j := 0 to |outputModes|
      invariant !valid && id !in outputModes[..j]
    {
      if id == outputModes[j] {
        valid := true;
        break;
      }
    }
  }

  /** Differences of at most 32767 are safe, and no larger bound is. */
  lemma SafeDifferences(bound: int)
    requires 0 <= bound
    ensures (forall dw: int, dh: int :: -bound <= dw <= bound && -bound <= dh <= bound ==> Square(dw) + Square(dh) <= MAX_INT)
            <==> bound <= 32767
  {
    if bound <= 32767 {
      forall dw: int, dh: int | -bound <= dw <= bound && -bound <= dh <= bound
        ensures Square(dw) + Square(dh) <= MAX_INT
      {
        SquareBound(dw, 32767);
        SquareBound(dh, 32767);
      }
    } else {
      assert Square(32768) + Square(32768) > MAX_INT;
    }
  }

  function Square(x: int): int {
    x * x
  }

  lemma SquareBound(x: int, b: int)
    requires -b <= x <= b
    ensures 0 <= Square(x) <= Square(b)
  {
    if x >= 0 {
      assert x * x <= x * b <= b * b;
    } else {
      assert (-x) * (-x) <= (-x) * b <= b * b;
    }
  }

  /** Within them some mode is found as soon as one is eligible. */
  lemma SomeModeFound(modes: seq<Mode>, wish: Wish, outputs: Option<seq<int>>, best: Option<nat>)
    requires IsBest(modes, wish, outputs, best)
    requires forall i :: 0 <= i < |modes| ==>
               -32767 <= modes[i].width - wish.width <= 32767 && -32767 <= modes[i].height - wish.height <= 32767
    ensures best.Some? <==> exists i :: 0 <= i < |modes| && Eligible(modes[i], outputs)
  {
    forall i | 0 <= i < |modes|
      ensures Acceptable(modes[i], wish)
    {
      SquareBound(modes[i].width - wish.width, 32767);
      SquareBound(modes[i].height - wish.height, 32767);
      assert SizeError(modes[i], wish) == Square(modes[i].width - wish.width) + Square(modes[i].height - wish.height);
    }
  }

  /** How far the size of the mode is from the one that is wished for, squared. */
  function Distance(m: Mode, wish: Wish): int {
    (m.width - wish.width) * (m.width - wish.width) + (m.height - wish.height) * (m.height - wish.height)
  }

  function Apart(x: real, y: real): real {
    if x <= y then y - x else x - y
  }

  /** The mode that is found is among the nearest in size, has among those the nearest refresh rate, and is
      the first such mode. */
  lemma BestIsNearest(modes: seq<Mode>, wish: Wish, outputs: Option<seq<int>>, b: nat, i: nat)
    requires IsBest(modes, wish, outputs, Some(b)) && i < |modes| && Eligible(modes[i], outputs)
    ensures b < |modes| && Distance(modes[b], wish) <= Distance(modes[i], wish)
    ensures Distance(modes[b], wish) == Distance(modes[i], wish) ==>
              var rate, other := Apart(modes[b].refreshRate, wish.refreshRate), Apart(modes[i].refreshRate, wish.refreshRate);
              rate <= other && (i < b ==> rate < other)
  {
    assert SizeError(modes[b], wish) == Distance(modes[b], wish) && SizeError(modes[i], wish) == Distance(modes[i], wish);
  }

  /** If a mode with exactly this size and rate is eligible, one like it is found. */
  lemma ExactMode(modes: seq<Mode>, wish: Wish, outputs: Option<seq<int>>, best: Option<nat>, i: nat)
    requires IsBest(modes, wish, outputs, best) && i < |modes| && Eligible(modes[i], outputs)
    requires modes[i].width == wish.width && modes[i].height == wish.height && modes[i].refreshRate == wish.refreshRate
    ensures best.Some? && best.value < |modes|
    ensures var m := modes[best.value]; m.width == wish.width && m.height == wish.height && m.refreshRate == wish.refreshRate
  {
    assert SizeError(modes[i], wish) == 0 && RefreshRateError(modes[i], wish) == 0.0;
    if best.Some? {
      BestIsNearest(modes, wish, outputs, best.value, i);
      NoDistance(modes[best.value], wish);
    }
  }

  lemma NoDistance(m: Mode, wish: Wish)
    ensures Distance(m, wish) <= 0 ==> m.width == wish.width && m.height == wish.height
  {
    SquarePositive(m.width - wish.width);
    SquarePositive(m.height - wish.height);
    assert Distance(m, wish) == Square(m.width - wish.width) + Square(m.height - wish.height);
  }

  lemma SquarePositive(x: int)
    ensures Square(x) >= 0 && (Square(x) == 0 ==> x == 0)
  {
    if x > 0 {
      assert x * x >= x;
    } else if x < 0 {
      assert (-x) * (-x) >= -x;
    }
  }
}
