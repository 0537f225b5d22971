/** Calibration of the receive timestamper (dev/rxts_calibrator.c): scans the phase shifter, finds the
    rising and the falling transition of the flip bit through two deglitchers and merges them. */
module RxtsCalibrator {

  const STEP := 100                 // CAL_SCAN_STEP
  const THRESHOLD := 5              // CAL_DEGLITCH_THRESHOLD
  const PERIOD := 8000              // REF_CLOCK_PERIOD_PS
  const SCAN_RANGE := 9500          // PERIOD + 3 * THRESHOLD * STEP
  const SAMPLES := 96               // scan positions 0, STEP, ..., SCAN_RANGE

  datatype DetectState = WaitInactive | GotTransition | Done

  /** Five samples in a row, starting at `i`. */
  predicate Run(h: seq<bool>, b: bool, i: int) {
    0 <= i && i + THRESHOLD <= |h| && h[i] == b && h[i + 1] == b && h[i + 2] == b && h[i + 3] == b && h[i + 4] == b
  }

  /** The last `n` samples are `b`. */
  predicate Ends(h: seq<bool>, b: bool, n: nat) {
    n <= |h| && forall k :: |h| - n <= k < |h| ==> h[k] == b
  }

  lemma RunSnoc(h: seq<bool>, x: bool, b: bool, i: int)
    ensures Run(h + [x], b, i) <==> Run(h, b, i) || (i + THRESHOLD == |h| + 1 && x == b && i >= 0 && Ends(h, b, 4))
  {
  }

  class TransitionDetector {
    var sampleCount: nat
    var state: DetectState
    var transPhase: int
    ghost var h: seq<bool>   // samples so far: was the bit at the level looked for?
    ghost var from: nat      // samples seen when the inactive level was accepted
    ghost var edge: nat      // last inactive sample before the transition found

    constructor ()
      ensures Valid() && h == [] && state == WaitInactive
    {
      sampleCount, state, transPhase := 0, WaitInactive, 0;
      h, from, edge := [], 0, 0;
    }

    ghost predicate Valid()
      reads this
    {
      match state
      case WaitInactive =>
        && sampleCount < THRESHOLD && Ends(h, false, sampleCount)
        && (sampleCount < |h| ==> h[|h| - sampleCount - 1])
        && (forall i :: !Run(h, false, i))
      case GotTransition =>
        && sampleCount < THRESHOLD && Ends(h, true, sampleCount)
        && THRESHOLD <= from && from + sampleCount <= |h|
        && !h[|h| - sampleCount - 1]
        && (forall i :: i + THRESHOLD < from ==> !Run(h, false, i))
        && (forall i :: from <= i ==> !Run(h, true, i))
      case Done =>
        && transPhase == STEP * edge && edge < |h| && !h[edge] && Run(h, true, edge + 1)
    }

    /** After a full scan of a wave the detector is done, and what it found lies at the edge. */
    lemma Finished(rise: int, noise: int)
      requires Valid() && |h| == SAMPLES && SquareWave(h, rise, noise) && 0 <= noise <= 200 && 0 <= rise < PERIOD
      ensures state == Done
      ensures Place(edge, rise) <= noise || Place(edge, rise) >= PERIOD - noise - STEP
    {
      var i, j := ScanHoldsBoth(h, rise, noise);
      if state == Done { DoneNear(h, rise, noise, edge); }
    }

    /** lookup_transition, called once per scan position */
    method Lookup(flipBit: bool, phase: int, polarity: bool) returns (done: bool)
      requires Valid() && phase == STEP * |h|
      modifies this
      ensures Valid() && h == old(h) + [flipBit == polarity]
      ensures done <==> old(state) == Done
    {
      ghost var active := flipBit == polarity;
      forall i, b
        ensures Run(h + [active], b, i)
                <==> Run(h, b, i) || (i + THRESHOLD == |h| + 1 && active == b && i >= 0 && Ends(h, b, 4))
      {
        RunSnoc(h, active, b, i);
      }
      done := false;
      match state {
        case WaitInactive =>
          if flipBit != polarity { sampleCount := sampleCount + 1; } else { sampleCount := 0; }
          if sampleCount >= THRESHOLD {
            state := GotTransition;
            sampleCount := 0;
            from := |h| + 1;
          }
        case GotTransition =>
          if flipBit != polarity {
            sampleCount := 0;
          } else {
            sampleCount := sampleCount + 1;
            if sampleCount >= THRESHOLD {
              state := Done;
              transPhase := phase - THRESHOLD * STEP;
              edge := |h| - THRESHOLD;
            }
          }
        case Done =>
          done := true;
      }
      h := h + [active];
    }
  }

  // ----- a square wave seen through noise -----

  /** Place of scan position `k` in a wave that rises at `rise`. */
  function Place(k: nat, rise: int): int {
    (STEP * k - rise) % PERIOD
  }

  /** High for half a period from `rise` on, low for the other half; within `noise` of an edge anything. */
  ghost predicate SquareWave(h: seq<bool>, rise: int, noise: int) {
    forall k :: 0 <= k < |h| ==>
      && (noise < Place(k, rise) < PERIOD / 2 - noise ==> h[k])
      && (PERIOD / 2 + noise < Place(k, rise) < PERIOD - noise ==> !h[k])
  }

  /** Circular distance at most `d`. */
  predicate Near(x: int, y: int, d: int) {
    var p := (x - y) % PERIOD;
    p <= d || p >= PERIOD - d
  }

  lemma PlaceStep(k: nat, rise: int, m: nat)
    requires Place(k, rise) + STEP * m < PERIOD
    ensures Place(k + m, rise) == Place(k, rise) + STEP * m
  {
    var a := STEP * k - rise;
    ModUnique(a + STEP * m, a / PERIOD, a % PERIOD + STEP * m);
  }

  lemma ModUnique(n: int, q: int, r: int)
    requires n == PERIOD * q + r && 0 <= r < PERIOD
    ensures n % PERIOD == r
  {
  }

  /** Whatever a detector reports lies at the rising edge. */
  lemma DoneNear(h: seq<bool>, rise: int, noise: int, e: nat)
    requires SquareWave(h, rise, noise) && 0 <= noise <= 200
    requires e < |h| && !h[e] && Run(h, true, e + 1)
    ensures Place(e, rise) <= noise || Place(e, rise) >= PERIOD - noise - STEP
  {
    var p := Place(e, rise);
    if noise < p < PERIOD - noise - STEP {
      if p < PERIOD - noise - 5 * STEP {
        PlaceStep(e, rise, 5);
      } else {
        PlaceStep(e, rise, 1);
      }
    }
  }

  lemma LevelRun(h: seq<bool>, rise: int, noise: int, i: nat, b: bool)
    requires SquareWave(h, rise, noise) && 0 <= noise <= 200 && i + 5 <= |h|
    requires b ==> noise < Place(i, rise) && Place(i, rise) + 4 * STEP < PERIOD / 2 - noise
    requires !b ==> PERIOD / 2 + noise < Place(i, rise) && Place(i, rise) + 4 * STEP < PERIOD - noise
    ensures Run(h, b, i)
  {
    PlaceStep(i, rise, 1);
    PlaceStep(i, rise, 2);
    PlaceStep(i, rise, 3);
    PlaceStep(i, rise, 4);
  }

  /** The scan is long enough to hold a clean low run followed by a clean high run, wherever the edge is. */
  lemma ScanHoldsBoth(h: seq<bool>, rise: int, noise: int) returns (i: nat, j: nat)
    requires SquareWave(h, rise, noise) && 0 <= noise <= 200 && 0 <= rise < PERIOD && |h| == SAMPLES
    ensures Run(h, false, i) && Run(h, true, j) && i + 5 <= j
  {
    hide SquareWave, Run;
    var r := rise / STEP;
    if r >= 8 {
      i, j := r - 7, r + 4;
      ModUnique(STEP * i - rise, -1, STEP * i - rise + PERIOD);
      ModUnique(STEP * j - rise, 0, STEP * j - rise);
    } else {
      i, j := r + 73, r + 84;
      ModUnique(STEP * i - rise, 0, STEP * i - rise);
      ModUnique(STEP * j - rise, 1, STEP * j - rise - PERIOD);
    }
    LevelRun(h, rise, noise, i, false);
    LevelRun(h, rise, noise, j, true);
  }

  lemma OppositePlace(k: nat, rise: int, fall: int)
    requires fall == if rise < PERIOD / 2 then rise + PERIOD / 2 else rise - PERIOD / 2
    ensures var p, o := Place(k, rise), Place(k, fall);
            0 <= p < PERIOD && o == if p < PERIOD / 2 then p + PERIOD / 2 else p - PERIOD / 2
  {
    var p := Place(k, rise);
    var q := (STEP * k - rise) / PERIOD + if rise < PERIOD / 2 then 0 else 1;
    if p >= PERIOD / 2 {
      ModUnique(STEP * k - fall, q, p - PERIOD / 2);
    } else {
      ModUnique(STEP * k - fall, q - 1, p + PERIOD / 2);
    }
  }

  /** The opposite level of a wave is a wave that rises half a period later. */
  lemma ComplementWave(h: seq<bool>, g: seq<bool>, rise: int, fall: int, noise: int)
    requires SquareWave(h, rise, noise) && 0 <= noise && |g| == |h| && forall k :: 0 <= k < |h| ==> g[k] == !h[k]
    requires fall == if rise < PERIOD / 2 then rise + PERIOD / 2 else rise - PERIOD / 2
    ensures SquareWave(g, fall, noise)
  {
    hide Place;
    forall k: nat | k < |g|
      ensures noise < Place(k, fall) < PERIOD / 2 - noise ==> g[k]
      ensures PERIOD / 2 + noise < Place(k, fall) < PERIOD - noise ==> !g[k]
    {
      OppositePlace(k, rise, fall);
    }
  }

  // ----- merging the two edges -----

  function HalfTowardsZero(n: int): int { if n >= 0 then n / 2 else -(-n / 2) }

  /** The transition point from the normalised rising and falling transitions. */
  function Merged(r: int, f: int): int {
    IntoPeriod(HalfTowardsZero((if f > r then f - PERIOD / 2 else if f < r then f + PERIOD / 2 else 0) + r))
  }

  function IntoPeriod(t: int): int {
    if t < 0 then t + PERIOD else if t >= PERIOD then t - PERIOD else t
  }

  lemma HalfOfEven(n: int)
    requires n % 2 == 0
    ensures 2 * HalfTowardsZero(n) == n
  {
  }

  /** Twice the merged value, before it is brought into the period. */
  lemma MergedSum(r: int, f: int, rise: int, fall: int, a: int, b: int)
    requires 0 <= r < PERIOD && 0 <= f < PERIOD && 0 <= rise < PERIOD
    requires fall == if rise < PERIOD / 2 then rise + PERIOD / 2 else rise - PERIOD / 2
    requires -300 <= a <= 300 && -300 <= b <= 300
    requires r == rise + a || r == rise + a - PERIOD || r == rise + a + PERIOD
    requires f == fall + b || f == fall + b - PERIOD || f == fall + b + PERIOD
    ensures f != r
    ensures var sum := (if f > r then f - PERIOD / 2 else f + PERIOD / 2) + r;
            && sum == 2 * r + b - a
            && -600 <= sum < 2 * PERIOD + 600
  {
  }

  lemma NearBy(m: int, y: int, c: int, d: int)
    requires -d <= c <= d && 0 <= d < PERIOD / 2
    requires m == y + c || m == y + c - PERIOD || m == y + c + PERIOD
    ensures Near(m, y, d)
  {
    var q := if m == y + c then 0 else if m == y + c - PERIOD then -1 else 1;
    if c >= 0 { ModUnique(m - y, q, c); } else { ModUnique(m - y, q - 1, c + PERIOD); }
  }

  /** Two scan positions that lie a little before or after the edge and half a period on merge to
      something just as near the edge. */
  lemma MergedNear(r: int, f: int, rise: int, fall: int, a: int, b: int, spread: int)
    requires 0 <= r < PERIOD && 0 <= f < PERIOD && 0 <= rise < PERIOD
    requires fall == if rise < PERIOD / 2 then rise + PERIOD / 2 else rise - PERIOD / 2
    requires -spread <= a <= spread && -spread <= b <= spread && 0 <= spread <= 300
    requires r == rise + a || r == rise + a - PERIOD || r == rise + a + PERIOD
    requires f == fall + b || f == fall + b - PERIOD || f == fall + b + PERIOD
    requires r % 2 == 0 && f % 2 == 0
    ensures 0 <= Merged(r, f) < PERIOD && Near(Merged(r, f), rise, spread)
  {
    hide Near, IntoPeriod, HalfTowardsZero;
    MergedSum(r, f, rise, fall, a, b);
    var sum := (if f > r then f - PERIOD / 2 else f + PERIOD / 2) + r;
    HalfNear(sum, r, rise, a, b, spread);
  }

  /** It is the middle: as far from the edge as the two positions are on average. */
  lemma MergedMidway(r: int, f: int, rise: int, fall: int, a: int, b: int)
    requires 0 <= r < PERIOD && 0 <= f < PERIOD && 0 <= rise < PERIOD
    requires fall == if rise < PERIOD / 2 then rise + PERIOD / 2 else rise - PERIOD / 2
    requires -300 <= a <= 300 && -300 <= b <= 300
    requires r == rise + a || r == rise + a - PERIOD || r == rise + a + PERIOD
    requires f == fall + b || f == fall + b - PERIOD || f == fall + b + PERIOD
    requires r % 2 == 0 && f % 2 == 0
    ensures (2 * (Merged(r, f) - rise) - (a + b)) % (2 * PERIOD) == 0
  {
    hide HalfTowardsZero;
    MergedSum(r, f, rise, fall, a, b);
    var sum := (if f > r then f - PERIOD / 2 else f + PERIOD / 2) + r;
    HalfOfEven(sum);
  }

  lemma HalfNear(sum: int, r: int, rise: int, a: int, b: int, spread: int)
    requires sum == 2 * r + b - a && sum % 2 == 0 && -600 <= sum < 2 * PERIOD + 600
    requires -spread <= a <= spread && -spread <= b <= spread && 0 <= spread <= 300
    requires 0 <= rise < PERIOD && 0 <= r < PERIOD
    requires r == rise + a || r == rise + a - PERIOD || r == rise + a + PERIOD
    ensures var m := IntoPeriod(HalfTowardsZero(sum)); 0 <= m < PERIOD && Near(m, rise, spread)
  {
    HalfOfEven(sum);
    var t := HalfTowardsZero(sum);
    var c := t - r + a;
    assert 2 * c == a + b;
    NearBy(IntoPeriod(t), rise, c, spread);
  }

  // ----- the whole calibration -----

  /** What one call of rxts_calibration_update meets: whether the phase shifter is busy, and else the flip bit. */
  datatype Call = Call(busy: bool, flip: bool)

  /** The flip bits that are looked at. */
  function Flips(calls: seq<Call>): seq<bool> {
    if calls == [] then []
    else
      var last := calls[|calls| - 1];
      Flips(calls[..|calls| - 1]) + if last.busy then [] else [last.flip]
  }

  lemma {:induction false} FlipsPrefix(calls: seq<Call>, i: nat)
    requires i <= |calls|
    ensures |Flips(calls[..i])| <= |Flips(calls)|
    ensures Flips(calls[..i]) == Flips(calls)[..|Flips(calls[..i])|]
    ensures |Flips(calls[..i])| < |Flips(calls)| ==> i < |calls|
  {
    if i == |calls| {
      assert calls[..i] == calls;
    } else {
      var front := calls[..|calls| - 1];
      FlipsPrefix(front, i);
      assert front[..i] == calls[..i];
    }
  }

  class Calibrator {
    const rising: TransitionDetector
    const falling: TransitionDetector
    var curPhase: nat

    /** rxts_calibration_start */
    constructor ()
      ensures Valid() && curPhase == 0 && fresh(rising) && fresh(falling)
    {
      rising := new TransitionDetector();
      falling := new TransitionDetector();
      curPhase := 0;
    }

    ghost predicate Valid()
      reads this, rising, falling
    {
      && rising != falling && rising.Valid() && falling.Valid()
      && |rising.h| == |falling.h| && curPhase == STEP * |rising.h|
      && forall k :: 0 <= k < |rising.h| ==> falling.h[k] == !rising.h[k]
    }

    ghost predicate Complete()
      reads this, rising, falling
    {
      && rising.Valid() && falling.Valid()
      && |rising.h| == SAMPLES && |falling.h| == SAMPLES
      && forall k :: 0 <= k < SAMPLES ==> falling.h[k] == !rising.h[k]
    }

    /** rxts_calibration_update: 0 to go on, 1 done, -1 failed. While the phase shifter is busy nothing happens. */
    method Update(call: Call) returns (rv: int, t24p: int)
      requires Valid() && curPhase <= SCAN_RANGE
      modifies this, rising, falling
      ensures call.busy ==> rv == 0 && Valid() && rising.h == old(rising.h) && curPhase == old(curPhase)
      ensures !call.busy ==> rising.h == old(rising.h) + [call.flip] && falling.h == old(falling.h) + [!call.flip]
      ensures rising.Valid() && falling.Valid()
      ensures !call.busy ==> (rv == 0 <==> old(curPhase) < SCAN_RANGE)
      ensures rv == 0 ==> Valid()
      ensures rv != 0 ==> Complete()
      ensures rv != 0 ==> rv == if rising.state == Done && falling.state == Done then 1 else -1
      ensures rv == 1 ==> t24p == Merged(rising.transPhase % PERIOD, falling.transPhase % PERIOD)
    {
      hide TransitionDetector.Valid, Merged;
      t24p := 0;
      if call.busy { return 0, t24p; }
      var d1 := rising.Lookup(call.flip, curPhase, true);
      var d2 := falling.Lookup(call.flip, curPhase, false);
      if curPhase >= SCAN_RANGE {
        if rising.state != Done || falling.state != Done { return -1, t24p; }
        t24p := MergeEdges(rising.transPhase, falling.transPhase);
        return 1, t24p;
      }
      curPhase := curPhase + STEP;
      rv := 0;
    }

    /** The calls of rxts_calibration_update until it reports an end. */
    method Scan(calls: seq<Call>) returns (rv: int, t24p: int)
      requires Valid() && curPhase == 0 && |Flips(calls)| >= SAMPLES
      modifies this, rising, falling
      ensures Complete() && rising.h == Flips(calls)[..SAMPLES]
      ensures rv == if rising.state == Done && falling.state == Done then 1 else -1
      ensures rv == 1 ==> t24p == Merged(rising.transPhase % PERIOD, falling.transPhase % PERIOD)
    {
      rv, t24p := 0, 0;
      var i := 0;
      assert calls[..0] == [];
      while rv == 0
        invariant 0 <= i <= |calls| && rising.h == Flips(calls[..i])
        invariant rv == 0 ==> Valid() && |rising.h| < SAMPLES
        invariant rv != 0 ==> Complete()
        invariant rv != 0 ==> rv == if rising.state == Done && falling.state == Done then 1 else -1
        invariant rv == 1 ==> t24p == Merged(rising.transPhase % PERIOD, falling.transPhase % PERIOD)
        decreases |calls| - i
      {
        FlipsPrefix(calls, i);
        rv, t24p := Update(calls[i]);
        i := i + 1;
        assert calls[..i][..i - 1] == calls[..i - 1];
      }
      FlipsPrefix(calls, i);
    }

    /** Whatever the flip bit does within 200 ps of its edges, and however often the phase shifter is busy, the
        calibration succeeds and its result lies in the period, one scan step plus that much from the rising edge. */
    method Calibrate(calls: seq<Call>, ghost rise: int, ghost noise: int) returns (rv: int, t24p: int)
      requires Valid() && curPhase == 0 && |Flips(calls)| >= SAMPLES
      requires 0 <= rise < PERIOD && 0 <= noise <= 200 && SquareWave(Flips(calls)[..SAMPLES], rise, noise)
      modifies this, rising, falling
      ensures rv == 1 && 0 <= t24p < PERIOD && Near(t24p, rise, noise + STEP)
    {
      rv, t24p := Scan(calls);
      ScanResult(rise, noise);
    }

    /** What the two detectors hold after a full scan. */
    lemma ScanResult(rise: int, noise: int)
      requires Complete() && 0 <= rise < PERIOD && 0 <= noise <= 200 && SquareWave(rising.h, rise, noise)
      ensures rising.state == Done && falling.state == Done
      ensures var m := Merged(rising.transPhase % PERIOD, falling.transPhase % PERIOD);
              0 <= m < PERIOD && Near(m, rise, noise + STEP)
    {
      var fall := if rise < PERIOD / 2 then rise + PERIOD / 2 else rise - PERIOD / 2;
      ComplementWave(rising.h, falling.h, rise, fall, noise);
      rising.Finished(rise, noise);
      falling.Finished(fall, noise);
      var a := EdgeOffset(rising.edge, rise, noise);
      var b := EdgeOffset(falling.edge, fall, noise);
      MergedNear(rising.transPhase % PERIOD, falling.transPhase % PERIOD, rise, fall, a, b, noise + STEP);
    }
  }

  /** The last part of rxts_calibration_update: the falling edge serves as a second sample of the rising one. */
  method MergeEdges(rise: nat, fall: nat) returns (ttrans: int)
    ensures ttrans == Merged(rise % PERIOD, fall % PERIOD)
  {
    var f := Normalise(fall);
    var r := Normalise(rise);
    ttrans := 0;
    if f > r { ttrans := f - PERIOD / 2; } else if f < r { ttrans := f + PERIOD / 2; }
    ttrans := ttrans + r;
    ttrans := HalfTowardsZero(ttrans);
    if ttrans < 0 { ttrans := ttrans + PERIOD; }
    if ttrans >= PERIOD { ttrans := ttrans - PERIOD; }
  }

  /** The last sample before an edge, as an offset from the edge within the period. */
  lemma EdgeOffset(e: nat, rise: int, noise: int) returns (a: int)
    requires 0 <= rise < PERIOD && 0 <= noise <= 200
    requires Place(e, rise) <= noise || Place(e, rise) >= PERIOD - noise - STEP
    ensures -(noise + STEP) <= a <= noise + STEP
    ensures var r := STEP * e % PERIOD;
            && (r == rise + a || r == rise + a - PERIOD || r == rise + a + PERIOD)
            && 0 <= r < PERIOD && r % 2 == 0
  {
    var p, q := Place(e, rise), (STEP * e - rise) / PERIOD;
    a := if p <= noise then p else p - PERIOD;
    var r := rise + p;
    ModUnique(STEP * e, if r < PERIOD then q else q + 1, if r < PERIOD then r else r - PERIOD);
    EvenModulo(e);
  }

  lemma EvenModulo(e: nat)
    ensures STEP * e % PERIOD % 2 == 0
  {
    assert STEP * e == PERIOD * (STEP * e / PERIOD) + STEP * e % PERIOD;
  }

  method Normalise(p: nat) returns (n: int)
    ensures n == p % PERIOD
  {
    n := p;
    while n >= PERIOD
      invariant n >= 0 && n % PERIOD == p % PERIOD
    {
      ModUnique(n - PERIOD, n / PERIOD - 1, n % PERIOD);
      n := n - PERIOD;
    }
  }
}
