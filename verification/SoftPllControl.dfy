/** Building blocks of the SoftPLL (softpll/spll_common.c): the PI controller with anti-windup and the
    lock detector with hysteresis. */
module SoftPllControl {

  const PI_FRACBITS_SCALE := 4096  // 1 << PI_FRACBITS

  predicate FitsInt32(n: int) { -0x8000_0000 <= n < 0x8000_0000 }

  function Abs(n: int): nat { if n < 0 then -n else n }

  // ----- PI controller -----

  datatype PiState = PiState(kp: int, ki: int, integrator: int, bias: int, antiWindup: bool,
                             yMin: int, yMax: int, x: int, y: int)

  /** Output before clamping; the shift rounds towards minus infinity. */
  function Unclamped(s: PiState, x: int): int {
    ((s.integrator + x) * s.ki + x * s.kp) / PI_FRACBITS_SCALE + s.bias
  }

  function Clamp(n: int, lo: int, hi: int): int {
    if n < lo then lo else if n > hi then hi else n
  }

  /** The integrator moves unless the output is out of range and the sample pushes it further out. */
  predicate Integrates(s: PiState, x: int) {
    s.antiWindup ==>
      && (Unclamped(s, x) < s.yMin ==> x > 0)
      && (s.yMin <= Unclamped(s, x) && s.yMax < Unclamped(s, x) ==> x < 0)
  }

  function PiStep(s: PiState, x: int): PiState {
    s.(integrator := if Integrates(s, x) then s.integrator + x else s.integrator,
       x := x,
       y := Clamp(Unclamped(s, x), s.yMin, s.yMax))
  }

  class PiController {
    var kp: int
    var ki: int
    var integrator: int
    var bias: int
    var antiWindup: bool
    var yMin: int
    var yMax: int
    var x: int
    var y: int

    constructor (kp: int, ki: int, bias: int, yMin: int, yMax: int)
      ensures State() == PiState(kp, ki, 0, bias, true, yMin, yMax, 0, bias)
    {
      this.kp, this.ki, this.bias, this.yMin, this.yMax := kp, ki, bias, yMin, yMax;
      antiWindup, integrator, x, y := true, 0, 0, bias;
    }

    function State(): PiState
      reads this
    {
      PiState(kp, ki, integrator, bias, antiWindup, yMin, yMax, x, y)
    }

    /** pi_init */
    method Init()
      modifies this`integrator, this`y
      ensures State() == old(State()).(integrator := 0, y := bias)
    {
      integrator, y := 0, bias;
    }

    /** pi_update */
    method Update(sample: int) returns (out: int)
      modifies this
      ensures State() == PiStep(old(State()), sample) && out == y
    {
      x := sample;
      var iNew := integrator + sample;
      out := (iNew * ki + sample * kp) / PI_FRACBITS_SCALE + bias;
      if out < yMin {
        out := yMin;
        if (antiWindup && iNew > integrator) || !antiWindup { integrator := iNew; }
      } else if out > yMax {
        out := yMax;
        if (antiWindup && iNew < integrator) || !antiWindup { integrator := iNew; }
      } else {
        integrator := iNew;
      }
      y := out;
    }
  }

  /** Where anti-windup keeps the integrator: what it alone contributes to the output stays in the output range. */
  ghost predicate IntegratorBounded(s: PiState) {
    && s.antiWindup && s.yMin <= s.bias && s.bias <= s.yMax && s.kp >= 0 && s.ki > 0
    && (s.yMin - s.bias) * PI_FRACBITS_SCALE <= s.ki * s.integrator < (s.yMax - s.bias + 1) * PI_FRACBITS_SCALE
  }

  /** The interval holds at start and is kept by every sample, however large, so it holds in every run. */
  lemma IntegratorStaysBounded(s: PiState, x: int)
    requires IntegratorBounded(s)
    ensures IntegratorBounded(PiStep(s, x))
  {
    var i := s.integrator + x;
    ScaleBounds(i * s.ki + x * s.kp);
    MulSign(s.ki, s.integrator, x);
    ScaleSign(s.kp, x);
  }

  /** What the controller computes for a sample fits 32 bits. */
  predicate ControlFits(s: PiState, x: int) {
    && FitsInt32(s.integrator + x) && FitsInt32((s.integrator + x) * s.ki) && FitsInt32(x * s.kp)
    && FitsInt32((s.integrator + x) * s.ki + x * s.kp)
  }

  lemma ScaleBounds(n: int)
    ensures n / PI_FRACBITS_SCALE * PI_FRACBITS_SCALE <= n < (n / PI_FRACBITS_SCALE + 1) * PI_FRACBITS_SCALE
  {
  }

  lemma MulSign(k: int, i: int, x: int)
    requires k > 0
    ensures k * (i + x) == k * i + k * x && (i + x) * k == k * (i + x)
    ensures (x > 0 ==> k * x > 0) && (x < 0 ==> k * x < 0)
  {
  }

  lemma ScaleSign(k: int, x: int)
    requires k >= 0
    ensures (x > 0 ==> x * k >= 0) && (x < 0 ==> x * k <= 0)
  {
  }

  function PiRun(s: PiState, xs: seq<int>): PiState {
    if xs == [] then s else PiStep(PiRun(s, xs[..|xs| - 1]), xs[|xs| - 1])
  }

  lemma {:induction false} RunStaysBounded(s: PiState, xs: seq<int>)
    requires IntegratorBounded(s)
    ensures IntegratorBounded(PiRun(s, xs))
    ensures PiRun(s, xs) == s.(integrator := PiRun(s, xs).integrator, x := PiRun(s, xs).x, y := PiRun(s, xs).y)
    ensures xs != [] ==> s.yMin <= PiRun(s, xs).y <= s.yMax
  {
    if xs != [] {
      RunStaysBounded(s, xs[..|xs| - 1]);
      IntegratorStaysBounded(PiRun(s, xs[..|xs| - 1]), xs[|xs| - 1]);
    }
  }

  function Sum(xs: seq<int>): int {
    if xs == [] then 0 else Sum(xs[..|xs| - 1]) + xs[|xs| - 1]
  }

  /** What the samples drive the output to: ki times all of them, and what there was before, and kp times the last. */
  function Drive(s: PiState, xs: seq<int>): int
    requires xs != []
  {
    s.bias + (s.ki * (s.integrator + Sum(xs)) + s.kp * xs[|xs| - 1]) / PI_FRACBITS_SCALE
  }

  predicate InRange(s: PiState, y: int) { s.yMin <= y <= s.yMax }

  /** As long as nothing saturates the controller is linear: the output is what the samples drive it to. */
  lemma {:induction false} LinearRun(s: PiState, xs: seq<int>)
    requires forall n :: 0 < n <= |xs| ==> InRange(s, Drive(s, xs[..n]))
    ensures PiRun(s, xs).integrator == s.integrator + Sum(xs)
    ensures PiRun(s, xs) == s.(integrator := PiRun(s, xs).integrator, x := PiRun(s, xs).x, y := PiRun(s, xs).y)
    ensures xs != [] ==> PiRun(s, xs).y == Drive(s, xs)
    decreases |xs|, 1
  {
    if xs != [] {
      BeforeLast(s, xs);
      LastSample(s, xs);
      assert xs[..|xs|] == xs;
    }
  }

  /** The samples have been added to the integrator, and the settings are as they were. */
  predicate Linear(s: PiState, xs: seq<int>) {
    var t := PiRun(s, xs);
    t.integrator == s.integrator + Sum(xs) && t == s.(integrator := t.integrator, x := t.x, y := t.y)
  }

  lemma BeforeLast(s: PiState, xs: seq<int>)
    requires xs != [] && forall n :: 0 < n < |xs| ==> InRange(s, Drive(s, xs[..n]))
    ensures Linear(s, xs[..|xs| - 1])
    decreases |xs|, 0
  {
    var front := xs[..|xs| - 1];
    forall n | 0 < n <= |front| ensures InRange(s, Drive(s, front[..n])) { assert front[..n] == xs[..n]; }
    LinearRun(s, front);
  }

  lemma LastSample(s: PiState, xs: seq<int>)
    requires xs != [] && forall n :: 0 < n < |xs| ==> InRange(s, Drive(s, xs[..n]))
    requires Linear(s, xs[..|xs| - 1])
    ensures PiRun(s, xs).y == Clamp(Drive(s, xs), s.yMin, s.yMax)
    ensures PiRun(s, xs).integrator == s.integrator + Sum(if WindsUp(s, xs) then xs[..|xs| - 1] else xs)
    ensures PiRun(s, xs) == s.(integrator := PiRun(s, xs).integrator, x := PiRun(s, xs).x, y := PiRun(s, xs).y)
  {
    hide Drive, Unclamped, Clamp;
    Driven(s, xs, PiRun(s, xs[..|xs| - 1]));
  }

  lemma Driven(s: PiState, xs: seq<int>, t: PiState)
    requires xs != [] && t.integrator == s.integrator + Sum(xs[..|xs| - 1])
    requires t.ki == s.ki && t.kp == s.kp && t.bias == s.bias
    ensures Unclamped(t, xs[|xs| - 1]) == Drive(s, xs)
  {
    var x := xs[|xs| - 1];
    assert s.integrator + Sum(xs) == t.integrator + x;
    assert (t.integrator + x) * t.ki == s.ki * (s.integrator + Sum(xs)) && x * t.kp == s.kp * x;
  }

  /** The output is driven out of range by a sample that does not pull it back. */
  predicate WindsUp(s: PiState, xs: seq<int>)
    requires xs != []
  {
    s.antiWindup && if Drive(s, xs) < s.yMin then xs[|xs| - 1] <= 0 else Drive(s, xs) > s.yMax && xs[|xs| - 1] >= 0
  }

  /** The first sample that drives the output out of range puts it at the limit it is beyond, and it is not added to
      the integrator unless it pulls back. */
  lemma FirstSaturation(s: PiState, xs: seq<int>)
    requires xs != [] && forall n :: 0 < n < |xs| ==> InRange(s, Drive(s, xs[..n]))
    ensures PiRun(s, xs).y == Clamp(Drive(s, xs), s.yMin, s.yMax)
    ensures PiRun(s, xs).integrator == s.integrator + Sum(if WindsUp(s, xs) then xs[..|xs| - 1] else xs)
  {
    BeforeLast(s, xs);
    LastSample(s, xs);
  }

  /** The output is at a limit exactly when the samples drive it there or beyond. */
  lemma LimitReached(s: PiState, xs: seq<int>)
    requires xs != [] && s.yMin < s.yMax && forall n :: 0 < n < |xs| ==> InRange(s, Drive(s, xs[..n]))
    ensures PiRun(s, xs).y == s.yMin <==> Drive(s, xs) <= s.yMin
    ensures PiRun(s, xs).y == s.yMax <==> Drive(s, xs) >= s.yMax
    ensures PiRun(s, xs).y == Drive(s, xs) <==> InRange(s, Drive(s, xs))
  {
    FirstSaturation(s, xs);
  }

  // ----- lock detector -----

  datatype LockState = LockState(lockCnt: int, lockSamples: int, delockSamples: int, threshold: int,
                                 locked: bool, changed: bool)

  predicate WellSet(l: LockState) { 0 <= l.delockSamples < l.lockSamples && l.threshold >= 0 }

  predicate InThreshold(l: LockState, err: int) { Abs(err) <= l.threshold }

  function LockStep(l: LockState, err: int): LockState {
    if InThreshold(l, err) then
      var cnt := if l.lockCnt < l.lockSamples then l.lockCnt + 1 else l.lockCnt;
      if cnt == l.lockSamples then l.(lockCnt := cnt, changed := true, locked := true)
      else l.(lockCnt := cnt, changed := false)
    else
      var cnt := if l.lockCnt > l.delockSamples then l.lockCnt - 1 else l.lockCnt;
      if cnt == l.delockSamples then l.(lockCnt := 0, changed := true, locked := false)
      else l.(lockCnt := cnt, changed := false)
  }

  /** Hysteresis: a locked detector counts above the delock level, an unlocked one below the lock level. */
  predicate Hysteresis(l: LockState) {
    && 0 <= l.lockCnt <= l.lockSamples
    && (l.locked ==> l.delockSamples < l.lockCnt)
    && (!l.locked ==> l.lockCnt < l.lockSamples)
  }

  lemma HysteresisKept(l: LockState, err: int)
    requires WellSet(l) && Hysteresis(l)
    ensures WellSet(LockStep(l, err)) && Hysteresis(LockStep(l, err))
  {
  }

  class LockDetector {
    var lockCnt: int
    var lockSamples: int
    var delockSamples: int
    var threshold: int
    var locked: bool
    var changed: bool
    ghost var good: nat  // in-threshold samples since the last Init

    constructor (threshold: int, lockSamples: int, delockSamples: int)
      ensures State() == LockState(0, lockSamples, delockSamples, threshold, false, false) && good == 0
    {
      this.threshold, this.lockSamples, this.delockSamples := threshold, lockSamples, delockSamples;
      lockCnt, locked, changed, good := 0, false, false, 0;
    }

    function State(): LockState
      reads this
    {
      LockState(lockCnt, lockSamples, delockSamples, threshold, locked, changed)
    }

    ghost predicate Valid()
      reads this
    {
      && WellSet(State()) && Hysteresis(State())
      && lockCnt <= good
      && (locked ==> good >= lockSamples)
    }

    /** ld_init */
    method Init()
      requires WellSet(State())
      modifies this
      ensures State() == old(State()).(lockCnt := 0, locked := false, changed := false)
      ensures Valid() && good == 0
    {
      locked, lockCnt, changed, good := false, 0, false, 0;
    }

    /** ld_update: 1 when locked, 0 when not, -1 when lock was just lost */
    method Update(err: int) returns (r: int)
      requires Valid()
      modifies this
      ensures State() == LockStep(old(State()), err)
      ensures Valid()
      ensures good == old(good) + if InThreshold(old(State()), err) then 1 else 0
      ensures r > 0 <==> locked
      ensures r < 0 <==> !locked && changed
    {
      changed := false;
      var abs := if err < 0 then -err else err;
      if abs <= threshold {
        good := good + 1;
        if lockCnt < lockSamples { lockCnt := lockCnt + 1; }
        if lockCnt == lockSamples {
          changed, locked := true, true;
          return 1;
        }
      } else {
        if lockCnt > delockSamples { lockCnt := lockCnt - 1; }
        if lockCnt == delockSamples {
          lockCnt, changed, locked := 0, true, false;
          return -1;
        }
      }
      return if locked then 1 else 0;
    }
  }

  function LockRun(l: LockState, errs: seq<int>): LockState {
    if errs == [] then l else LockStep(LockRun(l, errs[..|errs| - 1]), errs[|errs| - 1])
  }

  function Bad(l: LockState, errs: seq<int>): nat {
    if errs == [] then 0 else Bad(l, errs[..|errs| - 1]) + if InThreshold(l, errs[|errs| - 1]) then 0 else 1
  }

  /** Samples in threshold, one after the other, count up to the lock level and lock there: lock_samples of them lock
      any detector. */
  lemma {:induction false} GoodSamplesLock(l: LockState, errs: seq<int>)
    requires WellSet(l) && Hysteresis(l) && Bad(l, errs) == 0
    ensures var r := LockRun(l, errs);
            && r.lockCnt == (if l.lockCnt + |errs| < l.lockSamples then l.lockCnt + |errs| else l.lockSamples)
            && (r.locked <==> l.locked || l.lockCnt + |errs| >= l.lockSamples)
            && (errs != [] ==> (r.changed <==> l.lockCnt + |errs| >= l.lockSamples))
            && r == l.(lockCnt := r.lockCnt, locked := r.locked, changed := r.changed)
  {
    if errs != [] { GoodSamplesLock(l, errs[..|errs| - 1]); }
  }

  /** Samples out of threshold, one after the other, count down to the delock level, where the count is cleared and a
      locked detector unlocks: from a full lock that takes lock_samples - delock_samples. A count below that level
      stays. */
  lemma {:induction false} BadSamplesUnlock(l: LockState, errs: seq<int>)
    requires WellSet(l) && Hysteresis(l) && Bad(l, errs) == |errs|
    ensures var r := LockRun(l, errs);
            var left := l.lockCnt - |errs|;
            && (r.locked <==> l.locked && l.delockSamples < left)
            && (l.delockSamples < l.lockCnt ==> r.lockCnt == if l.delockSamples < left then left else 0)
            && (l.lockCnt < l.delockSamples ==> r.lockCnt == l.lockCnt)
            && (l.lockCnt == l.delockSamples && errs != [] ==> r.lockCnt == 0)
            && (errs != [] && l.delockSamples <= left ==> (r.changed <==> left == l.delockSamples))
            && r == l.(lockCnt := r.lockCnt, locked := r.locked, changed := r.changed)
  {
    if errs != [] {
      BadAtMost(l, errs[..|errs| - 1]);
      BadSamplesUnlock(l, errs[..|errs| - 1]);
    }
  }

  lemma {:induction false} BadAtMost(l: LockState, errs: seq<int>)
    ensures Bad(l, errs) <= |errs|
  {
    if errs != [] { BadAtMost(l, errs[..|errs| - 1]); }
  }

  /** Losing a full lock takes at least lock_samples - delock_samples samples out of threshold. */
  lemma {:induction false} DelockNeedsBadSamples(l: LockState, errs: seq<int>)
    requires WellSet(l) && l.locked && l.lockCnt == l.lockSamples
    requires Bad(l, errs) < l.lockSamples - l.delockSamples
    ensures LockRun(l, errs).locked && LockRun(l, errs).lockCnt >= l.lockSamples - Bad(l, errs)
    ensures LockRun(l, errs) == l.(lockCnt := LockRun(l, errs).lockCnt, changed := LockRun(l, errs).changed)
    ensures LockRun(l, errs).lockCnt <= l.lockSamples
  {
    if errs != [] {
      DelockNeedsBadSamples(l, errs[..|errs| - 1]);
    }
  }
}
