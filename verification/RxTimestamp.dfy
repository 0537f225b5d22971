/** Receive timestamps: the counters latched by the hardware (dev/minic.c: minic_rx_frame) and their
    merging with the measured phase (lib/net.c: ptpd_netif_linearize_rx_timestamp). Times are in
    picoseconds, counters in clock ticks. */
module RxTimestamp {

  const PERIOD := 8000                   // REF_CLOCK_PERIOD_PS
  const TICKS_PER_SECOND := 125000000    // REF_CLOCK_FREQ_HZ
  const SECOND := 1000000000000          // in picoseconds
  const QUARTER_SECOND := 250000000000
  const ERA := 0x8000_0000               // the seconds that 31 bits of a timestamp can tell apart

  // ----- the two counters at the trigger -----

  function Tick(t: nat): nat { t / PERIOD }

  function Phase(t: nat): nat { t % PERIOD }

  /** The rising counter, counted from the start of time: it may be one behind just after its own
      transition and one ahead just before it, never further than a quarter period away. */
  predicate RisingLatched(t: nat, rising: int) {
    || rising == Tick(t)
    || (Phase(t) < PERIOD / 4 && rising == Tick(t) - 1)
    || (Phase(t) > 3 * PERIOD / 4 && rising == Tick(t) + 1)
  }

  /** The falling counter changes half a period later; more than a quarter period away from its own
      transition it is right, nearer it may be anything. */
  predicate FallingLatched(t: nat, falling: int) {
    && (Phase(t) < PERIOD / 4 ==> falling == Tick(t) - 1)
    && (Phase(t) > 3 * PERIOD / 4 ==> falling == Tick(t))
  }

  // ----- the raw timestamp (minic_rx_frame) -----

  datatype HwTimestamp = HwTimestamp(sec: int, nsec: int, ahead: bool)

  /** The second the time generator shows, or the one before if the counter must be from that. */
  function LatchedSecond(counterR: nat, sec: int, ppsgNsec: nat): int {
    if counterR > 3 * TICKS_PER_SECOND / 4 && ppsgNsec < 250000000 then sec - 1 else sec
  }

  /** `counterR` counts ticks within the second, `counterF` has four bits; `sec` and `ppsgNsec` are read
      from the time generator when the frame is handled. Of the second 31 bits are kept. */
  function HwStamp(counterR: nat, counterF: nat, sec: int, ppsgNsec: nat): HwTimestamp {
    var diff := counterR % 16 - counterF;
    HwTimestamp(LatchedSecond(counterR, sec, ppsgNsec) % ERA,
                counterR * (PERIOD / 1000),
                diff == 1 || diff == -15)
  }

  /** The nanoseconds the time generator shows. */
  function GeneratorNsec(now: nat): nat { now % SECOND / PERIOD * (PERIOD / 1000) }

  /** What the registers hold for these counters when the frame is handled `delay` after the trigger. */
  function Registers(t: nat, rising: nat, falling: int, delay: nat): HwTimestamp {
    HwStamp(rising % TICKS_PER_SECOND, falling % 16, (t + delay) / SECOND, GeneratorNsec(t + delay))
  }

  /** The second is the one the rising counter belongs to. */
  predicate SecondRight(t: nat, rising: nat, delay: nat) {
    LatchedSecond(rising % TICKS_PER_SECOND, (t + delay) / SECOND, GeneratorNsec(t + delay))
    == rising / TICKS_PER_SECOND
  }

  /** Not so early that the counter can be ahead of the time generator, not so late that a counter below
      three quarters of a second can be a second old. */
  predicate InWindow(delay: nat) {
    PERIOD / 4 - 1 <= delay <= QUARTER_SECOND - 5 * PERIOD / 4
  }

  lemma SecondSplit(n: nat)
    ensures n / TICKS_PER_SECOND * TICKS_PER_SECOND + n % TICKS_PER_SECOND == n
    ensures n % TICKS_PER_SECOND < TICKS_PER_SECOND
  {
  }

  lemma DivUnique(n: int, d: int, q: int)
    requires d > 0 && d * q <= n < d * (q + 1)
    ensures n / d == q && n % d == n - d * q
  {
    assert n == d * (n / d) + n % d;
    if n / d < q { MulStep(d, n / d + 1, q); } else if n / d > q { MulStep(d, q + 1, n / d); }
  }

  lemma MulStep(d: int, x: int, y: int)
    requires d > 0 && x <= y
    ensures d * x <= d * y
  {
  }

  /** Read out within the window, the second is the one the rising counter was latched in. */
  lemma SecondResolved(t: nat, rising: nat, delay: nat)
    requires RisingLatched(t, rising)
    requires InWindow(delay)
    ensures SecondRight(t, rising, delay)
  {
    var s, c, now := rising / TICKS_PER_SECOND, rising % TICKS_PER_SECOND, t + delay;
    SecondSplit(rising);
    assert PERIOD * Tick(t) + Phase(t) == t;
    assert rising * PERIOD == s * SECOND + c * PERIOD;
    assert rising * PERIOD <= now;
    assert t < rising * PERIOD + 5 * PERIOD / 4;
    if now < (s + 1) * SECOND {
      DivUnique(now, SECOND, s);
      if c > 3 * TICKS_PER_SECOND / 4 { TickAtLeast(now - SECOND * s, 31250000); }
    } else {
      DivUnique(now, SECOND, s + 1);
      assert c > 3 * TICKS_PER_SECOND / 4;
      TickBelow(now - SECOND * (s + 1), 31250000);
    }
  }

  lemma TickAtLeast(x: nat, n: nat)
    requires x >= n * PERIOD
    ensures x / PERIOD >= n
  {
  }

  lemma TickBelow(x: nat, n: nat)
    requires x < n * PERIOD
    ensures x / PERIOD < n
  {
  }

  /** The window cannot be wider: for every other delay some trigger gets the wrong second. */
  lemma ReadoutWindow(delay: nat)
    ensures (forall t: nat, rising: nat :: RisingLatched(t, rising) ==> SecondRight(t, rising, delay))
            <==> InWindow(delay)
  {
    if delay < PERIOD / 4 - 1 {
      // one ahead of the last tick of a second, read before the second is over
      var t := SECOND - delay - 1;
      assert Tick(t) == TICKS_PER_SECOND - 1 && Phase(t) == PERIOD - delay - 1;
      assert RisingLatched(t, TICKS_PER_SECOND) && !SecondRight(t, TICKS_PER_SECOND, delay);
    } else if delay > QUARTER_SECOND - 5 * PERIOD / 4 {
      // one behind right after three quarters of a second, read in the next second
      var n := 3 * TICKS_PER_SECOND / 4;
      var t := (n + 1) * PERIOD + PERIOD / 4 - 1;
      assert Tick(t) == n + 1 && Phase(t) == PERIOD / 4 - 1;
      assert (t + delay) / SECOND >= 1;
      assert RisingLatched(t, n) && !SecondRight(t, n, delay);
    } else {
      forall t: nat, rising: nat | RisingLatched(t, rising) ensures SecondRight(t, rising, delay) {
        SecondResolved(t, rising, delay);
      }
    }
  }

  // ----- linearisation -----

  datatype Linear = Linear(sec: int, nsec: int, phase: int)

  function Wrapped(x: int, period: int): int {
    if x < 0 then x + period else if x >= period then x - period else x
  }

  /** What the linearisation leaves in sec, nsec and phase, for a clock period of whole nanoseconds. */
  function Linearised(sec: int, nsec: int, rawPhase: int, ahead: bool, transition: int, period: int): Linear {
    var phaseR := if rawPhase - transition < 0 then rawPhase - transition + period else rawPhase - transition;
    var phaseF := Wrapped(rawPhase - transition + period / 2, period);
    var nsecF := if ahead then nsec - period / 1000 else nsec;
    var (n, p) :=
      if phaseR > 3 * period / 4 || phaseR < period / 4 then
        if phaseF + period / 2 >= period then (nsecF + period / 1000, phaseF + period / 2 - period)
        else (nsecF, phaseF + period / 2)
      else (nsec, phaseR);
    if n >= 1000000000 then Linear(sec + 1, n - 1000000000, p) else Linear(sec, n, p)
  }

  function Total(l: Linear): int {
    l.sec * SECOND + l.nsec * 1000 + l.phase
  }

  /** The phase the DDMTD shows at time t, when the rising counter changes at phase `transition`. */
  predicate PhaseShown(t: nat, transition: int, rawPhase: int) {
    && 0 <= transition < PERIOD && 0 <= rawPhase < PERIOD
    && (rawPhase - transition == Phase(t) || rawPhase - transition + PERIOD == Phase(t))
  }

  lemma SameLowBits(rising: nat)
    ensures rising % TICKS_PER_SECOND % 16 == rising % 16
  {
    var q, r := rising / TICKS_PER_SECOND, rising % TICKS_PER_SECOND;
    assert rising == 16 * (7812500 * q) + r;
    Mod16(r, 7812500 * q);
  }

  /** The ahead flag tells whether the falling counter is one behind, when the two differ by 0 or 1. */
  lemma AheadFlag(t: nat, rising: nat, falling: int, delay: nat)
    requires rising == falling || rising == falling + 1
    ensures Registers(t, rising, falling, delay).ahead <==> rising == falling + 1
  {
    hide LatchedSecond, GeneratorNsec;
    SameLowBits(rising);
    OneApart(falling);
  }

  lemma OneApart(n: int)
    ensures (n + 1) % 16 - n % 16 == 1 || (n + 1) % 16 - n % 16 == -15
  {
  }

  lemma Mod16(r: int, k: int)
    ensures (16 * k + r) % 16 == r % 16
  {
  }

  /** The linearised timestamp of a frame, as ptpd_netif_recvfrom computes it. */
  function FrameTime(t: nat, rising: nat, falling: int, delay: nat, rawPhase: int, transition: int): Linear {
    var hw := Registers(t, rising, falling, delay);
    Linearised(hw.sec, hw.nsec, rawPhase, hw.ahead, transition, PERIOD)
  }

  /** What linearisation makes of a raw timestamp at true phase `p`: near the rising transition it goes
      by the falling counter, elsewhere by the rising one. */
  lemma LinearisedTotal(sec: int, nsec: int, rawPhase: int, ahead: bool, transition: int, p: int)
    requires 0 <= transition < PERIOD && 0 <= rawPhase < PERIOD && 0 <= p < PERIOD
    requires rawPhase - transition == p || rawPhase - transition + PERIOD == p
    ensures var l := Linearised(sec, nsec, rawPhase, ahead, transition, PERIOD);
            && l.phase == p
            && Total(l) == sec * SECOND + nsec * 1000 + p
                           + (if ahead && (p < PERIOD / 4 || p > 3 * PERIOD / 4) then -PERIOD else 0)
                           + (if p < PERIOD / 4 then PERIOD else 0)
  {
  }

  /** The time at which the seconds of a timestamp last started again from 0. */
  function EraStart(rising: nat): nat { rising / TICKS_PER_SECOND / ERA * ERA * SECOND }

  lemma RegistersTotal(t: nat, rising: nat, falling: int, delay: nat)
    requires RisingLatched(t, rising) && InWindow(delay)
    ensures var hw := Registers(t, rising, falling, delay);
            hw.sec * SECOND + hw.nsec * 1000 == rising * PERIOD - EraStart(rising)
  {
    SecondResolved(t, rising, delay);
    SecondSplit(rising);
    var s := rising / TICKS_PER_SECOND;
    assert s == s / ERA * ERA + s % ERA;
  }

  /** The falling counter is trusted near the rising transition and the rising one elsewhere. */
  lemma MergeExact(t: nat, rising: nat, falling: int, hw: HwTimestamp, rawPhase: int, transition: int, era: nat)
    requires RisingLatched(t, rising) && FallingLatched(t, falling) && PhaseShown(t, transition, rawPhase)
    requires hw.sec * SECOND + hw.nsec * 1000 == rising * PERIOD - era
    requires rising == falling || rising == falling + 1 ==> (hw.ahead <==> rising == falling + 1)
    ensures var l := Linearised(hw.sec, hw.nsec, rawPhase, hw.ahead, transition, PERIOD);
            Total(l) == t - era && l.phase == Phase(t)
  {
    assert PERIOD * Tick(t) + Phase(t) == t;
    LinearisedTotal(hw.sec, hw.nsec, rawPhase, hw.ahead, transition, Phase(t));
  }

  /** Counters and phase together give the true time to the picosecond, across the end of a second too, counted
      from the last time the 31 bits of the second were exhausted. */
  lemma TimestampExact(t: nat, rising: nat, falling: int, delay: nat, rawPhase: int, transition: int)
    requires RisingLatched(t, rising) && FallingLatched(t, falling) && PhaseShown(t, transition, rawPhase)
    requires InWindow(delay)
    ensures Total(FrameTime(t, rising, falling, delay, rawPhase, transition)) == t - EraStart(rising)
    ensures FrameTime(t, rising, falling, delay, rawPhase, transition).phase == Phase(t)
    ensures EraStart(rising) % (ERA * SECOND) == 0
    ensures rising < ERA * TICKS_PER_SECOND ==> EraStart(rising) == 0
  {
    RegistersTotal(t, rising, falling, delay);
    if rising == falling || rising == falling + 1 { AheadFlag(t, rising, falling, delay); }
    MergeExact(t, rising, falling, Registers(t, rising, falling, delay), rawPhase, transition, EraStart(rising));
    EraMultiple(rising / TICKS_PER_SECOND / ERA);
  }

  lemma EraMultiple(k: nat)
    ensures k * ERA * SECOND % (ERA * SECOND) == 0
  {
    DivUnique(k * ERA * SECOND, ERA * SECOND, k);
  }

  /** nsec comes out in its range, except for a counter that is one ahead across the end of a second:
      then it is one tick below zero in the following second. */
  lemma NsecRange(t: nat, rising: nat, falling: int, delay: nat, rawPhase: int, transition: int)
    requires RisingLatched(t, rising) && FallingLatched(t, falling) && PhaseShown(t, transition, rawPhase)
    ensures var nsec := FrameTime(t, rising, falling, delay, rawPhase, transition).nsec;
            && nsec < 1000000000
            && (nsec < 0 <==> rising == Tick(t) + 1 && rising % TICKS_PER_SECOND == 0)
            && (nsec < 0 ==> nsec == -8)
  {
    SecondSplit(rising);
    if Phase(t) < PERIOD / 4 || Phase(t) > 3 * PERIOD / 4 {
      AheadFlag(t, rising, falling, delay);
    }
  }

  /** The last picosecond of the first second, with the counter already at the next: second 1, -8 ns and 7999 ps. */
  lemma NsecBelowZero(delay: nat)
    requires InWindow(delay)
    ensures var t := SECOND - 1;
            && RisingLatched(t, TICKS_PER_SECOND) && FallingLatched(t, TICKS_PER_SECOND - 1)
            && PhaseShown(t, 0, PERIOD - 1)
            && FrameTime(t, TICKS_PER_SECOND, TICKS_PER_SECOND - 1, delay, PERIOD - 1, 0) == Linear(1, -8, PERIOD - 1)
  {
    var t := SECOND - 1;
    assert Tick(t) == TICKS_PER_SECOND - 1 && Phase(t) == PERIOD - 1;
    SecondResolved(t, TICKS_PER_SECOND, delay);
    AheadFlag(t, TICKS_PER_SECOND, TICKS_PER_SECOND - 1, delay);
  }

  // ----- the code that works on the structures in place -----

  class Timestamp {
    var sec: int
    var nsec: int
    var phase: int
    var rawPhase: int

    constructor (sec: int, nsec: int)
      ensures this.sec == sec && this.nsec == nsec && phase == 0
    {
      this.sec, this.nsec, phase, rawPhase := sec, nsec, 0, 0;
    }

    /** ptpd_netif_linearize_rx_timestamp */
    method Linearise(dmtdPhase: int, cntrAhead: bool, transitionPoint: int, clockPeriod: nat)
      modifies this
      ensures rawPhase == dmtdPhase
      ensures Linear(sec, nsec, phase)
           == Linearised(old(sec), old(nsec), dmtdPhase, cntrAhead, transitionPoint, clockPeriod)
    {
      rawPhase := dmtdPhase;
      var nsecR := nsec;
      var nsecF := if cntrAhead then nsec - clockPeriod / 1000 else nsec;
      var phaseR := rawPhase - transitionPoint;
      if phaseR < 0 { phaseR := phaseR + clockPeriod; }
      var phaseF := rawPhase - transitionPoint + clockPeriod / 2;
      if phaseF < 0 { phaseF := phaseF + clockPeriod; }
      if phaseF >= clockPeriod { phaseF := phaseF - clockPeriod; }
      if phaseR > 3 * clockPeriod / 4 || phaseR < clockPeriod / 4 {
        nsec := nsecF;
        phase := phaseF + clockPeriod / 2;
        if phase >= clockPeriod {
          phase := phase - clockPeriod;
          nsec := nsec + clockPeriod / 1000;
        }
      } else {
        nsec := nsecR;
        phase := phaseR;
      }
      if nsec >= 1000000000 {
        nsec := nsec - 1000000000;
        sec := sec + 1;
      }
    }
  }
}
