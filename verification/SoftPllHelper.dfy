/** The helper PLL (softpll/spll_helper.c): follows the reference tags with a constant frequency offset. */
module SoftPllHelper {
  import opened SoftPllControl

  const TAG_RANGE := 0x40_0000            // 1 << TAG_BITS
  const OFFSET := 0x4000                  // 1 << HPLL_N
  const TAG_WRAPAROUND := 100000000
  const ERROR_CLAMP := 150000
  const DAC_MIN := 5
  const DAC_MAX := 65531                  // (1 << DAC_BITS) - 5
  const TAME: nat := 0x2000_0000

  predicate IsTag(t: int) { 0 <= t < TAG_RANGE }

  // ----- the ideal, unbounded unwrapper -----

  /** The last tag with every restart of the tag counter added back. */
  function Unwrapped(tags: seq<int>): int
    requires tags != []
  {
    var last := |tags| - 1;
    if last == 0 then tags[0]
    else Unwrapped(tags[..last]) + tags[last] - tags[last - 1] + if tags[last - 1] > tags[last] then TAG_RANGE else 0
  }

  /** Where the loop wants the next tag: at the first tag, then one offset further per sample. */
  function Target(tags: seq<int>): int
    requires tags != []
  {
    if |tags| == 1 then tags[0] else Target(tags[..|tags| - 1]) + OFFSET
  }

  /** The error of the last tag against the target set before it. */
  function IdealError(tags: seq<int>): int
    requires |tags| >= 2
  {
    Unwrapped(tags) - Target(tags[..|tags| - 1])
  }

  /** Unwrapped tags advance by less than one turn of the counter and agree with it modulo a turn. */
  lemma {:induction false} UnwrappedCongruent(tags: seq<int>)
    requires tags != [] && forall k :: 0 <= k < |tags| ==> IsTag(tags[k])
    ensures Unwrapped(tags) % TAG_RANGE == tags[|tags| - 1]
    ensures |tags| > 1 ==> 0 <= Unwrapped(tags) - Unwrapped(tags[..|tags| - 1]) < TAG_RANGE
  {
    if |tags| > 1 { UnwrappedCongruent(tags[..|tags| - 1]); }
  }

  /** In the loop's own terms: U_k - U_0 - (k - 1) * 2^14. */
  lemma {:induction false} IdealErrorClosed(tags: seq<int>)
    requires tags != []
    ensures Target(tags) == tags[0] + (|tags| - 1) * OFFSET
    ensures |tags| >= 2 ==> IdealError(tags) == Unwrapped(tags) - Unwrapped(tags[..1]) - (|tags| - 2) * OFFSET
  {
    if |tags| > 1 { IdealErrorClosed(tags[..|tags| - 1]); }
  }

  /** The loop has never been further off than the tame bound. */
  predicate Tame(tags: seq<int>) {
    |tags| < 2 || (Tame(tags[..|tags| - 1]) && Abs(IdealError(tags)) <= TAME)
  }

  // ----- the helper loop -----

  /** The accumulators are the ideal ones less what was taken off both. */
  ghost predicate Exact(tags: seq<int>, taken: int, adder: int, setpoint: int)
    requires tags != []
  {
    && tags[|tags| - 1] + adder == Unwrapped(tags) - taken
    && setpoint == Target(tags) - taken
  }

  /** As long as the loop is tame they stay small however long it runs. */
  ghost predicate Small(tags: seq<int>, adder: int, setpoint: int)
    requires tags != []
  {
    Tame(tags) ==>
      && 0 <= setpoint <= TAG_WRAPAROUND + TAME + OFFSET
      && Abs(tags[|tags| - 1] + adder - setpoint) <= TAME + OFFSET
  }

  /** What one sample does to the accumulators. */
  lemma AdvanceExact(tags: seq<int>, tag: int, taken: int, adder: int, setpoint: int)
    requires tags != [] && Exact(tags, taken, adder, setpoint)
    ensures var all, up := tags + [tag], adder + if tags[|tags| - 1] > tag then TAG_RANGE else 0;
            && tag + up - setpoint == IdealError(all)
            && Exact(all, taken, up, setpoint + OFFSET)
            && (Tame(all) ==> Tame(tags) && Abs(tag + up - setpoint) <= TAME)
  {
    assert (tags + [tag])[..|tags|] == tags;
  }

  /** One controlled sample: the DAC stays in range, no product leaves 32 bits, and the lock detector
      sees the same error. */
  ghost predicate ControlStep(s: PiState, l: LockState, good: nat, err: int, s': PiState, l': LockState, good': nat) {
    && s' == PiStep(s, err) && DAC_MIN <= s'.y <= DAC_MAX
    && ControlFits(s, err)
    && l' == LockStep(l, err)
    && good' == good + if InThreshold(l, err) then 1 else 0
  }

  class HelperPll {
    var adder: int
    var setpoint: int
    var tagD0: int
    var refSrc: int
    const pi: PiController
    const ld: LockDetector
    ghost var tags: seq<int>   // reference tags since the last Start
    ghost var taken: int       // what has been taken off both accumulators

    /** helper_init */
    constructor (refSrc: int)
      ensures fresh(pi) && fresh(ld) && this.refSrc == refSrc
      ensures SetUp() && !ld.locked
    {
      adder, setpoint, tagD0, this.refSrc := 0, 0, -1, refSrc;
      pi := new PiController(150, 2, 0, DAC_MIN, DAC_MAX);
      ld := new LockDetector(200, 10000, 100);
      tags, taken := [], 0;
    }

    ghost predicate SetUp()
      reads this, pi, ld
    {
      && pi.kp == 150 && pi.ki == 2 && pi.antiWindup && pi.yMin == DAC_MIN && pi.yMax == DAC_MAX
      && ld.Valid() && ld.lockSamples == 10000 && ld.delockSamples == 100 && ld.threshold == 200
    }

    ghost predicate Aligned()
      reads this
    {
      && (forall k :: 0 <= k < |tags| ==> IsTag(tags[k]))
      && (if tags == [] then tagD0 == -1 && adder == 0 && taken == 0
          else tagD0 == tags[|tags| - 1] && Exact(tags, taken, adder, setpoint) && Small(tags, adder, setpoint))
    }

    ghost predicate Controlled()
      reads this, pi, ld
    {
      SetUp() && pi.bias == DAC_MAX && IntegratorBounded(pi.State())
    }

    ghost predicate Valid()
      reads this, pi, ld
    {
      Aligned() && Controlled()
    }

    /** helper_start */
    method Start()
      requires SetUp()
      modifies this, pi, ld
      ensures Valid() && tags == [] && ld.good == 0 && !ld.locked
      ensures refSrc == old(refSrc)
    {
      pi.bias := pi.yMax;
      setpoint, adder, tagD0 := 0, 0, -1;
      tags, taken := [], 0;
      pi.Init();
      ld.Init();
    }

    /** helper_update: true when the loop is locked or has just lost lock */
    method Update(tag: int, source: int) returns (r: bool)
      requires Valid() && IsTag(tag)
      modifies this, pi, ld
      ensures Valid() && refSrc == old(refSrc)
      ensures source != refSrc ==> tags == old(tags) && !r && pi.State() == old(pi.State())
      ensures source != refSrc ==> ld.State() == old(ld.State()) && ld.good == old(ld.good)
      ensures source == refSrc ==> tags == old(tags) + [tag]
      ensures source == refSrc && old(tags) == [] ==> ld.State() == old(ld.State()) && ld.good == old(ld.good) && !r
      ensures source == refSrc && old(tags) != [] ==>
        ControlStep(old(pi.State()), old(ld.State()), old(ld.good), Clamp(IdealError(tags), -ERROR_CLAMP, ERROR_CLAMP),
                    pi.State(), ld.State(), ld.good)
      ensures tags != [] && Tame(tags) ==> FitsInt32(adder) && FitsInt32(setpoint) && FitsInt32(tag + adder)
    {
      r := false;
      if source == refSrc {
        if tagD0 < 0 {
          setpoint, tagD0 := tag, tag;
          tags := [tag];
          return;
        }
        var err := Advance(tag);
        if err < -ERROR_CLAMP { err := -ERROR_CLAMP; }
        if err > ERROR_CLAMP { err := ERROR_CLAMP; }
        r := Control(err);
      }
    }

    /** The part of helper_update that drives the DAC and watches for lock. */
    method Control(err: int) returns (r: bool)
      requires Controlled() && Abs(err) <= ERROR_CLAMP
      modifies pi, ld
      ensures Controlled()
      ensures ControlStep(old(pi.State()), old(ld.State()), old(ld.good), err, pi.State(), ld.State(), ld.good)
    {
      IntegratorStaysBounded(pi.State(), err);
      ProductsFit(pi.State(), err);
      var y := pi.Update(err);
      var l := ld.Update(err);
      r := l != 0;
    }

    /** The part of helper_update that unwraps the tag and moves the setpoint. */
    method Advance(tag: int) returns (err: int)
      requires Aligned() && tags != [] && IsTag(tag)
      modifies this
      ensures Aligned() && refSrc == old(refSrc)
      ensures tags == old(tags) + [tag] && err == IdealError(tags)
    {
      hide Tame, Unwrapped, Target;
      AdvanceExact(tags, tag, taken, adder, setpoint);
      if tagD0 > tag { adder := adder + TAG_RANGE; }
      err := tag + adder - setpoint;
      if tag + adder > TAG_WRAPAROUND && setpoint > TAG_WRAPAROUND {
        adder := adder - TAG_WRAPAROUND;
        setpoint := setpoint - TAG_WRAPAROUND;
        taken := taken + TAG_WRAPAROUND;
      }
      setpoint := setpoint + OFFSET;
      tagD0 := tag;
      tags := tags + [tag];
    }
  }

  /** With the clamped error and the helper's gains no product of the controller leaves 32 bits. */
  lemma ProductsFit(s: PiState, x: int)
    requires s.kp == 150 && s.ki == 2 && s.yMin == DAC_MIN && s.yMax == DAC_MAX && s.bias == DAC_MAX
    requires IntegratorBounded(s) && Abs(x) <= ERROR_CLAMP
    ensures ControlFits(s, x)
  {
  }
}
