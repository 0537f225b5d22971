/** The main PLL (softpll/spll_main.c, without tag sequencing): locks the output clock to a reference
    with a programmable phase shift. */
module SoftPllMain {
  import opened SoftPllControl
  import opened SoftPllHelper

  const HALF_OFFSET := 0x2000  // 1 << (HPLL_N - 1)

  datatype MainState = MainState(adderRef: int, adderOut: int, tagRef: int, tagOut: int, tagRefD: int, tagOutD: int,
                                 target: int, current: int, pi: PiState, ld: LockState)

  /** The low HPLL_N bits of the error, sign extended: `err &= 0x3fff`, then the upper bits set if bit 13 is. */
  function Masked(err: int): int {
    var low := err % OFFSET;
    if low >= HALF_OFFSET then low - OFFSET else low
  }

  lemma MaskedNearest(err: int)
    ensures -HALF_OFFSET <= Masked(err) < HALF_OFFSET
    ensures (err - Masked(err)) % OFFSET == 0
  {
  }

  // ----- one tag -----

  function Store(s: MainState, tag: int, isRef: bool, isOut: bool): MainState {
    s.(tagRef := if isRef then tag else s.tagRef, tagOut := if isOut then tag else s.tagOut)
  }

  predicate HasPair(s: MainState) { s.tagRef >= 0 && s.tagOut >= 0 }

  function Lift(adder: int, before: int, now: int): int {
    if before >= 0 && before > now then adder + TAG_RANGE else adder
  }

  function RawError(s: MainState): int {
    Lift(s.adderRef, s.tagRefD, s.tagRef) + s.tagRef - Lift(s.adderOut, s.tagOutD, s.tagOut) - s.tagOut
  }

  function UsedError(s: MainState): int {
    if s.ld.locked then Masked(RawError(s)) else RawError(s)
  }

  function Toward(current: int, target: int): int {
    if current < target then current + 1 else if current > target then current - 1 else current
  }

  /** Counts a restart of either tag counter. */
  function LiftStep(s: MainState): MainState {
    s.(adderRef := Lift(s.adderRef, s.tagRefD, s.tagRef), adderOut := Lift(s.adderOut, s.tagOutD, s.tagOut),
       tagRefD := s.tagRef, tagOutD := s.tagOut)
  }

  predicate Renormalises(s: MainState) {
    s.adderRef > 2 * TAG_WRAPAROUND && s.adderOut > 2 * TAG_WRAPAROUND
  }

  /** Forgets the pair and brings both adders down together. */
  function DropStep(s: MainState): MainState {
    var down := if Renormalises(s) then TAG_WRAPAROUND else 0;
    s.(adderRef := s.adderRef - down, adderOut := s.adderOut - down, tagRef := -1, tagOut := -1)
  }

  /** When locked the shift moves one step, and the reference adder with it. */
  function ShiftStep(s: MainState): MainState {
    var current := if s.ld.locked then Toward(s.current, s.target) else s.current;
    s.(adderRef := s.adderRef + current - s.current, current := current)
  }

  /** A completed pair. The shift moves by the lock state from before this pair. */
  function PairStep(s: MainState): MainState {
    var lifted := LiftStep(s);
    ShiftStep(DropStep(lifted.(pi := PiStep(s.pi, UsedError(s))))).(ld := LockStep(s.ld, UsedError(s)))
  }

  function TagStep(s: MainState, tag: int, isRef: bool, isOut: bool): MainState {
    var s' := Store(s, tag, isRef, isOut);
    if HasPair(s') then PairStep(s') else s'
  }

  // ----- what the accumulators mean -----

  ghost predicate Follows(tags: seq<int>, last: int, lifted: int, taken: int) {
    if tags == [] then last == -1 && lifted == 0 && taken == 0
    else last == tags[|tags| - 1] && last + lifted == Unwrapped(tags) - taken
  }

  /** Both adders are the ideal unwrapped values less the last tag and what was taken off both; the
      reference adder also carries the phase shift reached so far. */
  ghost predicate Tracks(s: MainState, refs: seq<int>, outs: seq<int>, taken: int) {
    && |refs| == |outs|
    && Follows(refs, s.tagRefD, s.adderRef - s.current, taken)
    && Follows(outs, s.tagOutD, s.adderOut, taken)
  }

  predicate TagsValid(s: MainState) {
    (s.tagRef == -1 || IsTag(s.tagRef)) && (s.tagOut == -1 || IsTag(s.tagOut))
  }

  lemma FollowsLift(tags: seq<int>, last: int, lifted: int, taken: int, tag: int)
    requires Follows(tags, last, lifted, taken) && (forall k :: 0 <= k < |tags| ==> IsTag(tags[k])) && IsTag(tag)
    ensures tag + Lift(lifted, last, tag) == Unwrapped(tags + [tag]) - taken
  {
    assert (tags + [tag])[..|tags|] == tags;
  }

  /** The error of a pair is the distance of the unwrapped tags plus the shift, and the adders keep
      their meaning through wraps, renormalisation and shifting. */
  lemma PairTracks(s: MainState, refs: seq<int>, outs: seq<int>, taken: int)
    requires Tracks(s, refs, outs, taken) && HasPair(s) && TagsValid(s)
    requires forall k :: 0 <= k < |refs| ==> IsTag(refs[k]) && IsTag(outs[k])
    ensures Tracks(PairStep(s), refs + [s.tagRef], outs + [s.tagOut],
                   taken + if Renormalises(LiftStep(s)) then TAG_WRAPAROUND else 0)
    ensures RawError(s) == Unwrapped(refs + [s.tagRef]) - Unwrapped(outs + [s.tagOut]) + s.current
  {
    FollowsLift(refs, s.tagRefD, s.adderRef - s.current, taken, s.tagRef);
    FollowsLift(outs, s.tagOutD, s.adderOut, taken, s.tagOut);
  }

  /** When locked, the error used is the nearest representative of tag_ref - tag_out + shift modulo 2^14,
      whatever wrapped or was renormalised before. */
  lemma LockedError(s: MainState, refs: seq<int>, outs: seq<int>, taken: int)
    requires Tracks(s, refs, outs, taken) && HasPair(s) && TagsValid(s)
    requires forall k :: 0 <= k < |refs| ==> IsTag(refs[k]) && IsTag(outs[k])
    requires s.ld.locked
    ensures -HALF_OFFSET <= UsedError(s) < HALF_OFFSET
    ensures (s.tagRef - s.tagOut + s.current - UsedError(s)) % OFFSET == 0
  {
    PairTracks(s, refs, outs, taken);
    var refs', outs' := refs + [s.tagRef], outs + [s.tagOut];
    MaskedNearest(RawError(s));
    UnwrappedCongruent(refs');
    UnwrappedCongruent(outs');
    SameModulo(Unwrapped(refs'), s.tagRef, Unwrapped(outs'), s.tagOut, s.current - UsedError(s));
  }

  /** Controller and lock detector get the same error: before lock the distance of the unwrapped tags plus the shift,
      and when locked the nearest representative of it modulo 2^14. */
  lemma PairError(s: MainState, refs: seq<int>, outs: seq<int>, taken: int) returns (err: int)
    requires Tracks(s, refs, outs, taken) && HasPair(s) && TagsValid(s)
    requires forall k :: 0 <= k < |refs| ==> IsTag(refs[k]) && IsTag(outs[k])
    ensures PairStep(s).pi == PiStep(s.pi, err) && PairStep(s).ld == LockStep(s.ld, err)
    ensures var ideal := Unwrapped(refs + [s.tagRef]) - Unwrapped(outs + [s.tagOut]) + s.current;
            if s.ld.locked then -HALF_OFFSET <= err < HALF_OFFSET && (ideal - err) % OFFSET == 0 else err == ideal
  {
    err := UsedError(s);
    PairTracks(s, refs, outs, taken);
    MaskedNearest(RawError(s));
  }

  /** The adders are brought down together, and only when both are beyond twice the wrap-around, so that one of them
      never gets far beyond that. */
  lemma BroughtDown(s: MainState)
    requires HasPair(s) && TagsValid(s) && (s.adderRef <= 2 * TAG_WRAPAROUND || s.adderOut <= 2 * TAG_WRAPAROUND)
    ensures var l, r := LiftStep(s), PairStep(s);
            && (r.adderRef - (r.current - s.current) <= 2 * TAG_WRAPAROUND || r.adderOut <= 2 * TAG_WRAPAROUND)
            && (r.adderOut != l.adderOut <==> l.adderRef > 2 * TAG_WRAPAROUND && l.adderOut > 2 * TAG_WRAPAROUND)
            && l.adderOut - r.adderOut == l.adderRef - r.adderRef + r.current - s.current
  {
  }

  /** Whole turns of the tag counter are whole multiples of 2^14. */
  lemma SameModulo(u: int, t: int, v: int, w: int, c: int)
    requires u % TAG_RANGE == t && v % TAG_RANGE == w
    ensures (u - v + c) % OFFSET == (t - w + c) % OFFSET
  {
    var k, j := u / TAG_RANGE, v / TAG_RANGE;
    assert u - v + c == t - w + c + OFFSET * (256 * (k - j));
    ModShift(t - w + c, 256 * (k - j));
  }

  lemma ModShift(n: int, k: int)
    ensures (n + OFFSET * k) % OFFSET == n % OFFSET
  {
    var q, r := n / OFFSET, n % OFFSET;
    assert n + OFFSET * k == OFFSET * (q + k) + r;
  }

  function Turns(tags: seq<int>): nat {
    if |tags| < 2 then 0 else Turns(tags[..|tags| - 1]) + if tags[|tags| - 2] > tags[|tags| - 1] then 1 else 0
  }

  lemma {:induction false} UnwrappedTurns(tags: seq<int>)
    requires tags != []
    ensures Unwrapped(tags) - tags[|tags| - 1] == TAG_RANGE * Turns(tags)
  {
    if |tags| > 1 { UnwrappedTurns(tags[..|tags| - 1]); }
  }

  /** adder_ref - adder_out = 2^22 * (ref wraps - out wraps) + phase_shift_current */
  lemma AddersDiffer(s: MainState, refs: seq<int>, outs: seq<int>, taken: int)
    requires Tracks(s, refs, outs, taken)
    ensures s.adderRef - s.adderOut == TAG_RANGE * (Turns(refs) - Turns(outs)) + s.current
  {
    if refs != [] {
      UnwrappedTurns(refs);
      UnwrappedTurns(outs);
    }
  }

  // ----- staying in 32 bits -----

  /** How far the reference adder is ahead of the output adder, in ideal terms. */
  function Drift(refs: seq<int>, outs: seq<int>, shift: int): int {
    TAG_RANGE * (Turns(refs) - Turns(outs)) + shift
  }

  /** The two counters never drift apart too far, before and after the shift of any pair moves. `shifts` holds the
      shift at the start and after each pair. */
  ghost predicate TameRun(refs: seq<int>, outs: seq<int>, shifts: seq<int>)
    requires |refs| == |outs| && |shifts| == |refs| + 1
  {
    refs != [] ==>
      var n := |refs|;
      && TameRun(refs[..n - 1], outs[..n - 1], shifts[..n])
      && Abs(Drift(refs, outs, shifts[n - 1])) <= TAME
      && Abs(Drift(refs, outs, shifts[n])) <= TAME
  }

  /** A box that the adders of a tame run never leave. */
  predicate Boxed(s: MainState) {
    0 <= s.adderOut <= 2 * TAG_WRAPAROUND + TAME + TAG_RANGE && Abs(s.adderRef - s.adderOut) <= TAME
  }

  /** Neither the adders nor the error of the pair leave 32 bits. */
  predicate AddersFit(s: MainState) {
    var lifted := LiftStep(s);
    && FitsInt32(lifted.adderRef) && FitsInt32(lifted.adderOut)
    && FitsInt32(lifted.adderRef + s.tagRef) && FitsInt32(lifted.adderRef + s.tagRef - lifted.adderOut)
    && FitsInt32(RawError(s))
  }

  /** Nothing that is computed for the pair leaves 32 bits. */
  predicate PairFits(s: MainState) {
    AddersFit(s) && ControlFits(s.pi, UsedError(s))
  }

  lemma BoxKept(s: MainState)
    requires Boxed(s) && HasPair(s) && TagsValid(s)
    requires Abs(LiftStep(s).adderRef - LiftStep(s).adderOut) <= TAME
    requires Abs(PairStep(s).adderRef - PairStep(s).adderOut) <= TAME
    ensures Boxed(PairStep(s)) && AddersFit(s)
  {
  }

  /** The adders of a pair, with the wraps counted, differ by the ideal drift. */
  lemma LiftDrift(s: MainState, refs: seq<int>, outs: seq<int>, taken: int)
    requires Tracks(s, refs, outs, taken) && HasPair(s) && TagsValid(s)
    requires forall k :: 0 <= k < |refs| ==> IsTag(refs[k]) && IsTag(outs[k])
    ensures LiftStep(s).adderRef - LiftStep(s).adderOut == Drift(refs + [s.tagRef], outs + [s.tagOut], s.current)
  {
    FollowsLift(refs, s.tagRefD, s.adderRef - s.current, taken, s.tagRef);
    FollowsLift(outs, s.tagOutD, s.adderOut, taken, s.tagOut);
    UnwrappedTurns(refs + [s.tagRef]);
    UnwrappedTurns(outs + [s.tagOut]);
  }

  /** One pair of a tame run: the adders stay in the box, and neither they nor the error leave 32 bits; the
      controller, which takes the error unclamped, decides the rest. */
  lemma TamePair(s: MainState, refs: seq<int>, outs: seq<int>, shifts: seq<int>, taken: int)
    requires Tracks(s, refs, outs, taken) && HasPair(s) && TagsValid(s)
    requires forall k :: 0 <= k < |refs| ==> IsTag(refs[k]) && IsTag(outs[k])
    requires |shifts| == |refs| + 1 && shifts[|refs|] == s.current
    requires TameRun(refs, outs, shifts) ==> Boxed(s)
    ensures TameRun(refs + [s.tagRef], outs + [s.tagOut], shifts + [PairStep(s).current]) ==>
              Boxed(PairStep(s)) && AddersFit(s) && (PairFits(s) <==> ControlFits(s.pi, UsedError(s)))
  {
    var refs', outs', shifts' := refs + [s.tagRef], outs + [s.tagOut], shifts + [PairStep(s).current];
    if TameRun(refs', outs', shifts') {
      var n := |refs'|;
      assert refs'[..n - 1] == refs && outs'[..n - 1] == outs && shifts'[..n] == shifts;
      LiftDrift(s, refs, outs, taken);
      PairTracks(s, refs, outs, taken);
      AddersDiffer(PairStep(s), refs', outs', taken + if Renormalises(LiftStep(s)) then TAG_WRAPAROUND else 0);
      BoxKept(s);
    }
  }

  // ----- the controller -----

  predicate MainGains(s: PiState) {
    s.kp == 1100 && s.ki == 30 && s.bias == 65000 && s.antiWindup && s.yMin == 5 && s.yMax == 65530
  }

  const LARGEST_ERROR: nat := 1664835

  /** Wherever anti-windup can have left the integrator, errors up to this size never take the products out of 32
      bits. */
  lemma MainProductsFit(s: PiState, x: int)
    requires MainGains(s) && IntegratorBounded(s) && Abs(x) <= LARGEST_ERROR
    ensures ControlFits(s, x)
  {
  }

  /** And no larger limit would do. */
  lemma LimitExact(limit: nat)
    ensures (forall s, x :: MainGains(s) && IntegratorBounded(s) && Abs(x) <= limit ==> ControlFits(s, x))
       <==> limit <= LARGEST_ERROR
  {
    if limit > LARGEST_ERROR {
      var s := PiState(1100, 30, -8873984, 65000, true, 5, 65530, 0, 5);
      assert MainGains(s) && IntegratorBounded(s) && !ControlFits(s, -(LARGEST_ERROR + 1));
    } else {
      forall s, x | MainGains(s) && IntegratorBounded(s) && Abs(x) <= limit ensures ControlFits(s, x) {
        MainProductsFit(s, x);
      }
    }
  }

  /** While the loop is locked the error is masked, and its pairs always fit. */
  lemma LockedFits(s: MainState)
    requires s.ld.locked && MainGains(s.pi) && IntegratorBounded(s.pi)
    ensures ControlFits(s.pi, UsedError(s))
  {
    MaskedNearest(RawError(s));
    MainProductsFit(s.pi, UsedError(s));
  }

  /** The loop as mpll_start leaves it, when the first pair has come. */
  predicate IsFirstPair(s: MainState) {
    && s.adderRef == 0 && s.adderOut == 0 && s.tagRefD == -1 && s.tagOutD == -1 && s.target == 0 && s.current == 0
    && MainGains(s.pi) && s.pi.integrator == 0 && !s.ld.locked && IsTag(s.tagRef) && IsTag(s.tagOut)
  }

  /** Nothing bounds the error of the first pair: it is computed in 32 bits exactly when its tags differ by at most
      1900428. */
  lemma FirstPairExact(s: MainState)
    requires IsFirstPair(s)
    ensures UsedError(s) == s.tagRef - s.tagOut
    ensures PairFits(s) <==> Abs(s.tagRef - s.tagOut) <= 1900428
  {
  }

  /** Two tags on either side of a restart of the counter: a tame run all the same, but the product with kp is beyond
      32 bits. */
  lemma FirstPairOverflows(s: MainState)
    requires IsFirstPair(s) && s.tagRef == 4000000 && s.tagOut == 0
    ensures TameRun([4000000], [0], [0, 0]) && Boxed(s) && AddersFit(s)
    ensures UsedError(s) * s.pi.kp == 4400000000 && !PairFits(s)
  {
    FirstPairExact(s);
  }

  /** With adders that fit, a pair fits if the loop is locked or its error is small enough. */
  predicate FitsWithin(s: MainState) {
    AddersFit(s) && (s.ld.locked || Abs(UsedError(s)) <= LARGEST_ERROR ==> PairFits(s))
  }

  /** What a pair does to the controller, in any run. */
  lemma PairControl(s: MainState)
    requires MainGains(s.pi) && IntegratorBounded(s.pi)
    ensures var pi := PairStep(s).pi; MainGains(pi) && IntegratorBounded(pi) && pi.yMin <= pi.y <= pi.yMax
    ensures AddersFit(s) ==> FitsWithin(s)
  {
    IntegratorStaysBounded(s.pi, UsedError(s));
    if s.ld.locked { LockedFits(s); }
    if Abs(UsedError(s)) <= LARGEST_ERROR { MainProductsFit(s.pi, UsedError(s)); }
  }

  // ----- the shift -----

  function ShiftAfter(current: int, target: int, pairs: nat): int {
    if pairs == 0 then current else Toward(ShiftAfter(current, target, pairs - 1), target)
  }

  /** After n locked pairs the shift is n steps nearer its target, or there. */
  lemma {:induction false} ShiftArrives(current: int, target: int, pairs: nat)
    ensures Abs(target - ShiftAfter(current, target, pairs)) ==
            if pairs < Abs(target - current) then Abs(target - current) - pairs else 0
    ensures Abs(target - current) <= pairs ==> ShiftAfter(current, target, pairs) == target
  {
    if pairs > 0 { ShiftArrives(current, target, pairs - 1); }
  }

  lemma ClearedByPair(s: MainState)
    ensures TagsValid(PairStep(s)) && !HasPair(PairStep(s))
  {
  }

  /** One call of mpll_update: a tag of the reference, of the output, or of another channel. */
  datatype TagEvent = TagEvent(tag: int, isRef: bool, isOut: bool)

  function TagRun(s: MainState, es: seq<TagEvent>): MainState {
    if es == [] then s
    else
      var e := es[|es| - 1];
      TagStep(TagRun(s, es[..|es| - 1]), e.tag, e.isRef, e.isOut)
  }

  /** The tag completes a pair. */
  predicate Completes(s: MainState, e: TagEvent) { HasPair(Store(s, e.tag, e.isRef, e.isOut)) }

  function PairsIn(s: MainState, es: seq<TagEvent>): nat {
    if es == [] then 0
    else
      var front := es[..|es| - 1];
      PairsIn(s, front) + if Completes(TagRun(s, front), es[|es| - 1]) then 1 else 0
  }

  /** How many pairs were completed with the loop locked. */
  function LockedPairs(s: MainState, es: seq<TagEvent>): nat {
    if es == [] then 0
    else
      var front := es[..|es| - 1];
      LockedPairs(s, front) +
      if Completes(TagRun(s, front), es[|es| - 1]) && TagRun(s, front).ld.locked then 1 else 0
  }

  /** In every run each pair completed with the loop locked brings the shift one step nearer its target, and nothing
      else moves it. */
  lemma {:induction false} ShiftInRun(s: MainState, es: seq<TagEvent>)
    ensures TagRun(s, es).target == s.target
    ensures TagRun(s, es).current == ShiftAfter(s.current, s.target, LockedPairs(s, es))
    ensures LockedPairs(s, es) >= Abs(s.target - s.current) ==> TagRun(s, es).current == s.target
  {
    if es != [] { ShiftInRun(s, es[..|es| - 1]); }
    ShiftArrives(s.current, s.target, LockedPairs(s, es));
  }

  // ----- which tags make a pair -----

  predicate OfChannel(e: TagEvent, ref: bool) { if ref then e.isRef else e.isOut }

  /** The last tag of the reference, or of the output, if there is any. */
  function LastTag(es: seq<TagEvent>, ref: bool): int {
    if es == [] then -1
    else if OfChannel(es[|es| - 1], ref) then es[|es| - 1].tag
    else LastTag(es[..|es| - 1], ref)
  }

  predicate Seen(es: seq<TagEvent>, ref: bool) { exists i :: 0 <= i < |es| && OfChannel(es[i], ref) }

  lemma {:induction false} LastSeen(es: seq<TagEvent>, ref: bool)
    requires forall i :: 0 <= i < |es| ==> IsTag(es[i].tag)
    ensures LastTag(es, ref) >= -1 && (LastTag(es, ref) >= 0 <==> Seen(es, ref))
  {
    if es != [] {
      var front := es[..|es| - 1];
      LastSeen(front, ref);
      if Seen(front, ref) {
        var i :| 0 <= i < |front| && OfChannel(front[i], ref);
        assert OfChannel(es[i], ref);
      }
      if Seen(es, ref) && !OfChannel(es[|es| - 1], ref) {
        var i :| 0 <= i < |es| && OfChannel(es[i], ref);
        assert OfChannel(front[i], ref);
      }
    }
  }

  /** After a start or a pair nothing happens until both channels have had a tag; then the last tags of both make the
      pair, and are forgotten. */
  lemma {:induction false} NextPair(s: MainState, es: seq<TagEvent>)
    requires s.tagRef == s.tagOut == -1 && es != [] && forall i :: 0 <= i < |es| ==> IsTag(es[i].tag)
    requires forall n :: 0 <= n < |es| ==> !(Seen(es[..n], true) && Seen(es[..n], false))
    ensures var s' := s.(tagRef := LastTag(es, true), tagOut := LastTag(es, false));
            TagRun(s, es) == if Seen(es, true) && Seen(es, false) then PairStep(s') else s'
    ensures Seen(es, true) && Seen(es, false) ==> TagRun(s, es).tagRef == TagRun(s, es).tagOut == -1
    decreases |es|
  {
    var front := es[..|es| - 1];
    LastSeen(es, true);
    LastSeen(es, false);
    if front != [] {
      forall n | 0 <= n < |front| ensures !(Seen(front[..n], true) && Seen(front[..n], false)) {
        assert front[..n] == es[..n];
      }
      NextPair(s, front);
    }
  }

  class MainPll {
    var adderRef: int
    var adderOut: int
    var tagRef: int
    var tagOut: int
    var tagRefD: int
    var tagOutD: int
    var phaseShiftTarget: int
    var phaseShiftCurrent: int
    const idRef: int
    const idOut: int
    const pi: PiController
    const ld: LockDetector
    ghost var refs: seq<int>   // reference tags of completed pairs since the last Start
    ghost var outs: seq<int>
    ghost var shifts: seq<int>  // the shift at the start and after each completed pair
    ghost var taken: int

    /** mpll_init */
    constructor (idRef: int, idOut: int)
      ensures fresh(pi) && fresh(ld) && this.idRef == idRef && this.idOut == idOut
      ensures SetUp() && ld.good == 0 && !ld.locked
    {
      this.idRef, this.idOut := idRef, idOut;
      adderRef, adderOut, tagRef, tagOut, tagRefD, tagOutD := 0, 0, -1, -1, -1, -1;
      phaseShiftTarget, phaseShiftCurrent := 0, 0;
      pi := new PiController(1100, 30, 65000, 5, 65530);
      ld := new LockDetector(1200, 1000, 100);
      refs, outs, shifts, taken := [], [], [0], 0;
    }

    ghost predicate SetUp()
      reads this, pi, ld
    {
      MainGains(pi.State()) && ld.Valid() && ld.lockSamples == 1000 && ld.delockSamples == 100 && ld.threshold == 1200
    }

    function State(): MainState
      reads this, pi, ld
    {
      MainState(adderRef, adderOut, tagRef, tagOut, tagRefD, tagOutD, phaseShiftTarget, phaseShiftCurrent,
                pi.State(), ld.State())
    }

    ghost predicate Valid()
      reads this, pi, ld
    {
      && SetUp() && IntegratorBounded(pi.State()) && pi.yMin <= pi.y <= pi.yMax
      && TagsValid(State()) && !HasPair(State())
      && Tracks(State(), refs, outs, taken)
      && (forall k :: 0 <= k < |refs| ==> IsTag(refs[k]) && IsTag(outs[k]))
      && |shifts| == |refs| + 1 && shifts[|refs|] == phaseShiftCurrent
      && (TameRun(refs, outs, shifts) ==> Boxed(State()))
    }

    /** mpll_start */
    method Start()
      requires SetUp()
      modifies this, pi, ld
      ensures Valid() && refs == [] && ld.good == 0 && !ld.locked
      ensures phaseShiftTarget == 0 && phaseShiftCurrent == 0 && adderRef == 0 && adderOut == 0
    {
      Forget();
      pi.Init();
      ld.Init();
    }

    /** Adders and shift at zero, no tags. */
    method Forget()
      modifies this
      ensures State() == MainState(0, 0, -1, -1, -1, -1, 0, 0, pi.State(), ld.State())
      ensures refs == [] && outs == [] && shifts == [0] && taken == 0
    {
      hide PiController.State, LockDetector.State;
      adderRef, adderOut, tagRef, tagOut, tagRefD, tagOutD := 0, 0, -1, -1, -1, -1;
      phaseShiftTarget, phaseShiftCurrent := 0, 0;
      refs, outs, shifts, taken := [], [], [0], 0;
    }

    /** mpll_update: true when locked or when lock was just lost */
    method Update(tag: int, source: int) returns (r: bool)
      requires Valid() && IsTag(tag)
      modifies this, pi, ld
      ensures Valid()
      ensures State() == TagStep(old(State()), tag, source == idRef, source == idOut)
      ensures old(ld.good) <= ld.good <= old(ld.good) + 1
      ensures HasPair(Store(old(State()), tag, source == idRef, source == idOut)) ==>
                && refs == old(refs) + [if source == idRef then tag else old(tagRef)]
                && outs == old(outs) + [if source == idOut then tag else old(tagOut)]
                && shifts == old(shifts) + [phaseShiftCurrent]
                && (TameRun(refs, outs, shifts) ==>
                      FitsWithin(Store(old(State()), tag, source == idRef, source == idOut)))
      ensures TameRun(refs, outs, shifts) ==> FitsInt32(adderRef) && FitsInt32(adderOut)
    {
      hide Follows, TameRun, FitsWithin, PairStep;
      r := false;
      if source == idRef { tagRef := tag; }
      if source == idOut { tagOut := tag; }
      if tagRef >= 0 && tagOut >= 0 {
        r := CompletePair();
      }
    }

    /** The part of mpll_update that runs when both tags are there. */
    method CompletePair() returns (r: bool)
      requires SetUp() && TagsValid(State()) && HasPair(State()) && Tracks(State(), refs, outs, taken)
      requires forall k :: 0 <= k < |refs| ==> IsTag(refs[k]) && IsTag(outs[k])
      requires |shifts| == |refs| + 1 && shifts[|refs|] == phaseShiftCurrent
      requires TameRun(refs, outs, shifts) ==> Boxed(State())
      requires IntegratorBounded(pi.State())
      modifies this, pi, ld
      ensures Valid() && State() == PairStep(old(State())) && old(ld.good) <= ld.good <= old(ld.good) + 1
      ensures refs == old(refs) + [old(tagRef)] && outs == old(outs) + [old(tagOut)]
      ensures shifts == old(shifts) + [phaseShiftCurrent]
      ensures TameRun(refs, outs, shifts) ==> FitsWithin(old(State()))
    {
      hide TameRun, Boxed, AddersFit, PairFits, FitsWithin, Follows, PairStep, LiftStep, IntegratorBounded, UsedError;
      ghost var s := State();
      PairTracks(s, refs, outs, taken);
      TamePair(s, refs, outs, shifts, taken);
      PairControl(s);
      r := StepPair();
      ClearedByPair(s);
    }

    /** What CompletePair does, without what it keeps. */
    method StepPair() returns (r: bool)
      requires SetUp()
      modifies this, pi, ld
      ensures SetUp() && State() == PairStep(old(State())) && old(ld.good) <= ld.good <= old(ld.good) + 1
      ensures refs == old(refs) + [old(tagRef)] && outs == old(outs) + [old(tagOut)]
      ensures shifts == old(shifts) + [phaseShiftCurrent]
      ensures taken == old(taken) + if Renormalises(LiftStep(old(State()))) then TAG_WRAPAROUND else 0
    {
      hide Masked;
      var err := LiftAdders();
      if ld.locked { err := Masked(err); }
      var y := pi.Update(err);
      Drop();
      Shift();
      shifts := shifts + [phaseShiftCurrent];
      var l := ld.Update(err);
      r := l != 0;
    }

    method LiftAdders() returns (err: int)
      modifies this`adderRef, this`adderOut, this`tagRefD, this`tagOutD
      ensures State() == LiftStep(old(State())) && err == RawError(old(State()))
    {
      if tagRefD >= 0 && tagRefD > tagRef { adderRef := adderRef + TAG_RANGE; }
      if tagOutD >= 0 && tagOutD > tagOut { adderOut := adderOut + TAG_RANGE; }
      tagRefD, tagOutD := tagRef, tagOut;
      err := adderRef + tagRef - adderOut - tagOut;
    }

    method Drop()
      modifies this`adderRef, this`adderOut, this`tagRef, this`tagOut, this`refs, this`outs, this`taken
      ensures State() == DropStep(old(State()))
      ensures refs == old(refs) + [old(tagRef)] && outs == old(outs) + [old(tagOut)]
      ensures taken == old(taken) + if Renormalises(old(State())) then TAG_WRAPAROUND else 0
    {
      refs, outs := refs + [tagRef], outs + [tagOut];
      tagOut, tagRef := -1, -1;
      if adderRef > 2 * TAG_WRAPAROUND && adderOut > 2 * TAG_WRAPAROUND {
        adderRef := adderRef - TAG_WRAPAROUND;
        adderOut := adderOut - TAG_WRAPAROUND;
        taken := taken + TAG_WRAPAROUND;
      }
    }

    method Shift()
      modifies this`adderRef, this`phaseShiftCurrent
      ensures State() == ShiftStep(old(State()))
    {
      if ld.locked {
        if phaseShiftCurrent < phaseShiftTarget {
          phaseShiftCurrent := phaseShiftCurrent + 1;
          adderRef := adderRef + 1;
        } else if phaseShiftCurrent > phaseShiftTarget {
          phaseShiftCurrent := phaseShiftCurrent - 1;
          adderRef := adderRef - 1;
        }
      }
    }

    /** mpll_set_phase_shift */
    method SetPhaseShift(desired: int)
      requires Valid()
      modifies this`phaseShiftTarget
      ensures Valid() && State() == old(State()).(target := desired)
    {
      phaseShiftTarget := desired;
    }

    /** mpll_shifter_busy: whether the next pair completed with the loop locked would still move the shift. */
    method ShifterBusy() returns (busy: bool)
      ensures busy <==> Toward(phaseShiftCurrent, phaseShiftTarget) != phaseShiftCurrent
    {
      busy := phaseShiftTarget != phaseShiftCurrent;
    }
  }
}
