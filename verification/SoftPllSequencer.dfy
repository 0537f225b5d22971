/** The start-up sequencer of the SoftPLL and its interrupt loop (softpll/softpll_ng.c). The timer and
    the lock state of the external reference come with each tag, as the environment of the loop. */
module SoftPllSequencer {
  import opened SoftPllControl
  import opened SoftPllHelper
  import opened SoftPllMain

  datatype Mode = GrandMaster | FreeRunningMaster | Slave | ModeDisabled

  datatype SeqState =
    | StartExt | WaitExt | StartHelper | WaitHelper | StartMain | WaitMain
    | SeqDisabled | Ready | ClearDacs | WaitClearDacs

  /** One tag read from the FIFO, with what the environment shows while it is handled. */
  datatype Event = Event(tag: int, source: int, timeout: bool, extLocked: bool)

  /** What the sequencer looks at. */
  datatype Flags = Flags(timeout: bool, extLocked: bool, helperLocked: bool, helperChanged: bool, mainLocked: bool)

  /** How many samples in threshold the helper's and the main loop's lock detector have counted, and what they show. */
  datatype Goods = Goods(helper: nat, main: nat, helperLocked: bool, helperChanged: bool, mainLocked: bool)

  function NextState(mode: Mode, s: SeqState, f: Flags): SeqState {
    match s
    case ClearDacs => WaitClearDacs
    case WaitClearDacs => if !f.timeout then s else if mode == GrandMaster then StartExt else StartHelper
    case SeqDisabled => s
    case StartExt => WaitExt
    case WaitExt => if f.extLocked then StartHelper else s
    case StartHelper => WaitHelper
    case WaitHelper => if !(f.helperLocked && f.helperChanged) then s else if mode == Slave then StartMain else Ready
    case StartMain => WaitMain
    case WaitMain => if f.mainLocked then Ready else s
    case Ready =>
      if !f.helperLocked then ClearDacs
      else if mode == GrandMaster && !f.extLocked then StartExt
      else if mode == Slave && !f.mainLocked then ClearDacs
      else s
  }

  predicate HelperRunning(s: SeqState) { s == WaitHelper || HelperDone(s) }

  predicate HelperDone(s: SeqState) { s == StartMain || s == WaitMain || s == Ready }

  predicate MainRunning(mode: Mode, s: SeqState) { s == WaitMain || (s == Ready && mode == Slave) }

  /** How often a trace leaves the ready state. */
  function Exits(trace: seq<SeqState>): nat {
    if |trace| < 2 then 0
    else Exits(trace[..|trace| - 1]) + if trace[|trace| - 2] == Ready && trace[|trace| - 1] != Ready then 1 else 0
  }

  class SoftPll {
    const mode: Mode
    const helper: HelperPll
    const mpll: MainPll
    var seqState: SeqState
    var delockCount: nat

    /** spll_init */
    constructor (mode: Mode, slaveRef: int, mainChannel: int)
      ensures Valid() && this.mode == mode && delockCount == 0
      ensures seqState == if mode == ModeDisabled then SeqDisabled else ClearDacs
    {
      this.mode := mode;
      seqState := if mode == ModeDisabled then SeqDisabled else ClearDacs;
      delockCount := 0;
      helper := new HelperPll(if mode == Slave then slaveRef else mainChannel);
      mpll := new MainPll(slaveRef, mainChannel);
    }

    ghost predicate Separate()
      reads this
    {
      && helper.pi != mpll.pi && helper.ld != mpll.ld
    }

    /** The sequencer has come past a wait only when the loop it waited for had its samples. */
    ghost predicate Valid()
      reads this, helper, helper.pi, helper.ld, mpll, mpll.pi, mpll.ld
    {
      && Separate()
      && helper.SetUp() && mpll.SetUp()
      && (HelperRunning(seqState) ==> helper.Valid())
      && (MainRunning(mode, seqState) ==> mpll.Valid())
      && (HelperDone(seqState) ==> helper.ld.good >= helper.ld.lockSamples)
      && (seqState == StartMain || seqState == WaitMain ==> mode == Slave)
      && (seqState == Ready && mode == Slave ==> mpll.ld.good >= mpll.ld.lockSamples)
    }

    function Observed(e: Event): Flags
      reads helper.ld, mpll.ld
    {
      Flags(e.timeout, e.extLocked, helper.ld.locked, helper.ld.changed, mpll.ld.locked)
    }

    /** sequencing_fsm */
    method Sequence(e: Event)
      requires Valid()
      modifies this, helper, helper.pi, helper.ld, mpll, mpll.pi, mpll.ld
      ensures Valid()
      ensures seqState == NextState(mode, old(seqState), old(Observed(e)))
      ensures delockCount == old(delockCount) + if old(seqState) == Ready && seqState != Ready then 1 else 0
      ensures old(seqState) == StartHelper ==> helper.ld.good == 0 && helper.tags == []
      ensures old(seqState) != StartHelper ==> helper.ld.good == old(helper.ld.good)
      ensures old(seqState) == StartMain ==> mpll.ld.good == 0 && mpll.refs == []
      ensures old(seqState) != StartMain ==> mpll.ld.good == old(mpll.ld.good)
      ensures old(seqState) != Ready && seqState == Ready ==>
        && helper.ld.good >= 10000
        && (mode == Slave ==> mpll.ld.locked && mpll.ld.good >= 1000)
        && (mode != Slave ==> helper.ld.locked)
    {
      match seqState {
        case StartHelper => BeginHelper();
        case StartMain => BeginMain();
        case Ready => WatchLocks(e);
        case _ => Wait(e);
      }
    }

    /** The states that only wait for something and then move on. */
    method Wait(e: Event)
      requires Valid() && seqState != StartHelper && seqState != StartMain && seqState != Ready
      modifies this`seqState
      ensures Valid() && seqState == NextState(mode, old(seqState), Observed(e))
      ensures seqState == Ready ==>
        && helper.ld.good >= 10000
        && (mode == Slave ==> mpll.ld.locked && mpll.ld.good >= 1000)
        && (mode != Slave ==> helper.ld.locked)
    {
      match seqState {
        case ClearDacs => seqState := WaitClearDacs;
        case WaitClearDacs =>
          if e.timeout { seqState := if mode == GrandMaster then StartExt else StartHelper; }
        case StartExt => seqState := WaitExt;
        case WaitExt =>
          if e.extLocked { seqState := StartHelper; }
        case WaitHelper =>
          if helper.ld.locked && helper.ld.changed {
            seqState := if mode == Slave then StartMain else Ready;
          }
        case WaitMain =>
          if mpll.ld.locked { seqState := Ready; }
        case SeqDisabled =>
      }
    }

    method BeginHelper()
      requires Valid() && seqState == StartHelper
      modifies this`seqState, helper, helper.pi, helper.ld
      ensures Valid() && seqState == WaitHelper && helper.ld.good == 0 && helper.tags == []
    {
      helper.Start();
      seqState := WaitHelper;
    }

    method BeginMain()
      requires Valid() && seqState == StartMain
      modifies this`seqState, mpll, mpll.pi, mpll.ld
      ensures Valid() && seqState == WaitMain && mpll.ld.good == 0 && mpll.refs == []
    {
      mpll.Start();
      seqState := WaitMain;
    }

    method WatchLocks(e: Event)
      requires Valid() && seqState == Ready
      modifies this
      ensures Valid() && seqState == NextState(mode, Ready, Observed(e))
      ensures delockCount == old(delockCount) + if seqState != Ready then 1 else 0
    {
      if !helper.ld.locked {
        delockCount := delockCount + 1;
        seqState := ClearDacs;
      } else if mode == GrandMaster && !e.extLocked {
        delockCount := delockCount + 1;
        seqState := StartExt;
      } else if mode == Slave && !mpll.ld.locked {
        delockCount := delockCount + 1;
        seqState := ClearDacs;
      }
    }

    /** update_loops, for the helper and the main loop */
    method UpdateLoops(e: Event)
      requires Valid() && IsTag(e.tag)
      modifies helper, helper.pi, helper.ld, mpll, mpll.pi, mpll.ld
      ensures Valid() && seqState == old(seqState) && delockCount == old(delockCount)
      ensures old(helper.ld.good) <= helper.ld.good <= old(helper.ld.good) + 1
      ensures old(mpll.ld.good) <= mpll.ld.good <= old(mpll.ld.good) + 1
      ensures !HelperRunning(seqState) ==> unchanged(helper, helper.pi, helper.ld)
      ensures HelperRunning(seqState) ==>
                helper.tags == old(helper.tags) + if e.source == helper.refSrc then [e.tag] else []
      ensures HelperRunning(seqState) && e.source == helper.refSrc && old(helper.tags) != [] ==>
                ControlStep(old(helper.pi.State()), old(helper.ld.State()), old(helper.ld.good),
                            Clamp(IdealError(helper.tags), -ERROR_CLAMP, ERROR_CLAMP),
                            helper.pi.State(), helper.ld.State(), helper.ld.good)
      ensures !MainRunning(mode, seqState) ==> unchanged(mpll, mpll.pi, mpll.ld)
      ensures MainRunning(mode, seqState) ==>
                mpll.State() == TagStep(old(mpll.State()), e.tag, e.source == mpll.idRef, e.source == mpll.idOut)
    {
      if HelperRunning(seqState) {
        var r := helper.Update(e.tag, e.source);
      }
      if MainRunning(mode, seqState) {
        var r := mpll.Update(e.tag, e.source);
      }
    }

    /** What the lock detectors keep: locked means that the samples have been counted. */
    lemma LockedCounts(e: Event)
      requires Valid()
      ensures Observed(e).helperLocked ==> helper.ld.good >= 10000
      ensures Observed(e).mainLocked ==> mpll.ld.good >= 1000
    {
    }

    /** The two lock detectors, with the samples in threshold since they were last cleared. */
    ghost function Counts(): Goods
      reads helper.ld, mpll.ld
    {
      Goods(helper.ld.good, mpll.ld.good, helper.ld.locked, helper.ld.changed, mpll.ld.locked)
    }

    /** _irq_entry: drains the FIFO. The trace holds the sequencer state before the first tag and after each, and
        `goods` the lock detectors at the same moments; `flags` is what the sequencer saw when it made its steps. */
    method Irq(events: seq<Event>)
        returns (ghost trace: seq<SeqState>, ghost flags: seq<Flags>, ghost goods: seq<Goods>)
      requires Valid() && forall i :: 0 <= i < |events| ==> IsTag(events[i].tag)
      modifies this, helper, helper.pi, helper.ld, mpll, mpll.pi, mpll.ld
      ensures Valid()
      ensures |trace| == |events| + 1 && trace[0] == old(seqState) && trace[|events|] == seqState
      ensures delockCount == old(delockCount) + Exits(trace)
      ensures IsRun(mode, trace, flags) && IsCounted(trace, flags, goods) && IsSeen(events, flags, goods)
    {
      hide Valid, IsSeen, IsCounted;
      NothingSeen(seqState, Counts());
      trace, flags, goods := [seqState], [], [Counts()];
      var i := 0;
      while i < |events|
        invariant 0 <= i <= |events| && Valid()
        invariant |trace| == i + 1 && trace[0] == old(seqState) && trace[i] == seqState
        invariant |goods| == i + 1 && goods[i] == Counts()
        invariant delockCount == old(delockCount) + Exits(trace)
        invariant IsRun(mode, trace, flags) && IsCounted(trace, flags, goods) && IsSeen(events[..i], flags, goods)
      {
        ghost var before := trace;
        ghost var flag, known := Observed(events[i]), flags;
        LockedCounts(events[i]);
        flags := flags + [flag];
        Sequence(events[i]);
        trace := trace + [seqState];
        assert trace[..|trace| - 1] == before;
        UpdateLoops(events[i]);
        CountedSnoc(before, known, goods, seqState, flag, Counts());
        SeenSnoc(events[..i], known, goods, events[i], flag, Counts());
        assert events[..i + 1] == events[..i] + [events[i]];
        goods := goods + [Counts()];
        i := i + 1;
      }
      assert events[..i] == events;
    }
  }

  // ----- order of events in every run -----

  ghost predicate IsRun(mode: Mode, trace: seq<SeqState>, flags: seq<Flags>) {
    && |trace| == |flags| + 1
    && forall i, j :: 0 <= i < j < |trace| && j == i + 1 ==> trace[j] == NextState(mode, trace[i], flags[i])
  }

  /** One tag: a start clears the count of its loop, every tag adds at most one, and a lock detector is only locked
      with its count at the lock level: 10000 for the helper, 1000 for the main loop. */
  predicate CountStep(s: SeqState, f: Flags, g: Goods, g': Goods) {
    && (var base := if s == StartHelper then 0 else g.helper; base <= g'.helper <= base + 1)
    && (var base := if s == StartMain then 0 else g.main; base <= g'.main <= base + 1)
    && (f.helperLocked ==> g.helper >= 10000) && (f.mainLocked ==> g.main >= 1000)
  }

  ghost predicate IsCounted(trace: seq<SeqState>, flags: seq<Flags>, goods: seq<Goods>) {
    && |goods| == |trace| == |flags| + 1
    && forall i, j :: 0 <= i < j < |trace| && j == i + 1 ==> CountStep(trace[i], flags[i], goods[i], goods[j])
  }

  /** The sequencer sees the timer and the external reference of the tag, and the lock detectors as the tags before it
      have left them. */
  predicate IsSeen(events: seq<Event>, flags: seq<Flags>, goods: seq<Goods>) {
    && |flags| == |events| && |goods| == |flags| + 1
    && forall i :: 0 <= i < |flags| ==>
         flags[i] == Flags(events[i].timeout, events[i].extLocked, goods[i].helperLocked, goods[i].helperChanged,
                           goods[i].mainLocked)
  }

  lemma NothingSeen(s: SeqState, g: Goods)
    ensures IsSeen([], [], [g]) && IsCounted([s], [], [g])
  {
  }

  lemma SeenSnoc(events: seq<Event>, flags: seq<Flags>, goods: seq<Goods>, e: Event, f: Flags, g: Goods)
    requires IsSeen(events, flags, goods)
    requires var last := goods[|goods| - 1];
             f == Flags(e.timeout, e.extLocked, last.helperLocked, last.helperChanged, last.mainLocked)
    ensures IsSeen(events + [e], flags + [f], goods + [g])
  {
  }

  lemma CountedSnoc(trace: seq<SeqState>, flags: seq<Flags>, goods: seq<Goods>, s: SeqState, f: Flags, g: Goods)
    requires trace != [] && IsCounted(trace, flags, goods)
    requires CountStep(trace[|trace| - 1], f, goods[|trace| - 1], g)
    ensures IsCounted(trace + [s], flags + [f], goods + [g])
  {
  }

  // ----- the way to READY -----

  /** The states of a start, in their order. */
  function StartUp(mode: Mode): seq<SeqState> {
    match mode
    case GrandMaster => [ClearDacs, WaitClearDacs, StartExt, WaitExt, StartHelper, WaitHelper, Ready]
    case FreeRunningMaster => [ClearDacs, WaitClearDacs, StartHelper, WaitHelper, Ready]
    case Slave => [ClearDacs, WaitClearDacs, StartHelper, WaitHelper, StartMain, WaitMain, Ready]
    case ModeDisabled => [SeqDisabled]
  }

  /** What a waiting state waits for has not come. */
  predicate Waits(s: SeqState, f: Flags) {
    || (s == WaitClearDacs && !f.timeout)
    || (s == WaitExt && !f.extLocked)
    || (s == WaitHelper && !(f.helperLocked && f.helperChanged))
    || (s == WaitMain && !f.mainLocked)
  }

  /** All that the mode needs in order to stay ready is locked. */
  predicate Locked(mode: Mode, f: Flags) {
    f.helperLocked && (mode == GrandMaster ==> f.extLocked) && (mode == Slave ==> f.mainLocked)
  }

  /** A run of an enabled mode goes through the states of its start in their order: each is left for the next, at once
      or, a waiting state, as soon as what it waits for is there. */
  lemma {:induction false} StartsInOrder(mode: Mode, trace: seq<SeqState>, flags: seq<Flags>, k: nat) returns (i: nat)
    requires IsRun(mode, trace, flags) && trace[0] == StartUp(mode)[0] && k < |trace|
    ensures i < |StartUp(mode)| && trace[k] == StartUp(mode)[i]
    ensures k < |flags| && i + 1 < |StartUp(mode)| ==>
              trace[k + 1] == StartUp(mode)[if Waits(trace[k], flags[k]) then i else i + 1]
  {
    if k == 0 {
      i := 0;
    } else {
      i := StartsInOrder(mode, trace, flags, k - 1);
      if i + 1 < |StartUp(mode)| {
        i := if Waits(trace[k - 1], flags[k - 1]) then i else i + 1;
      } else if trace[k] != trace[k - 1] {
        i := if trace[k] == StartExt then 2 else 0;
      }
    }
  }

  /** READY is kept exactly as long as all locks hold that the mode needs. A grandmaster that has only lost the external
      reference begins again with that, and everything else begins again with the DACs. */
  lemma ReadyExact(mode: Mode, trace: seq<SeqState>, flags: seq<Flags>, k: nat)
    requires IsRun(mode, trace, flags) && k < |flags| && trace[k] == Ready
    ensures trace[k + 1] == Ready <==> Locked(mode, flags[k])
    ensures !Locked(mode, flags[k]) ==>
              trace[k + 1] == if mode == GrandMaster && flags[k].helperLocked then StartExt else ClearDacs
  {
  }

  /** A grandmaster starts the helper only on the external reference, and any other mode only after the DACs have had
      their time. */
  lemma HelperStarts(mode: Mode, trace: seq<SeqState>, flags: seq<Flags>, k: nat)
    requires IsRun(mode, trace, flags) && k < |flags| && trace[k + 1] == StartHelper
    ensures if mode == GrandMaster then trace[k] == WaitExt && flags[k].extLocked
            else trace[0] == StartUp(mode)[0] ==> trace[k] == WaitClearDacs && flags[k].timeout
  {
    assert trace[k + 1] == NextState(mode, trace[k], flags[k]);
    if mode != GrandMaster && trace[0] == StartUp(mode)[0] {
      var i := StartsInOrder(mode, trace, flags, k);
    }
  }

  /** When nothing has to be waited for, every tag takes a start one state further, until it is ready. */
  lemma {:induction false} ReachesReady(mode: Mode, trace: seq<SeqState>, flags: seq<Flags>, i: nat, n: nat, k: nat)
    requires IsRun(mode, trace, flags) && i + n < |StartUp(mode)| && k + n < |trace| && trace[k] == StartUp(mode)[i]
    requires forall j :: k <= j < k + n ==> !Waits(trace[j], flags[j])
    ensures trace[k + n] == StartUp(mode)[i + n]
  {
    if n > 0 {
      ReachesReady(mode, trace, flags, i, n - 1, k);
      assert trace[k + n] == NextState(mode, trace[k + n - 1], flags[k + n - 1]);
    }
  }

  /** State `s` was entered right after position `i` and has been kept up to position `k`. */
  predicate KeptSince(trace: seq<SeqState>, from: SeqState, s: SeqState, i: nat, k: nat) {
    i < k < |trace| && trace[i] == from && forall j :: i < j <= k ==> trace[j] == s
  }

  /** The helper was started at position `i`, and has been running ever since. */
  predicate HelperSince(trace: seq<SeqState>, i: nat, k: nat) {
    i < k < |trace| && trace[i] == StartHelper && forall j :: i < j <= k ==> HelperRunning(trace[j])
  }

  /** Whatever state a run is in, the steps that lead there have been taken: waiting follows a start of
      the loop waited for, and the main loop starts on a fresh lock of the helper. */
  ghost predicate Prepared(mode: Mode, trace: seq<SeqState>, flags: seq<Flags>, k: nat)
    requires |trace| == |flags| + 1 && k < |trace|
  {
    && (trace[k] == WaitHelper ==> exists i: nat :: KeptSince(trace, StartHelper, WaitHelper, i, k))
    && (trace[k] == WaitMain ==> exists i: nat :: KeptSince(trace, StartMain, WaitMain, i, k))
    && (trace[k] == StartMain ==>
          k > 0 && trace[k - 1] == WaitHelper && flags[k - 1].helperLocked && flags[k - 1].helperChanged)
    && (trace[k] == StartMain || trace[k] == WaitMain ==> mode == Slave)
    && (HelperRunning(trace[k]) ==> exists i: nat :: HelperSince(trace, i, k))
  }

  lemma {:induction false} RunPrepared(mode: Mode, trace: seq<SeqState>, flags: seq<Flags>, k: nat)
    requires IsRun(mode, trace, flags) && k < |trace| && (trace[0] == ClearDacs || trace[0] == SeqDisabled)
    ensures Prepared(mode, trace, flags, k)
    ensures trace[0] == SeqDisabled ==> trace[k] == SeqDisabled
  {
    if k > 0 {
      var b := k - 1;
      RunPrepared(mode, trace, flags, b);
      assert trace[k] == NextState(mode, trace[b], flags[b]);
      if trace[b] == StartHelper {
        assert KeptSince(trace, StartHelper, WaitHelper, b, k);
        assert HelperSince(trace, b, k);
      } else if HelperRunning(trace[k]) {
        var i: nat :| HelperSince(trace, i, b);
        assert HelperSince(trace, i, k);
      }
      if trace[b] == StartMain { assert KeptSince(trace, StartMain, WaitMain, b, k); }
      if trace[k] == WaitHelper && trace[b] == WaitHelper {
        var i: nat :| KeptSince(trace, StartHelper, WaitHelper, i, b);
        assert KeptSince(trace, StartHelper, WaitHelper, i, k);
      }
      if trace[k] == WaitMain && trace[b] == WaitMain {
        var i: nat :| KeptSince(trace, StartMain, WaitMain, i, b);
        assert KeptSince(trace, StartMain, WaitMain, i, k);
      }
    }
  }

  /** Started at position `i`, and no lock has been lost since. */
  predicate StartedAt(trace: seq<SeqState>, start: SeqState, i: nat, k: nat) {
    i < k < |trace| && trace[i] == start && forall j :: i < j <= k ==> trace[j] != ClearDacs && trace[j] != StartExt
  }

  /** A loop gets the tags exactly from its start until a lock is lost. */
  lemma LoopsRunSince(mode: Mode, trace: seq<SeqState>, flags: seq<Flags>, k: nat)
    requires IsRun(mode, trace, flags) && k < |trace| && (trace[0] == ClearDacs || trace[0] == SeqDisabled)
    ensures HelperRunning(trace[k]) <==> exists i: nat :: StartedAt(trace, StartHelper, i, k)
    ensures MainRunning(mode, trace[k]) <==> exists i: nat :: StartedAt(trace, StartMain, i, k)
  {
    RunPrepared(mode, trace, flags, k);
    MainSince(mode, trace, flags, k);
    if HelperRunning(trace[k]) {
      var i: nat :| HelperSince(trace, i, k);
      assert StartedAt(trace, StartHelper, i, k);
    }
    if i: nat :| StartedAt(trace, StartHelper, i, k) { StillRunning(mode, trace, flags, i, k); }
    if i: nat :| StartedAt(trace, StartMain, i, k) { StillRunning(mode, trace, flags, i, k); }
  }

  lemma {:induction false} MainSince(mode: Mode, trace: seq<SeqState>, flags: seq<Flags>, k: nat)
    requires IsRun(mode, trace, flags) && k < |trace| && (trace[0] == ClearDacs || trace[0] == SeqDisabled)
    ensures MainRunning(mode, trace[k]) ==> exists i: nat :: StartedAt(trace, StartMain, i, k)
  {
    RunPrepared(mode, trace, flags, k);
    if k > 0 && MainRunning(mode, trace[k]) {
      var b := k - 1;
      assert trace[k] == NextState(mode, trace[b], flags[b]);
      if trace[b] == StartMain {
        assert StartedAt(trace, StartMain, b, k);
      } else {
        MainSince(mode, trace, flags, b);
        var i: nat :| StartedAt(trace, StartMain, i, b);
        assert StartedAt(trace, StartMain, i, k);
      }
    }
  }

  lemma {:induction false} StillRunning(mode: Mode, trace: seq<SeqState>, flags: seq<Flags>, i: nat, k: nat)
    requires IsRun(mode, trace, flags) && (trace[0] == ClearDacs || trace[0] == SeqDisabled)
    requires StartedAt(trace, StartHelper, i, k) || StartedAt(trace, StartMain, i, k)
    ensures trace[i] == StartHelper ==> HelperRunning(trace[k])
    ensures trace[i] == StartMain ==> MainRunning(mode, trace[k])
    decreases k
  {
    RunPrepared(mode, trace, flags, k - 1);
    assert trace[k] == NextState(mode, trace[k - 1], flags[k - 1]);
    if i < k - 1 { StillRunning(mode, trace, flags, i, k - 1); }
  }

  /** A count starts from 0 at the start of its loop and grows by at most one a tag. */
  lemma {:induction false} CountedSince(trace: seq<SeqState>, flags: seq<Flags>, goods: seq<Goods>, i: nat, k: nat)
    requires IsCounted(trace, flags, goods) && i < k < |trace|
    ensures trace[i] == StartHelper && (forall j :: i < j < k ==> trace[j] != StartHelper) ==> goods[k].helper <= k - i
    ensures trace[i] == StartMain && (forall j :: i < j < k ==> trace[j] != StartMain) ==> goods[k].main <= k - i
  {
    var b := k - 1;
    assert CountStep(trace[b], flags[b], goods[b], goods[k]);
    if i < b { CountedSince(trace, flags, goods, i, b); }
  }

  /** No sample is forgotten while the helper keeps running. */
  lemma {:induction false} CountKept(trace: seq<SeqState>, flags: seq<Flags>, goods: seq<Goods>, i: nat, k: nat)
    requires IsCounted(trace, flags, goods) && i <= k < |trace| && forall j :: i <= j < k ==> trace[j] != StartHelper
    ensures goods[i].helper <= goods[k].helper
  {
    if i < k {
      CountKept(trace, flags, goods, i, k - 1);
      assert CountStep(trace[k - 1], flags[k - 1], goods[k - 1], goods[k]);
    }
  }

  /** A run is ready only when, since the helper was last started, at least 10000 of its samples were in threshold
      (so that at least as many tags have come since), and in slave mode at least 1000 of the main loop's since that
      was last started; and only on a lock of the loop waited for. */
  lemma ReadyIsEarned(mode: Mode, trace: seq<SeqState>, flags: seq<Flags>, goods: seq<Goods>, b: nat)
    requires IsRun(mode, trace, flags) && IsCounted(trace, flags, goods)
    requires trace[0] == ClearDacs || trace[0] == SeqDisabled
    requires b + 1 < |trace| && trace[b] != Ready && trace[b + 1] == Ready
    ensures exists i: nat :: HelperSince(trace, i, b) && 10000 <= goods[b].helper <= b - i
    ensures if mode == Slave
            then flags[b].mainLocked &&
                 exists i: nat :: KeptSince(trace, StartMain, WaitMain, i, b) && 1000 <= goods[b].main <= b - i
            else flags[b].helperLocked && flags[b].helperChanged &&
                 exists i: nat :: KeptSince(trace, StartHelper, WaitHelper, i, b)
  {
    RunPrepared(mode, trace, flags, b);
    assert trace[b + 1] == NextState(mode, trace[b], flags[b]);
    assert CountStep(trace[b], flags[b], goods[b], goods[b + 1]);
    var i: nat :| HelperSince(trace, i, b);
    CountedSince(trace, flags, goods, i, b);
    if mode == Slave {
      // the main loop was started on a lock of the helper, and nothing has been forgotten since
      var j: nat :| KeptSince(trace, StartMain, WaitMain, j, b);
      CountedSince(trace, flags, goods, j, b);
      RunPrepared(mode, trace, flags, j);
      assert CountStep(trace[j - 1], flags[j - 1], goods[j - 1], goods[j]);
      CountKept(trace, flags, goods, j - 1, b);
    }
  }
}
