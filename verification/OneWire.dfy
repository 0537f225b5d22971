/** 1-Wire ROM search (dev/w1.c): a walk of the trie of ROM codes driven only by wired-AND bit reads. */
module OneWire {

  const BITS := 64
  const MAX_DEVICES := 8

  /** A 64-bit ROM code; bit 0 is the one sent first. Masks and conflict words have the same shape. */
  type Word = w: seq<bool> | |w| == BITS witness Zeros(BITS)

  function Zeros(n: nat): (z: seq<bool>)
    ensures |z| == n && forall i :: 0 <= i < n ==> !z[i]
  {
    if n == 0 then [] else Zeros(n - 1) + [false]
  }

  const ZERO: Word := Zeros(BITS)

  // ----- the order of the trie: least significant bit first -----

  predicate Agree(a: Word, b: Word, k: nat)
    requires k <= BITS
  {
    forall j :: 0 <= j < k ==> a[j] == b[j]
  }

  /** `a` is left of `b` in the trie, and they part at bit `d`. */
  predicate PartsAt(a: Word, b: Word, d: nat) {
    d < BITS && Agree(a, b, d) && !a[d] && b[d]
  }

  ghost predicate Less(a: Word, b: Word) {
    exists d: nat :: PartsAt(a, b, d)
  }

  lemma LessTransitive(a: Word, b: Word, c: Word)
    requires Less(a, b) && Less(b, c)
    ensures Less(a, c)
  {
    var d: nat :| PartsAt(a, b, d);
    var e: nat :| PartsAt(b, c, e);
    assert PartsAt(a, c, if d < e then d else e);
  }

  lemma LessIrreflexive(a: Word, b: Word)
    ensures !Less(a, a)
    ensures !(Less(a, b) && Less(b, a))
  {
  }

  function FirstDifference(a: Word, b: Word, k: nat): (d: nat)
    requires exists j :: k <= j < BITS && a[j] != b[j]
    ensures k <= d < BITS && a[d] != b[d] && forall j :: k <= j < d ==> a[j] == b[j]
    decreases BITS - k
  {
    if a[k] != b[k] then k else FirstDifference(a, b, k + 1)
  }

  /** Two different codes part somewhere. */
  lemma PartSomewhere(a: Word, b: Word) returns (d: nat)
    requires a != b
    ensures PartsAt(a, b, d) || PartsAt(b, a, d)
    ensures Less(a, b) || Less(b, a)
  {
    assert exists j :: 0 <= j < BITS && a[j] != b[j];
    d := FirstDifference(a, b, 0);
    assert PartsAt(a, b, d) || PartsAt(b, a, d);
  }

  /** The bits an `int` can hold. */
  predicate SameLow(a: Word, b: Word) {
    Agree(a, b, 32)
  }

  /** Whatever lies between two codes with equal low bits has those low bits too. */
  lemma LowBetween(a: Word, b: Word, c: Word)
    requires SameLow(a, c) && Less(a, b) && Less(b, c)
    ensures SameLow(a, b)
  {
    var d: nat :| PartsAt(a, b, d);
    var e: nat :| PartsAt(b, c, e);
  }

  // ----- the bus -----

  /** The devices on the wire. A bit read is the AND of what all participating devices send: first
      their next ROM bit, then its complement; the bit written back drops those that differ. */
  class Bus {
    const roms: set<Word>
    var active: set<Word>
    var bit: nat
    var complement: bool

    constructor (roms: set<Word>)
      ensures this.roms == roms
    {
      this.roms := roms;
      active, bit, complement := {}, 0, false;
    }

    /** Reset pulse followed by the search command: every device takes part again. */
    method ResetAndSearch() returns (present: bool)
      modifies this
      ensures present == (roms != {})
      ensures active == roms && bit == 0 && !complement
    {
      active, bit, complement := roms, 0, false;
      present := roms != {};
    }

    method ReadBit() returns (b: bool)
      requires bit < BITS
      modifies this`complement
      ensures b == forall r :: r in active ==> r[bit] != old(complement)
      ensures complement == !old(complement)
    {
      b := forall r | r in active :: r[bit] != complement;
      complement := !complement;
    }

    method WriteBit(b: bool)
      requires bit < BITS
      modifies this
      ensures active == set r | r in old(active) && r[old(bit)] == b
      ensures bit == old(bit) + 1 && !complement
    {
      active := set r | r in active && r[bit] == b;
      bit, complement := bit + 1, false;
    }
  }

  datatype Dibit = B0 | B1 | Both

  /** Reads the two bits and answers them; the choice counts only in a conflict. */
  method GetDibit(bus: Bus, choice: bool) returns (d: Dibit)
    requires bus.bit < BITS && !bus.complement && bus.active != {}
    modifies bus
    ensures bus.bit == old(bus.bit) + 1 && !bus.complement
    ensures d.B1? <==> forall r :: r in old(bus.active) ==> r[old(bus.bit)]
    ensures d.B0? <==> forall r :: r in old(bus.active) ==> !r[old(bus.bit)]
    ensures bus.active == set r | r in old(bus.active) && r[old(bus.bit)] == (if d.Both? then choice else d.B1?)
    ensures bus.active != {}
  {
    ghost var someone :| someone in bus.active;
    var a := bus.ReadBit();
    var b := bus.ReadBit();
    if a != b {
      bus.WriteBit(a);
      assert someone in bus.active;
      return if a then B1 else B0;
    }
    assert exists r :: r in bus.active && r[bus.bit];
    assert exists r :: r in bus.active && !r[bus.bit];
    ghost var other :| other in bus.active && other[bus.bit] == choice;
    bus.WriteBit(choice);
    assert other in bus.active;
    return Both;
  }

  // ----- one descent -----

  /** A device on the path of `m` so far would answer bit `k` differently from `m`. */
  predicate Conflict(roms: set<Word>, m: Word, k: nat)
    requires k < BITS
  {
    exists r :: r in roms && Agree(r, m, k) && r[k] != m[k]
  }

  /** The bit sent in a conflict: `select` is an int, so masks from bit 32 up read as zero. */
  predicate Choice(rom: Word, k: nat)
    requires k < BITS
  {
    k < 32 && rom[k]
  }

  /** `m` is where the search guided by `rom` ends up, up to bit `k`. */
  ghost predicate Follows(roms: set<Word>, rom: Word, m: Word, k: nat)
    requires k <= BITS
  {
    forall j :: 0 <= j < k && Conflict(roms, m, j) ==> m[j] == Choice(rom, j)
  }

  /** Conflicts where the 1 branch was left for later. */
  ghost predicate Open(roms: set<Word>, m: Word, k: nat)
    requires k < BITS
  {
    !m[k] && Conflict(roms, m, k)
  }

  ghost predicate IsOpen(roms: set<Word>, m: Word, cmask: Word) {
    forall k: nat :: k < BITS ==> cmask[k] == Open(roms, m, k)
  }

  lemma ConflictsBelow(roms: set<Word>, m: Word, m': Word, k: nat)
    requires k <= BITS && Agree(m, m', k)
    ensures forall j :: 0 <= j < k ==> Conflict(roms, m, j) == Conflict(roms, m', j)
  {
    forall j | 0 <= j < k ensures Conflict(roms, m, j) == Conflict(roms, m', j) {
      if r :| r in roms && Agree(r, m, j) && r[j] != m[j] { assert Agree(r, m', j); }
      if r :| r in roms && Agree(r, m', j) && r[j] != m'[j] { assert Agree(r, m, j); }
    }
  }

  lemma StepDown(roms: set<Word>, m: Word, m': Word, k: nat, active: set<Word>, active': set<Word>)
    requires k < BITS && m' == m[k := m'[k]]
    requires active == set r | r in roms && Agree(r, m, k)
    requires active' == (set r | r in active && r[k] == m'[k]) && active' != {}
    ensures active' == set r | r in roms && Agree(r, m', k + 1)
    ensures forall j: nat :: j < k ==> Conflict(roms, m, j) == Conflict(roms, m', j)
    ensures Conflict(roms, m', k) <==> exists r :: r in active && r[k] != m'[k]
  {
    ConflictsBelow(roms, m, m', k);
    forall r ensures r in active' <==> r in roms && Agree(r, m', k + 1) {
      if r in active' { assert Agree(r, m', k + 1); }
      if r in roms && Agree(r, m', k + 1) { assert Agree(r, m, k); }
    }
    if r :| r in roms && Agree(r, m', k) && r[k] != m'[k] { assert Agree(r, m, k); }
    if r :| r in active && r[k] != m'[k] { assert Agree(r, m', k); }
  }

  /** Guided by `rom` the search reaches device `m`, leaves `rom'` in the slot and `cmask` open. */
  ghost predicate Descent(roms: set<Word>, rom: Word, m: Word, rom': Word, cmask: Word) {
    && m in roms
    && Follows(roms, rom, m, BITS)
    && (forall k: nat :: k < BITS ==> rom'[k] == (rom[k] || (m[k] && !Conflict(roms, m, k))))
    && IsOpen(roms, m, cmask)
  }

  // ----- where a descent leads -----

  /** The deepest conflict left open on the way to `p`. */
  ghost predicate Deepest(roms: set<Word>, p: Word, c: nat) {
    c < BITS && Open(roms, p, c) && forall k: nat :: c < k < BITS ==> !Open(roms, p, k)
  }

  /** The slot before the next descent: `p` up to bit `c`, then a one, then zeros. */
  predicate Guide(p: Word, c: nat, rom: Word) {
    && c < BITS && Agree(rom, p, c) && rom[c]
    && forall k: nat :: c < k < BITS ==> !rom[k]
  }

  /** Conflicts that `select` cannot see were answered with 0. */
  ghost predicate Quiet(roms: set<Word>, p: Word) {
    forall k: nat :: 32 <= k < BITS && Conflict(roms, p, k) ==> !p[k]
  }

  lemma {:induction false} FirstDescent(roms: set<Word>, m: Word, rom': Word, cmask: Word)
    requires Descent(roms, ZERO, m, rom', cmask)
    ensures rom' == m && Quiet(roms, m)
    ensures forall r :: r in roms && r != m ==> Less(m, r)
  {
    forall r | r in roms && r != m ensures Less(m, r) {
      var d := PartSomewhere(m, r);
      assert Agree(r, m, d) && Conflict(roms, m, d);
      assert PartsAt(m, r, d);
    }
  }

  /** As long as the guided word repeats what the last descent answered below `c`, the next one takes
      the same path there. */
  lemma {:induction false} SamePath(roms: set<Word>, p: Word, c: nat, rom: Word, m: Word, k: nat)
    requires p in roms && m in roms && Quiet(roms, p)
    requires c < BITS && Agree(rom, p, c) && Follows(roms, rom, m, BITS)
    requires k <= c
    ensures Agree(m, p, k)
  {
    if k > 0 {
      var j := k - 1;
      SamePath(roms, p, c, rom, m, j);
      if m[j] != p[j] {
        assert Agree(p, m, j) && Conflict(roms, m, j) && Conflict(roms, p, j);
      }
    }
  }

  /** Below bit 32 the search turns into the branch left open deepest and finds the next device. */
  lemma {:induction false} NextDescent(roms: set<Word>, p: Word, c: nat, rom: Word, m: Word, rom': Word, cmask: Word)
    requires p in roms && Quiet(roms, p) && Deepest(roms, p, c) && c < 32
    requires Guide(p, c, rom) && Descent(roms, rom, m, rom', cmask)
    ensures rom' == m && Quiet(roms, m) && PartsAt(p, m, c)
    ensures forall r :: r in roms && Less(p, r) && r != m ==> Less(m, r)
  {
    SamePath(roms, p, c, rom, m, c);
    var q :| q in roms && Agree(q, p, c) && q[c] != p[c];
    assert Agree(q, m, c) && Agree(p, m, c);
    assert Conflict(roms, m, c) && m[c];
    assert PartsAt(p, m, c);
    forall r | r in roms && Less(p, r) && r != m ensures Less(m, r) {
      var d: nat :| PartsAt(p, r, d);
      assert Agree(r, p, d) && Open(roms, p, d);
      if d < c {
        assert PartsAt(m, r, d);
      } else {
        var e := PartSomewhere(m, r);
        assert e > c;
        assert Agree(r, m, e) && Conflict(roms, m, e);
        assert PartsAt(m, r, e);
      }
    }
    forall k: nat | k < BITS ensures rom'[k] == m[k] {
      if k < c && Conflict(roms, m, k) { assert m[k] == rom[k]; }
    }
  }

  /** From bit 32 up the one in the guide is not seen: the search repeats the last path, and the slot
      is left with a code that was never read. */
  lemma {:induction false} StuckDescent(roms: set<Word>, p: Word, c: nat, rom: Word, m: Word, rom': Word, cmask: Word)
    requires p in roms && Quiet(roms, p) && Deepest(roms, p, c) && c >= 32
    requires Guide(p, c, rom) && Descent(roms, rom, m, rom', cmask)
    ensures m == p && rom' == p[c := true]
  {
    SamePath(roms, p, c, rom, m, c);
    if m != p {
      var d := PartSomewhere(m, p);
      assert false;
    }
    forall k: nat | k < BITS ensures rom'[k] == p[c := true][k] {
    }
  }

  // ----- what a scan should find, and when it does -----

  function Found(d: seq<Word>): set<Word> {
    set r | r in d
  }

  ghost predicate Ascending(d: seq<Word>) {
    forall j, k :: 0 <= j < k < |d| ==> Less(d[j], d[k])
  }

  /** The first devices of the trie order, each once. */
  ghost predicate SortedPrefix(roms: set<Word>, d: seq<Word>) {
    && (forall j :: 0 <= j < |d| ==> d[j] in roms)
    && Ascending(d)
    && (forall r, j :: r in roms && 0 <= j < |d| ==> r in d || Less(d[j], r))
  }

  function Expected(roms: set<Word>): (n: nat)
    ensures n <= |roms| && n <= MAX_DEVICES
  {
    if |roms| < MAX_DEVICES then |roms| else MAX_DEVICES
  }

  /** All devices, or the first eight, in order, and the other slots zero. */
  ghost predicate Correct(roms: set<Word>, devs: seq<Word>, n: nat)
    requires |devs| == MAX_DEVICES
  {
    && n == Expected(roms)
    && SortedPrefix(roms, devs[..n])
    && (forall j, k :: n <= j < MAX_DEVICES && 0 <= k < BITS ==> !devs[j][k])
  }

  ghost function Smaller(roms: set<Word>, s: Word): set<Word> {
    set t | t in roms && Less(t, s)
  }

  ghost function Rank(roms: set<Word>, s: Word): nat {
    |Smaller(roms, s)|
  }

  predicate BitAdded(a: Word, b: Word, c: nat) {
    c < BITS && b == a[c := true]
  }

  ghost predicate OneBitApart(a: Word, b: Word) {
    exists c: nat :: BitAdded(a, b, c)
  }

  /** Two devices with equal low bits must not both be among the first eight; only the eighth may
      repeat the low bits of the seventh, if it has a single bit more. */
  ghost predicate Separable(roms: set<Word>) {
    forall r, s :: r in roms && s in roms && Less(r, s) && SameLow(r, s) ==>
      Rank(roms, s) >= MAX_DEVICES || (Rank(roms, s) == MAX_DEVICES - 1 && OneBitApart(r, s))
  }

  lemma AscendingIndex(d: seq<Word>, j: nat, k: nat)
    requires Ascending(d) && j < |d| && k < |d|
    ensures Less(d[k], d[j]) <==> k < j
  {
    LessIrreflexive(d[k], d[j]);
  }

  lemma {:induction false} AscendingCount(d: seq<Word>)
    requires Ascending(d)
    ensures |Found(d)| == |d|
  {
    if d != [] {
      var last, init := d[|d| - 1], d[..|d| - 1];
      AscendingCount(init);
      forall j | 0 <= j < |init| ensures init[j] != last {
        AscendingIndex(d, |d| - 1, j);
        LessIrreflexive(last, last);
      }
      assert Found(d) == Found(init) + {last};
    }
  }

  /** The rank of the j-th code found is j. */
  lemma RankIsIndex(roms: set<Word>, d: seq<Word>, j: nat)
    requires SortedPrefix(roms, d) && j < |d|
    ensures Rank(roms, d[j]) == j
  {
    forall t ensures t in roms && Less(t, d[j]) <==> t in d[..j] {
      if t in roms && Less(t, d[j]) {
        LessIrreflexive(t, d[j]);
        var k :| 0 <= k < |d| && d[k] == t;
        AscendingIndex(d, j, k);
      }
    }
    assert Smaller(roms, d[j]) == Found(d[..j]);
    AscendingCount(d[..j]);
  }

  lemma SubsetSize(a: set<Word>, b: set<Word>)
    requires a <= b
    ensures |a| <= |b|
  {
    assert b == a + (b - a);
  }

  /** A device that was not found comes after all that were. */
  lemma RankBeyond(roms: set<Word>, d: seq<Word>, s: Word)
    requires SortedPrefix(roms, d) && s in roms && s !in d
    ensures Rank(roms, s) >= |d|
  {
    AscendingCount(d);
    assert Found(d) <= Smaller(roms, s);
    SubsetSize(Found(d), Smaller(roms, s));
  }

  /** Codes found so far whose low bits all differ. */
  ghost predicate Distinct(d: seq<Word>) {
    forall j, k :: 0 <= j < k < |d| ==> !SameLow(d[j], d[k])
  }

  /** No two codes agree in the low bits when the larger one has been found. */
  lemma NoneBelow(roms: set<Word>, d: seq<Word>, r: Word, s: Word)
    requires SortedPrefix(roms, d) && Distinct(d) && r in roms && s in d && Less(r, s)
    ensures !SameLow(r, s)
  {
    var k :| 0 <= k < |d| && d[k] == s;
    LessIrreflexive(r, s);
    var j :| 0 <= j < |d| && d[j] == r;
    AscendingIndex(d, k, j);
  }

  /** All devices found, and no two of them alike in the low bits. */
  ghost predicate WholeFound(roms: set<Word>, d: seq<Word>) {
    SortedPrefix(roms, d) && Distinct(d) && forall r :: r in roms ==> r in d
  }

  lemma WholeIsSeparable(roms: set<Word>, d: seq<Word>)
    requires SortedPrefix(roms, d) && Distinct(d) && |d| <= MAX_DEVICES
    requires |d| == MAX_DEVICES || WholeFound(roms, d)
    ensures Separable(roms)
    ensures |d| == Expected(roms)
  {
    AscendingCount(d);
    assert Found(d) <= roms;
    SubsetSize(Found(d), roms);
    if |d| < MAX_DEVICES { assert Found(d) == roms; }
    forall r, s | r in roms && s in roms && Less(r, s) && SameLow(r, s)
      ensures Rank(roms, s) >= MAX_DEVICES
    {
      if s in d { NoneBelow(roms, d, r, s); } else { RankBeyond(roms, d, s); }
    }
  }

  class Driver {
    const bus: Bus
    const devs: array<Word>

    constructor (bus: Bus)
      ensures this.bus == bus && fresh(devs) && devs.Length == MAX_DEVICES
    {
      this.bus := bus;
      devs := new Word[MAX_DEVICES](i => ZERO);
    }

    /** __w1_scan_one on device slot `i`: guided by the bits already in the slot, completes them to the
        code it reaches and returns the conflicts it left open. */
    method ScanOne(i: nat) returns (ok: bool, cmask: Word, ghost m: Word)
      requires i < devs.Length
      modifies bus, devs
      ensures ok == (bus.roms != {})
      ensures forall j :: 0 <= j < devs.Length && j != i ==> devs[j] == old(devs[j])
      ensures !ok ==> devs[i] == old(devs[i])
      ensures ok ==> Descent(bus.roms, old(devs[i]), m, devs[i], cmask)
    {
      m := ZERO;
      cmask := ZERO;
      ok := bus.ResetAndSearch();
      if !ok { return; }
      ghost var rom := devs[i];
      var k := 0;
      while k < BITS
        invariant k <= BITS && bus.bit == k && !bus.complement
        invariant bus.active != {} && bus.active == set r | r in bus.roms && Agree(r, m, k)
        invariant Follows(bus.roms, rom, m, k)
        invariant forall j: nat :: j < BITS ==> devs[i][j] == (rom[j] || (j < k && m[j] && !Conflict(bus.roms, m, j)))
        invariant forall j: nat :: j < BITS ==> cmask[j] == (j < k && Open(bus.roms, m, j))
        invariant forall j :: 0 <= j < devs.Length && j != i ==> devs[j] == old(devs[j])
      {
        var choice := Choice(devs[i], k);
        ghost var active := bus.active;
        var b := GetDibit(bus, choice);
        ghost var m' := m[k := if b.Both? then choice else b.B1?];
        StepDown(bus.roms, m, m', k, active, bus.active);
        m := m';
        match b {
          case B1 => devs[i] := devs[i][k := true];
          case B0 =>
          case Both => if !choice { cmask := cmask[k := true]; }
        }
        k := k + 1;
      }
      ghost var reached :| reached in bus.active;
      assert reached == m;
    }

    /** Copies slot `i - 1` into slot `i`, clears its bits down to the deepest open conflict and sets
        that one. Without an open conflict the slot is left zero. */
    method Resolve(i: nat, cmask: Word) returns (found: bool, ghost c: nat)
      requires 0 < i < devs.Length
      modifies devs
      ensures forall j :: 0 <= j < devs.Length && j != i ==> devs[j] == old(devs[j])
      ensures found ==> Guide(devs[i - 1], c, devs[i]) && cmask[c] && forall k :: c < k < BITS ==> !cmask[k]
      ensures !found ==> forall k :: 0 <= k < BITS ==> !cmask[k] && !devs[i][k]
    {
      devs[i] := devs[i - 1];
      var k := BITS;
      while k > 0
        invariant 0 <= k <= BITS
        invariant Agree(devs[i], devs[i - 1], k)
        invariant forall j :: k <= j < BITS ==> !cmask[j] && !devs[i][j]
        invariant forall j :: 0 <= j < devs.Length && j != i ==> devs[j] == old(devs[j])
      {
        if cmask[k - 1] {
          devs[i] := devs[i][k - 1 := true];
          return true, k - 1;
        }
        devs[i] := devs[i][k - 1 := false];
        k := k - 1;
      }
      return false, 0;
    }

    /** One turn of the scan loop: fills slot `n`, or finds that there is nothing more to fill it with. */
    method FillSlot(n: nat, cmask: Word, ghost b: nat, ghost c: nat)
      returns (more: bool, cmask': Word, ghost b': nat, ghost c': nat)
      requires n < devs.Length && devs[n] == ZERO
      requires Progress(bus.roms, devs[..n], b, c)
      requires n > 0 ==> IsOpen(bus.roms, devs[b - 1], cmask)
      modifies bus, devs
      ensures devs[..n] == old(devs[..n])
      ensures forall j :: n < j < devs.Length ==> devs[j] == old(devs[j])
      ensures more ==> Progress(bus.roms, devs[..n + 1], b', c') && b' > 0 && IsOpen(bus.roms, devs[b' - 1], cmask')
      ensures !more ==> devs[n] == ZERO && WholeFound(bus.roms, devs[..n])
    {
      cmask', b', c', more := cmask, b, c, true;
      if n > 0 { more, c' := PrepareSlot(n, cmask, b, c); }
      if more { more, cmask', b' := DescendSlot(n, b, c'); }
    }

    /** The slot is set up for the branch left open deepest. */
    method PrepareSlot(n: nat, cmask: Word, ghost b: nat, ghost c: nat) returns (more: bool, ghost top: nat)
      requires 0 < n < devs.Length
      requires Progress(bus.roms, devs[..n], b, c)
      requires IsOpen(bus.roms, devs[b - 1], cmask)
      modifies devs
      ensures devs[..n] == old(devs[..n])
      ensures forall j :: n < j < devs.Length ==> devs[j] == old(devs[j])
      ensures more ==> SlotReady(bus.roms, devs[..n], b, top, devs[n]) && Progress(bus.roms, devs[..n], b, top)
      ensures !more ==> devs[n] == ZERO && WholeFound(bus.roms, devs[..n])
    {
      ghost var d := devs[..n];
      more, top := Resolve(n, cmask);
      assert devs[..n] == d;
      if more {
        GuideSame(bus.roms, d, b, c, top, devs[n], cmask);
      } else {
        NothingOpen(bus.roms, d, b, c, cmask);
        NoBits(devs[n]);
      }
    }

    /** The slot is completed by one search. */
    method DescendSlot(n: nat, ghost b: nat, ghost c: nat) returns (more: bool, cmask: Word, ghost b': nat)
      requires n < devs.Length
      requires Progress(bus.roms, devs[..n], b, c) && SlotReady(bus.roms, devs[..n], b, c, devs[n])
      modifies bus, devs
      ensures devs[..n] == old(devs[..n])
      ensures forall j :: n < j < devs.Length ==> devs[j] == old(devs[j])
      ensures more ==> Progress(bus.roms, devs[..n + 1], b', c) && b' > 0 && IsOpen(bus.roms, devs[b' - 1], cmask)
      ensures !more ==> devs[n] == ZERO && WholeFound(bus.roms, devs[..n])
    {
      ghost var d, rom := devs[..n], devs[n];
      ghost var m;
      more, cmask, m := ScanOne(n);
      b' := b;
      assert devs[..n] == d;
      if more {
        assert devs[..n + 1] == d + [devs[n]];
        b' := Advance(bus.roms, d, b, c, rom, m, devs[n], cmask);
      } else {
        EmptyIsWhole(bus.roms, d, b, c);
      }
    }

    /** w1_scan_bus */
    method ScanBus() returns (n: nat)
      requires devs.Length == MAX_DEVICES
      modifies bus, devs
      ensures n <= MAX_DEVICES
      ensures Correct(bus.roms, devs[..], n) <==> Separable(bus.roms)
    {
      forall j | 0 <= j < devs.Length { devs[j] := ZERO; }
      var cmask: Word := ZERO;
      ghost var b, c := 0, 0;
      n := 0;
      while n < MAX_DEVICES
        invariant n <= MAX_DEVICES
        invariant forall j :: n <= j < MAX_DEVICES ==> devs[j] == ZERO
        invariant Progress(bus.roms, devs[..n], b, c)
        invariant n > 0 ==> IsOpen(bus.roms, devs[b - 1], cmask)
      {
        var more;
        more, cmask, b, c := FillSlot(n, cmask, b, c);
        if !more {
          WholeIsSeparable(bus.roms, devs[..n]);
          assert devs[..][..n] == devs[..n];
          return;
        }
        n := n + 1;
      }
      assert devs[..n] == devs[..];
      Verdict(bus.roms, devs[..], b, c);
    }
  }

  // ----- the run of a whole scan -----

  /** The first `b` slots are right; if there are more, conflict `c` lies beyond the bits that `select`
      can hold, and every later slot repeats the last right one with that bit added. */
  ghost predicate Progress(roms: set<Word>, d: seq<Word>, b: nat, c: nat) {
    && b <= |d| && (|d| > 0 ==> b > 0)
    && SortedPrefix(roms, d[..b])
    && Distinct(d[..b])
    && (b > 0 ==> Quiet(roms, d[b - 1]))
    && (b < |d| ==> Deepest(roms, d[b - 1], c) && c >= 32 && forall j :: b <= j < |d| ==> d[j] == d[b - 1][c := true])
  }

  /** What a slot holds before the search: nothing, or the guide into the branch left open deepest. */
  ghost predicate SlotReady(roms: set<Word>, d: seq<Word>, b: nat, c: nat, rom: Word)
    requires b <= |d|
  {
    if d == [] then rom == ZERO else b > 0 && Guide(d[b - 1], c, rom) && Deepest(roms, d[b - 1], c)
  }

  lemma NoBits(w: Word)
    requires forall k :: 0 <= k < BITS ==> !w[k]
    ensures w == ZERO
  {
  }

  lemma LessOpens(roms: set<Word>, p: Word, r: Word) returns (e: nat)
    requires r in roms && Less(p, r)
    ensures e < BITS && Open(roms, p, e)
  {
    e :| PartsAt(p, r, e);
    assert Agree(r, p, e);
  }

  lemma NothingOpen(roms: set<Word>, d: seq<Word>, b: nat, c: nat, cmask: Word)
    requires Progress(roms, d, b, c) && b > 0
    requires IsOpen(roms, d[b - 1], cmask) && forall k :: 0 <= k < BITS ==> !cmask[k]
    ensures WholeFound(roms, d)
  {
    var p := d[b - 1];
    assert d[..b] == d;
    forall r | r in roms ensures r in d || !Less(p, r) {
      if Less(p, r) { var e := LessOpens(roms, p, r); }
    }
  }

  /** The slot copied from is either the last right one, or that with the conflict bit added. */
  lemma GuideSame(roms: set<Word>, d: seq<Word>, b: nat, c: nat, top: nat, rom: Word, cmask: Word)
    requires 0 < b <= |d| && Progress(roms, d, b, c)
    requires Guide(d[|d| - 1], top, rom) && IsOpen(roms, d[b - 1], cmask)
    requires cmask[top] && forall k :: top < k < BITS ==> !cmask[k]
    ensures Guide(d[b - 1], top, rom) && Deepest(roms, d[b - 1], top)
    ensures b < |d| ==> c == top
  {
  }

  lemma EmptyIsWhole(roms: set<Word>, d: seq<Word>, b: nat, c: nat)
    requires roms == {} && Progress(roms, d, b, c)
    ensures d == [] && WholeFound(roms, d)
  {
  }

  lemma SortedSnoc(roms: set<Word>, d: seq<Word>, m: Word)
    requires SortedPrefix(roms, d) && m in roms && (d != [] ==> Less(d[|d| - 1], m))
    requires forall r :: r in roms && r != m && (d != [] ==> Less(d[|d| - 1], r)) ==> Less(m, r)
    ensures SortedPrefix(roms, d + [m])
  {
    var e := d + [m];
    forall j, k | 0 <= j < k < |e| ensures Less(e[j], e[k]) {
      if k == |d| && j < |d| - 1 { LessTransitive(d[j], d[|d| - 1], m); }
    }
    forall r, j | r in roms && 0 <= j < |e| ensures r in e || Less(e[j], r) {
      if r !in e && d != [] { assert Less(d[|d| - 1], r); }
    }
  }

  lemma DistinctSnoc(roms: set<Word>, d: seq<Word>, m: Word, c: nat)
    requires Ascending(d) && Distinct(d) && d != [] && PartsAt(d[|d| - 1], m, c) && c < 32
    ensures Distinct(d + [m])
  {
    var last := d[|d| - 1];
    forall j | 0 <= j < |d| ensures !SameLow(d[j], m) {
      if j < |d| - 1 && SameLow(d[j], m) { LowBetween(d[j], last, m); }
    }
  }

  lemma AdvanceFirst(roms: set<Word>, m: Word, rom': Word, cmask: Word)
    requires Descent(roms, ZERO, m, rom', cmask)
    ensures Progress(roms, [rom'], 1, 0) && IsOpen(roms, rom', cmask)
  {
    FirstDescent(roms, m, rom', cmask);
    SortedSnoc(roms, [], m);
    assert [rom'][..1] == [] + [m];
  }

  lemma AdvanceNext(roms: set<Word>, d: seq<Word>, c: nat, rom: Word, m: Word, rom': Word, cmask: Word)
    requires d != [] && Progress(roms, d, |d|, c) && SlotReady(roms, d, |d|, c, rom) && c < 32
    requires Descent(roms, rom, m, rom', cmask)
    ensures Progress(roms, d + [rom'], |d| + 1, c) && IsOpen(roms, rom', cmask)
  {
    NextDescent(roms, d[|d| - 1], c, rom, m, rom', cmask);
    assert d[..|d|] == d;
    SortedSnoc(roms, d, m);
    DistinctSnoc(roms, d, m, c);
    assert (d + [m])[..|d| + 1] == d + [m];
  }

  lemma AdvanceStuck(roms: set<Word>, d: seq<Word>, b: nat, c: nat, rom: Word, m: Word, rom': Word, cmask: Word)
    requires d != [] && Progress(roms, d, b, c) && SlotReady(roms, d, b, c, rom) && c >= 32
    requires Descent(roms, rom, m, rom', cmask)
    ensures Progress(roms, d + [rom'], b, c) && IsOpen(roms, d[b - 1], cmask)
  {
    assert d[b - 1] == d[..b][b - 1] && d[..b][b - 1] in roms;
    StuckDescent(roms, d[b - 1], c, rom, m, rom', cmask);
    assert (d + [rom'])[..b] == d[..b];
  }

  /** One more slot: right if the open conflict is one that `select` can hold, else a repetition. */
  lemma Advance(roms: set<Word>, d: seq<Word>, b: nat, c: nat, rom: Word, m: Word, rom': Word, cmask: Word)
    returns (b': nat)
    requires Progress(roms, d, b, c) && SlotReady(roms, d, b, c, rom)
    requires Descent(roms, rom, m, rom', cmask)
    ensures 0 < b' <= |d| + 1 && Progress(roms, d + [rom'], b', c)
    ensures IsOpen(roms, (d + [rom'])[b' - 1], cmask)
  {
    if d == [] {
      AdvanceFirst(roms, m, rom', cmask);
      b' := 1;
      assert d + [rom'] == [rom'];
    } else if c < 32 {
      AdvanceNext(roms, d, c, rom, m, rom', cmask);
      b' := b + 1;
    } else {
      AdvanceStuck(roms, d, b, c, rom, m, rom', cmask);
      b' := b;
    }
  }

  // ----- the verdict on eight filled slots -----

  /** A non-empty set of codes has a first one. */
  lemma Least(t: set<Word>, w: Word) returns (m: Word)
    requires w in t
    ensures m in t && forall r :: r in t && r != m ==> Less(m, r)
    decreases t
  {
    var rest := t - {w};
    if rest == {} {
      assert t == {w};
      m := w;
    } else {
      var v :| v in rest;
      m := Least(rest, v);
      var d := PartSomewhere(m, w);
      if Less(w, m) {
        forall r | r in t && r != w ensures Less(w, r) {
          if r != m { LessTransitive(w, m, r); }
        }
        m := w;
      }
    }
  }

  /** The first code after the last right one parts from it at the open conflict. */
  lemma Successor(roms: set<Word>, d: seq<Word>, c: nat) returns (s: Word)
    requires SortedPrefix(roms, d) && d != [] && Deepest(roms, d[|d| - 1], c)
    ensures s in roms && PartsAt(d[|d| - 1], s, c) && Rank(roms, s) == |d| && s !in d
    ensures forall r :: r in roms && Less(d[|d| - 1], r) && r != s ==> Less(s, r)
  {
    var p := d[|d| - 1];
    var above := set r | r in roms && Less(p, r);
    var q :| q in roms && Agree(q, p, c) && q[c] != p[c];
    assert PartsAt(p, q, c);
    s := Least(above, q);
    var e: nat :| PartsAt(p, s, e);
    assert Agree(s, p, e) && Open(roms, p, e);
    if e < c {
      assert PartsAt(q, s, e);
      LessIrreflexive(q, s);
    }
    SortedSnoc(roms, d, s);
    RankIsIndex(roms, d + [s], |d|);
    if s in d {
      var j :| 0 <= j < |d| && d[j] == s;
      AscendingIndex(d, |d| - 1, j);
      AscendingIndex(d, j, |d| - 1);
    }
  }

  lemma CountReached(roms: set<Word>, d: seq<Word>)
    requires SortedPrefix(roms, d) && |d| == MAX_DEVICES
    ensures Expected(roms) == MAX_DEVICES
  {
    AscendingCount(d);
    assert Found(d) <= roms;
    SubsetSize(Found(d), roms);
  }

  /** Seven separate codes and an eighth that is the seventh with a bit added are still separable. */
  lemma EighthMayRepeat(roms: set<Word>, good: seq<Word>, s: Word, c: nat)
    requires |good| == MAX_DEVICES - 1 && Distinct(good) && SortedPrefix(roms, good) && SortedPrefix(roms, good + [s])
    requires BitAdded(good[|good| - 1], s, c)
    ensures Separable(roms)
  {
    var p, all := good[|good| - 1], good + [s];
    forall r, t | r in roms && t in roms && Less(r, t) && SameLow(r, t)
      ensures Rank(roms, t) >= MAX_DEVICES || (Rank(roms, t) == MAX_DEVICES - 1 && OneBitApart(r, t))
    {
      if t in good {
        NoneBelow(roms, good, r, t);
      } else if t == s {
        RankIsIndex(roms, all, |good|);
        LessIrreflexive(r, s);
        var j :| 0 <= j < |all| && all[j] == r;
        if j < |good| - 1 {
          LowBetween(r, p, s);
        }
      } else {
        RankBeyond(roms, all, t);
      }
    }
  }

  /** Eight filled slots are right exactly when the devices are separable. */
  lemma Verdict(roms: set<Word>, d: seq<Word>, b: nat, c: nat)
    requires |d| == MAX_DEVICES && Progress(roms, d, b, c)
    ensures Correct(roms, d, MAX_DEVICES) <==> Separable(roms)
  {
    var good, p := d[..b], d[b - 1];
    assert d[..MAX_DEVICES] == d;
    if b == MAX_DEVICES {
      assert good == d;
      WholeIsSeparable(roms, d);
      return;
    }
    var s := Successor(roms, good, c);
    assert Less(p, s) && SameLow(p, s);
    if b < MAX_DEVICES - 1 {
      assert d[b] == d[b + 1];
      LessIrreflexive(d[b], d[b]);
      assert !Ascending(d);
      assert !Separable(roms);
      return;
    }
    assert d == good + [d[b]] && BitAdded(p, d[b], c);
    if SortedPrefix(roms, d) {
      EighthMayRepeat(roms, good, d[b], c);
    }
    if Separable(roms) {
      assert OneBitApart(p, s);
      var e: nat :| BitAdded(p, s, e);
      assert e == c && s == d[b];
      SortedSnoc(roms, good, s);
      CountReached(roms, d);
    }
  }

  /** Devices that all differ in their low 32 bits are always found. */
  lemma DistinctIsSeparable(roms: set<Word>)
    requires forall r, s :: r in roms && s in roms && r != s ==> !SameLow(r, s)
    ensures Separable(roms)
  {
    forall r, s | r in roms && s in roms && Less(r, s) ensures !SameLow(r, s) {
      LessIrreflexive(r, s);
    }
  }

  /** Two devices that differ in bit 40 alone are never scanned right. */
  lemma TwoAlikeAreNot(a: Word, b: Word)
    requires !a[40] && b == a[40 := true]
    ensures !Separable({a, b})
  {
    assert PartsAt(a, b, 40);
    LessIrreflexive(b, b);
    assert Smaller({a, b}, b) == {a};
    assert Less(a, b) && SameLow(a, b);
  }
}
