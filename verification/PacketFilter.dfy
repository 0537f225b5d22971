/** The packet filter of the endpoint (dev/ep_pfilter.c): its assembler, the loading of the microcode,
    and what the default program (without Etherbone) does under the documented VLIW semantics. */
module PacketFilter {

  const CODE_SIZE := 32  // PFILTER_MAX_CODE_SIZE

  datatype Op = AND | NAND | OR | NOR | XOR | XNOR | MOV | NOT

  function OpCode(op: Op): bv3 {
    match op
    case AND => 0 case NAND => 4 case OR => 1 case NOR => 5 case XOR => 2 case XNOR => 6 case MOV => 3 case NOT => 7
  }

  function OpOf(c: bv3): Op {
    if c == 0 then AND else if c == 4 then NAND else if c == 1 then OR else if c == 5 then NOR
    else if c == 2 then XOR else if c == 6 then XNOR else if c == 3 then MOV else NOT
  }

  lemma OpRoundTrip(op: Op)
    ensures OpOf(OpCode(op)) == op
  {
  }

  datatype Instr =
    | Compare(offset: int, value: bv16, mask: bv16, op: Op, rd: int)
    | Logic(rd: int, ra: int, op: Op, rb: int, op2: Op, rc: int)
    | Finish

  const NOP := Logic(0, 0, AND, 0, AND, 0)

  /** Masks are made of whole nibbles. */
  predicate NibbleMask(m: bv16) {
    && (m & 0xf == 0 || m & 0xf == 0xf) && (m & 0xf0 == 0 || m & 0xf0 == 0xf0)
    && (m & 0xf00 == 0 || m & 0xf00 == 0xf00) && (m & 0xf000 == 0 || m & 0xf000 == 0xf000)
  }

  /** The range of every field: six bits for an offset, registers 0 to 31, but only 0 to 15 as the target of a
      comparison. */
  predicate InRange(i: Instr) {
    match i
    case Compare(offset, value, mask, op, rd) => 0 <= offset < 64 && 0 <= rd < 16
    case Logic(rd, ra, op, rb, op2, rc) => 0 <= rd < 32 && 0 <= ra < 32 && 0 <= rb < 32 && 0 <= rc < 32
    case Finish => true
  }

  predicate Encodable(i: Instr) { InRange(i) && (i.Compare? ==> NibbleMask(i.mask)) }

  // ----- assembling -----

  const MODE_LOGIC: bv64 := 0x4_0000_0000   // 1 << 34
  const MODE_FINISH: bv64 := 0x8_0000_0000  // 1 << 35

  /** The bits of an int of 32 bits. */
  function ToBits(n: int): bv32 { (n % 0x1_0000_0000) as bv32 }

  /** What a cast to an unsigned type of 64 bits makes of an int. */
  function SignExtend(b: bv32): bv64 {
    (b as bv64) | (if b & 0x8000_0000 != 0 then 0xffff_ffff_0000_0000 else 0)
  }

  /** The word that pfilter_cmp emits: nothing keeps a large offset or register out of the neighbouring fields. */
  function CompareWord(offset: bv32, value: bv16, mask: bv16, op: Op, rd: bv32): bv64 {
    (SignExtend(offset) << 7)
    | (if mask & 0x1 != 0 then 0x2000_0000 else 0)
    | (if mask & 0x10 != 0 then 0x4000_0000 else 0)
    | (if mask & 0x100 != 0 then 0x8000_0000 else 0)
    | (if mask & 0x1000 != 0 then 0x1_0000_0000 else 0)
    | (OpCode(op) as bv64)
    | SignExtend(rd << 3)
    | ((value as bv64) << 13)
  }

  /** The word that pfilter_logic3 emits, put together in 32 bits but for the mode. */
  function Logic3Word(rd: bv32, ra: bv32, op: Op, rb: bv32, op2: Op, rc: bv32): bv64 {
    (((ra << 8) | (rb << 13) | (rc << 18) | ((rd & 0xf) << 3) | (if rd & 0x10 != 0 then 0x80 else 0)
      | (OpCode(op) as bv32)) as bv64)
    | MODE_LOGIC | ((OpCode(op2) as bv64) << 23)
  }

  /** The word that pfilter_logic2 emits, put together in 64 bits; the second operator is a MOV. */
  function Logic2Word(rd: bv32, ra: bv32, op: Op, rb: bv32): bv64 {
    (SignExtend(ra) << 8) | (SignExtend(rb) << 13) | ((SignExtend(rd) & 0xf) << 3)
    | (if SignExtend(rd) & 0x10 != 0 then 0x80 else 0)
    | (OpCode(op) as bv64) | MODE_LOGIC | (3 << 23)
  }

  /** A word is split into 12 bits for PFCR1 and 24 bits for PFCR0, and the filter puts them together again. */
  function Low(w: bv64): bv12 { (w & 0xfff) as bv12 }

  function High(w: bv64): bv24 { ((w >> 12) & 0xff_ffff) as bv24 }

  function Combine(hi: bv24, lo: bv12): bv64 { ((hi as bv64) << 12) | (lo as bv64) }

  function Loaded(w: bv64): bv64 { Combine(High(w), Low(w)) }

  /** Words of the default program, by their bits. */
  lemma SampleWords()
    ensures CompareWord(0, 0xffff, 0xffff, MOV, 1) == 0x1_ffff_e00b
    ensures CompareWord(6, 0x88f7, 0xffff, MOV, 5) == 0x1_f11e_e32b
    ensures CompareWord(11, 0x0011, 0x00ff, MOV, 8) == 0x0_6002_25c3
    ensures Logic3Word(10, 3, OR, 2, AND, 5) == 0x4_0014_4351
    ensures Logic2Word(24, 10, MOV, 0) == 0x4_0180_0ac3
  {
  }

  // ----- decoding -----

  function NibblesOf(bits: bv4): bv16 {
    (if bits & 1 != 0 then 0xf else 0) | (if bits & 2 != 0 then 0xf0 else 0)
    | (if bits & 4 != 0 then 0xf00 else 0) | (if bits & 8 != 0 then 0xf000 else 0)
  }

  function OffsetField(w: bv64): bv6 { ((w >> 7) & 0x3f) as bv6 }
  function ValueField(w: bv64): bv16 { ((w >> 13) & 0xffff) as bv16 }
  function MaskField(w: bv64): bv4 { ((w >> 29) & 0xf) as bv4 }
  function OpField(w: bv64): bv3 { (w & 7) as bv3 }
  function Op2Field(w: bv64): bv3 { ((w >> 23) & 7) as bv3 }
  function CompareRdField(w: bv64): bv4 { ((w >> 3) & 0xf) as bv4 }
  function RdField(w: bv64): bv5 { (((w >> 3) & 0xf) | (((w >> 7) & 1) << 4)) as bv5 }
  function RaField(w: bv64): bv5 { ((w >> 8) & 0x1f) as bv5 }
  function RbField(w: bv64): bv5 { ((w >> 13) & 0x1f) as bv5 }
  function RcField(w: bv64): bv5 { ((w >> 18) & 0x1f) as bv5 }

  /** How the filter reads a 36-bit microcode word. */
  function Decode(w: bv64): Instr {
    if w & MODE_FINISH != 0 then Finish
    else if w & MODE_LOGIC != 0 then Logic(RdField(w) as nat, RaField(w) as nat, OpOf(OpField(w)), RbField(w) as nat,
                                        OpOf(Op2Field(w)), RcField(w) as nat)
    else Compare(OffsetField(w) as nat, ValueField(w), NibblesOf(MaskField(w)), OpOf(OpField(w)),
                 CompareRdField(w) as nat)
  }

  /** A word that, loaded into the filter, is read as the given instruction. */
  predicate Carries(w: bv64, i: Instr) { Decode(Loaded(w)) == i }

  lemma NibblesAreNibbles(bits: bv4)
    ensures NibbleMask(NibblesOf(bits))
  {
  }

  /** Whatever is in the memory of the filter, what it reads has fields in range and a mask of whole nibbles. */
  lemma DecodeEncodable(w: bv64)
    ensures Encodable(Decode(w))
  {
    NibblesAreNibbles(MaskField(w));
    hide NibbleMask, NibblesOf, MaskField, OffsetField, ValueField, OpField, Op2Field, CompareRdField, OpOf;
    hide RdField, RaField, RbField, RcField;
  }

  lemma CompareFields(offset: bv6, value: bv16, mask: bv16, op: Op, rd: bv4)
    requires NibbleMask(mask)
    ensures var w := Loaded(CompareWord(offset as bv32, value, mask, op, rd as bv32));
            && OffsetField(w) == offset && ValueField(w) == value && CompareRdField(w) == rd && OpField(w) == OpCode(op)
            && NibblesOf(MaskField(w)) == mask
            && w & MODE_FINISH == 0 && w & MODE_LOGIC == 0
  {
  }

  lemma LogicFields(rd: bv5, ra: bv5, op: Op, rb: bv5, op2: Op, rc: bv5)
    ensures var w := Loaded(Logic3Word(rd as bv32, ra as bv32, op, rb as bv32, op2, rc as bv32));
            && RdField(w) == rd && RaField(w) == ra && RbField(w) == rb && RcField(w) == rc
            && OpField(w) == OpCode(op) && Op2Field(w) == OpCode(op2)
            && w & MODE_FINISH == 0 && w & MODE_LOGIC != 0
  {
  }

  /** With two operands the word is that of three operands with MOV as the second operator. */
  lemma Logic2IsLogic3(rd: bv5, ra: bv5, op: Op, rb: bv5)
    ensures Logic2Word(rd as bv32, ra as bv32, op, rb as bv32)
         == Logic3Word(rd as bv32, ra as bv32, op, rb as bv32, MOV, 0)
  {
  }

  lemma InBits(n: int)
    requires 0 <= n < 64
    ensures ToBits(n) == n as bv32
  {
  }

  lemma SixWide(n: int)
    requires 0 <= n < 64
    ensures n as bv32 == (n as bv6) as bv32
  {
  }

  lemma SixBack(n: int)
    requires 0 <= n < 64
    ensures (n as bv6) as nat == n
  {
  }

  lemma SixBits(n: int) returns (b: bv6)
    requires 0 <= n < 64
    ensures b as nat == n && ToBits(n) == b as bv32
  {
    hide ToBits;
    InBits(n);
    SixWide(n);
    SixBack(n);
    b := n as bv6;
  }

  lemma FiveWide(n: int)
    requires 0 <= n < 32
    ensures n as bv32 == (n as bv5) as bv32
  {
  }

  lemma FiveBack(n: int)
    requires 0 <= n < 32
    ensures (n as bv5) as nat == n
  {
  }

  lemma FiveBits(n: int) returns (b: bv5)
    requires 0 <= n < 32
    ensures b as nat == n && ToBits(n) == b as bv32
  {
    hide ToBits;
    InBits(n);
    FiveWide(n);
    FiveBack(n);
    b := n as bv5;
  }

  lemma FourWide(n: int)
    requires 0 <= n < 16
    ensures n as bv32 == (n as bv4) as bv32
  {
  }

  lemma FourBack(n: int)
    requires 0 <= n < 16
    ensures (n as bv4) as nat == n
  {
  }

  lemma FourBits(n: int) returns (b: bv4)
    requires 0 <= n < 16
    ensures b as nat == n && ToBits(n) == b as bv32
  {
    hide ToBits;
    InBits(n);
    FourWide(n);
    FourBack(n);
    b := n as bv4;
  }

  lemma CompareCarried(offset: bv6, value: bv16, mask: bv16, op: Op, rd: bv4)
    requires NibbleMask(mask)
    ensures Carries(CompareWord(offset as bv32, value, mask, op, rd as bv32),
                    Compare(offset as nat, value, mask, op, rd as nat))
  {
    CompareFields(offset, value, mask, op, rd);
    OpRoundTrip(op);
    hide CompareWord, Loaded, OffsetField, ValueField, MaskField, OpField, CompareRdField, NibblesOf, NibbleMask;
  }

  lemma LogicCarried(rd: bv5, ra: bv5, op: Op, rb: bv5, op2: Op, rc: bv5)
    ensures Carries(Logic3Word(rd as bv32, ra as bv32, op, rb as bv32, op2, rc as bv32),
                    Logic(rd as nat, ra as nat, op, rb as nat, op2, rc as nat))
  {
    LogicFields(rd, ra, op, rb, op2, rc);
    OpRoundTrip(op);
    OpRoundTrip(op2);
    hide Logic3Word, Loaded, RdField, RaField, RbField, RcField, OpField, Op2Field;
  }

  lemma Logic2Carried(rd: bv5, ra: bv5, op: Op, rb: bv5)
    ensures Carries(Logic2Word(rd as bv32, ra as bv32, op, rb as bv32),
                    Logic(rd as nat, ra as nat, op, rb as nat, MOV, 0))
  {
    hide Logic2Word, Logic3Word, Carries;
    Logic2IsLogic3(rd, ra, op, rb);
    LogicCarried(rd, ra, op, rb, MOV, 0);
  }

  /** The word of a comparison, loaded and read by the filter, is the comparison asked for exactly when its fields are
      in range and the mask is made of whole nibbles. */
  lemma CompareExact(offset: int, value: bv16, mask: bv16, op: Op, rd: int)
    ensures var i := Compare(offset, value, mask, op, rd);
            Carries(CompareWord(ToBits(offset), value, mask, op, ToBits(rd)), i) <==> Encodable(i)
  {
    hide CompareWord, Loaded, Decode, ToBits, NibbleMask;
    if Encodable(Compare(offset, value, mask, op, rd)) {
      var o := SixBits(offset);
      var d := FourBits(rd);
      CompareCarried(o, value, mask, op, d);
    } else {
      DecodeEncodable(Loaded(CompareWord(ToBits(offset), value, mask, op, ToBits(rd))));
    }
  }

  /** The same for a logic instruction with three operands. */
  lemma Logic3Exact(rd: int, ra: int, op: Op, rb: int, op2: Op, rc: int)
    ensures var i := Logic(rd, ra, op, rb, op2, rc);
            Carries(Logic3Word(ToBits(rd), ToBits(ra), op, ToBits(rb), op2, ToBits(rc)), i) <==> Encodable(i)
  {
    hide Logic3Word, Loaded, Decode, ToBits;
    if Encodable(Logic(rd, ra, op, rb, op2, rc)) {
      var d := FiveBits(rd);
      var a := FiveBits(ra);
      var b := FiveBits(rb);
      var c := FiveBits(rc);
      LogicCarried(d, a, op, b, op2, c);
    } else {
      DecodeEncodable(Loaded(Logic3Word(ToBits(rd), ToBits(ra), op, ToBits(rb), op2, ToBits(rc))));
    }
  }

  /** And with two. */
  lemma Logic2Exact(rd: int, ra: int, op: Op, rb: int)
    ensures var i := Logic(rd, ra, op, rb, MOV, 0);
            Carries(Logic2Word(ToBits(rd), ToBits(ra), op, ToBits(rb)), i) <==> Encodable(i)
  {
    hide Logic2Word, Logic3Word, Loaded, Decode, ToBits;
    if Encodable(Logic(rd, ra, op, rb, MOV, 0)) {
      var d := FiveBits(rd);
      var a := FiveBits(ra);
      var b := FiveBits(rb);
      Logic2Carried(d, a, op, b);
    } else {
      DecodeEncodable(Loaded(Logic2Word(ToBits(rd), ToBits(ra), op, ToBits(rb))));
    }
  }

  lemma NopCarried()
    ensures Carries(MODE_LOGIC, NOP)
  {
  }

  lemma FinishCarried()
    ensures Carries(MODE_FINISH, Finish)
  {
  }

  // ----- the processor -----

  /** 32 one-bit registers. */
  type Registers = r: seq<bool> | |r| == 32 witness seq(32, _ => false)

  predicate Blank(r: Registers) { forall n :: 0 <= n < 32 ==> !r[n] }

  function ApplyOp(op: Op, a: bool, b: bool): bool {
    match op
    case AND => a && b
    case NAND => !(a && b)
    case OR => a || b
    case NOR => !(a || b)
    case XOR => a != b
    case XNOR => a == b
    case MOV => a
    case NOT => !a
  }

  /** Every operator has its negation, at the code with bit 2 the other way round. */
  lemma NegatedOperator(op: Op, a: bool, b: bool)
    ensures ApplyOp(OpOf(OpCode(op) ^ 4), a, b) == !ApplyOp(op, a, b)
  {
  }

  /** Register 0 always reads 0. */
  function SetRegister(r: Registers, rd: nat, b: bool): Registers
    requires rd < 32
  {
    if rd == 0 then r else r[rd := b]
  }

  predicate Matches(w: bv16, mask: bv16, value: bv16) { w & mask == value }

  /** A comparison looks at a word of the packet that has already arrived, and its MOV and NOT take the outcome
      of the comparison as their source. */
  function Step(i: Instr, packet: seq<bv16>, r: Registers): Registers
    requires InRange(i) && (i.Compare? ==> i.offset < |packet|)
  {
    match i
    case Compare(offset, value, mask, op, rd) =>
      var hit := Matches(packet[offset], mask, value);
      SetRegister(r, rd, if op.MOV? || op.NOT? then ApplyOp(op, hit, hit) else ApplyOp(op, r[rd], hit))
    case Logic(rd, ra, op, rb, op2, rc) =>
      SetRegister(r, rd, ApplyOp(op2, ApplyOp(op, r[ra], r[rb]), r[rc]))
    case Finish => r
  }

  /** The program counter advances with every word of the packet that arrives, so the instruction at address pc
      can only look at words 0 to pc. */
  predicate WellTimed(program: seq<Instr>) {
    forall pc :: 0 <= pc < |program| ==> TimedAt(program[pc], pc)
  }

  predicate TimedAt(i: Instr, pc: nat) { InRange(i) && (i.Compare? ==> i.offset <= pc) }

  type Program = p: seq<Instr> | WellTimed(p) witness []

  /** The registers when the program stops, started at address pc. */
  function Run(program: Program, packet: seq<bv16>, pc: nat, r: Registers): Registers
    requires pc <= |program| <= |packet|
    decreases |program| - pc
  {
    if pc == |program| || program[pc].Finish? then r
    else Run(program, packet, pc + 1, Step(program[pc], packet[..pc + 1], r))
  }

  // ----- the default program -----

  const R_DROP := 23

  function RClass(x: nat): nat { 24 + x }

  /** The three parts of pfilter_init_default without Etherbone: the address tests, the Ethernet type and IP
      tests, and the decision. */
  function AddressPart(o0: bv16, o1: bv16, o2: bv16): seq<Instr> {
    GroupPart() + [ Compare(0, o0, 0xffff, MOV, 3), Compare(1, o1, 0xffff, AND, 3), Compare(2, o2, 0xffff, AND, 3) ]
  }

  function GroupPart(): seq<Instr> {
    [ NOP,
      Compare(0, 0xffff, 0xffff, MOV, 1),
      Compare(1, 0xffff, 0xffff, AND, 1),
      Compare(2, 0xffff, 0xffff, AND, 1),
      Compare(0, 0x011b, 0xffff, MOV, 2),
      Compare(1, 0x1900, 0xffff, AND, 2),
      Compare(2, 0x0000, 0xffff, AND, 2) ]
  }

  function TypePart(): seq<Instr> {
    [ Compare(6, 0x0800, 0xffff, MOV, 4),
      Compare(6, 0x88f7, 0xffff, MOV, 5),
      Compare(6, 0x0806, 0xffff, MOV, 6),
      Compare(6, 0xdbff, 0xffff, MOV, 9),
      Compare(11, 0x0001, 0x00ff, MOV, 7),
      Compare(11, 0x0011, 0x00ff, MOV, 8) ]
  }

  function DecisionPart(): seq<Instr> {
    [ Logic(10, 3, OR, 2, AND, 5),
      Logic(11, 1, AND, 9, MOV, 0),
      Logic(12, 10, OR, 11, NOT, 0),
      Logic(31, 12, MOV, 0, MOV, 0),
      Logic(30, 11, MOV, 0, MOV, 0),
      Logic(24, 10, MOV, 0, MOV, 0) ]
  }

  /** The program for the MAC address held in the registers MACH and MACL. */
  function DefaultProgram(mach: bv32, macl: bv32): (p: Program)
    ensures |p| == 23
  {
    AddressPart(MacWord(mach, macl, 0), MacWord(mach, macl, 1), MacWord(mach, macl, 2)) + TypePart() + DecisionPart()
    + [Finish]
  }

  function MacWord(mach: bv32, macl: bv32, k: nat): bv16 {
    ((if k == 0 then mach & 0xffff else if k == 1 then macl >> 16 else macl & 0xffff)) as bv16
  }

  /** The three words are the 48 bits of the address: the low half of MACH, then MACL. */
  lemma StationAddress(mach: bv32, macl: bv32)
    ensures ((MacWord(mach, macl, 0) as bv48) << 32) | ((MacWord(mach, macl, 1) as bv48) << 16) |
            (MacWord(mach, macl, 2) as bv48)
         == (((mach & 0xffff) as bv48) << 32) | (macl as bv48)
  {
  }

  predicate SentTo(packet: seq<bv16>, w0: bv16, w1: bv16, w2: bv16)
    requires |packet| >= 3
  {
    packet[0] == w0 && packet[1] == w1 && packet[2] == w2
  }

  const ETHERTYPE_PTP: bv16 := 0x88f7
  const ETHERTYPE_STREAMER: bv16 := 0xdbff

  /** A PTP frame sent to this station or to the primary PTP multicast address of IEEE 1588-2008, Annex F. */
  predicate IsPtp(packet: seq<bv16>, mach: bv32, macl: bv32)
    requires |packet| >= 7
  {
    && packet[6] == ETHERTYPE_PTP
    && (SentTo(packet, MacWord(mach, macl, 0), MacWord(mach, macl, 1), MacWord(mach, macl, 2))
        || SentTo(packet, 0x011b, 0x1900, 0x0000))
  }

  predicate IsStreamerBroadcast(packet: seq<bv16>)
    requires |packet| >= 7
  {
    packet[6] == ETHERTYPE_STREAMER && SentTo(packet, 0xffff, 0xffff, 0xffff)
  }

  /** What the default program leaves in the drop flag and the class registers, for every packet at least as
      long as the program. */
  ghost predicate Classified(r: Registers, packet: seq<bv16>, mach: bv32, macl: bv32)
    requires |packet| >= 7
  {
    && r[RClass(0)] == IsPtp(packet, mach, macl)
    && r[RClass(6)] == IsStreamerBroadcast(packet)
    && r[RClass(7)] == (!IsPtp(packet, mach, macl) && !IsStreamerBroadcast(packet))
    && !r[R_DROP]
    && (forall x :: 1 <= x <= 5 ==> !r[RClass(x)])
  }

  lemma FullMask(w: bv16, value: bv16)
    ensures Matches(w, 0xffff, value) == (w == value)
  {
  }

  lemma StepCompare(packet: seq<bv16>, r: Registers, offset: nat, value: bv16, mask: bv16, op: Op, rd: nat)
    requires offset < |packet| && offset < 64 && 0 < rd < 16 && (op == MOV || op == AND)
    ensures Step(Compare(offset, value, mask, op, rd), packet, r)
         == r[rd := (op == MOV || r[rd]) && Matches(packet[offset], mask, value)]
  {
    hide Matches;
  }

  lemma RunOne(p: Program, packet: seq<bv16>, pc: nat, r: Registers)
    requires pc < |p| <= |packet| && !p[pc].Finish?
    ensures InRange(p[pc]) && (p[pc].Compare? ==> p[pc].offset <= pc)
    ensures Run(p, packet, pc, r) == Run(p, packet, pc + 1, Step(p[pc], packet[..pc + 1], r))
  {
    assert TimedAt(p[pc], pc);
  }

  lemma RunCompare(p: Program, packet: seq<bv16>, pc: nat, r: Registers, offset: nat, value: bv16, mask: bv16,
                   op: Op, rd: nat, hit: bool)
    requires pc < |p| <= |packet| && p[pc] == Compare(offset, value, mask, op, rd)
    requires offset <= pc && 0 < rd < 16 && (op == MOV || op == AND)
    requires hit == ((op == MOV || r[rd]) && Matches(packet[offset], mask, value))
    ensures Run(p, packet, pc, r) == Run(p, packet, pc + 1, r[rd := hit])
  {
    hide Step, Run, Matches;
    RunOne(p, packet, pc, r);
    StepCompare(packet[..pc + 1], r, offset, value, mask, op, rd);
  }

  lemma RunLogic(p: Program, packet: seq<bv16>, pc: nat, r: Registers, rd: nat, ra: nat, op: Op, rb: nat, op2: Op,
                 rc: nat)
    requires pc < |p| <= |packet| && p[pc] == Logic(rd, ra, op, rb, op2, rc)
    requires 0 < rd < 32 && ra < 32 && rb < 32 && rc < 32
    ensures Run(p, packet, pc, r) == Run(p, packet, pc + 1, r[rd := ApplyOp(op2, ApplyOp(op, r[ra], r[rb]), r[rc])])
  {
    RunOne(p, packet, pc, r);
  }

  lemma SetTwice(r: Registers, n: nat, a: bool, b: bool)
    requires n < 32
    ensures r[n := a][n := b] == r[n := b]
  {
  }

  /** Three comparisons in a row leave in register rd whether the packet is sent to a given address. */
  lemma RunSentTo(p: Program, packet: seq<bv16>, pc: nat, r: Registers, w0: bv16, w1: bv16, w2: bv16, rd: nat)
    requires 0 < pc && pc + 3 <= |p| <= |packet| && 0 < rd < 16
    requires p[pc] == Compare(0, w0, 0xffff, MOV, rd)
    requires p[pc + 1] == Compare(1, w1, 0xffff, AND, rd)
    requires p[pc + 2] == Compare(2, w2, 0xffff, AND, rd)
    ensures Run(p, packet, pc, r) == Run(p, packet, pc + 3, r[rd := SentTo(packet, w0, w1, w2)])
  {
    hide Step;
    FullMask(packet[0], w0);
    FullMask(packet[1], w1);
    FullMask(packet[2], w2);
    var h0 := packet[0] == w0;
    var h1 := h0 && packet[1] == w1;
    var h2 := h1 && packet[2] == w2;
    RunCompare(p, packet, pc, r, 0, w0, 0xffff, MOV, rd, h0);
    SetTwice(r, rd, h0, h1);
    RunCompare(p, packet, pc + 1, r[rd := h0], 1, w1, 0xffff, AND, rd, h1);
    SetTwice(r, rd, h1, h2);
    RunCompare(p, packet, pc + 2, r[rd := h1], 2, w2, 0xffff, AND, rd, h2);
  }

  lemma RunNop(p: Program, packet: seq<bv16>, pc: nat, r: Registers)
    requires pc < |p| <= |packet| && p[pc] == NOP
    ensures Run(p, packet, pc, r) == Run(p, packet, pc + 1, r)
  {
    RunOne(p, packet, pc, r);
  }

  lemma AddressTests(p: Program, packet: seq<bv16>, r: Registers, o0: bv16, o1: bv16, o2: bv16)
    requires |packet| >= |p| >= 10
    requires p[..10] == AddressPart(o0, o1, o2)
    ensures Run(p, packet, 0, r)
         == Run(p, packet, 10, r[1 := SentTo(packet, 0xffff, 0xffff, 0xffff)]
                [2 := SentTo(packet, 0x011b, 0x1900, 0x0000)][3 := SentTo(packet, o0, o1, o2)])
  {
    var a := AddressPart(o0, o1, o2);
    assert p[0] == a[0] && p[1] == a[1] && p[2] == a[2] && p[3] == a[3] && p[4] == a[4];
    assert p[5] == a[5] && p[6] == a[6] && p[7] == a[7] && p[8] == a[8] && p[9] == a[9];
    hide Step, SentTo, AddressPart;
    RunNop(p, packet, 0, r);
    RunSentTo(p, packet, 1, r, 0xffff, 0xffff, 0xffff, 1);
    var r1 := r[1 := SentTo(packet, 0xffff, 0xffff, 0xffff)];
    RunSentTo(p, packet, 4, r1, 0x011b, 0x1900, 0x0000, 2);
    var r2 := r1[2 := SentTo(packet, 0x011b, 0x1900, 0x0000)];
    RunSentTo(p, packet, 7, r2, o0, o1, o2, 3);
  }

  lemma TypeTests(p: Program, packet: seq<bv16>, r: Registers) returns (s: Registers)
    requires |packet| >= |p| >= 16
    requires p[10..16] == TypePart()
    ensures Run(p, packet, 10, r) == Run(p, packet, 16, s)
    ensures s[5] == (packet[6] == ETHERTYPE_PTP) && s[9] == (packet[6] == ETHERTYPE_STREAMER)
    ensures forall n :: 0 <= n < 32 && (n < 4 || 16 <= n) ==> s[n] == r[n]
  {
    var t := TypePart();
    var w := packet[6];
    assert p[10] == t[0] && p[11] == t[1] && p[12] == t[2] && p[13] == t[3] && p[14] == t[4] && p[15] == t[5];
    FullMask(w, 0x0800);
    FullMask(w, 0x88f7);
    FullMask(w, 0x0806);
    FullMask(w, 0xdbff);
    hide Step, Run, Matches, TypePart;
    RunCompare(p, packet, 10, r, 6, 0x0800, 0xffff, MOV, 4, w == 0x0800);
    s := r[4 := w == 0x0800];
    RunCompare(p, packet, 11, s, 6, 0x88f7, 0xffff, MOV, 5, w == 0x88f7);
    s := s[5 := w == 0x88f7];
    RunCompare(p, packet, 12, s, 6, 0x0806, 0xffff, MOV, 6, w == 0x0806);
    s := s[6 := w == 0x0806];
    RunCompare(p, packet, 13, s, 6, 0xdbff, 0xffff, MOV, 9, w == 0xdbff);
    s := s[9 := w == 0xdbff];
    RunCompare(p, packet, 14, s, 11, 0x0001, 0x00ff, MOV, 7, Matches(packet[11], 0x00ff, 0x0001));
    s := s[7 := Matches(packet[11], 0x00ff, 0x0001)];
    RunCompare(p, packet, 15, s, 11, 0x0011, 0x00ff, MOV, 8, Matches(packet[11], 0x00ff, 0x0011));
    s := s[8 := Matches(packet[11], 0x00ff, 0x0011)];
  }

  lemma Decide(p: Program, packet: seq<bv16>, r: Registers, ptp: bool, streamer: bool)
    requires |packet| >= |p| == 23
    requires p[16..] == DecisionPart() + [Finish]
    requires ptp == ((r[3] || r[2]) && r[5]) && streamer == (r[1] && r[9])
    ensures Run(p, packet, 16, r)
         == r[10 := ptp][11 := streamer][12 := !(ptp || streamer)][31 := !(ptp || streamer)][30 := streamer][24 := ptp]
  {
    var t := p[16..];
    assert p[16] == t[0] && p[17] == t[1] && p[18] == t[2] && p[19] == t[3] && p[20] == t[4] && p[21] == t[5];
    assert p[22] == t[6] == Finish;
    hide Step;
    RunLogic(p, packet, 16, r, 10, 3, OR, 2, AND, 5);
    var r1 := r[10 := ptp];
    RunLogic(p, packet, 17, r1, 11, 1, AND, 9, MOV, 0);
    var r2 := r1[11 := streamer];
    RunLogic(p, packet, 18, r2, 12, 10, OR, 11, NOT, 0);
    var r3 := r2[12 := !(ptp || streamer)];
    RunLogic(p, packet, 19, r3, 31, 12, MOV, 0, MOV, 0);
    var r4 := r3[31 := !(ptp || streamer)];
    RunLogic(p, packet, 20, r4, 30, 11, MOV, 0, MOV, 0);
    var r5 := r4[30 := streamer];
    RunLogic(p, packet, 21, r5, 24, 10, MOV, 0, MOV, 0);
  }

  lemma DefaultParts(mach: bv32, macl: bv32)
    ensures var p := DefaultProgram(mach, macl);
            && p[..10] == AddressPart(MacWord(mach, macl, 0), MacWord(mach, macl, 1), MacWord(mach, macl, 2))
            && p[10..16] == TypePart()
            && p[16..] == DecisionPart() + [Finish]
  {
    hide MacWord;
    var a := AddressPart(MacWord(mach, macl, 0), MacWord(mach, macl, 1), MacWord(mach, macl, 2));
    var t := TypePart();
    assert |a| == 10 && |t| == 6;
    hide AddressPart, TypePart, DecisionPart;
  }

  lemma ReadOff(r: Registers, packet: seq<bv16>, mach: bv32, macl: bv32, ptp: bool, streamer: bool)
    requires |packet| >= 7
    requires forall n :: 16 <= n < 32 ==> !r[n]
    requires ptp == IsPtp(packet, mach, macl) && streamer == IsStreamerBroadcast(packet)
    ensures Classified(r[10 := ptp][11 := streamer][12 := !(ptp || streamer)][31 := !(ptp || streamer)][30 := streamer]
                       [24 := ptp], packet, mach, macl)
  {
  }

  /** Every packet at least as long as the program ends in exactly one class and is never dropped: class 0 the PTP
      frames, class 6 the streamer broadcasts, class 7 the rest. */
  lemma DefaultClassifies(packet: seq<bv16>, mach: bv32, macl: bv32, r: Registers)
    requires |packet| >= 23 && Blank(r)
    ensures Classified(Run(DefaultProgram(mach, macl), packet, 0, r), packet, mach, macl)
  {
    var p := DefaultProgram(mach, macl);
    var o0, o1, o2 := MacWord(mach, macl, 0), MacWord(mach, macl, 1), MacWord(mach, macl, 2);
    var ptp, streamer := IsPtp(packet, mach, macl), IsStreamerBroadcast(packet);
    DefaultParts(mach, macl);
    hide Step, Run, MacWord, SentTo, DefaultProgram, AddressPart, TypePart, DecisionPart, Classified;
    AddressTests(p, packet, r, o0, o1, o2);
    var r1 := r[1 := SentTo(packet, 0xffff, 0xffff, 0xffff)]
              [2 := SentTo(packet, 0x011b, 0x1900, 0x0000)][3 := SentTo(packet, o0, o1, o2)];
    var r2 := TypeTests(p, packet, r1);
    Decide(p, packet, r2, ptp, streamer);
    ReadOff(r2, packet, mach, macl, ptp, streamer);
  }

  // ----- the assembler -----

  /** What the filter finds in the first words of its microcode memory. */
  function DecodeAll(words: seq<bv64>): (p: seq<Instr>)
    ensures |p| == |words|
    ensures forall i :: 0 <= i < |words| ==> p[i] == Decode(words[i])
  {
    if words == [] then [] else DecodeAll(words[..|words| - 1]) + [Decode(words[|words| - 1])]
  }

  function LoadedAll(words: seq<bv64>): (r: seq<bv64>)
    ensures |r| == |words|
    ensures forall i :: 0 <= i < |words| ==> r[i] == Loaded(words[i])
  {
    if words == [] then [] else LoadedAll(words[..|words| - 1]) + [Loaded(words[|words| - 1])]
  }

  lemma LoadedAllAt(words: seq<bv64>, memory: seq<bv64>)
    requires |memory| == |words| && forall i :: 0 <= i < |words| ==> memory[i] == Loaded(words[i])
    ensures memory == LoadedAll(words)
  {
  }

  lemma ProgramRead(words: seq<bv64>, program: seq<Instr>)
    requires |words| == |program|
    requires forall i :: 0 <= i < |words| && Encodable(program[i]) ==> Carries(words[i], program[i])
    ensures DecodeAll(LoadedAll(words)) == program <==> forall i <- program :: Encodable(i)
  {
    hide Encodable, Decode, Loaded, LoadedAll, DecodeAll;
    var read := DecodeAll(LoadedAll(words));
    if forall i <- program :: Encodable(i) {
      forall k | 0 <= k < |program|
        ensures read[k] == program[k]
      {
        assert program[k] in program;
      }
    } else if read == program {
      var k :| 0 <= k < |program| && !Encodable(program[k]);
      DecodeEncodable(LoadedAll(words)[k]);
    }
  }

  lemma PartsEncodable(o0: bv16, o1: bv16, o2: bv16)
    ensures forall i <- AddressPart(o0, o1, o2) :: Encodable(i)
    ensures forall i <- TypePart() :: Encodable(i)
    ensures forall i <- DecisionPart() :: Encodable(i)
  {
    assert NibbleMask(0xffff) && NibbleMask(0x00ff);
    hide NibbleMask;
  }

  /** Every instruction of the default program can be expressed. */
  lemma DefaultEncodable(mach: bv32, macl: bv32)
    ensures forall i <- DefaultProgram(mach, macl) :: Encodable(i)
  {
    PartsEncodable(MacWord(mach, macl, 0), MacWord(mach, macl, 1), MacWord(mach, macl, 2));
    hide MacWord, AddressPart, TypePart, DecisionPart;
  }

  class Assembler {
    const codeBuf: array<bv64>
    var codePos: nat
    const microcode: array<bv64>  // the memory of the filter, written through PFCR1 and PFCR0
    var enabled: bool
    ghost var program: seq<Instr>

    /** Every instruction asked for that can be expressed at all is carried by its word. */
    ghost predicate Valid()
      reads this, codeBuf
    {
      && codeBuf.Length == CODE_SIZE && microcode.Length == 64 && codeBuf != microcode
      && codePos == |program| <= CODE_SIZE
      && forall i :: 0 <= i < codePos && Encodable(program[i]) ==> Carries(codeBuf[i], program[i])
    }

    ghost function Words(): seq<bv64>
      requires Valid()
      reads this, codeBuf
    {
      codeBuf[..codePos]
    }

    constructor ()
      ensures Valid() && fresh(codeBuf) && fresh(microcode) && program == [] && !enabled
    {
      codeBuf, microcode := new bv64[CODE_SIZE], new bv64[64];
      codePos, enabled, program := 0, false, [];
    }

    method New()
      requires Valid()
      modifies this
      ensures Valid() && codePos == 0 && program == [] && enabled == old(enabled)
    {
      codePos := 0;
      program := [];
    }

    method Emit(ghost i: Instr, ir: bv64)
      requires Valid() && codePos < CODE_SIZE && (Encodable(i) ==> Carries(ir, i))
      modifies this, codeBuf
      ensures Valid() && codePos == old(codePos) + 1 && enabled == old(enabled)
      ensures program == old(program) + [i]
      ensures Words() == old(Words()) + [ir]
    {
      hide Encodable, Carries;
      codeBuf[codePos] := ir;
      codePos := codePos + 1;
      program := program + [i];
    }

    /** Fields out of range are emitted all the same. */
    method Cmp(offset: int, value: bv16, mask: bv16, op: Op, rd: int)
      requires Valid() && codePos < CODE_SIZE
      modifies this, codeBuf
      ensures Valid() && codePos == old(codePos) + 1 && enabled == old(enabled)
      ensures program == old(program) + [Compare(offset, value, mask, op, rd)]
      ensures Words() == old(Words()) + [CompareWord(ToBits(offset), value, mask, op, ToBits(rd))]
    {
      hide Encodable, Carries, CompareWord, ToBits;
      CompareExact(offset, value, mask, op, rd);
      Emit(Compare(offset, value, mask, op, rd), CompareWord(ToBits(offset), value, mask, op, ToBits(rd)));
    }

    method Nop()
      requires Valid() && codePos < CODE_SIZE
      modifies this, codeBuf
      ensures Valid() && codePos == old(codePos) + 1 && enabled == old(enabled)
      ensures program == old(program) + [NOP]
      ensures Words() == old(Words()) + [MODE_LOGIC]
    {
      NopCarried();
      Emit(NOP, MODE_LOGIC);
    }

    method Logic3(rd: int, ra: int, op: Op, rb: int, op2: Op, rc: int)
      requires Valid() && codePos < CODE_SIZE
      modifies this, codeBuf
      ensures Valid() && codePos == old(codePos) + 1 && enabled == old(enabled)
      ensures program == old(program) + [Logic(rd, ra, op, rb, op2, rc)]
      ensures Words() == old(Words()) + [Logic3Word(ToBits(rd), ToBits(ra), op, ToBits(rb), op2, ToBits(rc))]
    {
      hide Encodable, Carries, Logic3Word, ToBits;
      Logic3Exact(rd, ra, op, rb, op2, rc);
      Emit(Logic(rd, ra, op, rb, op2, rc), Logic3Word(ToBits(rd), ToBits(ra), op, ToBits(rb), op2, ToBits(rc)));
    }

    method Logic2(rd: int, ra: int, op: Op, rb: int)
      requires Valid() && codePos < CODE_SIZE
      modifies this, codeBuf
      ensures Valid() && codePos == old(codePos) + 1 && enabled == old(enabled)
      ensures program == old(program) + [Logic(rd, ra, op, rb, MOV, 0)]
      ensures Words() == old(Words()) + [Logic2Word(ToBits(rd), ToBits(ra), op, ToBits(rb))]
    {
      hide Encodable, Carries, Logic2Word, ToBits;
      Logic2Exact(rd, ra, op, rb);
      Emit(Logic(rd, ra, op, rb, MOV, 0), Logic2Word(ToBits(rd), ToBits(ra), op, ToBits(rb)));
    }

    /** Terminates the program and loads it. What the enabled filter then reads is the program asked for, followed by
        FIN, exactly when every instruction of it can be expressed. */
    method Load()
      requires Valid() && codePos < CODE_SIZE
      modifies this, codeBuf, microcode
      ensures Valid() && codePos == old(codePos) + 1 && enabled
      ensures program == old(program) + [Finish]
      ensures Words() == old(Words()) + [MODE_FINISH]
      ensures microcode[..codePos] == LoadedAll(Words())
      ensures DecodeAll(microcode[..codePos]) == program <==> forall i <- program :: Encodable(i)
    {
      hide Encodable, Carries, DecodeAll, LoadedAll;
      FinishCarried();
      Emit(Finish, MODE_FINISH);
      enabled := false;
      var i := 0;
      while i < codePos
        invariant 0 <= i <= codePos && Valid() && program == old(program) + [Finish]
        invariant codePos == old(codePos) + 1 && Words() == old(Words()) + [MODE_FINISH]
        invariant forall k :: 0 <= k < i ==> microcode[k] == Loaded(codeBuf[k])
      {
        var cr1 := Low(codeBuf[i]);
        microcode[i] := Combine(High(codeBuf[i]), cr1);
        i := i + 1;
      }
      enabled := true;
      LoadedAllAt(Words(), microcode[..codePos]);
      ProgramRead(Words(), program);
    }

    method GroupRules()
      requires Valid() && codePos == 0 && program == []
      modifies this, codeBuf
      ensures Valid() && codePos == 7 && program == GroupPart()
    {
      hide Valid, Words, ToBits, CompareWord, Logic2Word, Logic3Word;
      Nop();
      Cmp(0, 0xffff, 0xffff, MOV, 1);
      Cmp(1, 0xffff, 0xffff, AND, 1);
      Cmp(2, 0xffff, 0xffff, AND, 1);
      Cmp(0, 0x011b, 0xffff, MOV, 2);
      Cmp(1, 0x1900, 0xffff, AND, 2);
      Cmp(2, 0x0000, 0xffff, AND, 2);
    }

    method AddressRules(o0: bv16, o1: bv16, o2: bv16)
      requires Valid() && codePos == 0 && program == []
      modifies this, codeBuf
      ensures Valid() && codePos == 10 && program == AddressPart(o0, o1, o2)
    {
      hide Valid, Words, ToBits, CompareWord, GroupPart;
      GroupRules();
      Cmp(0, o0, 0xffff, MOV, 3);
      Cmp(1, o1, 0xffff, AND, 3);
      Cmp(2, o2, 0xffff, AND, 3);
    }

    method TypeRules()
      requires Valid() && codePos == 10
      modifies this, codeBuf
      ensures Valid() && codePos == 16 && program == old(program) + TypePart()
    {
      hide Valid, Words, ToBits, CompareWord, Logic2Word, Logic3Word;
      Cmp(6, 0x0800, 0xffff, MOV, 4);
      Cmp(6, 0x88f7, 0xffff, MOV, 5);
      Cmp(6, 0x0806, 0xffff, MOV, 6);
      Cmp(6, 0xdbff, 0xffff, MOV, 9);
      Cmp(11, 0x0001, 0x00ff, MOV, 7);
      Cmp(11, 0x0011, 0x00ff, MOV, 8);
    }

    method DecisionRules()
      requires Valid() && codePos == 16
      modifies this, codeBuf
      ensures Valid() && codePos == 22 && program == old(program) + DecisionPart()
    {
      hide Valid, Words, ToBits, CompareWord, Logic2Word, Logic3Word;
      Logic3(10, 3, OR, 2, AND, 5);
      Logic2(11, 1, AND, 9);
      Logic3(12, 10, OR, 11, NOT, 0);
      Logic2(RClass(7), 12, MOV, 0);
      Logic2(RClass(6), 11, MOV, 0);
      Logic2(RClass(0), 10, MOV, 0);
    }

    /** pfilter_init_default without Etherbone. */
    method InitDefault(mach: bv32, macl: bv32)
      requires Valid()
      modifies this, codeBuf, microcode
      ensures Valid() && enabled && codePos == 23
      ensures DecodeAll(microcode[..codePos]) == DefaultProgram(mach, macl)
    {
      hide Valid, Words, LoadedAll, DecodeAll, Encodable, AddressPart, TypePart, DecisionPart;
      DefaultEncodable(mach, macl);
      New();
      AddressRules((mach & 0xffff) as bv16, (macl >> 16) as bv16, (macl & 0xffff) as bv16);
      TypeRules();
      DecisionRules();
      Load();
    }
  }
}
