/** GPIO_PinRemapConfig and GPIO_EXTILineConfig,
    Libraries/STM32F10x_StdPeriph_Driver/src/stm32f10x_gpio.c:530-586: packed fields of shared
    registers, each written by many callers. */
module GpioRemap {
  import opened Words
  import opened GpioInit

  datatype Remap =
    | SPI1 | I2C1 | USART1 | USART2 | PartialUSART3 | FullUSART3 | PartialTIM1 | FullTIM1
    | Partial1TIM2 | Partial2TIM2 | FullTIM2 | PartialTIM3 | FullTIM3 | TIM4 | Remap1CAN1 | Remap2CAN1
    | PD01 | TIM5CH4LSI | ADC1ETRGINJ | ADC1ETRGREG | ADC2ETRGINJ | ADC2ETRGREG | ETH | CAN2
    | SWJNoJTRST | SWJJTAGDisable | SWJDisable | SPI3 | TIM2ITR1PTPSOF | PTPPPS

  /** The 32-bit constants of the header, as the positions of their one bits. */
  function Code(r: Remap): set<nat> {
    match r
    case SPI1 => {0}
    case I2C1 => {1}
    case USART1 => {2}
    case USART2 => {3}
    case PartialUSART3 => {4, 18, 20}
    case FullUSART3 => {4, 5, 18, 20}
    case PartialTIM1 => {6, 17, 18, 20}
    case FullTIM1 => {6, 7, 17, 18, 20}
    case Partial1TIM2 => {8, 19, 20}
    case Partial2TIM2 => {9, 19, 20}
    case FullTIM2 => {8, 9, 19, 20}
    case PartialTIM3 => {11, 17, 19, 20}
    case FullTIM3 => {10, 11, 17, 19, 20}
    case TIM4 => {12}
    case Remap1CAN1 => {14, 16, 18, 19, 20}
    case Remap2CAN1 => {13, 14, 16, 18, 19, 20}
    case PD01 => {15}
    case TIM5CH4LSI => {0, 21}
    case ADC1ETRGINJ => {1, 21}
    case ADC1ETRGREG => {2, 21}
    case ADC2ETRGINJ => {3, 21}
    case ADC2ETRGREG => {4, 21}
    case ETH => {5, 21}
    case CAN2 => {6, 21}
    case SWJNoJTRST => {8, 20, 21}
    case SWJJTAGDisable => {9, 20, 21}
    case SWJDisable => {10, 20, 21}
    case SPI3 => {12, 21}
    case TIM2ITR1PTPSOF => {13, 21}
    case PTPPPS => {14, 21}
  }

  function WordOf(bits: set<nat>): (w: Word)
    ensures forall i :: 0 <= i < 32 ==> w[i] == (i in bits)
  {
    seq(32, i requires 0 <= i < 32 => i in bits)
  }

  // ----- The field each remap selects, and what it holds when enabled -----

  function Slot(r: Remap): set<nat> {
    match r
    case SPI1 => {0}
    case I2C1 => {1}
    case USART1 => {2}
    case USART2 => {3}
    case PartialUSART3 | FullUSART3 => {4, 5}
    case PartialTIM1 | FullTIM1 => {6, 7}
    case Partial1TIM2 | Partial2TIM2 | FullTIM2 => {8, 9}
    case PartialTIM3 | FullTIM3 => {10, 11}
    case TIM4 => {12}
    case Remap1CAN1 | Remap2CAN1 => {13, 14}
    case PD01 => {15}
    case TIM5CH4LSI => {16}
    case ADC1ETRGINJ => {17}
    case ADC1ETRGREG => {18}
    case ADC2ETRGINJ => {19}
    case ADC2ETRGREG => {20}
    case ETH => {21}
    case CAN2 => {22}
    case SWJNoJTRST | SWJJTAGDisable | SWJDisable => {24, 25, 26, 27}
    case SPI3 => {28}
    case TIM2ITR1PTPSOF => {29}
    case PTPPPS => {30}
  }

  function On(r: Remap): set<nat> {
    match r
    case PartialUSART3 => {4}
    case PartialTIM1 => {6}
    case Partial1TIM2 => {8}
    case Partial2TIM2 => {9}
    case PartialTIM3 => {11}
    case Remap1CAN1 => {14}
    case SWJNoJTRST => {24}
    case SWJJTAGDisable => {25}
    case SWJDisable => {26}
    case _ => Slot(r)
  }

  /** The fields as the reference manual numbers them: lowest bit, width, and the value that a remap
      writes there when enabled. */
  lemma ChipField(r: Remap, i: nat)
    ensures var (low, width, value) :=
              match r
              case SPI1 => (0, 1, 1) case I2C1 => (1, 1, 1) case USART1 => (2, 1, 1)
              case USART2 => (3, 1, 1) case PartialUSART3 => (4, 2, 1) case FullUSART3 => (4, 2, 3)
              case PartialTIM1 => (6, 2, 1) case FullTIM1 => (6, 2, 3) case Partial1TIM2 => (8, 2, 1)
              case Partial2TIM2 => (8, 2, 2) case FullTIM2 => (8, 2, 3) case PartialTIM3 => (10, 2, 2)
              case FullTIM3 => (10, 2, 3) case TIM4 => (12, 1, 1) case Remap1CAN1 => (13, 2, 2)
              case Remap2CAN1 => (13, 2, 3) case PD01 => (15, 1, 1) case TIM5CH4LSI => (16, 1, 1)
              case ADC1ETRGINJ => (17, 1, 1) case ADC1ETRGREG => (18, 1, 1) case ADC2ETRGINJ => (19, 1, 1)
              case ADC2ETRGREG => (20, 1, 1) case ETH => (21, 1, 1) case CAN2 => (22, 1, 1)
              case SWJNoJTRST => (24, 4, 1) case SWJJTAGDisable => (24, 4, 2) case SWJDisable => (24, 4, 4)
              case SPI3 => (28, 1, 1) case TIM2ITR1PTPSOF => (29, 1, 1) case PTPPPS => (30, 1, 1);
            && (i in Slot(r) <==> low <= i < low + width)
            && (i in On(r) <==> || (i == low && (value == 1 || value == 3))
                                || (i == low + 1 && (value == 2 || value == 3))
                                || (i == low + 2 && value == 4))
  {
  }

  predicate Swj(r: Remap) {
    r.SWJNoJTRST? || r.SWJJTAGDisable? || r.SWJDisable?
  }

  const SWJ_SLOT := {24, 25, 26, 27}

  /** A call writes its own field; any call but an SWJ one also writes ones into the write-only SWJ
      field, which means "leave it"; every other bit stays. */
  function Remapped(mapr: Word, r: Remap, enable: bool): (w: Word)
  {
    seq(32, i requires 0 <= i < 32 =>
      if i in Slot(r) then enable && i in On(r)
      else if i in SWJ_SLOT then true
      else mapr[i])
  }

  lemma BitOfRemapped(mapr: Word, r: Remap, enable: bool, i: nat)
    requires i < 32
    ensures Remapped(mapr, r, enable)[i] == if i in Slot(r) then enable && i in On(r) else mapr[i] || 24 <= i < 28
  {
  }

  // ----- The code -----

  const SWJCFG_MASK: Word := Not(WordOf(SWJ_SLOT))

  /** The bits of MAPR a 32-bit constant tells the code to clear: the SWJ field, two bits at the encoded
      position, or the bits it will set, in the half named by bit 21. */
  predicate Clears(remap: Word, i: nat) {
    if remap[20] && remap[21] then 24 <= i < 28
    else if remap[20] then Number4(remap, 16) <= i < Number4(remap, 16) + 2
    else Sets(remap, i)
  }

  predicate Sets(remap: Word, i: nat) {
    var shift := if remap[21] then 16 else 0;
    shift <= i < shift + 16 && remap[i - shift]
  }

  /** What clearing leaves of a bit; a constant outside the SWJ group sets the four SWJ bits. */
  predicate Kept(bit: bool, remap: Word, i: nat) {
    (bit && !Clears(remap, i)) || (24 <= i < 28 && !(remap[20] && remap[21]))
  }

  class Afio {
    var mapr: Word
    const exticr: array<Word>

    constructor (mapr: Word)
      ensures this.mapr == mapr && exticr.Length == 4 && fresh(exticr)
    {
      this.mapr := mapr;
      exticr := new Word[4](_ => ZERO);
    }

    /** The three ways of clearing, for a constant of 22 bits. */
    method Clear(remap: Word) returns (tmpreg: Word)
      modifies this`mapr
      ensures forall i :: 0 <= i < 32 ==> tmpreg[i] == Kept(old(mapr)[i], remap, i)
    {
      tmpreg := mapr;
      var tmpmask := Number4(remap, 16);
      var tmp := And(remap, Ones(16));
      if remap[21] && remap[20] {
        tmpreg := And(tmpreg, SWJCFG_MASK);
        mapr := And(mapr, SWJCFG_MASK);
      } else if remap[20] {
        var tmp1 := Shl(Ones(2), tmpmask);
        tmpreg := And(tmpreg, Not(tmp1));
        tmpreg := Or(tmpreg, Not(SWJCFG_MASK));
      } else {
        tmpreg := And(tmpreg, Not(Shl(tmp, if remap[21] then 16 else 0)));
        tmpreg := Or(tmpreg, Not(SWJCFG_MASK));
      }
    }

    /** GPIO_PinRemapConfig. */
    method PinRemapConfig(r: Remap, enable: bool)
      modifies this`mapr
      ensures mapr == Remapped(old(mapr), r, enable)
      ensures forall i :: 0 <= i < 32 ==>
                mapr[i] == if i in Slot(r) then enable && i in On(r) else old(mapr)[i] || 24 <= i < 28
    {
      var remap := WordOf(Code(r));
      ghost var before := mapr;
      var tmpreg := Clear(remap);
      if enable {
        tmpreg := Or(tmpreg, Shl(And(remap, Ones(16)), if remap[21] then 16 else 0));
      }
      BitsAreRemapped(before, tmpreg, r, remap, enable);
      mapr := tmpreg;
      forall i | 0 <= i < 32
        ensures mapr[i] == if i in Slot(r) then enable && i in On(r) else before[i] || 24 <= i < 28
      {
        BitOfRemapped(before, r, enable, i);
      }
    }

    /** GPIO_EXTILineConfig. */
    method EXTILineConfig(port: Word, pin: nat)
      requires exticr.Length == 4 && pin < 16 && PortNumber(port)
      modifies exticr
      ensures LineSet(old(exticr[..]), exticr[..], port, pin)
      ensures forall q :: 0 <= q < 4 && q != pin / 4 ==> exticr[q] == old(exticr[q])
      ensures forall i :: 0 <= i < 32 ==>
                exticr[pin / 4][i] == if i / 4 == pin % 4 then port[i % 4] else old(exticr[pin / 4])[i]
    {
      var tmp := Shl(Ones(4), 4 * (pin % 4));
      ghost var reg := exticr[pin / 4];
      exticr[pin / 4] := And(exticr[pin / 4], Not(tmp));
      exticr[pin / 4] := Or(exticr[pin / 4], Shl(port, 4 * (pin % 4)));
      FieldsOfSet(reg, pin % 4, port);
    }
  }

  // ----- The 16 interrupt lines, four to a register -----

  predicate PortNumber(port: Word) {
    forall i :: 4 <= i < 32 ==> !port[i]
  }

  /** Field k of register q; line p is field p % 4 of register p / 4, and fields 4 to 7 are reserved. */
  ghost predicate LineSet(before: seq<Word>, after: seq<Word>, port: Word, pin: nat) {
    && |before| == |after| == 4
    && forall q, k :: 0 <= q < 4 && 0 <= k < 8 ==>
         Field(after[q], k) == if q == pin / 4 && k == pin % 4 then port[..4] else Field(before[q], k)
  }

  function Line(regs: seq<Word>, pin: nat): seq<bool>
    requires |regs| == 4 && pin < 16
  {
    Field(regs[pin / 4], pin % 4)
  }

  datatype LineCall = LineCall(port: Word, pin: nat)

  ghost predicate LinesSet(calls: seq<LineCall>, regs: seq<seq<Word>>) {
    && |regs| == |calls| + 1
    && (forall i :: 0 <= i <= |calls| ==> |regs[i]| == 4)
    && forall i :: 0 <= i < |calls| ==> LineSet(regs[i], regs[i + 1], calls[i].port, calls[i].pin)
  }

  /** After any calls each line has the port of its own last call, or the one it started with. */
  lemma {:induction false} LastLineWins(calls: seq<LineCall>, regs: seq<seq<Word>>, pin: nat, last: int)
    requires LinesSet(calls, regs) && pin < 16 && -1 <= last < |calls|
    requires last >= 0 ==> calls[last].pin == pin
    requires forall i :: last < i < |calls| ==> calls[i].pin != pin
    ensures Line(regs[|calls|], pin) == if last < 0 then Line(regs[0], pin) else calls[last].port[..4]
    decreases |calls|
  {
    if calls != [] {
      var n := |calls| - 1;
      assert LineSet(regs[n], regs[n + 1], calls[n].port, calls[n].pin);
      if last < n {
        LastLineWins(calls[..n], regs[..n + 1], pin, last);
      }
    }
  }

  // ----- Sequences of remaps -----

  datatype RemapCall = RemapCall(remap: Remap, enable: bool)

  /** The register after the calls, in order. */
  function RemapAll(mapr: Word, calls: seq<RemapCall>): Word {
    if calls == [] then mapr
    else
      var n := |calls| - 1;
      Remapped(RemapAll(mapr, calls[..n]), calls[n].remap, calls[n].enable)
  }

  /** Every bit of the register belongs to at most one field. */
  function Owner(i: nat): nat {
    if i < 4 then i
    else if i < 12 then i / 2 * 2
    else if i == 14 then 13
    else if 24 <= i < 28 then 24
    else i
  }

  /** The lowest bit of the field. */
  function Base(r: Remap): nat {
    match r
    case SPI1 => 0
    case I2C1 => 1
    case USART1 => 2
    case USART2 => 3
    case PartialUSART3 | FullUSART3 => 4
    case PartialTIM1 | FullTIM1 => 6
    case Partial1TIM2 | Partial2TIM2 | FullTIM2 => 8
    case PartialTIM3 | FullTIM3 => 10
    case TIM4 => 12
    case Remap1CAN1 | Remap2CAN1 => 13
    case PD01 => 15
    case TIM5CH4LSI => 16
    case ADC1ETRGINJ => 17
    case ADC1ETRGREG => 18
    case ADC2ETRGINJ => 19
    case ADC2ETRGREG => 20
    case ETH => 21
    case CAN2 => 22
    case SWJNoJTRST | SWJJTAGDisable | SWJDisable => 24
    case SPI3 => 28
    case TIM2ITR1PTPSOF => 29
    case PTPPPS => 30
  }

  lemma SlotAt(r: Remap, j: nat)
    ensures j in Slot(r) <==> Owner(j) == Base(r)
    ensures j in Slot(r) ==> j < 31
  {
    match r
    case _ =>
  }

  lemma SlotIsOwned(r: Remap, i: nat, j: nat)
    requires i in Slot(r)
    ensures i < 32
    ensures j in Slot(r) <==> Owner(j) == Owner(i)
  {
    SlotAt(r, i);
    SlotAt(r, j);
  }

  /** Two remaps configure the same field, or fields with no bit in common. */
  lemma SlotsPartition(a: Remap, b: Remap)
    ensures Slot(a) == Slot(b) || Slot(a) !! Slot(b)
  {
    if i :| i in Slot(a) && i in Slot(b) {
      forall j ensures j in Slot(a) <==> j in Slot(b) {
        if j >= 0 {
          SlotIsOwned(a, i, j);
          SlotIsOwned(b, i, j);
        }
      }
    }
  }

  lemma OutsideSwj(r: Remap, i: nat)
    requires !Swj(r) && i in Slot(r)
    ensures i < 32 && i !in SWJ_SLOT
  {
    SlotAt(r, i);
    SwjBase(r);
  }

  lemma {:induction false} LastOnBit(mapr: Word, calls: seq<RemapCall>, r: Remap, last: int, i: nat)
    requires -1 <= last < |calls| && i in Slot(r) && i < 32 && i !in SWJ_SLOT
    requires last >= 0 ==> Slot(calls[last].remap) == Slot(r)
    requires forall k :: last < k < |calls| ==> Slot(calls[k].remap) != Slot(r)
    ensures RemapAll(mapr, calls)[i] == if last < 0 then mapr[i] else calls[last].enable && i in On(calls[last].remap)
    decreases |calls|
  {
    if calls != [] {
      var n := |calls| - 1;
      if last < n {
        LastOnBit(mapr, calls[..n], r, last, i);
        SlotsPartition(r, calls[n].remap);
        assert i !in Slot(calls[n].remap);
      }
    }
  }

  /** The field of r outside the SWJ bits holds exactly what the last call on that field put there,
      enabled bits on and the rest of the field off; no other call disturbs it. */
  lemma LastRemapWins(mapr: Word, calls: seq<RemapCall>, r: Remap, last: int)
    requires !Swj(r) && -1 <= last < |calls|
    requires last >= 0 ==> Slot(calls[last].remap) == Slot(r)
    requires forall k :: last < k < |calls| ==> Slot(calls[k].remap) != Slot(r)
    ensures forall i :: i in Slot(r) ==>
              && i < 32
              && RemapAll(mapr, calls)[i] == if last < 0 then mapr[i] else calls[last].enable && i in On(calls[last].remap)
  {
    forall i | i in Slot(r)
      ensures i < 32
      ensures RemapAll(mapr, calls)[i] == if last < 0 then mapr[i] else calls[last].enable && i in On(calls[last].remap)
    {
      OutsideSwj(r, i);
      LastOnBit(mapr, calls, r, last, i);
    }
  }

  /** Bits 23 and 31 belong to no field and never change; after any call the SWJ field holds all ones
      unless that call was an SWJ one. */
  lemma {:induction false} OtherBits(mapr: Word, calls: seq<RemapCall>)
    ensures RemapAll(mapr, calls)[23] == mapr[23] && RemapAll(mapr, calls)[31] == mapr[31]
    ensures calls != [] ==>
              var c := calls[|calls| - 1];
              forall i :: i in SWJ_SLOT ==> RemapAll(mapr, calls)[i] == if Swj(c.remap) then c.enable && i in On(c.remap) else true
  {
    if calls != [] {
      var n := |calls| - 1;
      OtherBits(mapr, calls[..n]);
      SwjCode(calls[n].remap);
      forall i | i in {23, 31} ensures i !in Slot(calls[n].remap) {
        if i in Slot(calls[n].remap) {
          OwnedFieldsExclude(calls[n].remap);
        }
      }
    }
  }

  lemma OwnedFieldsExclude(r: Remap)
    ensures 23 !in Slot(r) && 31 !in Slot(r)
  {
  }

  lemma BitsAreRemapped(before: Word, after: Word, r: Remap, remap: Word, enable: bool)
    requires remap == WordOf(Code(r))
    requires forall i :: 0 <= i < 32 ==> after[i] == (Kept(before[i], remap, i) || (enable && Sets(remap, i)))
    ensures after == Remapped(before, r, enable)
  {
    SwjCode(r);
    var slot, on := Slot(r), On(r);
    forall i | 0 <= i < 32 ensures after[i] == Remapped(before, r, enable)[i] {
      CodeMeansSlot(r, i);
      assert i in on ==> i in slot;
    }
  }

  lemma SwjCode(r: Remap)
    ensures Swj(r) <==> 20 in Code(r) && 21 in Code(r)
    ensures Swj(r) ==> Slot(r) == SWJ_SLOT
    ensures !Swj(r) ==> Slot(r) !! SWJ_SLOT
  {
    SwjBits(r);
    SwjBase(r);
    forall i | i in SWJ_SLOT ensures Owner(i) == 24 && (i in Slot(r) <==> Base(r) == 24) {
      SlotAt(r, i);
    }
  }

  lemma SwjBase(r: Remap)
    ensures Swj(r) <==> Base(r) == 24
    ensures Swj(r) ==> Slot(r) == SWJ_SLOT
  {
  }

  lemma SwjBits(r: Remap)
    ensures Swj(r) <==> 20 in Code(r) && 21 in Code(r)
  {
  }

  /** The header's constants decode to the fields of the reference table. */
  lemma CodeMeansSlot(r: Remap, i: nat)
    requires i < 32
    ensures Clears(WordOf(Code(r)), i) <==> i in Slot(r)
    ensures Sets(WordOf(Code(r)), i) <==> i in On(r)
    ensures i in On(r) ==> i in Slot(r)
  {
    CodeClears(r, i);
    CodeSets(r, i);
  }

  lemma CodeClears(r: Remap, i: nat)
    requires i < 32
    ensures Clears(WordOf(Code(r)), i) <==> i in Slot(r)
  {
    if 20 in Code(r) {
      WideClears(r, i);
    } else {
      CodeSets(r, i);
      NarrowSlots(r);
    }
  }

  lemma WideClears(r: Remap, i: nat)
    requires i < 32 && 20 in Code(r)
    ensures Clears(WordOf(Code(r)), i) <==> i in Slot(r)
  {
    match r
    case _ =>
  }

  lemma NarrowSlots(r: Remap)
    requires 20 !in Code(r)
    ensures Slot(r) == On(r)
  {
  }

  lemma CodeSets(r: Remap, i: nat)
    requires i < 32
    ensures Sets(WordOf(Code(r)), i) <==> i in On(r)
    ensures i in On(r) ==> i in Slot(r)
  {
    match r
    case _ =>
  }
}
