/** GPIO_Init, Libraries/STM32F10x_StdPeriph_Driver/src/stm32f10x_gpio.c:172-257: two loops over the
    4-bit fields of two 32-bit registers, and the 16-pin map they refine. */
module GpioInit {
  import opened Words

  datatype Mode = AIN | INFloating | IPD | IPU | OutOD | OutPP | AFOD | AFPP
  datatype Speed = MHz10 | MHz2 | MHz50

  /** The mode constants of the header, lowest bit first: 0x00, 0x04, 0x28, 0x48, 0x14, 0x10, 0x1C, 0x18. */
  function ModeBits(m: Mode): Word {
    Pad(match m
        case AIN => [false, false, false, false]
        case INFloating => [false, false, true, false]
        case IPD => [false, false, false, true, false, true]
        case IPU => [false, false, false, true, false, false, true]
        case OutOD => [false, false, true, false, true]
        case OutPP => [false, false, false, false, true]
        case AFOD => [false, false, true, true, true]
        case AFPP => [false, false, false, true, true])
  }

  /** The speed constants 1, 2 and 3. */
  function SpeedBits(s: Speed): Word {
    Pad(match s
        case MHz10 => [true, false]
        case MHz2 => [false, true]
        case MHz50 => [true, true])
  }

  /** Configuration of one pin: CNF in the high two bits, MODE in the low two, where MODE is the speed
      of an output and zero for an input. */
  function Nibble(m: Mode, s: Speed): (r: seq<bool>)
    ensures |r| == 4
    ensures r[0] <==> (m.OutOD? || m.OutPP? || m.AFOD? || m.AFPP?) && !s.MHz2?
    ensures r[1] <==> (m.OutOD? || m.OutPP? || m.AFOD? || m.AFPP?) && !s.MHz10?
    ensures r[2] <==> m.INFloating? || m.OutOD? || m.AFOD?
    ensures r[3] <==> m.IPD? || m.IPU? || m.AFOD? || m.AFPP?
  {
    var low := match s
      case MHz10 => [true, false]
      case MHz2 => [false, true]
      case MHz50 => [true, true];
    var input := [false, false];
    match m
    case AIN => input + [false, false]
    case INFloating => input + [true, false]
    case IPD => input + [false, true]
    case IPU => input + [false, true]
    case OutPP => low + [false, false]
    case OutOD => low + [true, false]
    case AFPP => low + [false, true]
    case AFOD => low + [true, true]
  }

  // ----- The pin map -----

  function Field(reg: Word, k: nat): (r: seq<bool>)
    requires k < 8
    ensures |r| == 4
  {
    reg[4 * k..4 * k + 4]
  }

  /** The registers of one port that GPIO_Init changes. BRR and BSRR are write-only windows on ODR:
      a one written there clears or sets the output bit. */
  datatype Port = Port(crl: Word, crh: Word, odr: Word)

  function PinMode(p: Port, j: nat): seq<bool>
    requires j < 16
  {
    if j < 8 then Field(p.crl, j) else Field(p.crh, j - 8)
  }

  /** What a pin's output bit becomes: pull-down clears it, pull-up sets it. */
  function Output(mode: Mode, selected: bool, bit: bool): bool {
    if selected && mode == IPD then false else if selected && mode == IPU then true else bit
  }

  predicate PinMask(pins: Word) {
    forall j :: 16 <= j < 32 ==> !pins[j]
  }

  /** Each selected pin has the new configuration, each other pin its old one; output bits change only
      for selected pull-down and pull-up pins. */
  ghost predicate Configured(before: Port, after: Port, mode: Mode, speed: Speed, pins: Word) {
    && (forall j :: 0 <= j < 16 ==> PinMode(after, j) == if pins[j] then Nibble(mode, speed) else PinMode(before, j))
    && (forall j :: 0 <= j < 32 ==> after.odr[j] == Output(mode, pins[j], before.odr[j]))
  }

  lemma FieldsOfSet(reg: Word, k: nat, m: Word)
    requires k < 8 && forall i :: 4 <= i < 32 ==> !m[i]
    ensures var r := Or(And(reg, Not(Shl(Ones(4), 4 * k))), Shl(m, 4 * k));
            forall j :: 0 <= j < 8 ==> Field(r, j) == if j == k then m[..4] else Field(reg, j)
  {
  }

  // ----- The code -----

  /** The loop body's update of the register image. */
  method SetField(reg: Word, pinpos: nat, currentmode: Word) returns (tmpreg: Word)
    requires pinpos < 8 && forall i :: 4 <= i < 32 ==> !currentmode[i]
    ensures forall j :: 0 <= j < 8 ==> Field(tmpreg, j) == if j == pinpos then currentmode[..4] else Field(reg, j)
  {
    var pinmask := Shl(Ones(4), 4 * pinpos);
    tmpreg := And(reg, Not(pinmask));
    tmpreg := Or(tmpreg, Shl(currentmode, 4 * pinpos));
    FieldsOfSet(reg, pinpos, currentmode);
  }

  class Gpio {
    var crl: Word
    var crh: Word
    var odr: Word

    ghost function State(): Port
      reads this
    {
      Port(crl, crh, odr)
    }

    method WriteBrr(v: Word)
      modifies this`odr
      ensures odr == And(old(odr), Not(v))
    {
      odr := And(odr, Not(v));
    }

    /** Only the low half is written here; the high half of BSRR would clear. */
    method WriteBsrr(v: Word)
      requires PinMask(v)
      modifies this`odr
      ensures odr == Or(old(odr), v)
    {
      odr := Or(odr, v);
    }

    /** The body of both loops, for pin number pin and field pinpos of the register image. */
    method ConfigurePin(mode: Mode, currentmode: Word, pins: Word, pin: nat, reg: Word, pinpos: nat) returns (tmpreg: Word)
      requires pin < 16 && pinpos < 8 && forall i :: 4 <= i < 32 ==> !currentmode[i]
      modifies this`odr
      ensures forall j :: 0 <= j < 8 ==> Field(tmpreg, j) == if j == pinpos && pins[pin] then currentmode[..4] else Field(reg, j)
      ensures forall j :: 0 <= j < 32 ==> odr[j] == Output(mode, j == pin && pins[pin], old(odr)[j])
    {
      tmpreg := reg;
      var pos := Shl(ONE, pin);
      var currentpin := And(pins, pos);
      TestBit(pins, pin);
      if currentpin == pos {
        tmpreg := SetField(tmpreg, pinpos, currentmode);
        if mode == IPD {
          WriteBrr(pos);
        } else if mode == IPU {
          WriteBsrr(pos);
        }
      }
    }

    /** The first loop: pins 0 to 7 in CRL. */
    method ConfigureLow(mode: Mode, currentmode: Word, pins: Word)
      requires forall i :: 4 <= i < 32 ==> !currentmode[i]
      modifies this`crl, this`odr
      ensures forall j :: 0 <= j < 8 ==> Field(crl, j) == if pins[j] then currentmode[..4] else Field(old(crl), j)
      ensures forall j :: 0 <= j < 32 ==> odr[j] == Output(mode, j < 8 && pins[j], old(odr)[j])
    {
      var tmpreg := crl;
      var pinpos := 0;
      while pinpos < 8
        invariant 0 <= pinpos <= 8 && crl == old(crl)
        invariant forall j :: 0 <= j < 8 ==>
                    Field(tmpreg, j) == if j < pinpos && pins[j] then currentmode[..4] else Field(old(crl), j)
        invariant forall j :: 0 <= j < 32 ==> odr[j] == Output(mode, j < pinpos && pins[j], old(odr)[j])
      {
        tmpreg := ConfigurePin(mode, currentmode, pins, pinpos, tmpreg, pinpos);
        pinpos := pinpos + 1;
      }
      crl := tmpreg;
    }

    /** The second loop: pins 8 to 15 in CRH. */
    method ConfigureHigh(mode: Mode, currentmode: Word, pins: Word)
      requires forall i :: 4 <= i < 32 ==> !currentmode[i]
      modifies this`crh, this`odr
      ensures forall j :: 0 <= j < 8 ==> Field(crh, j) == if pins[j + 8] then currentmode[..4] else Field(old(crh), j)
      ensures forall j :: 0 <= j < 32 ==> odr[j] == Output(mode, 8 <= j < 16 && pins[j], old(odr)[j])
    {
      var tmpreg := crh;
      var pinpos := 0;
      while pinpos < 8
        invariant 0 <= pinpos <= 8 && crh == old(crh)
        invariant forall j :: 0 <= j < 8 ==>
                    Field(tmpreg, j) == if j < pinpos && pins[j + 8] then currentmode[..4] else Field(old(crh), j)
        invariant forall j :: 0 <= j < 32 ==> odr[j] == Output(mode, 8 <= j < pinpos + 8 && pins[j], old(odr)[j])
      {
        tmpreg := ConfigurePin(mode, currentmode, pins, pinpos + 8, tmpreg, pinpos);
        pinpos := pinpos + 1;
      }
      crh := tmpreg;
    }

    method LowPins(mode: Mode, speed: Speed, currentmode: Word, pins: Word)
      requires PinMask(pins) && currentmode[..4] == Nibble(mode, speed) && forall i :: 4 <= i < 32 ==> !currentmode[i]
      modifies this`crl, this`odr
      ensures LowDone(old(State()), State(), mode, speed, pins)
    {
      NonZero(pins, Ones(8));
      if And(pins, Ones(8)) != ZERO {
        ConfigureLow(mode, currentmode, pins);
      }
    }

    /** A 16-bit mask exceeds 0x00FF exactly when one of its high eight bits is set. */
    method HighPins(mode: Mode, speed: Speed, currentmode: Word, pins: Word)
      requires PinMask(pins) && currentmode[..4] == Nibble(mode, speed) && forall i :: 4 <= i < 32 ==> !currentmode[i]
      modifies this`crh, this`odr
      ensures HighDone(old(State()), State(), mode, speed, pins)
    {
      NonZero(pins, Not(Ones(8)));
      if And(pins, Not(Ones(8))) != ZERO {
        ConfigureHigh(mode, currentmode, pins);
      }
    }

    /** GPIO_Init. */
    method Init(mode: Mode, speed: Speed, pins: Word)
      requires PinMask(pins)
      modifies this
      ensures Configured(old(State()), State(), mode, speed, pins)
      ensures forall i :: 0 <= i < 32 ==> crl[i] == if pins[i / 4] then Nibble(mode, speed)[i % 4] else old(crl)[i]
      ensures forall i :: 0 <= i < 32 ==> crh[i] == if pins[8 + i / 4] then Nibble(mode, speed)[i % 4] else old(crh)[i]
      ensures forall i :: 0 <= i < 32 ==> odr[i] == if pins[i] && (mode.IPD? || mode.IPU?) then mode.IPU? else old(odr)[i]
    {
      var currentmode := ComposeMode(mode, speed);
      LowPins(mode, speed, currentmode, pins);
      ghost var middle := State();
      HighPins(mode, speed, currentmode, pins);
      BothDone(old(State()), middle, State(), mode, speed, pins);
      BitByBit(old(State()), State(), mode, speed, pins);
    }
  }

  ghost predicate LowDone(a: Port, b: Port, mode: Mode, speed: Speed, pins: Word) {
    && b.crh == a.crh
    && (forall j :: 0 <= j < 8 ==> Field(b.crl, j) == if pins[j] then Nibble(mode, speed) else Field(a.crl, j))
    && (forall j :: 0 <= j < 32 ==> b.odr[j] == Output(mode, j < 8 && pins[j], a.odr[j]))
  }

  ghost predicate HighDone(b: Port, c: Port, mode: Mode, speed: Speed, pins: Word) {
    && c.crl == b.crl
    && (forall j :: 0 <= j < 8 ==> Field(c.crh, j) == if pins[j + 8] then Nibble(mode, speed) else Field(b.crh, j))
    && (forall j :: 0 <= j < 32 ==> c.odr[j] == Output(mode, 8 <= j < 16 && pins[j], b.odr[j]))
  }

  lemma BothDone(a: Port, b: Port, c: Port, mode: Mode, speed: Speed, pins: Word)
    requires PinMask(pins) && LowDone(a, b, mode, speed, pins) && HighDone(b, c, mode, speed, pins)
    ensures Configured(a, c, mode, speed, pins)
  {
  }

  /** Bit i of a register belongs to its field i / 4. */
  lemma BitOfField(reg: Word, i: nat)
    requires i < 32
    ensures reg[i] == Field(reg, i / 4)[i % 4]
  {
  }

  lemma BitByBit(a: Port, b: Port, mode: Mode, speed: Speed, pins: Word)
    requires Configured(a, b, mode, speed, pins)
    ensures forall i :: 0 <= i < 32 ==> b.crl[i] == if pins[i / 4] then Nibble(mode, speed)[i % 4] else a.crl[i]
    ensures forall i :: 0 <= i < 32 ==> b.crh[i] == if pins[8 + i / 4] then Nibble(mode, speed)[i % 4] else a.crh[i]
    ensures forall i :: 0 <= i < 32 ==> b.odr[i] == if pins[i] && (mode.IPD? || mode.IPU?) then mode.IPU? else a.odr[i]
  {
    forall i | 0 <= i < 32
      ensures b.crl[i] == if pins[i / 4] then Nibble(mode, speed)[i % 4] else a.crl[i]
      ensures b.crh[i] == if pins[8 + i / 4] then Nibble(mode, speed)[i % 4] else a.crh[i]
    {
      BitOfField(a.crl, i);
      BitOfField(b.crl, i);
      BitOfField(a.crh, i);
      BitOfField(b.crh, i);
      assert PinMode(b, i / 4) == Field(b.crl, i / 4) && PinMode(b, 8 + i / 4) == Field(b.crh, i / 4);
      assert PinMode(a, i / 4) == Field(a.crl, i / 4) && PinMode(a, 8 + i / 4) == Field(a.crh, i / 4);
    }
  }

  method ComposeMode(mode: Mode, speed: Speed) returns (currentmode: Word)
    ensures currentmode[..4] == Nibble(mode, speed) && forall i :: 4 <= i < 32 ==> !currentmode[i]
  {
    currentmode := And(ModeBits(mode), Ones(4));
    if And(ModeBits(mode), Shl(ONE, 4)) != ZERO {
      currentmode := Or(currentmode, SpeedBits(speed));
    }
    CurrentMode(mode, speed);
  }

  /** The nibble the code composes from the constants is the documented one. */
  lemma CurrentMode(mode: Mode, speed: Speed)
    ensures var low := And(ModeBits(mode), Ones(4));
            var c := if And(ModeBits(mode), Shl(ONE, 4)) != ZERO then Or(low, SpeedBits(speed)) else low;
            c[..4] == Nibble(mode, speed) && forall i :: 4 <= i < 32 ==> !c[i]
  {
    NonZero(ModeBits(mode), Shl(ONE, 4));
    assert And(ModeBits(mode), Shl(ONE, 4)) != ZERO <==> ModeBits(mode)[4];
  }

  // ----- Several calls -----

  /** The pin map and the output bits determine the registers. */
  lemma PortExtensional(p: Port, q: Port)
    requires forall j :: 0 <= j < 16 ==> PinMode(p, j) == PinMode(q, j)
    requires p.odr == q.odr
    ensures p == q
  {
    forall i | 0 <= i < 32 ensures p.crl[i] == q.crl[i] && p.crh[i] == q.crh[i] {
      var j, x := i / 4, i % 4;
      assert PinMode(p, j) == PinMode(q, j) && PinMode(p, j + 8) == PinMode(q, j + 8);
      assert p.crl[i] == Field(p.crl, j)[x] && q.crl[i] == Field(q.crl, j)[x];
      assert p.crh[i] == Field(p.crh, j)[x] && q.crh[i] == Field(q.crh, j)[x];
    }
    assert p.crl == q.crl && p.crh == q.crh;
  }

  datatype Call = Call(mode: Mode, speed: Speed, pins: Word)

  ghost predicate Does(c: Call, before: Port, after: Port) {
    PinMask(c.pins) && Configured(before, after, c.mode, c.speed, c.pins)
  }

  predicate Disjoint(a: Word, b: Word) {
    And(a, b) == ZERO
  }

  /** The two calls leave a pin in the same configuration, pull direction included. */
  predicate Agree(a: Call, b: Call) {
    a.mode == b.mode && Nibble(a.mode, a.speed) == Nibble(b.mode, b.speed)
  }

  /** Only the two pulls share a nibble without being the same mode. */
  lemma NibbleTellsMode(m: Mode, s: Speed, m': Mode, s': Speed)
    requires Nibble(m, s) == Nibble(m', s') && m != m'
    ensures m in {IPD, IPU} && m' in {IPD, IPU}
  {
    var a, b := Nibble(m, s), Nibble(m', s');
    assert a[0] == b[0] && a[1] == b[1] && a[2] == b[2] && a[3] == b[3];
  }

  /** Two calls may be exchanged if and only if their pin masks are disjoint or they agree. */
  lemma CallsCommuteExactly(a: Call, b: Call, p: Port, p1: Port, p2: Port, q1: Port, q2: Port)
    requires Does(a, p, p1) && Does(b, p1, p2)
    requires Does(b, p, q1) && Does(a, q1, q2)
    ensures p2 == q2 <==> Disjoint(a.pins, b.pins) || Agree(a, b)
  {
    NonZero(a.pins, b.pins);
    if Disjoint(a.pins, b.pins) || Agree(a, b) {
      forall j | 0 <= j < 16 ensures PinMode(p2, j) == PinMode(q2, j) {
        assert PinMode(p1, j) == if a.pins[j] then Nibble(a.mode, a.speed) else PinMode(p, j);
        assert PinMode(q1, j) == if b.pins[j] then Nibble(b.mode, b.speed) else PinMode(p, j);
      }
      forall j | 0 <= j < 32 ensures p2.odr[j] == q2.odr[j] {
        assert p1.odr[j] == Output(a.mode, a.pins[j], p.odr[j]);
        assert q1.odr[j] == Output(b.mode, b.pins[j], p.odr[j]);
      }
      assert p2.odr == q2.odr;
      PortExtensional(p2, q2);
    } else {
      var j :| 0 <= j < 32 && a.pins[j] && b.pins[j];
      assert PinMode(p2, j) == Nibble(b.mode, b.speed) && PinMode(q2, j) == Nibble(a.mode, a.speed);
      if a.mode != b.mode && Nibble(a.mode, a.speed) == Nibble(b.mode, b.speed) {
        NibbleTellsMode(a.mode, a.speed, b.mode, b.speed);
        assert p2.odr[j] == Output(b.mode, true, p1.odr[j]) && q2.odr[j] == Output(a.mode, true, q1.odr[j]);
      }
    }
  }

  /** Any sequence of calls leaves each pin as its own last call set it. */
  ghost predicate DoesAll(calls: seq<Call>, ports: seq<Port>) {
    |ports| == |calls| + 1 && forall i :: 0 <= i < |calls| ==> Does(calls[i], ports[i], ports[i + 1])
  }

  lemma AllButLast(calls: seq<Call>, ports: seq<Port>)
    requires DoesAll(calls, ports) && calls != []
    ensures DoesAll(calls[..|calls| - 1], ports[..|calls|])
  {
    var c, p := calls[..|calls| - 1], ports[..|calls|];
    forall i | 0 <= i < |c| ensures Does(c[i], p[i], p[i + 1]) {
      assert Does(calls[i], ports[i], ports[i + 1]);
    }
  }

  lemma OneCall(c: Call, before: Port, after: Port, j: nat)
    requires Does(c, before, after) && j < 16
    ensures PinMode(after, j) == if c.pins[j] then Nibble(c.mode, c.speed) else PinMode(before, j)
  {
  }

  lemma {:induction false} LastCallWins(calls: seq<Call>, ports: seq<Port>, j: nat, last: int)
    requires DoesAll(calls, ports) && j < 16 && -1 <= last < |calls|
    requires last >= 0 ==> calls[last].pins[j]
    requires forall i :: last < i < |calls| ==> !calls[i].pins[j]
    ensures PinMode(ports[|calls|], j) ==
            if last < 0 then PinMode(ports[0], j) else Nibble(calls[last].mode, calls[last].speed)
    decreases |calls|
  {
    if calls != [] {
      var n := |calls| - 1;
      OneCall(calls[n], ports[n], ports[n + 1], j);
      if last < n {
        AllButLast(calls, ports);
        LastCallWins(calls[..n], ports[..n + 1], j, last);
      }
    }
  }

  predicate Pulls(c: Call, j: nat)
    requires j < 32
  {
    c.pins[j] && c.mode in {IPD, IPU}
  }

  lemma OnePull(c: Call, before: Port, after: Port, j: nat)
    requires Does(c, before, after) && j < 32
    ensures after.odr[j] == if Pulls(c, j) then c.mode == IPU else before.odr[j]
  {
  }

  /** And each output bit as the last pull-up or pull-down on its pin set it. */
  lemma {:induction false} LastPullWins(calls: seq<Call>, ports: seq<Port>, j: nat, last: int)
    requires DoesAll(calls, ports) && j < 32 && -1 <= last < |calls|
    requires last >= 0 ==> Pulls(calls[last], j)
    requires forall i :: last < i < |calls| ==> !Pulls(calls[i], j)
    ensures ports[|calls|].odr[j] == if last < 0 then ports[0].odr[j] else calls[last].mode == IPU
    decreases |calls|
  {
    if calls != [] {
      var n := |calls| - 1;
      OnePull(calls[n], ports[n], ports[n + 1], j);
      if last < n {
        AllButLast(calls, ports);
        LastPullWins(calls[..n], ports[..n + 1], j, last);
      }
    }
  }
}
