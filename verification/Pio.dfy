/**
  The slice of the RP2040 programmable I/O block that the two DMX programs use.

  A state machine is stepped once per cycle of its divided clock (1 MHz for both DMX
  programs).  Programs are given as the 16-bit instruction words the assembler emitted;
  `Decode` takes them apart.  Hardware facts taken as given: a side-set value is applied
  in the first cycle of an instruction, also when that instruction stalls; the delay of an
  instruction is counted after its stall, if any, has cleared; OUT and IN shift right.
 */
module Pio {
  import opened Common

  /** A 32-bit shift register or FIFO entry. */
  type Word = w: int | 0 <= w < 0x1_0000_0000

  datatype Op =
    | SetX(value: nat)
    | JmpAlways(target: nat)
    | JmpXDec(target: nat)
    | JmpPin(target: nat)
    | WaitPin(level: bool)
    | InPin
    | InNull24
    | OutPin
    | PullBlock
    | PushBlock
    | Nop
    | Unused

  datatype Instr = Instr(op: Op, side: Option<bool>, delay: nat)

  function DecodeOp(major: nat, arg: nat): Op {
    match major
    case 0 =>
      if arg / 32 == 0 then JmpAlways(arg % 32)
      else if arg / 32 == 2 then JmpXDec(arg % 32)
      else if arg / 32 == 6 then JmpPin(arg % 32)
      else Unused
    case 1 => if arg == 0x20 then WaitPin(false) else if arg == 0xa0 then WaitPin(true) else Unused
    case 2 => if arg == 0x01 then InPin else if arg == 0x78 then InNull24 else Unused
    case 3 => if arg == 0x01 then OutPin else Unused
    case 4 => if arg == 0xa0 then PullBlock else if arg == 0x20 then PushBlock else Unused
    case 5 => if arg == 0x42 then Nop else Unused
    case 7 => if arg / 32 == 1 then SetX(arg % 32) else Unused
    case _ => Unused
  }

  /** Takes an instruction word apart.  With `sideSet`, the top bit of the delay field
      enables a one-bit side-set, which leaves three bits of delay. */
  function Decode(word: nat, sideSet: bool): Instr {
    var field := word / 256 % 32;
    Instr(
      DecodeOp(word / 8192, word % 256),
      if sideSet && field / 16 == 1 then Some(field / 8 % 2 == 1) else None,
      if sideSet then field % 8 else field)
  }

  /** The registers of one state machine.  `delay` counts the idle cycles still owed;
      `pin` is the level the machine drives. */
  datatype Sm = Sm(pc: nat, x: nat, osr: Word, isr: Word, delay: nat, pin: bool)

  /** What one cycle did: the new registers, whether a TX FIFO word was consumed, and the
      word pushed to the RX FIFO, if any. */
  datatype Effect = Effect(sm: Sm, pulled: bool, pushed: Option<Word>)

  /** Executes instruction i; `next` is where the program counter goes by itself. */
  function Execute(i: Instr, next: nat, s: Sm, input: bool, tx: Option<Word>): Effect {
    var s1 := if i.side.Some? then s.(pin := i.side.value) else s;
    var done := s1.(pc := next, delay := i.delay);
    match i.op
    case SetX(v) => Effect(done.(x := v), false, None)
    case JmpAlways(t) => Effect(done.(pc := t), false, None)
    case JmpXDec(t) =>
      Effect(done.(pc := if s.x != 0 then t else next,
                   x := if s.x == 0 then 0xffff_ffff else s.x - 1), false, None)
    case JmpPin(t) => Effect(if input then done.(pc := t) else done, false, None)
    case WaitPin(level) => Effect(if input == level then done else s1, false, None)
    case InPin => Effect(done.(isr := ShiftIn(s.isr, input)), false, None)
    case InNull24 => Effect(done.(isr := s.isr / 0x100_0000), false, None)
    case OutPin => Effect(done.(pin := s.osr % 2 == 1, osr := s.osr / 2), false, None)
    case PullBlock =>
      if tx.None? then Effect(s1, false, None)
      else Effect(done.(osr := tx.value), true, None)
    case PushBlock => Effect(done.(isr := 0), false, Some(s.isr))
    case Nop => Effect(done, false, None)
    case Unused => Effect(s1, false, None)
  }

  /** One bit shifted in from the left. */
  function ShiftIn(isr: Word, bit: bool): Word {
    isr / 2 + if bit then 0x8000_0000 else 0
  }

  /** One clock cycle: a delay cycle, or instruction i. */
  function Cycle(i: Instr, next: nat, s: Sm, input: bool, tx: Option<Word>): (e: Effect)
    ensures e.pulled ==> tx.Some?
  {
    if s.delay > 0 then Effect(s.(delay := s.delay - 1), false, None)
    else Execute(i, next, s, input, tx)
  }

  /** `w` shifted right by `k` places: what an OSR holds after `k` OUTs of one bit. */
  function Shr(w: Word, k: nat): Word {
    if k == 0 then w else Shr(w, k - 1) / 2
  }

  /** Bit `k` of `w`, least significant first. */
  predicate Bit(w: Word, k: nat) {
    Shr(w, k) % 2 == 1
  }

  /** The byte in the low eight bits of a FIFO word. */
  function LowByte(w: Word): Byte {
    w % 256
  }
}
