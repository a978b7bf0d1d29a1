module DmxTransmit {
  import opened Common
  import opened Pio

  /** The sixteen words of DmxOutput.pio.h: normal polarity at 0, inverted at 8. */
  const TX_WORDS: seq<nat> :=
    [0xf035, 0x0741, 0xbf42, 0x9fa0, 0xf327, 0x6001, 0x0245, 0x1f03,
     0xf835, 0x0749, 0xb742, 0x97a0, 0xfb27, 0x6001, 0x024d, 0x170b]

  /** One half of the assembly source, loaded at `base`. */
  function Listing(base: nat, high: bool, line: nat): Instr {
    match line
    case 0 => Instr(SetX(21), Some(!high), 0)
    case 1 => Instr(JmpXDec(base + 1), None, 7)
    case 2 => Instr(Nop, Some(high), 7)
    case 3 => Instr(PullBlock, Some(high), 7)
    case 4 => Instr(SetX(7), Some(!high), 3)
    case 5 => Instr(OutPin, None, 0)
    case 6 => Instr(JmpXDec(base + 5), None, 2)
    case 7 => Instr(JmpAlways(base + 3), Some(high), 7)
    case _ => Instr(Unused, None, 0)
  }

  function TxInstr(pc: nat): Instr {
    if pc < 8 then Listing(0, true, pc) else Listing(8, false, pc - 8)
  }

  /** The emitted words are the assembly source: the machine below may run the source. */
  lemma WordsMatchSource(pc: nat)
    requires pc < 16
    ensures Decode(TX_WORDS[pc], true) == TxInstr(pc)
  {
    if pc < 8 { FirstHalfMatches(pc); } else { SecondHalfMatches(pc); }
  }

  lemma FirstHalfMatches(pc: nat)
    requires pc < 8
    ensures Decode(TX_WORDS[pc], true) == Listing(0, true, pc)
  {
    match pc
    case 0 => assert Decode(0xf035, true) == Instr(SetX(21), Some(false), 0);
    case 1 => assert Decode(0x0741, true) == Instr(JmpXDec(1), None, 7);
    case 2 => assert Decode(0xbf42, true) == Instr(Nop, Some(true), 7);
    case 3 => assert Decode(0x9fa0, true) == Instr(PullBlock, Some(true), 7);
    case 4 => assert Decode(0xf327, true) == Instr(SetX(7), Some(false), 3);
    case 5 => assert Decode(0x6001, true) == Instr(OutPin, None, 0);
    case 6 => assert Decode(0x0245, true) == Instr(JmpXDec(5), None, 2);
    case 7 => assert Decode(0x1f03, true) == Instr(JmpAlways(3), Some(true), 7);
  }

  lemma SecondHalfMatches(pc: nat)
    requires 8 <= pc < 16
    ensures Decode(TX_WORDS[pc], true) == Listing(8, false, pc - 8)
  {
    match pc
    case 8 => assert Decode(0xf835, true) == Instr(SetX(21), Some(true), 0);
    case 9 => assert Decode(0x0749, true) == Instr(JmpXDec(9), None, 7);
    case 10 => assert Decode(0xb742, true) == Instr(Nop, Some(false), 7);
    case 11 => assert Decode(0x97a0, true) == Instr(PullBlock, Some(false), 7);
    case 12 => assert Decode(0xfb27, true) == Instr(SetX(7), Some(true), 3);
    case 13 => assert Decode(0x6001, true) == Instr(OutPin, None, 0);
    case 14 => assert Decode(0x024d, true) == Instr(JmpXDec(13), None, 2);
    case 15 => assert Decode(0x170b, true) == Instr(JmpAlways(11), Some(false), 7);
  }

  /** One cycle of the transmitting state machine; the program wraps from 15 to 0. */
  function TxStep(s: Sm, tx: Option<Word>): (e: Effect)
    ensures e.pulled ==> tx.Some?
  {
    Cycle(TxInstr(s.pc), if s.pc == 15 then 0 else s.pc + 1, s, false, tx)
  }

  /** Where a transmission stands.  `j` counts the cycles already spent in a stretch. */
  datatype Phase =
    | Start
    | Break(left: nat, j: nat)
    | Mark(j: nat)
    | Idle
    | Lead(word: Word, j: nat)
    | StartBit(word: Word, j: nat)
    | Data(word: Word, k: nat, j: nat)
    | Stop(word: Word, j: nat)

  predicate PhaseLevel(inverted: bool, ph: Phase) {
    match ph
    case Start => inverted
    case Break(_, _) => inverted
    case StartBit(_, _) => inverted
    case Data(w, k, _) => Bit(w, k)
    case _ => !inverted
  }

  /** The phase one cycle later; only an idle transmitter looks at its FIFO. */
  function NextPhase(ph: Phase, tx: Option<Word>): Phase {
    match ph
    case Start => Break(21, 0)
    case Break(left, j) => if j < 7 then Break(left, j + 1) else if left > 0 then Break(left - 1, 0) else Mark(0)
    case Mark(j) => if j < 7 then Mark(j + 1) else Idle
    case Idle => if tx.None? then Idle else Lead(tx.value, 1)
    case Lead(w, j) => if j < 7 then Lead(w, j + 1) else StartBit(w, 0)
    case StartBit(w, j) => if j < 3 then StartBit(w, j + 1) else Data(w, 0, 0)
    case Data(w, k, j) => if j < 3 then Data(w, k, j + 1) else if k < 7 then Data(w, k + 1, 0) else Stop(w, 0)
    case Stop(w, j) => if j < 7 then Stop(w, j + 1) else Idle
  }

  /** The registers of the state machine in each phase. */
  ghost predicate Represents(inverted: bool, s: Sm, ph: Phase) {
    var base := if inverted then 8 else 0;
    match ph
    case Start => s.pc == base && s.delay == 0
    case Break(left, j) =>
      left <= 21 && j < 8 && s.pin == inverted &&
      if j == 0 then s.pc == base + 1 && s.delay == 0 && s.x == left
      else s.delay == 8 - j && if left > 0 then s.pc == base + 1 && s.x == left - 1 else s.pc == base + 2
    case Mark(j) =>
      j < 8 && if j == 0 then s.pc == base + 2 && s.delay == 0
      else s.pc == base + 3 && s.delay == 8 - j && s.pin == !inverted
    case Idle => s.pc == base + 3 && s.delay == 0
    case Lead(w, j) => 0 < j < 8 && s.pc == base + 4 && s.delay == 8 - j && s.osr == w && s.pin == !inverted
    case StartBit(w, j) =>
      j < 4 && s.osr == w &&
      if j == 0 then s.pc == base + 4 && s.delay == 0
      else s.pc == base + 5 && s.delay == 4 - j && s.x == 7 && s.pin == inverted
    case Data(w, k, j) =>
      k < 8 && j < 4 &&
      if j == 0 then s.pc == base + 5 && s.delay == 0 && s.x == 7 - k && s.osr == Shr(w, k)
      else
        s.pin == Bit(w, k) && s.osr == Shr(w, k + 1) &&
        if j == 1 then s.pc == base + 6 && s.delay == 0 && s.x == 7 - k
        else s.delay == 4 - j && if k < 7 then s.pc == base + 5 && s.x == 6 - k else s.pc == base + 7
    case Stop(w, j) =>
      j < 8 && if j == 0 then s.pc == base + 7 && s.delay == 0
      else s.pc == base + 3 && s.delay == 8 - j && s.pin == !inverted
  }

  lemma StepRefinesData(inverted: bool, s: Sm, ph: Phase, tx: Option<Word>)
    requires Represents(inverted, s, ph) && ph.Data?
    ensures var e := TxStep(s, tx);
            Represents(inverted, e.sm, NextPhase(ph, tx)) && e.sm.pin == PhaseLevel(inverted, ph) && !e.pulled
  {
    if ph.j == 0 {
      assert TxInstr(s.pc).op == OutPin;
    } else if ph.j == 1 {
      assert TxInstr(s.pc).op.JmpXDec?;
    }
  }

  /** The program refines the phases, cycle by cycle. */
  lemma StepRefinesPhase(inverted: bool, s: Sm, ph: Phase, tx: Option<Word>)
    requires Represents(inverted, s, ph)
    ensures var e := TxStep(s, tx);
            && Represents(inverted, e.sm, NextPhase(ph, tx))
            && e.sm.pin == PhaseLevel(inverted, ph)
            && e.pulled == (ph.Idle? && tx.Some?)
  {
    if ph.Data? {
      StepRefinesData(inverted, s, ph, tx);
    }
  }

  // ---------------------------------------------------------------------------------------
  // The transmitter: a sequencer, the four-deep TX FIFO and the DMA channel that feeds it.

  const FIFO_DEPTH := 4

  /** A word taken by PULL, and the cycle in which the PULL completed. */
  datatype Pull = Pull(at: nat, word: Word)

  /** `m` is the sequencer: the state machine, or the phase it stands for.  `src` holds what the
      DMA channel still has to move; `now` counts the cycles since the last WriteDmx and `log`
      the words taken since then. */
  datatype Tx<M> = Tx(m: M, fifo: seq<Word>, src: seq<Word>, now: nat, log: seq<Pull>) {
    predicate Busy() {
      src != [] || fifo != []
    }

    function Head(): Option<Word> {
      if fifo == [] then None else Some(fifo[0])
    }

    /** The sequencer moves to m2, taking the head of the FIFO when `pulled`; then the DMA channel
        moves a word if it is granted the bus and there is room. */
    function Advance(m2: M, pulled: bool, grant: bool): Tx<M>
      requires pulled ==> fifo != []
    {
      var fifo1 := if pulled then fifo[1..] else fifo;
      var log1 := if pulled then log + [Pull(now, fifo[0])] else log;
      if grant && src != [] && |fifo1| < FIFO_DEPTH then Tx(m2, fifo1 + [src[0]], src[1..], now + 1, log1)
      else Tx(m2, fifo1, src, now + 1, log1)
    }
  }

  function TxCycle(t: Tx<Sm>, grant: bool): Tx<Sm> {
    var e := TxStep(t.m, t.Head());
    t.Advance(e.sm, e.pulled, grant)
  }

  function PhaseCycle(t: Tx<Phase>, grant: bool): Tx<Phase> {
    t.Advance(NextPhase(t.m, t.Head()), t.m.Idle? && t.fifo != [], grant)
  }

  /** `write_dmx`: the state machine restarts at its entry point and the DMA channel is given
      the universe.  The TX FIFO keeps what it held. */
  function WriteDmx(inverted: bool, t: Tx<Sm>, universe: seq<Word>): Tx<Sm> {
    Tx(t.m.(pc := if inverted then 8 else 0, delay := 0, isr := 0), t.fifo, universe, 0, [])
  }

  /** The transmitter n cycles later, under the bus grants of an arbitrary schedule. */
  function TxAt(t: Tx<Sm>, grants: nat -> bool, n: nat): Tx<Sm> {
    if n == 0 then t else TxCycle(TxAt(t, grants, n - 1), grants(n - 1))
  }

  function PhaseAt(t: Tx<Phase>, grants: nat -> bool, n: nat): Tx<Phase> {
    if n == 0 then t else PhaseCycle(PhaseAt(t, grants, n - 1), grants(n - 1))
  }

  /** The level on the line in cycle c. */
  predicate Line(t: Tx<Sm>, grants: nat -> bool, c: nat) {
    TxAt(t, grants, c + 1).m.pin
  }

  ghost predicate Refines(inverted: bool, t: Tx<Sm>, a: Tx<Phase>) {
    && Represents(inverted, t.m, a.m)
    && t.fifo == a.fifo && t.src == a.src && t.now == a.now && t.log == a.log
  }

  function Abstract(t: Tx<Sm>): Tx<Phase> {
    Tx(Start, t.fifo, t.src, 0, [])
  }

  lemma CycleRefines(inverted: bool, t: Tx<Sm>, a: Tx<Phase>, grant: bool)
    requires Refines(inverted, t, a)
    ensures Refines(inverted, TxCycle(t, grant), PhaseCycle(a, grant))
    ensures TxCycle(t, grant).m.pin == PhaseLevel(inverted, a.m)
  {
    StepRefinesPhase(inverted, t.m, a.m, t.Head());
  }

  lemma {:induction false} RunRefines(inverted: bool, t: Tx<Sm>, grants: nat -> bool, n: nat)
    requires Refines(inverted, t, Abstract(t))
    ensures Refines(inverted, TxAt(t, grants, n), PhaseAt(Abstract(t), grants, n))
    ensures Line(t, grants, n) == PhaseLevel(inverted, PhaseAt(Abstract(t), grants, n).m)
  {
    hide TxCycle, PhaseCycle, Represents, PhaseLevel;
    if n > 0 {
      RunRefines(inverted, t, grants, n - 1);
      CycleRefines(inverted, TxAt(t, grants, n - 1), PhaseAt(Abstract(t), grants, n - 1), grants(n - 1));
    }
    CycleRefines(inverted, TxAt(t, grants, n), PhaseAt(Abstract(t), grants, n), grants(n));
  }
}
