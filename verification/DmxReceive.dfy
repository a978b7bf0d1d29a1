/**
  The receiver program: a break detector, then a byte receiver that samples each bit once.
  Levels are given per tick of the receiver's own clock, as a function of the tick number.
 */
module DmxReceive {
  import opened Common
  import opened Pio
  import opened Bits

  /** The eleven words of DmxInput.pio.h: break detector 0-3, byte receiver 4-10. */
  const RX_WORDS: seq<nat> :=
    [0xe03d, 0x00c0, 0x0141, 0x20a0, 0x2020, 0xe427, 0x4001, 0x0246, 0x20a0, 0x4078, 0x8020]

  function RxInstr(pc: nat): Instr {
    match pc
    case 0 => Instr(SetX(29), None, 0)
    case 1 => Instr(JmpPin(0), None, 0)
    case 2 => Instr(JmpXDec(1), None, 1)
    case 3 => Instr(WaitPin(true), None, 0)
    case 4 => Instr(WaitPin(false), None, 0)
    case 5 => Instr(SetX(7), None, 4)
    case 6 => Instr(InPin, None, 0)
    case 7 => Instr(JmpXDec(6), None, 2)
    case 8 => Instr(WaitPin(true), None, 0)
    case 9 => Instr(InNull24, None, 0)
    case 10 => Instr(PushBlock, None, 0)
    case _ => Instr(Unused, None, 0)
  }

  lemma WordsMatchSource(pc: nat)
    requires pc < 11
    ensures Decode(RX_WORDS[pc], false) == RxInstr(pc)
  {
    match pc
    case 0 => assert Decode(0xe03d, false) == Instr(SetX(29), None, 0);
    case 1 => assert Decode(0x00c0, false) == Instr(JmpPin(0), None, 0);
    case 2 => assert Decode(0x0141, false) == Instr(JmpXDec(1), None, 1);
    case 3 => assert Decode(0x20a0, false) == Instr(WaitPin(true), None, 0);
    case 4 => assert Decode(0x2020, false) == Instr(WaitPin(false), None, 0);
    case 5 => assert Decode(0xe427, false) == Instr(SetX(7), None, 4);
    case 6 => assert Decode(0x4001, false) == Instr(InPin, None, 0);
    case 7 => assert Decode(0x0246, false) == Instr(JmpXDec(6), None, 2);
    case 8 => assert Decode(0x20a0, false) == Instr(WaitPin(true), None, 0);
    case 9 => assert Decode(0x4078, false) == Instr(InNull24, None, 0);
    case 10 => assert Decode(0x8020, false) == Instr(PushBlock, None, 0);
  }

  /** The receiver, with everything it has pushed. */
  datatype Rx = Rx(sm: Sm, got: seq<Word>)

  /** One tick; the program wraps from 10 to 4, past the break detector. */
  function RxCycle(r: Rx, level: bool): Rx {
    var e := Cycle(RxInstr(r.sm.pc), if r.sm.pc == 10 then 4 else r.sm.pc + 1, r.sm, level, None);
    Rx(e.sm, if e.pushed.Some? then r.got + [e.pushed.value] else r.got)
  }

  function RxAt(r: Rx, tick: nat -> bool, n: nat): Rx {
    if n == 0 then r else RxCycle(RxAt(r, tick, n - 1), tick(n - 1))
  }

  /** What the interrupt handler and read_async do: jump to the program start.  The registers
      keep their contents. */
  function Rearm(r: Rx): Rx {
    r.(sm := r.sm.(pc := 0, delay := 0))
  }

  // ---------------------------------------------------------------------------------------
  // The receiver in phases.

  datatype Phase =
    | Arm
    | Sample(left: nat)
    | Low(left: nat)
    | LowTail(left: nat)
    | Mark
    | Hunt
    | Centre(j: nat)
    | Take(k: nat)
    | Loop(k: nat, j: nat)
    | StopBit
    | Align
    | Push

  datatype Listener = Listener(ph: Phase, isr: Word, got: seq<Word>)

  function Listen(l: Listener, level: bool): Listener {
    match l.ph
    case Arm => l.(ph := Sample(29))
    case Sample(x) => l.(ph := if level then Arm else Low(x))
    case Low(x) => l.(ph := LowTail(x))
    case LowTail(x) => l.(ph := if x > 0 then Sample(x - 1) else Mark)
    case Mark => if level then l.(ph := Hunt) else l
    case Hunt => if level then l else l.(ph := Centre(0))
    case Centre(j) => l.(ph := if j < 4 then Centre(j + 1) else Take(0))
    case Take(k) => l.(ph := Loop(k, 0), isr := ShiftIn(l.isr, level))
    case Loop(k, j) => l.(ph := if j < 2 then Loop(k, j + 1) else if k < 7 then Take(k + 1) else StopBit)
    case StopBit => if level then l.(ph := Align) else l
    case Align => l.(ph := Push, isr := l.isr / 0x100_0000)
    case Push => Listener(Hunt, 0, l.got + [l.isr])
  }

  ghost predicate Represents(s: Sm, ph: Phase) {
    match ph
    case Arm => s.pc == 0 && s.delay == 0
    case Sample(x) => s.pc == 1 && s.delay == 0 && s.x == x
    case Low(x) => s.pc == 2 && s.delay == 0 && s.x == x
    case LowTail(x) => s.delay == 1 && if x > 0 then s.pc == 1 && s.x == x - 1 else s.pc == 3
    case Mark => s.pc == 3 && s.delay == 0
    case Hunt => s.pc == 4 && s.delay == 0
    case Centre(j) =>
      j <= 4 && if j == 0 then s.pc == 5 && s.delay == 0 else s.pc == 6 && s.delay == 5 - j && s.x == 7
    case Take(k) => k < 8 && s.pc == 6 && s.delay == 0 && s.x == 7 - k
    case Loop(k, j) =>
      k < 8 && j < 3 && if j == 0 then s.pc == 7 && s.delay == 0 && s.x == 7 - k
      else s.delay == 3 - j && if k < 7 then s.pc == 6 && s.x == 6 - k else s.pc == 8
    case StopBit => s.pc == 8 && s.delay == 0
    case Align => s.pc == 9 && s.delay == 0
    case Push => s.pc == 10 && s.delay == 0
  }

  ghost predicate Refines(r: Rx, l: Listener) {
    Represents(r.sm, l.ph) && r.sm.isr == l.isr && r.got == l.got
  }

  lemma DetectorRefines(r: Rx, l: Listener, level: bool)
    requires Refines(r, l)
    requires l.ph.Arm? || l.ph.Sample? || l.ph.Low? || l.ph.LowTail? || l.ph.Mark? || l.ph.Hunt?
    ensures Refines(RxCycle(r, level), Listen(l, level))
  {
  }

  lemma ByteRefines(r: Rx, l: Listener, level: bool)
    requires Refines(r, l)
    requires l.ph.Centre? || l.ph.Take? || l.ph.Loop? || l.ph.StopBit? || l.ph.Align? || l.ph.Push?
    ensures Refines(RxCycle(r, level), Listen(l, level))
  {
  }

  /** The program refines the phases, tick by tick. */
  lemma CycleRefines(r: Rx, l: Listener, level: bool)
    requires Refines(r, l)
    ensures Refines(RxCycle(r, level), Listen(l, level))
  {
    if l.ph.Arm? || l.ph.Sample? || l.ph.Low? || l.ph.LowTail? || l.ph.Mark? || l.ph.Hunt? {
      DetectorRefines(r, l, level);
    } else {
      ByteRefines(r, l, level);
    }
    hide RxCycle, Refines, Listen;
  }

  function ListenAt(l: Listener, tick: nat -> bool, n: nat): Listener {
    if n == 0 then l else Listen(ListenAt(l, tick, n - 1), tick(n - 1))
  }

  lemma {:induction false} RunRefines(r: Rx, l: Listener, tick: nat -> bool, n: nat)
    requires Refines(r, l)
    ensures Refines(RxAt(r, tick, n), ListenAt(l, tick, n))
  {
    if n > 0 {
      RunRefines(r, l, tick, n - 1);
      CycleRefines(RxAt(r, tick, n - 1), ListenAt(l, tick, n - 1), tick(n - 1));
      hide RxCycle, Listen, Represents;
    }
  }

  // ---------------------------------------------------------------------------------------
  // One byte.

  /** The shift register after k bits of w came in over an old content. */
  function Packed(isr: Word, w: Word, k: nat): Word {
    if k == 0 then isr else ShiftIn(Packed(isr, w, k - 1), Bit(w, k - 1))
  }

  /** Whatever the register held before, eight bits and 24 places later it is the byte. */
  lemma PackedByte(isr: Word, w: Word)
    ensures Packed(isr, w, 8) / 0x100_0000 == LowByte(w)
  {
    var rest := PackedSum(isr, w, 8);
    BitSum(w, 8);
    Pow2Words();
    DivModUnique(Packed(isr, w, 8), 0x100_0000, Value(w, 8), rest);
    DivModUnique(w, 256, Shr(w, 8), Value(w, 8));
  }

  lemma {:induction false} PackedSum(isr: Word, w: Word, k: nat) returns (rest: nat)
    requires k <= 8
    ensures rest < Pow2(32 - k) && Packed(isr, w, k) == Value(w, k) * Pow2(32 - k) + rest
  {
    Pow2Words();
    if k == 0 {
      rest := isr;
    } else {
      var r := PackedSum(isr, w, k - 1);
      rest := r / 2;
      PowAdd(k - 1, 32 - k);
      assert Pow2(32 - (k - 1)) == 2 * Pow2(32 - k);
      hide Pow2;
      PackStep(Value(w, k - 1), Pow2(32 - k), Pow2(k - 1), r, Packed(isr, w, k - 1), Bit(w, k - 1));
    }
  }

  lemma Pow2Words()
    ensures Pow2(8) == 256 && Pow2(24) == 0x100_0000 && Pow2(31) == 0x8000_0000 && Pow2(32) == 0x1_0000_0000
  {
    PowAdd(4, 4);
    PowAdd(8, 8);
    PowAdd(16, 8);
    PowAdd(4, 3);
    PowAdd(24, 7);
    PowAdd(24, 8);
  }

  /** One shift: v over 2 * p with remainder r becomes v or v + q over p. */
  lemma PackStep(v: nat, p: nat, q: nat, r: nat, packed: Word, bit: bool)
    requires packed == v * (2 * p) + r && r < 2 * p && q * p == 0x8000_0000
    ensures r / 2 < p
    ensures ShiftIn(packed, bit) == (v + if bit then q else 0) * p + r / 2
  {
    assert v * (2 * p) == 2 * (v * p);
    assert packed / 2 == v * p + r / 2;
    assert (v + q) * p == v * p + q * p;
  }

  lemma Tick(l: Listener, tick: nat -> bool, n: nat)
    ensures ListenAt(l, tick, n + 1) == Listen(ListenAt(l, tick, n), tick(n))
  {
  }

  lemma CentreOnBits(l: Listener, tick: nat -> bool, n: nat)
    requires ListenAt(l, tick, n).ph == Hunt && !tick(n)
    ensures ListenAt(l, tick, n + 6) == ListenAt(l, tick, n).(ph := Take(0))
  {
    hide ListenAt;
    Tick(l, tick, n);
    Tick(l, tick, n + 1);
    Tick(l, tick, n + 2);
    Tick(l, tick, n + 3);
    Tick(l, tick, n + 4);
    Tick(l, tick, n + 5);
  }

  lemma TakeOneBit(l: Listener, tick: nat -> bool, n: nat, k: nat)
    requires ListenAt(l, tick, n).ph == Take(k)
    ensures var l0 := ListenAt(l, tick, n);
            ListenAt(l, tick, n + 4) ==
            l0.(ph := if k < 7 then Take(k + 1) else StopBit, isr := ShiftIn(l0.isr, tick(n)))
  {
    hide ListenAt, ShiftIn;
    Tick(l, tick, n);
    Tick(l, tick, n + 1);
    Tick(l, tick, n + 2);
    Tick(l, tick, n + 3);
  }

  /** Seen from the tick n that saw the start edge, bit k is sampled at tick n + 6 + 4 * k. */
  ghost predicate Samples(tick: nat -> bool, n: nat, w: Word) {
    forall k: nat :: k < 8 ==> tick(n + 6 + 4 * k) == Bit(w, k)
  }

  lemma {:induction false} TakeBits(l: Listener, tick: nat -> bool, n: nat, w: Word, k: nat)
    requires ListenAt(l, tick, n).ph == Hunt && !tick(n) && Samples(tick, n, w) && k <= 8
    ensures var l0 := ListenAt(l, tick, n);
            ListenAt(l, tick, n + 6 + 4 * k) ==
            l0.(ph := if k < 8 then Take(k) else StopBit, isr := Packed(l0.isr, w, k))
  {
    hide ListenAt, Bit, ShiftIn;
    if k == 0 {
      CentreOnBits(l, tick, n);
    } else {
      TakeBits(l, tick, n, w, k - 1);
      TakeOneBit(l, tick, n + 6 + 4 * (k - 1), k - 1);
      assert tick(n + 6 + 4 * (k - 1)) == Bit(w, k - 1);
    }
  }

  /** One slot, whatever the shift register held: if the samples carry the bits of w and a stop bit
      is seen when it is looked for, or a tick later, the low byte of w is pushed. */
  lemma ReceiveByte(l: Listener, tick: nat -> bool, n: nat, w: Word) returns (m: nat)
    requires ListenAt(l, tick, n).ph == Hunt && !tick(n) && Samples(tick, n, w)
    requires tick(n + 38) || tick(n + 39)
    ensures n + 41 <= m <= n + 42
    ensures ListenAt(l, tick, m) == Listener(Hunt, 0, ListenAt(l, tick, n).got + [LowByte(w)])
  {
    hide ListenAt, Packed, LowByte, Samples;
    TakeBits(l, tick, n, w, 8);
    PackedByte(ListenAt(l, tick, n).isr, w);
    if !tick(n + 38) { Tick(l, tick, n + 38); }
    var s := if tick(n + 38) then n + 38 else n + 39;
    Tick(l, tick, s);
    Tick(l, tick, s + 1);
    Tick(l, tick, s + 2);
    m := s + 3;
  }

  /** The first byte pushed has its top bit from the sample at tick 34, whatever the others were. */
  lemma {:induction false} FirstByteTopBit(l: Listener, tick: nat -> bool, m: nat)
    requires l.ph == Hunt && l.got == [] && !tick(0)
    ensures var got := ListenAt(l, tick, m).got; got == [] || (got[0] >= 0x80 <==> tick(34))
    decreases m
  {
    var l38 := EighthSample(l, tick);
    if m <= 38 {
      GotGrows(l, tick, m, 38);
    } else {
      AfterEighthSample(l, tick, m);
    }
  }

  lemma {:induction false} GotGrows(l: Listener, tick: nat -> bool, n: nat, m: nat)
    requires n <= m
    ensures ListenAt(l, tick, n).got <= ListenAt(l, tick, m).got
    decreases m
  {
    if n < m {
      GotGrows(l, tick, n, m - 1);
    }
  }

  lemma {:induction false} SamplesPushNothing(l: Listener, tick: nat -> bool, k: nat)
    requires l.ph == Hunt && l.got == [] && !tick(0) && k < 8
    ensures ListenAt(l, tick, 6 + 4 * k).ph == Take(k) && ListenAt(l, tick, 6 + 4 * k).got == []
  {
    hide ShiftIn, Listen;
    if k == 0 {
      CentreOnBits(l, tick, 0);
    } else {
      SamplesPushNothing(l, tick, k - 1);
      TakeOneBit(l, tick, 6 + 4 * (k - 1), k - 1);
    }
  }

  lemma EighthSample(l: Listener, tick: nat -> bool) returns (l38: Listener)
    requires l.ph == Hunt && l.got == [] && !tick(0)
    ensures l38 == ListenAt(l, tick, 38) && l38.ph == StopBit && l38.got == []
    ensures l38.isr >= 0x8000_0000 <==> tick(34)
  {
    hide ListenAt;
    SamplesPushNothing(l, tick, 7);
    TakeOneBit(l, tick, 34, 7);
    l38 := ListenAt(l, tick, 38);
  }

  lemma {:induction false} AfterEighthSample(l: Listener, tick: nat -> bool, m: nat)
    requires l.ph == Hunt && l.got == [] && !tick(0) && m >= 38
    ensures var lm := ListenAt(l, tick, m);
            if lm.got == [] then
              ((lm.ph.StopBit? || lm.ph.Align?) && (lm.isr >= 0x8000_0000 <==> tick(34)))
              || (lm.ph.Push? && (lm.isr >= 0x80 <==> tick(34)))
            else lm.got[0] >= 0x80 <==> tick(34)
    decreases m
  {
    if m == 38 {
      var _ := EighthSample(l, tick);
    } else {
      AfterEighthSample(l, tick, m - 1);
    }
  }

  /** Waiting for a start edge costs nothing. */
  lemma {:induction false} WaitForEdge(l: Listener, tick: nat -> bool, n: nat, m: nat)
    requires ListenAt(l, tick, n).ph == Hunt && n <= m
    requires forall i: nat :: n <= i < m ==> tick(i)
    ensures ListenAt(l, tick, m) == ListenAt(l, tick, n)
    decreases m
  {
    if n < m {
      WaitForEdge(l, tick, n, m - 1);
    }
  }

  /** Waiting for the mark after a break. */
  lemma {:induction false} WaitForMark(l: Listener, tick: nat -> bool, n: nat, m: nat)
    requires ListenAt(l, tick, n).ph == Mark && n <= m
    requires AllLow(tick, n, m)
    ensures ListenAt(l, tick, m) == ListenAt(l, tick, n)
    decreases m
  {
    if n < m {
      WaitForMark(l, tick, n, m - 1);
    }
  }

  lemma MarkEndsBreak(l: Listener, tick: nat -> bool, n: nat, m: nat)
    requires ListenAt(l, tick, n).ph == Mark && n <= m
    requires AllLow(tick, n, m) && tick(m)
    ensures ListenAt(l, tick, m + 1) == ListenAt(l, tick, n).(ph := Hunt)
  {
    WaitForMark(l, tick, n, m);
  }

  // ---------------------------------------------------------------------------------------
  // The break detector.

  predicate Watching(ph: Phase) {
    ph.Arm? || ph.Sample? || ph.Low? || ph.LowTail?
  }

  ghost predicate AllLow(tick: nat -> bool, from: int, to: int) {
    forall i: nat :: from <= i < to ==> !tick(i)
  }

  /** No mark that begins right after tick i is over within two ticks. */
  ghost predicate LongMarkAfter(tick: nat -> bool, i: nat) {
    !tick(i) ==> (!tick(i + 2) ==> !tick(i + 1)) && (!tick(i + 3) ==> !tick(i + 1) && !tick(i + 2))
  }

  /** Every mark between two low levels lasts at least three ticks. */
  ghost predicate LongMarks(tick: nat -> bool) {
    forall i: nat :: LongMarkAfter(tick, i)
  }

  ghost predicate LowRun(tick: nat -> bool, a: nat, len: nat) {
    AllLow(tick, a, a + len)
  }

  /** The same, as far as ticks before n show. */
  ghost predicate LongMarksBefore(tick: nat -> bool, n: nat) {
    forall i: nat :: i + 3 < n ==> LongMarkAfter(tick, i)
  }

  /** The line was low for `len` ticks on end, the last of them at least three ticks ago. */
  ghost predicate Heard(tick: nat -> bool, n: nat, len: nat) {
    exists a: nat :: LowRun(tick, a, len) && a + len + 2 <= n
  }

  /** While watching: how many samples were low so far, three ticks apart, and nothing between
      them was high. */
  ghost predicate Counted(tick: nat -> bool, n: nat, ph: Phase) {
    match ph
    case Arm => true
    case Sample(x) => x <= 29 && n >= 3 * (29 - x) && AllLow(tick, n - 3 * (29 - x), n - 2)
    case Low(x) => x <= 29 && n >= 3 * (29 - x) + 1 && AllLow(tick, n - 1 - 3 * (29 - x), n)
    case LowTail(x) => x <= 29 && n >= 3 * (29 - x) + 2 && AllLow(tick, n - 2 - 3 * (29 - x), n - 1)
    case _ => Heard(tick, n, 88)
  }

  lemma CountedStep(tick: nat -> bool, n: nat, l: Listener)
    requires LongMarksBefore(tick, n + 1) && Counted(tick, n, l.ph)
    ensures Counted(tick, n + 1, Listen(l, tick(n)).ph)
  {
    match l.ph
    case Sample(x) =>
      if x < 29 { assert LongMarkAfter(tick, n - 3); }
    case LowTail(x) =>
      if x == 0 { assert LowRun(tick, n - 89, 88); }
    case Arm =>
    case Low(_) =>
    case _ =>
      var a: nat :| LowRun(tick, a, 88) && a + 88 + 2 <= n;
      assert LowRun(tick, a, 88) && a + 88 + 2 <= n + 1;
  }

  lemma {:induction false} CountedRun(l: Listener, tick: nat -> bool, n: nat)
    requires LongMarksBefore(tick, n) && l.ph == Arm
    ensures Counted(tick, n, ListenAt(l, tick, n).ph)
  {
    if n > 0 {
      CountedRun(l, tick, n - 1);
      CountedOneMore(l, tick, n - 1);
    } else {
      assert ListenAt(l, tick, 0) == l;
    }
  }

  lemma CountedOneMore(l: Listener, tick: nat -> bool, n: nat)
    requires LongMarksBefore(tick, n + 1) && Counted(tick, n, ListenAt(l, tick, n).ph)
    ensures Counted(tick, n + 1, ListenAt(l, tick, n + 1).ph)
  {
    hide ListenAt, Listen, Counted, LongMarksBefore;
    CountedStep(tick, n, ListenAt(l, tick, n));
    Tick(l, tick, n);
  }

  lemma {:induction false} WatchingPushesNothing(l: Listener, tick: nat -> bool, n: nat)
    requires Watching(l.ph)
    ensures Watching(ListenAt(l, tick, n).ph) ==> ListenAt(l, tick, n) == l.(ph := ListenAt(l, tick, n).ph)
  {
    if n > 0 {
      WatchingPushesNothing(l, tick, n - 1);
    }
  }

  /** The detector lets nothing shorter than 88 ticks pass for a break. */
  lemma DetectorIsSound(l: Listener, tick: nat -> bool, n: nat)
    requires LongMarksBefore(tick, n) && l.ph == Arm
    ensures !Watching(ListenAt(l, tick, n).ph) ==> Heard(tick, n, 88)
  {
    CountedRun(l, tick, n);
  }

  /** From a low sample on, the detector counts down. */
  lemma {:induction false} CountDown(l: Listener, tick: nat -> bool, c: nat, top: nat, left: nat, n: nat)
    requires left <= top && n == c + 3 * (top - left)
    requires ListenAt(l, tick, c).ph == Sample(top) && AllLow(tick, c, n)
    ensures ListenAt(l, tick, n) == ListenAt(l, tick, c).(ph := Sample(left))
    decreases top - left
  {
    hide ListenAt;
    if left < top {
      CountDown(l, tick, c, top, left + 1, n - 3);
      assert !tick(n - 3);
      Tick(l, tick, n - 3);
      Tick(l, tick, n - 2);
      Tick(l, tick, n - 1);
    }
  }

  lemma AcceptFromSample(l: Listener, tick: nat -> bool, c: nat, x: nat)
    requires ListenAt(l, tick, c).ph == Sample(x) && AllLow(tick, c, c + 3 * x + 1)
    ensures ListenAt(l, tick, c + 3 * x + 3) == ListenAt(l, tick, c).(ph := Mark)
  {
    hide ListenAt;
    var n := c + 3 * x;
    CountDown(l, tick, c, x, 0, n);
    Tick(l, tick, n);
    Tick(l, tick, n + 1);
    Tick(l, tick, n + 2);
  }

  /** From every phase in which the detector still watches, 91 low ticks take it past the break. */
  lemma AcceptFromAnyPhase(l: Listener, tick: nat -> bool, c: nat) returns (m: nat)
    requires l.ph == Arm && LongMarksBefore(tick, c) && Watching(ListenAt(l, tick, c).ph)
    requires AllLow(tick, c, c + 91)
    ensures c < m <= c + 91 && ListenAt(l, tick, m) == l.(ph := Mark)
  {
    hide ListenAt;
    CountedRun(l, tick, c);
    WatchingPushesNothing(l, tick, c);
    Tick(l, tick, c);
    match ListenAt(l, tick, c).ph {
      case Arm =>
        m := c + 91;
        AcceptFromSample(l, tick, c + 1, 29);
      case Sample(x) =>
        m := c + 3 * x + 3;
        AcceptFromSample(l, tick, c, x);
      case Low(x) =>
        m := c + 3 * x + 2;
        Tick(l, tick, c + 1);
        if x > 0 { AcceptFromSample(l, tick, c + 2, x - 1); }
      case LowTail(x) =>
        m := c + 3 * x + 1;
        if x > 0 { AcceptFromSample(l, tick, c + 1, x - 1); }
    }
  }

  /** The detector accepts every low run of 89 ticks: armed at tick 0 and still watching when the
      line falls at tick c, it is past the detector at tick c + 90 or c + 91. */
  lemma DetectorIsComplete(l: Listener, tick: nat -> bool, c: nat) returns (m: nat)
    requires LongMarks(tick) && l.ph == Arm
    requires AllLow(tick, c, c + 89) && (c == 0 || tick(c - 1))
    requires Watching(ListenAt(l, tick, c).ph)
    ensures c + 90 <= m <= c + 91 && ListenAt(l, tick, m) == l.(ph := Mark)
  {
    CountedRun(l, tick, c);
    WatchingPushesNothing(l, tick, c);
    assert ListenAt(l, tick, c).ph == Arm || ListenAt(l, tick, c).ph == Sample(29) by {
      if c >= 3 { assert LongMarkAfter(tick, c - 3); }
      if c >= 2 { assert LongMarkAfter(tick, c - 2); }
    }
    var s := if ListenAt(l, tick, c).ph == Arm then c + 1 else c;
    AcceptFromSample(l, tick, s, 29);
    m := s + 90;
  }

  /** How long it may take, exactly: 88 low ticks are accepted from one of the two phases the
      detector can be in when the line falls, and missed from the other. */
  lemma EightyEightTicksDependOnPhase(l: Listener, tick: nat -> bool)
    requires l.ph == Sample(29) || l.ph == Arm
    requires AllLow(tick, 0, 88) && forall i: nat :: 88 <= i ==> tick(i)
    ensures !Watching(ListenAt(l, tick, 90).ph) <==> l.ph == Sample(29)
  {
    if l.ph == Sample(29) {
      AcceptFromSample(l, tick, 0, 29);
    } else {
      assert ListenAt(l, tick, 1) == l.(ph := Sample(29));
      CountDownPast(l, tick);
    }
  }

  lemma CountDownPast(l: Listener, tick: nat -> bool)
    requires l.ph == Arm && AllLow(tick, 0, 88) && tick(88)
    ensures Watching(ListenAt(l, tick, 90).ph)
  {
    assert ListenAt(l, tick, 1) == l.(ph := Sample(29));
    CountDown(l, tick, 1, 29, 0, 88);
    Tick(l, tick, 88);
    Tick(l, tick, 89);
  }

  // ---------------------------------------------------------------------------------------
  // The RX FIFO.

  const RX_FIFO_DEPTH := 8

  /** The receiver with its FIFO: PUSH stalls while that is full, and the DMA channel moves a word on
      whenever it is granted the bus. */
  datatype Buffered = Buffered(sm: Sm, fifo: seq<Word>, moved: seq<Word>)

  function BufferedCycle(b: Buffered, level: bool, grant: bool): Buffered {
    var b1 := if grant && b.fifo != [] then b.(fifo := b.fifo[1..], moved := b.moved + [b.fifo[0]]) else b;
    if b.sm.pc == 10 && b.sm.delay == 0 && |b1.fifo| >= RX_FIFO_DEPTH then b1
    else
      var r := RxCycle(Rx(b.sm, []), level);
      b1.(sm := r.sm, fifo := b1.fifo + r.got)
  }

  function BufferedAt(b: Buffered, tick: nat -> bool, grants: nat -> bool, n: nat): Buffered {
    if n == 0 then b else BufferedCycle(BufferedAt(b, tick, grants, n - 1), tick(n - 1), grants(n - 1))
  }

  /** How often DMA is granted in ticks [n, m). */
  function Grants(grants: nat -> bool, n: nat, m: nat): nat
    decreases m
  {
    if m <= n then 0 else Grants(grants, n, m - 1) + if grants(m - 1) then 1 else 0
  }

  /** The DMA channel keeps up, with all the slack the FIFO gives: eight grants in any eight slots. */
  ghost predicate KeepsUp(grants: nat -> bool) {
    forall n: nat :: EightGrants(grants, n)
  }

  ghost predicate EightGrants(grants: nat -> bool, n: nat) {
    Grants(grants, n, n + 328) >= 8
  }

  /** From one push to the next. */
  const PUSH_TICKS := 41

  /** The ticks that must have passed since the last push. */
  function SincePush(ph: Phase): nat {
    match ph
    case Centre(j) => 1 + j
    case Take(k) => 6 + 4 * k
    case Loop(k, j) => 7 + 4 * k + j
    case StopBit => 38
    case Align => 39
    case Push => 40
    case _ => 0
  }

  /** Since the FIFO was last empty, j words were pushed, the first at tick p. */
  ghost predicate Queued(b: Buffered, ph: Phase, grants: nat -> bool, p: nat, j: nat, n: nat) {
    && p <= n && |b.fifo| <= RX_FIFO_DEPTH
    && (b.fifo != [] ==>
          && j > 0 && |b.fifo| + Grants(grants, p, n) == j
          && n - p >= PUSH_TICKS * (j - 1) + SincePush(ph))
  }

  lemma {:induction false} GrantsAdd(grants: nat -> bool, n: nat, m: nat, k: nat)
    requires n <= m <= k
    ensures Grants(grants, n, k) == Grants(grants, n, m) + Grants(grants, m, k)
    decreases k
  {
    if m < k { GrantsAdd(grants, n, m, k - 1); }
  }

  /** In j slots there are grants for all words but the last seven. */
  lemma {:induction false} GrantsInSlots(grants: nat -> bool, p: nat, j: nat, n: nat)
    requires KeepsUp(grants) && n >= p + PUSH_TICKS * j
    ensures Grants(grants, p, n) + 8 > j
    decreases j
  {
    if j >= RX_FIFO_DEPTH {
      var m := p + RX_FIFO_DEPTH * PUSH_TICKS;
      assert EightGrants(grants, p);
      GrantsAdd(grants, p, m, n);
      GrantsInSlots(grants, m, j - RX_FIFO_DEPTH, n);
    }
  }

  /** At PUSH the receiver stands still if and only if eight words wait. */
  lemma PushStallsExactly(b: Buffered, level: bool)
    requires b.sm.pc == 10 && b.sm.delay == 0
    ensures BufferedCycle(b, level, false) == b <==> |b.fifo| >= 8
  {
  }

  /** There is room when the next word is pushed. */
  lemma RoomToPush(b: Buffered, grants: nat -> bool, p: nat, j: nat, n: nat)
    requires KeepsUp(grants) && Queued(b, Push, grants, p, j, n) && b.fifo != []
    ensures |b.fifo| - (if grants(n) then 1 else 0) < RX_FIFO_DEPTH
  {
    GrantsInSlots(grants, p, j, n + 1);
    assert Grants(grants, p, n + 1) == Grants(grants, p, n) + if grants(n) then 1 else 0;
  }

  lemma BufferedStep(b: Buffered, r: Rx, l: Listener, level: bool, grants: nat -> bool, p: nat, j: nat, n: nat)
    returns (p': nat, j': nat)
    requires Refines(r, l) && b.sm == r.sm && b.moved + b.fifo == r.got
    requires Queued(b, l.ph, grants, p, j, n) && KeepsUp(grants)
    ensures var b1, r1 := BufferedCycle(b, level, grants(n)), RxCycle(r, level);
            && b1.sm == r1.sm && b1.moved + b1.fifo == r1.got
            && Queued(b1, Listen(l, level).ph, grants, p', j', n + 1)
  {
    hide RxCycle, Represents, RxInstr, KeepsUp, Listen, SincePush, Grants, Queued;
    CycleRefines(r, l, level);
    RxCycleAppends(r, l, level);
    PushIsAtTen(r, l);
    var q := if grants(n) && b.fifo != [] then b.(fifo := b.fifo[1..]) else b;
    QueueDrains(b, l.ph, grants, p, j, n);
    if l.ph.Push? {
      if b.fifo != [] { RoomToPush(b, grants, p, j, n); }
      RoomIsEnough(b, l.ph, grants, p, j, n);
      p', j' := QueueGrows(q, l, level, grants, p, j, n, RxCycle(Rx(b.sm, []), level).got);
    } else {
      p', j' := p, j;
      QueueStays(q, l, level, grants, p, j, n);
    }
  }

  /** The queue in tick n, after the DMA channel and before the program. */
  ghost predicate Drained(fifo: seq<Word>, ph: Phase, grants: nat -> bool, p: nat, j: nat, n: nat) {
    && p <= n && |fifo| <= RX_FIFO_DEPTH
    && (fifo != [] ==>
          && j > 0 && |fifo| + Grants(grants, p, n + 1) == j
          && n - p >= PUSH_TICKS * (j - 1) + SincePush(ph))
  }

  lemma QueueDrains(b: Buffered, ph: Phase, grants: nat -> bool, p: nat, j: nat, n: nat)
    requires Queued(b, ph, grants, p, j, n)
    ensures Drained(if grants(n) && b.fifo != [] then b.fifo[1..] else b.fifo, ph, grants, p, j, n)
  {
    hide SincePush;
    assert Grants(grants, p, n + 1) == Grants(grants, p, n) + if grants(n) then 1 else 0;
  }

  lemma RoomIsEnough(b: Buffered, ph: Phase, grants: nat -> bool, p: nat, j: nat, n: nat)
    requires Queued(b, ph, grants, p, j, n)
    requires b.fifo != [] ==> |b.fifo| - (if grants(n) then 1 else 0) < RX_FIFO_DEPTH
    ensures |if grants(n) && b.fifo != [] then b.fifo[1..] else b.fifo| < RX_FIFO_DEPTH
  {
  }

  lemma QueueStays(q: Buffered, l: Listener, level: bool, grants: nat -> bool, p: nat, j: nat, n: nat)
    requires Drained(q.fifo, l.ph, grants, p, j, n) && !l.ph.Push?
    ensures forall b: Buffered :: b.fifo == q.fifo ==> Queued(b, Listen(l, level).ph, grants, p, j, n + 1)
  {
    hide Grants;
  }

  lemma QueueGrows(q: Buffered, l: Listener, level: bool, grants: nat -> bool, p: nat, j: nat, n: nat, w: seq<Word>)
    returns (p': nat, j': nat)
    requires Drained(q.fifo, l.ph, grants, p, j, n) && l.ph.Push? && |q.fifo| < RX_FIFO_DEPTH && |w| == 1
    ensures forall b: Buffered :: b.fifo == q.fifo + w ==> Queued(b, Listen(l, level).ph, grants, p', j', n + 1)
  {
    if q.fifo == [] {
      p', j' := n + 1, 1;
      assert Grants(grants, n + 1, n + 1) == 0;
    } else {
      hide Grants;
      p', j' := p, j + 1;
    }
  }

  lemma PushIsAtTen(r: Rx, l: Listener)
    requires Refines(r, l)
    ensures r.sm.pc == 10 && r.sm.delay == 0 <==> l.ph.Push?
  {
  }

  lemma RxCycleAppends(r: Rx, l: Listener, level: bool)
    requires Refines(r, l)
    ensures var r0 := RxCycle(Rx(r.sm, []), level);
            && RxCycle(r, level) == Rx(r0.sm, r.got + r0.got)
            && |r0.got| == if l.ph.Push? then 1 else 0
  {
  }

  /** If the DMA channel is granted the bus eight times in any 328 ticks, however unevenly, PUSH never
      stalls: the receiver with its FIFO is in step with the one without, and words wait in the FIFO or have
      been moved on. */
  lemma {:induction false} PushNeverStalls(b: Buffered, r: Rx, l: Listener, tick: nat -> bool, grants: nat -> bool,
                                           n: nat) returns (p: nat, j: nat)
    requires Refines(r, l) && b.sm == r.sm && b.fifo == [] && b.moved == r.got && KeepsUp(grants)
    ensures var bn, rn := BufferedAt(b, tick, grants, n), RxAt(r, tick, n);
            && bn.sm == rn.sm && bn.moved + bn.fifo == rn.got
            && Queued(bn, ListenAt(l, tick, n).ph, grants, p, j, n)
  {
    hide BufferedCycle, RxCycle, Refines, Listen, Queued, KeepsUp;
    if n == 0 {
      p, j := 0, 0;
      NothingQueued(b, l.ph, grants);
    } else {
      var p0, j0 := PushNeverStalls(b, r, l, tick, grants, n - 1);
      RunRefines(r, l, tick, n - 1);
      p, j := BufferedStep(BufferedAt(b, tick, grants, n - 1), RxAt(r, tick, n - 1), ListenAt(l, tick, n - 1),
                           tick(n - 1), grants, p0, j0, n - 1);
    }
  }

  lemma NothingQueued(b: Buffered, ph: Phase, grants: nat -> bool)
    requires b.fifo == []
    ensures Queued(b, ph, grants, 0, 0, 0)
  {
  }
}
