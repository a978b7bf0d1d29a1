/**
  The two devices as the program holds them: objects whose methods change registers, FIFO and
  DMA state in place.  Every method is tied to the functions the theorems are about.
 */
module DmxDevices {
  import opened Common
  import opened Pio
  import opened DmxTransmit
  import R = DmxReceive

  /** One PIO state machine. */
  class StateMachine {
    var pc: nat
    var x: nat
    var osr: Word
    var isr: Word
    var delay: nat
    var pin: bool

    constructor (entry: nat)
      ensures pc == entry && delay == 0 && pin
    {
      pc, x, osr, isr, delay, pin := entry, 0, 0, 0, 0, true;
    }

    function View(): Sm
      reads this
    {
      Sm(pc, x, osr, isr, delay, pin)
    }

    /** One cycle of the clock, executing instruction i unless a delay is running. */
    method Clock(i: Instr, next: nat, input: bool, tx: Option<Word>) returns (pulled: bool, pushed: Option<Word>)
      modifies this
      ensures Effect(View(), pulled, pushed) == Cycle(i, next, old(View()), input, tx)
    {
      pulled, pushed := false, None;
      if delay > 0 {
        delay := delay - 1;
        return;
      }
      if i.side.Some? { pin := i.side.value; }
      match i.op {
        case WaitPin(level) => if input != level { return; }
        case PullBlock => if tx.None? { return; }
        case Unused => return;
        case _ =>
      }
      pc, delay := next, i.delay;
      match i.op
      case SetX(v) => x := v;
      case JmpAlways(t) => pc := t;
      case JmpXDec(t) =>
        if x != 0 { pc, x := t, x - 1; } else { x := 0xffff_ffff; }
      case JmpPin(t) => if input { pc := t; }
      case InPin => isr := ShiftIn(isr, input);
      case InNull24 => isr := isr / 0x100_0000;
      case OutPin => pin, osr := osr % 2 == 1, osr / 2;
      case PullBlock => osr, pulled := tx.value, true;
      case PushBlock => pushed, isr := Some(isr), 0;
      case _ =>
    }
  }

  /** A DMX output: a state machine, its TX FIFO, and what its DMA channel has yet to move. */
  class DmxOutput {
    const sm: StateMachine
    const inverted: bool
    var fifo: seq<Word>
    var src: seq<Word>
    ghost var now: nat
    ghost var log: seq<Pull>

    constructor (inverted: bool)
      ensures this.inverted == inverted && fifo == [] && src == [] && fresh(sm)
    {
      this.inverted := inverted;
      sm := new StateMachine(if inverted then 8 else 0);
      fifo, src, now, log := [], [], 0, [];
    }

    ghost function View(): Tx<Sm>
      reads this, sm
    {
      Tx(sm.View(), fifo, src, now, log)
    }

    /** Restarts the state machine at its entry point and hands the universe to the DMA channel.
        The TX FIFO is not touched. */
    method Write(universe: seq<Word>)
      modifies this, sm
      ensures View() == WriteDmx(inverted, old(View()), universe)
    {
      sm.delay, sm.isr := 0, 0;
      if inverted { sm.pc := 8; } else { sm.pc := 0; }
      src, now, log := universe, 0, [];
    }

    method IsBusy() returns (busy: bool)
      ensures busy == View().Busy()
    {
      if src != [] { return true; }
      return fifo != [];
    }

    /** One cycle; `grant` says whether the DMA channel gets the bus. */
    method Tick(grant: bool)
      modifies this, sm
      ensures View() == TxCycle(old(View()), grant)
    {
      var head := if fifo == [] then None else Some(fifo[0]);
      var pulled, _ := sm.Clock(TxInstr(sm.pc), if sm.pc == 15 then 0 else sm.pc + 1, false, head);
      if pulled {
        log := log + [Pull(now, fifo[0])];
        fifo := fifo[1..];
      }
      if grant && src != [] && |fifo| < FIFO_DEPTH {
        fifo, src := fifo + [src[0]], src[1..];
      }
      now := now + 1;
    }

    /** Runs for n cycles under a schedule of grants and records the line. */
    method Run(grants: nat -> bool, n: nat) returns (line: seq<bool>)
      modifies this, sm
      ensures View() == TxAt(old(View()), grants, n)
      ensures |line| == n && forall c :: 0 <= c < n ==> line[c] == Line(old(View()), grants, c)
    {
      hide TxCycle;
      line := [];
      var c := 0;
      while c < n
        invariant c <= n && |line| == c
        invariant View() == TxAt(old(View()), grants, c)
        invariant forall k :: 0 <= k < c ==> line[k] == Line(old(View()), grants, k)
      {
        Tick(grants(c));
        c := c + 1;
        line := line + [sm.pin];
      }
    }
  }

  /** A DMX input: a state machine, and a DMA channel that writes the words it pushes to the buffer, a
      byte each, until the buffer is full and the interrupt is raised.  `got` is the history of the words
      pushed since the channel was started. */
  class DmxInput {
    var regs: Sm
    var buf: array<Byte>
    var left: nat
    var raised: bool
    var lastPacketTimestamp: nat
    ghost var got: seq<Word>

    ghost predicate Valid()
      reads this, buf
    {
      && 0 < buf.Length
      && left == (if |got| < buf.Length then buf.Length - |got| else 0)
      && (raised <==> left == 0)
      && forall k :: 0 <= k < buf.Length - left ==> buf[k] == LowByte(got[k])
    }

    ghost function View(): R.Rx
      reads this
    {
      R.Rx(regs, got)
    }

    /** `read_async`, from any registers: a restart, and a transfer of as many bytes as the buffer has. */
    constructor (buffer: array<Byte>, now: nat, was: Sm)
      requires buffer.Length > 0
      ensures Valid() && buf == buffer && left == buffer.Length && lastPacketTimestamp == now
      ensures View() == R.Rearm(R.Rx(was.(isr := 0), []))
    {
      regs, got := was.(pc := 0, delay := 0, isr := 0), [];
      buf, left, raised, lastPacketTimestamp := buffer, buffer.Length, false, now;
    }

    /** What the interrupt handler does: the transfer starts again, and the program from its start. */
    method Rearm(now: nat)
      requires Valid()
      modifies this
      ensures Valid() && buf == old(buf) && left == buf.Length && lastPacketTimestamp == now
      ensures View() == R.Rearm(old(View())).(got := [])
    {
      regs := regs.(pc := 0, delay := 0);
      left, raised, lastPacketTimestamp := buf.Length, false, now;
      got := [];
    }

    method Tick(level: bool)
      requires Valid()
      modifies this, buf
      ensures Valid() && buf == old(buf) && lastPacketTimestamp == old(lastPacketTimestamp)
      ensures View() == R.RxCycle(old(View()), level)
    {
      hide LowByte;
      var e := Cycle(R.RxInstr(regs.pc), if regs.pc == 10 then 4 else regs.pc + 1, regs, level, None);
      regs := e.sm;
      if e.pushed.Some? {
        if left > 0 {
          buf[buf.Length - left] := LowByte(e.pushed.value);
          left := left - 1;
          raised := left == 0;
        }
        got := got + [e.pushed.value];
      }
    }

    /** Listens to the line for n ticks. */
    method ListenTo(tick: nat -> bool, n: nat)
      requires Valid()
      modifies this, buf
      ensures Valid() && buf == old(buf) && lastPacketTimestamp == old(lastPacketTimestamp)
      ensures View() == R.RxAt(old(View()), tick, n)
    {
      hide R.RxCycle;
      var i := 0;
      while i < n
        invariant i <= n && Valid() && buf == old(buf) && lastPacketTimestamp == old(lastPacketTimestamp)
        invariant View() == R.RxAt(old(View()), tick, i)
      {
        Tick(tick(i));
        i := i + 1;
      }
    }
  }

  const NUM_DMA_CHANS := 12

  /** The DMA interrupt: every active input whose channel raised it is rearmed, the others are left
      alone. */
  method DmaHandler(active: array<DmxInput?>, now: nat)
    requires active.Length == NUM_DMA_CHANS
    requires forall i :: 0 <= i < NUM_DMA_CHANS && active[i] != null ==> active[i].Valid()
    requires forall i, j :: 0 <= i < j < NUM_DMA_CHANS && active[i] != null ==> active[i] != active[j]
    modifies set i | 0 <= i < NUM_DMA_CHANS && active[i] != null :: active[i]
    ensures forall i :: 0 <= i < NUM_DMA_CHANS && active[i] != null ==>
      && active[i].Valid() && !active[i].raised && active[i].buf == old(active[i].buf)
      && active[i].View() == (if old(active[i].raised) then R.Rearm(old(active[i].View())).(got := [])
                              else old(active[i].View()))
      && active[i].lastPacketTimestamp == if old(active[i].raised) then now else old(active[i].lastPacketTimestamp)
  {
    var i := 0;
    while i < NUM_DMA_CHANS
      invariant i <= NUM_DMA_CHANS
      invariant forall j :: 0 <= j < NUM_DMA_CHANS && active[j] != null ==>
        && active[j].Valid() && active[j].buf == old(active[j].buf)
        && if j < i && old(active[j].raised)
           then active[j].View() == R.Rearm(old(active[j].View())).(got := [])
                && active[j].lastPacketTimestamp == now && !active[j].raised
           else active[j].View() == old(active[j].View())
                && active[j].lastPacketTimestamp == old(active[j].lastPacketTimestamp)
                && active[j].raised == old(active[j].raised)
    {
      if active[i] != null && active[i].raised {
        active[i].Rearm(now);
      }
      i := i + 1;
    }
  }
}
