/**
  What a transmission looks like on the line: a closed form of the waveform, for every
  universe and every pattern of DMA supply, and what `busy` says about it.
 */
module DmxWaveform {
  import opened Pio
  import opened DmxTransmit

  const BREAK_CYCLES := 177
  const PREAMBLE_CYCLES := 185
  const SLOT_CYCLES := 52

  /** The level n cycles after a word was taken: eight cycles of mark, the start bit, eight
      data bits of four cycles each, least significant first, then mark. */
  predicate SlotLevel(inverted: bool, w: Word, n: nat) {
    if n < 8 then !inverted
    else if n < 12 then inverted
    else if n < 44 then Bit(w, (n - 12) / 4)
    else !inverted
  }

  /** The level in cycle c of a frame whose words were taken as `log` says. */
  predicate FrameLevel(inverted: bool, log: seq<Pull>, c: nat) {
    if c < BREAK_CYCLES then inverted
    else if log == [] then !inverted
    else
      var last := log[|log| - 1];
      if c < last.at then FrameLevel(inverted, log[..|log| - 1], c)
      else SlotLevel(inverted, last.word, c - last.at)
  }

  /** The first word is taken after the preamble, and words are taken at least a slot apart. */
  ghost predicate Spaced(log: seq<Pull>) {
    && (forall i :: 0 <= i < |log| ==> PREAMBLE_CYCLES <= log[i].at)
    && (forall i :: 0 < i < |log| ==> log[i - 1].at + SLOT_CYCLES <= log[i].at)
  }

  function Words(log: seq<Pull>): (ws: seq<Word>)
    ensures |ws| == |log|
  {
    seq(|log|, i requires 0 <= i < |log| => log[i].word)
  }

  /** How the cycle count and the log fit the phase. */
  ghost predicate Timed(now: nat, log: seq<Pull>, ph: Phase) {
    match ph
    case Start => now == 0 && log == []
    case Break(left, j) => left <= 21 && j < 8 && now == 1 + 8 * (21 - left) + j && log == []
    case Mark(j) => j < 8 && now == BREAK_CYCLES + j && log == []
    case Idle => now >= PREAMBLE_CYCLES && (log != [] ==> log[|log| - 1].at + SLOT_CYCLES <= now)
    case Lead(w, j) => 0 < j < 8 && Taken(log, w, now, j)
    case StartBit(w, j) => j < 4 && Taken(log, w, now, 8 + j)
    case Data(w, k, j) => k < 8 && j < 4 && Taken(log, w, now, 12 + 4 * k + j)
    case Stop(w, j) => j < 8 && Taken(log, w, now, 44 + j)
  }

  ghost predicate Taken(log: seq<Pull>, w: Word, now: nat, ago: nat) {
    log != [] && log[|log| - 1].word == w && log[|log| - 1].at + ago == now
  }

  /** `all` are the words there are to send: taken, queued, or still to be moved. */
  ghost predicate Sending(all: seq<Word>, t: Tx<Phase>) {
    && Timed(t.now, t.log, t.m)
    && Spaced(t.log)
    && (t.log != [] ==> t.log[|t.log| - 1].at < t.now)
    && Words(t.log) + t.fifo + t.src == all
  }

  lemma AdvanceConserves<M>(t: Tx<M>, m2: M, pulled: bool, grant: bool)
    requires pulled ==> t.fifo != []
    ensures var t1 := t.Advance(m2, pulled, grant);
            && Words(t1.log) + t1.fifo + t1.src == Words(t.log) + t.fifo + t.src
            && (|t.fifo| <= 4 ==> |t1.fifo| <= 4)
            && (|t1.src| < |t.src| <==> grant && t.src != [] && |t.fifo| - (if pulled then 1 else 0) < 4)
  {
    var t1 := t.Advance(m2, pulled, grant);
    if pulled {
      assert Words(t1.log) == Words(t.log) + [t.fifo[0]];
      assert t.fifo == [t.fifo[0]] + t.fifo[1..];
    }
    if t.src != [] { assert t.src == [t.src[0]] + t.src[1..]; }
  }

  lemma CycleKeepsSending(all: seq<Word>, t: Tx<Phase>, grant: bool)
    requires Sending(all, t)
    ensures Sending(all, PhaseCycle(t, grant))
    ensures PhaseCycle(t, grant).now == t.now + 1
  {
    AdvanceConserves(t, NextPhase(t.m, t.Head()), t.m.Idle? && t.fifo != [], grant);
    hide Words;
  }

  lemma PhaseLevelIsFrameLevel(inverted: bool, t: Tx<Phase>, grant: bool)
    requires Timed(t.now, t.log, t.m) && Spaced(t.log)
    ensures PhaseLevel(inverted, t.m) == FrameLevel(inverted, PhaseCycle(t, grant).log, t.now)
  {
    match t.m
    case Data(w, k, j) => assert (12 + 4 * k + j - 12) / 4 == k;
    case _ =>
  }

  lemma FrameLevelIsStable(inverted: bool, t: Tx<Phase>, grant: bool, c: nat)
    requires c < t.now
    ensures FrameLevel(inverted, PhaseCycle(t, grant).log, c) == FrameLevel(inverted, t.log, c)
  {
    var t1 := PhaseCycle(t, grant);
    if t1.log != t.log {
      assert t1.log[..|t.log|] == t.log;
    }
  }

  predicate PhaseLine(inverted: bool, t: Tx<Phase>, grants: nat -> bool, c: nat) {
    PhaseLevel(inverted, PhaseAt(t, grants, c).m)
  }

  ghost predicate LineIsFrame(inverted: bool, t: Tx<Phase>, grants: nat -> bool, n: nat, log: seq<Pull>) {
    forall c: nat :: c < n ==> PhaseLine(inverted, t, grants, c) == FrameLevel(inverted, log, c)
  }

  lemma LineIsFrameStep(inverted: bool, t: Tx<Phase>, grants: nat -> bool, n: nat, t0: Tx<Phase>)
    requires t0 == PhaseAt(t, grants, n) && t0.now == n
    requires Timed(t0.now, t0.log, t0.m) && Spaced(t0.log)
    requires LineIsFrame(inverted, t, grants, n, t0.log)
    ensures LineIsFrame(inverted, t, grants, n + 1, PhaseCycle(t0, grants(n)).log)
  {
    PhaseLevelIsFrameLevel(inverted, t0, grants(n));
    hide PhaseCycle, FrameLevel, PhaseLevel, Timed, Spaced;
    forall c: nat | c < n + 1
      ensures PhaseLine(inverted, t, grants, c) == FrameLevel(inverted, PhaseCycle(t0, grants(n)).log, c)
    {
      if c < n {
        FrameLevelIsStable(inverted, t0, grants(n), c);
      }
    }
  }

  lemma {:induction false} PhaseRunIsFrame(inverted: bool, t: Tx<Phase>, grants: nat -> bool, n: nat)
    requires t.m == Start && t.now == 0 && t.log == []
    ensures PhaseAt(t, grants, n).now == n
    ensures Sending(t.fifo + t.src, PhaseAt(t, grants, n))
    ensures LineIsFrame(inverted, t, grants, n, PhaseAt(t, grants, n).log)
  {
    if n == 0 {
      assert Words(t.log) == [];
    } else {
      hide PhaseCycle, LineIsFrame, Timed, Spaced, Words;
      PhaseRunIsFrame(inverted, t, grants, n - 1);
      var t0 := PhaseAt(t, grants, n - 1);
      CycleKeepsSending(t.fifo + t.src, t0, grants(n - 1));
      LineIsFrameStep(inverted, t, grants, n - 1, t0);
    }
  }

  // ---------------------------------------------------------------------------------------
  // The theorems about write_dmx.

  /** A transmission after n cycles: the line so far is the closed form of the words taken, and
      the words taken, queued and still to be moved are what the FIFO held at the call followed
      by the universe, in order. */
  lemma Waveform(inverted: bool, t: Tx<Sm>, universe: seq<Word>, grants: nat -> bool, n: nat)
    ensures var s0 := WriteDmx(inverted, t, universe);
            var s := TxAt(s0, grants, n);
            && s.now == n
            && Spaced(s.log)
            && (s.log != [] ==> s.log[|s.log| - 1].at < n)
            && Words(s.log) + s.fifo + s.src == t.fifo + universe
            && (forall c: nat :: c < n ==> Line(s0, grants, c) == FrameLevel(inverted, s.log, c))
  {
    var s0 := WriteDmx(inverted, t, universe);
    assert Refines(inverted, s0, Abstract(s0));
    RunRefines(inverted, s0, grants, n);
    PhaseRunIsFrame(inverted, Abstract(s0), grants, n);
    hide TxAt, PhaseAt, Represents, Timed, FrameLevel, PhaseLevel;
    forall c: nat | c < n
      ensures Line(s0, grants, c) == FrameLevel(inverted, TxAt(s0, grants, n).log, c)
    {
      RunRefines(inverted, s0, grants, c);
      assert PhaseLine(inverted, Abstract(s0), grants, c) == FrameLevel(inverted, TxAt(s0, grants, n).log, c);
    }
  }

  /** The level around word i depends on word i alone. */
  lemma {:induction false} FrameLevelInSlot(inverted: bool, log: seq<Pull>, i: nat, c: nat)
    requires Spaced(log) && i < |log|
    requires log[i].at <= c && (i + 1 < |log| ==> c < log[i + 1].at)
    ensures FrameLevel(inverted, log, c) == SlotLevel(inverted, log[i].word, c - log[i].at)
    decreases |log|
  {
    if i + 1 < |log| {
      var front := log[..|log| - 1];
      assert c < log[|log| - 1].at by { LaterPulls(log, i + 1, |log| - 1); }
      FrameLevelInSlot(inverted, front, i, c);
    }
  }

  lemma {:induction false} LaterPulls(log: seq<Pull>, i: nat, j: nat)
    requires Spaced(log) && i <= j < |log|
    ensures log[i].at <= log[j].at
    decreases j
  {
    if i < j {
      LaterPulls(log, i, j - 1);
    }
  }

  lemma {:induction false} FrameLevelInPreamble(inverted: bool, log: seq<Pull>, c: nat)
    requires Spaced(log) && (c < PREAMBLE_CYCLES || log == [] || c < log[0].at)
    ensures FrameLevel(inverted, log, c) == if c < BREAK_CYCLES then inverted else !inverted
    decreases |log|
  {
    if log != [] {
      LaterPulls(log, 0, |log| - 1);
      FrameLevelInPreamble(inverted, log[..|log| - 1], c);
    }
  }

  // Minima of ANSI E1.11, section 8, in microseconds.
  const MIN_BREAK := 92
  const MIN_MARK_AFTER_BREAK := 12
  const BIT_TIME := 4
  const MIN_SLOT := 44

  ghost predicate Holds(inverted: bool, log: seq<Pull>, level: bool, from: nat, len: nat) {
    forall c: nat :: from <= c < from + len ==> FrameLevel(inverted, log, c) == level
  }

  /** Every frame, whatever the data and the stalls, keeps the minima of the standard: the break,
      the mark after it, a full slot from one start edge to the next, and two stop bits. */
  lemma FrameMeetsMinima(inverted: bool, log: seq<Pull>)
    requires Spaced(log)
    ensures BREAK_CYCLES >= MIN_BREAK && Holds(inverted, log, inverted, 0, BREAK_CYCLES)
    ensures Holds(inverted, log, !inverted, BREAK_CYCLES, MIN_MARK_AFTER_BREAK)
    ensures forall i :: 0 < i < |log| ==> (log[i - 1].at + 8) + MIN_SLOT <= log[i].at + 8
    ensures forall i :: 0 <= i < |log| ==>
      Holds(inverted, log, !inverted, log[i].at + 8 + 9 * BIT_TIME, 2 * BIT_TIME)
  {
    forall c: nat | c < BREAK_CYCLES + MIN_MARK_AFTER_BREAK
      ensures FrameLevel(inverted, log, c) == if c < BREAK_CYCLES then inverted else !inverted
    {
      if c < PREAMBLE_CYCLES || log == [] || c < log[0].at {
        FrameLevelInPreamble(inverted, log, c);
      } else {
        FrameLevelInSlot(inverted, log, 0, c);
      }
    }
    forall i, c: nat | 0 <= i < |log| && log[i].at + 44 <= c < log[i].at + SLOT_CYCLES
      ensures FrameLevel(inverted, log, c) != inverted
    {
      FrameLevelInSlot(inverted, log, i, c);
    }
  }

  /** `busy` reads true exactly while some word has not been taken. */
  lemma BusyMeansNotAllTaken(inverted: bool, t: Tx<Sm>, universe: seq<Word>, grants: nat -> bool, n: nat)
    ensures var s := TxAt(WriteDmx(inverted, t, universe), grants, n);
            s.Busy() <==> |s.log| < |t.fifo| + |universe|
  {
    Waveform(inverted, t, universe, grants, n);
    hide TxAt;
    var s := TxAt(WriteDmx(inverted, t, universe), grants, n);
    assert |Words(s.log) + s.fifo + s.src| == |s.log| + |s.fifo| + |s.src|;
  }

  lemma {:induction false} DoneStaysDone(t: Tx<Sm>, grants: nat -> bool, n: nat, m: nat)
    requires !TxAt(t, grants, n).Busy() && n <= m
    ensures !TxAt(t, grants, m).Busy() && TxAt(t, grants, m).log == TxAt(t, grants, n).log
    decreases m
  {
    hide TxStep;
    if n < m {
      DoneStaysDone(t, grants, n, m - 1);
    }
  }

  /** Once `busy` reads false the rest of the line is settled. */
  lemma FinishedLine(inverted: bool, t: Tx<Sm>, universe: seq<Word>, grants: nat -> bool, n: nat, c: nat)
    requires !TxAt(WriteDmx(inverted, t, universe), grants, n).Busy()
    ensures var s0 := WriteDmx(inverted, t, universe);
            Line(s0, grants, c) == FrameLevel(inverted, TxAt(s0, grants, n).log, c)
  {
    var s0 := WriteDmx(inverted, t, universe);
    var m := if n <= c then c + 1 else n;
    DoneStaysDone(s0, grants, n, m);
    Waveform(inverted, t, universe, grants, m);
  }

  /** When `busy` reads false every word has been taken, the last slot is over within 51 more
      cycles, and from its stop bits on the line stays at mark. */
  lemma BusyBound(inverted: bool, t: Tx<Sm>, universe: seq<Word>, grants: nat -> bool, n: nat)
    requires |t.fifo| + |universe| > 0
    requires !TxAt(WriteDmx(inverted, t, universe), grants, n).Busy()
    ensures var s0 := WriteDmx(inverted, t, universe);
            var log := TxAt(s0, grants, n).log;
            && Words(log) == t.fifo + universe
            && log != []
            && log[|log| - 1].at + SLOT_CYCLES <= n + 51
            && (forall c: nat :: log[|log| - 1].at + 44 <= c ==> Line(s0, grants, c) == !inverted)
  {
    var s0 := WriteDmx(inverted, t, universe);
    var s := TxAt(s0, grants, n);
    Waveform(inverted, t, universe, grants, n);
    assert Words(s.log) + [] + [] == Words(s.log);
    hide TxAt, Line;
    forall c: nat | s.log[|s.log| - 1].at + 44 <= c ensures Line(s0, grants, c) == !inverted {
      FinishedLine(inverted, t, universe, grants, n, c);
    }
  }

  /** Restarting does not empty the TX FIFO, so a finished transmission sent exactly its universe
      if and only if the FIFO was empty at the call; otherwise what was queued goes first. */
  lemma SendsUniverseIffFifoWasEmpty(inverted: bool, t: Tx<Sm>, universe: seq<Word>, grants: nat -> bool, n: nat)
    requires !TxAt(WriteDmx(inverted, t, universe), grants, n).Busy()
    ensures Words(TxAt(WriteDmx(inverted, t, universe), grants, n).log) == universe <==> t.fifo == []
  {
    Waveform(inverted, t, universe, grants, n);
    hide TxAt;
    var s := TxAt(WriteDmx(inverted, t, universe), grants, n);
    assert Words(s.log) + s.fifo + s.src == Words(s.log);
    assert t.fifo == [] ==> t.fifo + universe == universe;
    assert |t.fifo + universe| == |t.fifo| + |universe|;
  }

  /** When `busy` turns false the last word was taken in that very cycle, so the last slot is over exactly
      51 cycles later. */
  lemma BusyEndsExactly(inverted: bool, t: Tx<Sm>, universe: seq<Word>, grants: nat -> bool, n: nat)
    requires n > 0 && TxAt(WriteDmx(inverted, t, universe), grants, n - 1).Busy()
    requires !TxAt(WriteDmx(inverted, t, universe), grants, n).Busy()
    ensures var log := TxAt(WriteDmx(inverted, t, universe), grants, n).log;
            log != [] && log[|log| - 1].at + SLOT_CYCLES == n + 51
  {
    hide TxCycle, FrameLevel, Line, Spaced, Words, WriteDmx;
    Waveform(inverted, t, universe, grants, n - 1);
    LastWordTaken(TxAt(WriteDmx(inverted, t, universe), grants, n - 1), grants(n - 1));
  }

  lemma LastWordTaken(t: Tx<Sm>, grant: bool)
    requires t.Busy() && !TxCycle(t, grant).Busy()
    ensures var log := TxCycle(t, grant).log; log != [] && log[|log| - 1].at == t.now
  {
    hide TxStep;
  }

  // ---------------------------------------------------------------------------------------
  // Without stalls.

  /** As long as DMA is granted, the FIFO is not empty while there are words to move. */
  lemma GrantedCycleFeeds(t: Tx<Phase>)
    ensures var t1 := PhaseCycle(t, true); t1.src != [] ==> t1.fifo != []
  {
  }

  lemma {:induction false} PhaseLogGrows(t: Tx<Phase>, grants: nat -> bool, n: nat, m: nat)
    requires n <= m
    ensures PhaseAt(t, grants, n).log <= PhaseAt(t, grants, m).log
    decreases m
  {
    hide NextPhase;
    if n < m {
      PhaseLogGrows(t, grants, n, m - 1);
    }
  }

  /** The cycle after which k words are taken, if DMA is always granted. */
  function UnstalledEnd(k: nat): nat
    requires k > 0
  {
    PREAMBLE_CYCLES + 1 + SLOT_CYCLES * (k - 1)
  }

  lemma {:induction false} UnstalledPulls(t: Tx<Phase>, grants: nat -> bool, k: nat)
    requires t.m == Start && t.now == 0 && t.log == []
    requires (forall c: nat :: grants(c)) && 0 < k <= |t.fifo| + |t.src|
    ensures |PhaseAt(t, grants, UnstalledEnd(k)).log| >= k
  {
    hide PhaseAt, NextPhase, Timed, Words;
    var n := UnstalledEnd(k) - 1;
    var t0 := PhaseAt(t, grants, n);
    if k > 1 {
      UnstalledPulls(t, grants, k - 1);
      PhaseLogGrows(t, grants, UnstalledEnd(k - 1), n);
      PhaseRunIsFrame(false, t, grants, UnstalledEnd(k - 1));
    }
    PhaseRunIsFrame(false, t, grants, n);
    OneCycle(t, grants, n);
    OneCycle(t, grants, n - 1);
    GrantedCycleFeeds(PhaseAt(t, grants, n - 1));
    if |t0.log| < k {
      assert |Words(t0.log) + t0.fifo + t0.src| == |t.fifo + t.src|;
      IdleWhenSlotIsOver(t0);
    }
  }

  lemma OneCycle(t: Tx<Phase>, grants: nat -> bool, n: nat)
    ensures PhaseAt(t, grants, n + 1) == PhaseCycle(PhaseAt(t, grants, n), grants(n))
  {
  }

  lemma IdleWhenSlotIsOver(t: Tx<Phase>)
    requires Timed(t.now, t.log, t.m) && PREAMBLE_CYCLES <= t.now
    requires t.log != [] ==> t.log[|t.log| - 1].at + SLOT_CYCLES <= t.now
    ensures t.m.Idle?
  {
  }

  lemma {:induction false} SpacedFromPreamble(log: seq<Pull>, i: nat)
    requires Spaced(log) && i < |log|
    ensures log[i].at >= PREAMBLE_CYCLES + SLOT_CYCLES * i
  {
    if i > 0 { SpacedFromPreamble(log, i - 1); }
  }

  /** If DMA is always granted, the words are taken back to back, every 52 cycles from cycle 185 on, and
      `busy` turns false with the last of them. */
  lemma UnstalledTransmission(inverted: bool, t: Tx<Sm>, universe: seq<Word>, grants: nat -> bool, k: nat)
    requires (forall c: nat :: grants(c)) && 0 < k <= |t.fifo| + |universe|
    ensures var s := TxAt(WriteDmx(inverted, t, universe), grants, UnstalledEnd(k));
            && |s.log| == k && (s.Busy() <==> k < |t.fifo| + |universe|)
            && s.log[k - 1].at == PREAMBLE_CYCLES + SLOT_CYCLES * (k - 1)
  {
    hide TxAt, PhaseAt, Line, FrameLevel, Words, Represents;
    var s0 := WriteDmx(inverted, t, universe);
    StartRefines(inverted, t, universe);
    RunRefines(inverted, s0, grants, UnstalledEnd(k));
    UnstalledPulls(Abstract(s0), grants, k);
    Waveform(inverted, t, universe, grants, UnstalledEnd(k));
    BusyMeansNotAllTaken(inverted, t, universe, grants, UnstalledEnd(k));
    var log := TxAt(s0, grants, UnstalledEnd(k)).log;
    SpacedFromPreamble(log, |log| - 1);
  }

  lemma StartRefines(inverted: bool, t: Tx<Sm>, universe: seq<Word>)
    ensures var s0 := WriteDmx(inverted, t, universe); Refines(inverted, s0, Abstract(s0))
  {
  }

  /** A write_dmx broken off after its first cycle leaves a word in the FIFO, and the next one sends it
      first: 1, 2 instead of 2. */
  lemma InterruptedWriteLeavesWord(t: Tx<Sm>, grants: nat -> bool)
    requires t.fifo == [] && forall c: nat :: grants(c)
    ensures var t1 := TxAt(WriteDmx(false, t, [1]), grants, 1);
            var s := TxAt(WriteDmx(false, t1, [2]), grants, UnstalledEnd(2));
            t1.fifo == [1] && !s.Busy() && Words(s.log) == [1, 2]
  {
    var t1 := TxAt(WriteDmx(false, t, [1]), grants, 1);
    assert TxAt(WriteDmx(false, t, [1]), grants, 0) == WriteDmx(false, t, [1]);
    var s := TxAt(WriteDmx(false, t1, [2]), grants, UnstalledEnd(2));
    UnstalledTransmission(false, t1, [2], grants, 2);
    Waveform(false, t1, [2], grants, UnstalledEnd(2));
    hide TxAt, Words;
    assert Words(s.log) + [] + [] == Words(s.log);
  }
}
