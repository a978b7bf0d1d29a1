/**
  Both ends of the link together: a receiver whose clock runs at its own rate and phase gets
  back exactly the bytes the transmitter was given.
  Time is measured in cycles of the transmitter; `r` is the length of a receiver tick.
 */
module DmxLink {
  import opened Pio
  import opened Bits
  import opened DmxTransmit
  import opened DmxWaveform
  import R = DmxReceive

  /** When tick n of a receiver happens. */
  function Time(t0: real, r: real, n: nat): real {
    if n == 0 then t0 else Time(t0, r, n - 1) + r
  }

  /** The level of a line at time t; before time 0 it is idle. */
  predicate LevelAt(line: nat -> bool, t: real) {
    if t < 0.0 then true else line(t.Floor)
  }

  /** What a receiver sees, tick by tick. */
  function Sampled(line: nat -> bool, t0: real, r: real): nat -> bool {
    (n: nat) => LevelAt(line, Time(t0, r, n))
  }

  ghost predicate Tolerated(r: real) {
    32.0 / 34.0 <= r <= 36.0 / 35.0
  }

  lemma {:induction false} Later(t0: real, r: real, n: nat, k: nat)
    ensures Time(t0, r, n + k) == Time(t0, r, n) + (k as real) * r
  {
    if k > 0 {
      Later(t0, r, n, k - 1);
      assert (k as real) * r == ((k - 1) as real) * r + r;
    }
  }

  lemma {:induction false} TimeGrows(t0: real, r: real, n: nat, m: nat)
    requires r >= 0.0 && n <= m
    ensures Time(t0, r, n) <= Time(t0, r, m)
  {
    if n < m {
      TimeGrows(t0, r, n, m - 1);
    }
  }

  /** The first tick, from n on, at or after time x. */
  lemma FirstTick(t0: real, r: real, n: nat, x: real) returns (e: nat)
    requires r >= 0.5
    ensures n <= e && x <= Time(t0, r, e)
    ensures e == n || Time(t0, r, e) < x + r
    ensures forall i: nat :: n <= i < e ==> Time(t0, r, i) < x
    decreases 2.0 * (x - Time(t0, r, n))
  {
    if Time(t0, r, n) >= x {
      e := n;
    } else {
      e := FirstTick(t0, r, n + 1, x);
    }
  }

  // ---------------------------------------------------------------------------------------
  // Marks and low runs on the line, and what a receiver makes of them.

  /** No mark that begins right after cycle a is over within three cycles. */
  ghost predicate LongMarkAfter(line: nat -> bool, a: nat) {
    !line(a) ==>
      && (!line(a + 2) ==> !line(a + 1))
      && (!line(a + 3) ==> !line(a + 1) && !line(a + 2))
      && (!line(a + 4) ==> !line(a + 1) && !line(a + 2) && !line(a + 3))
  }

  ghost predicate HasMark(line: nat -> bool, a: nat, len: nat) {
    exists c: nat :: a <= c < a + len && line(c)
  }

  /** The same for the marks that are over before cycle b. */
  ghost predicate LongMarkWithin(line: nat -> bool, a: nat, b: nat) {
    !line(a) ==>
      && (a + 2 < b && !line(a + 2) ==> !line(a + 1))
      && (a + 3 < b && !line(a + 3) ==> !line(a + 1) && !line(a + 2))
      && (a + 4 < b && !line(a + 4) ==> !line(a + 1) && !line(a + 2) && !line(a + 3))
  }

  /** What the line may carry before cycle b: anything whose marks are at least a bit long, but for one
      that b cuts short, and whose low runs are shorter than 80 cycles, as data slots are. */
  ghost predicate Quiet(line: nat -> bool, b: nat) {
    && (forall a: nat :: a < b ==> LongMarkWithin(line, a, b))
    && (forall a: nat :: a + 80 <= b ==> HasMark(line, a, 80))
  }

  /** From cycle b on the line carries the frame of `log`. */
  ghost predicate Carries(line: nat -> bool, b: nat, log: seq<Pull>) {
    Spaced(log) && forall c: nat :: b <= c ==> line(c) == FrameLevel(false, log, c - b)
  }

  /** The start edge of slot i. */
  function Edge(b: nat, log: seq<Pull>, i: nat): nat
    requires i < |log|
  {
    b + log[i].at + 8
  }

  /** The level n cycles after a start edge. */
  predicate SlotCell(w: Word, n: nat) {
    if n < 4 then false else if n < 36 then Bit(w, (n - 4) / 4) else true
  }

  /** Slot i on the line: four cycles of start bit, eight data bits, then mark up to the next. */
  lemma SlotOnLine(line: nat -> bool, b: nat, log: seq<Pull>, i: nat, c: nat)
    requires Carries(line, b, log) && i < |log|
    requires Edge(b, log, i) <= c && (i + 1 < |log| ==> c < Edge(b, log, i + 1))
    ensures line(c) == SlotCell(log[i].word, c - Edge(b, log, i))
  {
    if i + 1 < |log| && log[i + 1].at <= c - b {
      FrameLevelInSlot(false, log, i + 1, c - b);
    } else {
      FrameLevelInSlot(false, log, i, c - b);
    }
  }

  lemma BreakOnLine(line: nat -> bool, b: nat, log: seq<Pull>, c: nat)
    requires Carries(line, b, log) && b <= c && (log == [] || c < Edge(b, log, 0))
    ensures line(c) == (c >= b + BREAK_CYCLES)
  {
    if log != [] && log[0].at <= c - b {
      FrameLevelInSlot(false, log, 0, c - b);
    } else {
      FrameLevelInPreamble(false, log, c - b);
    }
  }

  lemma {:induction false} LocateSlot(b: nat, log: seq<Pull>, c: nat, top: nat) returns (i: nat)
    requires Spaced(log) && top < |log| && Edge(b, log, 0) <= c
    requires top + 1 < |log| ==> c < Edge(b, log, top + 1)
    ensures i < |log| && Edge(b, log, i) <= c && (i + 1 < |log| ==> c < Edge(b, log, i + 1))
    decreases top
  {
    if Edge(b, log, top) <= c {
      i := top;
    } else {
      i := LocateSlot(b, log, c, top - 1);
    }
  }

  lemma SlotCellMarks(w: Word, n: nat)
    requires !SlotCell(w, n)
    ensures !SlotCell(w, n + 2) ==> !SlotCell(w, n + 1)
    ensures !SlotCell(w, n + 3) ==> !SlotCell(w, n + 1) && !SlotCell(w, n + 2)
    ensures !SlotCell(w, n + 4) ==> !SlotCell(w, n + 1) && !SlotCell(w, n + 2) && !SlotCell(w, n + 3)
  {
    hide Bit;
  }

  lemma FrameMarksAreLong(line: nat -> bool, b: nat, log: seq<Pull>, a: nat)
    requires Carries(line, b, log) && b <= a
    ensures LongMarkAfter(line, a)
  {
    if !line(a) {
      if log == [] || a < Edge(b, log, 0) {
        BreakOnLine(line, b, log, a);
        BreakOnLine(line, b, log, a + 1);
        BreakOnLine(line, b, log, a + 2);
        BreakOnLine(line, b, log, a + 3);
        BreakOnLine(line, b, log, a + 4);
      } else {
        var i := LocateSlot(b, log, a, |log| - 1);
        SlotOnLine(line, b, log, i, a);
        SlotOnLine(line, b, log, i, a + 1);
        SlotOnLine(line, b, log, i, a + 2);
        SlotOnLine(line, b, log, i, a + 3);
        SlotOnLine(line, b, log, i, a + 4);
        SlotCellMarks(log[i].word, a - Edge(b, log, i));
      }
    }
  }

  /** Marks of four cycles last at least three ticks. */
  lemma SampledMarksAreLong(line: nat -> bool, b: nat, t0: real, r: real, n: nat)
    requires Quiet(line, b) && Tolerated(r) && t0 >= 0.0
    requires n > 0 ==> Time(t0, r, n - 1) < b as real
    ensures R.LongMarksBefore(Sampled(line, t0, r), n)
  {
    hide Time;
    forall i: nat | i + 3 < n ensures R.LongMarkAfter(Sampled(line, t0, r), i) {
      FirstTime(t0, r);
      TimeGrows(t0, r, 0, i);
      TimeGrows(t0, r, i, n - 1);
      TimeGrows(t0, r, i + 3, n - 1);
      assert LongMarkWithin(line, Time(t0, r, i).Floor, b);
      SampledMarkIsLong(line, b, t0, r, i);
    }
  }

  lemma SampledMarkIsLong(line: nat -> bool, b: nat, t0: real, r: real, i: nat)
    requires Tolerated(r) && Time(t0, r, i) >= 0.0 && Time(t0, r, i + 3) < b as real
    requires LongMarkWithin(line, Time(t0, r, i).Floor, b)
    ensures R.LongMarkAfter(Sampled(line, t0, r), i)
  {
    hide Time;
    NextTime(t0, r, i);
    NextTime(t0, r, i + 1);
    NextTime(t0, r, i + 2);
    var f0, f1 := Time(t0, r, i).Floor, Time(t0, r, i + 1).Floor;
    var f2, f3 := Time(t0, r, i + 2).Floor, Time(t0, r, i + 3).Floor;
    assert f0 <= f1 <= f2 <= f3 < b && f1 <= f0 + 2 && f2 <= f0 + 3 && f3 <= f0 + 4;
  }

  lemma NextTime(t0: real, r: real, i: nat)
    ensures Time(t0, r, i + 1) == Time(t0, r, i) + r
  {
  }

  lemma GapIsLow(line: nat -> bool, b: nat, t: real, r: real, c: nat)
    requires t >= 0.0 && 0.0 <= r <= 1.5 && t + r < b as real
    requires LongMarkWithin(line, t.Floor, b) && !line(t.Floor) && !line((t + r).Floor)
    requires t.Floor <= c <= (t + r).Floor
    ensures !line(c)
  {
    assert (t + r).Floor <= t.Floor + 2;
  }

  /** Between low ticks a and a + j there is no mark on the line. */
  lemma {:induction false} LowTicksAreLowCells(line: nat -> bool, b: nat, t0: real, r: real, a: nat, j: nat, c: nat)
    requires Tolerated(r) && t0 >= 0.0 && Quiet(line, b) && Time(t0, r, a + j) < b as real
    requires forall i: nat :: a <= i <= a + j ==> !Sampled(line, t0, r)(i)
    requires Time(t0, r, a).Floor <= c <= Time(t0, r, a + j).Floor
    ensures !line(c)
  {
    hide LongMarkWithin, HasMark, Time;
    var n := a + j;
    FirstTime(t0, r);
    TimeGrows(t0, r, 0, n);
    assert !Sampled(line, t0, r)(n);
    if j > 0 {
      var t := Time(t0, r, n - 1);
      NextTime(t0, r, n - 1);
      TimeGrows(t0, r, 0, n - 1);
      assert !Sampled(line, t0, r)(n - 1);
      if c <= t.Floor {
        LowTicksAreLowCells(line, b, t0, r, a, j - 1, c);
      } else {
        assert LongMarkWithin(line, t.Floor, b);
        GapIsLow(line, b, t, r, c);
      }
    }
  }

  lemma FirstTime(t0: real, r: real)
    ensures Time(t0, r, 0) == t0
  {
  }

  // ---------------------------------------------------------------------------------------
  // From arming to the end of the break.

  /** Before the break the detector is not fooled. */
  lemma StillWatching(line: nat -> bool, b: nat, t0: real, r: real, l: R.Listener, n: nat)
    requires Quiet(line, b) && Tolerated(r) && t0 >= 0.0 && l.ph == R.Arm
    requires n > 0 ==> Time(t0, r, n - 1) < b as real
    ensures R.Watching(R.ListenAt(l, Sampled(line, t0, r), n).ph)
  {
    hide Quiet, Time, R.ListenAt, Sampled;
    var tick := Sampled(line, t0, r);
    SampledMarksAreLong(line, b, t0, r, n);
    R.DetectorIsSound(l, tick, n);
    if R.Heard(tick, n, 88) {
      var a: nat :| R.LowRun(tick, a, 88) && a + 88 + 2 <= n;
      LowRunBeforeBreak(line, b, t0, r, a, n);
    }
  }

  /** A line that is quiet before the break gives no receiver 88 low ticks on end. */
  lemma LowRunBeforeBreak(line: nat -> bool, b: nat, t0: real, r: real, a: nat, n: nat)
    requires Quiet(line, b) && Tolerated(r) && t0 >= 0.0 && a + 90 <= n && Time(t0, r, n - 1) < b as real
    ensures !R.LowRun(Sampled(line, t0, r), a, 88)
  {
    hide LongMarkWithin, Time, Sampled;
    FirstTime(t0, r);
    Later(t0, r, a, 87);
    TimeGrows(t0, r, 0, a);
    TimeGrows(t0, r, a + 87, n - 1);
    var lo := Time(t0, r, a).Floor;
    assert 87.0 * r >= 81.0;
    assert HasMark(line, lo, 80);
    var c: nat :| lo <= c < lo + 80 && line(c);
    if R.LowRun(Sampled(line, t0, r), a, 88) {
      LowTicksAreLowCells(line, b, t0, r, a, 87, c);
      assert false;
    }
  }

  /** The first tick in the break, and the 90 after it, see the break. */
  lemma FirstBreakTick(line: nat -> bool, b: nat, log: seq<Pull>, t0: real, r: real) returns (c: nat)
    requires Carries(line, b, log) && Tolerated(r)
    requires 0.0 <= t0 <= b as real + 80.0
    ensures b as real <= Time(t0, r, c) < b as real + 80.5
    ensures R.AllLow(Sampled(line, t0, r), c, c + 91)
    ensures c > 0 ==> Time(t0, r, c - 1) < b as real
  {
    c := FirstTick(t0, r, 0, b as real);
    BreakIsLow(line, b, log, t0, r, c, c + 91);
  }

  lemma AcceptsBreak(line: nat -> bool, b: nat, log: seq<Pull>, t0: real, r: real, l: R.Listener) returns (m: nat)
    requires Quiet(line, b) && Carries(line, b, log) && Tolerated(r)
    requires 0.0 <= t0 <= b as real + 80.0 && l.ph == R.Arm
    ensures R.ListenAt(l, Sampled(line, t0, r), m) == l.(ph := R.Mark)
    ensures b as real <= Time(t0, r, m) < b as real + 175.0
  {
    hide Quiet, Carries, Sampled, Time, R.ListenAt;
    var c := FirstBreakTick(line, b, log, t0, r);
    SampledMarksAreLong(line, b, t0, r, c);
    StillWatching(line, b, t0, r, l, c);
    m := R.AcceptFromAnyPhase(l, Sampled(line, t0, r), c);
    NinetyTicks(t0, r, c, m);
  }

  lemma NinetyTicks(t0: real, r: real, c: nat, m: nat)
    requires Tolerated(r) && c <= m <= c + 91
    ensures Time(t0, r, c) <= Time(t0, r, m) < Time(t0, r, c) + 94.0
  {
    TimeGrows(t0, r, m, c + 91);
    TimeGrows(t0, r, c, m);
    Later(t0, r, c, 91);
  }

  lemma FirstMarkTick(line: nat -> bool, b: nat, log: seq<Pull>, t0: real, r: real, m: nat) returns (h: nat)
    requires Carries(line, b, log) && Tolerated(r) && t0 >= 0.0
    requires b as real <= Time(t0, r, m) < b as real + 175.0
    ensures m <= h && R.AllLow(Sampled(line, t0, r), m, h) && Sampled(line, t0, r)(h)
    ensures (b + 177) as real <= Time(t0, r, h) < (b + 177) as real + r
  {
    h := FirstTick(t0, r, m, (b + 177) as real);
    BreakIsLow(line, b, log, t0, r, m, h);
    BreakOnLine(line, b, log, Time(t0, r, h).Floor);
  }

  /** A receiver armed at most 80 cycles into the break has found it, and waits for the first
      start edge, within three cycles of the end of the break. */
  lemma FindsBreak(line: nat -> bool, b: nat, log: seq<Pull>, t0: real, r: real, l: R.Listener) returns (m: nat)
    requires Quiet(line, b) && Carries(line, b, log) && Tolerated(r)
    requires 0.0 <= t0 <= b as real + 80.0 && l.ph == R.Arm
    ensures R.ListenAt(l, Sampled(line, t0, r), m) == l.(ph := R.Hunt)
    ensures (b + 177) as real <= Time(t0, r, m) < (b + 180) as real
  {
    hide R.ListenAt, Carries, Quiet, Sampled, Time;
    var m0 := AcceptsBreak(line, b, log, t0, r, l);
    var h := FirstMarkTick(line, b, log, t0, r, m0);
    R.MarkEndsBreak(l, Sampled(line, t0, r), m0, h);
    NextTime(t0, r, h);
    m := h + 1;
  }

  lemma EdgeAfterBreak(line: nat -> bool, b: nat, log: seq<Pull>)
    requires Carries(line, b, log)
    ensures log != [] ==> Edge(b, log, 0) >= b + BREAK_CYCLES
  {
  }

  lemma BreakIsLow(line: nat -> bool, b: nat, log: seq<Pull>, t0: real, r: real, n: nat, m: nat)
    requires Carries(line, b, log) && Tolerated(r) && t0 >= 0.0 && n <= m
    requires b as real <= Time(t0, r, n)
    requires (m > n ==> Time(t0, r, m - 1) < (b + 177) as real) || (m == n + 91 && Time(t0, r, n) < b as real + 82.0)
    ensures R.AllLow(Sampled(line, t0, r), n, m)
  {
    hide Time, Carries;
    EdgeAfterBreak(line, b, log);
    if m == n + 91 { Later(t0, r, n, 90); }
    forall i: nat | n <= i < m ensures !Sampled(line, t0, r)(i) {
      TimeGrows(t0, r, n, i);
      TimeGrows(t0, r, i, m - 1);
      BreakOnLine(line, b, log, Time(t0, r, i).Floor);
    }
  }

  // ---------------------------------------------------------------------------------------
  // From one start edge to the next.

  lemma DataCell(line: nat -> bool, b: nat, log: seq<Pull>, i: nat, k: nat, c: nat)
    requires Carries(line, b, log) && i < |log| && k < 8
    requires Edge(b, log, i) + 4 + 4 * k <= c < Edge(b, log, i) + 8 + 4 * k
    ensures line(c) == Bit(log[i].word, k)
  {
    SlotOnLine(line, b, log, i, c);
    hide Carries, Bit;
    assert (c - Edge(b, log, i) - 4) / 4 == k;
  }

  lemma SampleInCell(line: nat -> bool, b: nat, log: seq<Pull>, t0: real, r: real, i: nat, e: nat, k: nat)
    requires Carries(line, b, log) && Tolerated(r) && i < |log| && k < 8
    requires Edge(b, log, i) as real <= Time(t0, r, e) < Edge(b, log, i) as real + r
    ensures 4 + 4 * k <= Time(t0, r, e + 6 + 4 * k).Floor - Edge(b, log, i) < 8 + 4 * k
    ensures Sampled(line, t0, r)(e + 6 + 4 * k) == Bit(log[i].word, k)
  {
    Later(t0, r, e, 6 + 4 * k);
    SampleTime(Edge(b, log, i), Time(t0, r, e), r, k);
    DataCell(line, b, log, i, k, Time(t0, r, e + 6 + 4 * k).Floor);
    hide Carries, Bit, Time;
  }

  /** From the first tick at or after the edge of slot i, every sample falls into its own cell. */
  lemma SamplesInCells(line: nat -> bool, b: nat, log: seq<Pull>, t0: real, r: real, i: nat, e: nat)
    requires Carries(line, b, log) && Tolerated(r) && i < |log|
    requires Edge(b, log, i) as real <= Time(t0, r, e) < Edge(b, log, i) as real + r
    ensures R.Samples(Sampled(line, t0, r), e, log[i].word)
    ensures forall k: nat :: k < 8 ==>
      4 + 4 * k <= Time(t0, r, e + 6 + 4 * k).Floor - Edge(b, log, i) < 8 + 4 * k
  {
    forall k: nat | k < 8
      ensures 4 + 4 * k <= Time(t0, r, e + 6 + 4 * k).Floor - Edge(b, log, i) < 8 + 4 * k
      ensures Sampled(line, t0, r)(e + 6 + 4 * k) == Bit(log[i].word, k)
    {
      SampleInCell(line, b, log, t0, r, i, e, k);
    }
    hide Carries, Bit, Time, Sampled;
  }

  lemma StartCell(line: nat -> bool, b: nat, log: seq<Pull>, i: nat, c: nat)
    requires Carries(line, b, log) && i < |log|
    requires Edge(b, log, i) <= c < Edge(b, log, i) + 4
    ensures !line(c)
  {
    SlotOnLine(line, b, log, i, c);
  }

  /** From the stop bits of slot i to the next start edge the line is at mark. */
  lemma StopCell(line: nat -> bool, b: nat, log: seq<Pull>, i: nat, c: nat)
    requires Carries(line, b, log) && i < |log|
    requires Edge(b, log, i) + 36 <= c && (i + 1 < |log| ==> c < Edge(b, log, i + 1))
    ensures line(c)
  {
    SlotOnLine(line, b, log, i, c);
  }

  lemma EdgeAndStopSeen(line: nat -> bool, b: nat, log: seq<Pull>, t0: real, r: real, i: nat, e: nat)
    requires Carries(line, b, log) && Tolerated(r) && i < |log|
    requires Edge(b, log, i) as real <= Time(t0, r, e) < Edge(b, log, i) as real + r
    ensures !Sampled(line, t0, r)(e)
    ensures Sampled(line, t0, r)(e + 39)
  {
    Later(t0, r, e, 39);
    StartCell(line, b, log, i, Time(t0, r, e).Floor);
    StopCell(line, b, log, i, Time(t0, r, e + 39).Floor);
    hide Carries, Time;
  }

  lemma SampleTime(x: nat, t: real, r: real, k: nat)
    requires Tolerated(r) && k < 8 && x as real <= t < x as real + r
    ensures x + 4 + 4 * k <= (t + ((6 + 4 * k) as real) * r).Floor < x + 8 + 4 * k
  {
    match k
    case 0 => assert (6 + 4 * k) as real == 6.0;
    case 1 => assert (6 + 4 * k) as real == 10.0;
    case 2 => assert (6 + 4 * k) as real == 14.0;
    case 3 => assert (6 + 4 * k) as real == 18.0;
    case 4 => assert (6 + 4 * k) as real == 22.0;
    case 5 => assert (6 + 4 * k) as real == 26.0;
    case 6 => assert (6 + 4 * k) as real == 30.0;
    case 7 => assert (6 + 4 * k) as real == 34.0;
  }

  function LowBytes(ws: seq<Word>): seq<Word> {
    seq(|ws|, i requires 0 <= i < |ws| => LowByte(ws[i]))
  }

  function Bytes(log: seq<Pull>): seq<Word> {
    LowBytes(Words(log))
  }

  /** Listening for the edge of slot i (or, with i the number of slots, done), with the line at
      mark until then. */
  ghost predicate Ready(line: nat -> bool, b: nat, log: seq<Pull>, t0: real, r: real, l: R.Listener, l0: R.Listener,
                        i: nat, m: nat)
  {
    && i <= |log| && l == R.ListenAt(l0, Sampled(line, t0, r), m)
    && l.ph == R.Hunt && l.got == l0.got + Bytes(log[..i])
    && Time(t0, r, m) >= 0.0
    && (i < |log| ==> Time(t0, r, m) <= Edge(b, log, i) as real)
    && forall c: nat :: Time(t0, r, m).Floor <= c && (i < |log| ==> c < Edge(b, log, i)) ==> line(c)
  }

  lemma WaitsForEdge(line: nat -> bool, b: nat, log: seq<Pull>, t0: real, r: real, l: R.Listener, l0: R.Listener,
                     i: nat, m: nat) returns (e: nat)
    requires Tolerated(r) && i < |log| && Ready(line, b, log, t0, r, l, l0, i, m)
    ensures m <= e && R.ListenAt(l0, Sampled(line, t0, r), e) == l
    ensures Edge(b, log, i) as real <= Time(t0, r, e) < Edge(b, log, i) as real + r
  {
    e := FirstTick(t0, r, m, Edge(b, log, i) as real);
    MarkTicks(line, t0, r, m, e, Edge(b, log, i));
    R.WaitForEdge(l0, Sampled(line, t0, r), m, e);
  }

  lemma ReceivesSlot(line: nat -> bool, b: nat, log: seq<Pull>, t0: real, r: real, l: R.Listener, l0: R.Listener,
                     i: nat, m: nat) returns (m1: nat)
    requires Carries(line, b, log) && Tolerated(r) && i < |log|
    requires Ready(line, b, log, t0, r, l, l0, i, m)
    ensures m <= m1 && m1 > 0 && Time(t0, r, m1 - 1) < Edge(b, log, i) as real + 44.0
    ensures Ready(line, b, log, t0, r, R.ListenAt(l0, Sampled(line, t0, r), m1), l0, i + 1, m1)
  {
    hide Carries, Time, R.ListenAt, R.Samples, LowByte, Sampled;
    var e := WaitsForEdge(line, b, log, t0, r, l, l0, i, m);
    SamplesInCells(line, b, log, t0, r, i, e);
    EdgeAndStopSeen(line, b, log, t0, r, i, e);
    m1 := R.ReceiveByte(l0, Sampled(line, t0, r), e, log[i].word);
    SlotIsOver(line, b, log, t0, r, i, e, m1);
    SlotIsOverInTime(Edge(b, log, i), t0, r, e, m1);
    OneMoreByte(log, i);
  }

  lemma SlotIsOverInTime(x: nat, t0: real, r: real, e: nat, m: nat)
    requires Tolerated(r) && e + 41 <= m <= e + 42 && Time(t0, r, e) < x as real + r
    ensures Time(t0, r, m - 1) < x as real + 44.0
  {
    hide Time, Tolerated;
    TickBounds(r);
    Later(t0, r, e, 40);
    Later(t0, r, e, 41);
  }

  lemma OneMoreByte(log: seq<Pull>, i: nat)
    requires i < |log|
    ensures Bytes(log[..i + 1]) == Bytes(log[..i]) + [LowByte(log[i].word)]
  {
    hide LowByte;
  }

  lemma MarkTicks(line: nat -> bool, t0: real, r: real, m: nat, e: nat, x: nat)
    requires r >= 0.0 && Time(t0, r, m) >= 0.0
    requires forall c: nat :: Time(t0, r, m).Floor <= c < x ==> line(c)
    requires forall i: nat :: m <= i < e ==> Time(t0, r, i) < x as real
    ensures forall i: nat :: m <= i < e ==> Sampled(line, t0, r)(i)
  {
    forall i: nat | m <= i < e ensures Sampled(line, t0, r)(i) {
      TimeGrows(t0, r, m, i);
    }
  }

  lemma TickBounds(r: real)
    requires Tolerated(r)
    ensures 0.0 <= r <= 1.5 && 41.0 * r >= 38.0 && 42.0 * r <= 44.0
  {
  }

  lemma EdgesApart(line: nat -> bool, b: nat, log: seq<Pull>, i: nat)
    requires Carries(line, b, log) && i < |log|
    ensures i + 1 < |log| ==> Edge(b, log, i) + SLOT_CYCLES <= Edge(b, log, i + 1)
  {
  }

  lemma SlotIsOver(line: nat -> bool, b: nat, log: seq<Pull>, t0: real, r: real, i: nat, e: nat, m: nat)
    requires Carries(line, b, log) && Tolerated(r) && i < |log| && e + 41 <= m <= e + 42
    requires Edge(b, log, i) as real <= Time(t0, r, e) < Edge(b, log, i) as real + r
    ensures Time(t0, r, m) >= 0.0
    ensures i + 1 < |log| ==> Time(t0, r, m) <= Edge(b, log, i + 1) as real
    ensures forall c: nat :: Time(t0, r, m).Floor <= c && (i + 1 < |log| ==> c < Edge(b, log, i + 1)) ==> line(c)
  {
    hide Time, Tolerated, Carries;
    SlotTime(Edge(b, log, i), t0, r, e, m);
    EdgesApart(line, b, log, i);
    assert Edge(b, log, i) + 36 <= Time(t0, r, m).Floor;
    forall c: nat | Time(t0, r, m).Floor <= c && (i + 1 < |log| ==> c < Edge(b, log, i + 1)) ensures line(c) {
      StopCell(line, b, log, i, c);
    }
  }

  lemma SlotTime(x: nat, t0: real, r: real, e: nat, m: nat)
    requires Tolerated(r) && e + 41 <= m <= e + 42 && x as real <= Time(t0, r, e) < x as real + r
    ensures (x + 38) as real <= Time(t0, r, m) <= (x + 46) as real
  {
    hide Time, Tolerated;
    TickBounds(r);
    var t := Time(t0, r, e);
    if m == e + 41 {
      Later(t0, r, e, 41);
      assert Time(t0, r, m) == t + 41.0 * r;
      assert 41.0 * r <= 42.0 * r;
    } else {
      Later(t0, r, e, 42);
      assert Time(t0, r, m) == t + 42.0 * r;
      assert 42.0 * r >= 41.0 * r;
    }
  }

  lemma {:induction false} ReceivesSlots(line: nat -> bool, b: nat, log: seq<Pull>, t0: real, r: real, l0: R.Listener,
                                         i: nat) returns (m: nat)
    requires Quiet(line, b) && Carries(line, b, log) && Tolerated(r) && i <= |log|
    requires 0.0 <= t0 <= b as real + 80.0 && l0.ph == R.Arm
    ensures Ready(line, b, log, t0, r, R.ListenAt(l0, Sampled(line, t0, r), m), l0, i, m)
    ensures i > 0 ==> m > 0 && Time(t0, r, m - 1) < Edge(b, log, i - 1) as real + 44.0
  {
    if i == 0 {
      m := FindsBreak(line, b, log, t0, r, l0);
      forall c: nat | Time(t0, r, m).Floor <= c && (0 < |log| ==> c < Edge(b, log, 0)) ensures line(c) {
        BreakOnLine(line, b, log, c);
      }
      assert Bytes(log[..0]) == [];
      hide Carries, Time, R.ListenAt;
    } else {
      var m0 := ReceivesSlots(line, b, log, t0, r, l0, i - 1);
      m := ReceivesSlot(line, b, log, t0, r, R.ListenAt(l0, Sampled(line, t0, r), m0), l0, i - 1, m0);
    }
  }

  /** A receiver armed at any time before the break is 80 cycles old, with a clock anywhere in the
      tolerated interval and in any phase, pushes exactly the bytes of the frame, in order, and
      then nothing more. */
  lemma ReceivesFrame(line: nat -> bool, b: nat, log: seq<Pull>, t0: real, r: real, l0: R.Listener) returns (m: nat)
    requires Quiet(line, b) && Carries(line, b, log) && Tolerated(r)
    requires 0.0 <= t0 <= b as real + 80.0 && l0.ph == R.Arm
    ensures forall n: nat :: m <= n ==> R.ListenAt(l0, Sampled(line, t0, r), n).got == l0.got + Bytes(log)
  {
    m := ReceivesSlots(line, b, log, t0, r, l0, |log|);
    assert log[..|log|] == log;
    forall n: nat | m <= n
      ensures R.ListenAt(l0, Sampled(line, t0, r), n).got == l0.got + Bytes(log)
    {
      forall i: nat | m <= i < n ensures Sampled(line, t0, r)(i) {
        TimeGrows(t0, r, m, i);
      }
      R.WaitForEdge(l0, Sampled(line, t0, r), m, n);
    }
  }

  // ---------------------------------------------------------------------------------------
  // The two machines.

  /** What the line carries when, in its cycle b, a transmission begins. */
  function OnLine(before: nat -> bool, b: nat, s: Tx<Sm>, grants: nat -> bool): nat -> bool {
    (c: nat) => if c < b then before(c) else Line(s, grants, c - b)
  }

  /** A finished transmission puts the frame of its words on the line: what the FIFO held at the call,
      then the universe. */
  lemma TransmissionCarries(t: Tx<Sm>, universe: seq<Word>, grants: nat -> bool, done: nat,
                            before: nat -> bool, b: nat) returns (log: seq<Pull>)
    requires !TxAt(WriteDmx(false, t, universe), grants, done).Busy()
    ensures Carries(OnLine(before, b, WriteDmx(false, t, universe), grants), b, log)
    ensures Words(log) == t.fifo + universe
  {
    hide TxAt, Line, FrameLevel, WriteDmx;
    var s0 := WriteDmx(false, t, universe);
    var s := TxAt(s0, grants, done);
    log := s.log;
    Waveform(false, t, universe, grants, done);
    assert Words(log) + s.fifo + s.src == Words(log);
    forall c: nat | b <= c ensures OnLine(before, b, s0, grants)(c) == FrameLevel(false, log, c - b) {
      FinishedLine(false, t, universe, grants, done, c - b);
    }
  }

  /** Whatever the line carried before, short of a break; whatever the registers of either machine
      held; under every DMA schedule that gets the words out; for every clock rate and phase in
      tolerance: the receiver program pushes exactly the bytes sent, in order. */
  lemma LinkRoundTrip(t: Tx<Sm>, universe: seq<Word>, grants: nat -> bool, done: nat,
                      before: nat -> bool, b: nat, rx: R.Rx, t0: real, r: real) returns (m: nat)
    requires !TxAt(WriteDmx(false, t, universe), grants, done).Busy()
    requires Quiet(OnLine(before, b, WriteDmx(false, t, universe), grants), b)
    requires Tolerated(r) && 0.0 <= t0 <= b as real + 80.0
    ensures var line := OnLine(before, b, WriteDmx(false, t, universe), grants);
            forall n: nat :: m <= n ==>
              R.RxAt(R.Rearm(rx), Sampled(line, t0, r), n).got == rx.got + LowBytes(t.fifo + universe)
  {
    var line := OnLine(before, b, WriteDmx(false, t, universe), grants);
    var log := TransmissionCarries(t, universe, grants, done, before, b);
    var l0 := R.Listener(R.Arm, rx.sm.isr, rx.got);
    m := ReceivesFrame(line, b, log, t0, r, l0);
    assert R.Refines(R.Rearm(rx), l0);
    forall n: nat | m <= n
      ensures R.RxAt(R.Rearm(rx), Sampled(line, t0, r), n).got == rx.got + Bytes(log)
    {
      R.RunRefines(R.Rearm(rx), l0, Sampled(line, t0, r), n);
    }
  }

  lemma {:induction false} RxGotGrows(rx: R.Rx, tick: nat -> bool, n: nat, m: nat)
    requires n <= m
    ensures R.RxAt(rx, tick, n).got <= R.RxAt(rx, tick, m).got
    decreases m
  {
    hide R.RxInstr;
    if n < m {
      RxGotGrows(rx, tick, n, m - 1);
    }
  }

  /** A buffer of up to as many bytes as are sent is filled, and from the tick on that fills it, it holds
      the first of them. */
  lemma LinkFillsBuffer(t: Tx<Sm>, universe: seq<Word>, grants: nat -> bool, done: nat,
                        before: nat -> bool, b: nat, rx: R.Rx, t0: real, r: real, size: nat) returns (m: nat)
    requires !TxAt(WriteDmx(false, t, universe), grants, done).Busy()
    requires Quiet(OnLine(before, b, WriteDmx(false, t, universe), grants), b)
    requires Tolerated(r) && 0.0 <= t0 <= b as real + 80.0
    requires rx.got == [] && size <= |t.fifo + universe|
    ensures var tick := Sampled(OnLine(before, b, WriteDmx(false, t, universe), grants), t0, r);
            && |R.RxAt(R.Rearm(rx), tick, m).got| >= size
            && forall n: nat :: |R.RxAt(R.Rearm(rx), tick, n).got| >= size ==>
                 R.RxAt(R.Rearm(rx), tick, n).got[..size] == LowBytes(t.fifo + universe)[..size]
  {
    hide TxAt, OnLine, Quiet, R.RxAt, Sampled, WriteDmx, LowByte;
    m := LinkRoundTrip(t, universe, grants, done, before, b, rx, t0, r);
    var tick := Sampled(OnLine(before, b, WriteDmx(false, t, universe), grants), t0, r);
    assert rx.got + LowBytes(t.fifo + universe) == LowBytes(t.fifo + universe);
    forall n: nat | |R.RxAt(R.Rearm(rx), tick, n).got| >= size
      ensures R.RxAt(R.Rearm(rx), tick, n).got[..size] == LowBytes(t.fifo + universe)[..size]
    {
      if n < m { RxGotGrows(R.Rearm(rx), tick, n, m); }
    }
  }

  // ---------------------------------------------------------------------------------------
  // How exact the tolerance is.

  /** One slot, alone on the line, with its start edge at cycle 193. */
  function SlotLine(w: Word): nat -> bool {
    (c: nat) => FrameLevel(false, [Pull(PREAMBLE_CYCLES, w)], c)
  }

  /** A receiver waiting for the edge, with its first tick `phase` after it, pushes the byte. */
  ghost predicate Decodes(w: Word, phase: real, r: real) {
    EverPushes(R.Listener(R.Hunt, 0, []), Sampled(SlotLine(w), 193.0 + phase, r), [LowByte(w)])
  }

  ghost predicate EverPushes(l: R.Listener, tick: nat -> bool, ws: seq<Word>) {
    exists m: nat :: HasPushed(l, tick, m, ws)
  }

  ghost predicate HasPushed(l: R.Listener, tick: nat -> bool, m: nat, ws: seq<Word>) {
    R.ListenAt(l, tick, m).got == ws
  }

  lemma ToleratedDecodes(w: Word, phase: real, r: real)
    requires Tolerated(r) && 0.0 <= phase < r
    ensures Decodes(w, phase, r)
  {
    var log := [Pull(PREAMBLE_CYCLES, w)];
    var line := SlotLine(w);
    assert Carries(line, 0, log);
    SamplesInCells(line, 0, log, 193.0 + phase, r, 0, 0);
    EdgeAndStopSeen(line, 0, log, 193.0 + phase, r, 0, 0);
    hide Carries, R.Samples;
    var m := R.ReceiveByte(R.Listener(R.Hunt, 0, []), Sampled(line, 193.0 + phase, r), 0, w);
    assert HasPushed(R.Listener(R.Hunt, 0, []), Sampled(line, 193.0 + phase, r), m, [LowByte(w)]);
  }

  /** Too fast a receiver takes its last sample before the last bit has begun. */
  lemma TooFastFails(r: real)
    requires 0.0 < r < 32.0 / 34.0
    ensures !Decodes(0x80, 0.0, r)
  {
    Wrong(0x80, 0.0, r);
  }

  /** Too slow a receiver can take it after the last bit is over. */
  lemma TooSlowFails(r: real) returns (phase: real)
    requires r > 36.0 / 35.0
    ensures 0.0 <= phase < r && !Decodes(0, phase, r)
  {
    phase := if 34.0 * r >= 36.0 then 0.0 else 36.0 - 34.0 * r;
    Wrong(0, phase, r);
  }

  lemma Wrong(w: Word, phase: real, r: real)
    requires r > 0.0 && 0.0 <= phase < 4.0
    requires (w == 0x80 && phase + 34.0 * r < 32.0) || (w == 0 && phase + 34.0 * r >= 36.0)
    ensures !Decodes(w, phase, r)
  {
    hide Sampled, SlotLine, R.ListenAt, Time, LowByte;
    WrongTopBit(w, phase, r);
    var tick := Sampled(SlotLine(w), 193.0 + phase, r);
    var l0 := R.Listener(R.Hunt, 0, []);
    TopBits();
    forall m: nat ensures !HasPushed(l0, tick, m, [LowByte(w)]) {
      R.FirstByteTopBit(l0, tick, m);
    }
  }

  lemma TopBits()
    ensures LowByte(0x80) == 0x80 && LowByte(0) == 0
  {
  }

  /** The sample that becomes the top bit falls before the last bit cell, or behind it. */
  lemma WrongTopBit(w: Word, phase: real, r: real)
    requires r > 0.0 && 0.0 <= phase < 4.0
    requires (w == 0x80 && phase + 34.0 * r < 32.0) || (w == 0 && phase + 34.0 * r >= 36.0)
    ensures var tick := Sampled(SlotLine(w), 193.0 + phase, r); !tick(0) && tick(34) == (w == 0)
  {
    var log := [Pull(PREAMBLE_CYCLES, w)];
    var line := SlotLine(w);
    assert Carries(line, 0, log);
    hide Time, SlotLine, Carries;
    FirstTime(193.0 + phase, r);
    StartCell(line, 0, log, 0, Time(193.0 + phase, r, 0).Floor);
    Later(193.0 + phase, r, 0, 34);
    var c := Time(193.0 + phase, r, 34).Floor;
    SlotOnLine(line, 0, log, 0, c);
    if w == 0x80 && c - 193 >= 4 { LowBits(c - 193 - 4); }
  }

  lemma LowBits(n: nat)
    requires n < 28
    ensures !Bit(0x80, n / 4)
  {
    var k := n / 4;
    ShrIsDiv(0x80, k);
    PowAdd(k, 7 - k);
    assert Pow2(7) == 0x80 by { PowAdd(3, 4); }
    DivModUnique(0x80, Pow2(k), Pow2(7 - k), 0);
    assert Pow2(7 - k) == 2 * Pow2(6 - k);
  }

  /** Every byte decodes in every phase if and only if the receiver's tick is between 32/34 and
      36/35 of the transmitter's cycle. */
  lemma ToleranceIsExact(r: real)
    requires r > 0.0
    ensures Tolerated(r) <==> forall w: Word, phase: real :: 0.0 <= phase < r ==> Decodes(w, phase, r)
  {
    if Tolerated(r) {
      forall w: Word, phase: real | 0.0 <= phase < r ensures Decodes(w, phase, r) {
        ToleratedDecodes(w, phase, r);
      }
    } else if r < 32.0 / 34.0 {
      TooFastFails(r);
    } else {
      var phase := TooSlowFails(r);
    }
    hide Decodes;
  }
}
