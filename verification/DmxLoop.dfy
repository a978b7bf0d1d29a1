/**
  The closed loop: transmissions one after the other, and a receiver whose interrupt handler takes the
  buffer and rearms whenever the buffer is full.
 */
module DmxLoop {
  import opened Pio
  import opened DmxTransmit
  import opened DmxWaveform
  import opened DmxLink
  import opened DmxResync
  import R = DmxReceive

  // ---------------------------------------------------------------------------------------
  // The transmissions.

  /** One write_dmx, and the cycles until the next one. */
  datatype Send = Send(universe: seq<Word>, grants: nat -> bool, len: nat)

  function After(t: Tx<Sm>, x: Send): Tx<Sm> {
    TxAt(WriteDmx(false, t, x.universe), x.grants, x.len)
  }

  /** The line from the first write_dmx on; the last transmission is not broken off. */
  predicate TimelineLevel(t: Tx<Sm>, xs: seq<Send>, c: nat)
    requires xs != []
    decreases |xs|
  {
    if |xs| == 1 || c < xs[0].len then Line(WriteDmx(false, t, xs[0].universe), xs[0].grants, c)
    else TimelineLevel(After(t, xs[0]), xs[1..], c - xs[0].len)
  }

  /** The line with the transmissions beginning in its cycle b. */
  function WholeLine(before: nat -> bool, b: nat, t: Tx<Sm>, xs: seq<Send>): nat -> bool
    requires xs != []
  {
    (c: nat) => if c < b then before(c) else TimelineLevel(t, xs, c - b)
  }

  /** The slots of the first `size` words are over before the next write_dmx. */
  ghost predicate Delivers(t: Tx<Sm>, x: Send, size: nat) {
    var log := After(t, x).log;
    0 < size <= |log| && log[size - 1].at + SLOT_CYCLES <= x.len
  }

  ghost predicate AllDeliver(t: Tx<Sm>, xs: seq<Send>, size: nat)
    decreases |xs|
  {
    xs != [] ==> Delivers(t, xs[0], size) && AllDeliver(After(t, xs[0]), xs[1..], size)
  }

  /** The first `size` bytes of every transmission. */
  function FirstBytes(t: Tx<Sm>, xs: seq<Send>, size: nat): seq<seq<Word>>
    decreases |xs|
  {
    if xs == [] then []
    else
      var bytes := LowBytes(t.fifo + xs[0].universe);
      [if size <= |bytes| then bytes[..size] else bytes] + FirstBytes(After(t, xs[0]), xs[1..], size)
  }

  // ---------------------------------------------------------------------------------------
  // The receiver.

  /** The receiver, and the buffers taken so far. */
  datatype Capture = Capture(rx: R.Rx, taken: seq<seq<Word>>)

  /** One tick.  Once the buffer is full the interrupt is raised; when the handler gets to run, the
      buffer is taken and the program starts again.  What is pushed in between does not reach the buffer. */
  function CaptureTick(c: Capture, size: nat, level: bool, served: bool): Capture {
    var rx := R.RxCycle(c.rx, level);
    if served && |rx.got| >= size then Capture(R.Rearm(rx).(got := []), c.taken + [rx.got[..size]])
    else Capture(rx, c.taken)
  }

  function CaptureAt(c: Capture, size: nat, tick: nat -> bool, serve: nat -> bool, n: nat): Capture {
    if n == 0 then c else CaptureTick(CaptureAt(c, size, tick, serve, n - 1), size, tick(n - 1), serve(n - 1))
  }

  const HANDLER_TICKS := 77

  /** The handler runs within 77 ticks. */
  ghost predicate ServedSoon(serve: nat -> bool, n: nat) {
    exists k: nat :: n <= k < n + HANDLER_TICKS && serve(k)
  }

  predicate Armed(rx: R.Rx) {
    rx.sm.pc == 0 && rx.sm.delay == 0 && rx.got == []
  }

  // ---------------------------------------------------------------------------------------
  // Shifting the origin of ticks and cycles.

  function Shift(f: nat -> bool, k: nat): nat -> bool {
    (n: nat) => f(k + n)
  }

  lemma {:induction false} CaptureShift(c: Capture, size: nat, tick: nat -> bool, serve: nat -> bool, k: nat, n: nat)
    ensures CaptureAt(c, size, tick, serve, k + n) ==
            CaptureAt(CaptureAt(c, size, tick, serve, k), size, Shift(tick, k), Shift(serve, k), n)
    decreases n
  {
    hide CaptureTick;
    if n > 0 { CaptureShift(c, size, tick, serve, k, n - 1); }
  }

  lemma {:induction false} CaptureSame(c: Capture, size: nat, f: nat -> bool, g: nat -> bool, serve: nat -> bool,
                                       n: nat)
    requires forall i: nat :: i < n ==> f(i) == g(i)
    ensures CaptureAt(c, size, f, serve, n) == CaptureAt(c, size, g, serve, n)
    decreases n
  {
    hide CaptureTick;
    if n > 0 { CaptureSame(c, size, f, g, serve, n - 1); }
  }

  lemma {:induction false} RxSame(rx: R.Rx, f: nat -> bool, g: nat -> bool, n: nat)
    requires forall i: nat :: i < n ==> f(i) == g(i)
    ensures R.RxAt(rx, f, n) == R.RxAt(rx, g, n)
    decreases n
  {
    hide R.RxCycle;
    if n > 0 { RxSame(rx, f, g, n - 1); }
  }

  lemma {:induction false} TimeShift(t0: real, r: real, k: nat, s: real, n: nat)
    ensures Time(t0, r, k + n) == Time(Time(t0, r, k) - s, r, n) + s
  {
    if n > 0 { TimeShift(t0, r, k, s, n - 1); }
  }

  /** From tick k and cycle s on, a receiver samples the shifted line. */
  lemma SampledShift(line: nat -> bool, rest: nat -> bool, t0: real, r: real, k: nat, s: nat, n: nat)
    requires r >= 0.0 && t0 >= 0.0 && Time(t0, r, k) >= s as real
    requires forall c: nat :: rest(c) == line(s + c)
    ensures Shift(Sampled(line, t0, r), k)(n) == Sampled(rest, Time(t0, r, k) - s as real, r)(n)
  {
    hide Time;
    TimeShift(t0, r, k, s as real, n);
    TimeGrows(t0, r, k, k + n);
    LevelShift(line, rest, Time(t0, r, k + n), s);
  }

  lemma LevelShift(line: nat -> bool, rest: nat -> bool, x: real, s: nat)
    requires x >= s as real && forall c: nat :: rest(c) == line(s + c)
    ensures LevelAt(line, x) == LevelAt(rest, x - s as real)
  {
    assert (x - s as real).Floor == x.Floor - s;
    assert rest(x.Floor - s) == line(s + (x.Floor - s));
  }

  // ---------------------------------------------------------------------------------------
  // One frame.

  lemma QuietOnSameLine(f: nat -> bool, g: nat -> bool, b: nat)
    requires Quiet(f, b) && forall c: nat :: c < b ==> f(c) == g(c)
    ensures Quiet(g, b)
  {
    forall a: nat | a < b ensures LongMarkWithin(g, a, b) {
      assert LongMarkWithin(f, a, b);
    }
    forall a: nat | a + 80 <= b ensures HasMark(g, a, 80) {
      assert HasMark(f, a, 80);
      var c: nat :| a <= c < a + 80 && f(c);
      assert g(c);
    }
  }

  lemma {:induction false} SampledSame(f: nat -> bool, g: nat -> bool, end: nat, t0: real, r: real, n: nat)
    requires r >= 0.0 && t0 >= 0.0 && (n > 0 ==> Time(t0, r, n - 1) < end as real)
    requires forall c: nat :: c < end ==> f(c) == g(c)
    ensures forall i: nat :: i < n ==> Sampled(f, t0, r)(i) == Sampled(g, t0, r)(i)
  {
    forall i: nat | i < n ensures Sampled(f, t0, r)(i) == Sampled(g, t0, r)(i) {
      TimeGrows(t0, r, 0, i);
      TimeGrows(t0, r, i, n - 1);
    }
  }

  /** A frame on the line up to cycle `end`: by then its first `size` bytes are received, nothing is
      received before its break is over, and what is received begins with these bytes. */
  lemma FrameIsReceived(line: nat -> bool, b: nat, log: seq<Pull>, end: nat, t0: real, r: real, rx: R.Rx, size: nat)
    returns (m: nat)
    requires Quiet(line, b) && Spaced(log) && forall c: nat :: b <= c < end ==> line(c) == FrameLevel(false, log, c - b)
    requires 0 < size <= |log| && b + log[size - 1].at + SLOT_CYCLES <= end
    requires Tolerated(r) && 0.0 <= t0 <= b as real + 80.0 && Armed(rx)
    ensures m > 0 && Time(t0, r, m - 1) < end as real && |R.RxAt(rx, Sampled(line, t0, r), m).got| >= size
    ensures forall n: nat :: R.RxAt(rx, Sampled(line, t0, r), n).got != [] ==>
              Time(t0, r, n) >= (b + BREAK_CYCLES) as real
    ensures forall n: nat :: |R.RxAt(rx, Sampled(line, t0, r), n).got| >= size ==>
              R.RxAt(rx, Sampled(line, t0, r), n).got[..size] == Bytes(log)[..size]
  {
    hide Quiet, Time, R.RxAt, R.ListenAt, FrameLevel, Spaced, Sampled, LowByte, Tolerated;
    var ideal := (c: nat) => if c < end then line(c) else FrameLevel(false, log, c - b);
    var l0 := R.Listener(R.Arm, rx.sm.isr, []);
    var tick, tock := Sampled(line, t0, r), Sampled(ideal, t0, r);
    TickIsPositive(r);
    assert b < end;
    QuietOnSameLine(line, ideal, b);
    assert Carries(ideal, b, log);
    m := ReceivesSlots(ideal, b, log, t0, r, l0, size);
    var h := FindsBreak(ideal, b, log, t0, r, l0);
    SampledSame(line, ideal, end, t0, r, m);
    ArmedRefines(rx, l0);
    R.RunRefines(rx, l0, tock, m);
    R.RunRefines(rx, l0, tock, h);
    RxSame(rx, tick, tock, m);
    assert R.ListenAt(l0, tock, m).got == Bytes(log[..size]) && |Bytes(log[..size])| == size;
    BytesOfPrefix(log, size);
    assert R.RxAt(rx, tick, m).got == Bytes(log)[..size];
    FrameBreakFirst(line, ideal, b, end, t0, r, rx, m, h);
    forall n: nat | |R.RxAt(rx, tick, n).got| >= size
      ensures R.RxAt(rx, tick, n).got[..size] == Bytes(log)[..size]
    {
      if n <= m { RxGotGrows(rx, tick, n, m); } else { RxGotGrows(rx, tick, m, n); }
    }
  }

  lemma TickIsPositive(r: real)
    requires Tolerated(r)
    ensures 0.5 <= r <= 1.5
  {
  }

  lemma ArmedRefines(rx: R.Rx, l: R.Listener)
    requires Armed(rx) && l == R.Listener(R.Arm, rx.sm.isr, [])
    ensures R.Refines(rx, l)
  {
  }

  lemma BytesOfPrefix(log: seq<Pull>, n: nat)
    requires n <= |log|
    ensures Bytes(log[..n]) == Bytes(log)[..n] && |Bytes(log)| == |log|
  {
    hide LowByte;
  }

  /** Nothing is pushed before tick h, in which the break is just over. */
  lemma FrameBreakFirst(line: nat -> bool, ideal: nat -> bool, b: nat, end: nat, t0: real, r: real, rx: R.Rx,
                        m: nat, h: nat)
    requires 0.5 <= r && t0 >= 0.0 && m > 0 && (forall c: nat :: c < end ==> line(c) == ideal(c))
    requires Time(t0, r, h) >= (b + BREAK_CYCLES) as real && R.RxAt(rx, Sampled(ideal, t0, r), h).got == []
    requires Time(t0, r, m - 1) < end as real && R.RxAt(rx, Sampled(ideal, t0, r), m).got != []
    ensures forall n: nat :: R.RxAt(rx, Sampled(line, t0, r), n).got != [] ==>
              Time(t0, r, n) >= (b + BREAK_CYCLES) as real
  {
    hide Time, R.RxAt, Sampled;
    var tick, tock := Sampled(line, t0, r), Sampled(ideal, t0, r);
    if h >= m { RxGotGrows(rx, tock, m, h); }
    TimeGrows(t0, r, h, m - 1);
    if h > 0 { TimeGrows(t0, r, h - 1, m - 1); }
    SampledSame(line, ideal, end, t0, r, h);
    RxSame(rx, tick, tock, h);
    forall n: nat | R.RxAt(rx, tick, n).got != [] ensures Time(t0, r, n) >= (b + BREAK_CYCLES) as real {
      if n < h { RxGotGrows(rx, tick, n, h); } else { TimeGrows(t0, r, h, n); }
    }
  }

  // ---------------------------------------------------------------------------------------
  // The handler.

  ghost predicate Taken(rx: R.Rx, size: nat, tick: nat -> bool, serve: nat -> bool, k: nat) {
    serve(k) && |R.RxAt(rx, tick, k + 1).got| >= size
  }

  lemma {:induction false} NotTakenYet(c: Capture, size: nat, tick: nat -> bool, serve: nat -> bool, n: nat)
    requires forall k: nat :: k < n ==> !Taken(c.rx, size, tick, serve, k)
    ensures CaptureAt(c, size, tick, serve, n) == Capture(R.RxAt(c.rx, tick, n), c.taken)
    decreases n
  {
    hide R.RxCycle;
    if n > 0 {
      NotTakenYet(c, size, tick, serve, n - 1);
      assert !Taken(c.rx, size, tick, serve, n - 1);
    }
  }

  /** The first tick at which a full buffer is taken. */
  lemma FirstTaken(rx: R.Rx, size: nat, tick: nat -> bool, serve: nat -> bool, from: nat, bound: nat) returns (k: nat)
    requires from <= bound && Taken(rx, size, tick, serve, bound)
    requires forall i: nat :: i < from ==> !Taken(rx, size, tick, serve, i)
    ensures k <= bound && Taken(rx, size, tick, serve, k)
    ensures forall i: nat :: i < k ==> !Taken(rx, size, tick, serve, i)
    decreases bound - from
  {
    hide Taken;
    if Taken(rx, size, tick, serve, from) {
      k := from;
    } else {
      k := FirstTaken(rx, size, tick, serve, from + 1, bound);
    }
  }

  lemma TakesBuffer(c: Capture, size: nat, tick: nat -> bool, serve: nat -> bool, m: nat) returns (k: nat)
    requires m > 0 && |R.RxAt(c.rx, tick, m).got| >= size && ServedSoon(serve, m - 1)
    ensures 0 < k < m + HANDLER_TICKS && |R.RxAt(c.rx, tick, k).got| >= size
    ensures var rx := R.RxAt(c.rx, tick, k);
            CaptureAt(c, size, tick, serve, k) == Capture(R.Rearm(rx).(got := []), c.taken + [rx.got[..size]])
  {
    hide R.RxAt, R.RxCycle;
    var s: nat :| m - 1 <= s < m - 1 + HANDLER_TICKS && serve(s);
    RxGotGrows(c.rx, tick, m, s + 1);
    var f := FirstTaken(c.rx, size, tick, serve, 0, s);
    NotTakenYet(c, size, tick, serve, f);
    RxNext(c.rx, tick, f);
    k := f + 1;
  }

  lemma RxNext(rx: R.Rx, tick: nat -> bool, n: nat)
    ensures R.RxAt(rx, tick, n + 1) == R.RxCycle(R.RxAt(rx, tick, n), tick(n))
  {
  }

  // ---------------------------------------------------------------------------------------
  // From one transmission to the next.

  /** After the last transmission nothing is taken any more. */
  lemma NothingMoreTaken(t: Tx<Sm>, universe: seq<Word>, grants: nat -> bool, s: nat, rest: nat -> bool,
                         c: Capture, size: nat, serve: nat -> bool, t0: real, r: real, n: nat)
    requires BREAK_CYCLES <= s && forall x: nat :: rest(x) == Line(WriteDmx(false, t, universe), grants, s + x)
    requires Tolerated(r) && t0 >= 0.0 && Armed(c.rx) && size > 0
    ensures CaptureAt(c, size, Sampled(rest, t0, r), serve, n).taken == c.taken
  {
    hide Time, Line, WriteDmx, TxAt, R.RxAt, R.ListenAt, FrameLevel, Spaced, Sampled, Quiet, Words, Tolerated;
    var s1, tick := WriteDmx(false, t, universe), Sampled(rest, t0, r);
    var l0 := R.Listener(R.Arm, c.rx.sm.isr, []);
    ArmedRefines(c.rx, l0);
    TickIsPositive(r);
    forall k: nat ensures R.RxAt(c.rx, tick, k).got == [] {
      var b := Time(t0, r, k).Floor + 1;
      FirstTime(t0, r);
      TimeGrows(t0, r, 0, k);
      if k > 0 { TimeGrows(t0, r, k - 1, k); }
      Waveform(false, t, universe, grants, s + b);
      DataSlotsAreQuiet(TxAt(s1, grants, s + b).log, s, rest, b);
      StillWatching(rest, b, t0, r, l0, k);
      R.WatchingPushesNothing(l0, tick, k);
      R.RunRefines(c.rx, l0, tick, k);
    }
    NotTakenYet(c, size, tick, serve, n);
  }

  /** The line from cycle s of the first transmission on. */
  lemma RestOfLine(before: nat -> bool, b: nat, t: Tx<Sm>, xs: seq<Send>, s: nat, c: nat)
    requires |xs| > 1 && s <= xs[0].len
    ensures var rest := (x: nat) => Line(WriteDmx(false, t, xs[0].universe), xs[0].grants, s + x);
            WholeLine(before, b, t, xs)(b + s + c) == WholeLine(rest, xs[0].len - s, After(t, xs[0]), xs[1..])(c)
  {
    hide Line, After, WriteDmx;
    WholeLineAt(before, b, t, xs, s + c);
    assert b + s + c == b + (s + c);
    var rest := (x: nat) => Line(WriteDmx(false, t, xs[0].universe), xs[0].grants, s + x);
    var d := xs[0].len - s;
    if s + c >= xs[0].len {
      WholeLineAt(rest, d, After(t, xs[0]), xs[1..], s + c - xs[0].len);
      assert d + (s + c - xs[0].len) == c;
    }
  }

  lemma WholeLineAt(before: nat -> bool, b: nat, t: Tx<Sm>, xs: seq<Send>, n: nat)
    requires xs != []
    ensures WholeLine(before, b, t, xs)(b + n) == TimelineLevel(t, xs, n)
  {
    hide TimelineLevel;
    assert (b + n) - b == n;
  }

  /** The first frame of the timeline, on its line. */
  lemma FirstFrame(before: nat -> bool, b: nat, t: Tx<Sm>, xs: seq<Send>)
    requires xs != []
    ensures Spaced(After(t, xs[0]).log)
    ensures forall c: nat :: b <= c < b + xs[0].len ==>
      WholeLine(before, b, t, xs)(c) == FrameLevel(false, After(t, xs[0]).log, c - b)
  {
    hide Line, WriteDmx, TxAt, FrameLevel, Spaced, Words, TimelineLevel;
    Waveform(false, t, xs[0].universe, xs[0].grants, xs[0].len);
    forall c: nat | b <= c < b + xs[0].len
      ensures WholeLine(before, b, t, xs)(c) == FrameLevel(false, After(t, xs[0]).log, c - b)
    {
      FirstLevel(t, xs, c - b);
    }
  }

  lemma FirstLevel(t: Tx<Sm>, xs: seq<Send>, c: nat)
    requires xs != [] && c < xs[0].len
    ensures TimelineLevel(t, xs, c) == Line(WriteDmx(false, t, xs[0].universe), xs[0].grants, c)
  {
    hide Line, WriteDmx;
  }

  /** Its words are the first ones there are to send. */
  lemma FirstWords(t: Tx<Sm>, x: Send, k: nat)
    requires k <= |After(t, x).log|
    ensures k <= |t.fifo + x.universe| && LowBytes(t.fifo + x.universe)[..k] == Bytes(After(t, x).log)[..k]
  {
    hide Line, WriteDmx, TxAt, FrameLevel, Spaced, LowByte, Words;
    Waveform(false, t, x.universe, x.grants, x.len);
    var s, all := After(t, x), t.fifo + x.universe;
    assert |Words(s.log) + s.fifo + s.src| == |all|;
    assert forall i :: 0 <= i < k ==> (Words(s.log) + s.fifo + s.src)[i] == Words(s.log)[i];
  }

  lemma DeliversLong(t: Tx<Sm>, x: Send, size: nat)
    requires Delivers(t, x, size) && Spaced(After(t, x).log)
    ensures BREAK_CYCLES < x.len
  {
    hide After;
  }

  lemma ServedShifted(serve: nat -> bool, k: nat)
    requires forall i: nat :: ServedSoon(serve, i)
    ensures forall i: nat :: ServedSoon(Shift(serve, k), i)
  {
    forall i: nat ensures ServedSoon(Shift(serve, k), i) {
      assert ServedSoon(serve, k + i);
      var j: nat :| k + i <= j < k + i + HANDLER_TICKS && serve(j);
      assert Shift(serve, k)(j - k);
    }
  }

  /** Where the handler has rearmed: behind the break of the first frame, and no later than 80 cycles into
      the break of the next one. */
  lemma RearmedInTime(b: nat, end: nat, t0: real, r: real, m: nat, k: nat)
    requires Tolerated(r) && 0 < m && Time(t0, r, m - 1) < end as real && k < m + HANDLER_TICKS
    ensures Time(t0, r, k) < end as real + 80.0
  {
    hide Time, Tolerated;
    TickIsPositive(r);
    TimeGrows(t0, r, k, m - 1 + HANDLER_TICKS);
    Later(t0, r, m - 1, HANDLER_TICKS);
    HandlerTime(r);
  }

  lemma HandlerTime(r: real)
    requires Tolerated(r)
    ensures (HANDLER_TICKS as real) * r < 80.0
  {
  }

  /** Over any sequence of transmissions whose first `size` slots are whole, from any state of both ends,
      with any clock ratio in tolerance, any DMA schedules, and any handler that runs within 77 ticks: the
      receiver takes the first `size` bytes of every transmission, in order, each once, and no more. */
  lemma {:induction false} EveryFrameIsTaken(before: nat -> bool, b: nat, t: Tx<Sm>, xs: seq<Send>, c: Capture,
                                             size: nat, serve: nat -> bool, t0: real, r: real) returns (n: nat)
    requires xs != [] && size > 0 && AllDeliver(t, xs, size) && Quiet(WholeLine(before, b, t, xs), b)
    requires Tolerated(r) && 0.0 <= t0 <= b as real + 80.0 && Armed(c.rx) && forall k: nat :: ServedSoon(serve, k)
    ensures forall m: nat :: n <= m ==>
      CaptureAt(c, size, Sampled(WholeLine(before, b, t, xs), t0, r), serve, m).taken ==
      c.taken + FirstBytes(t, xs, size)
    decreases |xs|, 1
  {
    hide Time, Line, TxAt, R.RxAt, R.ListenAt, FrameLevel, Spaced, Sampled, Quiet, Words, Tolerated, CaptureAt,
      WholeLine, WriteDmx, After, ServedSoon, LowByte, Bytes;
    var line := WholeLine(before, b, t, xs);
    var x, tick := xs[0], Sampled(line, t0, r);
    var log, end := After(t, x).log, b + x.len;
    FirstFrame(before, b, t, xs);
    FirstWords(t, x, size);
    DeliversLong(t, x, size);
    var m := FrameIsReceived(line, b, log, end, t0, r, c.rx, size);
    var k := TakesBuffer(c, size, tick, serve, m);
    RearmedInTime(b, end, t0, r, m, k);
    var c1 := CaptureAt(c, size, tick, serve, k);
    var first := LowBytes(t.fifo + x.universe)[..size];
    assert c1.taken == c.taken + [first] && Armed(c1.rx);
    assert R.RxAt(c.rx, tick, k).got != [];
    var at := Time(t0, r, k).Floor - b;
    var s: nat := if at <= x.len then at else x.len;
    ServedShifted(serve, k);
    var n1 := GoesOn(before, b, t, xs, c1, size, Shift(serve, k), t0, r, k, s);
    FirstBytesSplit(t, xs, size);
    n := k + n1;
    forall m: nat | n <= m
      ensures CaptureAt(c, size, tick, serve, m).taken == c.taken + FirstBytes(t, xs, size)
    {
      CaptureShift(c, size, tick, serve, k, m - k);
      assert c.taken + [first] + FirstBytes(After(t, x), xs[1..], size) ==
             c.taken + ([first] + FirstBytes(After(t, x), xs[1..], size));
    }
  }

  lemma FirstBytesSplit(t: Tx<Sm>, xs: seq<Send>, size: nat)
    requires xs != [] && size <= |t.fifo + xs[0].universe|
    ensures FirstBytes(t, xs, size) ==
            [LowBytes(t.fifo + xs[0].universe)[..size]] + FirstBytes(After(t, xs[0]), xs[1..], size)
  {
    hide LowByte, After;
  }

  /** From the rearmed receiver on, in tick k, with the line from cycle b + s on. */
  lemma GoesOn(before: nat -> bool, b: nat, t: Tx<Sm>, xs: seq<Send>, c1: Capture, size: nat, serve: nat -> bool,
               t0: real, r: real, k: nat, s: nat) returns (n: nat)
    requires xs != [] && size > 0 && AllDeliver(t, xs, size) && Tolerated(r) && t0 >= 0.0
    requires Armed(c1.rx) && forall i: nat :: ServedSoon(serve, i)
    requires BREAK_CYCLES <= s <= xs[0].len && (b + s) as real <= Time(t0, r, k) < (b + xs[0].len) as real + 80.0
    ensures forall m: nat :: n <= m ==>
      CaptureAt(c1, size, Shift(Sampled(WholeLine(before, b, t, xs), t0, r), k), serve, m).taken ==
      c1.taken + FirstBytes(After(t, xs[0]), xs[1..], size)
    decreases |xs|, 0
  {
    hide Time, Line, TxAt, FrameLevel, Spaced, Sampled, Quiet, Tolerated, CaptureAt, WholeLine, WriteDmx, After,
      ServedSoon, LowByte, Armed;
    var x, line, t1 := xs[0], WholeLine(before, b, t, xs), Time(t0, r, k) - (b + s) as real;
    TickIsPositive(r);
    var rest := (c: nat) => Line(WriteDmx(false, t, x.universe), x.grants, s + c);
    if |xs| == 1 {
      forall c: nat ensures rest(c) == line(b + s + c) { LastOfLine(before, b, t, xs, s, c); }
      n := 0;
      forall m: nat | n <= m
        ensures CaptureAt(c1, size, Shift(Sampled(line, t0, r), k), serve, m).taken ==
                c1.taken + FirstBytes(After(t, x), xs[1..], size)
      {
        SameCapture(line, rest, t0, r, k, b + s, c1, size, serve, m);
        NothingMoreTaken(t, x.universe, x.grants, s, rest, c1, size, serve, t1, r, m);
        assert xs[1..] == [] && FirstBytes(After(t, x), [], size) == [];
      }
    } else {
      var next, b1 := WholeLine(rest, x.len - s, After(t, x), xs[1..]), x.len - s;
      forall c: nat ensures next(c) == line(b + s + c) { RestOfLine(before, b, t, xs, s, c); }
      FirstFrame(before, b, t, xs);
      DataSlotsAreQuiet(After(t, x).log, s, next, b1);
      n := EveryFrameIsTaken(rest, b1, After(t, x), xs[1..], c1, size, serve, t1, r);
      forall m: nat | n <= m
        ensures CaptureAt(c1, size, Shift(Sampled(line, t0, r), k), serve, m).taken ==
                c1.taken + FirstBytes(After(t, x), xs[1..], size)
      {
        SameCapture(line, next, t0, r, k, b + s, c1, size, serve, m);
      }
    }
  }

  lemma LastOfLine(before: nat -> bool, b: nat, t: Tx<Sm>, xs: seq<Send>, s: nat, c: nat)
    requires |xs| == 1
    ensures WholeLine(before, b, t, xs)(b + s + c) == Line(WriteDmx(false, t, xs[0].universe), xs[0].grants, s + c)
  {
    hide Line, WriteDmx, WholeLine;
    WholeLineAt(before, b, t, xs, s + c);
    assert b + s + c == b + (s + c);
  }

  lemma SameCapture(line: nat -> bool, rest: nat -> bool, t0: real, r: real, k: nat, s: nat, c: Capture, size: nat,
                    serve: nat -> bool, m: nat)
    requires r >= 0.0 && t0 >= 0.0 && Time(t0, r, k) >= s as real && forall x: nat :: rest(x) == line(s + x)
    ensures CaptureAt(c, size, Shift(Sampled(line, t0, r), k), serve, m) ==
            CaptureAt(c, size, Sampled(rest, Time(t0, r, k) - s as real, r), serve, m)
  {
    hide Time, Sampled, CaptureAt;
    forall i: nat ensures Shift(Sampled(line, t0, r), k)(i) == Sampled(rest, Time(t0, r, k) - s as real, r)(i) {
      SampledShift(line, rest, t0, r, k, s, i);
    }
    CaptureSame(c, size, Shift(Sampled(line, t0, r), k), Sampled(rest, Time(t0, r, k) - s as real, r), serve, m);
  }
}
