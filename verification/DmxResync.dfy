/**
  Consecutive frames on one line, a receiver rearmed in the middle of the first, and the clock
  dividers the two ends really use.
 */
module DmxResync {
  import opened Pio
  import opened DmxTransmit
  import opened DmxWaveform
  import opened DmxLink
  import R = DmxReceive

  lemma FrameHasMark(log: seq<Pull>, x: nat) returns (c: nat)
    requires Spaced(log) && BREAK_CYCLES < x + 80
    ensures x <= c < x + 80 && FrameLevel(false, log, c)
  {
    var f := (n: nat) => FrameLevel(false, log, n);
    assert Carries(f, 0, log);
    if log == [] || x < Edge(0, log, 0) {
      c := if x < BREAK_CYCLES then BREAK_CYCLES else x;
      BreakOnLine(f, 0, log, c);
    } else {
      var i := LocateSlot(0, log, x, |log| - 1);
      c := if x < Edge(0, log, i) + 36 then Edge(0, log, i) + 36 else x;
      StopCell(f, 0, log, i, c);
    }
  }

  /** What a frame carries from the last 79 cycles of its break on, broken off at any point, holds
      nothing the detector could take for a break. */
  lemma DataSlotsAreQuiet(log: seq<Pull>, s: nat, line: nat -> bool, b: nat)
    requires Spaced(log) && BREAK_CYCLES < s + 80
    requires forall c: nat :: c < b ==> line(c) == FrameLevel(false, log, s + c)
    ensures Quiet(line, b)
  {
    var f := (n: nat) => FrameLevel(false, log, n);
    assert Carries(f, 0, log);
    hide FrameLevel;
    forall a: nat | a < b ensures LongMarkWithin(line, a, b) {
      FrameMarksAreLong(f, 0, log, s + a);
      LongMarkShifted(f, s, line, a, b);
    }
    forall a: nat | a + 80 <= b ensures HasMark(line, a, 80) {
      var c := FrameHasMark(log, s + a);
      assert line(c - s);
    }
  }

  lemma LongMarkShifted(f: nat -> bool, s: nat, line: nat -> bool, a: nat, b: nat)
    requires a < b && LongMarkAfter(f, s + a)
    requires forall c: nat :: c < b ==> line(c) == f(s + c)
    ensures LongMarkWithin(line, a, b)
  {
    assert f(s + a) == line(a);
    assert a + 1 < b ==> f(s + a + 1) == line(a + 1);
    assert a + 2 < b ==> f(s + a + 2) == line(a + 2);
    assert a + 3 < b ==> f(s + a + 3) == line(a + 3);
    assert a + 4 < b ==> f(s + a + 4) == line(a + 4);
  }

  /** The line from cycle s of a first transmission on, with a second one begun b cycles later. */
  function TwoFrames(p: Tx<Sm>, grants: nat -> bool, s: nat, b: nat, second: Tx<Sm>, grants2: nat -> bool)
    : nat -> bool
  {
    OnLine((c: nat) => Line(p, grants, s + c), b, second, grants2)
  }

  /** A receiver rearmed anywhere in one transmission, from the last 79 cycles of its break on, ignores
      the rest of it and pushes exactly the bytes of the next one, wherever that begins: after a pause,
      as soon as `busy` is false, or in the middle of a slot, which it then cuts. */
  lemma RealignsOnNextFrame(t: Tx<Sm>, first: seq<Word>, grants: nat -> bool, s: nat, b: nat,
                            universe: seq<Word>, grants2: nat -> bool, done: nat, rx: R.Rx, t0: real, r: real)
    returns (m: nat)
    requires BREAK_CYCLES < s + 80
    requires var t2 := TxAt(WriteDmx(false, t, first), grants, s + b);
             !TxAt(WriteDmx(false, t2, universe), grants2, done).Busy()
    requires Tolerated(r) && 0.0 <= t0 <= b as real + 80.0
    ensures var s1 := WriteDmx(false, t, first);
            var t2 := TxAt(s1, grants, s + b);
            var line := TwoFrames(s1, grants, s, b, WriteDmx(false, t2, universe), grants2);
            && (forall n: nat :: m <= n ==>
                  R.RxAt(R.Rearm(rx), Sampled(line, t0, r), n).got == rx.got + LowBytes(t2.fifo + universe))
            && (!t2.Busy() ==> t2.fifo + universe == universe)
  {
    hide TxAt, Line, Quiet, WriteDmx;
    var s1 := WriteDmx(false, t, first);
    var t2 := TxAt(s1, grants, s + b);
    RestOfFrameIsQuiet(t, first, grants, s, b, WriteDmx(false, t2, universe), grants2);
    m := LinkRoundTrip(t2, universe, grants2, done, (c: nat) => Line(s1, grants, s + c), b, rx, t0, r);
  }

  lemma RestOfFrameIsQuiet(t: Tx<Sm>, first: seq<Word>, grants: nat -> bool, s: nat, b: nat,
                           second: Tx<Sm>, grants2: nat -> bool)
    requires BREAK_CYCLES < s + 80
    ensures Quiet(TwoFrames(WriteDmx(false, t, first), grants, s, b, second, grants2), b)
  {
    hide TxAt, Line, FrameLevel, Spaced, Words, Quiet, WriteDmx;
    var s1 := WriteDmx(false, t, first);
    Waveform(false, t, first, grants, s + b);
    DataSlotsAreQuiet(TxAt(s1, grants, s + b).log, s, TwoFrames(s1, grants, s, b, second, grants2), b);
  }

  /** `busy` turns false before the last slot is over.  A transmission begun in cycle m, with the first
      one no longer busy, leaves the two stop bits of its last slot whole if and only if m is at least
      52 cycles after the last word was taken. */
  lemma LastSlotWholeExactly(t: Tx<Sm>, first: seq<Word>, grants: nat -> bool, m: nat,
                             universe: seq<Word>, grants2: nat -> bool)
    requires |t.fifo| + |first| > 0
    requires !TxAt(WriteDmx(false, t, first), grants, m).Busy()
    ensures var s1 := WriteDmx(false, t, first);
            var s2 := WriteDmx(false, TxAt(s1, grants, m), universe);
            var line := TwoFrames(s1, grants, 0, m, s2, grants2);
            var log := TxAt(s1, grants, m).log;
            && log != []
            && var last := log[|log| - 1].at;
               (forall c: nat :: last + 44 <= c < last + SLOT_CYCLES ==> line(c)) <==> m >= last + SLOT_CYCLES
  {
    hide TxAt, Line, WriteDmx, FrameLevel, Spaced, Words;
    var s1 := WriteDmx(false, t, first);
    var t2 := TxAt(s1, grants, m);
    var s2 := WriteDmx(false, t2, universe);
    var line := TwoFrames(s1, grants, 0, m, s2, grants2);
    BusyBound(false, t, first, grants, m);
    Waveform(false, t, first, grants, m);
    var last := t2.log[|t2.log| - 1].at;
    if m < last + SLOT_CYCLES {
      var c := if m < last + 44 then last + 44 else m;
      BreakComesAtOnce(t2, universe, grants2, c - m);
      assert !line(c);
    }
  }

  /** For example, one byte sent without stalls: `busy` turns false in cycle 186, and a second write one
      cycle later cuts the slot. */
  lemma SecondWriteCutsSlot(t: Tx<Sm>, w: Word, universe: seq<Word>, grants: nat -> bool, grants2: nat -> bool)
    requires t.fifo == [] && forall c: nat :: grants(c)
    ensures var s1 := WriteDmx(false, t, [w]);
            var s2 := WriteDmx(false, TxAt(s1, grants, 187), universe);
            var line := TwoFrames(s1, grants, 0, 187, s2, grants2);
            && TxAt(s1, grants, 185).Busy() && !TxAt(s1, grants, 186).Busy()
            && exists c: nat :: 185 + 44 <= c < 185 + SLOT_CYCLES && !line(c)
  {
    hide TxAt, Line, FrameLevel, Spaced, WriteDmx, TwoFrames;
    var s1 := WriteDmx(false, t, [w]);
    UnstalledTransmission(false, t, [w], grants, 1);
    DoneStaysDone(s1, grants, 186, 187);
    BusyBeforePreambleEnds(t, [w], grants);
    LastSlotWholeExactly(t, [w], grants, 187, universe, grants2);
  }

  lemma BusyBeforePreambleEnds(t: Tx<Sm>, universe: seq<Word>, grants: nat -> bool)
    requires universe != []
    ensures TxAt(WriteDmx(false, t, universe), grants, 185).Busy()
  {
    hide TxAt, FrameLevel, WriteDmx;
    Waveform(false, t, universe, grants, 185);
    BusyMeansNotAllTaken(false, t, universe, grants, 185);
  }

  lemma BreakComesAtOnce(t: Tx<Sm>, universe: seq<Word>, grants: nat -> bool, c: nat)
    requires c < BREAK_CYCLES
    ensures !Line(WriteDmx(false, t, universe), grants, c)
  {
    Waveform(false, t, universe, grants, c + 1);
    FrameLevelInPreamble(false, TxAt(WriteDmx(false, t, universe), grants, c + 1).log, c);
  }

  // ---------------------------------------------------------------------------------------
  // Clock dividers.

  const DMX_SM_FREQ := 1_000_000

  /** The divider `begin` computes: the system clock over 1 MHz, truncated. */
  function Divider(hz: nat): nat {
    hz / DMX_SM_FREQ
  }

  /** The length, in seconds, of one state machine cycle. */
  function CycleTime(hz: nat): real
    requires hz > 0
  {
    (Divider(hz) as real) / (hz as real)
  }

  /** A cycle is never longer than 1 us, at most one part in the divider shorter, and exactly 1 us
      only when the system clock is a multiple of 1 MHz. */
  lemma CycleTimeBounds(hz: nat)
    requires Divider(hz) > 0
    ensures CycleTime(hz) * 1_000_000.0 <= 1.0
    ensures (Divider(hz) as real) < CycleTime(hz) * 1_000_000.0 * ((Divider(hz) + 1) as real)
    ensures CycleTime(hz) * 1_000_000.0 == 1.0 <==> hz % DMX_SM_FREQ == 0
  {
    var d, h := Divider(hz) as real, hz as real;
    assert hz % DMX_SM_FREQ == 0 <==> h == 1_000_000.0 * d;
    assert (d / h) * h == d;
    QuotientBounds(d / h, h, d);
  }

  lemma QuotientBounds(q: real, h: real, d: real)
    requires q * h == d && d > 0.0 && 1_000_000.0 * d <= h < 1_000_000.0 * (d + 1.0)
    ensures q * 1_000_000.0 <= 1.0
    ensures d < q * 1_000_000.0 * (d + 1.0)
    ensures q * 1_000_000.0 == 1.0 <==> h == 1_000_000.0 * d
  {
    assert q > 0.0;
    var m := 1_000_000.0 * d;
    var x := q * 1_000_000.0;
    MulStrict(q, h, m + 1_000_000.0);
    assert q * (m + 1_000_000.0) == x * (d + 1.0);
    assert q * m == x * d;
    if m < h { MulStrict(q, m, h); }
    if x > 1.0 { MulStrict(d, 1.0, x); }
    if x < 1.0 { MulStrict(d, x, 1.0); }
  }

  lemma MulStrict(q: real, a: real, b: real)
    requires q > 0.0 && a < b
    ensures q * a < q * b
  {
    assert q * (b - a) > 0.0;
  }

  /** With a divider of at least 35 at the transmitter and 16 at the receiver, the truncation of
      both dividers stays inside the tolerance. */
  lemma DividersAreTolerated(hzT: nat, hzR: nat)
    requires Divider(hzT) >= 35 && Divider(hzR) >= 16
    ensures CycleTime(hzT) > 0.0 && Tolerated(CycleTime(hzR) / CycleTime(hzT))
  {
    CycleTimeBounds(hzT);
    CycleTimeBounds(hzR);
    var a, b := CycleTime(hzT) * 1_000_000.0, CycleTime(hzR) * 1_000_000.0;
    AtLeast(Divider(hzT) as real, a, 35.0);
    AtLeast(Divider(hzR) as real, b, 16.0);
    var r := CycleTime(hzR) / CycleTime(hzT);
    assert r * a == b;
    RatioTolerated(r, a, b);
  }

  lemma AtLeast(d: real, x: real, n: real)
    requires d >= n > 0.0 && d < x * (d + 1.0)
    ensures x * (n + 1.0) > n
  {
    assert x * (d + 1.0) == x * (n + 1.0) + x * (d - n);
    if x < 1.0 {
      if d > n { MulStrict(d - n, x, 1.0); }
      assert x * (d - n) == (d - n) * x;
    } else {
      assert x * (n + 1.0) >= n + 1.0;
    }
  }

  lemma RatioTolerated(r: real, a: real, b: real)
    requires r * a == b && 0.0 < a <= 1.0 && 0.0 < b <= 1.0
    requires a * 36.0 > 35.0 && b * 17.0 > 16.0
    ensures Tolerated(r)
  {
    var lo, hi := 32.0 / 34.0, 36.0 / 35.0;
    assert lo == 16.0 / 17.0;
    assert a * lo <= lo && hi < a * hi + hi / 36.0;
    if r > hi { MulStrict(a, hi, r); }
    if r < lo { MulStrict(a, r, lo); }
  }

  /** The receiver's tick is tolerated at the transmitter's cycle. */
  ghost predicate ClocksTolerated(hzT: nat, hzR: nat) {
    && Divider(hzT) > 0 && Divider(hzR) > 0
    && CycleTime(hzT) > 0.0 && Tolerated(CycleTime(hzR) / CycleTime(hzT))
  }

  /** All clocks with the two dividers are tolerated if and only if the transmitter's divider is at least
      35 and the receiver's at least 16. */
  lemma DividersAreToleratedExactly(dT: nat, dR: nat)
    requires dT > 0 && dR > 0
    ensures (forall hzT: nat, hzR: nat :: Divider(hzT) == dT && Divider(hzR) == dR ==> ClocksTolerated(hzT, hzR)) <==>
            dT >= 35 && dR >= 16
  {
    hide CycleTime, Tolerated;
    if dT >= 35 && dR >= 16 {
      forall hzT: nat, hzR: nat | Divider(hzT) == dT && Divider(hzR) == dR ensures ClocksTolerated(hzT, hzR) {
        DividersAreTolerated(hzT, hzR);
      }
    } else {
      var full := (d: nat) => DMX_SM_FREQ * d + 999_999;
      assert Divider(full(dT)) == dT && Divider(full(dR)) == dR;
      assert Divider(DMX_SM_FREQ * dT) == dT && Divider(DMX_SM_FREQ * dR) == dR;
      if dT < 35 { SmallTransmitterDivider(dT, dR); } else { SmallReceiverDivider(dT, dR); }
    }
  }

  /** A transmitter whose clock is all but one Hz above the divider is too fast for an exact receiver. */
  lemma SmallTransmitterDivider(dT: nat, dR: nat)
    requires 0 < dT < 35 && dR > 0
    ensures !ClocksTolerated(DMX_SM_FREQ * dT + 999_999, DMX_SM_FREQ * dR)
  {
    hide CycleTime;
    var hzT, hzR := DMX_SM_FREQ * dT + 999_999, DMX_SM_FREQ * dR;
    CycleTimeTimesClock(hzT);
    CycleTimeBounds(hzR);
    var a, b := CycleTime(hzT), CycleTime(hzR);
    if a > 0.0 {
      TooSlowATick(a, b, b / a, dT as real);
    }
  }

  /** And a receiver of that kind is too fast for an exact transmitter. */
  lemma SmallReceiverDivider(dT: nat, dR: nat)
    requires dT > 0 && 0 < dR < 16
    ensures !ClocksTolerated(DMX_SM_FREQ * dT, DMX_SM_FREQ * dR + 999_999)
  {
    hide CycleTime;
    var hzT, hzR := DMX_SM_FREQ * dT, DMX_SM_FREQ * dR + 999_999;
    CycleTimeTimesClock(hzR);
    CycleTimeBounds(hzT);
    var a, b := CycleTime(hzT), CycleTime(hzR);
    if a > 0.0 {
      TooFastATick(a, b, b / a, dR as real);
    }
  }

  lemma CycleTimeTimesClock(hz: nat)
    requires hz > 0
    ensures CycleTime(hz) * (hz as real) == Divider(hz) as real
  {
  }

  lemma TooSlowATick(a: real, b: real, r: real, d: real)
    requires a * (1_000_000.0 * d + 999_999.0) == d && b * 1_000_000.0 == 1.0 && r * a == b && 1.0 <= d <= 34.0
    ensures !Tolerated(r)
  {
    var h := 1_000_000.0 * d + 999_999.0;
    ProductOfRatio(a, b, r, h);
    assert 1_000_000.0 * (r * d) == h;
    var x := r * d;
    var q := 35.0 * r;
    assert q * d == 35.0 * x;
    assert 1_000_000.0 * x == 1_000_000.0 * d + 999_999.0;
    assert 36.0 * d < 35.0 * x;
    Exceeds(36.0, q, d, 36.0 * d, 35.0 * x);
  }

  lemma TooFastATick(a: real, b: real, r: real, d: real)
    requires b * (1_000_000.0 * d + 999_999.0) == d && a * 1_000_000.0 == 1.0 && r * a == b && 1.0 <= d <= 15.0
    ensures !Tolerated(r)
  {
    var h := 1_000_000.0 * d + 999_999.0;
    assert r == 1_000_000.0 * b;
    assert r * h == 1_000_000.0 * (b * h);
    var x := r * h;
    assert 34.0 * r * h == 34.0 * x;
    assert x == 1_000_000.0 * d;
    assert 34.0 * x < 32.0 * h;
    Exceeds(34.0 * r, 32.0, h, 34.0 * x, 32.0 * h);
  }

  lemma ProductOfRatio(a: real, b: real, r: real, h: real)
    requires r * a == b
    ensures r * (a * h) == b * h
  {
  }

  lemma Exceeds(p: real, q: real, h: real, ph: real, qh: real)
    requires h > 0.0 && ph == p * h && qh == q * h && ph < qh
    ensures p < q
  {
    assert (q - p) * h > 0.0;
  }

  /** For example, at the default system clock of the receiver's board. */
  lemma ThirtyFourIsTooSmall()
    ensures Divider(34_999_999) == 34 && !ClocksTolerated(34_999_999, 125_000_000)
  {
    SmallTransmitterDivider(34, 125);
  }
}
