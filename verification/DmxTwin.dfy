/**
  The inverted half of the transmitter program, fed the complemented bytes, drives the
  complement of the line that the normal half drives.
 */
module DmxTwin {
  import opened Common
  import opened Pio
  import opened Bits
  import opened DmxTransmit

  predicate Complement(w: Word, v: Word) {
    LowByte(w) + LowByte(v) == 255
  }

  ghost predicate Complements(ws: seq<Word>, vs: seq<Word>) {
    |ws| == |vs| && forall i :: 0 <= i < |ws| ==> Complement(ws[i], vs[i])
  }

  lemma HalfMod(w: Word, h: nat)
    requires h > 0
    ensures (w / 2) % h == (w % (2 * h)) / 2 && w % 2 == (w % (2 * h)) % 2
  {
    var q, r := w / (2 * h), w % (2 * h);
    assert w == 2 * h * q + r;
    assert 2 * h * q == 2 * (h * q);
    assert w / 2 == h * q + r / 2;
    assert 0 <= r / 2 < h;
    DivModUnique(w / 2, h, q, r / 2);
  }

  /** Complementary remainders stay complementary, one bit shorter, under a shift. */
  lemma ComplementHalves(w: Word, v: Word, h: nat)
    requires h > 0
    requires w % (2 * h) + v % (2 * h) == 2 * h - 1
    ensures (v % 2 == 1) == !(w % 2 == 1)
    ensures (w / 2) % h + (v / 2) % h == h - 1
  {
    HalfMod(w, h);
    HalfMod(v, h);
  }

  /** Shifting k bits out of two complementary bytes leaves 8 - k complementary bits. */
  lemma {:induction false} ComplementBits(w: Word, v: Word, k: nat)
    requires Complement(w, v) && k < 8
    ensures Pow2(7 - k) > 0
    ensures Shr(w, k) % (2 * Pow2(7 - k)) + Shr(v, k) % (2 * Pow2(7 - k)) == 2 * Pow2(7 - k) - 1
    ensures Bit(v, k) == !Bit(w, k)
  {
    if k == 0 {
      assert Pow2(7) == 128 by { assert Pow2(3) == 8; assert Pow2(5) == 32; }
    } else {
      ComplementBits(w, v, k - 1);
      assert Pow2(8 - k) == 2 * Pow2(7 - k);
      ComplementHalves(Shr(w, k - 1), Shr(v, k - 1), Pow2(8 - k));
    }
    ComplementHalves(Shr(w, k), Shr(v, k), Pow2(7 - k));
  }

  /** The two sequencers are in the same phase of complementary words. */
  ghost predicate TwinPhases(a: Phase, b: Phase) {
    match a
    case Start => b.Start?
    case Break(left, j) => b == a
    case Mark(j) => b == a
    case Idle => b == a
    case Lead(w, j) => b.Lead? && b.j == j && Complement(w, b.word)
    case StartBit(w, j) => b.StartBit? && b.j == j && Complement(w, b.word)
    case Data(w, k, j) => b.Data? && b.k == k && b.j == j && k < 8 && Complement(w, b.word)
    case Stop(w, j) => b.Stop? && b.j == j
  }

  ghost predicate Twins(a: Tx<Phase>, b: Tx<Phase>) {
    TwinPhases(a.m, b.m) && Complements(a.fifo, b.fifo) && Complements(a.src, b.src)
  }

  lemma TwinPhasesStep(a: Phase, b: Phase, w: Option<Word>, v: Option<Word>)
    requires TwinPhases(a, b)
    requires w.Some? == v.Some? && (w.Some? ==> Complement(w.value, v.value))
    ensures TwinPhases(NextPhase(a, w), NextPhase(b, v))
    ensures PhaseLevel(true, b) == !PhaseLevel(false, a)
  {
    hide Complement, Bit;
    if a.Data? {
      ComplementBits(a.word, b.word, a.k);
    }
  }

  lemma TwinsStep(a: Tx<Phase>, b: Tx<Phase>, grant: bool)
    requires Twins(a, b)
    ensures Twins(PhaseCycle(a, grant), PhaseCycle(b, grant))
    ensures PhaseLevel(true, b.m) == !PhaseLevel(false, a.m)
  {
    TwinPhasesStep(a.m, b.m, a.Head(), b.Head());
    assert a.m.Idle? == b.m.Idle?;
    hide Complement, TwinPhases, NextPhase, PhaseLevel;
  }

  lemma {:induction false} TwinsRun(a: Tx<Phase>, b: Tx<Phase>, grants: nat -> bool, n: nat)
    requires Twins(a, b)
    ensures Twins(PhaseAt(a, grants, n), PhaseAt(b, grants, n))
  {
    if n > 0 {
      TwinsRun(a, b, grants, n - 1);
      TwinsStep(PhaseAt(a, grants, n - 1), PhaseAt(b, grants, n - 1), grants(n - 1));
      hide PhaseCycle;
    }
  }

  /** From any common DMA schedule, the machine entered at offset 8 on the complemented bytes
      drives the complement of the line, cycle for cycle, and each machine stays in its own half
      of the program. */
  lemma InvertedTwin(t: Tx<Sm>, u: Tx<Sm>, universe: seq<Word>, inverse: seq<Word>, grants: nat -> bool, n: nat)
    requires Complements(t.fifo, u.fifo) && Complements(universe, inverse)
    ensures var a := WriteDmx(false, t, universe);
            var b := WriteDmx(true, u, inverse);
            && Line(b, grants, n) == !Line(a, grants, n)
            && 0 <= TxAt(a, grants, n).m.pc < 8
            && 8 <= TxAt(b, grants, n).m.pc < 16
  {
    var a := WriteDmx(false, t, universe);
    var b := WriteDmx(true, u, inverse);
    assert Refines(false, a, Abstract(a)) && Refines(true, b, Abstract(b));
    RunRefines(false, a, grants, n);
    RunRefines(true, b, grants, n);
    TwinsRun(Abstract(a), Abstract(b), grants, n);
    hide TxAt, PhaseAt, PhaseCycle, Line;
    TwinsStep(PhaseAt(Abstract(a), grants, n), PhaseAt(Abstract(b), grants, n), grants(n));
  }
}
