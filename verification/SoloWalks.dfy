/** Solo mode: a level walks over the channels. */
module SoloWalks {
  import opened Common
  import opened KeyStrings
  import opened KeyCommands
  import opened KeypadText
  import opened Padding
  import opened BrowserRuns

  function Steps(ups: seq<bool>): seq<Action> {
    if ups == [] then [] else Steps(ups[..|ups| - 1]) + [PlusMinus(ups[|ups| - 1])]
  }

  /** The channel reached from c. */
  function Reached(c: int, ups: seq<bool>): int {
    if ups == [] then c else Reached(c, ups[..|ups| - 1]) + if ups[|ups| - 1] then 1 else -1
  }

  ghost predicate StaysInRange(c: int, ups: seq<bool>) {
    forall i :: 0 <= i <= |ups| ==> 1 <= Reached(c, ups[..i]) <= 511
  }

  ghost predicate Visited(c: int, ups: seq<bool>, x: int) {
    exists i :: 0 <= i <= |ups| && Reached(c, ups[..i]) == x
  }

  /** The channel reached is at its level, every other channel visited is dark, and the rest of the
      frame is as it was. */
  ghost predicate Walked(before: Frame, after: Frame, c: nat, ups: seq<bool>)
    requires 1 <= c <= 511
  {
    forall x :: 1 <= x <= 511 ==>
      (after[x] == if x == Reached(c, ups) then before[c] else if Visited(c, ups, x) then 0 else before[x])
  }

  lemma WalkOneMore(before: Frame, mid: Frame, c: nat, ups: seq<bool>)
    requires 1 <= c <= 511 && ups != [] && Walked(before, mid, c, ups[..|ups| - 1])
    requires 1 <= Reached(c, ups[..|ups| - 1]) <= 511 && 1 <= Reached(c, ups) <= 511
    ensures Walked(before, Stepped(mid, Reached(c, ups[..|ups| - 1]), Reached(c, ups), before[c]), c, ups)
  {
    hide Visited, Reached, Stepped;
    VisitedOneMore(c, ups);
    var front := ups[..|ups| - 1];
    var c0, c1 := Reached(c, front), Reached(c, ups);
    var after := Stepped(mid, c0, c1, before[c]);
    forall x | 1 <= x <= 511
      ensures after[x] == if x == c1 then before[c] else if Visited(c, ups, x) then 0 else before[x]
    {
      SteppedAt(mid, c0, c1, before[c], x);
      assert mid[x] == if x == c0 then before[c] else if Visited(c, front, x) then 0 else before[x];
      assert Visited(c, ups, x) <==> x == c1 || Visited(c, front, x);
    }
  }

  lemma SteppedAt(frame: Frame, c: nat, d: nat, v: Byte, x: nat)
    requires 1 <= c <= 511 && 1 <= d <= 511 && 1 <= x <= 511
    ensures Stepped(frame, c, d, v)[x] == if x == d then v else if x == c then 0 else frame[x]
  {
  }

  /** From a command that ends in "ccc AT l", in solo mode, after any run of plus and minus that stays on
      the channels.  The frame walks with every level; the browser's list follows it with levels from 1 to
      255 and FULL. */
  lemma {:induction false} SoloWalk(s: Session, f: seq<string>, c: nat, l: string, ups: seq<bool>)
    returns (f': seq<string>, l': string)
    requires s.page.solo && 1 <= c <= 511 && IsPrev(s.page.prevBuffer, f, Key(c), l)
    requires s.frame[c] == LevelValue(LevelOf(l))
    requires StaysInRange(c, ups)
    ensures var t := RunActions(s, Steps(ups));
            && t.page.solo && Walked(s.frame, t.frame, c, ups)
            && 1 <= Reached(c, ups) <= 511 && IsPrev(t.page.prevBuffer, f', Key(Reached(c, ups)), l')
            && LevelValue(LevelOf(l')) == s.frame[c]
            && (Mirrors(s.page.data, s.frame) && IsLevelKey(l) ==> Agrees(t) && IsLevelKey(l'))
  {
    hide Mirrors, IsPrev, Key, LevelValue, Act, Walked, Stepped, IsLevelKey, StaysInRange, LevelOf, PadKey;
    ReachedInRange(c, ups);
    if ups == [] {
      f', l' := f, l;
      WalkedNowhere(s.frame, c);
      assert IsLevelKey(l) ==> PrevOk(s.page.prevBuffer);
    } else {
      var front, up := ups[..|ups| - 1], ups[|ups| - 1];
      var f1, l1 := SoloWalk(s, f, c, l, front);
      var t0 := RunActions(s, Steps(front));
      f', l' := [], PadKey(l1);
      WalkStep(t0, s.frame, f1, c, l1, ups, Mirrors(s.page.data, s.frame) && IsLevelKey(l));
      assert Steps(ups)[..|Steps(ups)| - 1] == Steps(front);
    }
  }

  /** One step of the walk; `agrees` says whether the list is followed too. */
  lemma {:induction false} WalkStep(t0: Session, before: Frame, f1: seq<string>, c: nat, l1: string,
                                    ups: seq<bool>, agrees: bool)
    requires ups != [] && 1 <= c <= 511 && 1 <= Reached(c, ups) <= 511
    requires 1 <= Reached(c, ups[..|ups| - 1]) <= 511 && Walked(before, t0.frame, c, ups[..|ups| - 1])
    requires t0.page.solo && IsPrev(t0.page.prevBuffer, f1, Key(Reached(c, ups[..|ups| - 1])), l1)
    requires LevelValue(LevelOf(l1)) == before[c]
    requires agrees ==> Agrees(t0) && IsLevelKey(l1)
    ensures var t := Act(t0, PlusMinus(ups[|ups| - 1]));
            && t.page.solo && Walked(before, t.frame, c, ups)
            && IsPrev(t.page.prevBuffer, [], Key(Reached(c, ups)), PadKey(l1))
            && LevelValue(LevelOf(PadKey(l1))) == before[c]
            && (agrees ==> Agrees(t) && IsLevelKey(PadKey(l1)))
  {
    hide Mirrors, IsPrev, Key, LevelValue, Act, Walked, Stepped, IsLevelKey, LevelOf, PadKey, Agrees, Reached;
    var c0: nat, up := Reached(c, ups[..|ups| - 1]), ups[|ups| - 1];
    ReachedNext(c, ups);
    OneStep(t0, f1, c0, l1, up, agrees);
    PrevLevel(t0.page.prevBuffer, f1, Key(c0), l1);
    LevelTextIsKey(l1);
    WalkOneMore(before, t0.frame, c, ups);
  }

  lemma ReachedNext(c: int, ups: seq<bool>)
    requires ups != []
    ensures Reached(c, ups) == Reached(c, ups[..|ups| - 1]) + if ups[|ups| - 1] then 1 else -1
  {
  }

  lemma OneStep(t0: Session, f1: seq<string>, c0: nat, l1: string, up: bool, agrees: bool)
    requires t0.page.solo && c0 < 1000 && IsPrev(t0.page.prevBuffer, f1, Key(c0), l1)
    requires 1 <= c0 + (if up then 1 else -1) <= 511
    requires agrees ==> Agrees(t0) && IsLevelKey(l1)
    ensures var t, c1: nat := Act(t0, PlusMinus(up)), c0 + if up then 1 else -1;
            && t.page.solo && IsPrev(t.page.prevBuffer, [], Key(c1), PadKey(l1))
            && t.frame == Stepped(t0.frame, c0, c1, LevelValue(LevelOf(l1)))
            && (agrees ==> Agrees(t))
  {
    hide Mirrors, IsPrev, Key, LevelValue, Act, Stepped, IsLevelKey, LevelOf, PadKey, Join, ClauseTokens;
    KeyNumber(c0);
    SoloStepFrame(t0, up, f1, Key(c0), l1);
    if agrees {
      SoloStepAgrees(t0, up, f1, Key(c0), l1);
    }
  }

  /** The same from the command itself: "x AT l" typed and sent, solo pressed, then plus and minus. */
  lemma SoloWalkFromCommand(s: Session, x: string, l: string, ups: seq<bool>)
    requires !s.page.solo && IsTyped(x) && IsLevelText(l) && StaysInRange(Num(x), ups)
    ensures var t := RunActions(Act(Act(s, Enter(List([x], l))), SoloKey), Steps(ups));
            && t.page.solo
            && (Mirrors(s.page.data, s.frame) && IsLevelKey(l) ==> Agrees(t))
            && forall c :: 1 <= c <= 511 ==>
                 t.frame[c] == if c == Reached(Num(x), ups) then LevelValue(LevelOf(l))
                               else if Visited(Num(x), ups, c) then 0 else s.frame[c]
  {
    hide Mirrors, PrevOk, IsPrev, Key, LevelValue, Act, IsLevelKey, IsLevelText, Num, Visited, Reached, Steps,
      StaysInRange;
    var cmd := List([x], l);
    var t0 := Act(s, Enter(cmd));
    SingleIsValid(x, l);
    EnterDelivers(s, cmd);
    if Mirrors(s.page.data, s.frame) && IsLevelKey(l) { EnterAgrees(s, cmd); }
    TypedKey(x);
    SingleMeaning(s.frame, x, l);
    PaddedPrev(x, l, Num(x));
    SoloKeepsFrame(t0);
    LevelTextIsKey(l);
    StartOfWalk(Num(x), ups);
    var f', l' := SoloWalk(Act(t0, SoloKey), [], Num(x), PadKey(l), ups);
  }

  lemma SingleIsValid(x: string, l: string)
    requires IsTyped(x)
    ensures ValidChans(List([x], l))
  {
  }

  lemma StartOfWalk(c: int, ups: seq<bool>)
    ensures Visited(c, ups, c)
  {
    assert Reached(c, ups[..0]) == c;
  }

  lemma SoloKeepsFrame(s: Session)
    requires !s.page.solo
    ensures var t := Act(s, SoloKey);
            t.frame == s.frame && t.page.solo && t.page.data == s.page.data && t.page.prevBuffer == s.page.prevBuffer
  {
    assert s.page.posted[|s.page.posted|..] == [];
  }

  lemma SingleMeaning(frame: Frame, x: string, l: string)
    requires IsTyped(x) && Num(x) < FRAME_SIZE
    ensures Meaning(frame[0 := 0], [ClauseOf(List([x], l))]) ==
      frame[0 := 0][Num(x) := LevelValue(LevelOf(l))]
  {
    hide LevelValue, Num;
    var c := ClauseOf(List([x], l));
    OneClauseMeaning(frame[0 := 0], c);
    OnesOfOne(x);
    SplitChannels(c.sels);
    assert c.sels[1..] == [] && Channels([]) == {};
  }

  lemma ReachedInRange(c: int, ups: seq<bool>)
    requires StaysInRange(c, ups)
    ensures 1 <= Reached(c, ups) <= 511
    ensures ups != [] ==> StaysInRange(c, ups[..|ups| - 1])
  {
    assert ups[..|ups|] == ups;
    if ups != [] {
      var front := ups[..|ups| - 1];
      forall i | 0 <= i <= |front| ensures 1 <= Reached(c, front[..i]) <= 511 {
        assert front[..i] == ups[..i];
      }
    }
  }

  lemma WalkedNowhere(frame: Frame, c: nat)
    requires 1 <= c <= 511
    ensures Walked(frame, frame, c, [])
  {
    var none: seq<bool> := [];
    assert none[..0] == none && Reached(c, none[..0]) == c;
  }

  lemma KeyNumber(c: nat)
    requires c < 1000
    ensures Num(Key(c)) == c
  {
    NumOfKey(c);
  }

  lemma PrevLevel(s: string, front: seq<string>, n: string, l: string)
    requires IsPrev(s, front, n, l)
    ensures IsLevelText(l)
  {
  }

  lemma VisitedOneMore(c: int, ups: seq<bool>)
    requires ups != []
    ensures forall x :: Visited(c, ups, x) <==> x == Reached(c, ups) || Visited(c, ups[..|ups| - 1], x)
    ensures Visited(c, ups[..|ups| - 1], Reached(c, ups[..|ups| - 1]))
  {
    hide Reached, Visited;
    VisitedLast(c, ups);
    VisitedLast(c, ups[..|ups| - 1]);
    forall x ensures Visited(c, ups, x) <==> x == Reached(c, ups) || Visited(c, ups[..|ups| - 1], x) {
      if x != Reached(c, ups) { VisitedEarlier(c, ups, x); }
    }
  }

  lemma VisitedLast(c: int, ups: seq<bool>)
    ensures Visited(c, ups, Reached(c, ups))
  {
    hide Reached;
    assert ups[..|ups|] == ups;
  }

  lemma VisitedEarlier(c: int, ups: seq<bool>, x: int)
    requires ups != [] && x != Reached(c, ups)
    ensures Visited(c, ups, x) <==> Visited(c, ups[..|ups| - 1], x)
  {
    hide Reached;
    var front := ups[..|ups| - 1];
    assert ups[..|ups|] == ups;
    if Visited(c, ups, x) {
      var i :| 0 <= i <= |ups| && Reached(c, ups[..i]) == x;
      assert front[..i] == ups[..i];
    }
    if Visited(c, front, x) {
      var i :| 0 <= i <= |front| && Reached(c, front[..i]) == x;
      assert front[..i] == ups[..i];
    }
  }
}
