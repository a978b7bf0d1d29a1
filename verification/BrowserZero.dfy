/** Level 0 in the browser: when its list loses what the firmware switches off. */
module BrowserZero {
  import opened KeyStrings
  import opened KeyCommands
  import opened KeypadText
  import opened Browser
  import opened Padding
  import opened BrowserRuns
  import opened SoloWalks

  /** Channel d stands in the command's channel strings with three digits. */
  ghost predicate NamedInFull(c: Cmd, d: nat)
    requires d < 1000
  {
    match c
    case List(chans, _) => Key(d) in chans
    case Thru(_, _, _) => d >= 100
  }

  /** After a command with level 0 the browser's list matches the frame if and only if every selected
      channel was dark before or was named with three digits: entries are kept under three digits and
      deleted under the digits typed. */
  lemma ZeroLevelAgreesExactly(s: Session, c: Cmd)
    requires Mirrors(s.page.data, s.frame) && ValidChans(c) && c.level == "0"
    ensures var t := Act(s, Enter(c));
            Mirrors(t.page.data, t.frame) <==>
              forall d :: 1 <= d <= 511 && d in Channels(ClauseOf(c).sels) ==> s.frame[d] == 0 || NamedInFull(c, d)
  {
    hide Mirrors, ValidChans, NamedInFull, Act, Meaning, Key, Update, NamedChannels, Channels, ClauseTokens;
    var keys := ClauseTokens(ClauseOf(c));
    var names := NamedChannels(keys);
    ZeroIsLevel();
    EnterDelivers(s, c);
    ZeroParsed(s.page.data, c);
    OneClauseMeaning(s.frame[0 := 0], ClauseOf(c));
    MirrorsIgnoresStart(s.page.data, s.frame);
    MirrorAfterDelete(s.page.data, s.frame[0 := 0], names);
    forall d: nat | 1 <= d <= 511 && d in Channels(ClauseOf(c).sels) ensures Key(d) in names <==> NamedInFull(c, d) {
      InFull(c, d);
    }
  }

  lemma ZeroParsed(data: map<string, string>, c: Cmd)
    requires ValidChans(c) && c.level == "0"
    ensures var keys := ClauseTokens(ClauseOf(c));
            var names := NamedChannels(keys);
            && ParseBuffer(data, Join(keys)) == data - (set k | k in names)
            && (forall k :: k in names ==> IsTyped(k))
            && Numbers(names) == Channels(ClauseOf(c).sels) && LevelValue(ClauseOf(c).level) == 0
  {
    hide IsTyped, Numbers, Channels, NamedChannels, RecordAll, Join, SplitAtBlanks, ClauseTokens, IsKey, IsToken,
      ValidClause, ParseBuffer, ValidChans, IsNumeral, Num, IsLevelText;
    var keys := ClauseTokens(ClauseOf(c));
    ZeroIsLevel();
    ZeroIsNumeral();
    ChansAreValidClause(c);
    PadClauseTokens(ClauseOf(c));
    KeysAreTokens(keys);
    NotEmptyTokens(ClauseOf(c));
    NoBlanks(keys);
    SplitAtBlanksOfJoin(keys);
    ZeroIsNoWord();
    ParsedCommand(c);
    ParsedBuffer(data, Join(keys), keys);
    RecordZeroes(data, NamedChannels(keys));
  }

  lemma ZeroIsLevel()
    ensures IsLevelText("0")
  {
    ZeroIsNumeral();
  }

  lemma ZeroIsNoWord()
    ensures "0" != "AT" && "0" != "THRU" && "0" != "FULL" && ShownLevel("0") == "0"
  {
    assert "0"[0] == '0' && "AT"[0] == 'A' && "THRU"[0] == 'T' && "FULL"[0] == 'F' && "255"[0] == '2';
  }

  lemma {:induction false} RecordZeroes(data: map<string, string>, names: seq<string>)
    ensures RecordAll(data, names, "0") == data - (set k | k in names)
  {
    if names != [] {
      var front, last := names[..|names| - 1], names[|names| - 1];
      RecordZeroes(data, front);
      assert names == front + [last];
      assert (set k | k in names) == (set k | k in front) + {last};
    }
  }

  lemma MirrorAfterDelete(data: map<string, string>, frame: Frame, names: seq<string>)
    requires Mirrors(data, frame) && forall k :: k in names ==> IsTyped(k)
    ensures Mirrors(data - (set k | k in names), Update(frame, Numbers(names), 0)) <==>
            forall d :: d in Numbers(names) && 1 <= d <= 511 ==> frame[d] == 0 || Key(d) in names
  {
    hide Key, ShownValue, Num;
    var left, after := data - (set k | k in names), Update(frame, Numbers(names), 0);
    forall d: nat | 1 <= d <= 511 && d !in Numbers(names) ensures Key(d) !in names {
      NumOfKey(d);
      assert Num(Key(d)) == d;
    }
    forall d: nat | 1 <= d <= 511 ensures Key(d) in left <==> Key(d) in data && Key(d) !in names {}
    if d: nat :| d in Numbers(names) && 1 <= d <= 511 && !(frame[d] == 0 || Key(d) in names) {
      assert after[d] == 0 && Key(d) in left;
    }
  }

  lemma InFull(c: Cmd, d: nat)
    requires ValidChans(c) && c.level == "0" && 1 <= d <= 511 && d in Channels(ClauseOf(c).sels)
    ensures Key(d) in NamedChannels(ClauseTokens(ClauseOf(c))) <==> NamedInFull(c, d)
  {
    hide NamedChannels, ClauseTokens, Key, ShowRange, Num, Show;
    ZeroIsNoWord();
    ParsedCommand(c);
    if c.Thru? {
      RangeChannels(c.a, c.b);
      ShownInFull(Num(c.a), Num(c.b), d);
    }
  }

  /** A range is listed without leading zeros. */
  lemma {:induction false} ShownInFull(a: nat, b: int, d: nat)
    requires 1 <= a && b <= 511 && 1 <= d <= 511
    ensures Key(d) in ShowRange(a, b) <==> a <= d <= b && d >= 100
    decreases b - a
  {
    hide Key, Show;
    if a <= b {
      ShownInFull(a, b - 1, d);
      ShowIsKeyExactly(b, d);
    }
  }

  lemma ShowIsKeyExactly(b: nat, d: nat)
    requires b <= 511 && 1 <= d <= 511
    ensures Show(b) == Key(d) <==> b == d && d >= 100
  {
    hide Key, Num, Show;
    PadShowIsKey(b);
    ShowLength(b);
    NumOfKey(d);
    Pad3OfThree(Show(b));
  }

  lemma ShowLength(b: nat)
    ensures |Show(b)| >= 3 <==> b >= 100
  {
    if b >= 100 { assert |Show(b)| == |Show(b / 10)| + 1 && |Show(b / 10)| == |Show(b / 100)| + 1; }
    assert |Show(b / 100)| >= 1;
  }

  lemma Pad3OfThree(s: string)
    ensures |s| >= 3 ==> Pad3(s) == s
  {
  }

  /** For example: after "5 AT 50" the two agree, and after "5 AT 0" they do not. */
  lemma FiveStaysListed(s: Session)
    requires Mirrors(s.page.data, s.frame)
    ensures var t := Act(s, Enter(List(["5"], "50")));
            var u := Act(t, Enter(List(["5"], "0")));
            && Mirrors(t.page.data, t.frame) && t.frame[5] == 50
            && !Mirrors(u.page.data, u.frame)
  {
    hide Mirrors, Act, Key, Meaning, ValidCmd, ValidChans, Channels;
    FiveAndFifty();
    var c := List(["5"], "50");
    EnterAgrees(s, c);
    ValidChansOf(c);
    EnterDelivers(s, c);
    FiveMeaning(s.frame);
    var t := Act(s, Enter(c));
    ZeroLevelAgreesExactly(t, List(["5"], "0"));
    assert !NamedInFull(List(["5"], "0"), 5);
  }

  lemma FiveAndFifty()
    ensures Num("5") == 5 && Num("50") == 50 && ValidCmd(List(["5"], "50")) && ValidChans(List(["5"], "0"))
    ensures Key(5) !in ["5"] && 5 in Channels(ClauseOf(List(["5"], "0")).sels)
  {
    assert "5"[1..] == "" && "50"[1..] == "0" && "0"[1..] == "";
    assert LeadDigits("5", 0) == LeadDigits("", 5) && LeadDigits("50", 0) == LeadDigits("0", 5) == LeadDigits("", 50);
    assert |Key(5)| == 3 && |"5"| == 1;
    OnesOfOne("5");
    assert One("5") in [One("5")] && 5 in SelChannels(One("5"));
  }

  lemma FiveMeaning(frame: Frame)
    ensures Meaning(frame[0 := 0], [ClauseOf(List(["5"], "50"))])[5] == 50
  {
    hide Num, Channels;
    FiveAndFifty();
    OnesOfOne("5");
    assert "50" != "FULL" by { assert "50"[0] == '5' && "FULL"[0] == 'F'; }
    OneClauseMeaning(frame[0 := 0], ClauseOf(List(["5"], "50")));
  }

  // ---------------------------------------------------------------------------------------
  // Solo steps.

  /** A padded level, as solo mode finds it behind the channel: the list agrees with the frame after a solo
      step if and only if the level is FULL or a number from 1 to 255.  With level 0 the browser lists a dark
      channel as "000". */
  lemma SoloLevelAgreesExactly(s: Session, up: bool, front: seq<string>, n: string, l: string)
    requires Mirrors(s.page.data, s.frame) && s.page.solo
    requires IsPrev(s.page.prevBuffer, front, n, l) && PadKey(l) == l
    requires 1 <= Num(n) + (if up then 1 else -1) <= 511
    ensures var t := Act(s, PlusMinus(up));
            Mirrors(t.page.data, t.frame) <==> IsLevelKey(l)
  {
    hide Mirrors, ParseBuffer, Key, LevelValue, LeadDigits, IsNumeral, Act, Join, ClauseTokens, IsLevelKey, PadKey;
    if IsLevelKey(l) {
      SoloStepAgrees(s, up, front, n, l);
    } else {
      var d: nat := Num(n) + (if up then 1 else -1);
      SoloStepFrame(s, up, front, n, l);
      OddLevel(s.page.data - {Key(Num(n))}, d, l);
      ListedWrongly(Act(s, PlusMinus(up)).page.data, Act(s, PlusMinus(up)).frame, d);
    }
  }

  /** For example: "5 AT 0" with channel 5 dark, Solo, and plus: channel 6 is listed as "000", and dark. */
  lemma SixListedDark(s: Session)
    requires Mirrors(s.page.data, s.frame) && !s.page.solo && s.frame[5] == 0
    ensures var t1 := Act(s, Enter(List(["5"], "0")));
            var t := Act(Act(t1, SoloKey), PlusMinus(true));
            && Mirrors(t1.page.data, t1.frame)
            && Key(6) in t.page.data && t.page.data[Key(6)] == "000" && t.frame[6] == 0
            && !Mirrors(t.page.data, t.frame)
  {
    hide Mirrors, Act, Key, LevelValue, IsPrev, Num, ParseBuffer, ValidChans, Channels, IsLevelText, IsLevelKey;
    var c := List(["5"], "0");
    var t1 := Act(s, Enter(c));
    var t2 := Act(t1, SoloKey);
    FiveAndNought();
    ZeroLevelAgreesExactly(s, c);
    EnterDelivers(s, c);
    PaddedPrev("5", "0", 5);
    SoloKeepsFrame(t1);
    NumOfKey(5);
    SoloStepFrame(t2, true, [], Key(5), "000");
    OddLevel(t2.page.data - {Key(5)}, 6, "000");
    SoloLevelAgreesExactly(t2, true, [], Key(5), "000");
  }

  lemma FiveAndNought()
    ensures ValidChans(List(["5"], "0")) && Num("5") == 5 && IsTyped("5") && IsLevelText("0")
    ensures Channels(ClauseOf(List(["5"], "0")).sels) == {5}
    ensures PadKey("0") == "000" && PadKey("000") == "000" && IsLevelText("000") && !IsLevelKey("000")
    ensures LevelValue(LevelOf("000")) == 0
  {
    FiveAndFifty();
    ZeroIsLevel();
    Thousands();
    OnesOfOne("5");
    SplitChannels([One("5")]);
    assert [One("5")][1..] == [] && Channels([]) == {};
  }

  lemma Thousands()
    ensures Num("000") == 0 && IsNumeral("000") && Pad3("0") == "000" && "000" != "FULL"
  {
    NumOfThree(0, 0, 0);
    assert "000" == [Digit(0), Digit(0), Digit(0)];
    assert Zeros(2) == "0" + Zeros(1) && Zeros(1) == "0" + Zeros(0);
  }

  lemma ListedWrongly(data: map<string, string>, frame: Frame, d: nat)
    requires 1 <= d <= 511 && Key(d) in data && (frame[d] == 0 || ShownValue(data[Key(d)]) != frame[d])
    ensures !Mirrors(data, frame)
  {
    hide Key, ShownValue;
  }

  /** What the browser makes of such a level, and how it differs from the firmware's. */
  lemma OddLevel(data: map<string, string>, d: nat, l: string)
    requires 1 <= d <= 511 && IsLevelText(l) && !IsLevelKey(l) && PadKey(l) == l
    ensures ParseBuffer(data, Join(ClauseTokens(ClauseOf(List([Show(d)], l))))) == data[Key(d) := l]
    ensures LevelValue(LevelOf(l)) == 0 || LevelValue(LevelOf(l)) != ShownValue(l)
  {
    hide SplitAtBlanks, ParseBuffer, NamedChannels, ClauseTokens, Join, Key, LeadDigits, ValidChans, Num, Show,
      IsKey, IsToken, ValidClause, IsTyped, ShownValue;
    var c := List([Show(d)], l);
    var keys := ClauseTokens(ClauseOf(c));
    NextChannel(d, l);
    ChansAreValidClause(c);
    PadClauseTokens(ClauseOf(c));
    KeysAreTokens(keys);
    NotEmptyTokens(ClauseOf(c));
    NoBlanks(keys);
    SplitAtBlanksOfJoin(keys);
    OddLevelIsNoWord(l);
    ParsedCommand(c);
    ParsedBuffer(data, Join(keys), keys);
    RecordOne(data, Show(d), l);
  }

  lemma OddLevelIsNoWord(l: string)
    requires IsLevelText(l) && !IsLevelKey(l) && PadKey(l) == l
    ensures l != "AT" && l != "THRU" && l != "0" && ShownLevel(l) == l && ShownValue(l) == Num(l)
    ensures IsNumeral(l) && (Num(l) == 0 || Num(l) > 255) && LevelValue(LevelOf(l)) == Num(l) % 256
  {
    hide LeadDigits;
    assert l[0] in l && IsDigit(l[0]);
    assert "AT"[0] == 'A' && "THRU"[0] == 'T' && "FULL"[0] == 'F' && "FL"[0] == 'F';
    Pad3OfZero();
    Top();
  }

  lemma Top()
    ensures Num("255") == 255
  {
    NumOfThree(2, 5, 5);
    assert "255" == [Digit(2), Digit(5), Digit(5)];
  }

  lemma Pad3OfZero()
    ensures Pad3("0") != "0"
  {
    assert |Zeros(2)| == 2 && |Zeros(2) + "0"| == 3;
  }

  lemma RecordOne(data: map<string, string>, x: string, l: string)
    requires l != "0"
    ensures RecordAll(data, [x], l) == data[Pad3(x) := l]
  {
    hide Pad3;
    assert [x][..0] == [];
    assert RecordAll(data, [x], l) == Record(RecordAll(data, [], l), x, l);
  }
}
