/** Commands of several clauses: what the two ends make of them. */
module BrowserClauses {
  import opened KeyStrings
  import opened KeyCommands
  import opened KeypadText
  import opened Browser
  import opened Padding
  import opened BrowserRuns

  /** Any buffer, typed and sent. */
  function Typed(s: Session, keys: string): Session {
    var page := SendKeys(s.page.(keyBuffer := keys));
    var (frame, captured) := Interpret(s.frame, s.captured, PadNumbers(keys, false));
    Session(page, frame, captured)
  }

  /** Entering a command is typing it. */
  lemma EnterIsTyped(s: Session, c: Cmd)
    ensures Act(s, Enter(c)) == Typed(s, Join(CommandTokens([ClauseOf(c)])))
  {
    hide Interpret, PadNumbers, Join, ParseBuffer, CommandTokens;
    var sent := PadNumbers(Join(CommandTokens([ClauseOf(c)])), false);
    assert Press(s.page, Enter(c)).posted[|s.page.posted|..] == [sent];
    DeliverOne(s.frame, s.captured, sent);
  }

  /** The clause of c, and more clauses behind it, with AND between them. */
  function Several(c: Cmd, more: seq<Clause>): seq<string> {
    AndJoined([ClauseOf(c)] + more)
  }

  lemma SeveralTokens(c: Cmd, more: seq<Clause>)
    requires more != []
    ensures Several(c, more) == ClauseTokens(ClauseOf(c)) + (["AND"] + AndJoined(more))
  {
    hide ClauseTokens;
    assert ([ClauseOf(c)] + more)[1..] == more;
  }

  /** `parseBuffer` reads the first clause and nothing else, whatever comes behind it; only a THRU behind a
      list of channels would be taken for its own. */
  lemma FirstClauseRead(c: Cmd, rest: seq<string>)
    requires ValidCmd(c) && (c.Thru? || "THRU" !in rest)
    ensures var keys := ClauseTokens(ClauseOf(c));
            && NamedChannels(keys + rest) == NamedChannels(keys)
            && KeyAt(keys + rest, IndexOf(keys + rest, "AT") + 1) == c.level
  {
    hide ValidCmd, NamedChannels, ClauseTokens, IndexOf;
    LevelOfValid(c);
    match c
    case List(chans, level) => FirstListRead(chans, level, rest);
    case Thru(a, b, level) => FirstRangeRead(a, b, level, rest);
  }

  lemma LevelOfValid(c: Cmd)
    requires ValidCmd(c)
    ensures c.level != "AT" && c.level != "THRU" && ValidChans(c)
  {
    hide IsLevelKey;
    LevelKeyIsValid(c.level);
  }

  lemma FirstListRead(chans: seq<string>, level: string, rest: seq<string>)
    requires chans != [] && (forall s :: s in chans ==> IsTyped(s)) && level != "THRU" && "THRU" !in rest
    ensures var keys := ClauseTokens(ClauseOf(List(chans, level)));
            && NamedChannels(keys + rest) == NamedChannels(keys)
            && KeyAt(keys + rest, IndexOf(keys + rest, "AT") + 1) == level
  {
    hide IsTyped, NotAnds, KeyRange, SelsTokens;
    var keys, front := ClauseTokens(ClauseOf(List(chans, level))), SelsTokens(Ones(chans));
    OnesTokens(chans);
    LevelBehindAt(level);
    assert keys == front + ["AT"] + [level] && keys + rest == front + ["AT"] + ([level] + rest);
    IndexOfFirst(front, "AT", [level]);
    IndexOfFirst(front, "AT", [level] + rest);
    WordsDiffer();
    assert "THRU" != "AT" && "THRU" !in keys && "THRU" !in keys + rest;
    assert keys[..|front|] == front == (keys + rest)[..|front|];
  }

  lemma FirstRangeRead(a: string, b: string, level: string, rest: seq<string>)
    requires IsTyped(a) && IsTyped(b)
    ensures var keys := ClauseTokens(ClauseOf(Thru(a, b, level)));
            && NamedChannels(keys + rest) == NamedChannels(keys)
            && KeyAt(keys + rest, IndexOf(keys + rest, "AT") + 1) == level
  {
    hide IsTyped, NotAnds, KeyRange;
    TypedIsNoWord(a);
    TypedIsNoWord(b);
    LevelBehindAt(level);
    WordsDiffer();
    var keys := ClauseTokens(ClauseOf(Thru(a, b, level)));
    assert keys == [a, "THRU", b] + ["AT"] + [level] == [a] + ["THRU"] + [b, "AT", level];
    assert keys + rest == [a, "THRU", b] + ["AT"] + ([level] + rest) == [a] + ["THRU"] + ([b, "AT", level] + rest);
    IndexOfFirst([a, "THRU", b], "AT", [level] + rest);
    IndexOfFirst([a], "THRU", [b, "AT", level]);
    IndexOfFirst([a], "THRU", [b, "AT", level] + rest);
  }

  lemma LevelBehindAt(l: string)
    ensures LevelTokens(LevelOf(l)) == ["AT"] + [l]
  {
  }

  lemma SeveralParsed(data: map<string, string>, c: Cmd, more: seq<Clause>)
    requires ValidCmd(c) && more != [] && forall x :: x in more ==> ValidClause(x)
    requires c.Thru? || "THRU" !in AndJoined(more)
    ensures ParseBuffer(data, Join(Several(c, more))) == ParseBuffer(data, Join(ClauseTokens(ClauseOf(c))))
  {
    hide NamedChannels, RecordAll, Join, ClauseTokens, AndJoined, ValidCmd, ValidClause, ParseBuffer, ShownLevel,
      AllKeys, Several, KeyAt, IndexOf;
    var keys, rest := ClauseTokens(ClauseOf(c)), ["AND"] + AndJoined(more);
    SeveralTokens(c, more);
    WordsDiffer();
    SeveralAreKeys(c, more);
    NotEmptyTokens(ClauseOf(c));
    ParsedKeys(data, keys);
    ParsedKeys(data, keys + rest);
    FirstClauseRead(c, rest);
    FirstClauseRead(c, []);
    assert keys + [] == keys;
  }

  lemma SeveralAreKeys(c: Cmd, more: seq<Clause>)
    requires ValidCmd(c) && forall x :: x in more ==> ValidClause(x)
    ensures AllKeys(ClauseTokens(ClauseOf(c))) && AllKeys(ClauseTokens(ClauseOf(c)) + (["AND"] + AndJoined(more)))
  {
    hide ClauseTokens, AndJoined, ValidCmd, ValidClause, IsKey;
    ValidCmdIsValidClause(c);
    PadClauseTokens(ClauseOf(c));
    AndJoinedAreKeys(more);
    LettersAreKeys();
  }

  lemma ParsedKeys(data: map<string, string>, keys: seq<string>)
    requires keys != [] && AllKeys(keys)
    ensures ParseBuffer(data, Join(keys)) ==
            RecordAll(data, NamedChannels(keys), ShownLevel(KeyAt(keys, IndexOf(keys, "AT") + 1)))
  {
    hide NamedChannels, RecordAll, Join, SplitAtBlanks, ParseBuffer, AllKeys, ShownLevel, IsToken;
    KeysAreTokens(keys);
    NoBlanks(keys);
    SplitAtBlanksOfJoin(keys);
    ParsedBuffer(data, Join(keys), keys);
  }

  /** A list mirrors two frames if and only if they agree. */
  lemma MirrorIsUnique(data: map<string, string>, f: Frame, g: Frame)
    requires Mirrors(data, f)
    ensures Mirrors(data, g) <==> forall d :: 1 <= d <= 511 ==> f[d] == g[d]
  {
    hide Key, ShownValue;
  }

  /** Several clauses in one command: the firmware gives them all their meaning, the browser lists the
      first one, and the two agree if and only if the others changed nothing. */
  lemma SeveralAgreeExactly(s: Session, c: Cmd, more: seq<Clause>)
    requires Mirrors(s.page.data, s.frame)
    requires ValidCmd(c) && more != [] && forall x :: x in more ==> ValidClause(x)
    requires c.Thru? || "THRU" !in AndJoined(more)
    ensures var t := Typed(s, Join(Several(c, more)));
            var first := Act(s, Enter(c));
            && t.frame == Meaning(s.frame[0 := 0], [ClauseOf(c)] + more)
            && t.page.data == first.page.data
            && (Mirrors(t.page.data, t.frame) <==> forall d :: 1 <= d <= 511 ==> t.frame[d] == first.frame[d])
  {
    hide Mirrors, Interpret, PadNumbers, Join, ParseBuffer, AndJoined, CommandTokens, ClauseTokens, ValidCmd,
      ValidChans,
      ValidClause, Meaning, Touched, Spells, Act, IsLevelText;
    var cs := [ClauseOf(c)] + more;
    ValidCmdIsValidClause(c);
    JoinedSpells(cs);
    PaddingKeepsMeaning(s.frame, s.captured, Join(Several(c, more)), cs);
    ValidChansOf(c);
    EnterDelivers(s, c);
    EnterAgrees(s, c);
    SeveralParsed(s.page.data, c, more);
    var first := Act(s, Enter(c));
    MirrorIsUnique(first.page.data, first.frame, Typed(s, Join(Several(c, more))).frame);
  }

  /** For example: after "1 AT 5 AND 2 AT 6" on a dark channel 2, channel 2 is lit and not listed. */
  lemma SecondClauseIsNotListed(s: Session)
    requires Mirrors(s.page.data, s.frame) && s.frame[2] == 0
    ensures var t := Typed(s, "1 AT 5 AND 2 AT 6");
            && t.frame[1] == 5 && t.frame[2] == 6
            && !Mirrors(t.page.data, t.frame) && Key(2) !in t.page.data
  {
    hide Mirrors, Interpret, PadNumbers, Join, ParseBuffer, AndJoined, ClauseTokens, ValidCmd, ValidClause, Meaning,
      Act, Typed, Key;
    var c, more := List(["1"], "5"), [Clause([One("2")], At("6"))];
    TwoClauses();
    SeveralAgreeExactly(s, c, more);
    ValidChansOf(c);
    EnterDelivers(s, c);
    EnterAgrees(s, c);
    TwoLevels(s.frame[0 := 0]);
    var first := Act(s, Enter(c));
    NotListed(first.page.data, first.frame, 2);
  }

  lemma NotListed(data: map<string, string>, frame: Frame, d: nat)
    requires Mirrors(data, frame) && 1 <= d <= 511 && frame[d] == 0
    ensures Key(d) !in data
  {
    hide Key, ShownValue;
  }

  lemma TwoClauses()
    ensures var c, more := List(["1"], "5"), [Clause([One("2")], At("6"))];
            && ValidCmd(c) && ValidClause(more[0]) && "THRU" !in AndJoined(more)
            && "1 AT 5 AND 2 AT 6" == Join(Several(c, more))
  {
    hide ValidCmd, LeadDigits, Join, Several, ClauseTokens, IsNumeral, AllDigits, Num, AndJoined;
    var c, more := List(["1"], "5"), [Clause([One("2")], At("6"))];
    OneDigits();
    SeveralTokens(c, more);
    SingleTokens("1", "5");
    OneClauseTokens(ClauseOf(c));
    SecondTokens();
    assert Several(c, more) == ["1", "AT", "5"] + (["AND"] + ["2", "AT", "6"]);
    assert Several(c, more) == ["1", "AT", "5", "AND", "2", "AT", "6"];
    SevenWords();
    assert "THRU"[0] == 'T' && "2"[0] == '2' && "6"[0] == '6' && "AT"[0] == 'A';
  }

  lemma SevenWords()
    ensures Join(["1", "AT", "5", "AND", "2", "AT", "6"]) == "1 AT 5 AND 2 AT 6"
  {
    hide Join;
    JoinSeven("1", "AT", "5", "AND", "2", "AT", "6");
  }

  lemma SecondTokens()
    ensures AndJoined([Clause([One("2")], At("6"))]) == ["2", "AT", "6"]
    ensures ValidClause(Clause([One("2")], At("6")))
  {
    hide LeadDigits;
    OneDigits();
    assert SelsTokens([One("2")]) == ["2"];
  }

  lemma OneDigits()
    ensures Num("1") == 1 && Num("2") == 2 && Num("5") == 5 && Num("6") == 6
    ensures IsNumeral("1") && IsNumeral("2") && IsNumeral("5") && IsNumeral("6")
    ensures ValidCmd(List(["1"], "5"))
  {
    assert "1"[1..] == "" && "2"[1..] == "" && "5"[1..] == "" && "6"[1..] == "";
    assert LeadDigits("1", 0) == LeadDigits("", 1) && LeadDigits("2", 0) == LeadDigits("", 2);
    assert LeadDigits("5", 0) == LeadDigits("", 5) && LeadDigits("6", 0) == LeadDigits("", 6);
  }

  lemma JoinSeven(a: string, b: string, c: string, d: string, e: string, f: string, g: string)
    ensures Join([a, b, c, d, e, f, g]) ==
      a + (" " + (b + (" " + (c + (" " + (d + (" " + (e + (" " + (f + (" " + g)))))))))))
  {
    hide Join;
    assert [f] + [g] == [f, g] && [e] + [f, g] == [e, f, g] && [d] + [e, f, g] == [d, e, f, g];
    assert [c] + [d, e, f, g] == [c, d, e, f, g] && [b] + [c, d, e, f, g] == [b, c, d, e, f, g];
    assert [a] + [b, c, d, e, f, g] == [a, b, c, d, e, f, g];
    JoinCons(f, [g]);
    JoinCons(e, [f, g]);
    JoinCons(d, [e, f, g]);
    JoinCons(c, [d, e, f, g]);
    JoinCons(b, [c, d, e, f, g]);
    JoinCons(a, [b, c, d, e, f, g]);
  }

  lemma JoinCons(a: string, rest: seq<string>)
    requires rest != []
    ensures Join([a] + rest) == a + (" " + Join(rest)) && (|rest| == 1 ==> Join(rest) == rest[0])
  {
    assert ([a] + rest)[1..] == rest;
  }

  lemma TwoLevels(frame: Frame)
    ensures var c, d := ClauseOf(List(["1"], "5")), Clause([One("2")], At("6"));
            var f := Meaning(frame, [c] + [d]);
            && f[1] == 5 && f[2] == 6 && Meaning(frame, [c])[2] == frame[2]
  {
    var c, d := ClauseOf(List(["1"], "5")), Clause([One("2")], At("6"));
    hide Num;
    OneDigits();
    OnesOfOne("1");
    assert "5" != "FULL" by { assert "5"[0] == '5' && "FULL"[0] == 'F'; }
    SplitChannels(c.sels);
    SplitChannels(d.sels);
    assert c.sels[1..] == [] && d.sels[1..] == [] && Channels([]) == {};
    OneClauseMeaning(frame, c);
    assert ([c] + [d])[1..] == [d];
    OneClauseMeaning(Apply(frame, c), d);
  }

  // ---------------------------------------------------------------------------------------
  // AND and THRU in one selection.

  /** A list of channels, and behind it a range, in one clause. */
  function Mixed(chans: seq<string>, a: string, b: string, level: string): Clause {
    Clause(Ones(chans) + [Range(a, b)], LevelOf(level))
  }

  lemma {:induction false} OnesThenRange(chans: seq<string>, a: string, b: string)
    requires chans != []
    ensures SelsTokens(Ones(chans) + [Range(a, b)]) == SelsTokens(Ones(chans)) + ["AND"] + [a, "THRU", b]
  {
    var r := [Range(a, b)];
    assert SelsTokens(r) == [a, "THRU", b];
    OnesOfOne(chans[0]);
    if |chans| == 1 {
      assert chans == [chans[0]] && (Ones(chans) + r)[1..] == r;
    } else {
      OnesLength(chans);
      assert Ones(chans)[1..] == Ones(chans[1..]) && (Ones(chans) + r)[1..] == Ones(chans[1..]) + r;
      OnesThenRange(chans[1..], a, b);
    }
  }

  /** `parseBuffer` reads the range alone. */
  lemma RangeRead(chans: seq<string>, a: string, b: string, level: string)
    requires chans != [] && (forall s :: s in chans ==> IsTyped(s)) && IsTyped(a) && IsTyped(b)
    requires level != "AT" && level != "THRU"
    ensures var keys := ClauseTokens(Mixed(chans, a, b, level));
            && NamedChannels(keys) == NamedChannels(ClauseTokens(ClauseOf(Thru(a, b, level))))
            && KeyAt(keys, IndexOf(keys, "AT") + 1) == level
  {
    hide IsTyped, NotAnds, KeyRange, SelsTokens;
    var keys, front := ClauseTokens(Mixed(chans, a, b, level)), SelsTokens(Ones(chans)) + ["AND"] + [a];
    OnesTokens(chans);
    OnesThenRange(chans, a, b);
    LevelBehindAt(level);
    TypedIsNoWord(a);
    TypedIsNoWord(b);
    WordsDiffer();
    assert keys == front + ["THRU"] + [b, "AT", level];
    assert keys == (front + ["THRU", b]) + ["AT"] + [level];
    IndexOfFirst(front, "THRU", [b, "AT", level]);
    IndexOfFirst(front + ["THRU", b], "AT", [level]);
    RangeOfThru(a, b, level);
  }

  lemma RangeOfThru(a: string, b: string, level: string)
    requires IsTyped(a) && IsTyped(b)
    ensures NamedChannels(ClauseTokens(ClauseOf(Thru(a, b, level)))) == KeyRange(a, b)
  {
    hide IsTyped, NotAnds, KeyRange;
    TypedIsNoWord(a);
    LevelBehindAt(level);
    var keys := ClauseTokens(ClauseOf(Thru(a, b, level)));
    assert keys == [a] + ["THRU"] + [b, "AT", level];
    IndexOfFirst([a], "THRU", [b, "AT", level]);
  }

  /** The firmware sets the channels of the list too; so list and frame agree if and only if these did not
      change. */
  lemma MixedAgreesExactly(s: Session, chans: seq<string>, a: string, b: string, level: string)
    requires Mirrors(s.page.data, s.frame) && chans != [] && forall x :: x in chans ==> IsTyped(x)
    requires ValidCmd(Thru(a, b, level))
    ensures var c := Mixed(chans, a, b, level);
            var t, ranged := Typed(s, Join(ClauseTokens(c))), Act(s, Enter(Thru(a, b, level)));
            && t.frame == Meaning(s.frame[0 := 0], [c]) && t.page.data == ranged.page.data
            && (Mirrors(t.page.data, t.frame) <==> forall d :: 1 <= d <= 511 ==> t.frame[d] == ranged.frame[d])
  {
    hide Mirrors, Interpret, PadNumbers, Join, ParseBuffer, CommandTokens, ClauseTokens, ValidCmd, ValidChans,
      ValidClause, Meaning, Touched, Spells, Act, IsLevelText, NamedChannels, RecordAll, ShownLevel, KeyAt, IndexOf,
      IsTyped, AllKeys;
    var c, thru := Mixed(chans, a, b, level), Thru(a, b, level);
    MixedIsValid(chans, a, b, level);
    OneClauseTokens(c);
    JoinedSpells([c]);
    PaddingKeepsMeaning(s.frame, s.captured, Join(ClauseTokens(c)), [c]);
    ValidChansOf(thru);
    EnterDelivers(s, thru);
    EnterAgrees(s, thru);
    LevelOfValid(thru);
    ThruIsTyped(a, b, level);
    RangeRead(chans, a, b, level);
    ParsedCommandLevel(thru);
    ValidCmdIsValidClause(thru);
    PadClauseTokens(c);
    PadClauseTokens(ClauseOf(thru));
    NotEmptyTokens(c);
    NotEmptyTokens(ClauseOf(thru));
    ParsedKeys(s.page.data, ClauseTokens(c));
    ParsedKeys(s.page.data, ClauseTokens(ClauseOf(thru)));
    var ranged := Act(s, Enter(thru));
    MirrorIsUnique(ranged.page.data, ranged.frame, Typed(s, Join(ClauseTokens(c))).frame);
  }

  lemma ThruIsTyped(a: string, b: string, level: string)
    requires ValidCmd(Thru(a, b, level))
    ensures IsTyped(a) && IsTyped(b)
  {
  }

  lemma ParsedCommandLevel(c: Cmd)
    requires ValidCmd(c)
    ensures var keys := ClauseTokens(ClauseOf(c)); KeyAt(keys, IndexOf(keys, "AT") + 1) == c.level
  {
    hide ValidChans, NamedChannels;
    LevelOfValid(c);
    ParsedCommand(c);
  }

  lemma MixedIsValid(chans: seq<string>, a: string, b: string, level: string)
    requires (forall x :: x in chans ==> IsTyped(x)) && ValidCmd(Thru(a, b, level))
    ensures ValidClause(Mixed(chans, a, b, level))
  {
    OnesValid(chans);
    LevelKeyIsText(level);
  }
}
