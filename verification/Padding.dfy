/** Zero padding, which the browser applies to every command, does not change what a command means. */
module Padding {
  import opened KeyStrings
  import opened KeypadText
  import opened KeyCommands

  function PadSel(s: Sel): Sel {
    match s
    case One(c) => One(Pad3(c))
    case Range(a, b) => Range(Pad3(a), Pad3(b))
  }

  function PadSels(sels: seq<Sel>): seq<Sel> {
    if sels == [] then [] else [PadSel(sels[0])] + PadSels(sels[1..])
  }

  function PadLevel(l: Level): Level {
    match l
    case Full(_) => l
    case At(v) => At(Pad3(v))
  }

  function PadClause(c: Clause): Clause {
    Clause(PadSels(c.sels), PadLevel(c.level))
  }

  function PadClauses(cs: seq<Clause>): seq<Clause> {
    if cs == [] then [] else [PadClause(cs[0])] + PadClauses(cs[1..])
  }

  predicate AllKeys(ts: seq<string>) {
    forall t :: t in ts ==> IsKey(t)
  }

  lemma {:induction false} PadKeysAppend(a: seq<string>, b: seq<string>)
    ensures PadKeys(a + b) == PadKeys(a) + PadKeys(b)
  {
    hide PadKey;
    if a == [] {
      assert a + b == b;
    } else {
      assert (a + b)[0] == a[0] && (a + b)[1..] == a[1..] + b;
      PadKeysAppend(a[1..], b);
    }
  }

  lemma PadKeysOne(t: string)
    ensures PadKeys([t]) == [PadKey(t)]
  {
    hide PadKey;
    assert [t][1..] == [];
  }

  lemma LettersAreKeys()
    ensures IsKey("AND") && IsKey("AT") && IsKey("FULL") && IsKey("THRU")
    ensures PadKey("AND") == "AND" && PadKey("AT") == "AT" && PadKey("FULL") == "FULL" && PadKey("THRU") == "THRU"
  {
    assert "AND"[0] == 'A' && "AT"[0] == 'A' && "FULL"[0] == 'F' && "THRU"[0] == 'T';
    assert 'A' in "AND" && 'A' in "AT" && 'F' in "FULL" && 'T' in "THRU";
  }

  lemma PadSelTokens(s: Sel)
    requires ValidSel(s)
    ensures PadKeys(SelTokens(s)) == SelTokens(PadSel(s)) && AllKeys(SelTokens(s))
    ensures ValidSel(PadSel(s)) && SelChannels(PadSel(s)) == SelChannels(s)
  {
    hide Pad3, Interval, IsNumeral, AllDigits, IsLetters, Num, LeadDigits;
    LettersAreKeys();
    match s
    case One(c) =>
      PadKeysOne(c);
      Pad3KeepsNumber(c);
    case Range(a, b) =>
      Pad3KeepsNumber(a);
      Pad3KeepsNumber(b);
      assert [a, "THRU", b] == [a] + (["THRU"] + [b]);
      PadKeysAppend([a], ["THRU"] + [b]);
      PadKeysAppend(["THRU"], [b]);
      PadKeysOne(a);
      PadKeysOne("THRU");
      PadKeysOne(b);
  }

  lemma {:induction false} PadSelsTokens(sels: seq<Sel>)
    requires forall s :: s in sels ==> ValidSel(s)
    ensures PadKeys(SelsTokens(sels)) == SelsTokens(PadSels(sels)) && AllKeys(SelsTokens(sels))
    ensures |PadSels(sels)| == |sels| && forall s :: s in PadSels(sels) ==> ValidSel(s)
    ensures Channels(PadSels(sels)) == Channels(sels)
  {
    hide PadKey, IsKey, ValidSel, SelChannels, SelTokens, PadSel;
    if sels != [] {
      assert sels[0] in sels;
      PadSelTokens(sels[0]);
      PadSelsTokens(sels[1..]);
      LettersAreKeys();
      var rest := SelsTokens(sels[1..]);
      if |sels| > 1 {
        PadKeysAppend(SelTokens(sels[0]), ["AND"] + rest);
        PadKeysAppend(["AND"], rest);
        PadKeysOne("AND");
        assert PadSels(sels)[1..] == PadSels(sels[1..]);
      }
      SplitChannels(sels);
      SplitChannels(PadSels(sels));
      assert PadSels(sels)[1..] == PadSels(sels[1..]) && PadSels(sels)[0] == PadSel(sels[0]);
    }
  }

  lemma SplitChannels(sels: seq<Sel>)
    requires sels != []
    ensures Channels(sels) == SelChannels(sels[0]) + Channels(sels[1..])
  {
    hide SelChannels;
    assert sels == [sels[0]] + sels[1..];
  }

  lemma PadLevelTokens(l: Level)
    requires l.At? ==> IsLevel(l.v)
    ensures PadKeys(LevelTokens(l)) == LevelTokens(PadLevel(l)) && AllKeys(LevelTokens(l))
    ensures LevelValue(PadLevel(l)) == LevelValue(l) && (l.At? ==> IsLevel(PadLevel(l).v))
  {
    hide Pad3, IsNumeral, AllDigits, IsLetters, Num, LeadDigits;
    LettersAreKeys();
    PadKeysOne("AT");
    PadKeysOne("FULL");
    match l
    case Full(at) =>
      PadKeysAppend(if at then ["AT"] else [], ["FULL"]);
    case At(v) =>
      assert LevelTokens(l) == ["AT"] + [v];
      PadKeysAppend(["AT"], [v]);
      PadKeysOne(v);
      Pad3KeepsNumber(v);
  }

  lemma PadClauseTokens(c: Clause)
    requires ValidClause(c)
    ensures PadKeys(ClauseTokens(c)) == ClauseTokens(PadClause(c)) && AllKeys(ClauseTokens(c))
    ensures ValidClause(PadClause(c)) && Channels(PadClause(c).sels) == Channels(c.sels)
    ensures LevelValue(PadClause(c).level) == LevelValue(c.level)
  {
    hide PadKey, IsKey, PadKeys, SelsTokens, LevelTokens, Channels, LevelValue, ValidSel;
    PadKeysAppend(SelsTokens(c.sels), LevelTokens(c.level));
    PadSelsTokens(c.sels);
    PadLevelTokens(c.level);
  }

  lemma {:induction false} PadCommandTokens(cs: seq<Clause>, frame: Frame)
    requires forall c :: c in cs ==> ValidClause(c)
    ensures PadKeys(CommandTokens(cs)) == CommandTokens(PadClauses(cs)) && AllKeys(CommandTokens(cs))
    ensures forall c :: c in PadClauses(cs) ==> ValidClause(c)
    ensures Meaning(frame, PadClauses(cs)) == Meaning(frame, cs) && Touched(PadClauses(cs)) == Touched(cs)
    decreases |cs|
  {
    hide PadKey, IsKey, ValidClause, ClauseTokens, Channels, LevelValue;
    if cs != [] {
      assert cs[0] in cs;
      PadClauseTokens(cs[0]);
      PadKeysAppend(ClauseTokens(cs[0]), CommandTokens(cs[1..]));
      PadCommandTokens(cs[1..], Apply(frame, cs[0]));
      assert Apply(frame, PadClause(cs[0])) == Apply(frame, cs[0]);
      assert PadClauses(cs)[1..] == PadClauses(cs[1..]);
      SplitTouched(cs);
      SplitTouched(PadClauses(cs));
    }
  }

  lemma SplitTouched(cs: seq<Clause>)
    requires cs != []
    ensures Touched(cs) == Channels(cs[0].sels) + Touched(cs[1..])
  {
    hide Channels;
    assert cs == [cs[0]] + cs[1..];
  }

  lemma KeysAreTokens(ts: seq<string>)
    requires AllKeys(ts)
    ensures forall t :: t in ts ==> IsToken(t)
  {
    hide IsKey, IsToken;
    forall t | t in ts ensures IsToken(t) { KeyHasNoBlank(t); }
  }

  /** Padding keys keeps them keys. */
  lemma {:induction false} PaddedKeysAreKeys(ts: seq<string>)
    requires AllKeys(ts)
    ensures AllKeys(PadKeys(ts))
  {
    if ts != [] {
      assert ts[0] in ts;
      if IsNumeral(ts[0]) { Pad3KeepsNumber(ts[0]); }
      PaddedKeysAreKeys(ts[1..]);
    }
  }

  // ---------------------------------------------------------------------------------------
  // Padding works token by token, in every string.

  function PadAll(ts: seq<string>): seq<string> {
    if ts == [] then [] else [PadNumbers(ts[0], false)] + PadAll(ts[1..])
  }

  lemma {:induction false} PadUpToBlank(t: string, rest: string, inWord: bool)
    requires ' ' !in t && (rest == [] || rest[0] == ' ')
    ensures PadNumbers(t + rest, inWord) == PadNumbers(t, inWord) + PadNumbers(rest, false)
    decreases |t|
  {
    hide PadNumbers, DigitRun, Pad3, Padded, IsWordChar;
    if t == [] {
      assert t + rest == rest;
      PadAtBlank(rest, inWord);
      PadNothing(inWord);
    } else {
      PadStep(t, inWord);
      PadSplits(t, rest, inWord);
      var n := DigitRun(t);
      if Padded(t, inWord) {
        PadUpToBlank(t[n..], rest, true);
        Regroup(Pad3(t[..n]), PadNumbers(t[n..], true), PadNumbers(rest, false));
      } else {
        PadUpToBlank(t[1..], rest, IsWordChar(t[0]));
        Regroup([t[0]], PadNumbers(t[1..], IsWordChar(t[0])), PadNumbers(rest, false));
      }
    }
  }

  /** What stands behind a blank has no influence on what happens before it. */
  lemma PadSplits(t: string, rest: string, inWord: bool)
    requires t != [] && (rest == [] || rest[0] == ' ')
    ensures var n := DigitRun(t);
            PadNumbers(t + rest, inWord) ==
              if Padded(t, inWord) then Pad3(t[..n]) + PadNumbers(t[n..] + rest, true)
              else [t[0]] + PadNumbers(t[1..] + rest, IsWordChar(t[0]))
  {
    hide PadNumbers, DigitRun, Pad3, Padded, IsWordChar;
    var n := DigitRun(t);
    PadStep(t + rest, inWord);
    DigitRunUpToBlank(t, rest);
    SamePadded(t, rest, inWord);
    assert (t + rest)[..n] == t[..n] && (t + rest)[n..] == t[n..] + rest;
    assert (t + rest)[0] == t[0] && (t + rest)[1..] == t[1..] + rest;
  }

  lemma SamePadded(t: string, rest: string, inWord: bool)
    requires t != [] && (rest == [] || rest[0] == ' ')
    ensures Padded(t + rest, inWord) == Padded(t, inWord)
  {
    hide DigitRun;
    DigitRunUpToBlank(t, rest);
  }

  lemma PadAtBlank(rest: string, inWord: bool)
    requires rest == [] || rest[0] == ' '
    ensures PadNumbers(rest, inWord) == PadNumbers(rest, false)
    ensures rest != [] ==> PadNumbers(rest, false) == [' '] + PadNumbers(rest[1..], false)
  {
    if rest != [] { assert DigitRun(rest) == 0; }
  }

  lemma {:induction false} DigitRunUpToBlank(t: string, rest: string)
    requires rest == [] || rest[0] == ' '
    ensures DigitRun(t + rest) == DigitRun(t)
  {
    if t == [] {
      assert t + rest == rest;
    } else {
      assert (t + rest)[0] == t[0] && (t + rest)[1..] == t[1..] + rest;
      DigitRunUpToBlank(t[1..], rest);
    }
  }

  lemma {:induction false} PaddedTokenIsToken(t: string, inWord: bool)
    requires ' ' !in t
    ensures ' ' !in PadNumbers(t, inWord) && (t != [] ==> PadNumbers(t, inWord) != [])
    decreases |t|
  {
    if t != [] {
      var n := DigitRun(t);
      assert t[0] in t;
      if !inWord && 1 <= n <= 2 && !(n < |t| && t[n] == '.') {
        PaddedTokenIsToken(t[n..], true);
        PaddedDigits(t[..n]);
      } else {
        PaddedTokenIsToken(t[1..], IsWordChar(t[0]));
      }
    }
  }

  lemma PaddedDigits(d: string)
    requires AllDigits(d) && d != []
    ensures ' ' !in Pad3(d) && Pad3(d) != []
  {
    Pad3KeepsNumber(d);
  }

  lemma {:induction false} PadKeepsTokens(s: string)
    ensures Tokens(PadNumbers(s, false)) == PadAll(Tokens(s))
    decreases |s|
  {
    hide PadNumbers;
    if s == [] {
      PadNothing(false);
    } else if s[0] == ' ' {
      PadAtBlank(s, false);
      PadKeepsTokens(s[1..]);
      assert ([' '] + PadNumbers(s[1..], false))[1..] == PadNumbers(s[1..], false);
    } else {
      var t, rest := FirstToken(s);
      PadUpToBlank(t, rest, false);
      PaddedTokenIsToken(t, false);
      PadNothing(false);
      PadAtBlank(rest, false);
      if rest == [] { assert PadNumbers(rest, false) == []; }
      TokenThenRest(PadNumbers(t, false), PadNumbers(rest, false));
      PadKeepsTokens(rest);
    }
  }

  // ---------------------------------------------------------------------------------------
  // A padded string is padded already.

  /** Digits inside a word are left alone. */
  lemma {:induction false} PadDigitsInWord(d: string, rest: string)
    requires AllDigits(d)
    ensures PadNumbers(d + rest, true) == d + PadNumbers(rest, true)
  {
    hide Pad3, DigitRun, PadNumbers;
    if d == [] {
      assert d + rest == rest && [] + PadNumbers(rest, true) == PadNumbers(rest, true);
    } else {
      assert d[0] in d && (d + rest)[0] == d[0] && (d + rest)[1..] == d[1..] + rest;
      PadStep(d + rest, true);
      PadDigitsInWord(d[1..], rest);
      Regroup([d[0]], d[1..], PadNumbers(rest, true));
      assert [d[0]] + d[1..] == d;
    }
  }

  /** Behind its digits, a string begins as before. */
  lemma PadBegins(rest: string)
    requires rest != [] ==> !IsDigit(rest[0])
    ensures var r := PadNumbers(rest, true);
            (r == [] <==> rest == []) && (rest != [] ==> r[0] == rest[0])
  {
    hide Pad3;
    if rest != [] { PadStep(rest, true); }
  }

  /** A word that begins with digits, three of them or followed by a point, is left alone up to their end. */
  lemma LongDigits(d: string, rest: string)
    requires AllDigits(d) && d != [] && (rest != [] ==> !IsDigit(rest[0]))
    requires |d| > 2 || (rest != [] && rest[0] == '.')
    ensures PadNumbers(d + rest, false) == d + PadNumbers(rest, true)
  {
    hide Pad3, PadNumbers, DigitRun, Padded;
    NotPadded(d, rest);
    assert d[0] in d;
    assert (d + rest)[0] == d[0] && (d + rest)[1..] == d[1..] + rest;
    PadStep(d + rest, false);
    PadDigitsInWord(d[1..], rest);
    Regroup([d[0]], d[1..], PadNumbers(rest, true));
    assert [d[0]] + d[1..] == d;
  }

  lemma NotPadded(d: string, rest: string)
    requires AllDigits(d) && d != [] && (rest != [] ==> !IsDigit(rest[0]))
    requires |d| > 2 || (rest != [] && rest[0] == '.')
    ensures !Padded(d + rest, false)
  {
    hide DigitRun;
    DigitRunOf(d, rest);
    if rest != [] { assert (d + rest)[|d|] == rest[0]; }
  }

  lemma {:induction false} PadIdempotent(s: string, inWord: bool)
    ensures PadNumbers(PadNumbers(s, inWord), inWord) == PadNumbers(s, inWord)
    decreases |s|
  {
    hide PadNumbers, Pad3;
    if s == [] {
      PadNothing(inWord);
    } else {
      var n := DigitRun(s);
      var d, rest := s[..n], s[n..];
      assert s == d + rest;
      var r := PadNumbers(rest, true);
      PadBegins(rest);
      if n == 0 {
        PadStep(s, inWord);
        var w := IsWordChar(s[0]);
        var q := PadNumbers(s[1..], w);
        PadIdempotent(s[1..], w);
        assert ([s[0]] + q)[0] == s[0] && ([s[0]] + q)[1..] == q;
        PadStep([s[0]] + q, inWord);
      } else {
        PadIdempotent(rest, true);
        if inWord {
          PadDigitsInWord(d, rest);
          PadDigitsInWord(d, r);
        } else if Padded(s, inWord) {
          PadStep(s, inWord);
          ThreeDigits(d);
          LongDigits(Pad3(d), r);
        } else {
          LongDigits(d, rest);
          LongDigits(d, r);
        }
      }
    }
  }

  lemma ThreeDigits(d: string)
    requires AllDigits(d) && 1 <= |d| <= 2
    ensures AllDigits(Pad3(d)) && |Pad3(d)| == 3
  {
    Pad3KeepsNumber(d);
    assert |Zeros(1)| == 1 && |Zeros(2)| == 2;
  }

  lemma PadKeepsAnd(t: string)
    requires "AND" <= t
    ensures "AND" <= PadNumbers(t, false)
  {
    assert t[0] == 'A' && t[1] == 'N' && t[2] == 'D';
    var p := PadNumbers(t, false);
    assert p == ['A'] + PadNumbers(t[1..], true);
    assert PadNumbers(t[1..], true) == ['N'] + PadNumbers(t[1..][1..], true);
    assert PadNumbers(t[1..][1..], true) == ['D'] + PadNumbers(t[1..][1..][1..], true);
    assert p[0] == 'A' && p[1] == 'N' && p[2] == 'D';
    assert "AND" == ['A', 'N', 'D'];
  }

  lemma PadOfKey(t: string)
    requires IsKey(t)
    ensures PadNumbers(t, false) == PadKey(t) && ("AND" <= PadKey(t) <==> "AND" <= t)
  {
    PadOneKey(t, "");
    assert t + "" == t;
    if IsNumeral(t) {
      Pad3KeepsNumber(t);
      NumeralIsNoKeyword(t);
      NumeralIsNoKeyword(Pad3(t));
    }
  }

  lemma {:induction false} DropAndsOfPadded(ts: seq<string>)
    requires AllKeys(DropAnds(ts))
    ensures DropAnds(PadAll(ts)) == PadKeys(DropAnds(ts))
  {
    hide PadNumbers, PadKey, IsKey;
    if ts != [] {
      var t, rest := ts[0], DropAnds(ts[1..]);
      assert ts == [t] + ts[1..];
      DropAndsCons(t, ts[1..]);
      DropAndsCons(PadNumbers(t, false), PadAll(ts[1..]));
      DropAndsOfPadded(ts[1..]);
      if "AND" <= t {
        PadKeepsAnd(t);
      } else {
        assert t in DropAnds(ts);
        PadOfKey(t);
        PadKeysAppend([t], rest);
        PadKeysOne(t);
      }
    }
  }

  lemma {:induction false} PadKeysOfDropped(ts: seq<string>)
    requires AllKeys(ts)
    ensures PadKeys(DropAnds(ts)) == DropAnds(PadKeys(ts)) && AllKeys(DropAnds(ts))
  {
    hide PadKey, IsKey;
    if ts != [] {
      var t, rest := ts[0], DropAnds(ts[1..]);
      assert t in ts && ts == [t] + ts[1..];
      PadOfKey(t);
      PadKeysAppend([t], rest);
      PadKeysOne(t);
      DropAndsCons(t, ts[1..]);
      DropAndsCons(PadKey(t), PadKeys(ts[1..]));
      PadKeysOfDropped(ts[1..]);
    }
  }

  /** Whatever string spells a command, blanks and words AND as they may be: padded, it spells the padded
      command. */
  lemma PaddedCommand(keys: string, cs: seq<Clause>, frame: Frame)
    requires (forall c :: c in cs ==> ValidClause(c)) && Spells(keys, cs)
    ensures Spells(PadNumbers(keys, false), PadClauses(cs))
  {
    hide AllKeys, Tokens, PadNumbers, PadKeys, PadAll, DropAnds, CommandTokens, ValidClause;
    PadCommandTokens(cs, frame);
    PadKeysOfDropped(CommandTokens(cs));
    PadKeepsTokens(keys);
    DropAndsOfPadded(Tokens(keys));
  }

  /** The string the browser sends means what was typed. */
  lemma PaddingKeepsMeaning(shadow: Frame, captured: set<nat>, keys: string, cs: seq<Clause>)
    requires (forall c :: c in cs ==> ValidClause(c)) && Spells(keys, cs)
    ensures Interpret(shadow, captured, PadNumbers(keys, false))
      == Interpret(shadow, captured, keys)
      == (Meaning(shadow[0 := 0], cs), captured + Touched(cs))
  {
    hide Interpret, PadNumbers, Spells, CommandTokens, ValidClause;
    PaddedCommand(keys, cs, shadow);
    PadCommandTokens(cs, shadow[0 := 0]);
    InterpreterRefinesMeaning(shadow, captured, keys, cs);
    InterpreterRefinesMeaning(shadow, captured, PadNumbers(keys, false), PadClauses(cs));
  }

  /** The clauses typed with one blank between the words, and with AND between the clauses or without. */
  lemma JoinedSpells(cs: seq<Clause>)
    requires forall c :: c in cs ==> ValidClause(c)
    ensures Spells(Join(CommandTokens(cs)), cs) && Spells(Join(AndJoined(cs)), cs)
  {
    hide Tokens, Join, CommandTokens, AndJoined, DropAnds, ValidClause, AllKeys, IsToken;
    PadCommandTokens(cs, seq(FRAME_SIZE, _ => 0));
    KeysAreTokens(CommandTokens(cs));
    SplitOfJoin(CommandTokens(cs));
    AndJoinedAreKeys(cs);
    KeysAreTokens(AndJoined(cs));
    SplitOfJoin(AndJoined(cs));
    AndJoinedDropped(cs);
  }

  lemma {:induction false} AndJoinedAreKeys(cs: seq<Clause>)
    requires forall c :: c in cs ==> ValidClause(c)
    ensures AllKeys(AndJoined(cs))
  {
    hide ClauseTokens, ValidClause, IsKey;
    if cs != [] {
      LettersAreKeys();
      assert cs[0] in cs;
      PadClauseTokens(cs[0]);
      AndJoinedAreKeys(cs[1..]);
    }
  }
}
