/**
  Browser and firmware together: each posted command is interpreted before the next one is typed.
 */
module BrowserRuns {
  import opened Common
  import opened KeyStrings
  import opened KeypadText
  import opened KeyCommands
  import opened Padding
  import opened Browser

  // ---------------------------------------------------------------------------------------
  // Three-digit strings.

  /** The string under which the browser lists channel c. */
  function Key(c: nat): string
    requires c < 1000
  {
    [Digit(c / 100), Digit(c / 10 % 10), Digit(c % 10)]
  }

  lemma NumOfThree(a: nat, b: nat, c: nat)
    requires a < 10 && b < 10 && c < 10
    ensures var s := [Digit(a), Digit(b), Digit(c)]; Num(s) == 100 * a + 10 * b + c && IsNumeral(s)
  {
    var s := [Digit(a), Digit(b), Digit(c)];
    assert s[1..] == [Digit(b), Digit(c)] && s[1..][1..] == [Digit(c)] && s[1..][1..][1..] == [];
    assert LeadDigits(s, 0) == LeadDigits(s[1..], a);
    assert LeadDigits(s[1..], a) == LeadDigits([Digit(c)], 10 * a + b);
    assert LeadDigits([Digit(c)], 10 * a + b) == LeadDigits([], 10 * (10 * a + b) + c);
  }

  lemma NumOfKey(c: nat)
    requires c < 1000
    ensures Num(Key(c)) == c && IsNumeral(Key(c)) && |Key(c)| == 3
  {
    NumOfThree(c / 100, c / 10 % 10, c % 10);
  }

  function DigitValue(ch: char): nat
    requires IsDigit(ch)
  {
    ch as int - '0' as int
  }

  lemma ThreeDigitsAreKey(p: string)
    requires IsNumeral(p) && |p| == 3
    ensures Num(p) < 1000 && p == Key(Num(p))
  {
    hide LeadDigits, Num;
    assert p[0] in p && p[1] in p && p[2] in p;
    var a, b, c := DigitValue(p[0]), DigitValue(p[1]), DigitValue(p[2]);
    assert p == [Digit(a), Digit(b), Digit(c)];
    NumOfThree(a, b, c);
    KeyOfDigits(a, b, c);
  }

  lemma KeyOfDigits(a: nat, b: nat, c: nat)
    requires a < 10 && b < 10 && c < 10
    ensures Key(100 * a + 10 * b + c) == [Digit(a), Digit(b), Digit(c)]
  {
    hide Digit;
    var n := 100 * a + 10 * b + c;
    assert n / 100 == a;
    assert n / 10 == 10 * a + b;
    assert n / 10 % 10 == b;
    assert n % 10 == c;
  }

  lemma {:induction false} ZerosLength(n: nat)
    ensures |Zeros(n)| == n
  {
    if n > 0 { ZerosLength(n - 1); }
  }

  /** A typed number of at most three digits is listed under the key of its value. */
  lemma Pad3IsKey(s: string)
    requires IsNumeral(s) && |s| <= 3
    ensures Num(s) < 1000 && Pad3(s) == Key(Num(s))
  {
    hide LeadDigits, IsNumeral, Key;
    ZerosLength(3 - |s|);
    Pad3KeepsNumber(s);
    ThreeDigitsAreKey(Pad3(s));
  }

  lemma PadShowIsKey(n: nat)
    requires n < 1000
    ensures IsNumeral(Show(n)) && |Show(n)| <= 3 && Num(Show(n)) == n && Pad3(Show(n)) == Key(n)
  {
    hide Pad3, Key;
    if n >= 100 {
      assert Show(n / 10) == Show(n / 100) + [Digit(n / 10 % 10)];
      assert Show(n) == [Digit(n / 100), Digit(n / 10 % 10), Digit(n % 10)];
      NumOfThree(n / 100, n / 10 % 10, n % 10);
    } else if n >= 10 {
      var s := [Digit(n / 10), Digit(n % 10)];
      assert Show(n) == s;
      assert s[1..] == [Digit(n % 10)] && s[1..][1..] == [];
      assert LeadDigits(s, 0) == LeadDigits(s[1..], n / 10);
      assert LeadDigits([Digit(n % 10)], n / 10) == LeadDigits([], n);
    } else {
      var s := [Digit(n)];
      assert s[1..] == [] && LeadDigits(s, 0) == LeadDigits([], n);
    }
    Pad3IsKey(Show(n));
  }

  // ---------------------------------------------------------------------------------------
  // The commands for which the browser keeps its list.

  datatype Cmd = List(chans: seq<string>, level: string) | Thru(a: string, b: string, level: string)

  predicate IsTyped(s: string) {
    IsChannel(s) && |s| <= 3
  }

  /** FULL, or a number from 1 to 255. */
  predicate IsLevelKey(l: string) {
    l == "FULL" || (IsNumeral(l) && 1 <= Num(l) <= 255)
  }

  /** FULL, or any number. */
  predicate IsLevelText(l: string) {
    l == "FULL" || IsLevel(l)
  }

  function LevelOf(l: string): Level {
    if l == "FULL" then Full(true) else At(l)
  }

  predicate ValidChans(c: Cmd) {
    match c
    case List(chans, _) => chans != [] && forall s :: s in chans ==> IsTyped(s)
    case Thru(a, b, _) => IsTyped(a) && IsTyped(b) && Num(a) <= Num(b)
  }

  predicate ValidCmd(c: Cmd) {
    IsLevelKey(c.level) && ValidChans(c)
  }

  function Ones(chans: seq<string>): seq<Sel> {
    if chans == [] then [] else [One(chans[0])] + Ones(chans[1..])
  }

  function ClauseOf(c: Cmd): Clause {
    Clause(match c case List(chans, _) => Ones(chans) case Thru(a, b, _) => [Range(a, b)],
           LevelOf(c.level))
  }

  /** The level the browser shows, as a number. */
  function ShownValue(l: string): nat {
    if l == "FL" then 255 else Num(l)
  }

  /** The browser's list is exactly the non-zero channels of the frame, with their levels. */
  ghost predicate Mirrors(data: map<string, string>, frame: Frame) {
    && (forall k :: k in data ==> exists c: nat :: 1 <= c <= 511 && k == Key(c))
    && (forall c: nat :: 1 <= c <= 511 ==>
          if frame[c] == 0 then Key(c) !in data else Key(c) in data && ShownValue(data[Key(c)]) == frame[c])
  }

  lemma {:induction false} OnesValid(chans: seq<string>)
    requires forall s :: s in chans ==> IsTyped(s)
    ensures forall s :: s in Ones(chans) ==> ValidSel(s)
  {
    if chans != [] {
      assert chans[0] in chans;
      OnesValid(chans[1..]);
    }
  }

  lemma LevelKeyIsValid(l: string)
    requires IsLevelKey(l)
    ensures ShownValue(ShownLevel(l)) == LevelValue(LevelOf(l)) != 0
    ensures IsKey(l) && l != "AT" && l != "THRU" && l != "0"
    ensures PadKey(l) == l || PadKey(l) == Pad3(l)
    ensures IsLevelKey(PadKey(l))
  {
    if l == "FULL" {
      assert l[0] == 'F';
      LettersAreKeys();
    } else {
      assert l[0] in l && IsDigit(l[0]);
      assert "FL"[0] == 'F';
      Pad3KeepsNumber(l);
      if l == "255" { NumOfThree(2, 5, 5); assert l == [Digit(2), Digit(5), Digit(5)]; }
      if l == "0" { assert l[1..] == [] && LeadDigits(l, 0) == LeadDigits([], 0); }
    }
  }

  lemma ValidCmdIsValidClause(c: Cmd)
    requires ValidCmd(c)
    ensures ValidClause(ClauseOf(c))
  {
    hide ValidChans, ValidClause;
    ChansAreValidClause(c);
  }

  lemma ChansAreValidClause(c: Cmd)
    requires ValidChans(c) && IsLevelText(c.level)
    ensures ValidClause(ClauseOf(c))
  {
    if c.List? { OnesValid(c.chans); }
  }

  // ---------------------------------------------------------------------------------------
  // What parseBuffer does to the list.

  /** The channel numbers that a list of channel strings names. */
  function Numbers(channels: seq<string>): set<nat> {
    set s | s in channels :: Num(s)
  }

  lemma {:induction false} RecordAllKeepsMirror(data: map<string, string>, frame: Frame, channels: seq<string>,
                                                level: string, v: Byte)
    requires Mirrors(data, frame)
    requires forall s :: s in channels ==> IsTyped(s)
    requires level != "0" && ShownValue(level) == v != 0
    ensures Mirrors(RecordAll(data, channels, level), Update(frame, Numbers(channels), v))
  {
    hide Mirrors, IsChannel, Pad3, Num, Key;
    if channels == [] {
      assert Update(frame, Numbers([]), v) == frame;
    } else {
      var front, last := channels[..|channels| - 1], channels[|channels| - 1];
      assert last in channels;
      RecordAllKeepsMirror(data, frame, front, level, v);
      TypedKey(last);
      SetKeepsMirror(RecordAll(data, front, level), Update(frame, Numbers(front), v), Num(last), level, v);
      UpdateOneMore(frame, front, last, v);
      assert channels == front + [last];
    }
  }

  lemma TypedKey(s: string)
    requires IsTyped(s)
    ensures 1 <= Num(s) <= 511 && Pad3(s) == Key(Num(s))
  {
    Pad3IsKey(s);
  }

  lemma UpdateOneMore(frame: Frame, front: seq<string>, last: string, v: Byte)
    requires Num(last) < FRAME_SIZE
    ensures Update(frame, Numbers(front + [last]), v) == Update(frame, Numbers(front), v)[Num(last) := v]
  {
    hide Num;
    assert Numbers(front + [last]) == Numbers(front) + {Num(last)};
  }

  /** The frame with the channels of a set at level v. */
  function Update(frame: Frame, chans: set<nat>, v: Byte): Frame {
    seq(FRAME_SIZE, i requires 0 <= i < FRAME_SIZE => if i in chans then v else frame[i])
  }

  lemma KeyIsInjective(c: nat, d: nat)
    requires c < 1000 && d < 1000 && Key(c) == Key(d)
    ensures c == d
  {
    NumOfKey(c);
    NumOfKey(d);
  }

  lemma SetKeepsMirror(data: map<string, string>, frame: Frame, c: nat, level: string, v: Byte)
    requires Mirrors(data, frame) && 1 <= c <= 511 && ShownValue(level) == v != 0
    ensures Mirrors(data[Key(c) := level], frame[c := v])
  {
    hide Key, ShownValue;
    forall d: nat | 1 <= d <= 511 && d != c ensures Key(d) != Key(c) {
      if Key(d) == Key(c) { KeyIsInjective(d, c); }
    }
  }

  lemma DeleteKeepsMirror(data: map<string, string>, frame: Frame, c: nat)
    requires Mirrors(data, frame) && 1 <= c <= 511
    ensures Mirrors(data - {Key(c)}, frame[c := 0])
  {
    hide Key, ShownValue;
    forall d: nat | 1 <= d <= 511 && d != c ensures Key(d) != Key(c) {
      if Key(d) == Key(c) { KeyIsInjective(d, c); }
    }
  }

  lemma {:induction false} IndexOfFirst(front: seq<string>, t: string, rest: seq<string>)
    requires t !in front
    ensures IndexOf(front + [t] + rest, t) == |front|
  {
    var keys := front + [t] + rest;
    var i := IndexOf(keys, t);
    assert keys[|front|] == t;
  }

  lemma {:induction false} OnesTokens(chans: seq<string>)
    requires forall s :: s in chans ==> IsTyped(s)
    ensures "AT" !in SelsTokens(Ones(chans)) && "THRU" !in SelsTokens(Ones(chans))
    ensures NotAnds(SelsTokens(Ones(chans))) == chans
  {
    hide IsTyped, NotAnds;
    NotAndsOne("AND");
    NotAndsNone();
    if chans != [] {
      var c := chans[0];
      assert c in chans;
      TypedIsNoWord(c);
      NotAndsOne(c);
      OnesTokens(chans[1..]);
      var rest := SelsTokens(Ones(chans[1..]));
      assert Ones(chans)[1..] == Ones(chans[1..]);
      if |chans| == 1 {
        assert Ones(chans) == [One(c)] && SelsTokens(Ones(chans)) == [c];
      } else {
        OnesLength(chans);
        assert SelsTokens(Ones(chans)) == [c] + (["AND"] + rest);
        NotAndsAppend([c], ["AND"] + rest);
        NotAndsAppend(["AND"], rest);
        WordsDiffer();
      }
    }
  }

  lemma {:induction false} OnesLength(chans: seq<string>)
    ensures |Ones(chans)| == |chans|
  {
    if chans != [] { OnesLength(chans[1..]); }
  }

  lemma WordsDiffer()
    ensures "AND" != "AT" && "AND" != "THRU"
  {
    assert "AND"[1] == 'N' && "AT"[1] == 'T' && "THRU"[0] == 'T';
  }

  lemma NotAndsNone()
    ensures NotAnds([]) == []
  {
  }

  lemma TypedIsNoWord(c: string)
    requires IsTyped(c)
    ensures c != "AT" && c != "THRU" && c != "AND"
  {
    assert c[0] in c && IsDigit(c[0]);
  }

  lemma NotAndsOne(t: string)
    ensures NotAnds([t]) == if t == "AND" then [] else [t]
  {
    assert [t][..0] == [];
  }

  lemma {:induction false} NotAndsAppend(a: seq<string>, b: seq<string>)
    ensures NotAnds(a + b) == NotAnds(a) + NotAnds(b)
  {
    if b == [] {
      assert a + b == a;
    } else {
      assert (a + b)[..|a + b| - 1] == a + b[..|b| - 1];
      NotAndsAppend(a, b[..|b| - 1]);
    }
  }

  lemma {:induction false} ShowRangeNumbers(a: nat, b: nat)
    requires 1 <= a && b <= 511
    ensures forall s :: s in ShowRange(a, b) ==> IsTyped(s)
    ensures Numbers(ShowRange(a, b)) == Interval(a, b)
    decreases b
  {
    if a <= b {
      ShowRangeNumbers(a, b - 1);
      PadShowIsKey(b);
      hide Num, Show, IsNumeral, Pad3, Key;
      assert Numbers(ShowRange(a, b)) == Numbers(ShowRange(a, b - 1)) + {b};
      assert Interval(a, b) == Interval(a, b - 1) + {b};
    } else {
      assert ShowRange(a, b) == [];
    }
  }

  lemma {:induction false} OnesNumbers(chans: seq<string>)
    ensures Numbers(chans) == Channels(Ones(chans))
  {
    hide Num;
    if chans != [] {
      OnesNumbers(chans[1..]);
      SplitChannels(Ones(chans));
      assert Ones(chans)[1..] == Ones(chans[1..]);
      assert chans == [chans[0]] + chans[1..];
      assert Numbers(chans) == {Num(chans[0])} + Numbers(chans[1..]);
    }
  }

  /** What parseBuffer finds in the buffer of a command: channels with the right numbers, and the
      level. */
  lemma ParsedCommand(c: Cmd)
    requires ValidChans(c) && c.level != "AT" && c.level != "THRU"
    ensures var keys := ClauseTokens(ClauseOf(c));
            && KeyAt(keys, IndexOf(keys, "AT") + 1) == c.level
            && (forall s :: s in NamedChannels(keys) ==> IsTyped(s))
            && Numbers(NamedChannels(keys)) == Channels(ClauseOf(c).sels)
            && NamedChannels(keys) == match c
                                      case List(chans, _) => chans
                                      case Thru(a, b, _) => ShowRange(Num(a), Num(b))
  {
    hide IsLevelKey, IsTyped, Numbers, Channels, NotAnds, ShowRange;
    var keys := ClauseTokens(ClauseOf(c));
    match c
    case List(chans, level) =>
      var front := SelsTokens(Ones(chans));
      OnesTokens(chans);
      OnesNumbers(chans);
      assert keys == front + ["AT"] + [level];
      IndexOfFirst(front, "AT", [level]);
      assert "THRU" !in keys;
      assert keys[..|front|] == front;
    case Thru(a, b, level) => ParsedRange(c);
  }

  lemma ParsedRange(c: Cmd)
    requires ValidChans(c) && c.Thru?
    ensures var keys := ClauseTokens(ClauseOf(c));
            && KeyAt(keys, IndexOf(keys, "AT") + 1) == c.level
            && (forall s :: s in NamedChannels(keys) ==> IsTyped(s))
            && Numbers(NamedChannels(keys)) == Channels(ClauseOf(c).sels)
            && NamedChannels(keys) == ShowRange(Num(c.a), Num(c.b))
  {
    hide IsLevelKey, ShowRange, IsNumeral, Num, ParseInt;
    var keys := ClauseTokens(ClauseOf(c));
    TypedIsNoWord(c.a);
    TypedIsNoWord(c.b);
    assert keys == [c.a, "THRU", c.b] + ["AT"] + [c.level];
    IndexOfFirst([c.a, "THRU", c.b], "AT", [c.level]);
    assert keys == [c.a] + ["THRU"] + [c.b, "AT", c.level];
    IndexOfFirst([c.a], "THRU", [c.b, "AT", c.level]);
    ParseIntOfNumeral(c.a);
    ParseIntOfNumeral(c.b);
    ShowRangeNumbers(Num(c.a), Num(c.b));
    RangeChannels(c.a, c.b);
  }

  lemma RangeChannels(a: string, b: string)
    requires Num(a) <= Num(b)
    ensures Channels([Range(a, b)]) == Interval(Num(a), Num(b))
  {
    hide Num;
    SplitChannels([Range(a, b)]);
    assert [Range(a, b)][1..] == [] && Channels([]) == {};
    assert Between(Num(a), Num(a), Num(b));
  }

  /** Typing a command keeps the list in step with the frame the firmware makes of it. */
  lemma EnterKeepsMirror(data: map<string, string>, frame: Frame, c: Cmd)
    requires Mirrors(data, frame) && ValidCmd(c)
    ensures Mirrors(ParseBuffer(data, Join(ClauseTokens(ClauseOf(c)))), Meaning(frame, [ClauseOf(c)]))
  {
    hide Mirrors, IsTyped, Numbers, Channels, NamedChannels, RecordAll, Join, SplitAtBlanks, ClauseTokens, IsLevelKey,
      IsKey, IsToken,
      ValidClause, LevelValue;
    var keys := ClauseTokens(ClauseOf(c));
    ValidCmdIsValidClause(c);
    PadClauseTokens(ClauseOf(c));
    KeysAreTokens(keys);
    NotEmptyTokens(ClauseOf(c));
    NoBlanks(keys);
    SplitAtBlanksOfJoin(keys);
    LevelKeyIsValid(c.level);
    ValidChansOf(c);
    ParsedCommand(c);
    RecordAllKeepsMirror(data, frame, NamedChannels(keys), ShownLevel(c.level), LevelValue(ClauseOf(c).level));
    OneClauseMeaning(frame, ClauseOf(c));
    ShownIsNotZero(c.level);
  }

  lemma ValidChansOf(c: Cmd)
    requires ValidCmd(c)
    ensures ValidChans(c) && IsLevelKey(c.level) && IsLevelText(c.level)
  {
    hide ValidChans, IsLevelKey, IsLevelText;
    LevelKeyIsText(c.level);
  }

  lemma NoBlanks(keys: seq<string>)
    requires forall t :: t in keys ==> IsToken(t)
    ensures forall t :: t in keys ==> ' ' !in t
  {
  }

  lemma NotEmptyTokens(c: Clause)
    ensures ClauseTokens(c) != []
  {
  }

  lemma ShownIsNotZero(l: string)
    requires l != "0"
    ensures ShownLevel(l) != "0"
  {
    assert "FL"[0] == 'F' && "0"[0] == '0';
  }

  lemma OneClauseMeaning(frame: Frame, c: Clause)
    ensures Meaning(frame, [c]) == Update(frame, Channels(c.sels), LevelValue(c.level))
  {
    hide Channels, LevelValue;
    assert [c][1..] == [] && Meaning(Apply(frame, c), []) == Apply(frame, c);
  }

  // ---------------------------------------------------------------------------------------
  // Sessions.

  /** The browser page and, at the other end, the frame and the captured set. */
  datatype Session = Session(page: Page, frame: Frame, captured: set<nat>)

  datatype Action = Enter(cmd: Cmd) | SoloKey | PlusMinus(up: bool) | ReleaseKey

  /** The firmware interprets what was posted, one command after the other. */
  function Deliver(frame: Frame, captured: set<nat>, posts: seq<string>): (Frame, set<nat>) {
    if posts == [] then (frame, captured)
    else
      var (f, c) := Deliver(frame, captured, posts[..|posts| - 1]);
      Interpret(f, c, posts[|posts| - 1])
  }

  function Press(p: Page, a: Action): Page {
    match a
    case Enter(c) => SendKeys(p.(keyBuffer := Join(CommandTokens([ClauseOf(c)]))))
    case SoloKey => Solo(p)
    case PlusMinus(up) => SoloChange(p, up)
    case ReleaseKey => Release(p)
  }

  function Act(s: Session, a: Action): Session {
    var page := Press(s.page, a);
    var (frame, captured) := Deliver(s.frame, s.captured,
      if |s.page.posted| <= |page.posted| then page.posted[|s.page.posted|..] else []);
    Session(page, frame, captured)
  }

  function RunActions(s: Session, actions: seq<Action>): Session {
    if actions == [] then s else Act(RunActions(s, actions[..|actions| - 1]), actions[|actions| - 1])
  }

  /** Commands are of the kind above, and solo steps stay on the channels 1 to 511. */
  ghost predicate ValidAction(p: Page, a: Action) {
    match a
    case Enter(c) => ValidCmd(c)
    case PlusMinus(up) =>
      (p.solo ==>
        match SoloMatch(p.prevBuffer, false)
        case None => true
        case Some(at) => 1 <= Atoi(p.prevBuffer[at..at + 3]) + (if up then 1 else -1) <= 511)
    case _ => true
  }

  ghost predicate ValidActions(s: Session, actions: seq<Action>) {
    forall i :: 0 <= i < |actions| ==> ValidAction(RunActions(s, actions[..i]).page, actions[i])
  }

  ghost predicate IsPrev(s: string, front: seq<string>, n: string, l: string) {
    && s == Join(SoloTokens(front, n, l))
    && (forall t :: t in front ==> IsKey(t) && !("AT" <= t))
    && IsChannel(n) && |n| == 3 && IsLevelText(l)
  }

  /** What the last command leaves for solo mode: nothing, or a padded command. */
  ghost predicate PrevOk(s: string) {
    s == "" || exists front, n, l :: IsPrev(s, front, n, l) && IsLevelKey(l)
  }

  ghost predicate Agrees(s: Session) {
    Mirrors(s.page.data, s.frame) && PrevOk(s.page.prevBuffer)
  }

  lemma {:induction false} LastNumber(sels: seq<Sel>) returns (front: seq<string>, n: string)
    requires sels != [] && forall s :: s in sels ==> ValidSel(s)
    ensures SelsTokens(sels) == front + [n] && IsChannel(n) && sels[|sels| - 1] in sels
    ensures n == match sels[|sels| - 1] case One(c) => c case Range(_, b) => b
    ensures forall t :: t in front ==> IsKey(t) && !("AT" <= t)
  {
    hide IsChannel;
    WordsNotAt();
    var s := sels[0];
    assert s in sels;
    var f0: seq<string>, n0: string := if s.One? then [] else [s.a, "THRU"], if s.One? then s.c else s.b;
    assert SelTokens(s) == f0 + [n0];
    if s.Range? { ChannelIsKey(s.a); }
    ChannelIsKey(n0);
    if |sels| == 1 {
      front, n := f0, n0;
    } else {
      var f1, n1 := LastNumber(sels[1..]);
      front, n := f0 + [n0] + ["AND"] + f1, n1;
      assert SelsTokens(sels) == SelTokens(s) + (["AND"] + SelsTokens(sels[1..]));
    }
  }

  lemma ChannelIsKey(c: string)
    requires IsChannel(c)
    ensures IsKey(c) && !("AT" <= c)
  {
    assert c[0] in c && IsDigit(c[0]);
  }

  lemma WordsNotAt()
    ensures IsKey("AND") && IsKey("THRU") && !("AT" <= "AND") && !("AT" <= "THRU")
  {
    LettersAreKeys();
    assert "AND"[1] == 'N' && "THRU"[0] == 'T' && "AT"[0] == 'A' && "AT"[1] == 'T';
  }

  lemma OneClauseTokens(c: Clause)
    ensures CommandTokens([c]) == ClauseTokens(c)
  {
    hide ClauseTokens;
    assert [c][1..] == [] && CommandTokens([]) == [];
  }

  /** After a command the previous buffer is a padded command. */
  lemma SentIsPrev(c: Cmd)
    requires ValidCmd(c)
    ensures PrevOk(PadNumbers(Join(CommandTokens([ClauseOf(c)])), false))
  {
    hide Join, PadNumbers, SelsTokens, LevelTokens, IsLevelKey, IsTyped, ValidSel, Pad3, PadSels;
    var cl := ClauseOf(c);
    ValidCmdIsValidClause(c);
    var zero: Frame := seq(FRAME_SIZE, _ => 0);
    PadCommandTokens([cl], zero);
    PadOfJoin(CommandTokens([cl]));
    PadClauseTokens(cl);
    assert PadClauses([cl]) == [PadClause(cl)] by { assert [cl][1..] == []; }
    OneClauseTokens(PadClause(cl));
    PadSelsTokens(cl.sels);
    LevelKeyIsValid(c.level);
    LastIsThree(c);
    var front, n := LastNumber(PadSels(cl.sels));
    PaddedLevelTokens(c.level);
    var l := PadKey(c.level);
    var s := PadNumbers(Join(CommandTokens([cl])), false);
    assert ClauseTokens(PadClause(cl)) == front + [n] + ["AT", l];
    assert front + [n] + ["AT", l] == SoloTokens(front, n, l);
    LevelKeyIsText(l);
    assert IsPrev(s, front, n, l);
  }

  lemma LevelKeyIsText(l: string)
    requires IsLevelKey(l)
    ensures IsLevelText(l)
  {
  }

  lemma PaddedLevelTokens(l: string)
    requires IsLevelText(l)
    ensures LevelTokens(PadLevel(LevelOf(l))) == ["AT", PadKey(l)]
  {
    LettersAreKeys();
    if l == "FULL" { assert ["AT"] + ["FULL"] == ["AT", "FULL"]; }
  }

  lemma LastIsThree(c: Cmd)
    requires ValidCmd(c)
    ensures var sels := PadSels(ClauseOf(c).sels);
            sels != [] && |match sels[|sels| - 1] case One(n) => n case Range(_, b) => b| == 3
  {
    hide IsLevelKey, Pad3;
    match c
    case List(chans, _) => LastOne(chans);
    case Thru(a, b, _) =>
      Pad3Length(b);
      assert [Range(a, b)][1..] == [];
  }

  lemma {:induction false} LastOne(chans: seq<string>)
    requires chans != [] && forall s :: s in chans ==> IsTyped(s)
    ensures var sels := PadSels(Ones(chans));
            sels != [] && sels[|sels| - 1].One? && |sels[|sels| - 1].c| == 3
  {
    hide Pad3, IsChannel;
    assert chans[0] in chans;
    Pad3Length(chans[0]);
    assert Ones(chans)[1..] == Ones(chans[1..]);
    if |chans| > 1 { LastOne(chans[1..]); }
  }

  lemma Pad3Length(s: string)
    requires IsTyped(s)
    ensures |Pad3(s)| == 3
  {
    ZerosLength(3 - |s|);
  }

  /** One command, typed and sent: what arrives at the two ends. */
  lemma EnterDelivers(s: Session, c: Cmd)
    requires ValidChans(c) && IsLevelText(c.level)
    ensures var t := Act(s, Enter(c));
            && t.page.posted == s.page.posted + [t.page.prevBuffer]
            && t.page.prevBuffer == PadNumbers(Join(CommandTokens([ClauseOf(c)])), false)
            && t.page.data == ParseBuffer(s.page.data, Join(ClauseTokens(ClauseOf(c))))
            && t.page.solo == s.page.solo
            && t.frame == Meaning(s.frame[0 := 0], [ClauseOf(c)])
  {
    hide Interpret, PadNumbers, Join, ParseBuffer, CommandTokens, ClauseTokens, ValidChans, ValidClause, Meaning,
      Touched, IsLevelText;
    var sent := PadNumbers(Join(CommandTokens([ClauseOf(c)])), false);
    var page := Press(s.page, Enter(c));
    assert page.posted == s.page.posted + [sent];
    assert page.posted[|s.page.posted|..] == [sent];
    DeliverOne(s.frame, s.captured, sent);
    ChansAreValidClause(c);
    JoinedSpells([ClauseOf(c)]);
    PaddingKeepsMeaning(s.frame, s.captured, Join(CommandTokens([ClauseOf(c)])), [ClauseOf(c)]);
    OneClauseTokens(ClauseOf(c));
  }

  /** After it the browser's list agrees with the frame. */
  lemma EnterAgrees(s: Session, c: Cmd)
    requires Mirrors(s.page.data, s.frame) && ValidCmd(c)
    ensures Agrees(Act(s, Enter(c)))
  {
    hide Mirrors, PrevOk, PadNumbers, Join, ParseBuffer, CommandTokens, ClauseTokens, ValidCmd, Meaning, Act;
    ValidChansOf(c);
    EnterDelivers(s, c);
    MirrorsIgnoresStart(s.page.data, s.frame);
    EnterKeepsMirror(s.page.data, s.frame[0 := 0], c);
    SentIsPrev(c);
  }

  lemma DeliverOne(frame: Frame, captured: set<nat>, post: string)
    ensures Deliver(frame, captured, [post]) == Interpret(frame, captured, post)
  {
    hide Interpret;
    assert [post][..0] == [];
  }

  lemma MirrorsIgnoresStart(data: map<string, string>, frame: Frame)
    requires Mirrors(data, frame)
    ensures Mirrors(data, frame[0 := 0])
  {
    hide Key, ShownValue;
  }

  // ---------------------------------------------------------------------------------------
  // Solo steps.

  lemma SingleTokens(x: string, l: string)
    ensures CommandTokens([ClauseOf(List([x], l))]) == [x, "AT", l]
  {
    OneClauseTokens(ClauseOf(List([x], l)));
    assert [x][1..] == [] && Ones([x]) == [One(x)];
    assert SelsTokens([One(x)]) == [x];
    if l == "FULL" { assert ["AT"] + ["FULL"] == ["AT", "FULL"]; }
  }

  /** "ccc AT 0": the firmware turns the channel off and the browser drops its entry. */
  lemma ChannelOff(data: map<string, string>, frame: Frame, captured: set<nat>, n: string)
    requires IsChannel(n) && |n| == 3
    ensures ParseBuffer(data, n + " AT 0") == data - {Key(Num(n))}
    ensures Interpret(frame, captured, PadNumbers(n + " AT 0", false)).0 == frame[0 := 0][Num(n) := 0]
  {
    ParsedOff(data, n);
    OffMeaning(frame, captured, n);
  }

  lemma OffMeaning(frame: Frame, captured: set<nat>, n: string)
    requires IsChannel(n)
    ensures Interpret(frame, captured, PadNumbers(n + " AT 0", false)).0 == frame[0 := 0][Num(n) := 0]
  {
    hide Interpret, PadNumbers, LeadDigits, Num, Meaning, Touched;
    var zero := "0";
    var c := Clause([One(n)], At(zero));
    ZeroIsNumeral();
    JoinThree(n, zero);
    assert n + (" AT " + zero) == n + " AT 0";
    OneClauseTokens(c);
    assert ClauseTokens(c) == [n, "AT", zero];
    JoinedSpells([c]);
    PaddingKeepsMeaning(frame, captured, n + " AT 0", [c]);
    OneClauseMeaning(frame[0 := 0], c);
    SplitChannels([One(n)]);
    assert [One(n)][1..] == [] && Channels([]) == {};
    assert Update(frame[0 := 0], {Num(n)}, 0) == frame[0 := 0][Num(n) := 0];
  }

  lemma ZeroIsNumeral()
    ensures IsNumeral("0") && Num("0") == 0
  {
    assert "0"[1..] == "" && LeadDigits("0", 0) == LeadDigits("", 0);
  }

  lemma ParsedOff(data: map<string, string>, n: string)
    requires IsChannel(n) && |n| == 3
    ensures ParseBuffer(data, n + " AT 0") == data - {Key(Num(n))}
  {
    hide LeadDigits, Num, Key, SplitAtBlanks, ParseBuffer;
    var zero := "0";
    var keys := [n, "AT", zero];
    JoinThree(n, zero);
    assert n + (" AT " + zero) == n + " AT 0";
    ZeroIsNumeral();
    assert IsKey(n) && IsKey(zero);
    LettersAreKeys();
    KeyHasNoBlank(n);
    KeyHasNoBlank(zero);
    KeyHasNoBlank("AT");
    SplitAtBlanksOfJoin(keys);
    TypedIsNoWord(n);
    assert keys == [n] + ["AT"] + [zero];
    IndexOfFirst([n], "AT", [zero]);
    assert "THRU"[0] == 'T' && "0"[0] == '0' && "AT"[0] == 'A';
    assert "THRU" !in keys;
    assert keys[..1] == [n];
    NotAndsOne(n);
    assert zero != "FULL" && zero != "255" by { assert "FULL"[0] == 'F' && "255"[0] == '2'; }
    ParsedBuffer(data, n + " AT 0", keys);
    RecordedOff(data, n);
    ThreeDigitsAreKey(n);
  }

  lemma ParsedBuffer(data: map<string, string>, buffer: string, keys: seq<string>)
    requires SplitAtBlanks(buffer) == keys
    ensures ParseBuffer(data, buffer)
      == RecordAll(data, NamedChannels(keys), ShownLevel(KeyAt(keys, IndexOf(keys, "AT") + 1)))
  {
  }

  lemma RecordedOff(data: map<string, string>, n: string)
    ensures RecordAll(data, [n], "0") == data - {n}
  {
    assert [n][..0] == [];
    assert RecordAll(data, [n], "0") == Record(RecordAll(data, [], "0"), n, "0");
  }

  lemma NextChannel(d: nat, l: string)
    requires 1 <= d <= 511
    ensures ValidChans(List([Show(d)], l)) && IsTyped(Show(d)) && Pad3(Show(d)) == Key(d)
    ensures Num(Show(d)) == d
  {
    PadShowIsKey(d);
  }

  /** What the two commands of a solo step do to the frame: the old channel goes to zero, the next one
      takes the level. */
  function Stepped(frame: Frame, c: nat, d: nat, v: Byte): Frame
    requires c < FRAME_SIZE && d < FRAME_SIZE
  {
    frame[0 := 0][c := 0][0 := 0][d := v]
  }

  /** The two commands of a solo step, whatever the level is. */
  lemma SoloStepFrame(s: Session, up: bool, front: seq<string>, n: string, l: string)
    requires s.page.solo && IsPrev(s.page.prevBuffer, front, n, l)
    requires 1 <= Num(n) + (if up then 1 else -1) <= 511
    ensures var d := Num(n) + (if up then 1 else -1);
            var t := Act(s, PlusMinus(up));
            && t.page.solo && IsPrev(t.page.prevBuffer, [], Key(d), PadKey(l))
            && t.page.keyBuffer == Show(d) + (" AT " + l)
            && |t.page.posted| == |s.page.posted| + 2
            && t.page.data == ParseBuffer(s.page.data - {Key(Num(n))}, Join(ClauseTokens(ClauseOf(List([Show(d)], l)))))
            && t.frame == Stepped(s.frame, Num(n), d, LevelValue(LevelOf(l)))
  {
    hide Mirrors, PrevOk, Interpret, PadNumbers, Join, ParseBuffer, SoloMatch, IsKey, Key, Pad3, LevelValue, Meaning,
      LeadDigits, IsNumeral, IsLevelText, CommandTokens, ClauseTokens, ValidChans;
    var d: nat := Num(n) + (if up then 1 else -1);
    var at := SoloFindsLastNumber(front, n, l);
    AtoiOfNumeral(n);
    // first command
    var off := n + " AT 0";
    var p1 := SendKeys(s.page.(keyBuffer := off));
    var s1 := PadNumbers(off, false);
    ChannelOff(s.page.data, s.frame, s.captured, n);
    var f1 := s.frame[0 := 0][Num(n) := 0];
    var caught := Interpret(s.frame, s.captured, s1).1;
    // second command
    var next := ShowInt(d) + (" AT " + l);
    var cmd := List([Show(d)], l);
    NextChannel(d, l);
    SingleTokens(Show(d), l);
    JoinThree(Show(d), l);
    var mid := Session(p1.(keyBuffer := next), f1, caught);
    EnterDelivers(mid, cmd);
    var t2 := Act(mid, Enter(cmd));
    SoloStepIsTwoCommands(s, up, at, n, l, off, next);
    var p2 := SendKeys(p1.(keyBuffer := next));
    assert Press(mid.page, Enter(cmd)) == p2;
    var page := Press(s.page, PlusMinus(up));
    assert page == p2.(keyBuffer := next);
    assert page.posted == s.page.posted + [s1, p2.prevBuffer];
    assert page.posted[|s.page.posted|..] == [s1, p2.prevBuffer];
    DeliverTwo(s.frame, s.captured, s1, p2.prevBuffer);
    assert mid.page.posted + [p2.prevBuffer] == p2.posted;
    assert p2.posted[|mid.page.posted|..] == [p2.prevBuffer];
    DeliverOne(f1, caught, p2.prevBuffer);
    assert Act(s, PlusMinus(up)).frame == t2.frame;
    StepMeaning(f1, d, l);
    PaddedPrev(Show(d), l, d);
  }

  /** With a level from 1 to 255, or FULL, the browser's list still agrees. */
  lemma SoloStepAgrees(s: Session, up: bool, front: seq<string>, n: string, l: string)
    requires Mirrors(s.page.data, s.frame) && s.page.solo && IsPrev(s.page.prevBuffer, front, n, l) && IsLevelKey(l)
    requires 1 <= Num(n) + (if up then 1 else -1) <= 511
    ensures Agrees(Act(s, PlusMinus(up)))
  {
    hide Mirrors, ParseBuffer, Key, LevelValue, Meaning, LeadDigits, IsNumeral, IsLevelText, ValidChans, Act,
      Join, ClauseTokens, IsLevelKey;
    var d: nat := Num(n) + (if up then 1 else -1);
    var cmd := List([Show(d)], l);
    SoloStepFrame(s, up, front, n, l);
    MirrorsIgnoresStart(s.page.data, s.frame);
    DeleteKeepsMirror(s.page.data, s.frame[0 := 0], Num(n));
    var data, f1 := s.page.data - {Key(Num(n))}, s.frame[0 := 0][Num(n) := 0];
    MirrorsIgnoresStart(data, f1);
    NextChannel(d, l);
    EnterKeepsMirror(data, f1[0 := 0], cmd);
    StepMeaning(f1, d, l);
    LevelKeyIsValid(l);
  }

  lemma SoloStepIsTwoCommands(s: Session, up: bool, at: nat, n: string, l: string, off: string, next: string)
    requires s.page.solo && SoloMatch(s.page.prevBuffer, false) == Some(at)
    requires s.page.prevBuffer[at..at + 3] == n && s.page.prevBuffer[at + 3..] == " AT " + l
    requires off == n + " AT 0" && next == ShowInt(Atoi(n) + if up then 1 else -1) + (" AT " + l)
    ensures Press(s.page, PlusMinus(up)) ==
      SendKeys(SendKeys(s.page.(keyBuffer := off)).(keyBuffer := next)).(keyBuffer := next)
  {
    hide SendKeys, SoloMatch, Atoi;
  }

  lemma DeliverTwo(frame: Frame, captured: set<nat>, a: string, b: string)
    ensures Deliver(frame, captured, [a, b]) ==
      var (f, c) := Interpret(frame, captured, a); Interpret(f, c, b)
  {
    hide Interpret;
    assert [a, b][..1] == [a];
    DeliverOne(frame, captured, a);
  }

  lemma StepMeaning(frame: Frame, d: nat, l: string)
    requires 1 <= d <= 511
    ensures Meaning(frame[0 := 0], [ClauseOf(List([Show(d)], l))]) ==
      frame[0 := 0][d := LevelValue(LevelOf(l))]
  {
    hide LevelValue;
    NextChannel(d, l);
    var c := ClauseOf(List([Show(d)], l));
    OneClauseMeaning(frame[0 := 0], c);
    OnesOfOne(Show(d));
    SplitChannels(c.sels);
    assert c.sels[1..] == [] && Channels([]) == {};
  }

  lemma OnesOfOne(x: string)
    ensures Ones([x]) == [One(x)]
  {
    assert [x][1..] == [] && Ones([]) == [];
  }

  lemma PaddedPrev(x: string, l: string, d: nat)
    requires IsTyped(x) && Num(x) == d && IsLevelText(l) && 1 <= d <= 511
    ensures IsPrev(PadNumbers(Join(CommandTokens([ClauseOf(List([x], l))])), false), [], Key(d), PadKey(l))
  {
    hide Join, PadNumbers, LeadDigits, CommandTokens;
    SingleTokens(x, l);
    LevelTextIsKey(l);
    LettersAreKeys();
    assert IsKey(x);
    PadOfJoin([x, "AT", l]);
    PadKeysThree(x, "AT", l);
    Pad3IsKey(x);
    NumOfKey(d);
    assert [] + [Key(d), "AT", PadKey(l)] == [Key(d), "AT", PadKey(l)];
  }

  lemma LevelTextIsKey(l: string)
    requires IsLevelText(l)
    ensures IsKey(l) && IsLevelText(PadKey(l)) && LevelValue(LevelOf(PadKey(l))) == LevelValue(LevelOf(l))
    ensures IsLevelKey(l) ==> IsLevelKey(PadKey(l))
  {
    LettersAreKeys();
    if l != "FULL" {
      Pad3KeepsNumber(l);
      assert PadKey(l)[0] in PadKey(l) && IsDigit(PadKey(l)[0]);
      assert "FULL"[0] == 'F';
    }
  }

  lemma PadKeysThree(a: string, b: string, c: string)
    ensures PadKeys([a, b, c]) == [PadKey(a), PadKey(b), PadKey(c)]
  {
    hide PadKey;
    assert [a, b, c] == [a] + ([b] + [c]);
    PadKeysAppend([a], [b] + [c]);
    PadKeysAppend([b], [c]);
    PadKeysOne(a);
    PadKeysOne(b);
    PadKeysOne(c);
  }

  lemma ActAgrees(s: Session, a: Action)
    requires Agrees(s) && ValidAction(s.page, a)
    ensures Agrees(Act(s, a))
  {
    hide Mirrors, Interpret, PadNumbers, Join, ParseBuffer, IsKey, Key, LevelValue, Meaning, LeadDigits, ValidCmd;
    match a
    case Enter(c) => EnterAgrees(s, c);
    case ReleaseKey =>
      assert Press(s.page, a).posted[|s.page.posted|..] == ["release"];
      ReleaseMirrors(s.frame, s.captured);
    case SoloKey =>
      if s.page.solo {
        assert Press(s.page, a).posted[|s.page.posted|..] == ["release"];
        ReleaseMirrors(s.frame, s.captured);
      } else {
        assert Press(s.page, a).posted[|s.page.posted|..] == [];
      }
    case PlusMinus(up) =>
      if s.page.solo && SoloMatch(s.page.prevBuffer, false).Some? {
        NothingToSolo();
        var front, n, l :| IsPrev(s.page.prevBuffer, front, n, l) && IsLevelKey(l);
        var at := SoloFindsLastNumber(front, n, l);
        AtoiOfNumeral(n);
        SoloStepAgrees(s, up, front, n, l);
      } else {
        assert Press(s.page, a).posted[|s.page.posted|..] == [];
      }
  }

  lemma NothingToSolo()
    ensures SoloMatch("", false) == None
  {
  }

  lemma ReleaseMirrors(frame: Frame, captured: set<nat>)
    ensures Deliver(frame, captured, ["release"]) == (Cleared(frame), {})
    ensures Mirrors(map[], Cleared(frame))
  {
    hide Key, ShownValue;
    DeliverOne(frame, captured, "release");
    ReleaseClears(frame, captured);
  }

  /** After any run of commands, solo steps and releases, the browser's list is exactly the non-zero
      channels of the firmware's frame, with their levels. */
  lemma {:induction false} MirrorAgreement(s: Session, actions: seq<Action>)
    requires Agrees(s) && ValidActions(s, actions)
    ensures Agrees(RunActions(s, actions))
  {
    hide Agrees, Act, ValidAction;
    if actions != [] {
      var front := actions[..|actions| - 1];
      forall i | 0 <= i < |front| ensures ValidAction(RunActions(s, front[..i]).page, front[i]) {
        assert front[..i] == actions[..i] && front[i] == actions[i];
      }
      MirrorAgreement(s, front);
      assert ValidAction(RunActions(s, actions[..|actions| - 1]).page, actions[|actions| - 1]);
      ActAgrees(RunActions(s, front), actions[|actions| - 1]);
    }
  }

  /** A fresh page and a dark frame agree. */
  lemma FreshSessionAgrees(frame: Frame, captured: set<nat>)
    requires forall c :: 1 <= c <= 511 ==> frame[c] == 0
    ensures Agrees(Session(Page("", "", map[], false, []), frame, captured))
  {
    hide Key;
  }
}
