/** Key strings: splitting at blanks, decimal numbers, and zero padding. */
module KeyStrings {

  predicate IsDigit(c: char) {
    '0' <= c <= '9'
  }

  predicate AllDigits(s: string) {
    forall c :: c in s ==> IsDigit(c)
  }

  /** A number as it is typed. */
  predicate IsNumeral(s: string) {
    s != [] && AllDigits(s)
  }

  /** The number that the leading digits of s spell, after `acc`. */
  function LeadDigits(s: string, acc: nat): nat {
    if s == [] || !IsDigit(s[0]) then acc else LeadDigits(s[1..], 10 * acc + (s[0] as int - '0' as int))
  }

  /** The numbers an `int` can hold. */
  const INT_LIMIT := 0x8000_0000

  /** `isspace`: blank, and from tabulator to carriage return. */
  predicate IsCSpace(c: char) {
    c == ' ' || 9 <= c as int <= 13
  }

  function SkipCSpace(s: string): string {
    if s != [] && IsCSpace(s[0]) then SkipCSpace(s[1..]) else s
  }

  /** `atoi`; C leaves open what it gives for a number that an `int` cannot hold. */
  function Atoi(s: string): int {
    var t := SkipCSpace(s);
    if t != [] && t[0] == '-' then 0 - LeadDigits(t[1..], 0)
    else if t != [] && t[0] == '+' then LeadDigits(t[1..], 0)
    else LeadDigits(t, 0)
  }

  function Num(s: string): nat {
    LeadDigits(s, 0)
  }

  lemma AtoiOfNumeral(s: string)
    requires IsNumeral(s) && Num(s) < INT_LIMIT
    ensures Atoi(s) == Num(s)
  {
    if s != [] { assert s[0] in s; }
  }

  /** Leading zeros do not count. */
  function Zeros(n: nat): string {
    if n == 0 then "" else "0" + Zeros(n - 1)
  }

  lemma {:induction false} ZerosDoNotCount(n: nat, s: string)
    ensures Num(Zeros(n) + s) == Num(s)
    ensures IsNumeral(s) ==> IsNumeral(Zeros(n) + s)
  {
    if n == 0 {
      assert Zeros(0) + s == s;
    } else {
      ZerosDoNotCount(n - 1, s);
      assert (Zeros(n) + s)[0] == '0' && (Zeros(n) + s)[1..] == Zeros(n - 1) + s;
    }
  }

  /** `padStart(3, '0')`. */
  function Pad3(s: string): string {
    if |s| < 3 then Zeros(3 - |s|) + s else s
  }

  lemma Pad3KeepsNumber(s: string)
    ensures Num(Pad3(s)) == Num(s)
    ensures IsNumeral(s) ==> IsNumeral(Pad3(s))
  {
    if |s| < 3 { ZerosDoNotCount(3 - |s|, s); }
  }

  // ---------------------------------------------------------------------------------------
  // Blanks.

  /** The length of the token s begins with. */
  function TokenLen(s: string): (n: nat)
    ensures n <= |s|
  {
    if s == [] || s[0] == ' ' then 0 else 1 + TokenLen(s[1..])
  }

  /** The tokens that `strtok(s, " ")` hands out. */
  function Tokens(s: string): seq<string>
    decreases |s|
  {
    if s == [] then []
    else if s[0] == ' ' then Tokens(s[1..])
    else [s[..TokenLen(s)]] + Tokens(s[TokenLen(s)..])
  }

  method Split(s: string) returns (tokens: seq<string>)
    ensures tokens == Tokens(s)
  {
    hide Tokens;
    tokens := [];
    var i := 0;
    TokensOfWord([]);
    while i < |s|
      invariant i <= |s| && Tokens(s) == tokens + Tokens(s[i..])
    {
      if s[i] == ' ' {
        SkipsBlank(s[i..]);
        assert s[i..][1..] == s[i + 1..];
        i := i + 1;
      } else {
        var from := i;
        while i < |s| && s[i] != ' '
          invariant from <= i <= |s| && TokenLen(s[from..]) == i - from + TokenLen(s[i..])
        {
          i := i + 1;
        }
        SplitOneToken(s, from, i);
        tokens := tokens + [s[from..i]];
      }
    }
    assert s[i..] == [];
  }

  lemma SplitOneToken(s: string, from: nat, i: nat)
    requires from < i <= |s| && s[from] != ' ' && TokenLen(s[from..]) == i - from
    ensures Tokens(s[from..]) == [s[from..i]] + Tokens(s[i..])
  {
    assert s[from..][..i - from] == s[from..i] && s[from..][i - from..] == s[i..];
  }

  predicate IsToken(t: string) {
    t != [] && ' ' !in t
  }

  function Join(ts: seq<string>): string {
    if ts == [] then "" else if |ts| == 1 then ts[0] else ts[0] + (" " + Join(ts[1..]))
  }

  /** Splitting undoes joining. */
  lemma {:induction false} SplitOfJoin(ts: seq<string>)
    requires forall t :: t in ts ==> IsToken(t)
    ensures Tokens(Join(ts)) == ts
  {
    if ts != [] {
      assert ts[0] in ts;
      if |ts| == 1 {
        TokenThenRest(ts[0], "");
        assert ts[0] + "" == ts[0] && ts == [ts[0]];
      } else {
        TokenThenRest(ts[0], " " + Join(ts[1..]));
        SplitOfJoin(ts[1..]);
        assert (" " + Join(ts[1..]))[1..] == Join(ts[1..]);
      }
    }
  }

  lemma TokenThenRest(t: string, rest: string)
    requires IsToken(t) && (rest == [] || rest[0] == ' ')
    ensures Tokens(t + rest) == [t] + Tokens(rest)
  {
    TokenLenOf(t, rest);
    assert (t + rest)[0] == t[0] && t[0] in t;
    assert (t + rest)[..|t|] == t && (t + rest)[|t|..] == rest;
  }

  lemma {:induction false} TokenLenOf(t: string, rest: string)
    requires ' ' !in t && (rest == [] || rest[0] == ' ')
    ensures TokenLen(t + rest) == |t|
  {
    if t == [] {
      assert t + rest == rest;
    } else {
      assert t[0] in t && (t + rest)[0] == t[0] && (t + rest)[1..] == t[1..] + rest;
      TokenLenOf(t[1..], rest);
    }
  }

  lemma FirstToken(s: string) returns (t: string, rest: string)
    requires s != [] && s[0] != ' '
    ensures s == t + rest && IsToken(t) && (rest == [] || rest[0] == ' ')
    ensures Tokens(s) == [t] + Tokens(rest)
  {
    t, rest := s[..TokenLen(s)], s[TokenLen(s)..];
    TokenLenStops(s);
  }

  lemma {:induction false} TokenLenStops(s: string)
    ensures ' ' !in s[..TokenLen(s)] && (TokenLen(s) < |s| ==> s[TokenLen(s)] == ' ')
  {
    if s != [] && s[0] != ' ' {
      TokenLenStops(s[1..]);
      assert s[..TokenLen(s)] == [s[0]] + s[1..][..TokenLen(s[1..])];
    }
  }

  lemma SkipsBlank(s: string)
    requires s != [] && s[0] == ' '
    ensures Tokens(s) == Tokens(s[1..])
  {
  }

  /** A blank separates, wherever it stands: with `Tokens("") == []` and one token for a string without
      blanks this is all there is to splitting. */
  lemma {:induction false} TokensAtBlank(s: string, t: string)
    ensures Tokens(s + (" " + t)) == Tokens(s) + Tokens(t)
    decreases |s|
  {
    hide Tokens, IsToken;
    if s == [] {
      assert s + (" " + t) == " " + t && (" " + t)[1..] == t;
      SkipsBlank(" " + t);
      TokensOfWord(s);
    } else if s[0] == ' ' {
      assert (s + (" " + t))[0] == ' ' && (s + (" " + t))[1..] == s[1..] + (" " + t);
      TokensAtBlank(s[1..], t);
      SkipsBlank(s);
      SkipsBlank(s + (" " + t));
    } else {
      var w, rest := FirstToken(s);
      assert s + (" " + t) == w + (rest + (" " + t));
      TokenThenRest(w, rest + (" " + t));
      NotEmptyToken(w);
      TokensAtBlank(rest, t);
      assert Tokens(s) == [w] + Tokens(rest);
    }
  }

  lemma NotEmptyToken(w: string)
    requires IsToken(w)
    ensures w != []
  {
  }

  lemma TokensOfWord(t: string)
    ensures Tokens([]) == []
    ensures IsToken(t) ==> Tokens(t) == [t]
  {
    if IsToken(t) {
      TokenThenRest(t, []);
      assert t + [] == t;
    }
  }

  /** `atoi` takes a sign, and stops at the first character that is no digit. */
  lemma AtoiOfSigned(n: string)
    requires IsNumeral(n) && Num(n) < INT_LIMIT
    ensures Atoi("-" + n) == 0 - Num(n) && Atoi("+" + n) == Num(n)
  {
    hide LeadDigits;
    assert ("-" + n)[1..] == n && ("+" + n)[1..] == n;
  }

  /** White space in front is skipped; a token can hold some, since only blanks separate. */
  lemma AtoiSkipsSpace(s: string, c: char)
    requires c == ' ' || c == '\t' || c == '\n' || c == '\r'
    ensures Atoi([c] + s) == Atoi(s)
  {
    hide LeadDigits;
    assert ([c] + s)[1..] == s;
  }

  lemma {:induction false} AtoiStops(n: string, rest: string, acc: nat)
    requires AllDigits(n) && (rest == [] || !IsDigit(rest[0]))
    ensures LeadDigits(n + rest, acc) == LeadDigits(n, acc)
    decreases |n|
  {
    if n == [] {
      assert n + rest == rest;
    } else {
      assert n[0] in n && (n + rest)[0] == n[0] && (n + rest)[1..] == n[1..] + rest;
      AtoiStops(n[1..], rest, 10 * acc + (n[0] as int - '0' as int));
    }
  }

  /** One more digit. */
  lemma {:induction false} NumOfMore(n: string, d: char, acc: nat)
    requires AllDigits(n) && IsDigit(d)
    ensures LeadDigits(n + [d], acc) == 10 * LeadDigits(n, acc) + (d as int - '0' as int)
    decreases |n|
  {
    if n == [] {
      assert n + [d] == [d] && [d][1..] == [];
    } else {
      assert n[0] in n && (n + [d])[0] == n[0] && (n + [d])[1..] == n[1..] + [d];
      NumOfMore(n[1..], d, 10 * acc + (n[0] as int - '0' as int));
    }
  }
}
