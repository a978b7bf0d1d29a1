/** The option field of a DHCP message: finding an option, and writing options in place. */
module DhcpOptions {
  import opened Common

  const OPT_END := 255
  const OPT_LIMIT := 308

  /** A message buffer from the byte after the magic cookie on.  The search stops at offset 308, but
      reads one byte beyond the offset it looks at. */
  type Buffer = b: seq<Byte> | |b| > OPT_LIMIT witness seq(309, _ => 0)

  /** `opt_find` from offset i on: the offset of the first option with code `cmd`. */
  function FindFrom(b: Buffer, i: nat, cmd: Byte): (r: Option<nat>)
    ensures r.Some? ==> i <= r.value < 308 && b[r.value] == cmd
    decreases OPT_LIMIT - i
  {
    if i >= OPT_LIMIT || b[i] == OPT_END then None
    else if b[i] == cmd then Some(i)
    else FindFrom(b, i + 2 + b[i + 1], cmd)
  }

  method OptFind(b: array<Byte>, cmd: Byte) returns (r: Option<nat>)
    requires b.Length > OPT_LIMIT
    ensures r == FindFrom(b[..], 0, cmd)
  {
    var i := 0;
    while i < OPT_LIMIT && b[i] != OPT_END
      invariant FindFrom(b[..], 0, cmd) == FindFrom(b[..], i, cmd)
      decreases OPT_LIMIT - i
    {
      if b[i] == cmd {
        return Some(i);
      }
      i := i + 2 + b[i + 1];
    }
    return None;
  }

  // ---------------------------------------------------------------------------------------
  // Lists of options, as section 2 of RFC 2132 lays them out.

  datatype Opt = Opt(code: Byte, value: seq<Byte>)

  predicate Writable(o: Opt) {
    o.code != OPT_END && |o.value| < 256
  }

  function EncodeOne(o: Opt): seq<Byte>
    requires Writable(o)
  {
    [o.code, |o.value|] + o.value
  }

  function Encode(opts: seq<Opt>): seq<Byte>
    requires forall o :: o in opts ==> Writable(o)
  {
    if opts == [] then [] else EncodeOne(opts[0]) + Encode(opts[1..])
  }

  /** The first option with the code, if any. */
  function Lookup(opts: seq<Opt>, cmd: Byte): Option<Opt> {
    if opts == [] then None else if opts[0].code == cmd then Some(opts[0]) else Lookup(opts[1..], cmd)
  }

  /** What a reader makes of the option at offset i: length and value. */
  ghost predicate Reads(b: Buffer, i: nat, o: Opt) {
    i + 2 + |o.value| <= |b| && b[i] == o.code && b[i + 1] == |o.value| && b[i + 2..i + 2 + |o.value|] == o.value
  }

  /** For every list of options that fits, `opt_find` returns the first one with the code, and
      nothing when there is none, whatever follows the END byte in memory. */
  lemma FindInEncoded(b: Buffer, opts: seq<Opt>, cmd: Byte)
    requires forall o :: o in opts ==> Writable(o)
    requires |Encode(opts)| < 308 && cmd != OPT_END
    requires Encode(opts) + [OPT_END] <= b
    ensures FindFrom(b, 0, cmd).None? <==> Lookup(opts, cmd).None?
    ensures FindFrom(b, 0, cmd).Some? ==> Reads(b, FindFrom(b, 0, cmd).value, Lookup(opts, cmd).value)
  {
    FindFromOffset(b, 0, opts, cmd);
  }

  lemma {:induction false} FindFromOffset(b: Buffer, i: nat, opts: seq<Opt>, cmd: Byte)
    requires forall o :: o in opts ==> Writable(o)
    requires i + |Encode(opts)| < OPT_LIMIT && cmd != OPT_END
    requires Encode(opts) + [OPT_END] <= b[i..]
    ensures FindFrom(b, i, cmd).None? <==> Lookup(opts, cmd).None?
    ensures FindFrom(b, i, cmd).Some? ==> Reads(b, FindFrom(b, i, cmd).value, Lookup(opts, cmd).value)
    decreases |opts|
  {
    hide Encode;
    if opts == [] {
      EndByte(b, i);
    } else {
      HeadOption(b, i, opts);
      if opts[0].code != cmd {
        FindFromOffset(b, i + 2 + |opts[0].value|, opts[1..], cmd);
      }
    }
  }

  lemma EndByte(b: Buffer, i: nat)
    requires i < OPT_LIMIT && Encode([]) + [OPT_END] <= b[i..]
    ensures b[i] == OPT_END
  {
    assert b[i] == b[i..][0];
  }

  lemma HeadOption(b: Buffer, i: nat, opts: seq<Opt>)
    requires (forall o :: o in opts ==> Writable(o)) && opts != []
    requires i + |Encode(opts)| < OPT_LIMIT && Encode(opts) + [OPT_END] <= b[i..]
    ensures var n := |opts[0].value|;
            && Reads(b, i, opts[0]) && opts[0].code != OPT_END
            && i + 2 + n + |Encode(opts[1..])| < OPT_LIMIT
            && Encode(opts[1..]) + [OPT_END] <= b[i + 2 + n..]
  {
    hide Reads, Encode, EncodeOne;
    var o, rest := opts[0], Encode(opts[1..]) + [OPT_END];
    assert o in opts;
    EncodeHead(opts);
    assert Encode(opts) + [OPT_END] == EncodeOne(o) + rest;
    OneOption(b, i, o, rest);
  }

  lemma EncodeHead(opts: seq<Opt>)
    requires (forall o :: o in opts ==> Writable(o)) && opts != []
    ensures opts[0] in opts && Encode(opts) == EncodeOne(opts[0]) + Encode(opts[1..])
    ensures |EncodeOne(opts[0])| == 2 + |opts[0].value| && opts[0].code != OPT_END
  {
    assert opts[0] in opts;
  }

  lemma OneOption(b: Buffer, i: nat, o: Opt, rest: seq<Byte>)
    requires Writable(o) && i < |b| && EncodeOne(o) + rest <= b[i..]
    ensures Reads(b, i, o) && rest <= b[i + 2 + |o.value|..]
  {
    var n, s := |o.value|, b[i..];
    assert s[..|s|] == s && (EncodeOne(o) + rest)[n + 2..] == rest;
    assert b[i] == s[0] && b[i + 1] == s[1];
    assert (EncodeOne(o) + rest)[2..n + 2] == o.value;
    SliceOfSuffix(b, i, 2, n + 2);
    assert b[i + 2 + n..] == s[n + 2..];
  }

  lemma {:induction false} EncodeAppend(a: seq<Opt>, o: Opt)
    requires (forall x :: x in a ==> Writable(x)) && Writable(o)
    ensures forall x :: x in a + [o] ==> Writable(x)
    ensures Encode(a + [o]) == Encode(a) + EncodeOne(o)
  {
    if a == [] {
      assert a + [o] == [o] && Encode([]) == [];
    } else {
      assert (a + [o])[1..] == a[1..] + [o];
      EncodeAppend(a[1..], o);
    }
  }

  lemma EncodeSix(a: Opt, b: Opt, c: Opt, d: Opt, e: Opt, f: Opt)
    requires Writable(a) && Writable(b) && Writable(c) && Writable(d) && Writable(e) && Writable(f)
    ensures Encode([a, b, c, d, e, f]) ==
      EncodeOne(a) + EncodeOne(b) + EncodeOne(c) + EncodeOne(d) + EncodeOne(e) + EncodeOne(f)
  {
    hide EncodeOne;
    EncodeAppend([], a);
    EncodeAppend([a], b);
    EncodeAppend([a, b], c);
    EncodeAppend([a, b, c], d);
    EncodeAppend([a, b, c, d], e);
    EncodeAppend([a, b, c, d, e], f);
    assert [] + [a] == [a] && Encode([]) == [] && [a] + [b] == [a, b] && [a, b] + [c] == [a, b, c];
    assert [a, b, c] + [d] == [a, b, c, d] && [a, b, c, d] + [e] == [a, b, c, d, e];
    assert [a, b, c, d, e] + [f] == [a, b, c, d, e, f];
  }

  // ---------------------------------------------------------------------------------------
  // The writers: each puts one option at the cursor and moves the cursor behind it.

  /** Only the bytes from `at` to `end` changed, and they hold `written`. */
  twostate predicate Wrote(b: array<Byte>, at: nat, end: nat, written: seq<Byte>)
    reads b
  {
    && at <= end <= b.Length
    && b[..end] == old(b[..at]) + written
    && b[end..] == old(b[end..])
  }

  method OptWriteN(b: array<Byte>, at: nat, cmd: Byte, data: seq<Byte>) returns (end: nat)
    requires at + 2 + |data| <= b.Length && |data| < 256
    modifies b
    ensures end == at + 2 + |data| && Wrote(b, at, end, [cmd, |data|] + data)
  {
    b[at] := cmd;
    b[at + 1] := |data|;
    var k := 0;
    while k < |data|
      invariant k <= |data|
      invariant b[at] == cmd && b[at + 1] == |data|
      invariant forall j :: 0 <= j < k ==> b[at + 2 + j] == data[j]
      invariant forall j :: 0 <= j < at || at + 2 + |data| <= j < b.Length ==> b[j] == old(b[j])
    {
      b[at + 2 + k] := data[k];
      k := k + 1;
    }
    end := at + 2 + |data|;
    assert b[..at] == old(b[..at]) && b[at..end] == [cmd, |data|] + data && b[end..] == old(b[end..]);
    assert b[..end] == b[..at] + b[at..end];
  }

  method OptWriteU8(b: array<Byte>, at: nat, cmd: Byte, val: Byte) returns (end: nat)
    requires at + 3 <= b.Length
    modifies b
    ensures end == at + 3 && Wrote(b, at, end, [cmd, 1, val])
  {
    b[at] := cmd;
    b[at + 1] := 1;
    b[at + 2] := val;
    end := at + 3;
  }

  /** A 32-bit number in network byte order. */
  function BigEndian(v: nat): seq<Byte>
    requires v < 0x1_0000_0000
  {
    [v / 0x100_0000, v / 0x1_0000 % 256, v / 256 % 256, v % 256]
  }

  /** Its bytes, the most significant one first, give back the number. */
  lemma BigEndianValue(v: nat)
    requires v < 0x1_0000_0000
    ensures var b: seq<int> := BigEndian(v); |b| == 4 && v == ((b[0] * 256 + b[1]) * 256 + b[2]) * 256 + b[3]
  {
    var p, q, r := v / 256, v / 0x1_0000, v / 0x100_0000;
    assert v == 256 * p + v % 256 && p == 256 * q + p % 256 && q == 256 * r + q % 256;
  }

  method OptWriteU32(b: array<Byte>, at: nat, cmd: Byte, val: nat) returns (end: nat)
    requires at + 6 <= b.Length && val < 0x1_0000_0000
    modifies b
    ensures end == at + 6 && Wrote(b, at, end, [cmd, 4] + BigEndian(val))
  {
    b[at] := cmd;
    b[at + 1] := 4;
    b[at + 2] := val / 0x100_0000;
    b[at + 3] := val / 0x1_0000 % 256;
    b[at + 4] := val / 256 % 256;
    b[at + 5] := val % 256;
    end := at + 6;
  }

  // ---------------------------------------------------------------------------------------
  // Writing a list and looking it up.

  lemma {:induction false} EncodeConcat(a: seq<Opt>, b: seq<Opt>)
    requires (forall o :: o in a ==> Writable(o)) && (forall o :: o in b ==> Writable(o))
    ensures forall o :: o in a + b ==> Writable(o)
    ensures Encode(a + b) == Encode(a) + Encode(b)
  {
    if a == [] {
      assert a + b == b;
    } else {
      assert (a + b)[1..] == a[1..] + b;
      EncodeConcat(a[1..], b);
    }
  }

  /** One call of the writer per option, then END: the field encodes the list, and opt_find finds in it
      what the list has. */
  method WriteOptions(b: array<Byte>, opts: seq<Opt>) returns (end: nat)
    requires (forall o :: o in opts ==> Writable(o)) && |Encode(opts)| < 308 < b.Length
    modifies b
    ensures end <= b.Length && b[..end] == Encode(opts) + [OPT_END] && b[end..] == old(b[end..])
    ensures forall cmd: Byte :: cmd != OPT_END ==>
      match Lookup(opts, cmd)
      case None => FindFrom(b[..], 0, cmd).None?
      case Some(o) => FindFrom(b[..], 0, cmd).Some? && Reads(b[..], FindFrom(b[..], 0, cmd).value, o)
  {
    hide Encode, EncodeOne, Lookup, FindFrom;
    end := 0;
    EncodeNone();
    var k := 0;
    while k < |opts|
      invariant k <= |opts| && end == |Encode(opts[..k])| <= b.Length
      invariant b[..end] == Encode(opts[..k]) && b[end..] == old(b[end..])
    {
      var o := opts[k];
      assert opts[..k + 1] == opts[..k] + [o] && opts == opts[..k + 1] + opts[k + 1..];
      EncodeAppend(opts[..k], o);
      EncodeConcat(opts[..k + 1], opts[k + 1..]);
      EncodedOption(o);
      ghost var was := b[..];
      var next := OptWriteN(b, end, o.code, o.value);
      assert b[next..] == was[end..][next - end..];
      end := next;
      k := k + 1;
    }
    assert opts[..|opts|] == opts;
    ghost var was := b[..];
    b[end] := OPT_END;
    assert b[end + 1..] == was[end..][1..];
    end := end + 1;
    FindsAll(b[..], opts);
  }

  lemma EncodeNone()
    ensures Encode([]) == []
  {
  }

  lemma EncodedOption(o: Opt)
    requires Writable(o)
    ensures EncodeOne(o) == [o.code, |o.value|] + o.value
  {
  }

  lemma FindsAll(b: Buffer, opts: seq<Opt>)
    requires forall o :: o in opts ==> Writable(o)
    requires |Encode(opts)| < OPT_LIMIT && Encode(opts) + [OPT_END] <= b
    ensures forall cmd: Byte :: cmd != OPT_END ==>
      match Lookup(opts, cmd)
      case None => FindFrom(b, 0, cmd).None?
      case Some(o) => FindFrom(b, 0, cmd).Some? && Reads(b, FindFrom(b, 0, cmd).value, o)
  {
    hide Encode, Lookup, FindFrom, Reads;
    forall cmd: Byte | cmd != OPT_END
      ensures match Lookup(opts, cmd)
              case None => FindFrom(b, 0, cmd).None?
              case Some(o) => FindFrom(b, 0, cmd).Some? && Reads(b, FindFrom(b, 0, cmd).value, o)
    {
      FindInEncoded(b, opts, cmd);
    }
  }
}
