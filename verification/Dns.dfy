/**
  The DNS responder: it walks the name of the first question and answers every standard query with
  the address of the server, over the query itself.
 */
module Dns {
  import opened Common

  const MAX_DNS_MSG_SIZE := 300
  const HEADER := 12

  type Packet = b: seq<Byte> | |b| == MAX_DNS_MSG_SIZE witness seq(MAX_DNS_MSG_SIZE, _ => 0)

  /** The walk over the labels from p on: where it stops, or nothing when a length byte is no length.
      It may stop behind `end`, when a label runs over it. */
  function Walk(b: Packet, p: nat, end: nat): (r: Option<nat>)
    requires end <= MAX_DNS_MSG_SIZE
    ensures r.Some? ==> p <= r.value && (p < end ==> p < r.value)
    decreases MAX_DNS_MSG_SIZE - p
  {
    if p >= end then Some(p)
    else if b[p] == 0 then Some(p + 1)
    else if b[p] > 63 then None
    else Walk(b, p + 1 + b[p], end)
  }

  /** A standard query with at least one question. */
  predicate IsQuery(b: Packet) {
    b[2] / 128 % 2 == 0 && b[2] / 8 % 16 == 0 && (b[4] != 0 || b[5] != 0)
  }

  /** Where the question section ends, of a datagram that is answered. */
  function QuestionEnd(b: Packet, len: nat): (r: Option<nat>)
    requires len <= MAX_DNS_MSG_SIZE
    ensures r.Some? ==> HEADER + 4 <= r.value <= 271
  {
    if len < HEADER || !IsQuery(b) then None
    else
      match Walk(b, HEADER, len)
      case None => None
      case Some(p) => if p - HEADER > 255 then None else Some(p + 4)
  }

  /** Flags QR, AA and RA, one question, one answer. */
  const REPLY_COUNTS: seq<Byte> := [0x84, 0x80, 0, 1, 0, 1, 0, 0, 0, 0]

  /** A pointer to offset 12, type A, class IN, 60 s to live, four bytes of address. */
  function Answer(ip: Ip4): (a: seq<Byte>)
    ensures |a| == 16
  {
    [0xc0, HEADER, 0, 1, 0, 1, 0, 0, 0, 60, 0, 4] + ip
  }

  /** The reply that is sent: header, the question as it was, and the answer. */
  function Reply(b: Packet, q: nat, ip: Ip4): (r: seq<Byte>)
    requires HEADER <= q <= 271
    ensures |r| == q + 16
  {
    b[..2] + REPLY_COUNTS + b[HEADER..q] + Answer(ip)
  }

  /** Handles a datagram of `len` bytes in the buffer and returns how many bytes to send, 0 for none.
      What the buffer holds behind the datagram is left over from before. */
  method Process(b: array<Byte>, len: nat, ip: Ip4) returns (n: nat)
    requires b.Length == MAX_DNS_MSG_SIZE && len <= MAX_DNS_MSG_SIZE
    modifies b
    ensures n <= 287
    ensures match QuestionEnd(old(b[..]), len)
            case None => n == 0 && b[..] == old(b[..])
            case Some(q) => n == q + 16 && b[..n] == Reply(old(b[..]), q, ip)
  {
    n := 0;
    if len < HEADER { return; }
    if b[2] / 128 % 2 != 0 { return; }
    if b[2] / 8 % 16 != 0 { return; }
    if b[4] == 0 && b[5] == 0 { return; }
    var p := HEADER;
    while p < len
      invariant HEADER <= p && b[..] == old(b[..])
      invariant Walk(b[..], HEADER, len) == Walk(b[..], p, len)
      decreases MAX_DNS_MSG_SIZE - p
    {
      if b[p] == 0 {
        p := p + 1;
        break;
      }
      var labelLen := b[p];
      if labelLen > 63 { return; }
      p := p + 1 + labelLen;
    }
    if p - HEADER > 255 { return; }
    n := WriteAnswer(b, p + 4, ip);
  }

  method WriteAnswer(b: array<Byte>, q: nat, ip: Ip4) returns (n: nat)
    requires b.Length == MAX_DNS_MSG_SIZE && HEADER <= q <= 271
    modifies b
    ensures n == q + 16 && b[..n] == Reply(old(b[..]), q, ip)
  {
    hide Answer, REPLY_COUNTS;
    AppendAnswer(b, q, ip);
    ghost var mid := b[..];
    WriteHeader(b);
    n := q + 16;
    ReplyBytes(old(b[..]), mid, b[..], q, ip);
  }

  /** From what the two steps leave alone to the whole reply. */
  lemma ReplyBytes(was: seq<Byte>, mid: seq<Byte>, b: seq<Byte>, q: nat, ip: Ip4)
    requires |was| == |mid| == |b| == MAX_DNS_MSG_SIZE && HEADER <= q <= 271
    requires mid[..q + 16] == was[..q] + Answer(ip)
    requires b[..2] == mid[..2] && b[2..HEADER] == REPLY_COUNTS && b[HEADER..] == mid[HEADER..]
    ensures b[..q + 16] == Reply(was, q, ip)
  {
    hide Answer;
    var n := q + 16;
    assert b[..n] == b[..2] + b[2..HEADER] + b[HEADER..][..n - HEADER];
    assert b[HEADER..][..n - HEADER] == mid[..n][HEADER..];
    assert mid[..n][HEADER..] == was[HEADER..q] + Answer(ip);
    assert b[..2] == mid[..n][..2] == was[..2];
  }

  /** Four bytes at the cursor. */
  method Put(b: array<Byte>, at: nat, v0: Byte, v1: Byte, v2: Byte, v3: Byte) returns (next: nat)
    requires at + 4 <= b.Length
    modifies b
    ensures next == at + 4 && b[..next] == old(b[..at]) + [v0, v1, v2, v3] && b[next..] == old(b[next..])
  {
    b[at] := v0;
    b[at + 1] := v1;
    b[at + 2] := v2;
    b[at + 3] := v3;
    next := at + 4;
  }

  method AppendAnswer(b: array<Byte>, q: nat, ip: Ip4)
    requires b.Length == MAX_DNS_MSG_SIZE && HEADER <= q <= 271
    modifies b
    ensures b[..q + 16] == old(b[..q]) + Answer(ip)
  {
    var p := Put(b, q, 0xc0, HEADER, 0, 1);
    p := Put(b, p, 0, 1, 0, 0);
    p := Put(b, p, 0, 60, 0, 4);
    p := Put(b, p, ip[0], ip[1], ip[2], ip[3]);
    assert ip == [ip[0], ip[1], ip[2], ip[3]];
  }

  method WriteHeader(b: array<Byte>)
    requires b.Length == MAX_DNS_MSG_SIZE
    modifies b
    ensures b[..2] == old(b[..2]) && b[2..HEADER] == REPLY_COUNTS && b[HEADER..] == old(b[HEADER..])
  {
    b[2] := 0x84;
    b[3] := 0x80;
    b[4] := 0;
    b[5] := 1;
    b[6] := 0;
    b[7] := 1;
    b[8] := 0;
    b[9] := 0;
    b[10] := 0;
    b[11] := 0;
  }

  // ---------------------------------------------------------------------------------------
  // Names, as sections 3.1 and 4.1.4 of RFC 1035 lay them out.

  type Label = l: seq<Byte> | 1 <= |l| <= 63 witness [0]

  function EncodeName(labels: seq<Label>): seq<Byte> {
    if labels == [] then [0] else [|labels[0]|] + labels[0] + EncodeName(labels[1..])
  }

  /** A 16-bit number in network byte order. */
  function Pair(hi: nat, lo: nat): nat {
    256 * hi + lo
  }

  /** Reads a name at offset `at`: its labels and the offset behind it.  A pointer may only lead to an
      offset before `bound`. */
  function DecodeName(b: seq<Byte>, at: nat, bound: nat): Option<(seq<Label>, nat)>
    decreases bound, |b| - at
  {
    if at >= |b| then None
    else if b[at] == 0 then Some(([], at + 1))
    else if b[at] <= 63 then
      var next := at + 1 + b[at];
      if next > |b| then None
      else
        match DecodeName(b, next, bound)
        case None => None
        case Some((labels, after)) => Some(([b[at + 1..next]] + labels, after))
    else if b[at] >= 0xc0 && at + 1 < |b| then
      var target := Pair(b[at] - 0xc0, b[at + 1]);
      if target >= bound then None
      else
        match DecodeName(b, target, target)
        case None => None
        case Some((labels, _)) => Some((labels, at + 2))
    else None
  }

  /** Decoding undoes encoding, wherever the name stands. */
  lemma {:induction false} DecodeOfEncode(b: seq<Byte>, at: nat, bound: nat, labels: seq<Label>)
    requires at <= |b| && EncodeName(labels) <= b[at..]
    ensures DecodeName(b, at, bound) == Some((labels, at + |EncodeName(labels)|))
    decreases |labels|
  {
    if labels == [] {
      assert b[at] == b[at..][0];
    } else {
      HeadLabel(b, at, labels[0], EncodeName(labels[1..]));
      DecodeOfEncode(b, at + 1 + |labels[0]|, bound, labels[1..]);
      assert [labels[0]] + labels[1..] == labels;
    }
  }

  lemma HeadLabel(b: seq<Byte>, at: nat, l: Label, rest: seq<Byte>)
    requires at <= |b| && [|l|] + l + rest <= b[at..]
    ensures var next := at + 1 + |l|;
            next <= |b| && b[at] == |l| && b[at + 1..next] == l && rest <= b[next..]
  {
    var s, e, n := b[at..], [|l|] + l + rest, |l|;
    var k := |e|;
    assert s[..k] == e;
    assert b[at] == s[0] && s[0] == s[..k][0];
    SliceOfSuffix(b, at, 1, n + 1);
    SliceOfPrefix(s, k, 1, n + 1);
    assert e[1..n + 1] == l;
    SliceOfPrefix(s, k, n + 1, k);
    assert e[n + 1..k] == rest;
    SliceOfSuffix(b, at, n + 1, k);
    assert b[at + n + 1..][..|rest|] == b[at + n + 1..at + k];
  }

  /** A name in the datagram is walked to its end. */
  lemma {:induction false} WalkOfName(b: Packet, p: nat, len: nat, labels: seq<Label>)
    requires p + |EncodeName(labels)| <= len <= MAX_DNS_MSG_SIZE && EncodeName(labels) <= b[p..]
    ensures Walk(b, p, len) == Some(p + |EncodeName(labels)|)
    decreases |labels|
  {
    if labels == [] {
      assert b[p] == b[p..][0];
    } else {
      HeadLabel(b, p, labels[0], EncodeName(labels[1..]));
      WalkOfName(b, p + 1 + |labels[0]|, len, labels[1..]);
    }
  }

  // ---------------------------------------------------------------------------------------
  // What a client makes of the reply.

  /** The second two bytes of the header, as section 4.1.1 of RFC 1035 lays them out. */
  datatype Flags = Flags(response: bool, opcode: nat, authoritative: bool, truncated: bool, recursionDesired: bool,
                         recursionAvailable: bool, reserved: nat, rcode: nat)

  function ReadFlags(hi: nat, lo: nat): Flags {
    Flags(hi / 128 % 2 == 1, hi / 8 % 16, hi / 4 % 2 == 1, hi / 2 % 2 == 1, hi % 2 == 1,
          lo / 128 % 2 == 1, lo / 16 % 8, lo % 16)
  }

  datatype Message = Message(id: seq<Byte>, flags: Flags, questions: nat, answers: nat, authorities: nat,
                             additional: nat, question: (seq<Label>, seq<Byte>), owner: seq<Label>, kind: seq<Byte>,
                             ttl: nat, data: seq<Byte>)

  /** Reads a message with one question and one answer. */
  function Parse(b: seq<Byte>): Option<Message> {
    if |b| < 12 then None
    else
      match DecodeName(b, 12, 12)
      case None => None
      case Some((name, q)) =>
        if q + 4 > |b| then None
        else
          match DecodeName(b, q + 4, q + 4)
          case None => None
          case Some((owner, a)) =>
            if a + 10 > |b| || a + 10 + Pair(b[a + 8], b[a + 9]) != |b| then None
            else
              Some(Message(b[..2], ReadFlags(b[2], b[3]), Pair(b[4], b[5]), Pair(b[6], b[7]), Pair(b[8], b[9]),
                           Pair(b[10], b[11]), (name, b[q..q + 4]), owner, b[a..a + 4],
                           0x1_0000 * Pair(b[a + 4], b[a + 5]) + Pair(b[a + 6], b[a + 7]), b[a + 10..]))
  }

  /** Which datagrams with a complete name are answered: standard queries with at least one question and a
      name of up to 255 octets, whatever the other flags and the rest of the datagram are. */
  lemma AnsweredExactly(b: Packet, len: nat, labels: seq<Label>)
    requires EncodeName(labels) <= b[12..] && 12 + |EncodeName(labels)| <= len <= 300
    ensures var n := |EncodeName(labels)|;
            QuestionEnd(b, len) == if b[2] < 8 && Pair(b[4], b[5]) > 0 && n <= 255 then Some(12 + n + 4) else None
  {
    hide EncodeName, Walk;
    WalkOfName(b, 12, len, labels);
    QueryBits(b);
  }

  lemma QueryBits(b: Packet)
    ensures IsQuery(b) <==> b[2] < 8 && Pair(b[4], b[5]) > 0
  {
  }

  lemma ShortIsIgnored(b: Packet, len: nat)
    requires len < 12
    ensures QuestionEnd(b, len) == None
  {
  }

  /** Labels without the byte 0 that ends a name. */
  function EncodeLabels(labels: seq<Label>): seq<Byte> {
    if labels == [] then [] else [|labels[0]|] + labels[0] + EncodeLabels(labels[1..])
  }

  /** The walk passes labels that begin before the end of the datagram. */
  lemma {:induction false} WalkOfLabels(b: Packet, p: nat, len: nat, labels: seq<Label>)
    requires len <= MAX_DNS_MSG_SIZE && p <= |b| && EncodeLabels(labels) <= b[p..]
    requires labels != [] ==> p + |EncodeLabels(labels[..|labels| - 1])| < len
    ensures Walk(b, p, len) == Walk(b, p + |EncodeLabels(labels)|, len)
    decreases |labels|
  {
    if labels != [] {
      var l, rest := labels[0], labels[1..];
      HeadLabel(b, p, l, EncodeLabels(rest));
      if rest != [] {
        assert labels[..|labels| - 1][1..] == rest[..|rest| - 1];
      } else {
        assert labels[..0] == [];
      }
      WalkOfLabels(b, p + 1 + |l|, len, rest);
    }
  }

  /** A length byte above 63, a compression pointer for one, makes the datagram be ignored. */
  lemma BadLabelIsIgnored(b: Packet, len: nat, labels: seq<Label>)
    requires EncodeLabels(labels) <= b[12..] && 12 + |EncodeLabels(labels)| < len <= 300
    requires b[12 + |EncodeLabels(labels)|] > 63
    ensures QuestionEnd(b, len) == None
  {
    hide IsQuery, Walk;
    ShorterLabels(labels);
    WalkOfLabels(b, 12, len, labels);
    WalkAt(b, 12 + |EncodeLabels(labels)|, len);
  }

  lemma {:induction false} ShorterLabels(labels: seq<Label>)
    ensures labels != [] ==> |EncodeLabels(labels[..|labels| - 1])| < |EncodeLabels(labels)|
  {
    if |labels| > 1 {
      ShorterLabels(labels[1..]);
      assert labels[..|labels| - 1][1..] == labels[1..][..|labels| - 2];
    } else if |labels| == 1 {
      assert labels[..0] == [];
    }
  }

  /** A name that the datagram breaks off is taken as it is, up to the end of its last label. */
  lemma BrokenNameIsAnswered(b: Packet, len: nat, front: seq<Label>, last: Label, n: nat)
    requires n == |EncodeLabels(front + [last])| && EncodeLabels(front + [last]) <= b[12..]
    requires 12 + |EncodeLabels(front)| < len <= 12 + n && len <= 300
    ensures QuestionEnd(b, len) == if b[2] < 8 && Pair(b[4], b[5]) > 0 && n <= 255 then Some(12 + n + 4) else None
  {
    hide IsQuery, EncodeLabels, Walk;
    BrokenWalk(b, len, front, last, n);
    QueryBits(b);
  }

  lemma BrokenWalk(b: Packet, len: nat, front: seq<Label>, last: Label, n: nat)
    requires n == |EncodeLabels(front + [last])| && EncodeLabels(front + [last]) <= b[12..]
    requires 12 + |EncodeLabels(front)| < len <= 12 + n && len <= 300
    ensures Walk(b, 12, len) == Some(12 + n)
  {
    hide EncodeLabels, Walk;
    var labels := front + [last];
    assert labels[..|labels| - 1] == front;
    WalkOfLabels(b, 12, len, labels);
    WalkAt(b, 12 + n, len);
  }

  lemma WalkAt(b: Packet, p: nat, len: nat)
    requires len <= MAX_DNS_MSG_SIZE
    ensures p >= len ==> Walk(b, p, len) == Some(p)
    ensures p < len && b[p] > 63 ==> Walk(b, p, len) == None
  {
  }

  /** Every well-formed query, a name of up to 255 octets with its type and class, is answered, and the
      reply parses: the id and the first question of the query, no error, and one answer of type A and class
      IN that belongs to the name asked for, lives a minute and carries the address of the server. */
  lemma QueryIsAnswered(b: Packet, len: nat, ip: Ip4, labels: seq<Label>)
    requires len <= 300 && b[2] < 8 && Pair(b[4], b[5]) > 0
    requires |EncodeName(labels)| <= 255 && 12 + |EncodeName(labels)| + 4 <= len
    requires EncodeName(labels) <= b[12..]
    ensures var q := 12 + |EncodeName(labels)|;
            && QuestionEnd(b, len) == Some(q + 4)
            && Parse(Reply(b, q + 4, ip)) ==
               Some(Message(b[..2], Flags(true, 0, true, false, false, true, 0, 0), 1, 1, 0, 0,
                            (labels, b[q..q + 4]), labels, [0, 1, 0, 1], 60, ip))
  {
    hide EncodeName, DecodeName, Walk, Reply, QuestionEnd;
    var e := EncodeName(labels);
    var q := HEADER + |e|;
    AnsweredExactly(b, len, labels);
    var r := Reply(b, q + 4, ip);
    ReplyParts(b, q + 4, ip);
    SamePrefix(b, r, q + 4, e);
    DecodeOfEncode(r, HEADER, HEADER, labels);
    NameNotEmpty(labels);
    PointerToName(r, q + 4, labels, |e|);
    assert r[q..q + 4] == r[HEADER..q + 4][|e|..] == b[HEADER..q + 4][|e|..] == b[q..q + 4];
  }

  lemma NameNotEmpty(labels: seq<Label>)
    ensures |EncodeName(labels)| > 0
  {
  }

  lemma SamePrefix(b: seq<Byte>, r: seq<Byte>, q: nat, e: seq<Byte>)
    requires HEADER + |e| <= q <= |b| && q <= |r| && b[HEADER..q] == r[HEADER..q] && e <= b[HEADER..]
    ensures e <= r[HEADER..]
  {
    var n := |e|;
    PrefixOfSlice(b, HEADER, q, n);
    PrefixOfSlice(r, HEADER, q, n);
    assert e == b[HEADER..][..n];
  }

  lemma PrefixOfSlice(b: seq<Byte>, p: nat, q: nat, n: nat)
    requires p + n <= q <= |b|
    ensures b[p..][..n] == b[p..q][..n]
  {
  }

  lemma PointerToName(r: seq<Byte>, at: nat, labels: seq<Label>, n: nat)
    requires HEADER < at && at + 1 < |r| && r[at] == 0xc0 && r[at + 1] == HEADER
    requires DecodeName(r, HEADER, HEADER) == Some((labels, HEADER + n))
    ensures DecodeName(r, at, at) == Some((labels, at + 2))
  {
  }

  lemma ReplyParts(b: Packet, q: nat, ip: Ip4)
    requires HEADER <= q <= 271
    ensures var r := Reply(b, q, ip);
            && r[..2] == b[..2] && r[2] == 0x84 && r[3] == 0x80 && r[4] == 0 && r[5] == 1 && r[6] == 0 && r[7] == 1
            && r[8] == 0 && r[9] == 0 && r[10] == 0 && r[11] == 0
            && r[HEADER..q] == b[HEADER..q]
            && r[q] == 0xc0 && r[q + 1] == HEADER
            && r[q + 2..q + 6] == [0, 1, 0, 1] && r[q + 6] == 0 && r[q + 7] == 0 && r[q + 8] == 0 && r[q + 9] == 60
            && r[q + 10] == 0 && r[q + 11] == 4 && r[q + 12..] == ip
  {
    hide Answer;
    var r, a := Reply(b, q, ip), Answer(ip);
    AnswerParts(ip);
    assert r[q..] == a;
    assert r[q + 2..q + 6] == r[q..][2..6] && r[q + 12..] == r[q..][12..];
    assert r[q + 6] == r[q..][6] && r[q + 7] == r[q..][7] && r[q + 8] == r[q..][8] && r[q + 9] == r[q..][9];
    assert r[q] == r[q..][0] && r[q + 1] == r[q..][1] && r[q + 10] == r[q..][10] && r[q + 11] == r[q..][11];
  }

  lemma AnswerParts(ip: Ip4)
    ensures var a := Answer(ip);
            && |a| == 16 && a[0] == 0xc0 && a[1] == HEADER && a[2..6] == [0, 1, 0, 1]
            && a[6] == 0 && a[7] == 0 && a[8] == 0 && a[9] == 60 && a[10] == 0 && a[11] == 4 && a[12..] == ip
  {
  }
}
