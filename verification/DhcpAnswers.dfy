/**
  Which messages are answered, and with what, in terms of the options a client wrote and of the
  numbers of RFC 2131 and RFC 2132.
 */
module DhcpAnswers {
  import opened Common
  import opened DhcpOptions
  import opened DhcpServer

  /** The option field is the list, followed by END and anything. */
  ghost predicate Carries(m: Message, opts: seq<Opt>) {
    (forall o :: o in opts ==> Writable(o)) && |Encode(opts)| < 308 && Encode(opts) + [255] <= m.opts
  }

  /** The message type option, by its first byte. */
  ghost predicate IsOfType(opts: seq<Opt>, kind: Byte) {
    var o := Lookup(opts, 53);
    o.Some? && |o.value.value| > 0 && o.value.value[0] == kind
  }

  predicate MayHave(l: Lease, mac: Mac) {
    l.mac == mac || l.mac == [0, 0, 0, 0, 0, 0]
  }

  predicate FreeOrExpired(l: Lease, now: nat) {
    l.mac == [0, 0, 0, 0, 0, 0] || Expired(l, now)
  }

  /** The type of a message is the first byte of its first option 53. */
  lemma TypeIsOption53(m: Message, opts: seq<Opt>, kind: Byte)
    requires Carries(m, opts)
    ensures Lookup(opts, 53).None? <==> MessageType(m.opts).None?
    ensures IsOfType(opts, kind) ==> MessageType(m.opts) == Some(kind)
  {
    hide Encode, FindFrom, Lookup, Writable;
    FindInEncoded(m.opts, opts, 53);
    if IsOfType(opts, kind) {
      var i, v := FindFrom(m.opts, 0, 53).value, Lookup(opts, 53).value.value;
      assert m.opts[i + 2] == m.opts[i + 2..i + 2 + |v|][0];
    }
  }

  /** A REQUEST is granted slot k if and only if it asks for the address of the server with 16 + k for its
      last byte, k is below 8, and the slot is free or the client's; every other one is ignored. */
  lemma RequestAnsweredExactly(s: Server, m: Message, opts: seq<Opt>, a: seq<Byte>, clock: Clock)
    requires Carries(m, opts) && m.len >= 243 && IsOfType(opts, 3)
    requires Lookup(opts, 50) == Some(Opt(50, a)) && |a| >= 4
    ensures forall k: nat :: Decide(s, m, clock).1 == Grant(k) <==>
              k < 8 && IsAddress(a, s.ip, k) && MayHave(s.table[k], m.chaddr)
    ensures forall k: nat :: k < 8 && Decide(s, m, clock).1 == Grant(k) ==>
              Decide(s, m, clock).0 == s.table[k := Lease(m.chaddr, Stamp(clock[0]))]
    ensures !Decide(s, m, clock).1.Grant? ==> Decide(s, m, clock) == (s.table, Ignore)
  {
    hide Encode, FindFrom, Lookup, Writable, Stamp, IsOfType, MessageType, Carries, RequestedSlot, IsAddress;
    TypeIsOption53(m, opts, 3);
    SlotIsOption50(s.ip, m, opts, a);
  }

  /** Slot k of a server stands for this address. */
  predicate IsAddress(a: seq<Byte>, ip: Ip4, k: nat)
    requires |a| >= 4
  {
    a[..4] == [ip[0], ip[1], ip[2], 16 + k]
  }

  /** The slot asked for, against the four bytes of the address. */
  lemma SlotIsOption50(ip: Ip4, m: Message, opts: seq<Opt>, a: seq<Byte>)
    requires Carries(m, opts) && Lookup(opts, 50) == Some(Opt(50, a)) && |a| >= 4
    ensures forall k: nat :: RequestedSlot(ip, m.opts) == Some(k) <==> k < 8 && IsAddress(a, ip, k)
  {
    hide Encode, FindFrom, Lookup, Writable;
    FindInEncoded(m.opts, opts, 50);
    var i := FindFrom(m.opts, 0, 50).value;
    var field := m.opts[i + 2..i + 2 + |a|];
    assert m.opts[i + 5] == field[3] && m.opts[i + 2..i + 5] == field[..3];
    forall k: nat | k < 8 ensures IsAddress(a, ip, k) <==> a[..3] == ip[..3] && a[3] == 16 + k {
      AddressBytes(a, ip, k);
    }
  }

  lemma AddressBytes(a: seq<Byte>, ip: Ip4, k: nat)
    requires |a| >= 4
    ensures IsAddress(a, ip, k) <==> a[..3] == ip[..3] && a[3] == 16 + k
  {
    assert a[..4] == a[..3] + [a[3]];
    assert ip[..3] == [ip[0], ip[1], ip[2]];
    if IsAddress(a, ip, k) { assert a[..3] == a[..4][..3] && a[3] == a[..4][3]; }
  }

  /** What is no DISCOVER and asks for no address is ignored: too short, without a type, of another type,
      or a REQUEST without option 50. */
  lemma OthersAreIgnored(s: Server, m: Message, opts: seq<Opt>, kind: Byte, clock: Clock)
    requires Carries(m, opts)
    requires m.len < 243 || Lookup(opts, 53).None? || (IsOfType(opts, kind) && kind != 1 && kind != 3)
             || (IsOfType(opts, 3) && Lookup(opts, 50).None?)
    ensures Decide(s, m, clock) == (s.table, Ignore)
  {
    hide Encode, FindFrom, Lookup, Writable, Stamp, IsOfType, MessageType;
    TypeIsOption53(m, opts, kind);
    TypeIsOption53(m, opts, 3);
    if Lookup(opts, 50).None? { FindInEncoded(m.opts, opts, 50); }
  }

  /** A DISCOVER is offered slot k if and only if k is the first with the client's MAC, or no slot has it
      and k is the first that is free or expired; and the one slot that changes is the first free or
      expired one, if it is expired and no slot up to it has the client's MAC: it becomes free. */
  lemma DiscoverAnsweredExactly(s: Server, m: Message, opts: seq<Opt>, clock: Clock)
    requires Carries(m, opts) && m.len >= 243 && IsOfType(opts, 1)
    ensures forall k: nat :: Decide(s, m, clock).1 == Offer(k) <==> Offered(s.table, m.chaddr, clock, k)
    ensures !Decide(s, m, clock).1.Offer? ==> Decide(s, m, clock).1 == Ignore
    ensures forall i :: 0 <= i < 8 ==>
      Decide(s, m, clock).0[i] ==
        if ClearedAt(s.table, m.chaddr, clock, i) then Lease([0, 0, 0, 0, 0, 0], s.table[i].expiry) else s.table[i]
  {
    hide Encode, FindFrom, Lookup, Writable, IsOfType, MessageType, Expired, Carries, RequestedSlot, OfferedSlot,
      AfterDiscover, Offered, ClearedAt;
    TypeIsOption53(m, opts, 1);
    DiscoverExactly(s.table, m.chaddr, clock);
  }

  ghost predicate Offered(t: Table, mac: Mac, clock: Clock, k: nat) {
    && k < 8
    && ((t[k].mac == mac && forall j :: 0 <= j < k ==> t[j].mac != mac)
        || ((forall j :: 0 <= j < 8 ==> t[j].mac != mac)
            && FreeOrExpired(t[k], clock[k]) && forall j :: 0 <= j < k ==> !FreeOrExpired(t[j], clock[j])))
  }

  ghost predicate ClearedAt(t: Table, mac: Mac, clock: Clock, i: nat)
    requires i < 8
  {
    && Expired(t[i], clock[i])
    && (forall j :: 0 <= j < i ==> !FreeOrExpired(t[j], clock[j]))
    && forall j :: 0 <= j <= i ==> t[j].mac != mac
  }

  lemma DiscoverExactly(t: Table, mac: Mac, clock: Clock)
    ensures forall k: nat :: k < 8 && OfferedSlot(t, mac, clock) == k <==> Offered(t, mac, clock, k)
    ensures forall i :: 0 <= i < 8 ==>
      AfterDiscover(t, mac, clock)[i] ==
      if ClearedAt(t, mac, clock, i) then Lease([0, 0, 0, 0, 0, 0], t[i].expiry) else t[i]
  {
    hide Expired, FirstHeld, FirstUsable;
    var h, f := FirstHeld(t, mac, 0), FirstUsable(t, clock, 0);
    assert forall j :: 0 <= j < 8 ==> (Usable(t[j], clock[j]) <==> FreeOrExpired(t[j], clock[j]));
  }
}
