/**
  Whole runs of the lease server: any messages from any clients, in any interleaving, at true
  times that never go back.
 */
module DhcpRuns {
  import opened Common
  import opened DhcpOptions
  import opened DhcpServer

  // ---------------------------------------------------------------------------------------
  // What the 16-bit stamp and the 32-bit comparison make of time.

  /** Up to its last millisecond a lease never reads as expired. */
  lemma AliveUntilLastMs(l: Lease, t: nat, now: nat)
    requires l.expiry == Stamp(t) && t <= now <= LastMs(t)
    ensures t + 86_400_000 <= LastMs(t) <= t + 86_400_000 + 0xffff && !Expired(l, now)
  {
    Deadline(l, t, now);
  }

  /** The comparison sees the distance to the deadline modulo 2^32. */
  lemma Deadline(l: Lease, t: nat, now: nat)
    requires l.expiry == Stamp(t)
    ensures t + LEASE_MS <= LastMs(t) <= t + LEASE_MS + 0xffff
    ensures Expired(l, now) <==> (LastMs(t) - now) % TICKS >= 0x8000_0000
  {
    hide Expired;
    StampIsUpperHalf(l, t);
    var e := l.expiry * 0x1_0000 + 0xffff;
    ExpiredDistance(l, now);
    DistanceMod(LastMs(t), e, (t + LEASE_MS) / TICKS, now);
  }

  /** The deadline the firmware reads back from a stamp, against the one in true time. */
  lemma StampIsUpperHalf(l: Lease, t: nat)
    requires l.expiry == Stamp(t)
    ensures t + LEASE_MS <= LastMs(t) <= t + LEASE_MS + 0xffff
    ensures LastMs(t) == (t + LEASE_MS) / TICKS * TICKS + (l.expiry * 0x1_0000 + 0xffff)
  {
    DeadlineMod(t);
    RoundUp((t + LEASE_MS) % TICKS);
    Recompose(t + LEASE_MS);
  }

  lemma DeadlineMod(t: nat)
    ensures (t % TICKS + LEASE_MS) % TICKS == (t + LEASE_MS) % TICKS
  {
    assert t + LEASE_MS == (t % TICKS + LEASE_MS) + t / TICKS * TICKS;
    ModShift(t % TICKS + LEASE_MS, t / TICKS);
  }

  lemma RoundUp(s: nat)
    ensures s / 0x1_0000 * 0x1_0000 + 0xffff == s + (0xffff - s % 0x1_0000) && 0 <= 0xffff - s % 0x1_0000
  {
  }

  lemma Recompose(d: nat)
    ensures d == d / TICKS * TICKS + d % TICKS
  {
  }

  lemma ExpiredDistance(l: Lease, now: nat)
    ensures Expired(l, now) <==> (l.expiry * 0x1_0000 + 0xffff - now % TICKS) % TICKS >= 0x8000_0000
  {
  }

  lemma DistanceMod(deadline: nat, e: nat, q: nat, now: nat)
    requires deadline == q * TICKS + e
    ensures (deadline - now) % TICKS == (e - now % TICKS) % TICKS
  {
    var p := now / TICKS;
    assert deadline - now == (e - now % TICKS) + (q - p) * TICKS;
    ModShift(e - now % TICKS, q - p);
  }

  lemma {:induction false} ModShift(a: int, k: int)
    ensures (a + k * TICKS) % TICKS == a % TICKS
    decreases if k < 0 then -k else k
  {
    if k > 0 { ModShift(a, k - 1); } else if k < 0 { ModShift(a, k + 1); }
  }

  /** Past its last millisecond a lease reads as expired for 2^31 ms, then as valid for 2^31 ms, and
      so on: the test is right exactly in every other interval. */
  lemma ExpiredExactly(l: Lease, t: nat, now: nat)
    requires l.expiry == Stamp(t) && t <= now
    ensures t + 86_400_000 <= LastMs(t) <= t + 86_400_000 + 0xffff
    ensures Expired(l, now) <==> now > LastMs(t) && (now - LastMs(t) - 1) % 0x1_0000_0000 < 0x8000_0000
  {
    Deadline(l, t, now);
    if now > LastMs(t) {
      var d := now - LastMs(t);
      NegatedMod(d);
    }
  }

  lemma NegatedMod(d: int)
    requires d > 0
    ensures (0 - d) % TICKS == TICKS - 1 - (d - 1) % TICKS
  {
    var q, r := (d - 1) / TICKS, (d - 1) % TICKS;
    assert 0 - d == (TICKS - 1 - r) + (0 - q - 1) * TICKS;
    ModShift(TICKS - 1 - r, 0 - q - 1);
  }

  // ---------------------------------------------------------------------------------------
  // Runs, with a log of the ACKs sent.

  datatype Ack = Ack(time: nat, slot: nat, mac: Mac)

  datatype Event = Event(clock: Clock, msg: Message) {
    function Begin(): nat {
      clock[0]
    }

    function End(): nat {
      clock[DHCPS_MAX_IP - 1]
    }
  }

  datatype World = World(server: Server, log: seq<Ack>)

  function Step(w: World, e: Event): World {
    var (table, verdict) := Decide(w.server, e.msg, e.clock);
    World(w.server.(table := table),
          if verdict.Grant? then w.log + [Ack(e.Begin(), verdict.slot, e.msg.chaddr)] else w.log)
  }

  function Run(w: World, events: seq<Event>): World {
    if events == [] then w else Step(Run(w, events[..|events| - 1]), events[|events| - 1])
  }

  ghost predicate InOrder(events: seq<Event>) {
    && (forall i :: 0 <= i < |events| ==> Ascending(events[i].clock))
    && forall i :: 0 < i < |events| ==> events[i - 1].End() <= events[i].Begin()
  }

  ghost predicate Ascending(clock: Clock) {
    forall i, j :: 0 <= i < j < DHCPS_MAX_IP ==> clock[i] <= clock[j]
  }

  /** An ACK to a client with a real MAC still binds its slot, or its day is over. */
  ghost predicate Binding(table: Table, a: Ack, now: nat) {
    && a.slot < DHCPS_MAX_IP && a.time <= now
    && (a.mac != NO_MAC ==>
          || now > a.time + LEASE_MS
          || (table[a.slot].mac == a.mac
              && exists t :: a.time <= t <= now && table[a.slot].expiry == Stamp(t)))
  }

  ghost predicate AllBinding(w: World, now: nat) {
    forall a :: a in w.log ==> Binding(w.server.table, a, now)
  }

  /** The address was given to two different clients, and to the second within the first one's day. */
  ghost predicate Clash(a: Ack, b: Ack) {
    a.slot == b.slot && a.mac != b.mac && a.mac != NO_MAC && b.time <= a.time + LEASE_MS
  }

  ghost predicate Exclusive(log: seq<Ack>) {
    forall i, j :: 0 <= i < j < |log| ==> !Clash(log[i], log[j])
  }

  /** Time passes. */
  lemma BindingLasts(table: Table, a: Ack, now: nat, later: nat)
    requires Binding(table, a, now) && now <= later
    ensures Binding(table, a, later)
  {
  }

  lemma DiscoverKeepsBinding(table: Table, a: Ack, mac: Mac, clock: Clock)
    requires Binding(table, a, clock[0]) && Ascending(clock)
    ensures Binding(AfterDiscover(table, mac, clock), a, clock[DHCPS_MAX_IP - 1])
  {
    hide Expired, Stamp;
    var f := FirstUsable(table, clock, 0);
    assert clock[0] <= clock[DHCPS_MAX_IP - 1];
    if a.mac != NO_MAC && clock[0] <= a.time + LEASE_MS && f == a.slot {
      var t :| a.time <= t <= clock[0] && table[a.slot].expiry == Stamp(t);
      assert clock[0] <= clock[f] <= clock[DHCPS_MAX_IP - 1];
      Deadline(table[a.slot], t, clock[f]);
      if clock[f] <= a.time + LEASE_MS { AliveUntilLastMs(table[a.slot], t, clock[f]); }
    }
  }

  lemma GrantKeepsBinding(table: Table, a: Ack, slot: nat, mac: Mac, now: nat)
    requires Binding(table, a, now) && slot < DHCPS_MAX_IP
    requires table[slot].mac == mac || table[slot].mac == NO_MAC
    ensures Binding(table[slot := Lease(mac, Stamp(now))], a, now)
    ensures !Clash(a, Ack(now, slot, mac))
  {
    hide Stamp;
  }

  lemma StepKeepsBinding(w: World, e: Event)
    requires AllBinding(w, e.Begin()) && Exclusive(w.log) && Ascending(e.clock)
    ensures AllBinding(Step(w, e), e.End()) && Exclusive(Step(w, e).log)
  {
    hide Expired, Stamp, AfterDiscover, FirstUsable, OfferedSlot, MessageType, RequestedSlot, Binding;
    var (table, verdict) := Decide(w.server, e.msg, e.clock);
    assert e.Begin() <= e.End();
    forall a | a in w.log
      ensures Binding(table, a, e.End())
      ensures verdict.Grant? ==> !Clash(a, Ack(e.Begin(), verdict.slot, e.msg.chaddr))
    {
      assert Binding(w.server.table, a, e.Begin());
      if verdict.Grant? {
        GrantKeepsBinding(w.server.table, a, verdict.slot, e.msg.chaddr, e.Begin());
        BindingLasts(table, a, e.Begin(), e.End());
      } else if table != w.server.table {
        DiscoverKeepsBinding(w.server.table, a, e.msg.chaddr, e.clock);
      } else {
        BindingLasts(table, a, e.Begin(), e.End());
      }
    }
    if verdict.Grant? {
      NewAckBinds(table, Ack(e.Begin(), verdict.slot, e.msg.chaddr), e.End());
    }
  }

  lemma NewAckBinds(table: Table, a: Ack, now: nat)
    requires a.slot < DHCPS_MAX_IP && table[a.slot] == Lease(a.mac, Stamp(a.time)) && a.time <= now
    ensures Binding(table, a, now)
  {
  }

  lemma {:induction false} RunKeepsBinding(w: World, events: seq<Event>, now: nat)
    requires w.log == [] && InOrder(events)
    requires events != [] ==> events[|events| - 1].End() <= now
    ensures AllBinding(Run(w, events), now) && Exclusive(Run(w, events).log)
  {
    if events != [] {
      var last := events[|events| - 1];
      var front := events[..|events| - 1];
      RunKeepsBinding(w, front, last.Begin());
      StepKeepsBinding(Run(w, front), last);
      hide Step, Binding;
      forall a | a in Run(w, events).log ensures Binding(Run(w, events).server.table, a, now) {
        BindingLasts(Run(w, events).server.table, a, last.End(), now);
      }
    }
  }

  /** Over every run from every table: once an address was ACKed to a client with a real MAC, no other
      client is ACKed on it until more than 24 hours of true time have passed. */
  lemma LeaseExclusivity(w: World, events: seq<Event>, i: nat, j: nat)
    requires w.log == [] && InOrder(events)
    requires i < j < |Run(w, events).log|
    requires var log := Run(w, events).log;
             log[i].slot == log[j].slot && log[i].mac != log[j].mac && log[i].mac != NO_MAC
    ensures Run(w, events).log[j].time > Run(w, events).log[i].time + 86_400_000
  {
    RunKeepsBinding(w, events, if events == [] then 0 else events[|events| - 1].End());
    hide Run, Binding;
    assert !Clash(Run(w, events).log[i], Run(w, events).log[j]);
  }

  // ---------------------------------------------------------------------------------------
  // Messages that mean something.

  ghost predicate IsRequest(ip: Ip4, m: Message, slot: nat) {
    m.len >= DHCP_MIN_SIZE && MessageType(m.opts) == Some(DHCPREQUEST) && RequestedSlot(ip, m.opts) == Some(slot)
  }

  ghost predicate IsDiscover(m: Message) {
    m.len >= DHCP_MIN_SIZE && MessageType(m.opts) == Some(DHCPDISCOVER)
  }

  /** A field that encodes a list with the two options is such a request, wherever in the list they
      stand and whatever lies behind the END byte. */
  lemma EncodedRequest(ip: Ip4, m: Message, opts: seq<Opt>, slot: nat)
    requires m.len >= DHCP_MIN_SIZE && slot < DHCPS_MAX_IP
    requires forall o :: o in opts ==> Writable(o)
    requires |Encode(opts)| < OPT_LIMIT && Encode(opts) + [OPT_END] <= m.opts
    requires Lookup(opts, OPT_MSG_TYPE) == Some(Opt(OPT_MSG_TYPE, [DHCPREQUEST]))
    requires Lookup(opts, OPT_REQUESTED_IP) == Some(Opt(OPT_REQUESTED_IP, Address(ip, slot)))
    ensures IsRequest(ip, m, slot)
  {
    hide Encode, FindFrom;
    FindInEncoded(m.opts, opts, OPT_MSG_TYPE);
    FindInEncoded(m.opts, opts, OPT_REQUESTED_IP);
    hide Reads, Address;
    ReadsKind(m.opts, FindFrom(m.opts, 0, OPT_MSG_TYPE).value, DHCPREQUEST);
    ReadsAddress(m.opts, FindFrom(m.opts, 0, OPT_REQUESTED_IP).value, ip, slot);
  }

  lemma ReadsKind(b: Buffer, i: nat, kind: Byte)
    requires Reads(b, i, Opt(OPT_MSG_TYPE, [kind]))
    ensures i + 2 < |b| && b[i + 2] == kind
  {
    assert b[i + 2] == b[i + 2..i + 3][0];
  }

  lemma ReadsAddress(b: Buffer, k: nat, ip: Ip4, slot: nat)
    requires slot < DHCPS_MAX_IP && Reads(b, k, Opt(OPT_REQUESTED_IP, Address(ip, slot)))
    ensures k + 5 < |b| && b[k + 2..k + 5] == ip[..3] && b[k + 5] == DHCPS_BASE_IP + slot
  {
    var a := b[k + 2..k + 6];
    assert b[k + 5] == a[3] && b[k + 2] == a[0] && b[k + 3] == a[1] && b[k + 4] == a[2];
  }

  /** A client reads from the reply what the server is: its address as server, router and name
      server, the mask, the message type and the lease time. */
  lemma ReplyIsReadable(b: Buffer, ip: Ip4, mask: Ip4, kind: Byte, cmd: Byte)
    requires Encode(ReplyOptions(ip, mask, kind)) + [OPT_END] <= b && cmd != OPT_END
    ensures var want := match cmd
                        case 53 => Some([kind])
                        case 54 => Some(ip)
                        case 1 => Some(mask)
                        case 3 => Some(ip)
                        case 6 => Some(ip)
                        case 51 => Some([0, 1, 0x51, 0x80])
                        case _ => None;
            match want
            case None => FindFrom(b, 0, cmd) == None
            case Some(v) => FindFrom(b, 0, cmd).Some? && Reads(b, FindFrom(b, 0, cmd).value, Opt(cmd, v))
  {
    EncodedReply(ip, mask, kind);
    FindInEncoded(b, ReplyOptions(ip, mask, kind), cmd);
    hide Encode, FindFrom, Reads;
    LookupReply(ip, mask, kind, cmd);
  }

  lemma LookupReply(ip: Ip4, mask: Ip4, kind: Byte, cmd: Byte)
    ensures Lookup(ReplyOptions(ip, mask, kind), cmd) ==
      match cmd
      case 53 => Some(Opt(cmd, [kind]))
      case 54 => Some(Opt(cmd, ip))
      case 1 => Some(Opt(cmd, mask))
      case 3 => Some(Opt(cmd, ip))
      case 6 => Some(Opt(cmd, ip))
      case 51 => Some(Opt(cmd, [0, 1, 0x51, 0x80]))
      case _ => None
  {
    var o := ReplyOptions(ip, mask, kind);
    assert o[1..][1..] == o[2..] && o[2..][1..] == o[3..] && o[3..][1..] == o[4..] && o[4..][1..] == o[5..];
    assert o[5..][1..] == [];
    assert Lookup(o[5..], cmd) == if o[5].code == cmd then Some(o[5]) else None;
    assert Lookup(o[4..], cmd) == if o[4].code == cmd then Some(o[4]) else Lookup(o[5..], cmd);
    assert Lookup(o[3..], cmd) == if o[3].code == cmd then Some(o[3]) else Lookup(o[4..], cmd);
    assert Lookup(o[2..], cmd) == if o[2].code == cmd then Some(o[2]) else Lookup(o[3..], cmd);
    assert Lookup(o[1..], cmd) == if o[1].code == cmd then Some(o[1]) else Lookup(o[2..], cmd);
  }

  // ---------------------------------------------------------------------------------------
  // Allocation and handshake.

  /** What a DISCOVER does: the first slot with the client's MAC, else the lowest free or expired
      one, else no offer; and it clears at most one slot, an expired one that is not the client's. */
  lemma DiscoverAllocates(t: Table, mac: Mac, clock: Clock)
    ensures var k := OfferedSlot(t, mac, clock);
            && (k == DHCPS_MAX_IP <==> forall i :: 0 <= i < DHCPS_MAX_IP ==> t[i].mac != mac && !Usable(t[i], clock[i]))
            && (k < DHCPS_MAX_IP ==> t[k].mac == mac || forall i :: 0 <= i < DHCPS_MAX_IP ==> t[i].mac != mac)
            && (k < DHCPS_MAX_IP ==> forall i :: 0 <= i < k ==> t[i].mac != mac)
            && (k < DHCPS_MAX_IP && t[k].mac != mac ==>
                  Usable(t[k], clock[k]) && forall i :: 0 <= i < k ==> !Usable(t[i], clock[i]))
    ensures var t' := AfterDiscover(t, mac, clock);
            && (forall i :: 0 <= i < DHCPS_MAX_IP && t'[i] != t[i] ==>
                  Expired(t[i], clock[i]) && t[i].mac != mac && t'[i] == Lease(NO_MAC, t[i].expiry))
            && (forall i, j :: 0 <= i < j < DHCPS_MAX_IP ==> t'[i] == t[i] || t'[j] == t[j])
            && (forall i :: 0 <= i < DHCPS_MAX_IP && i == OfferedSlot(t, mac, clock) ==>
                  t'[i].mac == mac || t'[i].mac == NO_MAC)
  {
    hide Expired;
  }

  /** Nobody but this client was ACKed on the slot between two points of the log. */
  ghost predicate OnlyClient(log: seq<Ack>, from: nat, slot: nat, mac: Mac) {
    forall i :: from <= i < |log| && log[i].slot == slot ==> log[i].mac == mac
  }

  lemma StepKeepsOpen(w: World, e: Event, slot: nat, mac: Mac)
    requires slot < DHCPS_MAX_IP
    requires w.server.table[slot].mac == mac || w.server.table[slot].mac == NO_MAC
    requires Decide(w.server, e.msg, e.clock).1 == Grant(slot) ==> e.msg.chaddr == mac
    ensures var m := Step(w, e).server.table[slot].mac; m == mac || m == NO_MAC
    ensures Step(w, e).server.ip == w.server.ip
  {
    hide Expired, Stamp, MessageType, RequestedSlot, OfferedSlot, FirstUsable, FirstHeld;
  }

  lemma {:induction false} SlotStaysOpen(w: World, events: seq<Event>, slot: nat, mac: Mac)
    requires slot < DHCPS_MAX_IP
    requires w.server.table[slot].mac == mac || w.server.table[slot].mac == NO_MAC
    requires OnlyClient(Run(w, events).log, |w.log|, slot, mac)
    ensures var m := Run(w, events).server.table[slot].mac; m == mac || m == NO_MAC
    ensures |w.log| <= |Run(w, events).log| && Run(w, events).server.ip == w.server.ip
  {
    hide Decide;
    if events != [] {
      var front := events[..|events| - 1];
      var w1 := Run(w, front);
      var e := events[|events| - 1];
      LogGrows(w1, e);
      forall i | |w.log| <= i < |w1.log| && w1.log[i].slot == slot ensures w1.log[i].mac == mac {
        assert Run(w, events).log[i] == w1.log[i];
      }
      SlotStaysOpen(w, front, slot, mac);
      if Decide(w1.server, e.msg, e.clock).1 == Grant(slot) {
        assert Run(w, events).log[|w1.log|] == Ack(e.Begin(), slot, e.msg.chaddr);
      }
      StepKeepsOpen(w1, e, slot, mac);
    }
  }

  lemma LogGrows(w: World, e: Event)
    ensures w.log <= Step(w, e).log
  {
    hide Decide;
  }

  /** A client that was offered a slot and then asks for it gets it, whatever the others did in
      between, unless another client was ACKed on it. */
  lemma Handshake(w: World, ask: Event, events: seq<Event>, request: Message, clock: Clock, slot: nat)
    requires IsDiscover(ask.msg) && Decide(w.server, ask.msg, ask.clock).1 == Offer(slot)
    requires OnlyClient(Run(Step(w, ask), events).log, |w.log|, slot, ask.msg.chaddr)
    requires IsRequest(w.server.ip, request, slot) && request.chaddr == ask.msg.chaddr
    ensures Decide(Run(Step(w, ask), events).server, request, clock).1 == Grant(slot)
  {
    hide Expired, MessageType, RequestedSlot, Run, AfterDiscover, OfferedSlot;
    DiscoverAllocates(w.server.table, ask.msg.chaddr, ask.clock);
    SlotStaysOpen(Step(w, ask), events, slot, ask.msg.chaddr);
  }

  /** Right after an ACK to A, a request of another client for the slot is ACKed within A's day if and
      only if A's MAC is all zeros: the exclusivity above needs a real MAC and nothing else. */
  lemma ZeroMacHoldsNothing(s: Server, a: Message, b: Message, c1: Clock, c2: Clock, slot: nat)
    requires IsRequest(s.ip, a, slot) && IsRequest(s.ip, b, slot) && a.chaddr != b.chaddr
    requires Decide(s, a, c1).1 == Grant(slot) && c1[0] <= c2[0] <= c1[0] + LEASE_MS
    ensures Decide(s.(table := Decide(s, a, c1).0), b, c2).1 == Grant(slot) <==> a.chaddr == NO_MAC
  {
    hide Expired, Stamp, MessageType, RequestedSlot;
    assert Decide(s, a, c1).0[slot].mac == a.chaddr;
  }
}
