/**
 What a locked session means for traffic: the lock of the session machine and the verdict on packets,
 joined by the hook that looks at `enabled` (src/netfilter.c).
 */
module SessionPackets {
  import opened Strings
  import opened Wrappers
  import opened Platform
  import opened StateFile
  import opened Session
  import opened SessionInvariant
  import opened SessionRuns
  import opened SessionEnds
  import opened Sni
  import opened Netfilter
  import Allowlist
  import Domains

  lemma ListsMasked(l: Lists)
    requires ListsValid(l)
    ensures NetsMasked(l)
  {
    hide Domains.IsNormal;
    hide Allowlist.IsMasked4;
  }

  // ---- While nothing is enabled ----

  /** However often it crashes or is reloaded: until a session is begun, a module with nothing enabled drops nothing. */
  lemma NothingEnabledPasses(p: Platform, s: State, es: seq<Event>, packet: Packet)
    requires p.Valid() && Inv(p, s) && !s.enabled && RunValid(p, s, es)
    requires forall n | 0 <= n < |es| :: !Starts(es[n])
    ensures var late := Exec(p, s, es); NetsMasked(late.lists) && !Dropped(late.enabled, packet, late.lists)
  {
    StaysOff(p, s, es);
    RunKeeps(p, s, es);
    ValidLists(p, Exec(p, s, es));
    ListsMasked(Exec(p, s, es).lists);
    hide *;
    DisabledHook(packet, Exec(p, s, es).lists);
  }

  lemma DisabledHook(packet: Packet, l: Lists)
    requires NetsMasked(l)
    ensures !Dropped(false, packet, l)
  {
    hide DroppedV4;
    hide DroppedV6;
  }

  /**
   What ends a session, be it the key, the timer, a write of 0 or, without PGP, a crash, ends its blocking: from then
   on no packet of any family is dropped until a session is begun.
   */
  lemma EndedSessionPasses(p: Platform, s: State, e: Event, es: seq<Event>, packet: Packet)
    requires p.Valid() && Inv(p, s) && s.enabled && EventValid(s, e) && Ends(p, s, e)
    requires var t := Step(p, s, e).state; RunValid(p, t, es)
    requires forall n | 0 <= n < |es| :: !Starts(es[n])
    ensures var late := Exec(p, Step(p, s, e).state, es);
      NetsMasked(late.lists) && !Dropped(late.enabled, packet, late.lists)
  {
    hide *;
    EnabledStep(p, s, e);
    StepKeeps(p, s, e);
    NothingEnabledPasses(p, Step(p, s, e).state, es, packet);
  }

  // ---- While a session runs ----

  /** A session keeps its lists for as long as it runs, a locked one provided its record fits. */
  lemma {:induction false} ListsStay(p: Platform, s: State, es: seq<Event>)
    requires p.Valid() && Inv(p, s) && s.enabled && RunValid(p, s, es) && NoneEnds(p, s, es)
    requires s.pgpActive ==> OnDisk(p, s)
    ensures var late := Exec(p, s, es);
      late.enabled && late.pgpActive == s.pgpActive && late.lists == s.lists && (s.pgpActive ==> OnDisk(p, late))
  {
    hide Inv;
    hide Step;
    hide EventValid;
    hide Ends;
    hide OnDisk;
    hide EndsOrCarries;
    if es != [] {
      var init, e := es[..|es| - 1], es[|es| - 1];
      RunPrefix(p, s, es);
      NoneEndsSnoc(p, s, es);
      ListsStay(p, s, init);
      RunKeeps(p, s, init);
      hide NoneEnds;
      ListsStayOnce(p, Exec(p, s, init), e);
    }
  }

  lemma ListsStayOnce(p: Platform, s: State, e: Event)
    requires p.Valid() && Inv(p, s) && s.enabled && EventValid(s, e) && !Ends(p, s, e)
    requires s.pgpActive ==> OnDisk(p, s)
    ensures var t := Step(p, s, e).state;
      t.enabled && t.pgpActive == s.pgpActive && t.lists == s.lists && (s.pgpActive ==> OnDisk(p, t))
  {
    hide Inv;
    hide Step;
    hide EventValid;
    hide OnDisk;
    hide KeyFits;
    EnabledStep(p, s, e);
    if s.pgpActive {
      LockedStep(p, s, e);
    }
  }

  /** So it drops at any later time exactly the packets it dropped when it began. */
  lemma RunningSessionBlocks(p: Platform, s: State, es: seq<Event>, packet: Packet)
    requires p.Valid() && Inv(p, s) && s.enabled && RunValid(p, s, es) && NoneEnds(p, s, es)
    requires s.pgpActive ==> OnDisk(p, s)
    ensures var late := Exec(p, s, es);
      && NetsMasked(s.lists) && NetsMasked(late.lists)
      && (Dropped(late.enabled, packet, late.lists) <==> Dropped(true, packet, s.lists))
  {
    ListsStay(p, s, es);
    ValidLists(p, s);
    ListsMasked(s.lists);
    hide *;
  }

  /** After any run without an authorised step, the module is enabled and its lists are those of the beginning. */
  lemma StillBlocking(p: Platform, s: State, es: seq<Event>)
    requires p.Valid() && Inv(p, s) && Locked(s) && OnDisk(p, s) && RunValid(p, s, es) && NoneAuthorized(p, s, es)
    ensures Exec(p, s, es).enabled && Exec(p, s, es).lists == s.lists && NetsMasked(s.lists)
  {
    LockSafety(p, s, es);
    StaysLockedPrefix(p, s, es);
    ValidLists(p, s);
    ListsMasked(s.lists);
    hide Exec;
    hide Inv;
    hide OnDisk;
    hide RunValid;
    hide NoneAuthorized;
    hide StaysLocked;
  }

  lemma ValidLists(p: Platform, s: State)
    requires Inv(p, s)
    ensures ListsValid(s.lists)
  {
    hide FlagsValid;
    hide KeysValid;
    hide DiskValid;
    hide ListsValid;
  }

  /**
   Through any writes, reads, ticks, crashes and reloads that are not authorised to end it, a locked session
   drops an IPv4 packet with a ClientHello exactly when its destination was not allowed when the session
   began, and was blocked or the server name is, or is under, a domain blocked then.
   */
  lemma LockedSessionBlocks(
      p: Platform, s: State, es: seq<Event>,
      link: seq<Byte>, ip: seq<Byte>, tcp: seq<Byte>, h: ClientHello, tail: seq<Byte>)
    requires p.Valid() && Inv(p, s) && Locked(s) && OnDisk(p, s) && RunValid(p, s, es) && NoneAuthorized(p, s, es)
    requires Ip4Header(ip, TCP) && TcpHeader(tcp) && HelloValid(h)
    ensures NetsMasked(Exec(p, s, es).lists)
    ensures var late, daddr := Exec(p, s, es), Addr4At(ip, 16);
      Dropped(late.enabled, Ip4(link + ip + tcp + (Record(h) + tail), |link|), late.lists)
      <==> !Allowlist.Allowed4(s.lists.allowed.v4, daddr)
           && (daddr in s.lists.v4 || Domains.Listed(SiteName(h), s.lists.domains))
  {
    StillBlocking(p, s, es);
    hide *;
    PacketVerdict(link, ip, tcp, h, tail, s.lists);
    EnabledHook4(link + ip + tcp + (Record(h) + tail), |link|, s.lists);
  }

  lemma EnabledHook4(bytes: seq<Byte>, noff: nat, l: Lists)
    requires NetsMasked(l)
    ensures Dropped(true, Ip4(bytes, noff), l) <==> DroppedV4(bytes, noff, l)
  {
    hide DroppedV4;
  }

  /** The same for IPv6, where the transport header has been located. */
  lemma LockedSessionBlocks6(
      p: Platform, s: State, es: seq<Event>,
      pre: seq<Byte>, daddr: Addr6, frag: nat, tcp: seq<Byte>, h: ClientHello, tail: seq<Byte>)
    requires p.Valid() && Inv(p, s) && Locked(s) && OnDisk(p, s) && RunValid(p, s, es) && NoneAuthorized(p, s, es)
    requires frag / 8 == 0 && TcpHeader(tcp) && HelloValid(h)
    ensures NetsMasked(s.lists) && NetsMasked(Exec(p, s, es).lists)
    ensures var late := Exec(p, s, es); var packet := pre + tcp + (Record(h) + tail);
      Dropped(late.enabled, Ip6(packet, Some(daddr), Some(Transport(TCP, |pre|, frag))), late.lists)
      <==> !Allowed6(s.lists.allowed.v6, daddr)
           && (daddr in s.lists.v6 || Domains.Listed(SiteName(h), s.lists.domains))
  {
    StillBlocking(p, s, es);
    MaskedIs(s.lists);
    hide *;
    PacketVerdict6(pre, daddr, frag, tcp, h, tail, s.lists);
    EnabledHook6(pre + tcp + (Record(h) + tail), Some(daddr), Some(Transport(TCP, |pre|, frag)), s.lists);
  }

  lemma MaskedIs(l: Lists)
    requires NetsMasked(l)
    ensures forall i | 0 <= i < |l.allowed.v6| :: l.allowed.v6[i].plen <= 128
  {
  }

  lemma EnabledHook6(bytes: seq<Byte>, daddr: Option<Addr6>, transport: Option<Transport>, l: Lists)
    requires NetsMasked(l)
    ensures Dropped(true, Ip6(bytes, daddr, transport), l) <==> DroppedV6(bytes, daddr, transport, l)
  {
    hide DroppedV6;
  }
}
