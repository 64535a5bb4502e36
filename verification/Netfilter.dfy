/**
 The packet verdict (src/netfilter.c). A packet is its bytes, lying flat; where the IPv6 transport
 header starts is given.
 */
module Netfilter {
  import opened Wrappers
  import opened Strings
  import opened Platform
  import opened Allowlist
  import opened Sni
  import Domains
  import StateFile

  const TLS_MAX_RECORD: nat := 5 + 16384
  const TCP: Byte := 6
  const UDP: Byte := 17

  datatype Verdict = Accept | Drop

  // ---- The server name against the list ----

  function Text(bytes: seq<Byte>): (s: string)
    ensures |s| == |bytes| && forall i | 0 <= i < |s| :: s[i] == bytes[i] as char
  {
    seq(|bytes|, i requires 0 <= i < |bytes| => bytes[i] as char)
  }

  /** The bytes open with a ClientHello whose name, read as a C string, is listed. */
  ghost predicate NamesListed(data: seq<Byte>, domains: seq<string>) {
    && Extract(data, Domains.MAX_DOMAIN_LEN).Some?
    && Domains.Listed(CStr(Text(Extract(data, Domains.MAX_DOMAIN_LEN).value.name)), domains)
  }

  /** sni_matches_blocked */
  method SniMatchesBlocked(data: seq<Byte>, domains: seq<string>) returns (found: bool)
    ensures found <==> NamesListed(data, domains)
  {
    hide Extract;
    hide CStr;
    hide Domains.Listed;
    var sni := new Byte[Domains.MAX_DOMAIN_LEN];
    var n := SniExtract(data, sni, sni.Length);
    if n == 0 {
      return false;
    }
    ghost var name := Extract(data, sni.Length).value.name;
    ghost var junk := sni[n + 1..];
    assert sni[..] == name + [0] + junk by {
      assert sni[..][..n + 1] == name + [0];
      assert sni[..] == sni[..][..n + 1] + sni[..][n + 1..];
    }
    TextAppend(name, junk);
    CStrUpTo(Text(name), Text(junk));
    found := Domains.DomainListContains(CStr(Text(sni[..])), domains);
  }

  lemma TextAppend(a: seq<Byte>, b: seq<Byte>)
    ensures Text(a + [0] + b) == Text(a) + [NUL] + Text(b)
  {
  }

  // ---- TCP and UDP ----

  /** What inspect_tcp copies out: the first TLS record, as much of it as the packet has. */
  function FirstRecord(packet: seq<Byte>, thoff: nat): Option<seq<Byte>> {
    if thoff + 20 > |packet| || packet[thoff + 13] / 4 % 2 == 1 || packet[thoff + 12] / 16 < 5 then None
    else
      var doff := thoff + packet[thoff + 12] / 16 * 4;
      if doff + 6 > |packet| || packet[doff] != 0x16 || packet[doff + 5] != 0x01 then None
      else
        var record := Min(5 + U16At(packet, doff + 3), TLS_MAX_RECORD);
        Some(packet[doff..doff + Min(|packet| - doff, record)])
  }

  function Min(a: nat, b: nat): nat { if a < b then a else b }

  ghost predicate TcpDropped(packet: seq<Byte>, thoff: nat, domains: seq<string>) {
    FirstRecord(packet, thoff).Some? && NamesListed(FirstRecord(packet, thoff).value, domains)
  }

  /** inspect_tcp */
  method InspectTcp(packet: seq<Byte>, thoff: nat, domains: seq<string>) returns (v: Verdict)
    ensures v == Drop <==> TcpDropped(packet, thoff, domains)
  {
    hide NamesListed;
    hide U16At;
    if thoff + 20 > |packet| || packet[thoff + 13] / 4 % 2 == 1 || packet[thoff + 12] / 16 < 5 {
      return Accept;
    }
    var doff := thoff + packet[thoff + 12] / 16 * 4;
    if doff >= |packet| {
      return Accept;
    }
    if doff + 6 > |packet| || packet[doff] != 0x16 || packet[doff + 5] != 0x01 {
      return Accept;
    }
    var copy := Min(|packet| - doff, 5 + U16At(packet, doff + 3));
    copy := Min(copy, TLS_MAX_RECORD);
    var matched := SniMatchesBlocked(packet[doff..doff + copy], domains);
    return if matched then Drop else Accept;
  }

  predicate UdpDropped(packet: seq<Byte>, thoff: nat) {
    thoff + 8 <= |packet| && U16At(packet, thoff + 2) == 443
  }

  /** inspect_udp: while domains are blocked no QUIC passes. */
  method InspectUdp(packet: seq<Byte>, thoff: nat) returns (v: Verdict)
    ensures v == Drop <==> UdpDropped(packet, thoff)
  {
    if thoff + 8 <= |packet| && U16At(packet, thoff + 2) == 443 {
      return Drop;
    }
    return Accept;
  }

  ghost predicate TransportDropped(packet: seq<Byte>, protocol: Byte, thoff: nat, domains: seq<string>) {
    (protocol == TCP && TcpDropped(packet, thoff, domains)) || (protocol == UDP && UdpDropped(packet, thoff))
  }

  // ---- The hooks ----

  /** is_ip_blocked and is_ipv6_blocked */
  method IsIpBlocked<T(==)>(blocked: seq<T>, addr: T) returns (found: bool)
    ensures found <==> addr in blocked
  {
    found := false;
    var i := 0;
    while i < |blocked|
      invariant 0 <= i <= |blocked| && !found && addr !in blocked[..i]
    {
      if blocked[i] == addr {
        return true;
      }
      i := i + 1;
    }
    assert blocked[..i] == blocked;
  }

  ghost predicate Allowed6(nets: seq<Net6>, x: Addr6)
    requires forall i | 0 <= i < |nets| :: nets[i].plen <= 128
  {
    exists i | 0 <= i < |nets| :: Accepts6(nets[i], x)
  }

  /** is_ipv6_allowed */
  method IsIpv6Allowed(nets: seq<Net6>, x: Addr6) returns (found: bool)
    requires forall i | 0 <= i < |nets| :: nets[i].plen <= 128
    ensures found <==> Allowed6(nets, x)
  {
    hide Accepts6;
    found := false;
    var i := 0;
    while i < |nets| && !found
      invariant 0 <= i <= |nets|
      invariant found <==> exists k | 0 <= k < i :: Accepts6(nets[k], x)
    {
      found := Accepts6(nets[i], x);
      i := i + 1;
    }
  }

  /** The number four bytes in network order stand for. */
  function Addr4At(packet: seq<Byte>, i: nat): Addr4
    requires i + 4 <= |packet|
  {
    FromOctets(packet[i], packet[i + 1], packet[i + 2], packet[i + 3])
  }

  /** Allowed destinations pass; of the others, blocked addresses and, in first fragments, blocked names do not. */
  ghost predicate DroppedV4(packet: seq<Byte>, noff: nat, l: StateFile.Lists) {
    && noff + 20 <= |packet| && packet[noff] % 16 >= 5
    && var daddr := Addr4At(packet, noff + 16);
      && !Allowed4(l.allowed.v4, daddr)
      && (daddr in l.v4
          || (l.domains != [] && U16At(packet, noff + 6) % 0x2000 == 0
              && TransportDropped(packet, packet[noff + 9], noff + packet[noff] % 16 * 4, l.domains)))
  }

  /** kblocker_hook_v4 */
  method HookV4(packet: seq<Byte>, noff: nat, l: StateFile.Lists) returns (v: Verdict)
    ensures v == Drop <==> DroppedV4(packet, noff, l)
  {
    hide Accepts4;
    hide U16At;
    hide FromOctets;
    hide TcpDropped;
    hide UdpDropped;
    if noff + 20 > |packet| || packet[noff] % 16 < 5 {
      return Accept;
    }
    var daddr := Addr4At(packet, noff + 16);
    var hit := false;
    if l.allowed.v4 != [] {
      hit := IsIpAllowed(l.allowed.v4, daddr);
    }
    if hit {
      return Accept;
    }
    if l.v4 != [] {
      hit := IsIpBlocked(l.v4, daddr);
    }
    if hit {
      return Drop;
    }
    if l.domains == [] {
      return Accept;
    }
    if U16At(packet, noff + 6) % 0x2000 != 0 {
      return Accept;
    }
    var thoff := noff + packet[noff] % 16 * 4;
    if packet[noff + 9] == TCP {
      v := InspectTcp(packet, thoff, l.domains);
      return;
    }
    if packet[noff + 9] == UDP {
      v := InspectUdp(packet, thoff);
      return;
    }
    return Accept;
  }

  /** Where ipv6_skip_exthdr ends up, and the fragment field it met. */
  datatype Transport = Transport(protocol: Byte, thoff: nat, frag: nat)

  ghost predicate DroppedV6(packet: seq<Byte>, daddr: Option<Addr6>, transport: Option<Transport>, l: StateFile.Lists)
    requires forall i | 0 <= i < |l.allowed.v6| :: l.allowed.v6[i].plen <= 128
  {
    && daddr.Some?
    && !Allowed6(l.allowed.v6, daddr.value)
    && (daddr.value in l.v6
        || (l.domains != [] && transport.Some? && transport.value.frag / 8 == 0
            && TransportDropped(packet, transport.value.protocol, transport.value.thoff, l.domains)))
  }

  /** kblocker_hook_v6 */
  method HookV6(packet: seq<Byte>, daddr: Option<Addr6>, transport: Option<Transport>, l: StateFile.Lists)
    returns (v: Verdict)
    requires forall i | 0 <= i < |l.allowed.v6| :: l.allowed.v6[i].plen <= 128
    ensures v == Drop <==> DroppedV6(packet, daddr, transport, l)
  {
    hide Accepts6;
    hide TcpDropped;
    hide UdpDropped;
    if daddr.None? {
      return Accept;
    }
    var hit := false;
    if l.allowed.v6 != [] {
      hit := IsIpv6Allowed(l.allowed.v6, daddr.value);
    }
    if hit {
      return Accept;
    }
    if l.v6 != [] {
      hit := IsIpBlocked(l.v6, daddr.value);
    }
    if hit {
      return Drop;
    }
    if l.domains == [] || transport.None? || transport.value.frag / 8 != 0 {
      return Accept;
    }
    if transport.value.protocol == TCP {
      v := InspectTcp(packet, transport.value.thoff, l.domains);
      return;
    }
    if transport.value.protocol == UDP {
      v := InspectUdp(packet, transport.value.thoff);
      return;
    }
    return Accept;
  }

  /** A packet with what has been located in it, by protocol family. */
  datatype Packet =
    | Ip4(bytes: seq<Byte>, noff: nat)
    | Ip6(bytes: seq<Byte>, daddr: Option<Addr6>, transport: Option<Transport>)
    | OtherFamily

  ghost predicate NetsMasked(l: StateFile.Lists) {
    forall i | 0 <= i < |l.allowed.v6| :: l.allowed.v6[i].plen <= 128
  }

  ghost predicate Dropped(enabled: bool, packet: Packet, l: StateFile.Lists)
    requires NetsMasked(l)
  {
    enabled && match packet
               case Ip4(bytes, noff) => DroppedV4(bytes, noff, l)
               case Ip6(bytes, daddr, transport) => DroppedV6(bytes, daddr, transport, l)
               case OtherFamily => false
  }

  /** kblocker_hook */
  method HookPacket(enabled: bool, packet: Packet, l: StateFile.Lists) returns (v: Verdict)
    requires NetsMasked(l)
    ensures v == Drop <==> Dropped(enabled, packet, l)
    ensures !enabled || packet.OtherFamily? ==> v == Accept
  {
    hide DroppedV4;
    hide DroppedV6;
    if !enabled {
      return Accept;
    }
    match packet
    case Ip4(bytes, noff) => v := HookV4(bytes, noff, l);
    case Ip6(bytes, daddr, transport) => v := HookV6(bytes, daddr, transport, l);
    case OtherFamily => v := Accept;
  }

  // ---- Well-formed ClientHellos ----

  /** A ClientHello with a server_name extension, complete in one record. */
  datatype ClientHello = ClientHello(
    recordVersion: seq<Byte>,
    version: seq<Byte>,
    random: seq<Byte>,
    session: seq<Byte>,
    suites: seq<Byte>,
    methods: seq<Byte>,
    before: seq<Ext>,
    names: Names,
    after: seq<Ext>)

  function HelloExts(h: ClientHello): seq<Byte>
    requires HelloParts(h)
  {
    ExtsBytes(h.before) + ExtBytes(SniExt(h.names)) + ExtsBytes(h.after)
  }

  /** The sizes the presentation language allows each part; no other extension is a server_name. */
  ghost predicate HelloParts(h: ClientHello) {
    && |h.recordVersion| == 2 && |h.version| == 2 && |h.random| == 32
    && |h.session| <= 255 && |h.suites| <= U16_MAX && |h.methods| <= 255
    && (forall i | 0 <= i < |h.before| :: ExtValid(h.before[i]) && h.before[i].kind != TLS_EXT_SERVER_NAME)
    && (forall i | 0 <= i < |h.after| :: ExtValid(h.after[i]) && h.after[i].kind != TLS_EXT_SERVER_NAME)
    && NamesValid(h.names)
  }

  function Body(h: ClientHello): seq<Byte>
    requires HelloParts(h) && |HelloExts(h)| <= U16_MAX
  {
    h.version + h.random + (Vectors(h.session, h.suites, h.methods) + (U16Bytes(|HelloExts(h)|) + HelloExts(h)))
  }

  /** It fits a record, and its name is one a domain name can be. */
  ghost predicate HelloValid(h: ClientHello) {
    && HelloParts(h) && |HelloExts(h)| <= U16_MAX && 4 + |Body(h)| <= 16384
    && |h.names.name| < Domains.MAX_DOMAIN_LEN
  }

  /** Everything before the first vector. */
  function Head(h: ClientHello): (r: seq<Byte>)
    requires HelloValid(h)
    ensures |r| == HEAD
  {
    [0x16] + h.recordVersion + U16Bytes(4 + |Body(h)|)
      + ([0x01, 0] + U16Bytes(|Body(h)|)) + (h.version + h.random)
  }

  /** The record on the wire. */
  function Record(h: ClientHello): seq<Byte>
    requires HelloValid(h)
  {
    [0x16] + h.recordVersion + U16Bytes(4 + |Body(h)|) + ([0x01, 0] + U16Bytes(|Body(h)|)) + Body(h)
  }

  function OpeningOf(h: ClientHello): (o: Opening)
    requires HelloValid(h)
  {
    Opening(Head(h), h.session, h.suites, h.methods, |HelloExts(h)|, h.before, h.names)
  }

  lemma HeadIs(h: ClientHello)
    requires HelloValid(h)
    ensures Head(h)[0] == 0x16 && Head(h)[5] == 0x01 && U16At(Head(h), 3) == 4 + |Body(h)|
  {
    hide Body;
    var pre := [0x16] + h.recordVersion;
    var rest := [0x01, 0] + U16Bytes(|Body(h)|) + (h.version + h.random);
    assert Head(h) == pre + U16Bytes(4 + |Body(h)|) + rest;
    U16RoundTrip(pre, 4 + |Body(h)|, rest);
    assert rest[0] == 0x01;
  }

  lemma RecordOpens(h: ClientHello)
    requires HelloValid(h)
    ensures OpeningValid(OpeningOf(h))
    ensures Record(h) == OpeningBytes(OpeningOf(h)) + ExtsBytes(h.after)
    ensures |Record(h)| == 9 + |Body(h)| && Head(h) <= Record(h)
  {
    hide ExtsBytes;
    hide ExtBytes;
    hide SniExt;
    hide Vectors;
    hide NamesValid;
    HeadIs(h);
    hide U16Bytes;
    hide U16At;
    var tail := Vectors(h.session, h.suites, h.methods) + (U16Bytes(|HelloExts(h)|) + HelloExts(h));
    assert Record(h) == Head(h) + tail;
  }

  /** The extractor gets exactly the name out of a complete record, whatever comes after it. */
  lemma RecordYieldsName(h: ClientHello, rest: seq<Byte>)
    requires HelloValid(h)
    ensures Extract(Record(h) + rest, Domains.MAX_DOMAIN_LEN)
         == Some(Found(h.names.name, |OpeningBytes(OpeningOf(h))|))
  {
    RecordOpens(h);
    hide Extract;
    hide OpeningValid;
    hide OpeningBytes;
    hide Record;
    var opening := OpeningBytes(OpeningOf(h));
    assert Record(h) + rest == opening + (ExtsBytes(h.after) + rest);
    OpeningYieldsName(OpeningOf(h), ExtsBytes(h.after) + rest, Domains.MAX_DOMAIN_LEN);
  }

  /** The name as the module reads it: a C string. */
  function SiteName(h: ClientHello): string { CStr(Text(h.names.name)) }

  // ---- The verdict on them ----

  /** A TCP header without RST, options included. */
  ghost predicate TcpHeader(tcp: seq<Byte>) {
    20 <= |tcp| && |tcp| == tcp[12] / 16 * 4 && tcp[13] / 4 % 2 == 0
  }

  lemma FirstRecordIs(pre: seq<Byte>, tcp: seq<Byte>, data: seq<Byte>)
    requires TcpHeader(tcp) && |data| >= 6 && data[0] == 0x16 && data[5] == 0x01
    ensures FirstRecord(pre + tcp + data, |pre|)
         == Some(data[..Min(|data|, Min(5 + U16At(data, 3), TLS_MAX_RECORD))])
  {
    var packet := pre + tcp + data;
    var doff := |pre| + |tcp|;
    assert packet[|pre| + 12] == tcp[12] && packet[|pre| + 13] == tcp[13];
    assert forall i | 0 <= i < |data| :: packet[doff + i] == data[i];
    assert packet[doff..] == data;
    assert U16At(packet, doff + 3) == U16At(data, 3);
    var n := Min(|data|, Min(5 + U16At(data, 3), TLS_MAX_RECORD));
    assert packet[doff..doff + n] == data[..n];
  }

  lemma NoRecordYet(pre: seq<Byte>, tcp: seq<Byte>, data: seq<Byte>)
    requires TcpHeader(tcp) && |data| < 6
    ensures FirstRecord(pre + tcp + data, |pre|).None?
  {
    var packet := pre + tcp + data;
    assert packet[|pre| + 12] == tcp[12] && packet[|pre| + 13] == tcp[13];
  }

  /**
   A segment holding the first k bytes of a record (followed by anything if that is all of it) is dropped
   exactly when those bytes reach the end of the server_name extension and the name is listed.
   */
  lemma SegmentVerdict(pre: seq<Byte>, tcp: seq<Byte>, h: ClientHello, k: nat, tail: seq<Byte>, domains: seq<string>)
    requires TcpHeader(tcp) && HelloValid(h)
    requires k <= |Record(h)| && (tail == [] || k == |Record(h)|)
    ensures TcpDropped(pre + tcp + (Record(h)[..k] + tail), |pre|, domains)
       <==> k >= |OpeningBytes(OpeningOf(h))| && Domains.Listed(SiteName(h), domains)
  {
    hide *;
    var data, record := Record(h)[..k] + tail, Record(h);
    RecordStart(h);
    if k < 6 {
      assert tail == [] && |data| < 6;
      NoRecordYet(pre, tcp, data);
      NoRecordAccepted(pre + tcp + data, |pre|, domains);
    } else {
      assert forall i | 0 <= i < 6 :: data[i] == record[i];
      U16Same(data, record, 3);
      FirstRecordIs(pre, tcp, data);
      MinIs(|data|, |record|);
      MinIs(|record|, TLS_MAX_RECORD);
      assert data[..Min(|data|, Min(5 + U16At(data, 3), TLS_MAX_RECORD))] == record[..k];
      CutVerdict(pre + tcp + data, |pre|, h, k, domains);
    }
  }

  lemma NoRecordAccepted(packet: seq<Byte>, thoff: nat, domains: seq<string>)
    requires FirstRecord(packet, thoff).None?
    ensures !TcpDropped(packet, thoff, domains)
  {
  }

  lemma MinIs(a: nat, b: nat)
    ensures Min(a, b) == if a < b then a else b
  {
  }

  lemma U16Same(a: seq<Byte>, b: seq<Byte>, i: nat)
    requires i + 2 <= |a| && i + 2 <= |b| && a[i] == b[i] && a[i + 1] == b[i + 1]
    ensures U16At(a, i) == U16At(b, i)
  {
  }

  /** The first bytes of a record, and how long it is. */
  lemma RecordStart(h: ClientHello)
    requires HelloValid(h)
    ensures |Record(h)| > 9 && Record(h)[0] == 0x16 && Record(h)[5] == 0x01
    ensures 5 + U16At(Record(h), 3) == |Record(h)| <= TLS_MAX_RECORD
    ensures |OpeningBytes(OpeningOf(h))| >= 9
  {
    RecordOpens(h);
    HeadIs(h);
    hide Record;
    hide Head;
    hide Body;
    hide ExtsBytes;
    hide ExtBytes;
    hide SniExt;
    assert forall i | 0 <= i < HEAD :: Record(h)[i] == Head(h)[i];
    U16Same(Record(h), Head(h), 3);
  }

  lemma CutVerdict(packet: seq<Byte>, thoff: nat, h: ClientHello, k: nat, domains: seq<string>)
    requires HelloValid(h) && k <= |Record(h)|
    requires FirstRecord(packet, thoff) == Some(Record(h)[..k])
    ensures TcpDropped(packet, thoff, domains)
       <==> k >= |OpeningBytes(OpeningOf(h))| && Domains.Listed(SiteName(h), domains)
  {
    hide Extract;
    hide OpeningBytes;
    hide OpeningOf;
    hide Record;
    hide HelloValid;
    hide FirstRecord;
    hide Domains.Listed;
    hide CStr;
    RecordYieldsName(h, []);
    assert Record(h) + [] == Record(h);
    TruncationIff(Record(h), k, Domains.MAX_DOMAIN_LEN);
  }

  /** An IPv4 header, options included, of a packet or of its first fragment. */
  ghost predicate Ip4Header(ip: seq<Byte>, protocol: Byte) {
    20 <= |ip| && |ip| == ip[0] % 16 * 4 && ip[9] == protocol && U16At(ip, 6) % 0x2000 == 0
  }

  /**
   The verdict on a whole IPv4 packet with a ClientHello in it: dropped exactly when its destination is not
   allowed, and is blocked or its server name is, or is under, a blocked domain.
   */
  lemma PacketVerdict(
      link: seq<Byte>, ip: seq<Byte>, tcp: seq<Byte>, h: ClientHello, tail: seq<Byte>, l: StateFile.Lists)
    requires Ip4Header(ip, TCP) && TcpHeader(tcp) && HelloValid(h)
    ensures var daddr := Addr4At(ip, 16);
      DroppedV4(link + ip + tcp + (Record(h) + tail), |link|, l)
      <==> !Allowed4(l.allowed.v4, daddr) && (daddr in l.v4 || Domains.Listed(SiteName(h), l.domains))
  {
    var packet := link + ip + tcp + (Record(h) + tail);
    RecordOpens(h);
    hide *;
    assert Record(h)[..|Record(h)|] == Record(h);
    SegmentVerdict(link + ip, tcp, h, |Record(h)|, tail, l.domains);
    NothingListed(SiteName(h));
    assert packet == link + ip + (tcp + (Record(h) + tail));
    Ip4Verdict(link, ip, TCP, tcp + (Record(h) + tail), l);
    TcpIsTcp(packet, |link + ip|, l.domains);
  }

  lemma TcpIsTcp(packet: seq<Byte>, thoff: nat, domains: seq<string>)
    ensures TransportDropped(packet, TCP, thoff, domains) <==> TcpDropped(packet, thoff, domains)
  {
    hide TcpDropped;
    hide UdpDropped;
  }

  /** A UDP header for a destination port. */
  ghost predicate UdpHeader(udp: seq<Byte>, port: nat) { |udp| == 8 && U16At(udp, 2) == port }

  /**
   The verdict on a whole UDP packet: whatever it carries, dropped exactly when its destination is not allowed,
   and is blocked or, while any domain is, is contacted on the QUIC port.
   */
  lemma UdpPacketVerdict(link: seq<Byte>, ip: seq<Byte>, udp: seq<Byte>, port: nat, data: seq<Byte>, l: StateFile.Lists)
    requires Ip4Header(ip, UDP) && UdpHeader(udp, port)
    ensures var daddr := Addr4At(ip, 16);
      DroppedV4(link + ip + udp + data, |link|, l)
      <==> !Allowed4(l.allowed.v4, daddr) && (daddr in l.v4 || (l.domains != [] && port == 443))
  {
    hide Ip4Header;
    hide DroppedV4;
    hide Allowed4;
    hide Addr4At;
    var packet := link + ip + udp + data;
    assert packet == link + ip + (udp + data);
    Ip4Verdict(link, ip, UDP, udp + data, l);
    assert packet[|link + ip| + 2] == udp[2] && packet[|link + ip| + 3] == udp[3];
  }

  /** The IPv4 part of the verdict, whatever the transport header says. */
  lemma Ip4Verdict(link: seq<Byte>, ip: seq<Byte>, protocol: Byte, rest: seq<Byte>, l: StateFile.Lists)
    requires Ip4Header(ip, protocol)
    ensures |ip| >= 20
    ensures var packet, daddr := link + ip + rest, Addr4At(ip, 16);
      DroppedV4(packet, |link|, l)
      <==> !Allowed4(l.allowed.v4, daddr)
           && (daddr in l.v4 || (l.domains != [] && TransportDropped(packet, protocol, |link + ip|, l.domains)))
  {
    hide TransportDropped;
    hide FromOctets;
    hide Allowed4;
    var packet := link + ip + rest;
    assert forall i | 0 <= i < |ip| :: packet[|link| + i] == ip[i];
    assert Addr4At(packet, |link| + 16) == Addr4At(ip, 16);
    assert U16At(packet, |link| + 6) == U16At(ip, 6);
    hide U16At;
    hide Addr4At;
    assert packet[|link|] == ip[0] && packet[|link| + 9] == ip[9];
  }

  /**
   The verdict on an IPv6 packet whose transport header has been located as TCP and that is not a later
   fragment: the same, by the IPv6 lists.
   */
  lemma PacketVerdict6(
      pre: seq<Byte>, daddr: Addr6, frag: nat, tcp: seq<Byte>, h: ClientHello, tail: seq<Byte>, l: StateFile.Lists)
    requires forall i | 0 <= i < |l.allowed.v6| :: l.allowed.v6[i].plen <= 128
    requires frag / 8 == 0 && TcpHeader(tcp) && HelloValid(h)
    ensures DroppedV6(pre + tcp + (Record(h) + tail), Some(daddr), Some(Transport(TCP, |pre|, frag)), l)
       <==> !Allowed6(l.allowed.v6, daddr) && (daddr in l.v6 || Domains.Listed(SiteName(h), l.domains))
  {
    RecordOpens(h);
    hide *;
    var packet := pre + tcp + (Record(h) + tail);
    assert Record(h)[..|Record(h)|] == Record(h);
    SegmentVerdict(pre, tcp, h, |Record(h)|, tail, l.domains);
    NothingListed(SiteName(h));
    TcpIsTcp(packet, |pre|, l.domains);
    Verdict6(packet, daddr, TCP, |pre|, frag, l);
  }

  lemma Verdict6(packet: seq<Byte>, daddr: Addr6, protocol: Byte, thoff: nat, frag: nat, l: StateFile.Lists)
    requires forall i | 0 <= i < |l.allowed.v6| :: l.allowed.v6[i].plen <= 128
    requires frag / 8 == 0
    ensures DroppedV6(packet, Some(daddr), Some(Transport(protocol, thoff, frag)), l)
       <==> !Allowed6(l.allowed.v6, daddr)
            && (daddr in l.v6 || (l.domains != [] && TransportDropped(packet, protocol, thoff, l.domains)))
  {
    hide TransportDropped;
    hide Accepts6;
  }

  lemma NothingListed(name: string)
    ensures !Domains.Listed(name, [])
  {
  }
}
