/**
 Why a packet is dropped: for arbitrary bytes, the exact grounds on which the hook (src/netfilter.c) drops
 them, in terms of what lies in the packet.
 */
module Drops {
  import opened Wrappers
  import opened Strings
  import opened Platform
  import opened Allowlist
  import opened Sni
  import opened Netfilter
  import StateFile
  import Domains

  // ---- A listed site in a TCP segment ----

  /** The bytes begin with a ClientHello's opening that names a listed site. */
  ghost predicate OpensListed(data: seq<Byte>, o: Opening, domains: seq<string>) {
    && OpeningValid(o) && |o.names.name| < Domains.MAX_DOMAIN_LEN && OpeningBytes(o) <= data
    && Domains.Listed(CStr(Text(o.names.name)), domains)
  }

  lemma NamesListedIff(data: seq<Byte>, domains: seq<string>)
    ensures NamesListed(data, domains) <==> exists o: Opening :: OpensListed(data, o, domains)
  {
    hide Extract;
    hide OpeningValid;
    hide OpeningBytes;
    hide CStr;
    hide Domains.Listed;
    if NamesListed(data, domains) {
      FoundIffOpening(data, Domains.MAX_DOMAIN_LEN, Extract(data, Domains.MAX_DOMAIN_LEN).value.name);
      var o: Opening :|
        && OpeningValid(o) && |o.names.name| < Domains.MAX_DOMAIN_LEN && OpeningBytes(o) <= data
        && o.names.name == Extract(data, Domains.MAX_DOMAIN_LEN).value.name;
      assert OpensListed(data, o, domains);
    }
    if o: Opening :| OpensListed(data, o, domains) {
      FoundIffOpening(data, Domains.MAX_DOMAIN_LEN, o.names.name);
    }
  }

  /** Behind this TCP header lies such an opening, complete within its first record. */
  ghost predicate HelloBehind(packet: seq<Byte>, thoff: nat, tcp: seq<Byte>, o: Opening, domains: seq<string>) {
    && TcpHeader(tcp) && thoff <= |packet| && tcp <= packet[thoff..]
    && OpensListed(packet[thoff + |tcp|..], o, domains)
    && |OpeningBytes(o)| <= Min(5 + U16At(o.head, 3), TLS_MAX_RECORD)
  }

  ghost predicate HelloAt(packet: seq<Byte>, thoff: nat, domains: seq<string>) {
    exists tcp: seq<Byte>, o: Opening :: HelloBehind(packet, thoff, tcp, o, domains)
  }

  /** For any bytes: the TCP check drops exactly the packets with such an opening. */
  lemma TcpDroppedIff(packet: seq<Byte>, thoff: nat, domains: seq<string>)
    ensures TcpDropped(packet, thoff, domains) <==> HelloAt(packet, thoff, domains)
  {
    if TcpDropped(packet, thoff, domains) {
      DroppedHasHello(packet, thoff, domains);
    }
    forall tcp: seq<Byte>, o: Opening | HelloBehind(packet, thoff, tcp, o, domains)
      ensures TcpDropped(packet, thoff, domains)
    {
      HelloIsDropped(packet, thoff, tcp, o, domains);
    }
    hide TcpDropped;
    hide HelloBehind;
  }

  lemma DroppedHasHello(packet: seq<Byte>, thoff: nat, domains: seq<string>)
    requires TcpDropped(packet, thoff, domains)
    ensures HelloAt(packet, thoff, domains)
  {
    DroppedRecord(packet, thoff, domains);
    hide *;
    var record := FirstRecord(packet, thoff).value;
    NamesListedIff(record, domains);
    var o: Opening :| OpensListed(record, o, domains);
    RecordHasHello(packet, thoff, record, o, domains);
  }

  lemma RecordHasHello(packet: seq<Byte>, thoff: nat, record: seq<Byte>, o: Opening, domains: seq<string>)
    requires FirstRecord(packet, thoff) == Some(record) && OpensListed(record, o, domains)
    ensures HelloAt(packet, thoff, domains)
  {
    hide *;
    var tcp, data := HeaderOf(packet, thoff);
    RecordLength(data, record, o, domains);
    OpensLonger(record, data, o, domains);
    HelloFound(packet, thoff, tcp, data, o, domains);
  }

  lemma DroppedRecord(packet: seq<Byte>, thoff: nat, domains: seq<string>)
    requires TcpDropped(packet, thoff, domains)
    ensures FirstRecord(packet, thoff).Some? && NamesListed(FirstRecord(packet, thoff).value, domains)
  {
    hide FirstRecord;
    hide NamesListed;
  }

  lemma HelloFound(
      packet: seq<Byte>, thoff: nat, tcp: seq<Byte>, data: seq<Byte>, o: Opening, domains: seq<string>)
    requires TcpHeader(tcp) && thoff + |tcp| <= |packet| && tcp <= packet[thoff..] && data == packet[thoff + |tcp|..]
    requires OpensListed(data, o, domains) && |o.head| == HEAD && OpeningValid(o)
    requires |OpeningBytes(o)| <= Min(5 + U16At(o.head, 3), TLS_MAX_RECORD)
    ensures HelloAt(packet, thoff, domains)
  {
    hide OpensListed;
    hide TcpHeader;
    hide OpeningValid;
    hide OpeningBytes;
    hide U16At;
    assert HelloBehind(packet, thoff, tcp, o, domains);
  }

  /** The header the check steps over, and the data behind it that it copies its record from. */
  lemma HeaderOf(packet: seq<Byte>, thoff: nat) returns (tcp: seq<Byte>, data: seq<Byte>)
    requires FirstRecord(packet, thoff).Some?
    ensures TcpHeader(tcp) && thoff + |tcp| + 6 <= |packet| && tcp <= packet[thoff..]
    ensures data == packet[thoff + |tcp|..] && |data| >= 6
    ensures var record := FirstRecord(packet, thoff).value;
      record <= data && |record| <= Min(5 + U16At(data, 3), TLS_MAX_RECORD)
  {
    var size := packet[thoff + 12] / 16 * 4;
    tcp, data := packet[thoff..thoff + size], packet[thoff + size..];
    assert tcp[12] == packet[thoff + 12] && tcp[13] == packet[thoff + 13];
    assert data[3] == packet[thoff + size + 3] && data[4] == packet[thoff + size + 4];
    U16Same(data[3..], packet[thoff + size + 3..], 0);
  }

  lemma OpensLonger(record: seq<Byte>, data: seq<Byte>, o: Opening, domains: seq<string>)
    requires record <= data && OpensListed(record, o, domains)
    ensures OpensListed(data, o, domains)
  {
    hide OpeningBytes;
    hide OpeningValid;
  }

  /** The length the extractor's caller reads is the one in the opening's own header. */
  lemma RecordLength(data: seq<Byte>, record: seq<Byte>, o: Opening, domains: seq<string>)
    requires record <= data && OpensListed(record, o, domains)
    ensures OpeningValid(o) && |o.head| == HEAD && |data| >= |record| >= |OpeningBytes(o)| >= HEAD
    ensures U16At(data, 3) == U16At(o.head, 3)
  {
    OpeningStart(o);
    hide OpeningBytes;
    hide OpeningValid;
    assert o.head <= data;
    assert data[3] == o.head[3] && data[4] == o.head[4];
  }

  lemma OpeningStart(o: Opening)
    requires OpeningValid(o)
    ensures |o.head| == HEAD && o.head <= OpeningBytes(o) && o.head[0] == 0x16 && o.head[5] == 0x01
  {
    hide Vectors;
    hide ExtsBytes;
    hide ExtBytes;
    hide SniExt;
  }

  lemma HelloIsDropped(packet: seq<Byte>, thoff: nat, tcp: seq<Byte>, o: Opening, domains: seq<string>)
    requires HelloBehind(packet, thoff, tcp, o, domains)
    ensures TcpDropped(packet, thoff, domains)
  {
    var pre, data := packet[..thoff], packet[thoff + |tcp|..];
    assert packet == pre + tcp + data;
    BehindMeans(packet, thoff, tcp, o, domains);
    hide *;
    HelloDropped(pre, tcp, data, o, domains);
  }

  lemma BehindMeans(packet: seq<Byte>, thoff: nat, tcp: seq<Byte>, o: Opening, domains: seq<string>)
    requires HelloBehind(packet, thoff, tcp, o, domains)
    ensures thoff + |tcp| <= |packet| && OpensListed(packet[thoff + |tcp|..], o, domains) && OpeningValid(o)
    ensures TcpHeader(tcp) && |o.head| == HEAD && |OpeningBytes(o)| <= Min(5 + U16At(o.head, 3), TLS_MAX_RECORD)
  {
    OpeningStart(o);
    hide OpeningBytes;
    hide TcpHeader;
    hide U16At;
    hide Domains.Listed;
    hide CStr;
  }

  lemma HelloDropped(pre: seq<Byte>, tcp: seq<Byte>, data: seq<Byte>, o: Opening, domains: seq<string>)
    requires OpensListed(data, o, domains) && OpeningValid(o) && TcpHeader(tcp) && |o.head| == HEAD
    requires |OpeningBytes(o)| <= Min(5 + U16At(o.head, 3), TLS_MAX_RECORD)
    ensures TcpDropped(pre + tcp + data, |pre|, domains)
  {
    hide *;
    OpeningStart(o);
    OpensWithHead(data, o, domains);
    FirstRecordIs(pre, tcp, data);
    var n := Min(|data|, Min(5 + U16At(data, 3), TLS_MAX_RECORD));
    MinIs(|data|, Min(5 + U16At(data, 3), TLS_MAX_RECORD));
    OpensWithin(data, n, o, domains);
    NamesListedIff(data[..n], domains);
    RecordDropped(pre + tcp + data, |pre|, data[..n], domains);
  }

  lemma OpensWithHead(data: seq<Byte>, o: Opening, domains: seq<string>)
    requires OpensListed(data, o, domains) && |o.head| == HEAD && o.head <= OpeningBytes(o)
    ensures |data| >= |OpeningBytes(o)| >= HEAD && U16At(data, 3) == U16At(o.head, 3)
    ensures |data| >= 6 && data[0] == o.head[0] && data[5] == o.head[5]
  {
    hide OpeningBytes;
    hide OpeningValid;
    assert o.head <= data;
    assert data[3] == o.head[3] && data[4] == o.head[4];
  }

  lemma OpensWithin(data: seq<Byte>, n: nat, o: Opening, domains: seq<string>)
    requires OpensListed(data, o, domains) && |OpeningBytes(o)| <= n <= |data|
    ensures OpensListed(data[..n], o, domains)
  {
    hide OpeningBytes;
    hide OpeningValid;
  }

  lemma RecordDropped(packet: seq<Byte>, thoff: nat, record: seq<Byte>, domains: seq<string>)
    requires FirstRecord(packet, thoff) == Some(record) && NamesListed(record, domains)
    ensures TcpDropped(packet, thoff, domains)
  {
  }

  // ---- The grounds ----

  datatype Destination = To4(addr4: Addr4) | To6(addr6: Addr6)

  /** Where a packet goes, as far as it can be told. */
  function DestinationOf(packet: Packet): Option<Destination> {
    match packet
    case Ip4(bytes, noff) =>
      if noff + 20 <= |bytes| && bytes[noff] % 16 >= 5 then Some(To4(Addr4At(bytes, noff + 16))) else None
    case Ip6(_, daddr, _) => if daddr.Some? then Some(To6(daddr.value)) else None
    case OtherFamily => None
  }

  /** An IPv4 destination is the address whose dotted text has the four bytes behind the source address. */
  lemma DestinationText(bytes: seq<Byte>, noff: nat)
    ensures DestinationOf(Ip4(bytes, noff)).Some? ==>
      Dotted(DestinationOf(Ip4(bytes, noff)).value.addr4)
      == Decimal(bytes[noff + 16]) + "." + Decimal(bytes[noff + 17]) + "." + Decimal(bytes[noff + 18])
         + "." + Decimal(bytes[noff + 19])
  {
    if noff + 20 <= |bytes| {
      OctetsOfFrom(bytes[noff + 16], bytes[noff + 17], bytes[noff + 18], bytes[noff + 19]);
    }
    hide Decimal;
    hide Octets;
    hide FromOctets;
  }

  ghost predicate IsAllowed(l: StateFile.Lists, d: Destination)
    requires NetsMasked(l)
  {
    match d
    case To4(a) => Allowed4(l.allowed.v4, a)
    case To6(a) => Allowed6(l.allowed.v6, a)
  }

  predicate IsBlocked(l: StateFile.Lists, d: Destination) {
    match d
    case To4(a) => a in l.v4
    case To6(a) => a in l.v6
  }

  function BytesOf(packet: Packet): seq<Byte> { if packet.OtherFamily? then [] else packet.bytes }

  /** A transport header of the protocol lies at thoff, and this is no later fragment. */
  predicate Carries(packet: Packet, protocol: Byte, thoff: nat) {
    match packet
    case Ip4(bytes, noff) =>
      && noff + 20 <= |bytes| && bytes[noff + 9] == protocol && thoff == noff + bytes[noff] % 16 * 4
      && bytes[noff + 6] % 32 == 0 && bytes[noff + 7] == 0
    case Ip6(_, _, transport) =>
      && transport.Some? && transport.value.protocol == protocol && transport.value.thoff == thoff
      && transport.value.frag < 8
    case OtherFamily => false
  }

  /** A TCP segment that opens a connection to a listed site. */
  ghost predicate ContactsListed(packet: Packet, domains: seq<string>) {
    exists thoff: nat :: Carries(packet, TCP, thoff) && HelloAt(BytesOf(packet), thoff, domains)
  }

  /** A UDP datagram to the QUIC port. */
  ghost predicate IsQuic(packet: Packet) {
    exists thoff: nat ::
      && Carries(packet, UDP, thoff) && thoff + 8 <= |BytesOf(packet)|
      && U16At(BytesOf(packet), thoff + 2) == 443
  }

  /**
   For arbitrary bytes of any family: a packet is dropped exactly when something is enabled, its destination is not
   allowed, and that destination is blocked, a listed site is being contacted, or QUIC is used while any domain
   is blocked.
   */
  lemma DroppedIff(enabled: bool, packet: Packet, l: StateFile.Lists)
    requires NetsMasked(l)
    ensures Dropped(enabled, packet, l)
       <==> && enabled && DestinationOf(packet).Some? && !IsAllowed(l, DestinationOf(packet).value)
            && (|| IsBlocked(l, DestinationOf(packet).value)
                || ContactsListed(packet, l.domains)
                || (l.domains != [] && IsQuic(packet)))
  {
    match packet
    case Ip4(bytes, noff) => DroppedIff4(bytes, noff, l);
    case Ip6(bytes, daddr, transport) => DroppedIff6(bytes, daddr, transport, l);
    case OtherFamily =>
    hide DroppedV4;
    hide DroppedV6;
    hide ContactsListed;
    hide IsQuic;
  }

  lemma DroppedIff4(bytes: seq<Byte>, noff: nat, l: StateFile.Lists)
    requires NetsMasked(l)
    ensures var packet := Ip4(bytes, noff);
      DroppedV4(bytes, noff, l)
      <==> && DestinationOf(packet).Some? && !IsAllowed(l, DestinationOf(packet).value)
           && (|| IsBlocked(l, DestinationOf(packet).value)
               || ContactsListed(packet, l.domains)
               || (l.domains != [] && IsQuic(packet)))
  {
    var packet := Ip4(bytes, noff);
    if noff + 20 <= |bytes| && bytes[noff] % 16 >= 5 {
      var protocol, thoff, daddr := bytes[noff + 9], noff + bytes[noff] % 16 * 4, Addr4At(bytes, noff + 16);
      FirstFragment(bytes, noff + 6);
      assert DestinationOf(packet) == Some(To4(daddr));
      assert Carries(packet, protocol, thoff) <==> U16At(bytes, noff + 6) % 0x2000 == 0;
      assert DroppedV4(bytes, noff, l)
        <==> !Allowed4(l.allowed.v4, daddr)
             && (daddr in l.v4
                 || (l.domains != [] && U16At(bytes, noff + 6) % 0x2000 == 0
                     && TransportDropped(bytes, protocol, thoff, l.domains))) by {
        hide TransportDropped;
        hide Allowed4;
      }
      if Carries(packet, protocol, thoff) {
        LocatedIff(packet, protocol, thoff, l.domains);
      } else {
        NotLocated(packet, protocol, thoff, l.domains);
      }
      assert IsAllowed(l, To4(daddr)) <==> Allowed4(l.allowed.v4, daddr);
      assert IsBlocked(l, To4(daddr)) <==> daddr in l.v4;
      assert BytesOf(packet) == bytes;
      hide *;
    } else {
      assert DestinationOf(packet).None?;
      hide TransportDropped;
    }
  }

  lemma DroppedIff6(bytes: seq<Byte>, daddr: Option<Addr6>, transport: Option<Transport>, l: StateFile.Lists)
    requires NetsMasked(l)
    ensures var packet := Ip6(bytes, daddr, transport);
      DroppedV6(bytes, daddr, transport, l)
      <==> && DestinationOf(packet).Some? && !IsAllowed(l, DestinationOf(packet).value)
           && (|| IsBlocked(l, DestinationOf(packet).value)
               || ContactsListed(packet, l.domains)
               || (l.domains != [] && IsQuic(packet)))
  {
    var packet := Ip6(bytes, daddr, transport);
    if transport.Some? && transport.value.frag < 8 {
      LocatedIff(packet, transport.value.protocol, transport.value.thoff, l.domains);
    } else {
      assert forall protocol: Byte, thoff: nat :: !Carries(packet, protocol, thoff);
    }
    hide TransportDropped;
    hide Allowed6;
    hide HelloAt;
  }

  lemma FirstFragment(bytes: seq<Byte>, i: nat)
    requires i + 2 <= |bytes|
    ensures U16At(bytes, i) % 0x2000 == 0 <==> bytes[i] % 32 == 0 && bytes[i + 1] == 0
  {
    var hi, lo := bytes[i], bytes[i + 1];
    assert U16At(bytes, i) == 0x2000 * ((hi as int) / 32) + (256 * ((hi as int) % 32) + (lo as int));
  }

  /** A packet has one transport header at most. */
  lemma LocatedIff(packet: Packet, protocol: Byte, thoff: nat, domains: seq<string>)
    requires Carries(packet, protocol, thoff)
    ensures TransportDropped(BytesOf(packet), protocol, thoff, domains)
       <==> ContactsListed(packet, domains) || IsQuic(packet)
    ensures domains == [] ==> !ContactsListed(packet, domains)
  {
    TcpDroppedIff(BytesOf(packet), thoff, domains);
    UdpDroppedIff(BytesOf(packet), thoff);
    OneTransport(packet, protocol, thoff);
    hide TcpDropped;
    hide UdpDropped;
    hide Carries;
    if domains == [] && ContactsListed(packet, domains) {
      NoHello(BytesOf(packet), thoff);
    }
    hide HelloAt;
  }

  lemma OneTransport(packet: Packet, protocol: Byte, thoff: nat)
    requires Carries(packet, protocol, thoff)
    ensures forall other: Byte, at: nat :: Carries(packet, other, at) ==> other == protocol && at == thoff
  {
  }

  lemma NoHello(bytes: seq<Byte>, thoff: nat)
    ensures !HelloAt(bytes, thoff, [])
  {
    hide OpeningBytes;
    hide OpeningValid;
  }

  lemma UdpDroppedIff(bytes: seq<Byte>, thoff: nat)
    ensures UdpDropped(bytes, thoff)
       <==> thoff + 8 <= |bytes| && U16At(bytes, thoff + 2) == 443
  {
  }

  lemma NotLocated(packet: Packet, protocol: Byte, thoff: nat, domains: seq<string>)
    requires packet.Ip4? && packet.noff + 20 <= |packet.bytes|
    requires protocol == packet.bytes[packet.noff + 9] && thoff == packet.noff + packet.bytes[packet.noff] % 16 * 4
    requires !Carries(packet, protocol, thoff)
    ensures !ContactsListed(packet, domains) && !IsQuic(packet)
  {
    hide HelloAt;
  }
}
