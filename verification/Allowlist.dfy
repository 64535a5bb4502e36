/**
 The allowlist (src/main.c): "addr" and "addr/prefix" entries, their printed form, and the mask test
 the packet hook applies (src/netfilter.c).
 */
module Allowlist {
  import opened Wrappers
  import opened Strings
  import opened Bits
  import opened Platform
  import Domains

  const MAX_ALLOWED_NETS: nat := 64

  /** kb_net4 keeps the mask, kb_net6 the prefix length. */
  datatype Net4 = Net4(addr: Addr4, mask: Addr4)
  datatype Net6 = Net6(addr: Addr6, plen: Byte)
  datatype Nets = Nets(v4: seq<Net4>, v6: seq<Net6>)

  // ---- Masks ----

  lemma Pow2Of32() ensures Pow2(32) == 0x1_0000_0000 {
    assert Pow2(8) == 0x100;
    assert Pow2(16) == 0x1_0000;
    assert Pow2(24) == 0x100_0000;
  }

  lemma Pow2Of128() ensures Pow2(128) == 0x1_0000_0000_0000_0000_0000_0000_0000_0000 {
    Pow2Of32();
    Pow2Sum(32, 32);
    Pow2Sum(64, 64);
  }

  lemma {:induction false} Pow2Sum(a: nat, b: nat)
    ensures Pow2(a + b) == Pow2(a) * Pow2(b)
  {
    if b > 0 {
      Pow2Sum(a, b - 1);
    }
  }

  /** plen ? htonl(~0U << (32 - plen)) : 0 */
  function Mask4(plen: nat): (m: Addr4)
    requires plen <= 32
  {
    Pow2Of32();
    if plen == 0 then 0 else HighMask(32, 32 - plen)
  }

  lemma Mask4Is(plen: nat)
    requires plen <= 32
    ensures Mask4(plen) == HighMask(32, 32 - plen)
    ensures PopCount(Mask4(plen)) == plen
  {
    hide PopCount;
    hide Pow2;
    Pow2Of32();
    PopCountHighMask(32, 32 - plen);
  }

  /** The entry parse_net stores: host bits cleared. */
  function MaskedNet4(a: Addr4, plen: nat): (n: Net4)
    requires plen <= 32
    ensures n.addr == a - LowBits(a, 32 - plen) && n.mask == Mask4(plen)
    ensures BitAnd(a, n.mask) == n.addr
  {
    Pow2Of32();
    Mask4Is(plen);
    AndHighMask(a, 32, 32 - plen);
    Net4(BitAnd(a, Mask4(plen)), Mask4(plen))
  }

  /** ipv6_addr_prefix */
  function MaskedNet6(a: Addr6, plen: Byte): (n: Net6)
    requires plen <= 128
  {
    Net6(a - LowBits(a, 128 - plen), plen)
  }

  ghost predicate IsMasked4(n: Net4) {
    exists plen: nat :: plen <= 32 && n.mask == Mask4(plen) && LowBits(n.addr, 32 - plen) == 0
  }

  ghost predicate IsMasked6(n: Net6) { n.plen <= 128 && LowBits(n.addr, 128 - n.plen) == 0 }

  ghost predicate NetsValid(nets: Nets) {
    && |nets.v4| <= MAX_ALLOWED_NETS && |nets.v6| <= MAX_ALLOWED_NETS
    && (forall i | 0 <= i < |nets.v4| :: IsMasked4(nets.v4[i]))
    && (forall i | 0 <= i < |nets.v6| :: IsMasked6(nets.v6[i]))
  }

  lemma MaskedNet4IsMasked(a: Addr4, plen: nat)
    requires plen <= 32
    ensures IsMasked4(MaskedNet4(a, plen))
  {
    LowBitsCleared(a, 32 - plen);
  }

  lemma MaskedNet6IsMasked(a: Addr6, plen: Byte)
    requires plen <= 128
    ensures IsMasked6(MaskedNet6(a, plen))
  {
    LowBitsCleared(a, 128 - plen);
  }

  // ---- The packet test ----

  predicate Accepts4(n: Net4, x: Addr4) { BitAnd(x, n.mask) == n.addr }

  /** ipv6_prefix_equal */
  predicate Accepts6(n: Net6, x: Addr6)
    requires n.plen <= 128
  {
    x - LowBits(x, 128 - n.plen) == n.addr - LowBits(n.addr, 128 - n.plen)
  }

  predicate Allowed4(nets: seq<Net4>, x: Addr4) { exists i | 0 <= i < |nets| :: Accepts4(nets[i], x) }

  /** is_ip_allowed */
  method IsIpAllowed(nets: seq<Net4>, x: Addr4) returns (found: bool)
    ensures found == Allowed4(nets, x)
  {
    found := false;
    var i := 0;
    while i < |nets| && !found
      invariant 0 <= i <= |nets|
      invariant found <==> exists k | 0 <= k < i :: Accepts4(nets[k], x)
    {
      found := Accepts4(nets[i], x);
      i := i + 1;
    }
  }

  /** A stored IPv4 network accepts exactly the addresses from its first to its last. */
  lemma Accepts4IffInRange(a: Addr4, plen: nat, x: Addr4)
    requires plen <= 32
    ensures var n := MaskedNet4(a, plen);
      Accepts4(n, x) <==> n.addr <= x <= n.addr + Pow2(32 - plen) - 1
  {
    hide BitAnd;
    hide LowBits;
    hide PopCount;
    Pow2Of32();
    hide Pow2;
    Mask4Is(plen);
    AndHighMask(x, 32, 32 - plen);
    LowBitsCleared(a, 32 - plen);
    SameNetworkIffInRange(x, MaskedNet4(a, plen).addr, 32 - plen);
  }

  lemma Accepts6IffInRange(a: Addr6, plen: Byte, x: Addr6)
    requires plen <= 128
    ensures var n := MaskedNet6(a, plen);
      Accepts6(n, x) <==> n.addr <= x <= n.addr + Pow2(128 - plen) - 1
  {
    hide LowBits;
    hide Pow2;
    LowBitsCleared(a, 128 - plen);
    SameNetworkIffInRange(x, MaskedNet6(a, plen).addr, 128 - plen);
  }

  // ---- Parsing ----

  /** The kernel's isspace, which strim uses: ASCII blanks and the Latin-1 no-break space. */
  predicate IsKernelSpace(c: char) { Domains.IsSpace(c) || c as int == 0xA0 }

  function Strim(s: string): string { Domains.Trim(s, IsKernelSpace) }

  /** kstrtou8 in base ten: an optional plus sign, digits, an optional newline. */
  function ParseU8(s: string): Option<Byte> {
    var unsigned := if s != "" && s[0] == '+' then s[1..] else s;
    var body := if unsigned != "" && unsigned[|unsigned| - 1] == NL then unsigned[..|unsigned| - 1] else unsigned;
    if body != "" && Digits(body) && DecimalValue(body) <= 255 then Some(DecimalValue(body)) else None
  }

  datatype Entry = Entry4(net4: Net4) | Entry6(net6: Net6)

  /** parse_net, before its entry is appended. */
  function ParseNet(p: Platform, s: string): Option<Entry> {
    var slash := FindChar(s, '/', 0);
    var addr := if slash.Some? then s[..slash.value] else s;
    var a4 := ParseDotted(addr);
    var a6 := if a4.Some? then None else p.v6Parse(addr);
    if a4.None? && a6.None? then None
    else
      var width := if a4.Some? then 32 else 128;
      var plen := if slash.Some? then ParseU8(s[slash.value + 1..]) else Some(width);
      if plen.None? || plen.value > width then None
      else if a4.Some? then Some(Entry4(MaskedNet4(a4.value, plen.value)))
      else Some(Entry6(MaskedNet6(a6.value, plen.value)))
  }

  /** Appending fails once an array is full. */
  function AddEntry(nets: Nets, e: Entry): Option<Nets> {
    match e
    case Entry4(n) => if |nets.v4| >= MAX_ALLOWED_NETS then None else Some(nets.(v4 := nets.v4 + [n]))
    case Entry6(n) => if |nets.v6| >= MAX_ALLOWED_NETS then None else Some(nets.(v6 := nets.v6 + [n]))
  }

  predicate Skipped(token: string) { token == "" || token[0] == '#' }

  function AddToken(p: Platform, nets: Nets, token: string): Option<Nets> {
    var t := Strim(token);
    if Skipped(t) then Some(nets)
    else match ParseNet(p, t)
      case None => None
      case Some(e) => AddEntry(nets, e)
  }

  /** All tokens in order, or nothing if any of them is bad. */
  function AddTokens(p: Platform, nets: Nets, tokens: seq<string>): Option<Nets>
    decreases |tokens|
  {
    if tokens == [] then Some(nets)
    else match AddToken(p, nets, tokens[0])
      case None => None
      case Some(more) => AddTokens(p, more, tokens[1..])
  }

  function ParseAllowed(p: Platform, list: string, sep: char): Option<Nets> {
    AddTokens(p, Nets([], []), Split(list, sep))
  }

  /** kb_parse_allowed */
  method ParseAllowedLoop(p: Platform, list: string, sep: char) returns (r: Option<Nets>)
    ensures r == ParseAllowed(p, list, sep)
  {
    hide ParseNet;
    var tokens := Split(list, sep);
    var nets := Nets([], []);
    var i := 0;
    while i < |tokens|
      invariant 0 <= i <= |tokens|
      invariant ParseAllowed(p, list, sep) == AddTokens(p, nets, tokens[i..])
    {
      var token := Strim(tokens[i]);
      assert tokens[i..][1..] == tokens[i + 1..];
      i := i + 1;
      if Skipped(token) {
        continue;
      }
      var entry := ParseNet(p, token);
      if entry.None? {
        return None;
      }
      var added := AddEntry(nets, entry.value);
      if added.None? {
        return None;
      }
      nets := added.value;
    }
    return Some(nets);
  }

  lemma {:induction false} AddTokensValid(p: Platform, nets: Nets, tokens: seq<string>)
    requires NetsValid(nets)
    ensures AddTokens(p, nets, tokens).Some? ==> NetsValid(AddTokens(p, nets, tokens).value)
    decreases |tokens|
  {
    if tokens != [] && AddToken(p, nets, tokens[0]).Some? {
      AddTokenValid(p, nets, tokens[0]);
      AddTokensValid(p, AddToken(p, nets, tokens[0]).value, tokens[1..]);
    }
  }

  lemma AddTokenValid(p: Platform, nets: Nets, token: string)
    requires NetsValid(nets)
    ensures AddToken(p, nets, token).Some? ==> NetsValid(AddToken(p, nets, token).value)
  {
    hide ParseNet;
    hide IsMasked4;
    hide IsMasked6;
    var t := Strim(token);
    if !Skipped(t) && ParseNet(p, t).Some? {
      ParsedEntryMasked(p, t);
    }
  }

  lemma ParsedEntryMasked(p: Platform, s: string)
    requires ParseNet(p, s).Some?
    ensures match ParseNet(p, s).value
            case Entry4(n) => IsMasked4(n)
            case Entry6(n) => IsMasked6(n)
  {
    hide ParseDotted;
    hide ParseU8;
    hide MaskedNet4;
    hide MaskedNet6;
    hide IsMasked4;
    hide IsMasked6;
    var slash := FindChar(s, '/', 0);
    var addr := if slash.Some? then s[..slash.value] else s;
    var widest := if ParseDotted(addr).Some? then 32 else 128;
    var plen := if slash.Some? then ParseU8(s[slash.value + 1..]) else Some(widest);
    if ParseDotted(addr).Some? {
      MaskedNet4IsMasked(ParseDotted(addr).value, plen.value);
    } else {
      MaskedNet6IsMasked(p.v6Parse(addr).value, plen.value);
    }
  }

  /** Whatever was accepted is a list of masked networks that fits the arrays. */
  lemma ParseAllowedValid(p: Platform, list: string, sep: char)
    ensures ParseAllowed(p, list, sep).Some? ==> NetsValid(ParseAllowed(p, list, sep).value)
  {
    AddTokensValid(p, Nets([], []), Split(list, sep));
  }

  // ---- Printing ----

  /** "%pI4/%u" with the bit count of the mask as prefix length. */
  function NetText4(n: Net4): string { Dotted(n.addr) + "/" + Decimal(PopCount(n.mask)) }

  /** "%pI6c/%u" */
  function NetText6(p: Platform, n: Net6): string { p.v6Text(n.addr) + "/" + Decimal(n.plen) }

  function Texts4(v4: seq<Net4>): (r: seq<string>)
    ensures |r| == |v4| && forall i | 0 <= i < |v4| :: r[i] == NetText4(v4[i])
  {
    seq(|v4|, i requires 0 <= i < |v4| => NetText4(v4[i]))
  }

  function Texts6(p: Platform, v6: seq<Net6>): (r: seq<string>)
    ensures |r| == |v6| && forall i | 0 <= i < |v6| :: r[i] == NetText6(p, v6[i])
  {
    seq(|v6|, i requires 0 <= i < |v6| => NetText6(p, v6[i]))
  }

  /** kb_format_allowed: each entry followed by the separator. */
  function FormatAllowed(p: Platform, nets: Nets, sep: char): string {
    Terminated(Texts4(nets.v4) + Texts6(p, nets.v6), sep)
  }

  /** The characters of a printed entry. */
  predicate IsNetChar(c: char) { IsAddrChar(c) || c == '/' }

  /** A printed entry parses back to the address and prefix it was printed from. */
  lemma ParsePrinted(p: Platform, addr: string, plen: Byte)
    requires AddrText(addr) && addr != ""
    requires ParseDotted(addr).Some? || p.v6Parse(addr).Some?
    requires plen <= if ParseDotted(addr).Some? then 32 else 128
    ensures Strim(addr + "/" + Decimal(plen)) == addr + "/" + Decimal(plen)
    ensures !Skipped(addr + "/" + Decimal(plen))
    ensures ParseNet(p, addr + "/" + Decimal(plen))
         == if ParseDotted(addr).Some? then Some(Entry4(MaskedNet4(ParseDotted(addr).value, plen)))
            else Some(Entry6(MaskedNet6(p.v6Parse(addr).value, plen)))
  {
    hide *;
    PrintedToken(addr, plen);
    PrintedPrefix(plen);
    SlashParts(addr, Decimal(plen));
    ParseParts(p, addr + "/" + Decimal(plen), addr, plen);
  }

  lemma PrintedToken(addr: string, plen: Byte)
    requires AddrText(addr) && addr != ""
    ensures Strim(addr + "/" + Decimal(plen)) == addr + "/" + Decimal(plen) && !Skipped(addr + "/" + Decimal(plen))
    ensures FindChar(addr + "/" + Decimal(plen), '/', 0) == Some(|addr|)
  {
    DecimalRoundTrip(plen);
    hide *;
    TokenKept(addr, Decimal(plen));
    FirstSlash(addr, Decimal(plen));
  }

  lemma TokenKept(addr: string, d: string)
    requires AddrText(addr) && addr != "" && Digits(d) && d != ""
    ensures Strim(addr + "/" + d) == addr + "/" + d && !Skipped(addr + "/" + d)
  {
    var s := addr + "/" + d;
    assert s[0] == addr[0] && s[|s| - 1] == d[|d| - 1];
    assert IsAddrChar(addr[0]) && IsDigit(d[|d| - 1]);
    hide AddrText;
    hide Digits;
    hide Domains.Trim;
    Domains.TrimKeeps(s, IsKernelSpace);
  }

  lemma FirstSlash(addr: string, d: string)
    requires AddrText(addr)
    ensures FindChar(addr + "/" + d, '/', 0) == Some(|addr|)
  {
    hide FindChar;
    var s := addr + "/" + d;
    forall i | 0 <= i < |addr| ensures s[i] != '/' {
      assert s[i] == addr[i] && IsAddrChar(addr[i]);
    }
    assert s[|addr|] == '/';
    FindCharIs(s, '/', 0, |addr|);
  }

  lemma SlashParts(addr: string, d: string)
    ensures (addr + "/" + d)[..|addr|] == addr && (addr + "/" + d)[|addr| + 1..] == d
  {
  }

  lemma ParseParts(p: Platform, s: string, addr: string, plen: Byte)
    requires FindChar(s, '/', 0) == Some(|addr|) && s[..|addr|] == addr && ParseU8(s[|addr| + 1..]) == Some(plen)
    requires ParseDotted(addr).Some? || p.v6Parse(addr).Some?
    requires plen <= if ParseDotted(addr).Some? then 32 else 128
    ensures ParseNet(p, s)
         == if ParseDotted(addr).Some? then Some(Entry4(MaskedNet4(ParseDotted(addr).value, plen)))
            else Some(Entry6(MaskedNet6(p.v6Parse(addr).value, plen)))
  {
    hide ParseDotted;
    hide ParseU8;
    hide MaskedNet4;
    hide MaskedNet6;
    hide FindChar;
  }

  lemma PrintedPrefix(plen: Byte)
    ensures ParseU8(Decimal(plen)) == Some(plen)
  {
    var d := Decimal(plen);
    DecimalRoundTrip(plen);
    assert IsDigit(d[0]) && IsDigit(d[|d| - 1]);
  }

  /** A printed entry is a token of its own that appends exactly that entry. */
  ghost predicate ReadsBack(p: Platform, text: string, e: Entry) {
    Strim(text) == text && !Skipped(text) && ParseNet(p, text) == Some(e)
  }

  lemma Printed4(p: Platform, n: Net4)
    requires IsMasked4(n)
    ensures ReadsBack(p, NetText4(n), Entry4(n))
  {
    hide ParseNet;
    hide ParseDotted;
    hide Dotted;
    hide Decimal;
    hide BitAnd;
    hide LowBits;
    hide PopCount;
    hide Mask4;
    hide Strim;
    hide Skipped;
    var plen: nat :| plen <= 32 && n.mask == Mask4(plen) && LowBits(n.addr, 32 - plen) == 0;
    Mask4Is(plen);
    DottedRoundTrip(n.addr);
    DottedShape(n.addr);
    ParsePrinted(p, Dotted(n.addr), plen);
    assert MaskedNet4(n.addr, plen) == n;
  }

  lemma Printed6(p: Platform, n: Net6)
    requires p.Valid() && IsMasked6(n)
    ensures ReadsBack(p, NetText6(p, n), Entry6(n))
  {
    hide ParseNet;
    hide ParseDotted;
    hide Decimal;
    hide LowBits;
    hide Strim;
    hide Skipped;
    V6Printed(p, n.addr);
    ParsePrinted(p, p.v6Text(n.addr), n.plen);
    assert MaskedNet6(n.addr, n.plen) == n;
  }

  lemma AddPrintedToken(p: Platform, nets: Nets, text: string, e: Entry, rest: seq<string>)
    requires ReadsBack(p, text, e) && AddEntry(nets, e).Some?
    ensures AddTokens(p, nets, [text] + rest) == AddTokens(p, AddEntry(nets, e).value, rest)
  {
    assert ([text] + rest)[1..] == rest;
  }

  lemma AddBlank(p: Platform, nets: Nets)
    ensures AddTokens(p, nets, [""]) == Some(nets)
  {
    assert AddTokens(p, nets, [""][1..]) == Some(nets);
  }

  lemma {:induction false} AddPrinted6(p: Platform, nets: Nets, v6: seq<Net6>)
    requires |nets.v6| + |v6| <= MAX_ALLOWED_NETS
    requires forall i | 0 <= i < |v6| :: ReadsBack(p, NetText6(p, v6[i]), Entry6(v6[i]))
    ensures AddTokens(p, nets, Texts6(p, v6) + [""]) == Some(nets.(v6 := nets.v6 + v6))
    decreases |v6|
  {
    hide AddToken;
    hide ReadsBack;
    hide NetText6;
    if v6 == [] {
      assert Texts6(p, v6) + [""] == [""];
      AddBlank(p, nets);
      assert nets.v6 + v6 == nets.v6;
    } else {
      var more := nets.(v6 := nets.v6 + [v6[0]]);
      assert Texts6(p, v6) + [""] == [NetText6(p, v6[0])] + (Texts6(p, v6[1..]) + [""]);
      AddPrintedToken(p, nets, NetText6(p, v6[0]), Entry6(v6[0]), Texts6(p, v6[1..]) + [""]);
      assert nets.v6 + v6 == more.v6 + v6[1..];
      AddPrinted6(p, more, v6[1..]);
    }
  }

  lemma {:induction false} AddPrinted(p: Platform, nets: Nets, v4: seq<Net4>, v6: seq<Net6>)
    requires |nets.v4| + |v4| <= MAX_ALLOWED_NETS && |nets.v6| + |v6| <= MAX_ALLOWED_NETS
    requires forall i | 0 <= i < |v4| :: ReadsBack(p, NetText4(v4[i]), Entry4(v4[i]))
    requires forall i | 0 <= i < |v6| :: ReadsBack(p, NetText6(p, v6[i]), Entry6(v6[i]))
    ensures AddTokens(p, nets, Texts4(v4) + (Texts6(p, v6) + [""])) == Some(Nets(nets.v4 + v4, nets.v6 + v6))
    decreases |v4|
  {
    hide AddToken;
    hide ReadsBack;
    hide NetText4;
    hide NetText6;
    var last := Texts6(p, v6) + [""];
    if v4 == [] {
      assert Texts4(v4) + last == last;
      assert nets.v4 + v4 == nets.v4;
      AddPrinted6(p, nets, v6);
    } else {
      var more := nets.(v4 := nets.v4 + [v4[0]]);
      assert Texts4(v4) + last == [NetText4(v4[0])] + (Texts4(v4[1..]) + last);
      AddPrintedToken(p, nets, NetText4(v4[0]), Entry4(v4[0]), Texts4(v4[1..]) + last);
      assert nets.v4 + v4 == more.v4 + v4[1..];
      AddPrinted(p, more, v4[1..], v6);
    }
  }

  /** Printed entries are short and use only address characters and the slash. */
  lemma PrintedShape4(n: Net4)
    requires IsMasked4(n)
    ensures |NetText4(n)| <= 18 && Only(NetText4(n), IsNetChar)
  {
    hide LowBits;
    hide Mask4;
    hide PopCount;
    hide Dotted;
    hide Decimal;
    var plen: nat :| plen <= 32 && n.mask == Mask4(plen) && LowBits(n.addr, 32 - plen) == 0;
    Mask4Is(plen);
    assert Pow10(2) == 100;
    DecimalLength(plen, 2);
    DecimalRoundTrip(plen);
    DottedShape(n.addr);
  }

  lemma PrintedShape6(p: Platform, n: Net6)
    requires p.Valid() && IsMasked6(n)
    ensures |NetText6(p, n)| <= 49 && Only(NetText6(p, n), IsNetChar)
  {
    assert Pow10(3) == 1000;
    DecimalLength(n.plen, 3);
    DecimalRoundTrip(n.plen);
    V6Printed(p, n.addr);
  }

  lemma PrintedTexts(p: Platform, nets: Nets)
    requires p.Valid() && NetsValid(nets)
    ensures forall i | 0 <= i < |nets.v4| :: |NetText4(nets.v4[i])| <= 18 && Only(NetText4(nets.v4[i]), IsNetChar)
    ensures forall i | 0 <= i < |nets.v6| :: |NetText6(p, nets.v6[i])| <= 49 && Only(NetText6(p, nets.v6[i]), IsNetChar)
  {
    hide NetText4;
    hide NetText6;
    hide IsMasked4;
    hide IsMasked6;
    hide Only;
    forall i | 0 <= i < |nets.v4| ensures |NetText4(nets.v4[i])| <= 18 && Only(NetText4(nets.v4[i]), IsNetChar) {
      PrintedShape4(nets.v4[i]);
    }
    forall i | 0 <= i < |nets.v6| ensures |NetText6(p, nets.v6[i])| <= 49 && Only(NetText6(p, nets.v6[i]), IsNetChar) {
      PrintedShape6(p, nets.v6[i]);
    }
  }

  lemma SeparatorNotInItems(p: Platform, nets: Nets, sep: char)
    requires p.Valid() && NetsValid(nets) && !IsNetChar(sep)
    ensures AllWithout(Texts4(nets.v4) + Texts6(p, nets.v6), sep)
  {
    hide NetText4;
    hide NetText6;
    var items := Texts4(nets.v4) + Texts6(p, nets.v6);
    PrintedTexts(p, nets);
    forall i | 0 <= i < |items| ensures sep !in items[i] {
      assert Only(items[i], IsNetChar);
    }
  }

  lemma AllReadBack(p: Platform, nets: Nets)
    requires p.Valid() && NetsValid(nets)
    ensures forall i | 0 <= i < |nets.v4| :: ReadsBack(p, NetText4(nets.v4[i]), Entry4(nets.v4[i]))
    ensures forall i | 0 <= i < |nets.v6| :: ReadsBack(p, NetText6(p, nets.v6[i]), Entry6(nets.v6[i]))
  {
    hide ReadsBack;
    hide NetText4;
    hide NetText6;
    hide IsMasked4;
    hide IsMasked6;
    forall i | 0 <= i < |nets.v4| ensures ReadsBack(p, NetText4(nets.v4[i]), Entry4(nets.v4[i])) {
      Printed4(p, nets.v4[i]);
    }
    forall i | 0 <= i < |nets.v6| ensures ReadsBack(p, NetText6(p, nets.v6[i]), Entry6(nets.v6[i])) {
      Printed6(p, nets.v6[i]);
    }
  }

  /** kb_parse_allowed undoes kb_format_allowed. */
  lemma AllowedRoundTrip(p: Platform, nets: Nets, sep: char)
    requires p.Valid() && NetsValid(nets) && !IsNetChar(sep)
    ensures ParseAllowed(p, FormatAllowed(p, nets, sep), sep) == Some(nets)
  {
    hide ReadsBack;
    hide NetText4;
    hide NetText6;
    hide AddTokens;
    hide Split;
    hide Terminated;
    hide IsMasked4;
    hide IsMasked6;
    var items := Texts4(nets.v4) + Texts6(p, nets.v6);
    SeparatorNotInItems(p, nets, sep);
    SplitTerminated(items, sep);
    AllReadBack(p, nets);
    AddPrinted(p, Nets([], []), nets.v4, nets.v6);
    assert items + [""] == Texts4(nets.v4) + (Texts6(p, nets.v6) + [""]);
    assert [] + nets.v4 == nets.v4 && [] + nets.v6 == nets.v6;
  }
}
