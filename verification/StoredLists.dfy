/**
 What a write to one of the list files stores (src/main.c, blocked_domains_store, blocked_ips_store,
 kb_parse_allowed), told by the lines of the text and not by the loops that read it.
 */
module StoredLists {
  import opened Wrappers
  import opened Strings
  import opened Platform
  import opened Allowlist
  import opened StateFile
  import opened StateWriter
  import opened Spelling
  import Domains
  import Netfilter
  import Bits

  // ---- Lines ----

  /** The places, in order, of the items that are kept. */
  function Places(items: seq<string>, keep: string -> bool): (at: seq<nat>)
    ensures forall i | 0 <= i < |at| :: at[i] < |items| && keep(items[at[i]])
    ensures forall i, j | 0 <= i < j < |at| :: at[i] < at[j]
    ensures forall n | 0 <= n < |items| && keep(items[n]) :: n in at
  {
    if items == [] then [] else
      var init, last := items[..|items| - 1], |items| - 1;
      Places(init, keep) + if keep(items[last]) then [last] else []
  }

  /** Neither blank nor a comment. */
  predicate Counts(line: string) { !Skipped(Strim(line)) }

  // ---- Domains ----

  /** What a line of blocked_domains stands for. */
  function LineDomain(line: string): Option<string> { Domains.Normalize(StrimEnd(line)) }

  /** It stands for a domain exactly when it spells it; behind it the kernel's blanks may follow. */
  lemma LineDomainIff(line: string, d: string)
    ensures LineDomain(line) == Some(d) <==> Domains.IsNormal(d) && Spelled(line, d, IsKernelSpace)
  {
    NormalizeIff(StrimEnd(line), d);
    hide Domains.Normalize;
    hide Domains.IsNormal;
    if Spelled(StrimEnd(line), d, Domains.IsSpace) {
      SpelledLonger(line, d);
    }
    if Domains.IsNormal(d) && Spelled(line, d, IsKernelSpace) {
      SpelledShorter(line, d);
    }
    hide Spelled;
    hide StrimEnd;
  }

  lemma SpelledLonger(line: string, d: string)
    requires Spelled(StrimEnd(line), d, Domains.IsSpace)
    ensures Spelled(line, d, IsKernelSpace)
  {
    var w: Parts :| Spells(w, d, Domains.IsSpace) && StrimEnd(line) == Assemble(w);
    var cut := line[|StrimEnd(line)|..];
    Domains.DropTrailingMeans(line, IsKernelSpace);
    assert line == StrimEnd(line) + cut && Only(cut, IsKernelSpace);
    assert Only(w.after, IsKernelSpace);
    hide StrimEnd;
    BlanksAppended(w, d, cut);
  }

  lemma BlanksAppended(w: Parts, d: string, cut: string)
    requires Spells(w, d, Domains.IsSpace) && Only(w.after, IsKernelSpace) && Only(cut, IsKernelSpace)
    ensures Spelled(Assemble(w) + cut, d, IsKernelSpace)
  {
    var more := w.(after := w.after + cut);
    OnlyConcat(w.after, cut, IsKernelSpace);
    assert Spells(more, d, IsKernelSpace);
    hide Spells;
    hide Only;
    assert Assemble(w) + cut == Assemble(more);
  }

  lemma SpelledShorter(line: string, d: string)
    requires Domains.IsNormal(d) && Spelled(line, d, IsKernelSpace)
    ensures Spelled(StrimEnd(line), d, Domains.IsSpace)
  {
    var w: Parts :| Spells(w, d, IsKernelSpace) && line == Assemble(w);
    var less := w.(after := "");
    NameEnds(w.name, d);
    hide Domains.IsNormal;
    assert Spells(less, d, Domains.IsSpace) && Only(w.after, IsKernelSpace);
    KernelEnd(less, d);
    hide Spells;
    hide Only;
    hide IsKernelSpace;
    var rest := Assemble(less);
    assert rest == w.before + (w.wildcard + (w.dots + w.name + w.dotsAfter));
    assert line == rest + w.after;
    TrailingDropped(rest, w.after, IsKernelSpace);
  }

  lemma KernelEnd(w: Parts, d: string)
    requires Spells(w, d, Domains.IsSpace) && w.after == "" && w.name != "" && Domains.AllDomainChars(w.name)
    ensures Assemble(w) != "" && !IsKernelSpace(Assemble(w)[|Assemble(w)| - 1])
  {
    var s, name, dots := Assemble(w), w.name, w.dotsAfter;
    assert Domains.IsDomainChar(name[|name| - 1]) && (dots != "" ==> Domains.IsDot(dots[|dots| - 1]));
    hide Spells;
    hide Only;
    hide Domains.AllDomainChars;
    assert s[|s| - 1] == if dots != "" then dots[|dots| - 1] else name[|name| - 1];
  }

  lemma {:induction false} StoreSnoc(lines: seq<string>, line: string, taken: seq<string>)
    ensures StoreDomains(lines + [line], taken)
         == if StoreDomains(lines, taken).None? then None else StoreDomain(line, StoreDomains(lines, taken).value)
    decreases |lines|
  {
    hide StoreDomain;
    if lines == [] {
      assert (lines + [line])[1..] == [];
      assert StoreDomains([], taken) == Some(taken);
    } else {
      assert (lines + [line])[1..] == lines[1..] + [line];
      if StoreDomain(lines[0], taken).Some? {
        StoreSnoc(lines[1..], line, StoreDomain(lines[0], taken).value);
      }
    }
  }

  /** The list is made of what the lines that count stand for, in their order, or refused. */
  ghost predicate DomainsOf(lines: seq<string>, r: Option<seq<string>>) {
    var at := Places(lines, Counts);
    match r
    case Some(ds) =>
      |ds| == |at| <= Domains.MAX_DOMAINS && forall i | 0 <= i < |at| :: LineDomain(lines[at[i]]) == Some(ds[i])
    case None => |at| > Domains.MAX_DOMAINS || exists i :: 0 <= i < |at| && LineDomain(lines[at[i]]).None?
  }

  lemma {:induction false} StoreDomainsIs(lines: seq<string>)
    ensures DomainsOf(lines, StoreDomains(lines, []))
  {
    hide LineDomain;
    hide Counts;
    if lines != [] {
      var init, line := lines[..|lines| - 1], lines[|lines| - 1];
      StoreDomainsIs(init);
      assert lines == init + [line];
      StoreSnoc(init, line, []);
      hide StoreDomains;
      StoredOneMore(init, line, StoreDomains(init, []));
    }
  }

  lemma StoredOneMore(init: seq<string>, line: string, before: Option<seq<string>>)
    requires DomainsOf(init, before)
    ensures DomainsOf(init + [line], if before.None? then None else StoreDomain(line, before.value))
  {
    var lines := init + [line];
    var at, more := Places(init, Counts), Places(lines, Counts);
    PlacesSnoc(init, line, Counts);
    hide Places;
    hide Domains.Normalize;
    hide StrimEnd;
    hide Strim;
    hide Skipped;
    if before.None? {
      if i :| 0 <= i < |at| && LineDomain(init[at[i]]).None? {
        assert LineDomain(lines[more[i]]).None?;
      }
    } else if Counts(line) {
      assert lines[more[|at|]] == line;
    }
  }

  /** What a write to blocked_domains is read as. */
  lemma ParseDomainsIs(text: string)
    ensures DomainsOf(Split(CStr(text), NL), ParseDomains(text))
  {
    StoreDomainsIs(Split(CStr(text), NL));
  }

  /** Lines of text: no newline, no NUL. */
  ghost predicate AreLines(lines: seq<string>) { lines != [] && AllWithout(lines, NL) && AllWithout(lines, NUL) }

  lemma {:induction false} JoinClean(lines: seq<string>)
    requires AllWithout(lines, NUL)
    ensures NUL !in Join(lines, NL)
  {
    if |lines| > 1 {
      JoinClean(lines[1..]);
    }
  }

  lemma LinesOfText(lines: seq<string>)
    requires AreLines(lines)
    ensures Split(CStr(Join(lines, NL)), NL) == lines
  {
    JoinClean(lines);
    CStrOfClean(Join(lines, NL));
    SplitJoin(lines, NL);
  }

  lemma NormalLine(d: string)
    requires Domains.IsNormal(d)
    ensures LineDomain(d) == Some(d)
  {
    assert Domains.IsDomainChar(d[|d| - 1]);
    assert StrimEnd(d) == d;
    Domains.NormalIffFixpoint(d);
  }

  /** Up to 64 domains, one per line, blank and comment lines anywhere between: exactly these are stored, in order. */
  lemma DomainsRoundTrip(lines: seq<string>, ds: seq<string>)
    requires AreLines(lines) && |ds| <= Domains.MAX_DOMAINS
    requires forall i | 0 <= i < |ds| :: Domains.IsNormal(ds[i])
    requires |Places(lines, Counts)| == |ds| && forall i | 0 <= i < |ds| :: lines[Places(lines, Counts)[i]] == ds[i]
    ensures ParseDomains(Join(lines, NL)) == Some(ds)
  {
    LinesOfText(lines);
    ParseDomainsIs(Join(lines, NL));
    forall i | 0 <= i < |ds| ensures LineDomain(ds[i]) == Some(ds[i]) {
      NormalLine(ds[i]);
    }
    hide *;
    DomainsOfOne(lines, ParseDomains(Join(lines, NL)), ds);
  }

  lemma DomainsOfOne(lines: seq<string>, r: Option<seq<string>>, ds: seq<string>)
    requires DomainsOf(lines, r) && |ds| <= Domains.MAX_DOMAINS
    requires |Places(lines, Counts)| == |ds|
    requires forall i | 0 <= i < |ds| :: LineDomain(lines[Places(lines, Counts)[i]]) == Some(ds[i])
    ensures r == Some(ds)
  {
    hide LineDomain;
    hide Counts;
    hide Places;
    if r.Some? {
      assert forall i | 0 <= i < |ds| :: Some(r.value[i]) == Some(ds[i]);
      assert r.value == ds;
    }
  }

  // ---- Addresses ----

  /** A line of blocked_ips that is an IPv6 address, and one that is an IPv4 address. */
  function Is6(p: Platform): string -> bool { (line: string) => !Skipped(line) && p.v6Parse(line).Some? }

  function Is4(p: Platform): string -> bool {
    (line: string) => !Skipped(line) && p.v6Parse(line).None? && ParseDotted(line).Some?
  }

  /** The first addresses of either kind that fit, in order; lines that are neither, and all beyond, do nothing. */
  ghost predicate AddrsOf(p: Platform, lines: seq<string>, r: Addrs) {
    var at4, at6 := Places(lines, Is4(p)), Places(lines, Is6(p));
    && |r.v4| == (if |at4| <= MAX_IPS_V4 then |at4| else MAX_IPS_V4)
    && |r.v6| == (if |at6| <= MAX_IPS_V6 then |at6| else MAX_IPS_V6)
    && (forall i | 0 <= i < |r.v4| :: ParseDotted(lines[at4[i]]) == Some(r.v4[i]))
    && (forall i | 0 <= i < |r.v6| :: p.v6Parse(lines[at6[i]]) == Some(r.v6[i]))
  }

  /** What one line adds. */
  function StoreAddr(p: Platform, line: string, taken: Addrs): Addrs {
    if Skipped(line) then taken else TakeAddr(p, line, taken)
  }

  lemma {:induction false} StoreAddrsSnoc(p: Platform, lines: seq<string>, line: string, taken: Addrs)
    ensures StoreAddrs(p, lines + [line], taken) == StoreAddr(p, line, StoreAddrs(p, lines, taken))
    decreases |lines|
  {
    hide TakeAddr;
    if lines == [] {
      assert lines + [line] == [line] && [line][1..] == [];
      assert StoreAddrs(p, [], StoreAddr(p, line, taken)) == StoreAddr(p, line, taken);
    } else {
      assert (lines + [line])[1..] == lines[1..] + [line];
      StoreAddrsSnoc(p, lines[1..], line, StoreAddr(p, lines[0], taken));
    }
  }

  lemma {:induction false} StoreAddrsIs(p: Platform, lines: seq<string>)
    ensures AddrsOf(p, lines, StoreAddrs(p, lines, Addrs([], [])))
  {
    hide ParseDotted;
    hide Skipped;
    if lines != [] {
      var init, line := lines[..|lines| - 1], lines[|lines| - 1];
      StoreAddrsIs(p, init);
      assert lines == init + [line];
      StoreAddrsSnoc(p, init, line, Addrs([], []));
      hide StoreAddrs;
      AddrsOneMore(p, init, line, StoreAddrs(p, init, Addrs([], [])));
    }
  }

  lemma PlacesSnoc(init: seq<string>, line: string, keep: string -> bool)
    ensures var at := Places(init, keep); var more := Places(init + [line], keep);
      && more == at + (if keep(line) then [|init|] else [])
      && (forall i | 0 <= i < |at| :: (init + [line])[more[i]] == init[at[i]])
      && (keep(line) ==> (init + [line])[more[|at|]] == line)
  {
    assert (init + [line])[..|init|] == init;
  }

  lemma AddrsOneMore(p: Platform, init: seq<string>, line: string, before: Addrs)
    requires AddrsOf(p, init, before)
    ensures AddrsOf(p, init + [line], StoreAddr(p, line, before))
  {
    PlacesSnoc(init, line, Is4(p));
    PlacesSnoc(init, line, Is6(p));
    hide Places;
    hide ParseDotted;
    hide Skipped;
  }

  /** What a write to blocked_ips is read as. */
  lemma ParseIpsIs(p: Platform, text: string)
    ensures AddrsOf(p, Split(CStr(text), NL), ParseIps(p, text))
  {
    StoreAddrsIs(p, Split(CStr(text), NL));
  }

  // ---- Networks ----

  /** A token of the allowlist that stands for an IPv4 network, for an IPv6 network, or for nothing. */
  function Is4Net(p: Platform): string -> bool {
    (token: string) =>
      Counts(token) && ParseNet(p, Strim(token)).Some? && ParseNet(p, Strim(token)).value.Entry4?
  }

  function Is6Net(p: Platform): string -> bool {
    (token: string) =>
      Counts(token) && ParseNet(p, Strim(token)).Some? && ParseNet(p, Strim(token)).value.Entry6?
  }

  function IsBad(p: Platform): string -> bool { (token: string) => Counts(token) && ParseNet(p, Strim(token)).None? }

  ghost predicate Nets4Of(p: Platform, tokens: seq<string>, v4: seq<Net4>) {
    var at := Places(tokens, Is4Net(p));
    |v4| == |at| && forall i | 0 <= i < |at| :: ParseNet(p, Strim(tokens[at[i]])) == Some(Entry4(v4[i]))
  }

  ghost predicate Nets6Of(p: Platform, tokens: seq<string>, v6: seq<Net6>) {
    var at := Places(tokens, Is6Net(p));
    |v6| == |at| && forall i | 0 <= i < |at| :: ParseNet(p, Strim(tokens[at[i]])) == Some(Entry6(v6[i]))
  }

  /** All the networks of either kind, in their order, or a refusal because of a bad token or one too many. */
  ghost predicate NetsOf(p: Platform, tokens: seq<string>, r: Option<Nets>) {
    var at4, at6, bad := Places(tokens, Is4Net(p)), Places(tokens, Is6Net(p)), Places(tokens, IsBad(p));
    match r
    case None => bad != [] || |at4| > MAX_ALLOWED_NETS || |at6| > MAX_ALLOWED_NETS
    case Some(nets) =>
      && bad == [] && |at4| <= MAX_ALLOWED_NETS && |at6| <= MAX_ALLOWED_NETS
      && Nets4Of(p, tokens, nets.v4) && Nets6Of(p, tokens, nets.v6)
  }

  lemma {:induction false} AddTokensSnoc(p: Platform, nets: Nets, tokens: seq<string>, token: string)
    ensures AddTokens(p, nets, tokens + [token])
         == if AddTokens(p, nets, tokens).None? then None else AddToken(p, AddTokens(p, nets, tokens).value, token)
    decreases |tokens|
  {
    hide AddToken;
    if tokens == [] {
      assert (tokens + [token])[1..] == [];
      assert AddTokens(p, nets, []) == Some(nets);
    } else {
      assert (tokens + [token])[1..] == tokens[1..] + [token];
      if AddToken(p, nets, tokens[0]).Some? {
        AddTokensSnoc(p, AddToken(p, nets, tokens[0]).value, tokens[1..], token);
      }
    }
  }

  lemma {:induction false} AddTokensIs(p: Platform, tokens: seq<string>)
    ensures NetsOf(p, tokens, AddTokens(p, Nets([], []), tokens))
  {
    if tokens == [] {
      NoNets(p);
    } else {
      var init, token := tokens[..|tokens| - 1], tokens[|tokens| - 1];
      AddTokensIs(p, init);
      assert tokens == init + [token];
      AddTokensSnoc(p, Nets([], []), init, token);
      NetsOneMore(p, init, token, AddTokens(p, Nets([], []), init));
    }
    hide *;
  }

  lemma NoNets(p: Platform)
    ensures NetsOf(p, [], AddTokens(p, Nets([], []), []))
  {
    assert AddTokens(p, Nets([], []), []) == Some(Nets([], []));
    hide AddTokens;
  }

  lemma NetsOneMore(p: Platform, init: seq<string>, token: string, before: Option<Nets>)
    requires NetsOf(p, init, before)
    ensures NetsOf(p, init + [token], if before.None? then None else AddToken(p, before.value, token))
  {
    if before.None? {
      StillRefused(p, init, token);
    } else {
      OneTokenMore(p, init, token, before.value);
    }
    hide *;
  }

  lemma PlacesCount(init: seq<string>, line: string, keep: string -> bool)
    ensures |Places(init + [line], keep)| == |Places(init, keep)| + if keep(line) then 1 else 0
  {
    PlacesSnoc(init, line, keep);
    hide Places;
  }

  lemma StillRefused(p: Platform, init: seq<string>, token: string)
    requires NetsOf(p, init, None)
    ensures NetsOf(p, init + [token], None)
  {
    PlacesSnoc(init, token, Is4Net(p));
    PlacesSnoc(init, token, Is6Net(p));
    PlacesSnoc(init, token, IsBad(p));
    hide Places;
    hide Is4Net;
    hide Is6Net;
    hide IsBad;
  }

  lemma OneTokenMore(p: Platform, init: seq<string>, token: string, nets: Nets)
    requires NetsOf(p, init, Some(nets))
    ensures NetsOf(p, init + [token], AddToken(p, nets, token))
  {
    hide *;
    NetsParts(p, init, nets);
    Net4More(p, init, token, nets.v4);
    Net6More(p, init, token, nets.v6);
    BadMore(p, init, token);
    AnyTokenMore(p, init + [token], token, nets, ParseNet(p, Strim(token)));
  }

  lemma NetsParts(p: Platform, tokens: seq<string>, nets: Nets)
    requires NetsOf(p, tokens, Some(nets))
    ensures Nets4Of(p, tokens, nets.v4) && Nets6Of(p, tokens, nets.v6) && |Places(tokens, IsBad(p))| == 0
    ensures |Places(tokens, Is4Net(p))| == |nets.v4| <= MAX_ALLOWED_NETS
    ensures |Places(tokens, Is6Net(p))| == |nets.v6| <= MAX_ALLOWED_NETS
  {
    hide Places;
  }

  lemma AnyTokenMore(p: Platform, tokens: seq<string>, token: string, nets: Nets, e: Option<Entry>)
    requires e == ParseNet(p, Strim(token)) && |nets.v4| <= MAX_ALLOWED_NETS && |nets.v6| <= MAX_ALLOWED_NETS
    requires !Counts(token) || e.None? || e.value.Entry6? ==> Nets4Of(p, tokens, nets.v4)
    requires !Counts(token) || e.None? || e.value.Entry4? ==> Nets6Of(p, tokens, nets.v6)
    requires Counts(token) && e.Some? && e.value.Entry4? ==> Nets4Of(p, tokens, nets.v4 + [e.value.net4])
    requires Counts(token) && e.Some? && e.value.Entry6? ==> Nets6Of(p, tokens, nets.v6 + [e.value.net6])
    requires |Places(tokens, IsBad(p))| == if Counts(token) && e.None? then 1 else 0
    requires Counts(token) && e.Some? && e.value.Entry4? ==> |Places(tokens, Is4Net(p))| == |nets.v4| + 1
    requires Counts(token) && e.Some? && e.value.Entry6? ==> |Places(tokens, Is6Net(p))| == |nets.v6| + 1
    ensures NetsOf(p, tokens, AddToken(p, nets, token))
  {
    AddTokenIs(p, nets, token);
    hide *;
    if !Counts(token) {
      NetsAccepted(p, tokens, nets);
    } else if e.None? {
      NetsRefused(p, tokens);
    } else if e.value.Entry4? {
      if |nets.v4| < MAX_ALLOWED_NETS {
        NetsAccepted(p, tokens, nets.(v4 := nets.v4 + [e.value.net4]));
      } else {
        NetsRefused(p, tokens);
      }
    } else if |nets.v6| < MAX_ALLOWED_NETS {
      NetsAccepted(p, tokens, nets.(v6 := nets.v6 + [e.value.net6]));
    } else {
      NetsRefused(p, tokens);
    }
  }

  lemma AddTokenIs(p: Platform, nets: Nets, token: string)
    ensures var e := ParseNet(p, Strim(token)); var r := AddToken(p, nets, token);
      && (!Counts(token) ==> r == Some(nets))
      && (Counts(token) && e.None? ==> r == None)
      && (Counts(token) && e.Some? && e.value.Entry4? ==>
            r == if |nets.v4| < MAX_ALLOWED_NETS then Some(nets.(v4 := nets.v4 + [e.value.net4])) else None)
      && (Counts(token) && e.Some? && e.value.Entry6? ==>
            r == if |nets.v6| < MAX_ALLOWED_NETS then Some(nets.(v6 := nets.v6 + [e.value.net6])) else None)
  {
    hide ParseNet;
    hide Strim;
    hide Skipped;
  }

  lemma NetsAccepted(p: Platform, tokens: seq<string>, nets: Nets)
    requires |Places(tokens, IsBad(p))| == 0 && Nets4Of(p, tokens, nets.v4) && Nets6Of(p, tokens, nets.v6)
    requires |nets.v4| <= MAX_ALLOWED_NETS && |nets.v6| <= MAX_ALLOWED_NETS
    ensures NetsOf(p, tokens, Some(nets))
  {
    hide Places;
  }

  lemma NetsRefused(p: Platform, tokens: seq<string>)
    requires || |Places(tokens, IsBad(p))| > 0 || |Places(tokens, Is4Net(p))| > MAX_ALLOWED_NETS
             || |Places(tokens, Is6Net(p))| > MAX_ALLOWED_NETS
    ensures NetsOf(p, tokens, None)
  {
    hide Places;
  }

  lemma Net4More(p: Platform, init: seq<string>, token: string, v4: seq<Net4>)
    requires Nets4Of(p, init, v4)
    ensures var e, tokens := ParseNet(p, Strim(token)), init + [token];
      if Counts(token) && e.Some? && e.value.Entry4?
      then Nets4Of(p, tokens, v4 + [e.value.net4]) && |Places(tokens, Is4Net(p))| == |v4| + 1
      else Nets4Of(p, tokens, v4)
  {
    PlacesSnoc(init, token, Is4Net(p));
    hide Places;
    hide ParseNet;
    hide Strim;
    hide Skipped;
  }

  lemma Net6More(p: Platform, init: seq<string>, token: string, v6: seq<Net6>)
    requires Nets6Of(p, init, v6)
    ensures var e, tokens := ParseNet(p, Strim(token)), init + [token];
      if Counts(token) && e.Some? && e.value.Entry6?
      then Nets6Of(p, tokens, v6 + [e.value.net6]) && |Places(tokens, Is6Net(p))| == |v6| + 1
      else Nets6Of(p, tokens, v6)
  {
    PlacesSnoc(init, token, Is6Net(p));
    hide Places;
    hide ParseNet;
    hide Strim;
    hide Skipped;
  }

  lemma BadMore(p: Platform, init: seq<string>, token: string)
    requires |Places(init, IsBad(p))| == 0
    ensures |Places(init + [token], IsBad(p))| == if Counts(token) && ParseNet(p, Strim(token)).None? then 1 else 0
  {
    PlacesCount(init, token, IsBad(p));
    hide Places;
    hide ParseNet;
    hide Strim;
    hide Skipped;
  }

  /** What a write to allowed_ips is read as. */
  lemma ParseAllowedIs(p: Platform, list: string, sep: char)
    ensures NetsOf(p, Split(list, sep), ParseAllowed(p, list, sep))
  {
    AddTokensIs(p, Split(list, sep));
  }

  /** An address is allowed exactly when some token of the text written is a network that lets it through. */
  lemma AllowedByText(p: Platform, tokens: seq<string>, nets: Nets)
    requires NetsOf(p, tokens, Some(nets))
    ensures forall x: Addr4 ::
      Allowed4(nets.v4, x)
      <==> exists k :: 0 <= k < |tokens| && Is4Net(p)(tokens[k])
                       && Accepts4(ParseNet(p, Strim(tokens[k])).value.net4, x)
  {
    var at := Places(tokens, Is4Net(p));
    hide Accepts4;
    hide ParseNet;
    hide Strim;
    hide Counts;
    forall x: Addr4
      ensures Allowed4(nets.v4, x)
         <==> exists k :: 0 <= k < |tokens| && Is4Net(p)(tokens[k])
                          && Accepts4(ParseNet(p, Strim(tokens[k])).value.net4, x)
    {
      if i :| 0 <= i < |nets.v4| && Accepts4(nets.v4[i], x) {
        assert ParseNet(p, Strim(tokens[at[i]])) == Some(Entry4(nets.v4[i]));
      }
      if k :| 0 <= k < |tokens| && Is4Net(p)(tokens[k])
              && Accepts4(ParseNet(p, Strim(tokens[k])).value.net4, x) {
        assert k in at;
        var i :| 0 <= i < |at| && at[i] == k;
        assert ParseNet(p, Strim(tokens[at[i]])) == Some(Entry4(nets.v4[i]));
      }
    }
  }

  lemma AllowedByText6(p: Platform, tokens: seq<string>, nets: Nets)
    requires NetsOf(p, tokens, Some(nets)) && forall i | 0 <= i < |nets.v6| :: nets.v6[i].plen <= 128
    ensures forall x: Addr6 ::
      Netfilter.Allowed6(nets.v6, x)
      <==> exists k :: 0 <= k < |tokens| && Is6Net(p)(tokens[k])
                       && var n := ParseNet(p, Strim(tokens[k])).value.net6; n.plen <= 128 && Accepts6(n, x)
  {
    var at := Places(tokens, Is6Net(p));
    hide Accepts6;
    hide ParseNet;
    hide Strim;
    hide Counts;
    forall x: Addr6
      ensures Netfilter.Allowed6(nets.v6, x)
         <==> exists k :: 0 <= k < |tokens| && Is6Net(p)(tokens[k])
                          && var n := ParseNet(p, Strim(tokens[k])).value.net6; n.plen <= 128 && Accepts6(n, x)
    {
      if i :| 0 <= i < |nets.v6| && Accepts6(nets.v6[i], x) {
        assert ParseNet(p, Strim(tokens[at[i]])) == Some(Entry6(nets.v6[i]));
      }
      if k :| 0 <= k < |tokens| && Is6Net(p)(tokens[k])
              && var n := ParseNet(p, Strim(tokens[k])).value.net6; n.plen <= 128 && Accepts6(n, x) {
        assert k in at;
        var i :| 0 <= i < |at| && at[i] == k;
        assert ParseNet(p, Strim(tokens[at[i]])) == Some(Entry6(nets.v6[i]));
      }
    }
  }

  /** Two IPv4 (IPv6) addresses agree in their first plen bits. */
  predicate SharePrefix(x: nat, a: nat, width: nat, plen: nat)
    requires plen <= width
  {
    x / Bits.Pow2(width - plen) == a / Bits.Pow2(width - plen)
  }

  /** The entry lets exactly those addresses through that agree with the given one in the given number of bits. */
  ghost predicate LetsThrough(e: Entry, addr: nat, plen: nat) {
    match e
    case Entry4(n) => plen <= 32 && forall x: Addr4 :: Accepts4(n, x) <==> SharePrefix(x, addr, 32, plen)
    case Entry6(n) => n.plen == plen <= 128 && forall x: Addr6 :: Accepts6(n, x) <==> SharePrefix(x, addr, 128, plen)
  }

  lemma MaskedLetsThrough4(a: Addr4, plen: nat)
    requires plen <= 32
    ensures LetsThrough(Entry4(MaskedNet4(a, plen)), a, plen)
  {
    hide SharePrefix;
    forall x: Addr4 ensures Accepts4(MaskedNet4(a, plen), x) <==> SharePrefix(x, a, 32, plen) {
      SharesIffAccepted4(a, plen, x);
    }
  }

  lemma SharesIffAccepted4(a: Addr4, plen: nat, x: Addr4)
    requires plen <= 32
    ensures Accepts4(MaskedNet4(a, plen), x) <==> SharePrefix(x, a, 32, plen)
  {
    Accepts4IffInRange(a, plen, x);
    Bits.LowBitsCleared(a, 32 - plen);
    Bits.SameNetworkIffInRange(x, MaskedNet4(a, plen).addr, 32 - plen);
    Bits.SameNetworkIffSamePrefix(x, a, 32 - plen);
    hide Bits.LowBits;
    hide Bits.Pow2;
    hide Accepts4;
  }

  lemma MaskedLetsThrough6(a: Addr6, plen: Byte)
    requires plen <= 128
    ensures LetsThrough(Entry6(MaskedNet6(a, plen)), a, plen)
  {
    hide SharePrefix;
    forall x: Addr6 ensures Accepts6(MaskedNet6(a, plen), x) <==> SharePrefix(x, a, 128, plen) {
      SharesIffAccepted6(a, plen, x);
    }
  }

  lemma SharesIffAccepted6(a: Addr6, plen: Byte, x: Addr6)
    requires plen <= 128
    ensures Accepts6(MaskedNet6(a, plen), x) <==> SharePrefix(x, a, 128, plen)
  {
    Accepts6IffInRange(a, plen, x);
    Bits.LowBitsCleared(a, 128 - plen);
    Bits.SameNetworkIffInRange(x, MaskedNet6(a, plen).addr, 128 - plen);
    Bits.SameNetworkIffSamePrefix(x, a, 128 - plen);
    hide Bits.LowBits;
    hide Bits.Pow2;
    hide Accepts6;
  }

  /** The address a text stands for, and how many bits it has. */
  function AddressOf(p: Platform, addr: string): Option<(nat, nat)> {
    if ParseDotted(addr).Some? then Some((ParseDotted(addr).value, 32))
    else if p.v6Parse(addr).Some? then Some((p.v6Parse(addr).value, 128))
    else None
  }

  lemma NoSlash(addr: string, rest: string)
    requires '/' !in addr
    ensures FindChar(addr, '/', 0).None? && FindChar(addr + "/" + rest, '/', 0) == Some(|addr|)
  {
    var s := addr + "/" + rest;
    forall i | 0 <= i < |addr| ensures addr[i] != '/' && s[i] != '/' {
      assert addr[i] in addr;
    }
    FindCharNone(addr, '/', 0);
    FindCharIs(s, '/', 0, |addr|);
  }

  /** A bare address is an entry exactly when it is an address, and lets through that address alone. */
  lemma BareEntry(p: Platform, addr: string)
    requires '/' !in addr
    ensures ParseNet(p, addr).Some? <==> AddressOf(p, addr).Some?
    ensures ParseNet(p, addr).Some? ==>
      var (a, width) := AddressOf(p, addr).value;
      && (ParseNet(p, addr).value.Entry4? <==> width == 32)
      && LetsThrough(ParseNet(p, addr).value, a, width)
  {
    NoSlash(addr, "");
    if ParseDotted(addr).Some? {
      MaskedLetsThrough4(ParseDotted(addr).value, 32);
    } else if p.v6Parse(addr).Some? {
      MaskedLetsThrough6(p.v6Parse(addr).value, 128);
    }
    hide FindChar;
    hide ParseDotted;
    hide MaskedNet4;
    hide MaskedNet6;
    hide LetsThrough;
  }

  /** With a prefix it is one exactly when that is a number no larger than the width, and lets its network through. */
  lemma PrefixEntry(p: Platform, addr: string, len: string)
    requires '/' !in addr
    ensures var s := addr + "/" + len;
      && (ParseNet(p, s).Some? <==>
            AddressOf(p, addr).Some? && ParseU8(len).Some? && ParseU8(len).value <= AddressOf(p, addr).value.1)
      && (ParseNet(p, s).Some? ==>
            && (ParseNet(p, s).value.Entry4? <==> AddressOf(p, addr).value.1 == 32)
            && LetsThrough(ParseNet(p, s).value, AddressOf(p, addr).value.0, ParseU8(len).value))
  {
    NoSlash(addr, len);
    SlashParts(addr, len);
    var plen := ParseU8(len);
    if ParseDotted(addr).Some? && plen.Some? && plen.value <= 32 {
      MaskedLetsThrough4(ParseDotted(addr).value, plen.value);
    } else if p.v6Parse(addr).Some? && plen.Some? && plen.value <= 128 {
      MaskedLetsThrough6(p.v6Parse(addr).value, plen.value);
    }
    hide FindChar;
    hide ParseDotted;
    hide ParseU8;
    hide MaskedNet4;
    hide MaskedNet6;
    hide LetsThrough;
  }

  /** In dotted notation: prefixes of 8, 16 and 24 bits compare the first one, two and three octets. */
  lemma WholeOctets(a: Byte, b: Byte, c: Byte, d: Byte, w: Byte, x: Byte, y: Byte, z: Byte)
    ensures var addr, other := FromOctets(a, b, c, d), FromOctets(w, x, y, z);
      && (Accepts4(MaskedNet4(addr, 8), other) <==> w == a)
      && (Accepts4(MaskedNet4(addr, 16), other) <==> w == a && x == b)
      && (Accepts4(MaskedNet4(addr, 24), other) <==> w == a && x == b && y == c)
  {
    var addr, other := FromOctets(a, b, c, d), FromOctets(w, x, y, z);
    SharesIffAccepted4(addr, 8, other);
    SharesIffAccepted4(addr, 16, other);
    SharesIffAccepted4(addr, 24, other);
    OctetPowers();
    OctetQuotients(a, b, c, d);
    OctetQuotients(w, x, y, z);
    hide Bits.Pow2;
    hide Accepts4;
    hide MaskedNet4;
    hide FromOctets;
    hide Mask4;
    hide Bits.BitAnd;
    hide Bits.LowBits;
  }

  lemma OctetPowers()
    ensures Bits.Pow2(8) == 0x100 && Bits.Pow2(16) == 0x1_0000 && Bits.Pow2(24) == 0x100_0000
  {
    assert Bits.Pow2(8) == 0x100;
    assert Bits.Pow2(16) == 0x1_0000;
  }

  lemma OctetQuotients(a: Byte, b: Byte, c: Byte, d: Byte)
    ensures var n := FromOctets(a, b, c, d);
      && n / 0x100_0000 == a && n / 0x1_0000 == 0x100 * (a as int) + (b as int)
      && n / 0x100 == 0x1_0000 * (a as int) + 0x100 * (b as int) + (c as int)
  {
  }

  /** A prefix length is digits for at most 255, behind a plus sign or none, before a newline or none. */
  ghost predicate IsU8(s: string, plus: string, digits: string, nl: string, n: nat) {
    && (plus == "" || plus == "+") && (nl == "" || nl == [NL])
    && digits != "" && Digits(digits) && DecimalValue(digits) == n <= 255 && s == plus + digits + nl
  }

  lemma ParseU8Iff(s: string, n: Byte)
    ensures ParseU8(s) == Some(n) <==> exists plus, digits, nl :: IsU8(s, plus, digits, nl, n)
  {
    if ParseU8(s) == Some(n) {
      U8Read(s, n);
    }
    forall plus, digits, nl | IsU8(s, plus, digits, nl, n) ensures ParseU8(s) == Some(n) {
      U8Parts(s, plus, digits, nl);
    }
    hide IsU8;
  }

  lemma U8Read(s: string, n: Byte)
    requires ParseU8(s) == Some(n)
    ensures exists plus, digits, nl :: IsU8(s, plus, digits, nl, n)
  {
    hide Digits;
    hide DecimalValue;
    var unsigned := if s != "" && s[0] == '+' then s[1..] else s;
    var body := if unsigned != "" && unsigned[|unsigned| - 1] == NL then unsigned[..|unsigned| - 1] else unsigned;
    var plus := if s != "" && s[0] == '+' then "+" else "";
    var nl := if unsigned != "" && unsigned[|unsigned| - 1] == NL then [NL] else "";
    assert s == plus + unsigned && unsigned == body + nl;
    assert s == plus + body + nl;
    assert IsU8(s, plus, body, nl, n);
  }

  lemma U8Parts(s: string, plus: string, digits: string, nl: string)
    requires (plus == "" || plus == "+") && (nl == "" || nl == [NL]) && digits != "" && Digits(digits)
    requires s == plus + digits + nl
    ensures ParseU8(s) == if DecimalValue(digits) <= 255 then Some(DecimalValue(digits)) else None
  {
    hide DecimalValue;
    var unsigned := digits + nl;
    assert IsDigit(digits[0]) && IsDigit(digits[|digits| - 1]);
    assert s[0] == if plus == "" then digits[0] else '+';
    assert unsigned[|unsigned| - 1] == if nl == "" then digits[|digits| - 1] else NL;
    assert unsigned == if s[0] == '+' then s[1..] else s;
    assert digits == if unsigned[|unsigned| - 1] == NL then unsigned[..|unsigned| - 1] else unsigned;
  }
}
