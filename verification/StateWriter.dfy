/**
 The loops of src/state.c that fill the record buffer and that read the lists back, against the
 functions of StateFile.
 */
module StateWriter {
  import opened Wrappers
  import opened Strings
  import opened Keys
  import opened Platform
  import opened Allowlist
  import opened StateFile
  import Domains
  import Remaining

  /** len += scnprintf(buf + len, size - len, ...): never past size - 1 characters. */
  function Append(buf: string, size: nat, text: string): (r: string)
    requires |buf| < size
    ensures |r| < size
  {
    Clip(buf + text, size - 1)
  }

  lemma {:induction false} JoinSnoc(items: seq<string>, x: string, c: char)
    ensures Join(items + [x], c) == if items == [] then x else Join(items, c) + [c] + x
  {
    if |items| == 0 {
      assert items + [x] == [x];
    } else if |items| == 1 {
      assert (items + [x])[1..] == [x];
    } else {
      assert (items + [x])[1..] == items[1..] + [x];
      JoinSnoc(items[1..], x, c);
    }
  }

  lemma {:induction false} TerminatedSnoc(items: seq<string>, n: nat, c: char)
    requires n < |items|
    ensures Terminated(items[..n + 1], c) == Terminated(items[..n], c) + (items[n] + [c])
  {
    assert items[..n + 1] == items[..n] + [items[n]];
    TerminatedAppend(items[..n], [items[n]], c);
    assert Terminated([items[n]], c) == items[n] + [c];
  }

  // ---- Writing ----

  /** Composing in pieces cuts off where composing at once would. */
  lemma AppendTwice(buf: string, size: nat, a: string, b: string)
    requires |buf| < size
    ensures Append(Append(buf, size, a), size, b) == Append(buf, size, a + b)
  {
    ClipTwice(buf + a, b, size - 1);
    assert buf + a + b == buf + (a + b);
    hide Clip;
  }

  lemma AppendNothing(buf: string, size: nat)
    requires |buf| < size
    ensures Append(buf, size, "") == buf
  {
  }

  method AppendDomains(start: string, size: nat, l: Lists) returns (buf: string)
    requires |start| < size
    ensures |buf| < size && buf == Append(start, size, DomainsPart(l))
  {
    hide Append;
    hide Join;
    buf := start;
    AppendNothing(start, size);
    if |l.domains| > 0 {
      buf := Append(buf, size, DOMAINS_TAG);
      buf := AppendJoined(buf, size, l.domains);
      buf := Append(buf, size, [NL]);
      AppendTwice(start, size, DOMAINS_TAG, Join(l.domains, ','));
      AppendTwice(start, size, DomainsLine(l), [NL]);
    }
  }

  method AppendJoined(start: string, size: nat, items: seq<string>) returns (buf: string)
    requires |start| < size
    ensures |buf| < size && buf == Append(start, size, Join(items, ','))
  {
    hide Append;
    hide Join;
    JoinNil(',');
    AppendNothing(start, size);
    buf := start;
    var i := 0;
    while i < |items|
      invariant 0 <= i <= |items| && |buf| < size
      invariant buf == Append(start, size, Join(items[..i], ','))
    {
      var piece := (if i > 0 then "," else "") + items[i];
      assert items[..i + 1] == items[..i] + [items[i]];
      JoinSnoc(items[..i], items[i], ',');
      assert Join(items[..i + 1], ',') == Join(items[..i], ',') + piece;
      AppendTwice(start, size, Join(items[..i], ','), piece);
      buf := Append(buf, size, piece);
      i := i + 1;
    }
    assert items[..i] == items;
  }

  lemma JoinNil(c: char)
    ensures Join([], c) == ""
  {
  }

  method AppendTerminated(start: string, size: nat, items: seq<string>) returns (buf: string)
    requires |start| < size
    ensures |buf| < size && buf == Append(start, size, Terminated(items, ','))
  {
    hide Append;
    AppendNothing(start, size);
    buf := start;
    var i := 0;
    while i < |items|
      invariant 0 <= i <= |items| && |buf| < size
      invariant buf == Append(start, size, Terminated(items[..i], ','))
    {
      TerminatedSnoc(items, i, ',');
      AppendTwice(start, size, Terminated(items[..i], ','), items[i] + ",");
      buf := Append(buf, size, items[i] + ",");
      i := i + 1;
    }
    assert items[..i] == items;
  }

  method AppendIps(p: Platform, start: string, size: nat, l: Lists) returns (buf: string)
    requires |start| < size
    ensures |buf| < size && buf == Append(start, size, IpsPart(p, l))
  {
    hide Append;
    hide Terminated;
    hide Dotteds;
    hide V6Texts;
    buf := start;
    AppendNothing(start, size);
    if |l.v4| > 0 || |l.v6| > 0 {
      var v4, v6 := Terminated(Dotteds(l.v4), ','), Terminated(V6Texts(p, l.v6), ',');
      buf := Append(buf, size, IPS_TAG);
      buf := AppendTerminated(buf, size, Dotteds(l.v4));
      buf := AppendTerminated(buf, size, V6Texts(p, l.v6));
      buf := Append(buf, size, [NL]);
      AppendFour(start, size, IPS_TAG, v4, v6, [NL]);
    }
  }

  lemma AppendFour(start: string, size: nat, a: string, b: string, c: string, d: string)
    requires |start| < size
    ensures Append(Append(Append(Append(start, size, a), size, b), size, c), size, d)
         == Append(start, size, a + (b + c) + d)
  {
    AppendTwice(start, size, a, b);
    AppendTwice(start, size, a + b, c);
    AppendTwice(start, size, a + b + c, d);
    hide Append;
    assert a + (b + c) + d == a + b + c + d;
  }

  /** The call of kb_format_allowed inside the record. */
  method AppendAllowed(p: Platform, start: string, size: nat, l: Lists) returns (buf: string)
    requires |start| < size
    ensures |buf| < size && buf == Append(start, size, AllowedPart(p, l))
  {
    hide Append;
    hide Terminated;
    hide Texts4;
    hide Texts6;
    buf := start;
    AppendNothing(start, size);
    if |l.allowed.v4| > 0 || |l.allowed.v6| > 0 {
      var v4, v6 := Terminated(Texts4(l.allowed.v4), ','), Terminated(Texts6(p, l.allowed.v6), ',');
      TerminatedAppend(Texts4(l.allowed.v4), Texts6(p, l.allowed.v6), ',');
      buf := Append(buf, size, ALLOWED_TAG);
      buf := AppendTerminated(buf, size, Texts4(l.allowed.v4));
      buf := AppendTerminated(buf, size, Texts6(p, l.allowed.v6));
      buf := Append(buf, size, [NL]);
      AppendFour(start, size, ALLOWED_TAG, v4, v6, [NL]);
    }
  }

  /** state_file_write_session, composing the record: where the buffer ends, scnprintf cuts it off. */
  method WriteSession(p: Platform, seconds: nat, hash: Hash, pgp: bool, l: Lists) returns (buf: string)
    ensures buf == Written(p, seconds, hash, pgp, l) && |buf| < HEADER_BUFFER
  {
    hide Append;
    hide Preamble;
    hide DomainsPart;
    hide IpsPart;
    hide AllowedPart;
    hide Written;
    buf := Append("", HEADER_BUFFER, Preamble(seconds, hash, pgp));
    buf := AppendDomains(buf, HEADER_BUFFER, l);
    buf := AppendIps(p, buf, HEADER_BUFFER, l);
    buf := AppendAllowed(p, buf, HEADER_BUFFER, l);
    var preamble, domains := Preamble(seconds, hash, pgp), DomainsPart(l);
    var ips, allowed := IpsPart(p, l), AllowedPart(p, l);
    AppendFour("", HEADER_BUFFER, preamble, domains, ips, allowed);
    assert Header(p, seconds, hash, pgp, l) == preamble + (domains + ips) + allowed;
    WrittenIs(p, seconds, hash, pgp, l);
  }

  lemma WrittenIs(p: Platform, seconds: nat, hash: Hash, pgp: bool, l: Lists)
    ensures Written(p, seconds, hash, pgp, l) == Append("", HEADER_BUFFER, Header(p, seconds, hash, pgp, l))
    ensures |Written(p, seconds, hash, pgp, l)| < HEADER_BUFFER
  {
    hide Header;
    assert "" + Header(p, seconds, hash, pgp, l) == Header(p, seconds, hash, pgp, l);
  }

  // ---- Reading ----

  /** restore_domains */
  method RestoreDomainsLoop(head: string, l: Lists) returns (r: Lists)
    ensures r == RestoreDomains(head, l)
  {
    var field := Field(head, DOMAINS_TAG);
    if field.None? {
      return l;
    }
    hide Domains.Normalize;
    var tokens := Split(field.value, ',');
    var taken: seq<string> := [];
    var i := 0;
    while i < |tokens| && |taken| < MAX_DOMAINS
      invariant 0 <= i <= |tokens| && |taken| <= MAX_DOMAINS
      invariant TakeDomains(tokens, []) == TakeDomains(tokens[i..], taken)
    {
      assert tokens[i..][1..] == tokens[i + 1..];
      var d := Domains.Normalize(tokens[i]);
      if d.Some? {
        taken := taken + [d.value];
      }
      i := i + 1;
    }
    return l.(domains := taken);
  }

  /** restore_ips */
  method RestoreIpsLoop(p: Platform, head: string, l: Lists) returns (r: Lists)
    ensures r == RestoreIps(p, head, l)
  {
    var field := Field(head, IPS_TAG);
    if field.None? {
      return l;
    }
    var taken := TakeAddrsLoop(p, Split(field.value, ','));
    return l.(v4 := taken.v4, v6 := taken.v6);
  }

  method TakeAddrsLoop(p: Platform, tokens: seq<string>) returns (taken: Addrs)
    ensures taken == TakeAddrs(p, tokens, Addrs([], []))
  {
    hide ParseDotted;
    taken := Addrs([], []);
    var i := 0;
    while i < |tokens|
      invariant 0 <= i <= |tokens|
      invariant TakeAddrs(p, tokens, Addrs([], [])) == TakeAddrs(p, tokens[i..], taken)
    {
      assert tokens[i..][1..] == tokens[i + 1..];
      var token := tokens[i];
      i := i + 1;
      if token == "" {
        continue;
      }
      var addr6 := p.v6Parse(token);
      if addr6.Some? {
        if |taken.v6| < MAX_IPS_V6 {
          taken := taken.(v6 := taken.v6 + [addr6.value]);
        }
      } else {
        var addr4 := ParseDotted(token);
        if addr4.Some? && |taken.v4| < MAX_IPS_V4 {
          taken := taken.(v4 := taken.v4 + [addr4.value]);
        }
      }
    }
  }

  /** restore_allowed */
  method RestoreAllowedLoop(p: Platform, head: string, l: Lists) returns (r: Lists)
    ensures r == RestoreAllowed(p, head, l)
  {
    var field := Field(head, ALLOWED_TAG);
    if field.None? {
      return l;
    }
    var nets := ParseAllowedLoop(p, field.value, ',');
    return if nets.None? then l else l.(allowed := nets.value);
  }

  /** The three list restores, in their order. */
  method RestoreListsLoops(p: Platform, head: string, l: Lists) returns (r: Lists)
    ensures r == RestoreLists(p, head, l)
  {
    hide RestoreDomains;
    hide RestoreIps;
    hide RestoreAllowed;
    r := RestoreDomainsLoop(head, l);
    r := RestoreIpsLoop(p, head, r);
    r := RestoreAllowedLoop(p, head, r);
  }

  /** The key hash of a record: 64 hex digits on their line. */
  method RestoreHashDecode(head: string) returns (r: Option<Hash>)
    ensures r == RestoreHash(head)
  {
    hide HexBytes;
    hide Field;
    var field := Field(head, KEY_TAG);
    if field.None? || |field.value| != 64 {
      return None;
    }
    var hash := new Byte[32];
    var ok := HexDecode(field.value, hash, 32);
    assert hash[..] == hash[..32];
    return if ok then Some(hash[..]) else None;
  }

  lemma {:induction false} TakenDomainsNormal(tokens: seq<string>, taken: seq<string>)
    requires |taken| <= MAX_DOMAINS && forall i | 0 <= i < |taken| :: Domains.IsNormal(taken[i])
    ensures var r := TakeDomains(tokens, taken);
      |r| <= MAX_DOMAINS && forall i | 0 <= i < |r| :: Domains.IsNormal(r[i])
    decreases |tokens|
  {
    hide Domains.Normalize;
    hide Domains.IsNormal;
    if tokens != [] && |taken| < MAX_DOMAINS {
      var d := Domains.Normalize(tokens[0]);
      if d.Some? {
        Domains.NormalizeYieldsNormal(tokens[0]);
      }
      TakenDomainsNormal(tokens[1..], if d.Some? then taken + [d.value] else taken);
    }
  }

  lemma {:induction false} TakenAddrsFit(p: Platform, tokens: seq<string>, taken: Addrs)
    requires |taken.v4| <= MAX_IPS_V4 && |taken.v6| <= MAX_IPS_V6
    ensures var r := TakeAddrs(p, tokens, taken); |r.v4| <= MAX_IPS_V4 && |r.v6| <= MAX_IPS_V6
    decreases |tokens|
  {
    hide ParseDotted;
    if tokens != [] {
      TakenAddrsFit(p, tokens[1..], if tokens[0] == "" then taken else TakeAddr(p, tokens[0], taken));
    }
  }

  /** Whatever bytes the file holds, the lists read from it are within bounds and every domain is normal. */
  lemma RestoredListsValid(p: Platform, head: string, l: Lists)
    requires ListsValid(l)
    ensures ListsValid(RestoreLists(p, head, l))
  {
    hide Field;
    hide NetsValid;
    hide Domains.IsNormal;
    hide ParseAllowed;
    hide TakeDomains;
    hide TakeAddrs;
    if Field(head, DOMAINS_TAG).Some? {
      TakenDomainsNormal(Split(Field(head, DOMAINS_TAG).value, ','), []);
    }
    if Field(head, IPS_TAG).Some? {
      TakenAddrsFit(p, Split(Field(head, IPS_TAG).value, ','), Addrs([], []));
    }
    if Field(head, ALLOWED_TAG).Some? {
      ParseAllowedValid(p, Field(head, ALLOWED_TAG).value, ',');
    }
  }

  /** The reading half of try_restore_state_from_disk: two windows, three lists, a hash and a time. */
  method RestoreRecord(p: Platform, file: string, l: Lists) returns (r: Restored)
    requires ListsValid(l)
    ensures r == Restore(p, file, l)
    ensures ListsValid(r.lists) && (r.session.Some? ==> 0 < r.session.value.1 <= MAX_SESSION_SECONDS)
  {
    hide Head;
    hide Tail;
    hide RestoreLists;
    hide RestoreHash;
    hide ListsValid;
    hide Remaining.LastRemaining;
    if |file| == 0 {
      return Restored(l, None);
    }
    var head, tail := Head(file), Tail(file);
    RestoredListsValid(p, head, l);
    var lists := RestoreListsLoops(p, head, l);
    var hash := RestoreHashDecode(head);
    if hash.None? {
      return Restored(lists, None);
    }
    var rem := Remaining.LastRemainingScan(tail);
    if rem == 0 {
      rem := Remaining.LastRemainingScan(head);
    }
    if rem == 0 {
      return Restored(lists, None);
    }
    rem := if rem < MAX_SESSION_SECONDS then rem else MAX_SESSION_SECONDS;
    return Restored(lists, Some((hash.value, rem)));
  }

  // ---- The sysfs stores of the lists ----

  /** One line of blocked_domains_store: blanks and comments are skipped, anything else must be a domain. */
  function StoreDomain(line: string, taken: seq<string>): Option<seq<string>> {
    if Skipped(Strim(line)) then Some(taken)
    else match Domains.Normalize(StrimEnd(line))
      case None => None
      case Some(d) => if |taken| >= MAX_DOMAINS then None else Some(taken + [d])
  }

  /** What strim leaves behind in the caller's buffer: only the blanks at the end are cut off. */
  function StrimEnd(line: string): string { Domains.DropTrailing(line, IsKernelSpace) }

  function StoreDomains(lines: seq<string>, taken: seq<string>): Option<seq<string>>
    decreases |lines|
  {
    if lines == [] then Some(taken)
    else match StoreDomain(lines[0], taken)
      case None => None
      case Some(more) => StoreDomains(lines[1..], more)
  }

  /** The list a write to blocked_domains stands for, or nothing when it must be refused. */
  function ParseDomains(text: string): Option<seq<string>> { StoreDomains(Split(CStr(text), NL), []) }

  method ParseDomainsLoop(text: string) returns (r: Option<seq<string>>)
    ensures r == ParseDomains(text)
  {
    hide Domains.Normalize;
    hide Skipped;
    var lines := Split(CStr(text), NL);
    var taken: seq<string> := [];
    var i := 0;
    while i < |lines|
      invariant 0 <= i <= |lines|
      invariant StoreDomains(lines, []) == StoreDomains(lines[i..], taken)
    {
      assert lines[i..][1..] == lines[i + 1..];
      var line := lines[i];
      i := i + 1;
      if Skipped(Strim(line)) {
        continue;
      }
      var d := Domains.Normalize(StrimEnd(line));
      if d.None? || |taken| >= MAX_DOMAINS {
        return None;
      }
      taken := taken + [d.value];
    }
    return Some(taken);
  }

  lemma {:induction false} StoredDomainsNormal(lines: seq<string>, taken: seq<string>)
    requires |taken| <= MAX_DOMAINS && forall i | 0 <= i < |taken| :: Domains.IsNormal(taken[i])
    ensures match StoreDomains(lines, taken)
            case None => true
            case Some(ds) => |ds| <= MAX_DOMAINS && forall i | 0 <= i < |ds| :: Domains.IsNormal(ds[i])
    decreases |lines|
  {
    hide Domains.Normalize;
    hide Domains.IsNormal;
    hide Skipped;
    if lines != [] && StoreDomain(lines[0], taken).Some? {
      if Domains.Normalize(StrimEnd(lines[0])).Some? {
        Domains.NormalizeYieldsNormal(StrimEnd(lines[0]));
      }
      StoredDomainsNormal(lines[1..], StoreDomain(lines[0], taken).value);
    }
  }

  /** A line of blocked_ips_store: comments too are skipped there. */
  function StoreAddrs(p: Platform, lines: seq<string>, taken: Addrs): Addrs
    decreases |lines|
  {
    if lines == [] then taken
    else if Skipped(lines[0]) then StoreAddrs(p, lines[1..], taken)
    else StoreAddrs(p, lines[1..], TakeAddr(p, lines[0], taken))
  }

  function ParseIps(p: Platform, text: string): Addrs {
    StoreAddrs(p, Split(CStr(text), NL), Addrs([], []))
  }

  method ParseIpsLoop(p: Platform, text: string) returns (taken: Addrs)
    ensures taken == ParseIps(p, text)
  {
    hide ParseDotted;
    hide Skipped;
    var lines := Split(CStr(text), NL);
    taken := Addrs([], []);
    var i := 0;
    while i < |lines|
      invariant 0 <= i <= |lines|
      invariant StoreAddrs(p, lines, Addrs([], [])) == StoreAddrs(p, lines[i..], taken)
    {
      assert lines[i..][1..] == lines[i + 1..];
      var token := lines[i];
      i := i + 1;
      if Skipped(token) {
        continue;
      }
      var addr6 := p.v6Parse(token);
      if addr6.Some? {
        if |taken.v6| < MAX_IPS_V6 {
          taken := taken.(v6 := taken.v6 + [addr6.value]);
        }
      } else {
        var addr4 := ParseDotted(token);
        if addr4.Some? && |taken.v4| < MAX_IPS_V4 {
          taken := taken.(v4 := taken.v4 + [addr4.value]);
        }
      }
    }
  }

  lemma {:induction false} StoredAddrsFit(p: Platform, lines: seq<string>, taken: Addrs)
    requires |taken.v4| <= MAX_IPS_V4 && |taken.v6| <= MAX_IPS_V6
    ensures var r := StoreAddrs(p, lines, taken); |r.v4| <= MAX_IPS_V4 && |r.v6| <= MAX_IPS_V6
    decreases |lines|
  {
    hide ParseDotted;
    if lines != [] {
      StoredAddrsFit(p, lines[1..], if Skipped(lines[0]) then taken else TakeAddr(p, lines[0], taken));
    }
  }
}
