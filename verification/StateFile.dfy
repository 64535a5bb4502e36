/**
 The session record on disk (src/state.c): the header state_file_write_session prints, the
 "remaining:" lines appended after it, and what restoring reads back through its head and tail windows.
 */
module StateFile {
  import opened Wrappers
  import opened Strings
  import opened Keys
  import opened Platform
  import opened Allowlist
  import Domains
  import Remaining

  const STATE_HEAD_MAX: nat := 256 * 1024
  const STATE_TAIL_MAX: nat := 128
  const MAX_DOMAINS: nat := Domains.MAX_DOMAINS
  const MAX_IPS_V4: nat := 4096
  const MAX_IPS_V6: nat := 1024
  const MAX_SESSION_SECONDS: nat := 10 * 365 * 24 * 3600

  /** What is blocked, and what is exempt. */
  datatype Lists = Lists(domains: seq<string>, v4: seq<Addr4>, v6: seq<Addr6>, allowed: Nets)

  const NO_LISTS: Lists := Lists([], [], [], Nets([], []))

  ghost predicate ListsValid(l: Lists) {
    && |l.domains| <= MAX_DOMAINS
    && (forall i | 0 <= i < |l.domains| :: Domains.IsNormal(l.domains[i]))
    && |l.v4| <= MAX_IPS_V4
    && |l.v6| <= MAX_IPS_V6
    && NetsValid(l.allowed)
  }

  // ---- Printing ----

  const KEY_TAG: string := "key_hash:"
  const PGP_TAG: string := "pgp_active:"
  const DOMAINS_TAG: string := "domains:"
  const IPS_TAG: string := "blocked_ips:"
  const ALLOWED_TAG: string := "allowed_ips:"

  function Dotteds(v4: seq<Addr4>): (r: seq<string>)
    ensures |r| == |v4| && forall i | 0 <= i < |v4| :: r[i] == Dotted(v4[i])
  {
    seq(|v4|, i requires 0 <= i < |v4| => Dotted(v4[i]))
  }

  function V6Texts(p: Platform, v6: seq<Addr6>): (r: seq<string>)
    ensures |r| == |v6| && forall i | 0 <= i < |v6| :: r[i] == p.v6Text(v6[i])
  {
    seq(|v6|, i requires 0 <= i < |v6| => p.v6Text(v6[i]))
  }

  /** A line of the record, without its newline. */
  function RemainingLine(seconds: nat): string { Remaining.TAG + Decimal(seconds) }
  function KeyLine(hash: Hash): string { KEY_TAG + Hex(hash) }
  function PgpLine(pgp: bool): string { PGP_TAG + (if pgp then "1" else "0") }
  function DomainsLine(l: Lists): string { DOMAINS_TAG + Join(l.domains, ',') }
  function IpsLine(p: Platform, l: Lists): string {
    IPS_TAG + (Terminated(Dotteds(l.v4), ',') + Terminated(V6Texts(p, l.v6), ','))
  }
  function AllowedLine(p: Platform, l: Lists): string { ALLOWED_TAG + FormatAllowed(p, l.allowed, ',') }

  /** The lines that are left out when there is nothing to say. */
  predicate HasDomains(l: Lists) { l.domains != [] }
  predicate HasIps(l: Lists) { l.v4 != [] || l.v6 != [] }
  predicate HasAllowed(l: Lists) { l.allowed.v4 != [] || l.allowed.v6 != [] }

  function AllowedPart(p: Platform, l: Lists): string {
    if HasAllowed(l) then AllowedLine(p, l) + [NL] else ""
  }

  function IpsPart(p: Platform, l: Lists): string {
    if HasIps(l) then IpsLine(p, l) + [NL] else ""
  }

  function DomainsPart(l: Lists): string {
    if HasDomains(l) then DomainsLine(l) + [NL] else ""
  }

  function Preamble(seconds: nat, hash: Hash, pgp: bool): string {
    RemainingLine(seconds) + [NL] + (KeyLine(hash) + [NL] + (PgpLine(pgp) + [NL]))
  }

  /** What a started session leaves on disk. */
  function Header(p: Platform, seconds: nat, hash: Hash, pgp: bool, l: Lists): string {
    Preamble(seconds, hash, pgp) + (DomainsPart(l) + (IpsPart(p, l) + AllowedPart(p, l)))
  }

  /** The buffer a record is composed in. */
  const HEADER_BUFFER: nat :=
    256 + MAX_DOMAINS * (Domains.MAX_DOMAIN_LEN + 1) + MAX_IPS_V4 * 16 + MAX_IPS_V6 * 41 + MAX_ALLOWED_NETS * (19 + 44)

  /** What reaches the file: the record, cut off where the buffer ends. */
  function Written(p: Platform, seconds: nat, hash: Hash, pgp: bool, l: Lists): string {
    Clip(Header(p, seconds, hash, pgp, l), HEADER_BUFFER - 1)
  }

  /** The buffer holds every record of a session with these lists. */
  ghost predicate Fits(p: Platform, l: Lists) {
    forall seconds: nat, hash: Hash | seconds <= MAX_SESSION_SECONDS ::
      |Header(p, seconds, hash, true, l)| < HEADER_BUFFER
  }

  lemma WrittenWhole(p: Platform, seconds: nat, hash: Hash, l: Lists)
    requires Fits(p, l) && seconds <= MAX_SESSION_SECONDS
    ensures Written(p, seconds, hash, true, l) == Header(p, seconds, hash, true, l)
  {
    hide Header;
  }

  // ---- Reading fields ----

  /** The text after the first occurrence of a tag, up to the end of its line; nothing if that is empty. */
  function Field(s: string, tag: string): Option<string> {
    match Find(s, tag, 0)
    case None => None
    case Some(at) =>
      match FindChar(s, NL, at + |tag|)
      case None => None
      case Some(end) => if end == at + |tag| then None else Some(s[at + |tag|..end])
  }

  ghost predicate Absent(line: string, tag: string) { forall i | 0 <= i <= |line| :: !OccursAt(line, tag, i) }

  lemma AbsentByChar(line: string, tag: string, k: nat)
    requires k < |tag| && tag[k] !in line
    ensures Absent(line, tag)
  {
    forall i | 0 <= i <= |line| ensures !OccursAt(line, tag, i) {
      OccursChar(line, tag, i, k);
      assert i + k < |line| ==> line[i + k] in line;
    }
  }

  lemma AbsentFieldNone(s: string, tag: string)
    requires Absent(s, tag)
    ensures Field(s, tag).None?
  {
    FindNone(s, tag, 0);
  }

  /** A tag has no newline, so an occurrence in a longer text lies inside one line. */
  lemma OccursPastLine(line: string, rest: string, tag: string, i: nat)
    requires tag != "" && NL !in tag && Absent(line, tag)
    requires i <= |line|
    ensures !OccursAt(line + [NL] + rest, tag, i)
  {
    var s := line + [NL] + rest;
    if i + |tag| <= |line| {
      assert s[i..i + |tag|] == line[i..i + |tag|];
      assert !OccursAt(line, tag, i);
    } else {
      OccursChar(s, tag, i, |line| - i);
      assert s[|line|] == NL;
      assert tag[|line| - i] in tag;
    }
  }

  lemma OccursShift(before: string, rest: string, tag: string, i: nat)
    ensures OccursAt(before + rest, tag, |before| + i) <==> OccursAt(rest, tag, i)
  {
    if i + |tag| <= |rest| {
      assert (before + rest)[|before| + i..|before| + i + |tag|] == rest[i..i + |tag|];
    }
  }

  /** Searching starts over after a line that does not hold the tag. */
  lemma FieldSkip(line: string, rest: string, tag: string)
    requires tag != "" && NL !in tag && Absent(line, tag)
    ensures Field(line + [NL] + rest, tag) == Field(rest, tag)
  {
    hide OccursAt;
    hide Find;
    hide FindChar;
    var before := line + [NL];
    var s := before + rest;
    forall i | 0 <= i < |before| ensures !OccursAt(s, tag, i) {
      OccursPastLine(line, rest, tag, i);
    }
    FindMeans(rest, tag, 0);
    match Find(rest, tag, 0)
    case None =>
      forall i | 0 <= i <= |s| ensures !OccursAt(s, tag, i) {
        if i >= |before| { OccursShift(before, rest, tag, i - |before|); }
      }
      FindNone(s, tag, 0);
    case Some(at) =>
      forall i | 0 <= i < |before| + at ensures !OccursAt(s, tag, i) {
        if i >= |before| { OccursShift(before, rest, tag, i - |before|); }
      }
      OccursShift(before, rest, tag, at);
      FindIs(s, tag, 0, |before| + at);
      FindCharShift(before, rest, at + |tag|);
      assert FindChar(s, NL, |before| + at + |tag|).None? <==> FindChar(rest, NL, at + |tag|).None?;
  }

  lemma FindCharShift(before: string, rest: string, from: nat)
    requires from <= |rest|
    ensures match FindChar(rest, NL, from)
            case None => FindChar(before + rest, NL, |before| + from).None?
            case Some(end) =>
              && FindChar(before + rest, NL, |before| + from) == Some(|before| + end)
              && (before + rest)[|before| + from..|before| + end] == rest[from..end]
  {
    var s := before + rest;
    FindCharMeans(rest, NL, from);
    match FindChar(rest, NL, from)
    case None => FindCharNone(s, NL, |before| + from);
    case Some(end) => FindCharIs(s, NL, |before| + from, |before| + end);
  }

  /** The first line is the one tagged. */
  lemma FieldHere(tag: string, body: string, rest: string)
    requires body != "" && NL !in body
    ensures Field(tag + body + [NL] + rest, tag) == Some(body)
  {
    var s := tag + body + [NL] + rest;
    assert s[0..|tag|] == tag;
    FindIs(s, tag, 0, 0);
    forall i | |tag| <= i < |tag| + |body| ensures s[i] != NL {
      assert body[i - |tag|] in body;
    }
    FindCharIs(s, NL, |tag|, |tag| + |body|);
    hide Find;
    hide FindChar;
    hide OccursAt;
    assert s[|tag|..|tag| + |body|] == body;
  }

  // ---- Restoring ----

  /** restore_domains: tokens that normalise, at most MAX_DOMAINS of them. */
  function TakeDomains(tokens: seq<string>, taken: seq<string>): seq<string>
    decreases |tokens|
  {
    if tokens == [] || |taken| >= MAX_DOMAINS then taken
    else match Domains.Normalize(tokens[0])
      case None => TakeDomains(tokens[1..], taken)
      case Some(d) => TakeDomains(tokens[1..], taken + [d])
  }

  datatype Addrs = Addrs(v4: seq<Addr4>, v6: seq<Addr6>)

  /** One token of restore_ips or blocked_ips_store: IPv6 is tried first, excess and noise are ignored. */
  function TakeAddr(p: Platform, token: string, taken: Addrs): Addrs {
    if p.v6Parse(token).Some? then
      if |taken.v6| < MAX_IPS_V6 then taken.(v6 := taken.v6 + [p.v6Parse(token).value]) else taken
    else if ParseDotted(token).Some? then
      if |taken.v4| < MAX_IPS_V4 then taken.(v4 := taken.v4 + [ParseDotted(token).value]) else taken
    else taken
  }

  function TakeAddrs(p: Platform, tokens: seq<string>, taken: Addrs): Addrs
    decreases |tokens|
  {
    if tokens == [] then taken
    else if tokens[0] == "" then TakeAddrs(p, tokens[1..], taken)
    else TakeAddrs(p, tokens[1..], TakeAddr(p, tokens[0], taken))
  }

  function RestoreDomains(head: string, l: Lists): Lists {
    match Field(head, DOMAINS_TAG)
    case None => l
    case Some(body) => l.(domains := TakeDomains(Split(body, ','), []))
  }

  function RestoreIps(p: Platform, head: string, l: Lists): Lists {
    match Field(head, IPS_TAG)
    case None => l
    case Some(body) =>
      var taken := TakeAddrs(p, Split(body, ','), Addrs([], []));
      l.(v4 := taken.v4, v6 := taken.v6)
  }

  function RestoreAllowed(p: Platform, head: string, l: Lists): Lists {
    match Field(head, ALLOWED_TAG)
    case None => l
    case Some(body) =>
      match ParseAllowed(p, body, ',')
      case None => l
      case Some(nets) => l.(allowed := nets)
  }

  function RestoreLists(p: Platform, head: string, l: Lists): Lists {
    RestoreAllowed(p, head, RestoreIps(p, head, RestoreDomains(head, l)))
  }

  function RestoreHash(head: string): (h: Option<Hash>) {
    match Field(head, KEY_TAG)
    case None => None
    case Some(body) =>
      HexBytesLength(body, 32);
      if |body| != 64 then None
      else match HexBytes(body, 32)
        case None => None
        case Some(bytes) => Some(bytes)
  }

  function Head(file: string): string {
    CStr(if |file| <= STATE_HEAD_MAX then file else file[..STATE_HEAD_MAX])
  }

  function Tail(file: string): string {
    CStr(if |file| <= STATE_TAIL_MAX then file else file[|file| - STATE_TAIL_MAX..])
  }

  /** The windowed read: the last 128 bytes first, the head only when they hold no record. */
  function ReadRemaining(file: string): nat {
    var fromTail := Remaining.LastRemaining(Tail(file));
    if fromTail != 0 then fromTail else Remaining.LastRemaining(Head(file))
  }

  /** What try_restore_state_from_disk finds: the lists in any case, a session only if hash and time are good. */
  datatype Restored = Restored(lists: Lists, session: Option<(Hash, nat)>)

  function Restore(p: Platform, file: string, l: Lists): Restored {
    if file == "" then Restored(l, None)
    else
      var lists := RestoreLists(p, Head(file), l);
      var hash := RestoreHash(Head(file));
      var rem := ReadRemaining(file);
      if hash.None? || rem == 0 then Restored(lists, None)
      else Restored(lists, Some((hash.value, if rem < MAX_SESSION_SECONDS then rem else MAX_SESSION_SECONDS)))
  }
}
