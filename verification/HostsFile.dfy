/**
 The kblocker block in the hosts file (src/parse.c kb_hosts_*, src/file_protection.c
 update_hosts_file and clear_hosts_from_kernel), with the file as its bytes.
 */
module HostsFile {
  import opened Wrappers
  import opened Strings
  import Domains

  const MARKER_LEAD: string := "# kblocker managed entries"
  const MARKER_TAIL: string := " - do not edit manually"
  const MARKER: string := MARKER_LEAD + MARKER_TAIL
  const HOSTS_MAX_SIZE: nat := 1024 * 1024

  predicate IsNewline(c: char) { c == NL }

  // ---- The block ----

  function Entry(d: string): string {
    ("0.0.0.0 " + d) + ("\n:: " + d) + ("\n0.0.0.0 www." + d) + ("\n:: www." + d) + "\n"
  }

  function Entries(domains: seq<string>): string {
    if domains == [] then "" else Entries(domains[..|domains| - 1]) + Entry(domains[|domains| - 1])
  }

  function Block(domains: seq<string>): string {
    "\n\n" + MARKER + ("\n" + Entries(domains) + "\n")
  }

  /** kb_hosts_block_size is computed without formatting anything. */
  method BlockSize(domains: seq<string>) returns (size: nat)
    ensures size == |Block(domains)|
  {
    size := 2 + |MARKER| + 1 + 1;
    var i := 0;
    while i < |domains|
      invariant 0 <= i <= |domains|
      invariant size == 2 + |MARKER| + 1 + 1 + |Entries(domains[..i])|
    {
      assert domains[..i + 1][..i] == domains[..i];
      size := size + 4 * |domains[i]| + (8 + 1 + 3 + 1 + 12 + 1 + 7 + 1);
      i := i + 1;
    }
    assert domains[..i] == domains;
  }

  // ---- The formatter ----

  /** put */
  method Put(out: array<char>, len: nat, size: nat, s: string, ghost text: string) returns (newLen: nat)
    requires size <= out.Length && len <= size && out[..len] == Clip(text, size)
    modifies out
    ensures newLen <= size && out[..newLen] == Clip(text + s, size)
    ensures out[size..] == old(out[size..])
  {
    var n := if |s| > size - len then size - len else |s|;
    forall i | 0 <= i < n {
      out[len + i] := s[i];
    }
    newLen := len + n;
    assert out[..newLen] == old(out[..len]) + s[..n];
  }

  /** kb_hosts_format: a short buffer gets a prefix of the block and is never overrun. */
  method Format(domains: seq<string>, out: array<char>, size: nat) returns (len: nat)
    requires size <= out.Length
    modifies out
    ensures len <= size && out[..len] == Clip(Block(domains), size)
    ensures out[size..] == old(out[size..])
  {
    hide Entry;
    hide Clip;
    ghost var text := "";
    ClipFits("", size);
    assert out[..0] == "";
    len := Put(out, 0, size, "\n\n", text);
    text := text + "\n\n";
    len := Put(out, len, size, MARKER, text);
    text := text + MARKER;
    len := Put(out, len, size, "\n", text);
    text := text + "\n";
    var i := 0;
    while i < |domains|
      invariant 0 <= i <= |domains| && len <= size
      invariant text == "\n\n" + MARKER + "\n" + Entries(domains[..i])
      invariant out[..len] == Clip(text, size)
      invariant out[size..] == old(out[size..])
    {
      assert domains[..i + 1][..i] == domains[..i];
      len := PutEntry(out, len, size, domains[i], text);
      text := text + Entry(domains[i]);
      i := i + 1;
    }
    assert domains[..i] == domains;
    len := Put(out, len, size, "\n", text);
    assert text + "\n" == Block(domains);
  }

  lemma ClipFits(text: string, size: nat)
    requires |text| <= size
    ensures Clip(text, size) == text
  {
  }

  method PutEntry(out: array<char>, len: nat, size: nat, d: string, ghost text: string) returns (newLen: nat)
    requires size <= out.Length && len <= size && out[..len] == Clip(text, size)
    modifies out
    ensures newLen <= size && out[..newLen] == Clip(text + Entry(d), size)
    ensures out[size..] == old(out[size..])
  {
    hide Clip;
    var l0, l1, l2, l3 := "0.0.0.0 ", "\n:: ", "\n0.0.0.0 www.", "\n:: www.";
    newLen := PutPair(out, len, size, l0, d, text);
    newLen := PutPair(out, newLen, size, l1, d, text + (l0 + d));
    newLen := PutPair(out, newLen, size, l2, d, text + (l0 + d) + (l1 + d));
    newLen := PutPair(out, newLen, size, l3, d, text + (l0 + d) + (l1 + d) + (l2 + d));
    ghost var t := text + (l0 + d) + (l1 + d) + (l2 + d) + (l3 + d);
    newLen := Put(out, newLen, size, "\n", t);
    assert t + "\n" == text + Entry(d);
  }

  method PutPair(out: array<char>, len: nat, size: nat, lead: string, d: string, ghost text: string)
    returns (newLen: nat)
    requires size <= out.Length && len <= size && out[..len] == Clip(text, size)
    modifies out
    ensures newLen <= size && out[..newLen] == Clip(text + (lead + d), size)
    ensures out[size..] == old(out[size..])
  {
    hide Clip;
    newLen := Put(out, len, size, lead, text);
    newLen := Put(out, newLen, size, d, text + lead);
    assert text + lead + d == text + (lead + d);
  }

  // ---- The user's part of the file ----

  function MarkerAt(file: string): Option<nat> { Find(CStr(file), MARKER, 0) }

  /** Everything before the marker, without newlines at its end. */
  function Base(file: string): string {
    Domains.DropTrailing(if MarkerAt(file).Some? then file[..MarkerAt(file).value] else file, IsNewline)
  }

  /** kb_hosts_base_len */
  method BaseLen(file: string) returns (len: nat)
    ensures len <= |file| && file[..len] == Base(file)
  {
    var p := MarkerAt(file);
    len := if p.Some? && p.value < |file| then p.value else |file|;
    ghost var kept := file[..len];
    assert file[..|file|] == file;
    while len > 0 && file[len - 1] == NL
      invariant 0 <= len <= |file|
      invariant Domains.DropTrailing(file[..len], IsNewline) == Domains.DropTrailing(kept, IsNewline)
    {
      assert file[..len][..len - 1] == file[..len - 1];
      len := len - 1;
    }
  }

  /** hosts_write_tail: write at the base, then cut the file off behind what was written. */
  function WriteTail(file: string, base: nat, tail: string): string
    requires base <= |file|
  {
    var written := file[..base] + tail + (if base + |tail| <= |file| then file[base + |tail|..] else "");
    written[..base + |tail|]
  }

  function Clear(file: string): string {
    if |file| > HOSTS_MAX_SIZE || MarkerAt(file).None? then file else Base(file) + [NL]
  }

  function Update(file: string, domains: seq<string>): string {
    if domains == [] then Clear(file)
    else if |file| > HOSTS_MAX_SIZE then file
    else Base(file) + Block(domains)
  }

  /** clear_hosts_from_kernel */
  method ClearHosts(file: string) returns (r: string)
    ensures r == Clear(file)
  {
    if |file| > HOSTS_MAX_SIZE {
      return file;
    }
    if MarkerAt(file).None? {
      return file;
    }
    var base := BaseLen(file);
    return WriteTail(file, base, [NL]);
  }

  /** update_hosts_file: the block is formatted into a buffer of exactly the computed size. */
  method UpdateHosts(file: string, domains: seq<string>) returns (r: string)
    ensures r == Update(file, domains)
  {
    if |domains| == 0 {
      r := ClearHosts(file);
      return;
    }
    if |file| > HOSTS_MAX_SIZE {
      return file;
    }
    hide Block;
    hide MarkerAt;
    var base := BaseLen(file);
    var size := BlockSize(domains);
    var tail := new char[size];
    var len := Format(domains, tail, size);
    ClipFits(Block(domains), size);
    assert |tail[..len]| == len;
    r := WriteTail(file, base, tail[..len]);
  }

  // ---- What is true of any sequence of updates ----

  ghost predicate Printable(s: string) { forall i | 0 <= i < |s| :: s[i] >= ' ' }

  lemma PrintableConcat(a: string, b: string)
    requires Printable(a) && Printable(b)
    ensures Printable(a + b)
  {
  }

  lemma MarkerPlain()
    ensures MARKER[0] == '#' && NL !in MARKER && NUL !in MARKER
  {
    MarkerPieces();
    hide *;
    PrintableConcat(MARKER_LEAD, MARKER_TAIL);
    PrintableMeans(MARKER);
    assert MARKER[0] == MARKER_LEAD[0];
  }

  lemma MarkerPieces()
    ensures Printable(MARKER_LEAD) && Printable(MARKER_TAIL) && MARKER_LEAD != "" && MARKER_LEAD[0] == '#'
    ensures MARKER == MARKER_LEAD + MARKER_TAIL
  {
  }

  lemma PrintableMeans(s: string)
    requires Printable(s)
    ensures NL !in s && NUL !in s
  {
  }

  lemma {:induction false} EntriesClean(domains: seq<string>)
    requires forall i | 0 <= i < |domains| :: Domains.IsNormal(domains[i])
    ensures NUL !in Entries(domains)
  {
    if domains != [] {
      EntriesClean(domains[..|domains| - 1]);
      EntryClean(domains[|domains| - 1]);
      hide Entry;
    }
  }

  lemma EntryClean(d: string)
    requires Domains.IsNormal(d)
    ensures NUL !in Entry(d)
  {
    assert NUL !in d;
    hide Domains.IsNormal;
  }

  lemma BlockClean(domains: seq<string>)
    requires forall i | 0 <= i < |domains| :: Domains.IsNormal(domains[i])
    ensures NUL !in Block(domains)
  {
    EntriesClean(domains);
    MarkerPlain();
    hide Domains.IsNormal;
    hide Entries;
  }

  /** The user's text: no marker in it, no NUL. */
  ghost predicate UserText(u: string) {
    NUL !in u && forall i | 0 <= i <= |u| :: !OccursAt(u, MARKER, i)
  }

  function Stripped(u: string): string { Domains.DropTrailing(u, IsNewline) }

  lemma UserTextPrefix(u: string, b: string)
    requires UserText(u) && b <= u
    ensures UserText(b)
  {
    forall i | 0 <= i <= |b| ensures !OccursAt(b, MARKER, i) {
      if i + |MARKER| <= |b| {
        assert b[i..i + |MARKER|] == u[i..i + |MARKER|];
        assert !OccursAt(u, MARKER, i);
      }
    }
    assert forall i | 0 <= i < |b| :: b[i] in u;
  }

  lemma UserTextHasNoMarker(u: string)
    requires UserText(u)
    ensures MarkerAt(u).None? && Base(u) == Stripped(u)
  {
    hide OccursAt;
    CStrOfClean(u);
    FindNone(u, MARKER, 0);
  }

  /** Behind user text, the block's marker is the first. */
  lemma MarkerOfBlock(b: string, domains: seq<string>)
    requires UserText(b) && forall i | 0 <= i < |domains| :: Domains.IsNormal(domains[i])
    ensures MarkerAt(b + Block(domains)) == Some(|b| + 2)
  {
    var s := b + Block(domains);
    BlockClean(domains);
    assert NUL !in s;
    BlockHoldsMarker(b, domains);
    forall i | 0 <= i < |b| + 2 ensures !OccursAt(s, MARKER, i) {
      MarkerNotBefore(b, s, i);
    }
    hide *;
    CStrOfClean(s);
    FindIs(s, MARKER, 0, |b| + 2);
    MarkerAtOf(s, |b| + 2);
  }

  lemma MarkerAtOf(s: string, at: nat)
    requires CStr(s) == s && Find(s, MARKER, 0) == Some(at)
    ensures MarkerAt(s) == Some(at)
  {
  }

  lemma BlockHoldsMarker(b: string, domains: seq<string>)
    ensures OccursAt(b + Block(domains), MARKER, |b| + 2) && b + "\n\n" <= b + Block(domains)
  {
    hide Entries;
    hide MARKER;
    var tail := "\n" + Entries(domains) + "\n";
    assert b + Block(domains) == (b + "\n\n") + MARKER + tail;
    OccursBetween(b + "\n\n", MARKER, tail);
  }

  lemma MarkerNotBefore(b: string, s: string, i: nat)
    requires UserText(b) && b + "\n\n" <= s && i < |b| + 2
    ensures !OccursAt(s, MARKER, i)
  {
    MarkerPlain();
    if i >= |b| {
      OccursChar(s, MARKER, i, 0);
      assert s[i] == (b + "\n\n")[i] == NL;
    } else if i + |MARKER| <= |b| {
      assert s[i..i + |MARKER|] == b[i..i + |MARKER|];
      assert !OccursAt(b, MARKER, i);
    } else {
      OccursChar(s, MARKER, i, |b| - i);
      assert s[|b|] == (b + "\n\n")[|b|] == NL;
      assert MARKER[|b| - i] in MARKER;
    }
  }

  lemma StripIdempotent(b: string)
    requires b == "" || b[|b| - 1] != NL
    ensures Stripped(b) == b && Stripped(b + [NL]) == b && Stripped(b + "\n\n") == b
  {
    assert (b + [NL])[..|b|] == b;
    assert (b + "\n\n")[..|b| + 1] == b + [NL];
  }

  /** What the file can hold: the user's text untouched, or its stripped form under a newline or a block. */
  datatype Content = Untouched | Cleared | Blocked(domains: seq<string>)

  function Bytes(u: string, c: Content): string {
    match c
    case Untouched => u
    case Cleared => Stripped(u) + [NL]
    case Blocked(domains) => Stripped(u) + Block(domains)
  }

  ghost predicate ContentValid(u: string, c: Content) {
    match c
    case Untouched => true
    case Cleared => true
    case Blocked(domains) => domains != [] && forall i | 0 <= i < |domains| :: Domains.IsNormal(domains[i])
  }

  lemma StrippedShape(u: string)
    requires UserText(u)
    ensures UserText(Stripped(u)) && UserText(Stripped(u) + [NL])
    ensures Stripped(u) == "" || Stripped(u)[|Stripped(u)| - 1] != NL
  {
    Domains.DropTrailingMeans(u, IsNewline);
    var b := Stripped(u);
    UserTextPrefix(u, b);
    MarkerPlain();
    forall i | 0 <= i <= |b| + 1 ensures !OccursAt(b + [NL], MARKER, i) {
      if i + |MARKER| <= |b| {
        assert (b + [NL])[i..i + |MARKER|] == b[i..i + |MARKER|];
        assert !OccursAt(b, MARKER, i);
      } else if i <= |b| {
        OccursChar(b + [NL], MARKER, i, |b| - i);
        assert |b| - i < |MARKER| ==> MARKER[|b| - i] in MARKER;
      }
    }
  }

  /** Whatever the file has been through, its base is the user's text without newlines at the end. */
  lemma BaseIsStripped(u: string, c: Content)
    requires UserText(u) && ContentValid(u, c)
    ensures Base(Bytes(u, c)) == Stripped(u)
    ensures MarkerAt(Bytes(u, c)).Some? <==> c.Blocked?
  {
    var b := Stripped(u);
    StrippedShape(u);
    StripIdempotent(b);
    match c
    case Untouched => UserTextHasNoMarker(u);
    case Cleared => UserTextHasNoMarker(b + [NL]);
    case Blocked(domains) =>
      MarkerOfBlock(b, domains);
      hide MarkerAt;
      assert (b + Block(domains))[..|b| + 2] == b + "\n\n";
  }

  datatype HostsOp = DoUpdate(domains: seq<string>) | DoClear

  function Apply(file: string, op: HostsOp): string {
    match op
    case DoUpdate(domains) => Update(file, domains)
    case DoClear => Clear(file)
  }

  ghost predicate OpValid(op: HostsOp) {
    op.DoUpdate? ==> forall i | 0 <= i < |op.domains| :: Domains.IsNormal(op.domains[i])
  }

  /** What one operation makes of the content; a file over the size limit is left as it is. */
  function Next(u: string, c: Content, op: HostsOp): Content {
    if |Bytes(u, c)| > HOSTS_MAX_SIZE then c
    else if op.DoUpdate? && op.domains != [] then Blocked(op.domains)
    else if c.Blocked? then Cleared
    else c
  }

  lemma ApplyIsNext(u: string, c: Content, op: HostsOp)
    requires UserText(u) && ContentValid(u, c) && OpValid(op)
    ensures Apply(Bytes(u, c), op) == Bytes(u, Next(u, c, op)) && ContentValid(u, Next(u, c, op))
  {
    BaseIsStripped(u, c);
    hide Base;
    hide MarkerAt;
    hide Block;
    hide Stripped;
  }

  function ApplyAll(file: string, ops: seq<HostsOp>): string {
    if ops == [] then file else Apply(ApplyAll(file, ops[..|ops| - 1]), ops[|ops| - 1])
  }

  /** What a sequence of operations leaves: each acts on the last one's result, if that can still be read. */
  function Left(u: string, ops: seq<HostsOp>): Content {
    if ops == [] then Untouched else Next(u, Left(u, ops[..|ops| - 1]), ops[|ops| - 1])
  }

  /**
   After any sequence of operations, whatever the sizes, the file is the user's text in one of its three
   forms: untouched, cleared, or with one block under it; nothing is lost or doubled.
   */
  lemma {:induction false} RunKeepsUserText(u: string, ops: seq<HostsOp>)
    requires UserText(u)
    requires forall n | 0 <= n < |ops| :: OpValid(ops[n])
    ensures ApplyAll(u, ops) == Bytes(u, Left(u, ops)) && ContentValid(u, Left(u, ops))
  {
    hide Apply;
    hide Bytes;
    hide Next;
    hide OpValid;
    hide ContentValid;
    hide UserText;
    if ops == [] {
      NothingDone(u);
    } else {
      var init := ops[..|ops| - 1];
      RunKeepsUserText(u, init);
      ApplyIsNext(u, Left(u, init), ops[|ops| - 1]);
    }
  }

  lemma NothingDone(u: string)
    ensures Bytes(u, Untouched) == u && ContentValid(u, Untouched)
  {
  }

  /** The last update with any domains that no later operation without domains took back. */
  function Latest(ops: seq<HostsOp>): Content {
    if ops == [] then Untouched else
      var op := ops[|ops| - 1];
      var before := Latest(ops[..|ops| - 1]);
      if op.DoUpdate? && op.domains != [] then Blocked(op.domains)
      else if before.Blocked? then Cleared
      else before
  }

  /** The size of the block of a full list of domains of full length. */
  const MAX_BLOCK: nat := 2 + |MARKER| + 1 + 1 + Domains.MAX_DOMAINS * (4 * (Domains.MAX_DOMAIN_LEN - 1) + 34)

  /** The user's text leaves room for any block. */
  predicate Roomy(u: string) { |u| <= HOSTS_MAX_SIZE && |Stripped(u)| + MAX_BLOCK <= HOSTS_MAX_SIZE }

  lemma {:induction false} EntriesLength(domains: seq<string>)
    requires forall i | 0 <= i < |domains| :: Domains.IsNormal(domains[i])
    ensures |Entries(domains)| <= |domains| * (4 * 255 + 34)
  {
    hide Entry;
    hide Domains.IsNormal;
    if domains != [] {
      var init, last := domains[..|domains| - 1], domains[|domains| - 1];
      EntriesLength(init);
      EntryLength(last);
      assert Entries(domains) == Entries(init) + Entry(last);
      hide Entries;
    }
  }

  lemma EntryLength(d: string)
    requires Domains.IsNormal(d)
    ensures |Entry(d)| <= 4 * 255 + 34
  {
  }

  lemma BlockLength(domains: seq<string>)
    requires |domains| <= Domains.MAX_DOMAINS && forall i | 0 <= i < |domains| :: Domains.IsNormal(domains[i])
    ensures |Block(domains)| <= MAX_BLOCK
  {
    EntriesLength(domains);
    hide Entries;
    hide Domains.IsNormal;
  }

  /** No block is longer than the module's limits allow. */
  ghost predicate Limited(c: Content) { c.Blocked? ==> |c.domains| <= Domains.MAX_DOMAINS }

  lemma RoomyReadable(u: string, c: Content)
    requires Roomy(u) && ContentValid(u, c) && Limited(c)
    ensures |Bytes(u, c)| <= HOSTS_MAX_SIZE
  {
    if c.Blocked? {
      BlockLength(c.domains);
    }
    hide Block;
    hide Stripped;
    hide Domains.IsNormal;
  }

  /** When the user's text leaves room, the file always carries the latest block. */
  lemma {:induction false} RunKeepsLatest(u: string, ops: seq<HostsOp>)
    requires UserText(u) && Roomy(u)
    requires forall n | 0 <= n < |ops| :: OpValid(ops[n])
    requires forall n | 0 <= n < |ops| && ops[n].DoUpdate? :: |ops[n].domains| <= Domains.MAX_DOMAINS
    ensures ApplyAll(u, ops) == Bytes(u, Latest(ops)) && Left(u, ops) == Latest(ops) && Limited(Latest(ops))
  {
    hide ApplyAll;
    hide Bytes;
    hide OpValid;
    hide ContentValid;
    hide UserText;
    hide Roomy;
    RunKeepsUserText(u, ops);
    if ops != [] {
      var init := ops[..|ops| - 1];
      RunKeepsLatest(u, init);
      RunKeepsUserText(u, init);
      RoomyReadable(u, Latest(init));
    }
  }

  /** Updating twice with the same list changes nothing the second time. */
  lemma UpdateIdempotent(u: string, domains: seq<string>)
    requires UserText(u) && forall i | 0 <= i < |domains| :: Domains.IsNormal(domains[i])
    ensures Update(Update(u, domains), domains) == Update(u, domains)
  {
    var op := DoUpdate(domains);
    ApplyIsNext(u, Untouched, op);
    ApplyIsNext(u, Next(u, Untouched, op), op);
  }

  /**
   Clearing after an update gives the user's text back byte for byte exactly when that text ended in
   one newline and the file with the block in it is still within the size the module reads.
   */
  lemma ClearRestoresIff(u: string, domains: seq<string>)
    requires UserText(u) && |u| <= HOSTS_MAX_SIZE && domains != []
    requires forall i | 0 <= i < |domains| :: Domains.IsNormal(domains[i])
    ensures Clear(Update(u, domains)) == u
       <==> u == Stripped(u) + [NL] && |Stripped(u)| + |Block(domains)| <= HOSTS_MAX_SIZE
  {
    ApplyIsNext(u, Untouched, DoUpdate(domains));
    ApplyIsNext(u, Blocked(domains), DoClear);
    Domains.DropTrailingMeans(u, IsNewline);
    BaseIsStripped(u, Untouched);
    BaseIsStripped(u, Blocked(domains));
    hide Block;
    hide MarkerAt;
  }

  function Letters(n: nat): (s: string)
    ensures |s| == n && forall i | 0 <= i < n :: s[i] == 'a'
  {
    seq(n, i => 'a')
  }

  /** The largest file the module reads: one line of letters. */
  function FullFile(): string { Letters(HOSTS_MAX_SIZE - 1) + [NL] }

  lemma FullFileIs()
    ensures UserText(FullFile()) && Stripped(FullFile()) == Letters(HOSTS_MAX_SIZE - 1)
    ensures |FullFile()| == HOSTS_MAX_SIZE && FullFile() == Stripped(FullFile()) + [NL]
  {
    var letters := Letters(HOSTS_MAX_SIZE - 1);
    var u := FullFile();
    MarkerPlain();
    forall i | 0 <= i <= |u| ensures !OccursAt(u, MARKER, i) {
      OccursChar(u, MARKER, i, 0);
    }
    assert letters[|letters| - 1] == 'a';
    StripIdempotent(letters);
    hide Letters;
  }

  /** A file that is updated but, with the block in it, too large to be cleared again. */
  lemma ClearCanFail(domains: seq<string>)
    requires domains != [] && forall i | 0 <= i < |domains| :: Domains.IsNormal(domains[i])
    ensures var u := FullFile(); var blocked := Update(u, domains);
      && UserText(u) && u == Stripped(u) + [NL]
      && blocked == Stripped(u) + Block(domains) && blocked != u && Clear(blocked) == blocked
  {
    hide Stripped;
    hide Letters;
    hide Domains.IsNormal;
    hide UserText;
    var u := FullFile();
    FullFileIs();
    BaseOfFull();
    hide FullFile;
    hide Base;
    assert |Block(domains)| > 2;
    hide Block;
  }

  lemma BaseOfFull()
    ensures Base(FullFile()) == Stripped(FullFile())
  {
    FullFileIs();
    hide FullFile;
    hide Stripped;
    hide UserText;
    UserTextHasNoMarker(FullFile());
  }
}
