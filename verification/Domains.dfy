/**
 Domain names (src/parse.c): normalisation of what the user writes, and the test whether a host name
 is a blocked domain or below one.
 */
module Domains {
  import opened Wrappers
  import opened Strings

  const MAX_DOMAIN_LEN: nat := 256
  const MAX_DOMAINS: nat := 64

  predicate IsSpace(c: char) { c == ' ' || '\t' <= c <= '\r' }

  predicate IsDot(c: char) { c == '.' }

  function ToLower(c: char): char {
    if 'A' <= c <= 'Z' then (c as int - 'A' as int + 'a' as int) as char else c
  }

  predicate IsDomainChar(c: char) {
    var l := ToLower(c);
    'a' <= l <= 'z' || IsDigit(l) || l == '-' || l == '.' || l == '_'
  }

  function Lower(s: string): (r: string)
    ensures |r| == |s| && forall i | 0 <= i < |s| :: r[i] == ToLower(s[i])
  {
    if s == "" then "" else [ToLower(s[0])] + Lower(s[1..])
  }

  function DropLeading(s: string, drop: char -> bool): (r: string)
    ensures |r| <= |s|
  {
    if s != "" && drop(s[0]) then DropLeading(s[1..], drop) else s
  }

  function DropTrailing(s: string, drop: char -> bool): (r: string)
    ensures |r| <= |s|
  {
    if s != "" && drop(s[|s| - 1]) then DropTrailing(s[..|s| - 1], drop) else s
  }

  /** What is left after dropping is the rest of the text from its first (up to its last) kept character. */
  lemma {:induction false} DropLeadingMeans(s: string, drop: char -> bool)
    ensures var r := DropLeading(s, drop);
      && r == s[|s| - |r|..]
      && (r != "" ==> !drop(r[0]))
      && forall i | 0 <= i < |s| - |r| :: drop(s[i])
  {
    if s != "" && drop(s[0]) {
      DropLeadingMeans(s[1..], drop);
      assert forall i | 1 <= i < |s| :: s[i] == s[1..][i - 1];
    }
  }

  lemma {:induction false} DropTrailingMeans(s: string, drop: char -> bool)
    ensures var r := DropTrailing(s, drop);
      && r <= s
      && (r != "" ==> !drop(r[|r| - 1]))
      && forall i | |r| <= i < |s| :: drop(s[i])
  {
    if s != "" && drop(s[|s| - 1]) {
      DropTrailingMeans(s[..|s| - 1], drop);
    }
  }

  function Trim(s: string, drop: char -> bool): string {
    DropTrailing(DropLeading(s, drop), drop)
  }

  function StripWildcard(s: string): string {
    if "*." <= s then s[2..] else s
  }

  predicate AllDomainChars(s: string) { forall i | 0 <= i < |s| :: IsDomainChar(s[i]) }

  /**
   What a domain line means: surrounding blanks, one "*." and surrounding dots removed, lower-cased;
   nothing if that is empty, too long, or holds a character domain names do not have.
   */
  function Normalize(s: string): Option<string> {
    var d := Trim(StripWildcard(Trim(s, IsSpace)), IsDot);
    if 0 < |d| < MAX_DOMAIN_LEN && AllDomainChars(d) then Some(Lower(d)) else None
  }

  /** The shape of every stored domain: short, lower-case, no dot at either end. */
  predicate IsNormal(d: string) {
    && 0 < |d| < MAX_DOMAIN_LEN
    && (forall i | 0 <= i < |d| :: IsDomainChar(d[i]) && ToLower(d[i]) == d[i])
    && d[0] != '.' && d[|d| - 1] != '.'
  }

  lemma NormalizeYieldsNormal(s: string)
    requires Normalize(s).Some?
    ensures IsNormal(Normalize(s).value)
  {
    var d := Trim(StripWildcard(Trim(s, IsSpace)), IsDot);
    var l := Lower(d);
    var undotted := DropLeading(StripWildcard(Trim(s, IsSpace)), IsDot);
    DropLeadingMeans(StripWildcard(Trim(s, IsSpace)), IsDot);
    DropTrailingMeans(undotted, IsDot);
    assert d[0] == undotted[0];
    assert forall i | 0 <= i < |l| :: l[i] == ToLower(d[i]) && IsDomainChar(d[i]);
  }

  lemma TrimKeeps(s: string, drop: char -> bool)
    requires s != "" ==> !drop(s[0]) && !drop(s[|s| - 1])
    ensures Trim(s, drop) == s
  {
  }

  lemma LowerKeeps(s: string)
    requires forall i | 0 <= i < |s| :: ToLower(s[i]) == s[i]
    ensures Lower(s) == s
  {
  }

  /** Stored domains are exactly the fixpoints of normalisation. */
  lemma NormalIffFixpoint(d: string)
    ensures IsNormal(d) <==> Normalize(d) == Some(d)
  {
    if IsNormal(d) {
      assert IsDomainChar(d[0]) && IsDomainChar(d[|d| - 1]);
      TrimKeeps(d, IsSpace);
      assert StripWildcard(d) == d;
      TrimKeeps(d, IsDot);
      LowerKeeps(d);
    }
    if Normalize(d) == Some(d) {
      NormalizeYieldsNormal(d);
    }
  }

  // ---- Matching ----

  /** `host` is `blocked` or a name below it, ignoring ASCII case. */
  predicate IsUnder(host: string, blocked: string) {
    || Lower(host) == Lower(blocked)
    || (|host| > |blocked| && Lower(host)[|host| - |blocked| - 1..] == "." + Lower(blocked))
  }

  /** kb_domain_matches: compares the last |blocked| characters, then looks at the one before them. */
  method DomainMatches(host: string, blocked: string) returns (found: bool)
    ensures found <==> blocked != "" && IsUnder(host, blocked)
  {
    var blen, hlen := |blocked|, |host|;
    if blen == 0 || hlen < blen {
      return false;
    }
    var i := 0;
    while i < blen
      invariant 0 <= i <= blen
      invariant forall k | 0 <= k < i :: ToLower(host[hlen - blen + k]) == ToLower(blocked[k])
    {
      if ToLower(host[hlen - blen + i]) != ToLower(blocked[i]) {
        assert Lower(host)[hlen - blen + i] != Lower(blocked)[i];
        assert hlen > blen ==> (Lower(host)[hlen - blen - 1..])[i + 1] == Lower(host)[hlen - blen + i];
        assert hlen > blen ==> ("." + Lower(blocked))[i + 1] == Lower(blocked)[i];
        return false;
      }
      i := i + 1;
    }
    if hlen > blen {
      var suffix := Lower(host)[hlen - blen - 1..];
      assert suffix[0] == ToLower(host[hlen - blen - 1]);
      assert suffix[1..] == Lower(blocked);
      assert suffix == [suffix[0]] + suffix[1..];
      assert ("." + Lower(blocked))[0] == '.';
    }
    return hlen == blen || host[hlen - blen - 1] == '.';
  }

  /** domain_list_contains: trailing dots do not count, and any listed domain may match. */
  ghost predicate Listed(hostname: string, domains: seq<string>) {
    exists i | 0 <= i < |domains| :: domains[i] != "" && IsUnder(DropTrailing(hostname, IsDot), domains[i])
  }

  method DomainListContains(hostname: string, domains: seq<string>) returns (found: bool)
    ensures found <==> Listed(hostname, domains)
  {
    hide IsUnder;
    var hlen := UndottedLength(hostname);
    found := false;
    var i := 0;
    while i < |domains| && !found
      invariant 0 <= i <= |domains|
      invariant found <==> exists k | 0 <= k < i :: domains[k] != "" && IsUnder(hostname[..hlen], domains[k])
    {
      found := DomainMatches(hostname[..hlen], domains[i]);
      i := i + 1;
    }
  }

  method UndottedLength(hostname: string) returns (hlen: nat)
    ensures hlen <= |hostname| && hostname[..hlen] == DropTrailing(hostname, IsDot)
  {
    hlen := |hostname|;
    assert hostname[..hlen] == hostname;
    while hlen > 0 && hostname[hlen - 1] == '.'
      invariant 0 <= hlen <= |hostname|
      invariant DropTrailing(hostname[..hlen], IsDot) == DropTrailing(hostname, IsDot)
    {
      assert hostname[..hlen][..hlen - 1] == hostname[..hlen - 1];
      hlen := hlen - 1;
    }
  }

  // ---- In place ----

  /** A NUL-terminated text of the given length lies at `at`. */
  ghost predicate Holds(buf: array<char>, at: nat, text: string)
    reads buf
  {
    && at + |text| < buf.Length
    && (forall i | 0 <= i < |text| :: buf[at + i] == text[i] != NUL)
    && buf[at + |text|] == NUL
  }

  /** It is what a caller reads there as a C string. */
  lemma HoldsCStr(buf: array<char>, at: nat, text: string)
    requires Holds(buf, at, text)
    ensures CStr(buf[at..]) == text
  {
    assert buf[at..at + |text|] == text;
    CStrUpTo(text, buf[at + |text| + 1..]);
    CStrOfClean(text);
    assert buf[at..] == text + [NUL] + buf[at + |text| + 1..];
  }

  lemma HoldsRest(buf: array<char>, at: nat, text: string)
    requires Holds(buf, at, text) && text != ""
    ensures Holds(buf, at + 1, text[1..])
  {
    forall i | 0 <= i < |text| - 1 ensures buf[at + 1 + i] == text[1..][i] != NUL {
      assert buf[at + (i + 1)] == text[i + 1];
    }
  }

  /** while (drop(*d)) d++ */
  method SkipLeading(buf: array<char>, start: nat, drop: char -> bool, ghost text: string) returns (d: nat)
    requires Holds(buf, start, text) && !drop(NUL)
    ensures d == start + |text| - |DropLeading(text, drop)|
    ensures Holds(buf, d, DropLeading(text, drop))
  {
    d := start;
    ghost var rest := text;
    assert rest != "" ==> rest[0] == buf[d + 0];
    while drop(buf[d])
      invariant Holds(buf, d, rest) && d + |rest| == start + |text|
      invariant rest != "" ==> rest[0] == buf[d]
      invariant DropLeading(rest, drop) == DropLeading(text, drop)
      decreases |rest|
    {
      HoldsRest(buf, d, rest);
      rest := rest[1..];
      d := d + 1;
      assert rest != "" ==> rest[0] == buf[d + 0];
    }
  }

  /** while (len && drop(d[len - 1])) d[--len] = 0 */
  method CutTrailing(buf: array<char>, d: nat, drop: char -> bool, ghost text: string, length: nat) returns (len: nat)
    requires Holds(buf, d, text) && length == |text|
    modifies buf
    ensures len == |DropTrailing(text, drop)| && Holds(buf, d, DropTrailing(text, drop))
    ensures forall k | 0 <= k < d :: buf[k] == old(buf[k])
  {
    len := length;
    ghost var rest := text;
    while len > 0 && drop(buf[d + len - 1])
      invariant len == |rest| && Holds(buf, d, rest)
      invariant DropTrailing(rest, drop) == DropTrailing(text, drop)
      invariant forall k | 0 <= k < d :: buf[k] == old(buf[k])
    {
      assert rest[len - 1] == buf[d + (len - 1)];
      rest := rest[..len - 1];
      len := len - 1;
      buf[d + len] := NUL;
    }
    assert len > 0 ==> rest[len - 1] == buf[d + (len - 1)];
  }

  /** The last loop: give up at the first foreign character, lower-case the others where they are. */
  method LowerInPlace(buf: array<char>, d: nat, ghost text: string) returns (ok: bool)
    requires Holds(buf, d, text)
    modifies buf
    ensures ok == AllDomainChars(text)
    ensures ok ==> Holds(buf, d, Lower(text))
    ensures forall k | 0 <= k < d :: buf[k] == old(buf[k])
  {
    var p := 0;
    assert p < |text| ==> buf[d + p] == text[p];
    while buf[d + p] != NUL
      invariant 0 <= p <= |text| && buf[d + |text|] == NUL
      invariant p < |text| ==> buf[d + p] != NUL
      invariant forall k | 0 <= k < p :: buf[d + k] == ToLower(text[k]) && IsDomainChar(text[k])
      invariant forall k | p <= k < |text| :: buf[d + k] == text[k] != NUL
      invariant forall k | 0 <= k < d :: buf[k] == old(buf[k])
      decreases |text| - p
    {
      assert buf[d + p] == text[p];
      if !IsDomainChar(buf[d + p]) {
        return false;
      }
      buf[d + p] := ToLower(buf[d + p]);
      p := p + 1;
      assert p < |text| ==> buf[d + p] == text[p];
    }
    return true;
  }

  /**
   kb_normalize_domain on the caller's buffer: blanks and dots at the end are overwritten with NULs,
   letters lower-cased in place, and the result is where the name now starts.
   */
  method NormalizeInPlace(buf: array<char>, start: nat, ghost text: string) returns (r: Option<nat>)
    requires Holds(buf, start, text)
    modifies buf
    ensures match Normalize(text)
            case None => r.None?
            case Some(name) => r.Some? && start <= r.value < buf.Length && CStr(buf[r.value..]) == name
    ensures forall k | 0 <= k < start :: buf[k] == old(buf[k])
  {
    var d := SkipLeading(buf, start, IsSpace, text);
    ghost var led := DropLeading(text, IsSpace);
    var len := StrLen(buf, d, led);
    len := CutTrailing(buf, d, IsSpace, led, len);
    d, len := SkipWildcard(buf, d, Trim(text, IsSpace), len);
    r := UndotAndLower(buf, d, StripWildcard(Trim(text, IsSpace)), len);
    if r.Some? {
      HoldsCStr(buf, r.value, Normalize(text).value);
    }
  }

  /** The second half: dots off both ends, then the checks on length and alphabet. */
  method UndotAndLower(buf: array<char>, start: nat, ghost text: string, length: nat) returns (r: Option<nat>)
    requires Holds(buf, start, text) && length == |text|
    modifies buf
    ensures var name := Trim(text, IsDot);
      if 0 < |name| < MAX_DOMAIN_LEN && AllDomainChars(name)
      then r.Some? && r.value >= start && Holds(buf, r.value, Lower(name))
      else r.None?
    ensures forall k | 0 <= k < start :: buf[k] == old(buf[k])
  {
    var d := SkipLeading(buf, start, IsDot, text);
    var len := CutTrailing(buf, d, IsDot, DropLeading(text, IsDot), length - (d - start));
    ghost var name := Trim(text, IsDot);
    if len == 0 || len >= MAX_DOMAIN_LEN {
      return None;
    }
    var ok := LowerInPlace(buf, d, name);
    return if ok then Some(d) else None;
  }

  method SkipWildcard(buf: array<char>, start: nat, ghost text: string, length: nat) returns (d: nat, len: nat)
    requires Holds(buf, start, text) && length == |text|
    ensures start <= d && len == |StripWildcard(text)| && Holds(buf, d, StripWildcard(text))
  {
    d, len := start, length;
    assert text != "" ==> text[0] == buf[start + 0];
    assert |text| > 1 ==> text[1] == buf[start + 1] && (("*." <= text) <==> text[0] == '*' && text[1] == '.');
    if buf[d] == '*' && buf[d + 1] == '.' {
      assert forall i | 0 <= i < |text| - 2 :: text[2..][i] == text[i + 2] == buf[start + (i + 2)];
      d, len := d + 2, len - 2;
    }
  }

  method StrLen(buf: array<char>, at: nat, ghost text: string) returns (len: nat)
    requires Holds(buf, at, text)
    ensures len == |text|
  {
    len := 0;
    assert len < |text| ==> buf[at + len] == text[len];
    while buf[at + len] != NUL
      invariant 0 <= len <= |text| && (len < |text| ==> buf[at + len] != NUL)
      decreases |text| - len
    {
      len := len + 1;
      assert len < |text| ==> buf[at + len] == text[len];
    }
  }
}
