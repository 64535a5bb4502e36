/**
 The ways to write a domain: what kb_normalize_domain (src/parse.c) accepts, and as which name, put as the
 shape of the text instead of as the order of its loops; and which host names a domain stands for, by labels.
 */
module Spelling {
  import opened Wrappers
  import opened Strings
  import opened Domains

  /** Blanks, a wildcard, dots, the name in any case, dots, blanks. */
  datatype Parts = Parts(before: string, wildcard: string, dots: string, name: string, dotsAfter: string, after: string)

  function Assemble(w: Parts): string { w.before + ((w.wildcard + (w.dots + w.name + w.dotsAfter)) + w.after) }

  /** Each part is what it is called, the name is d but for its case, and `blank` may follow at the end. */
  ghost predicate Spells(w: Parts, d: string, blank: char -> bool) {
    && Only(w.before, IsSpace) && (w.wildcard == "" || w.wildcard == "*.") && Only(w.dots, IsDot)
    && Lower(w.name) == d && Only(w.dotsAfter, IsDot) && Only(w.after, blank)
  }

  ghost predicate Spelled(s: string, d: string, blank: char -> bool) {
    exists w: Parts :: Spells(w, d, blank) && s == Assemble(w)
  }

  lemma {:induction false} LeadingDropped(a: string, rest: string, drop: char -> bool)
    requires Only(a, drop) && (rest != "" ==> !drop(rest[0]))
    ensures DropLeading(a + rest, drop) == rest
  {
    if a == "" {
      assert a + rest == rest;
    } else {
      assert (a + rest)[1..] == a[1..] + rest;
      LeadingDropped(a[1..], rest, drop);
    }
  }

  lemma {:induction false} TrailingDropped(rest: string, b: string, drop: char -> bool)
    requires Only(b, drop) && (rest != "" ==> !drop(rest[|rest| - 1]))
    ensures DropTrailing(rest + b, drop) == rest
  {
    if b == "" {
      assert rest + b == rest;
    } else {
      var init := b[..|b| - 1];
      assert (rest + b)[..|rest + b| - 1] == rest + init;
      TrailingDropped(rest, init, drop);
    }
  }

  lemma Trimmed(a: string, mid: string, b: string, drop: char -> bool)
    requires Only(a, drop) && Only(b, drop) && mid != "" && !drop(mid[0]) && !drop(mid[|mid| - 1])
    ensures Trim(a + (mid + b), drop) == mid
  {
    LeadingDropped(a, mid + b, drop);
    TrailingDropped(mid, b, drop);
  }

  /** Trimming takes a text apart into what was dropped and what is left. */
  lemma TrimParts(s: string, drop: char -> bool) returns (a: string, b: string)
    ensures s == a + (Trim(s, drop) + b) && Only(a, drop) && Only(b, drop)
  {
    var rest := DropLeading(s, drop);
    DropLeadingMeans(s, drop);
    DropTrailingMeans(rest, drop);
    a, b := s[..|s| - |rest|], rest[|Trim(s, drop)|..];
    assert rest == Trim(s, drop) + b && s == a + rest;
  }

  /** A name in any case has no dot at its ends when its normal form has none. */
  lemma NameEnds(name: string, d: string)
    requires Lower(name) == d && IsNormal(d)
    ensures |name| == |d| && AllDomainChars(name) && name != ""
    ensures name[0] != '.' && name[|name| - 1] != '.'
  {
    forall i | 0 <= i < |name| ensures IsDomainChar(name[i]) {
      assert IsDomainChar(d[i]) && d[i] == ToLower(name[i]) && ToLower(d[i]) == d[i];
    }
    assert d[0] == ToLower(name[0]) && d[|d| - 1] == ToLower(name[|name| - 1]);
  }

  lemma SpellingNormalizes(w: Parts, d: string)
    requires IsNormal(d) && Spells(w, d, IsSpace)
    ensures Normalize(Assemble(w)) == Some(d)
  {
    NameEnds(w.name, d);
    DottedEnds(w, d);
    assert |w.name| < MAX_DOMAIN_LEN;
    assert Only(w.before, IsSpace) && Only(w.after, IsSpace) && Only(w.dots, IsDot) && Only(w.dotsAfter, IsDot);
    assert (w.wildcard == "" || w.wildcard == "*.") && Lower(w.name) == d;
    assert !IsDot(w.name[0]) && !IsDot(w.name[|w.name| - 1]);
    hide *;
    var dotted := w.dots + w.name + w.dotsAfter;
    var whole := w.wildcard + dotted;
    Trimmed(w.before, whole, w.after, IsSpace);
    WildcardStripped(w.wildcard, dotted);
    assert dotted == w.dots + (w.name + w.dotsAfter);
    Trimmed(w.dots, w.name, w.dotsAfter, IsDot);
    AssembleIs(w);
    NormalizeBySteps(Assemble(w), whole, dotted, w.name);
  }

  lemma AssembleIs(w: Parts)
    ensures Assemble(w) == w.before + ((w.wildcard + (w.dots + w.name + w.dotsAfter)) + w.after)
  {
  }

  lemma WildcardStripped(wildcard: string, dotted: string)
    requires (wildcard == "" || wildcard == "*.") && !("*." <= dotted)
    ensures StripWildcard(wildcard + dotted) == dotted
  {
    if wildcard == "" { assert wildcard + dotted == dotted; } else { assert (wildcard + dotted)[2..] == dotted; }
  }

  lemma NormalizeBySteps(s: string, whole: string, dotted: string, name: string)
    requires Trim(s, IsSpace) == whole && StripWildcard(whole) == dotted && Trim(dotted, IsDot) == name
    requires 0 < |name| < MAX_DOMAIN_LEN && AllDomainChars(name)
    ensures Normalize(s) == Some(Lower(name))
  {
  }

  /** Neither end of what lies between the blanks is a blank, and without a wildcard it does not begin with one. */
  lemma DottedEnds(w: Parts, d: string)
    requires Spells(w, d, IsSpace) && AllDomainChars(w.name) && w.name != ""
    ensures var dotted := w.dots + w.name + w.dotsAfter; var whole := w.wildcard + dotted;
      whole != "" && !IsSpace(whole[0]) && !IsSpace(whole[|whole| - 1]) && !("*." <= dotted)
  {
    var dotted := w.dots + w.name + w.dotsAfter;
    var whole := w.wildcard + dotted;
    assert dotted[0] == if w.dots != "" then w.dots[0] else w.name[0];
    assert dotted[|dotted| - 1] == if w.dotsAfter != "" then w.dotsAfter[|w.dotsAfter| - 1] else w.name[|w.name| - 1];
    assert whole[|whole| - 1] == dotted[|dotted| - 1];
    assert IsDomainChar(w.name[0]) && IsDomainChar(w.name[|w.name| - 1]);
  }

  lemma NormalizedSpells(s: string) returns (w: Parts)
    requires Normalize(s).Some?
    ensures Spells(w, Normalize(s).value, IsSpace) && s == Assemble(w)
  {
    var whole := Trim(s, IsSpace);
    var dotted := StripWildcard(whole);
    var before, after := TrimParts(s, IsSpace);
    var dots, dotsAfter := TrimParts(dotted, IsDot);
    var wildcard := if "*." <= whole then "*." else "";
    w := Parts(before, wildcard, dots, Trim(dotted, IsDot), dotsAfter, after);
    hide Trim;
    assert whole == wildcard + dotted;
    assert dotted == w.dots + w.name + w.dotsAfter;
  }

  /** A text is accepted as a domain exactly when it spells it. */
  lemma NormalizeIff(s: string, d: string)
    ensures Normalize(s) == Some(d) <==> IsNormal(d) && Spelled(s, d, IsSpace)
  {
    if Normalize(s) == Some(d) {
      NormalizeYieldsNormal(s);
      var w := NormalizedSpells(s);
    }
    if IsNormal(d) && Spelled(s, d, IsSpace) {
      var w: Parts :| Spells(w, d, IsSpace) && s == Assemble(w);
      SpellingNormalizes(w, d);
    }
    hide Normalize;
    hide IsNormal;
    hide Spells;
    hide Assemble;
  }

  /** The characters of names, and which of them have another case. */
  lemma NameChars(c: char)
    ensures IsDomainChar(c)
       <==> 'a' <= c <= 'z' || 'A' <= c <= 'Z' || '0' <= c <= '9' || c == '-' || c == '.' || c == '_'
    ensures if 'A' <= c <= 'Z' then ToLower(c) as int == c as int + 32 else ToLower(c) == c
  {
  }

  // ---- What matching means ----

  /** The labels of a name, without regard to case. */
  function Labels(name: string): seq<string> { Split(Lower(name), '.') }

  /** The labels of one name end with those of the other. */
  ghost predicate LabelsEnd(host: string, blocked: string) {
    var h, b := Labels(host), Labels(blocked);
    |b| <= |h| && h[|h| - |b|..] == b
  }

  /** A name is the blocked one or below it exactly when its labels end with that one's: "notexample.org" is not. */
  lemma UnderIff(host: string, blocked: string)
    ensures IsUnder(host, blocked) <==> LabelsEnd(host, blocked)
  {
    if IsUnder(host, blocked) {
      UnderEnds(host, blocked);
    }
    if LabelsEnd(host, blocked) {
      EndsUnder(host, blocked);
    }
    hide *;
  }

  lemma UnderEnds(host: string, blocked: string)
    requires IsUnder(host, blocked)
    ensures LabelsEnd(host, blocked)
  {
    hide Split;
    hide Lower;
    var h, b := Lower(host), Lower(blocked);
    if h != b {
      var pre := h[..|h| - |b| - 1];
      assert h == pre + h[|h| - |b| - 1..];
      assert h == pre + ['.'] + b;
      SplitAt(pre, '.', b);
    }
  }

  lemma EndsUnder(host: string, blocked: string)
    requires LabelsEnd(host, blocked)
    ensures IsUnder(host, blocked)
  {
    hide Split;
    hide Join;
    hide Lower;
    var h, b := Lower(host), Lower(blocked);
    JoinSplit(h, '.');
    JoinSplit(b, '.');
    var lead := Split(h, '.')[..|Split(h, '.')| - |Split(b, '.')|];
    assert Split(h, '.') == lead + Split(b, '.');
    if lead == [] {
      assert Split(h, '.') == Split(b, '.');
    } else {
      JoinConcat(lead, Split(b, '.'), '.');
      assert h == Join(lead, '.') + "." + b;
      assert h[|h| - |b| - 1..] == "." + b;
    }
  }

  /** A host name is listed exactly when, dots at its end aside, its labels end with those of a listed domain. */
  lemma ListedIff(base: string, dots: string, domains: seq<string>)
    requires Only(dots, IsDot) && (base != "" ==> base[|base| - 1] != '.')
    ensures Listed(base + dots, domains)
       <==> exists i :: 0 <= i < |domains| && domains[i] != "" && LabelsEnd(base, domains[i])
  {
    TrailingDropped(base, dots, IsDot);
    forall i | 0 <= i < |domains| ensures IsUnder(base, domains[i]) <==> LabelsEnd(base, domains[i]) {
      UnderIff(base, domains[i]);
    }
    hide IsUnder;
    hide LabelsEnd;
    hide DropTrailing;
  }
}
