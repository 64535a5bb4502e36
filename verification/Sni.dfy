/**
 Reading the server name out of a TLS ClientHello (src/parse.c kb_sni_extract): records as in section
 5.1 of RFC 8446, ClientHello and extensions as in its sections 4.1.2 and 4.2, server_name as in
 section 3 of RFC 6066.
 */
module Sni {
  import opened Wrappers
  import opened Strings

  const TLS_EXT_SERVER_NAME: nat := 0
  const U16_MAX: nat := 0xFFFF

  /** Record header, handshake header, version and random come before the first vector. */
  const HEAD: nat := 5 + 4 + 2 + 32

  /** get_u16 */
  function U16At(data: seq<Byte>, i: nat): (n: nat)
    requires i + 2 <= |data|
    ensures n <= U16_MAX
  {
    data[i] as int * 256 + data[i + 1] as int
  }

  // ---- What the extractor computes ----

  /** A name, and the end of the extension it was found in. */
  datatype Found = Found(name: seq<Byte>, stop: nat)

  function NameIn(data: seq<Byte>, off: nat, extLen: nat, outlen: nat): Option<Found>
    requires off + extLen <= |data|
  {
    if extLen < 5 || data[off + 2] != 0 then None
    else
      var n := U16At(data, off + 3);
      if n == 0 || n >= outlen || 5 + n > extLen then None
      else Some(Found(data[off + 5..off + 5 + n], off + extLen))
  }

  /** The first server_name extension between two offsets, if all before it are complete. */
  function Walk(data: seq<Byte>, off: nat, end: nat, outlen: nat): Option<Found>
    requires end <= |data|
    decreases end - off
  {
    if off + 4 > end then None
    else
      var extLen := U16At(data, off + 2);
      if off + 4 + extLen > end then None
      else if U16At(data, off) == TLS_EXT_SERVER_NAME then NameIn(data, off + 4, extLen, outlen)
      else Walk(data, off + 4 + extLen, end, outlen)
  }

  /** Where the length of the extensions is, behind session id, cipher suites and compression methods. */
  function ExtensionsAt(data: seq<Byte>): (r: Option<nat>)
    ensures r.Some? ==> HEAD + 1 <= r.value && r.value + 2 <= |data|
  {
    if |data| < HEAD + 1 || data[0] != 0x16 || data[5] != 0x01 then None
    else
      var suites := HEAD + 1 + data[HEAD];
      if suites + 2 > |data| then None
      else
        var methods := suites + 2 + U16At(data, suites);
        if methods + 1 > |data| then None
        else
          var extensions := methods + 1 + data[methods];
          if extensions + 2 > |data| then None else Some(extensions)
  }

  function Extract(data: seq<Byte>, outlen: nat): Option<Found> {
    match ExtensionsAt(data)
    case None => None
    case Some(at) =>
      var extEnd := at + 2 + U16At(data, at);
      Walk(data, at + 2, if |data| < extEnd then |data| else extEnd, outlen)
  }

  /** The memcpy and the terminating NUL. */
  method CopyName(data: seq<Byte>, at: nat, n: nat, out: array<Byte>)
    requires at + n <= |data| && n < out.Length
    modifies out
    ensures out[..] == data[at..at + n] + [0] + old(out[n + 1..])
  {
    forall i | 0 <= i < n {
      out[i] := data[at + i];
    }
    out[n] := 0;
    assert out[..n] == data[at..at + n];
    assert out[n + 1..] == old(out[n + 1..]);
    assert out[..] == out[..n] + [out[n]] + out[n + 1..];
  }

  /** The body of the server_name extension: list length, name type, name length. */
  method TakeName(data: seq<Byte>, off: nat, extLen: nat, out: array<Byte>, outlen: nat) returns (n: nat)
    requires outlen <= out.Length && off + extLen <= |data|
    modifies out
    ensures match NameIn(data, off, extLen, outlen)
            case None => n == 0 && out[..] == old(out[..])
            case Some(f) => 0 < n < outlen && out[..] == f.name + [0] + old(out[n + 1..]) && n == |f.name|
  {
    hide U16At;
    if extLen < 5 || data[off + 2] != 0 {
      return 0;
    }
    var nameLen := U16At(data, off + 3);
    if nameLen <= 0 || nameLen >= outlen || 5 + nameLen > extLen {
      return 0;
    }
    CopyName(data, off + 5, nameLen, out);
    return nameLen;
  }

  /** The first half of kb_sni_extract: past everything before the extensions, checking each length against the end. */
  method SkipVectors(data: seq<Byte>) returns (r: Option<nat>)
    ensures r == ExtensionsAt(data)
  {
    var len := |data|;
    if len < 9 || data[0] != 0x16 || data[5] != 0x01 {
      return None;
    }
    var off := 5 + 4 + 2 + 32;
    if off + 1 > len {
      return None;
    }
    off := off + 1 + data[off];
    if off + 2 > len {
      return None;
    }
    off := off + 2 + U16At(data, off);
    if off + 1 > len {
      return None;
    }
    off := off + 1 + data[off];
    if off + 2 > len {
      return None;
    }
    return Some(off);
  }

  /** kb_sni_extract: the name's length, with the name and a NUL in the buffer; 0 leaves the buffer alone. */
  method SniExtract(data: seq<Byte>, out: array<Byte>, outlen: nat) returns (n: nat)
    requires outlen <= out.Length
    modifies out
    ensures match Extract(data, outlen)
            case None => n == 0 && out[..] == old(out[..])
            case Some(f) => 0 < n < outlen && out[..] == f.name + [0] + old(out[n + 1..]) && n == |f.name|
  {
    hide ExtensionsAt;
    hide U16At;
    hide NameIn;
    var at := SkipVectors(data);
    if at.None? {
      return 0;
    }
    var len := |data|;
    var extEnd := at.value + 2 + U16At(data, at.value);
    var off := at.value + 2;
    var end := if len < extEnd then len else extEnd;
    assert Extract(data, outlen) == Walk(data, off, end, outlen);
    hide Extract;
    while off + 4 <= end
      invariant out[..] == old(out[..])
      invariant Extract(data, outlen) == Walk(data, off, end, outlen)
      decreases end - off
    {
      var kind, extLen := U16At(data, off), U16At(data, off + 2);
      off := off + 4;
      if off + extLen > end {
        return 0;
      }
      if kind == TLS_EXT_SERVER_NAME {
        n := TakeName(data, off, extLen, out, outlen);
        return;
      }
      off := off + extLen;
    }
    return 0;
  }

  // ---- What is on the wire ----

  function U16Bytes(n: nat): (b: seq<Byte>)
    requires n <= U16_MAX
    ensures |b| == 2
  {
    [n / 256, n % 256]
  }

  lemma U16RoundTrip(before: seq<Byte>, n: nat, after: seq<Byte>)
    requires n <= U16_MAX
    ensures U16At(before + U16Bytes(n) + after, |before|) == n
  {
    var s := before + U16Bytes(n) + after;
    assert s[|before|] == U16Bytes(n)[0] && s[|before| + 1] == U16Bytes(n)[1];
  }

  datatype Ext = Ext(kind: nat, body: seq<Byte>)

  ghost predicate ExtValid(e: Ext) { e.kind <= U16_MAX && |e.body| <= U16_MAX }

  function ExtBytes(e: Ext): seq<Byte>
    requires ExtValid(e)
  {
    U16Bytes(e.kind) + U16Bytes(|e.body|) + e.body
  }

  function ExtsBytes(es: seq<Ext>): seq<Byte>
    requires forall i | 0 <= i < |es| :: ExtValid(es[i])
  {
    if es == [] then [] else ExtBytes(es[0]) + ExtsBytes(es[1..])
  }

  /** A list of names whose first entry is a host name; what follows it may be anything. */
  datatype Names = Names(length: seq<Byte>, name: seq<Byte>, more: seq<Byte>)

  function NamesBytes(n: Names): seq<Byte>
    requires |n.name| <= U16_MAX
  {
    n.length + [0] + U16Bytes(|n.name|) + n.name + n.more
  }

  ghost predicate NamesValid(n: Names) {
    |n.length| == 2 && 0 < |n.name| && 5 + |n.name| + |n.more| <= U16_MAX
  }

  /** The extension holding a list of names. */
  function SniExt(n: Names): (e: Ext)
    requires NamesValid(n)
    ensures ExtValid(e)
  {
    Ext(TLS_EXT_SERVER_NAME, NamesBytes(n))
  }

  /** A ClientHello from the start of its record up to the end of its server_name extension. */
  datatype Opening = Opening(
    head: seq<Byte>,
    session: seq<Byte>,
    suites: seq<Byte>,
    methods: seq<Byte>,
    extLen: nat,
    before: seq<Ext>,
    names: Names)

  ghost predicate OpeningValid(o: Opening) {
    && |o.head| == HEAD && o.head[0] == 0x16 && o.head[5] == 0x01
    && |o.session| <= 255 && |o.suites| <= U16_MAX && |o.methods| <= 255
    && (forall i | 0 <= i < |o.before| :: ExtValid(o.before[i]) && o.before[i].kind != TLS_EXT_SERVER_NAME)
    && NamesValid(o.names)
    && |ExtsBytes(o.before) + ExtBytes(SniExt(o.names))| <= o.extLen <= U16_MAX
  }

  /** The vectors between the random and the extensions. */
  function Vectors(session: seq<Byte>, suites: seq<Byte>, methods: seq<Byte>): seq<Byte>
    requires |session| <= 255 && |suites| <= U16_MAX && |methods| <= 255
  {
    [|session|] + session + (U16Bytes(|suites|) + suites) + ([|methods|] + methods)
  }

  function OpeningBytes(o: Opening): seq<Byte>
    requires OpeningValid(o)
  {
    o.head + Vectors(o.session, o.suites, o.methods) + U16Bytes(o.extLen)
      + (ExtsBytes(o.before) + ExtBytes(SniExt(o.names)))
  }

  // ---- From the wire to the name ----

  lemma VectorsEnd(head: seq<Byte>, session: seq<Byte>, suites: seq<Byte>, methods: seq<Byte>, rest: seq<Byte>)
    requires |head| == HEAD && head[0] == 0x16 && head[5] == 0x01
    requires |session| <= 255 && |suites| <= U16_MAX && |methods| <= 255 && |rest| >= 2
    ensures ExtensionsAt(head + Vectors(session, suites, methods) + rest)
         == Some(|head + Vectors(session, suites, methods)|)
  {
    var data := head + Vectors(session, suites, methods) + rest;
    var a := head + ([|session|] + session);
    assert data == head + ([|session|] + (session + (U16Bytes(|suites|) + suites) + ([|methods|] + methods) + rest));
    assert data[HEAD] == |session|;
    assert data == a + U16Bytes(|suites|) + (suites + ([|methods|] + methods) + rest);
    U16RoundTrip(a, |suites|, suites + ([|methods|] + methods) + rest);
    var b := a + (U16Bytes(|suites|) + suites);
    assert data == b + ([|methods|] + (methods + rest));
    assert data[|b|] == |methods|;
  }

  lemma NameFound(pre: seq<Byte>, n: Names, rest: seq<Byte>, outlen: nat)
    requires NamesValid(n) && |n.name| < outlen
    ensures NameIn(pre + NamesBytes(n) + rest, |pre|, |NamesBytes(n)|, outlen)
         == Some(Found(n.name, |pre + NamesBytes(n)|))
  {
    var data := pre + NamesBytes(n) + rest;
    var a := pre + n.length + [0];
    assert data == a + U16Bytes(|n.name|) + (n.name + n.more + rest);
    assert data[|pre| + 2] == a[|pre| + 2] == 0;
    U16RoundTrip(a, |n.name|, n.name + n.more + rest);
    assert data == (a + U16Bytes(|n.name|)) + n.name + (n.more + rest);
    assert data[|pre| + 5..|pre| + 5 + |n.name|] == n.name;
  }

  lemma ExtHeader(pre: seq<Byte>, e: Ext, rest: seq<Byte>)
    requires ExtValid(e)
    ensures var data := pre + ExtBytes(e) + rest;
      |data| >= |pre| + 4 && U16At(data, |pre|) == e.kind && U16At(data, |pre| + 2) == |e.body|
  {
    var data := pre + ExtBytes(e) + rest;
    assert data == pre + U16Bytes(e.kind) + (U16Bytes(|e.body|) + e.body + rest);
    U16RoundTrip(pre, e.kind, U16Bytes(|e.body|) + e.body + rest);
    assert data == (pre + U16Bytes(e.kind)) + U16Bytes(|e.body|) + (e.body + rest);
    U16RoundTrip(pre + U16Bytes(e.kind), |e.body|, e.body + rest);
  }

  lemma WalkSkips(pre: seq<Byte>, e: Ext, rest: seq<Byte>, end: nat, outlen: nat)
    requires ExtValid(e) && e.kind != TLS_EXT_SERVER_NAME
    requires |pre + ExtBytes(e)| <= end <= |pre + ExtBytes(e) + rest|
    ensures var data := pre + ExtBytes(e) + rest;
      Walk(data, |pre|, end, outlen) == Walk(data, |pre + ExtBytes(e)|, end, outlen)
  {
    ExtHeader(pre, e, rest);
    hide U16At;
  }

  lemma WalkStops(pre: seq<Byte>, n: Names, rest: seq<Byte>, end: nat, outlen: nat)
    requires NamesValid(n) && |n.name| < outlen
    requires |pre + ExtBytes(SniExt(n))| <= end <= |pre + ExtBytes(SniExt(n)) + rest|
    ensures var upTo := pre + ExtBytes(SniExt(n));
      Walk(upTo + rest, |pre|, end, outlen) == Some(Found(n.name, |upTo|))
  {
    var sni := SniExt(n);
    var data := pre + ExtBytes(sni) + rest;
    ExtHeader(pre, sni, rest);
    hide U16At;
    hide NameIn;
    hide NamesBytes;
    var at := pre + U16Bytes(sni.kind) + U16Bytes(|sni.body|);
    assert data == at + NamesBytes(n) + rest;
    NameFound(at, n, rest, outlen);
  }

  lemma {:induction false} WalkFinds(pre: seq<Byte>, before: seq<Ext>, n: Names, rest: seq<Byte>, end: nat, outlen: nat)
    requires forall i | 0 <= i < |before| :: ExtValid(before[i]) && before[i].kind != TLS_EXT_SERVER_NAME
    requires NamesValid(n) && |n.name| < outlen
    requires var upTo := pre + (ExtsBytes(before) + ExtBytes(SniExt(n))); |upTo| <= end <= |upTo + rest|
    ensures var upTo := pre + (ExtsBytes(before) + ExtBytes(SniExt(n)));
      Walk(upTo + rest, |pre|, end, outlen) == Some(Found(n.name, |upTo|))
    decreases |before|
  {
    hide Walk;
    hide ExtBytes;
    hide SniExt;
    var sni := SniExt(n);
    var upTo := pre + (ExtsBytes(before) + ExtBytes(sni));
    var data := upTo + rest;
    if before == [] {
      assert upTo == pre + ExtBytes(sni);
      WalkStops(pre, n, rest, end, outlen);
    } else {
      var e := before[0];
      var tail := ExtsBytes(before[1..]) + ExtBytes(sni);
      assert upTo == (pre + ExtBytes(e)) + tail;
      assert data == pre + ExtBytes(e) + (tail + rest);
      WalkSkips(pre, e, tail + rest, end, outlen);
      WalkFinds(pre + ExtBytes(e), before[1..], n, rest, end, outlen);
    }
  }

  /** Whatever comes after it, a valid opening yields exactly its name. */
  lemma OpeningYieldsName(o: Opening, rest: seq<Byte>, outlen: nat)
    requires OpeningValid(o) && |o.names.name| < outlen
    ensures Extract(OpeningBytes(o) + rest, outlen) == Some(Found(o.names.name, |OpeningBytes(o)|))
  {
    hide Walk;
    hide ExtensionsAt;
    hide ExtBytes;
    hide ExtsBytes;
    hide SniExt;
    var data := OpeningBytes(o) + rest;
    var vectors := Vectors(o.session, o.suites, o.methods);
    var exts := ExtsBytes(o.before) + ExtBytes(SniExt(o.names));
    assert data == o.head + vectors + (U16Bytes(o.extLen) + exts + rest);
    VectorsEnd(o.head, o.session, o.suites, o.methods, U16Bytes(o.extLen) + exts + rest);
    var at := o.head + vectors;
    assert data == at + U16Bytes(o.extLen) + (exts + rest);
    U16RoundTrip(at, o.extLen, exts + rest);
    var pre := at + U16Bytes(o.extLen);
    assert data == (pre + exts) + rest;
    var end := if |data| < |pre| + o.extLen then |data| else |pre| + o.extLen;
    WalkFinds(pre, o.before, o.names, rest, end, outlen);
  }

  // ---- From the name to the wire ----

  /** The bytes between two offsets of a text, taken out of it. */
  lemma SliceParts(data: seq<Byte>, i: nat, j: nat, k: nat)
    requires i <= j <= k <= |data|
    ensures data[i..k] == data[i..j] + data[j..k]
  {
  }

  lemma U16Split(data: seq<Byte>, i: nat)
    requires i + 2 <= |data|
    ensures data[i..i + 2] == U16Bytes(U16At(data, i))
  {
  }

  /** A name that was found lies in a valid list of names. */
  lemma NameInIs(data: seq<Byte>, off: nat, extLen: nat, outlen: nat) returns (n: Names)
    requires off + extLen <= |data| && extLen <= U16_MAX && NameIn(data, off, extLen, outlen).Some?
    ensures NamesValid(n) && |n.name| < outlen && data[off..off + extLen] == NamesBytes(n)
    ensures NameIn(data, off, extLen, outlen) == Some(Found(n.name, off + extLen))
  {
    hide U16Bytes;
    var len := U16At(data, off + 3);
    n := Names(data[off..off + 2], data[off + 5..off + 5 + len], data[off + 5 + len..off + extLen]);
    assert |n.name| == len && data[off + 2] == 0;
    U16Split(data, off + 3);
    hide U16At;
    SliceFive(data, off, off + 2, off + 3, off + 5, off + 5 + len, off + extLen);
    hide NameIn;
    assert data[off + 2..off + 3] == [0];
  }

  lemma SliceFive(data: seq<Byte>, i: nat, j: nat, k: nat, l: nat, m: nat, n: nat)
    requires i <= j <= k <= l <= m <= n <= |data|
    ensures data[i..n] == data[i..j] + data[j..k] + data[k..l] + data[l..m] + data[m..n]
  {
    SliceParts(data, i, j, k);
    SliceParts(data, i, k, l);
    SliceParts(data, i, l, m);
    SliceParts(data, i, m, n);
  }

  lemma ExtIs(data: seq<Byte>, off: nat) returns (e: Ext)
    requires off + 4 <= |data| && off + 4 + U16At(data, off + 2) <= |data|
    ensures ExtValid(e) && e == Ext(U16At(data, off), data[off + 4..off + 4 + U16At(data, off + 2)])
    ensures data[off..off + 4 + U16At(data, off + 2)] == ExtBytes(e)
  {
    var end := off + 4 + U16At(data, off + 2);
    e := Ext(U16At(data, off), data[off + 4..end]);
    U16Split(data, off);
    U16Split(data, off + 2);
    hide U16At;
    hide U16Bytes;
    SliceParts(data, off, off + 2, off + 4);
    SliceParts(data, off, off + 4, end);
  }

  lemma {:induction false} WalkIs(data: seq<Byte>, off: nat, end: nat, outlen: nat) returns (before: seq<Ext>, n: Names)
    requires end <= |data| && Walk(data, off, end, outlen).Some?
    ensures forall i | 0 <= i < |before| :: ExtValid(before[i]) && before[i].kind != TLS_EXT_SERVER_NAME
    ensures NamesValid(n) && |n.name| < outlen
    ensures var f := Walk(data, off, end, outlen).value;
      && f.name == n.name && off <= f.stop <= end
      && data[off..f.stop] == ExtsBytes(before) + ExtBytes(SniExt(n))
    decreases end - off
  {
    hide U16At;
    hide NameIn;
    hide NamesBytes;
    hide NamesValid;
    hide ExtBytes;
    var e := ExtIs(data, off);
    var next := off + 4 + U16At(data, off + 2);
    if e.kind == TLS_EXT_SERVER_NAME {
      n := NameInIs(data, off + 4, U16At(data, off + 2), outlen);
      assert SniExt(n) == e;
      before := [];
      assert ExtsBytes([]) + ExtBytes(e) == ExtBytes(e);
    } else {
      var later: seq<Ext>;
      later, n := WalkIs(data, next, end, outlen);
      before := [e] + later;
      assert before[1..] == later;
      hide Walk;
      hide SniExt;
      SliceParts(data, off, next, Walk(data, next, end, outlen).value.stop);
      assert ExtsBytes(before) + ExtBytes(SniExt(n)) == ExtBytes(e) + (ExtsBytes(later) + ExtBytes(SniExt(n)));
    }
  }

  lemma ByteVectorIs(data: seq<Byte>, i: nat)
    requires i + 1 <= |data| && i + 1 + data[i] <= |data|
    ensures data[i..i + 1 + data[i]] == [|data[i + 1..i + 1 + data[i]]|] + data[i + 1..i + 1 + data[i]]
  {
  }

  lemma WordVectorIs(data: seq<Byte>, i: nat)
    requires i + 2 <= |data| && i + 2 + U16At(data, i) <= |data|
    ensures var body := data[i + 2..i + 2 + U16At(data, i)];
      data[i..i + 2 + U16At(data, i)] == U16Bytes(|body|) + body
  {
    U16Split(data, i);
    hide U16At;
    hide U16Bytes;
    SliceParts(data, i, i + 2, i + 2 + U16At(data, i));
  }

  lemma ExtensionsAtIs(data: seq<Byte>)
    returns (head: seq<Byte>, session: seq<Byte>, suites: seq<Byte>, methods: seq<Byte>)
    requires ExtensionsAt(data).Some?
    ensures |head| == HEAD && head[0] == 0x16 && head[5] == 0x01
    ensures |session| <= 255 && |suites| <= U16_MAX && |methods| <= 255
    ensures data[..ExtensionsAt(data).value] == head + Vectors(session, suites, methods)
  {
    hide U16At;
    hide U16Bytes;
    var at := ExtensionsAt(data).value;
    var a := HEAD + 1 + data[HEAD];
    var b := a + 2 + U16At(data, a);
    head, session, suites, methods := data[..HEAD], data[HEAD + 1..a], data[a + 2..b], data[b + 1..at];
    ByteVectorIs(data, HEAD);
    WordVectorIs(data, a);
    ByteVectorIs(data, b);
    hide ExtensionsAt;
    SliceParts(data, HEAD, a, b);
    SliceParts(data, HEAD, b, at);
    assert data[..at] == data[..HEAD] + data[HEAD..at];
  }

  /** A name is found only in a valid opening, and it is that opening's name. */
  lemma NameComesFromOpening(data: seq<Byte>, outlen: nat) returns (o: Opening)
    requires Extract(data, outlen).Some?
    ensures OpeningValid(o) && |o.names.name| < outlen && OpeningBytes(o) <= data
    ensures Extract(data, outlen) == Some(Found(o.names.name, |OpeningBytes(o)|))
  {
    hide Walk;
    hide ExtsBytes;
    hide ExtBytes;
    hide SniExt;
    hide Vectors;
    hide ExtensionsAt;
    hide U16Bytes;
    hide NamesBytes;
    hide NamesValid;
    hide NameIn;
    hide OpeningBytes;
    var at := ExtensionsAt(data).value;
    var extEnd := at + 2 + U16At(data, at);
    var end := if |data| < extEnd then |data| else extEnd;
    var head, session, suites, methods := ExtensionsAtIs(data);
    var before, n := WalkIs(data, at + 2, end, outlen);
    var stop := Walk(data, at + 2, end, outlen).value.stop;
    hide Extract;
    U16Split(data, at);
    hide U16At;
    o := Opening(head, session, suites, methods, U16At(data, at), before, n);
    OpeningAssembled(data, at, stop, o);
  }

  lemma OpeningAssembled(data: seq<Byte>, at: nat, stop: nat, o: Opening)
    requires OpeningValid(o) && at + 2 <= stop <= |data|
    requires data[..at] == o.head + Vectors(o.session, o.suites, o.methods)
    requires data[at..at + 2] == U16Bytes(o.extLen)
    requires data[at + 2..stop] == ExtsBytes(o.before) + ExtBytes(SniExt(o.names))
    ensures data[..stop] == OpeningBytes(o)
  {
    hide Vectors;
    hide U16Bytes;
    hide ExtsBytes;
    hide ExtBytes;
    hide SniExt;
    hide OpeningValid;
    SliceParts(data, 0, at, at + 2);
    SliceParts(data, 0, at + 2, stop);
  }

  /**
   For every sequence of bytes: a name is found exactly when the bytes begin with a ClientHello opening
   whose name fits, and then it is that name.
   */
  lemma FoundIffOpening(data: seq<Byte>, outlen: nat, name: seq<Byte>)
    ensures (Extract(data, outlen).Some? && Extract(data, outlen).value.name == name)
       <==> exists o: Opening ::
              OpeningValid(o) && |o.names.name| < outlen && OpeningBytes(o) <= data && o.names.name == name
  {
    hide Extract;
    hide OpeningValid;
    hide OpeningBytes;
    if Extract(data, outlen).Some? {
      var o := NameComesFromOpening(data, outlen);
    }
    forall o: Opening | OpeningValid(o) && |o.names.name| < outlen && OpeningBytes(o) <= data
      ensures Extract(data, outlen).Some? && Extract(data, outlen).value.name == o.names.name
    {
      var rest := data[|OpeningBytes(o)|..];
      assert data == OpeningBytes(o) + rest;
      OpeningYieldsName(o, rest, outlen);
    }
  }

  /** More bytes never change a name already found. */
  lemma PrefixMonotone(data: seq<Byte>, more: seq<Byte>, outlen: nat)
    requires Extract(data, outlen).Some?
    ensures Extract(data + more, outlen) == Extract(data, outlen)
  {
    hide Extract;
    hide OpeningBytes;
    hide OpeningValid;
    var o := NameComesFromOpening(data, outlen);
    var rest := data[|OpeningBytes(o)|..];
    assert data + more == OpeningBytes(o) + (rest + more);
    OpeningYieldsName(o, rest + more, outlen);
  }

  /** Cutting a text off leaves the whole name or nothing: the whole exactly when its extension is still complete. */
  lemma TruncationIff(data: seq<Byte>, k: nat, outlen: nat)
    requires Extract(data, outlen).Some? && k <= |data|
    ensures Extract(data[..k], outlen) == if k >= Extract(data, outlen).value.stop then Extract(data, outlen) else None
  {
    hide Extract;
    hide OpeningBytes;
    hide OpeningValid;
    var o := NameComesFromOpening(data, outlen);
    var stop := Extract(data, outlen).value.stop;
    assert data[..k] + data[k..] == data;
    if k >= stop {
      assert data[..k] == OpeningBytes(o) + data[stop..k];
      OpeningYieldsName(o, data[stop..k], outlen);
    } else if Extract(data[..k], outlen).Some? {
      PrefixMonotone(data[..k], data[k..], outlen);
      var cut := NameComesFromOpening(data[..k], outlen);
      assert false;
    }
  }
}
