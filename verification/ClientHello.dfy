/**
 * Reading the server name out of a TLS ClientHello: the record of section 5.1 of RFC 8446, the
 * ClientHello of section 4.1.2 and the extensions of section 4.2 of RFC 8446, and server_name of
 * section 3 of RFC 6066.
 */
module ClientHello {

  type byte = x: int | 0 <= x < 256

  /** Indexing past a header-only record is a run-time panic of the Go parser. */
  datatype Answer = Panic | Name(host: seq<byte>)

  function U16(buf: seq<byte>, at: nat): nat
    requires at + 2 <= |buf|
  {
    buf[at] as int * 256 + buf[at + 1] as int
  }

  // ----- what the cursor does, as functions -----

  function NameAt(buf: seq<byte>, pos: nat): seq<byte> {
    if pos + 5 > |buf| || buf[pos + 2] != 0 then []
    else
      var n := U16(buf, pos + 3);
      if pos + 5 + n > |buf| then [] else buf[pos + 5..pos + 5 + n]
  }

  function Walk(buf: seq<byte>, pos: nat, end: nat): seq<byte>
    decreases |buf| - pos
  {
    if pos + 4 > end || pos + 4 > |buf| then []
    else if U16(buf, pos) == 0 then NameAt(buf, pos + 4)
    else Walk(buf, pos + 4 + U16(buf, pos + 2), end)
  }

  /** Parsing from the session id on. */
  function Body(buf: seq<byte>): seq<byte> {
    var p0 := 43;
    if p0 >= |buf| then [] else
    var p1 := p0 + 1 + buf[p0];
    if p1 + 2 > |buf| then [] else
    var p2 := p1 + 2 + U16(buf, p1);
    if p2 >= |buf| then [] else
    var p3 := p2 + 1 + buf[p2];
    if p3 + 2 > |buf| then [] else
    Walk(buf, p3 + 2, p3 + 2 + U16(buf, p3))
  }

  function Parse(buf: seq<byte>): Answer {
    if |buf| < 5 || buf[0] != 0x16 then Name([])
    else if |buf| < 5 + U16(buf, 3) then Name([])
    else if |buf| == 5 then Panic
    else if buf[5] != 0x01 then Name([])
    else Name(Body(buf))
  }

  /** The parser itself: one cursor moving through the buffer, every access in bounds. */
  method ParseSNI(buf: seq<byte>) returns (answer: Answer)
    ensures answer == Parse(buf)
  {
    if |buf| < 5 || buf[0] != 0x16 { return Name([]); }
    var recordLength := U16(buf, 3);
    if |buf| < 5 + recordLength { return Name([]); }
    var pos := 5;
    if pos >= |buf| { return Panic; }
    if buf[pos] != 0x01 { return Name([]); }
    pos := pos + 4;
    pos := pos + 2 + 32;
    if pos >= |buf| { return Name([]); }
    var sessionIDLen := buf[pos];
    pos := pos + 1 + sessionIDLen;
    if pos + 2 > |buf| { return Name([]); }
    var cipherSuitesLen := U16(buf, pos);
    pos := pos + 2 + cipherSuitesLen;
    if pos >= |buf| { return Name([]); }
    var compressionLen := buf[pos];
    pos := pos + 1 + compressionLen;
    if pos + 2 > |buf| { return Name([]); }
    var extensionsLen := U16(buf, pos);
    pos := pos + 2;
    var extensionsEnd := pos + extensionsLen;
    while pos + 4 <= extensionsEnd && pos + 4 <= |buf|
      invariant 0 <= pos
      invariant Parse(buf) == Name(Walk(buf, pos, extensionsEnd))
      decreases |buf| - pos
    {
      var extType := U16(buf, pos);
      var extLen := U16(buf, pos + 2);
      pos := pos + 4;
      if extType == 0x0000 {
        if pos + 5 > |buf| { return Name([]); }
        if buf[pos + 2] != 0x00 { return Name([]); }
        var nameLen := U16(buf, pos + 3);
        if pos + 5 + nameLen > |buf| { return Name([]); }
        return Name(buf[pos + 5..pos + 5 + nameLen]);
      }
      pos := pos + extLen;
    }
    return Name([]);
  }

  // ----- the wire format -----

  function Enc16(n: nat): (b: seq<byte>)
    requires n < 0x1_0000
    ensures |b| == 2 && b[0] as int * 256 + b[1] as int == n
  {
    [n / 256, n % 256]
  }

  function Vec8(d: seq<byte>): seq<byte>
    requires |d| < 0x100
  {
    [|d|] + d
  }

  function Vec16(d: seq<byte>): seq<byte>
    requires |d| < 0x1_0000
  {
    Enc16(|d|) + d
  }

  /** Everything before the extensions, whose own length fields are free to disagree with it. */
  datatype Preamble = Preamble(
    recordVersion: seq<byte>,
    recordLength: nat,
    handshakeLength: seq<byte>,
    versionAndRandom: seq<byte>,
    sessionId: seq<byte>,
    cipherSuites: seq<byte>,
    compression: seq<byte>)
  {
    predicate Fits() {
      && |recordVersion| == 2 && recordLength < 0x1_0000 && |handshakeLength| == 3 && |versionAndRandom| == 34
      && |sessionId| < 0x100 && |cipherSuites| < 0x1_0000 && |compression| < 0x100
    }

    function Bytes(): (b: seq<byte>)
      requires Fits()
      ensures |b| == 43 + 1 + |sessionId| + 2 + |cipherSuites| + 1 + |compression|
    {
      [0x16] + recordVersion + Enc16(recordLength) + [0x01] + handshakeLength + versionAndRandom +
      Vec8(sessionId) + Vec16(cipherSuites) + Vec8(compression)
    }
  }

  datatype Extension = Extension(kind: nat, data: seq<byte>) {
    predicate Fits() {
      kind < 0x1_0000 && |data| < 0x1_0000
    }

    function Bytes(): (b: seq<byte>)
      requires Fits()
      ensures |b| == 4 + |data|
    {
      Enc16(kind) + Vec16(data)
    }
  }

  ghost predicate AllFit(exts: seq<Extension>) {
    forall i :: 0 <= i < |exts| ==> exts[i].Fits()
  }

  function ExtBytes(exts: seq<Extension>): seq<byte>
    requires AllFit(exts)
  {
    if exts == [] then [] else exts[0].Bytes() + ExtBytes(exts[1..])
  }

  // ----- reading back what was written -----

  lemma PreambleFields(p: Preamble, rest: seq<byte>)
    requires p.Fits()
    ensures var buf := p.Bytes() + rest;
            var q1 := 44 + |p.sessionId|;
            var q2 := q1 + 2 + |p.cipherSuites|;
            && |buf| > 5 && buf[0] == 0x16 && U16(buf, 3) == p.recordLength && buf[5] == 0x01
            && buf[43] == |p.sessionId|
            && q1 + 2 <= |buf| && U16(buf, q1) == |p.cipherSuites|
            && q2 < |buf| && buf[q2] == |p.compression|
  {
    var head := [0x16] + p.recordVersion + Enc16(p.recordLength) + [0x01] + p.handshakeLength + p.versionAndRandom;
    var q1 := 44 + |p.sessionId|;
    var b := p.Bytes();
    assert |head| == 43;
    assert b == head + (Vec8(p.sessionId) + Vec16(p.cipherSuites) + Vec8(p.compression));
    assert b[43] == |p.sessionId|;
    assert b[0] == head[0] && b[3] == head[3] && b[4] == head[4] && b[5] == head[5];
    assert b == (head + Vec8(p.sessionId)) + (Vec16(p.cipherSuites) + Vec8(p.compression));
    assert b[q1] == Enc16(|p.cipherSuites|)[0] && b[q1 + 1] == Enc16(|p.cipherSuites|)[1];
    assert b == (head + Vec8(p.sessionId) + Vec16(p.cipherSuites)) + Vec8(p.compression);
  }

  /** The buffer holds b at pos. */
  ghost predicate At(buf: seq<byte>, pos: nat, b: seq<byte>) {
    pos + |b| <= |buf| && buf[pos..pos + |b|] == b
  }

  lemma AtByte(buf: seq<byte>, pos: nat, b: seq<byte>, i: nat)
    requires At(buf, pos, b) && i < |b|
    ensures buf[pos + i] == b[i]
  {
    assert buf[pos..pos + |b|][i] == b[i];
  }

  lemma AtSplit(buf: seq<byte>, pos: nat, a: seq<byte>, b: seq<byte>)
    requires At(buf, pos, a + b)
    ensures At(buf, pos, a) && At(buf, pos + |a|, b)
  {
    var all := buf[pos..pos + |a + b|];
    assert all[..|a|] == a && all[|a|..] == b;
    assert buf[pos..pos + |a|] == all[..|a|];
    assert buf[pos + |a|..pos + |a| + |b|] == all[|a|..];
  }

  lemma AtU16(buf: seq<byte>, pos: nat, n: nat)
    requires n < 0x1_0000 && At(buf, pos, Enc16(n))
    ensures U16(buf, pos) == n
  {
    AtByte(buf, pos, Enc16(n), 0);
    AtByte(buf, pos, Enc16(n), 1);
  }

  /** A buffer that starts with a preamble and an extensions length is parsed by walking the extensions. */
  lemma ParseAfterPreamble(buf: seq<byte>, p: Preamble, announced: nat)
    requires p.Fits() && announced < 0x1_0000 && 5 + p.recordLength <= |buf|
    requires At(buf, 0, p.Bytes()) && At(buf, |p.Bytes()|, Enc16(announced))
    ensures Parse(buf) == Name(Walk(buf, |p.Bytes()| + 2, |p.Bytes()| + 2 + announced))
  {
    hide Body, Walk, Enc16, U16;
    assert buf == p.Bytes() + buf[|p.Bytes()|..];
    PreambleFields(p, buf[|p.Bytes()|..]);
    AtU16(buf, |p.Bytes()|, announced);
    BodyWalks(buf, |p.sessionId|, |p.cipherSuites|, |p.compression|);
  }

  lemma BodyWalks(buf: seq<byte>, sessionId: nat, cipherSuites: nat, compression: nat)
    requires 43 < |buf| && buf[43] as int == sessionId
    requires 46 + sessionId <= |buf| && U16(buf, 44 + sessionId) == cipherSuites
    requires 46 + sessionId + cipherSuites < |buf| && buf[46 + sessionId + cipherSuites] as int == compression
    requires 49 + sessionId + cipherSuites + compression <= |buf|
    ensures var at := 47 + sessionId + cipherSuites + compression;
            Body(buf) == Walk(buf, at + 2, at + 2 + U16(buf, at))
  {
  }

  lemma ExtensionFields(buf: seq<byte>, pos: nat, e: Extension)
    requires e.Fits() && At(buf, pos, e.Bytes())
    ensures U16(buf, pos) == e.kind && U16(buf, pos + 2) == |e.data| && At(buf, pos + 4, e.data)
  {
    AtSplit(buf, pos, Enc16(e.kind), Vec16(e.data));
    AtSplit(buf, pos + 2, Enc16(|e.data|), e.data);
    AtU16(buf, pos, e.kind);
    AtU16(buf, pos + 2, |e.data|);
  }

  /** Extensions of other kinds are stepped over, as long as their headers lie inside the announced length. */
  lemma {:induction false} WalkSkips(buf: seq<byte>, pos: nat, exts: seq<Extension>, end: nat)
    requires AllFit(exts) && forall i :: 0 <= i < |exts| ==> exts[i].kind != 0
    requires At(buf, pos, ExtBytes(exts)) && pos + |ExtBytes(exts)| <= end
    ensures Walk(buf, pos, end) == Walk(buf, pos + |ExtBytes(exts)|, end)
    decreases |exts|
  {
    hide At, Extension.Bytes, NameAt, U16;
    if exts != [] {
      AtSplit(buf, pos, exts[0].Bytes(), ExtBytes(exts[1..]));
      ExtensionFields(buf, pos, exts[0]);
      WalkSkips(buf, pos + |exts[0].Bytes()|, exts[1..], end);
    }
  }

  /** The fields that follow the header of a server_name extension: list length, kind, name. */
  function EntryBytes(listLength: seq<byte>, kind: byte, name: seq<byte>): seq<byte>
    requires |name| < 0x1_0000
  {
    listLength + ([kind] + Vec16(name))
  }

  lemma NameFields(buf: seq<byte>, pos: nat, listLength: seq<byte>, kind: byte, name: seq<byte>)
    requires |listLength| == 2 && |name| < 0x1_0000 && At(buf, pos, EntryBytes(listLength, kind, name))
    ensures NameAt(buf, pos) == if kind == 0 then name else []
  {
    AtSplit(buf, pos, listLength, [kind] + Vec16(name));
    AtSplit(buf, pos + 2, [kind], Vec16(name));
    AtByte(buf, pos + 2, [kind], 0);
    AtSplit(buf, pos + 3, Enc16(|name|), name);
    AtU16(buf, pos + 3, |name|);
  }

  // ----- any buffer: exactly when a name is answered -----

  /** A server_name extension whose first entry is this host name; its inner lengths are not checked by the parser. */
  function SniBytes(extLength: seq<byte>, listLength: seq<byte>, host: seq<byte>): seq<byte>
    requires |host| < 0x1_0000
  {
    Enc16(0) + (extLength + EntryBytes(listLength, 0, host))
  }

  /** At pos: extensions of other kinds, then server_name, whose header lies before end. */
  ghost predicate ExtensionsName(buf: seq<byte>, pos: nat, end: nat, skipped: seq<Extension>,
                                 extLength: seq<byte>, listLength: seq<byte>, host: seq<byte>)
  {
    && AllFit(skipped) && (forall i :: 0 <= i < |skipped| ==> skipped[i].kind != 0)
    && |extLength| == 2 && |listLength| == 2 && |host| < 0x1_0000
    && At(buf, pos, ExtBytes(skipped))
    && At(buf, pos + |ExtBytes(skipped)|, SniBytes(extLength, listLength, host))
    && pos + |ExtBytes(skipped)| + 4 <= end
  }

  lemma ExtensionsAnswered(buf: seq<byte>, pos: nat, end: nat, skipped: seq<Extension>,
                           extLength: seq<byte>, listLength: seq<byte>, host: seq<byte>)
    requires ExtensionsName(buf, pos, end, skipped, extLength, listLength, host)
    ensures Walk(buf, pos, end) == host
  {
    hide At, Enc16, EntryBytes, NameAt, ExtBytes;
    WalkSkips(buf, pos, skipped, end);
    var at := pos + |ExtBytes(skipped)|;
    AtSplit(buf, at, Enc16(0), extLength + EntryBytes(listLength, 0, host));
    AtU16(buf, at, 0);
    AtSplit(buf, at + 2, extLength, EntryBytes(listLength, 0, host));
    NameFields(buf, at + 4, listLength, 0, host);
  }

  /** The length fields of the buffer, followed in order, lead to this host name. */
  ghost predicate Leads(buf: seq<byte>, host: seq<byte>, p: Preamble, announced: nat, skipped: seq<Extension>,
                        extLength: seq<byte>, listLength: seq<byte>)
  {
    && p.Fits() && announced < 0x1_0000 && 5 + p.recordLength <= |buf|
    && At(buf, 0, p.Bytes()) && At(buf, |p.Bytes()|, Enc16(announced))
    && ExtensionsName(buf, |p.Bytes()| + 2, |p.Bytes()| + 2 + announced, skipped, extLength, listLength, host)
  }

  ghost predicate LeadsTo(buf: seq<byte>, host: seq<byte>) {
    exists p: Preamble, announced: nat, skipped, extLength, listLength ::
      Leads(buf, host, p, announced, skipped, extLength, listLength)
  }

  lemma Enc16Slice(buf: seq<byte>, at: nat)
    requires at + 2 <= |buf|
    ensures U16(buf, at) < 0x1_0000 && buf[at..at + 2] == Enc16(U16(buf, at))
  {
    var n := U16(buf, at);
    assert n / 256 == buf[at] as int && n % 256 == buf[at + 1] as int;
  }

  lemma Vec16Slice(buf: seq<byte>, at: nat, n: nat)
    requires at + 2 + n <= |buf| && n == U16(buf, at)
    ensures n < 0x1_0000 && buf[at..at + 2 + n] == Vec16(buf[at + 2..at + 2 + n])
  {
    Enc16Slice(buf, at);
    assert buf[at..at + 2 + n] == buf[at..at + 2] + buf[at + 2..at + 2 + n];
  }

  lemma SniSlice(buf: seq<byte>, pos: nat) returns (extLength: seq<byte>, listLength: seq<byte>)
    requires pos + 4 <= |buf| && U16(buf, pos) == 0 && NameAt(buf, pos + 4) != []
    ensures |extLength| == 2 && |listLength| == 2 && |NameAt(buf, pos + 4)| < 0x1_0000
    ensures At(buf, pos, SniBytes(extLength, listLength, NameAt(buf, pos + 4)))
  {
    hide At;
    var host := NameAt(buf, pos + 4);
    var n := U16(buf, pos + 7);
    extLength, listLength := buf[pos + 2..pos + 4], buf[pos + 4..pos + 6];
    Enc16Slice(buf, pos);
    Vec16Slice(buf, pos + 7, n);
    AtJoin(buf, pos + 6, [0], Vec16(host));
    AtJoin(buf, pos + 4, listLength, [0] + Vec16(host));
    AtJoin(buf, pos + 2, extLength, EntryBytes(listLength, 0, host));
    AtJoin(buf, pos, Enc16(0), extLength + EntryBytes(listLength, 0, host));
  }

  lemma ExtensionSlice(buf: seq<byte>, pos: nat)
    requires pos + 4 <= |buf| && pos + 4 + U16(buf, pos + 2) <= |buf|
    ensures var n := U16(buf, pos + 2);
            var e := Extension(U16(buf, pos), buf[pos + 4..pos + 4 + n]);
            e.Fits() && At(buf, pos, e.Bytes())
  {
    var n := U16(buf, pos + 2);
    Enc16Slice(buf, pos);
    Vec16Slice(buf, pos + 2, n);
    assert buf[pos..pos + 4 + n] == buf[pos..pos + 2] + buf[pos + 2..pos + 4 + n];
  }

  lemma AtJoin(buf: seq<byte>, pos: nat, a: seq<byte>, b: seq<byte>)
    requires At(buf, pos, a) && At(buf, pos + |a|, b)
    ensures At(buf, pos, a + b)
  {
    assert buf[pos..pos + |a + b|] == buf[pos..pos + |a|] + buf[pos + |a|..pos + |a| + |b|];
  }

  lemma NothingSkipped(buf: seq<byte>, pos: nat, end: nat, extLength: seq<byte>, listLength: seq<byte>, host: seq<byte>)
    requires |extLength| == 2 && |listLength| == 2 && |host| < 0x1_0000 && pos + 4 <= end
    requires At(buf, pos, SniBytes(extLength, listLength, host))
    ensures ExtensionsName(buf, pos, end, [], extLength, listLength, host)
  {
    assert ExtBytes([]) == [];
  }

  lemma SkippedInFront(buf: seq<byte>, pos: nat, end: nat, e: Extension, more: seq<Extension>,
                       extLength: seq<byte>, listLength: seq<byte>, host: seq<byte>)
    requires e.Fits() && e.kind != 0 && At(buf, pos, e.Bytes())
    requires ExtensionsName(buf, pos + |e.Bytes()|, end, more, extLength, listLength, host)
    ensures ExtensionsName(buf, pos, end, [e] + more, extLength, listLength, host)
  {
    hide At, SniBytes, Extension.Bytes;
    var skipped := [e] + more;
    assert skipped[0] == e && skipped[1..] == more;
    AtJoin(buf, pos, e.Bytes(), ExtBytes(more));
  }

  /** A non-empty answer of the walk is the host name its length fields lead to. */
  lemma {:induction false} WalkLeads(buf: seq<byte>, pos: nat, end: nat)
      returns (skipped: seq<Extension>, extLength: seq<byte>, listLength: seq<byte>)
    requires Walk(buf, pos, end) != []
    ensures ExtensionsName(buf, pos, end, skipped, extLength, listLength, Walk(buf, pos, end))
    decreases |buf| - pos
  {
    hide At, Enc16, SniBytes, ExtBytes;
    if U16(buf, pos) == 0 {
      skipped := [];
      extLength, listLength := SniSlice(buf, pos);
      NothingSkipped(buf, pos, end, extLength, listLength, Walk(buf, pos, end));
    } else {
      var next := pos + 4 + U16(buf, pos + 2);
      var more;
      more, extLength, listLength := WalkLeads(buf, next, end);
      ExtensionSlice(buf, pos);
      var e := Extension(U16(buf, pos), buf[pos + 4..next]);
      skipped := [e] + more;
      SkippedInFront(buf, pos, end, e, more, extLength, listLength, Walk(buf, pos, end));
    }
  }

  lemma HeadSlice(buf: seq<byte>)
    requires |buf| > 43 && buf[0] == 0x16 && buf[5] == 0x01
    ensures U16(buf, 3) < 0x1_0000
    ensures buf[..43] == [0x16] + buf[1..3] + Enc16(U16(buf, 3)) + [0x01] + buf[6..9] + buf[9..43]
  {
    Enc16Slice(buf, 3);
    assert buf[..43] == [0x16] + buf[1..3] + buf[3..5] + [0x01] + buf[6..9] + buf[9..43];
  }

  lemma Vec8Slice(buf: seq<byte>, at: nat, n: nat)
    requires at + 1 + n <= |buf| && n == buf[at] as int
    ensures buf[at..at + 1 + n] == Vec8(buf[at + 1..at + 1 + n])
  {
  }

  lemma Assemble(buf: seq<byte>, p1: nat, p2: nat, p3: nat)
    requires 43 <= p1 <= p2 <= p3 <= |buf|
    ensures buf[..p3] == buf[..43] + buf[43..p1] + buf[p1..p2] + buf[p2..p3]
  {
  }

  /** Where the parts of the preamble of any buffer the parser gets through end. */
  lemma Offsets(buf: seq<byte>) returns (p1: nat, p2: nat, p3: nat)
    requires Parse(buf).Name? && Parse(buf).host != []
    ensures 44 <= p1 && p1 + 2 <= p2 < p3 && p3 + 2 <= |buf|
    ensures p1 == 44 + buf[43] as int && p2 == p1 + 2 + U16(buf, p1) && p3 == p2 + 1 + buf[p2] as int
    ensures 5 + U16(buf, 3) <= |buf| && buf[0] == 0x16 && buf[5] == 0x01
  {
    hide Walk;
    p1 := 44 + buf[43] as int;
    p2 := p1 + 2 + U16(buf, p1);
    p3 := p2 + 1 + buf[p2] as int;
  }

  /** Reading the preamble of any buffer the parser gets through. */
  lemma PreambleSlice(buf: seq<byte>) returns (p: Preamble, announced: nat)
    requires Parse(buf).Name? && Parse(buf).host != []
    ensures p.Fits() && announced < 0x1_0000 && 5 + p.recordLength <= |buf|
    ensures At(buf, 0, p.Bytes()) && At(buf, |p.Bytes()|, Enc16(announced))
    ensures Parse(buf) == Name(Walk(buf, |p.Bytes()| + 2, |p.Bytes()| + 2 + announced))
  {
    hide Parse;
    var p1, p2, p3 := Offsets(buf);
    announced := U16(buf, p3);
    HeadSlice(buf);
    Vec8Slice(buf, 43, p1 - 44);
    Vec16Slice(buf, p1, p2 - p1 - 2);
    Vec8Slice(buf, p2, p3 - p2 - 1);
    Enc16Slice(buf, p3);
    Assemble(buf, p1, p2, p3);
    p := Preamble(buf[1..3], U16(buf, 3), buf[6..9], buf[9..43], buf[44..p1], buf[p1 + 2..p2], buf[p2 + 1..p3]);
    assert p.Bytes() == buf[..p3];
    ParseAfterPreamble(buf, p, announced);
  }

  lemma LeadsIsAnswered(buf: seq<byte>, host: seq<byte>, p: Preamble, announced: nat, skipped: seq<Extension>,
                        extLength: seq<byte>, listLength: seq<byte>)
    requires Leads(buf, host, p, announced, skipped, extLength, listLength)
    ensures Parse(buf) == Name(host)
  {
    hide Parse, Walk, At, ExtensionsName;
    ParseAfterPreamble(buf, p, announced);
    var at := |p.Bytes()| + 2;
    ExtensionsAnswered(buf, at, at + announced, skipped, extLength, listLength, host);
  }

  lemma AnswerLeads(buf: seq<byte>, host: seq<byte>)
    requires host != [] && Parse(buf) == Name(host)
    ensures LeadsTo(buf, host)
  {
    var p, announced := PreambleSlice(buf);
    var at := |p.Bytes()| + 2;
    var skipped, extLength, listLength := WalkLeads(buf, at, at + announced);
    assert Leads(buf, host, p, announced, skipped, extLength, listLength);
  }

  /** On any buffer: a non-empty answer is given exactly when the length fields lead to it. */
  lemma AnsweredExactly(buf: seq<byte>, host: seq<byte>)
    requires host != []
    ensures Parse(buf) == Name(host) <==> LeadsTo(buf, host)
  {
    if LeadsTo(buf, host) {
      var p: Preamble, announced: nat, skipped, extLength, listLength :|
        Leads(buf, host, p, announced, skipped, extLength, listLength);
      LeadsIsAnswered(buf, host, p, announced, skipped, extLength, listLength);
    } else if Parse(buf) == Name(host) {
      AnswerLeads(buf, host);
    }
  }

  /** A handshake record of length zero, on which it indexes out of bounds. */
  lemma PanicRecord()
    ensures Parse([0x16, 3, 1, 0, 0]) == Panic
  {
  }

  /** The one buffer shape on which the Go parser indexes out of bounds. */
  lemma PanicsExactly(buf: seq<byte>)
    ensures Parse(buf).Panic? <==> |buf| == 5 && buf[0] == 0x16 && buf[3] == 0 && buf[4] == 0
  {
  }

  // ----- well-formed messages -----

  /** One entry of a server_name list; kind 0 is host_name. */
  datatype NameEntry = NameEntry(kind: byte, name: seq<byte>)

  datatype HelloExtension = Other(kind: nat, data: seq<byte>) | ServerName(names: seq<NameEntry>)

  datatype Hello = Hello(
    recordVersion: seq<byte>,
    versionAndRandom: seq<byte>,
    sessionId: seq<byte>,
    cipherSuites: seq<byte>,
    compression: seq<byte>,
    extensions: seq<HelloExtension>)

  ghost predicate NamesFit(names: seq<NameEntry>) {
    forall i :: 0 <= i < |names| ==> |names[i].name| < 0x1_0000
  }

  function NamesBytes(names: seq<NameEntry>): seq<byte>
    requires NamesFit(names)
  {
    if names == [] then [] else [names[0].kind] + Vec16(names[0].name) + NamesBytes(names[1..])
  }

  ghost predicate ExtensionWellFormed(e: HelloExtension) {
    match e
    case Other(kind, data) => 0 < kind < 0x1_0000 && |data| < 0x1_0000
    case ServerName(names) => names != [] && NamesFit(names) && |NamesBytes(names)| + 2 < 0x1_0000
  }

  ghost predicate AllWellFormed(es: seq<HelloExtension>) {
    forall i :: 0 <= i < |es| ==> ExtensionWellFormed(es[i])
  }

  function Encode(e: HelloExtension): (x: Extension)
    requires ExtensionWellFormed(e)
    ensures x.Fits()
  {
    match e
    case Other(kind, data) => Extension(kind, data)
    case ServerName(names) => Extension(0, Vec16(NamesBytes(names)))
  }

  function EncodeAll(es: seq<HelloExtension>): (xs: seq<Extension>)
    requires AllWellFormed(es)
    ensures AllFit(xs)
  {
    if es == [] then [] else [Encode(es[0])] + EncodeAll(es[1..])
  }

  ghost predicate WellFormed(h: Hello) {
    && |h.recordVersion| == 2 && |h.versionAndRandom| == 34
    && |h.sessionId| < 0x100 && |h.cipherSuites| < 0x1_0000 && |h.compression| < 0x100
    && AllWellFormed(h.extensions)
    && BodyLength(h) + 4 < 0x1_0000
  }

  /** The length of the ClientHello after its handshake header. */
  function BodyLength(h: Hello): nat
    requires AllWellFormed(h.extensions)
  {
    34 + 1 + |h.sessionId| + 2 + |h.cipherSuites| + 1 + |h.compression| + 2 + |ExtBytes(EncodeAll(h.extensions))|
  }

  function PreambleOf(h: Hello): (p: Preamble)
    requires WellFormed(h)
    ensures p.Fits()
  {
    Preamble(h.recordVersion, BodyLength(h) + 4, [0, BodyLength(h) / 256, BodyLength(h) % 256],
             h.versionAndRandom, h.sessionId, h.cipherSuites, h.compression)
  }

  /** The ClientHello in one record, all length fields telling the truth. */
  function Serialise(h: Hello): seq<byte>
    requires WellFormed(h)
  {
    PreambleOf(h).Bytes() + (Enc16(|ExtBytes(EncodeAll(h.extensions))|) + ExtBytes(EncodeAll(h.extensions)))
  }

  /** The first server_name extension, if there is one. */
  function FirstServerName(es: seq<HelloExtension>): seq<NameEntry> {
    if es == [] then []
    else if es[0].ServerName? then es[0].names
    else FirstServerName(es[1..])
  }

  /** What section 3 of RFC 6066 means by the host name: the entry of kind host_name. */
  function HostName(names: seq<NameEntry>): seq<byte> {
    if names == [] then []
    else if names[0].kind == 0 then names[0].name
    else HostName(names[1..])
  }

  /** What the parser looks at: the first entry only. */
  function FirstEntry(names: seq<NameEntry>): seq<byte> {
    if names != [] && names[0].kind == 0 then names[0].name else []
  }

  lemma WalkServerName(buf: seq<byte>, pos: nat, names: seq<NameEntry>, end: nat)
    requires ExtensionWellFormed(ServerName(names)) && pos + 4 <= end
    requires At(buf, pos, Encode(ServerName(names)).Bytes())
    ensures Walk(buf, pos, end) == FirstEntry(names)
  {
    var e := Encode(ServerName(names));
    ExtensionFields(buf, pos, e);
    var first := EntryBytes(Enc16(|NamesBytes(names)|), names[0].kind, names[0].name);
    assert e.data == first + NamesBytes(names[1..]);
    AtSplit(buf, pos + 4, first, NamesBytes(names[1..]));
    NameFields(buf, pos + 4, Enc16(|NamesBytes(names)|), names[0].kind, names[0].name);
  }

  lemma {:induction false} WalkWellFormed(buf: seq<byte>, pos: nat, es: seq<HelloExtension>, end: nat)
    requires AllWellFormed(es)
    requires end == pos + |ExtBytes(EncodeAll(es))| && At(buf, pos, ExtBytes(EncodeAll(es)))
    ensures Walk(buf, pos, end) == FirstEntry(FirstServerName(es))
    decreases |es|
  {
    hide At, Extension.Bytes, NameAt, U16, NamesBytes;
    if es != [] {
      var e, more := Encode(es[0]), EncodeAll(es[1..]);
      assert EncodeAll(es)[0] == e && EncodeAll(es)[1..] == more;
      AtSplit(buf, pos, e.Bytes(), ExtBytes(more));
      if es[0].Other? {
        ExtensionFields(buf, pos, e);
        WalkWellFormed(buf, pos + |e.Bytes()|, es[1..], end);
      } else {
        WalkServerName(buf, pos, es[0].names, end);
      }
    }
  }

  lemma SerialisedAt(h: Hello, tail: seq<byte>)
    requires WellFormed(h)
    ensures var buf := Serialise(h) + tail;
            var p := PreambleOf(h).Bytes();
            var e := ExtBytes(EncodeAll(h.extensions));
            At(buf, 0, p) && At(buf, |p|, Enc16(|e|)) && At(buf, |p| + 2, e)
  {
    var p := PreambleOf(h).Bytes();
    var e := ExtBytes(EncodeAll(h.extensions));
    var buf := Serialise(h) + tail;
    assert buf[..|Serialise(h)|] == Serialise(h);
    AtSplit(buf, 0, p, Enc16(|e|) + e);
    AtSplit(buf, |p|, Enc16(|e|), e);
  }

  lemma ParseParts(buf: seq<byte>, p: Preamble, es: seq<HelloExtension>)
    requires p.Fits() && 5 + p.recordLength <= |buf|
    requires AllWellFormed(es)
    requires |ExtBytes(EncodeAll(es))| < 0x1_0000
    requires At(buf, 0, p.Bytes()) && At(buf, |p.Bytes()|, Enc16(|ExtBytes(EncodeAll(es))|))
    requires At(buf, |p.Bytes()| + 2, ExtBytes(EncodeAll(es)))
    ensures Parse(buf) == Name(FirstEntry(FirstServerName(es)))
  {
    hide Parse, Walk, At, Extension.Bytes, Preamble.Bytes, Encode;
    var at, n := |p.Bytes()| + 2, |ExtBytes(EncodeAll(es))|;
    ParseAfterPreamble(buf, p, n);
    WalkWellFormed(buf, at, es, at + n);
  }

  /** Serialise, append anything, parse: the first entry of the first server_name extension comes back. */
  lemma ParseSerialise(h: Hello, tail: seq<byte>)
    requires WellFormed(h)
    ensures Parse(Serialise(h) + tail) == Name(FirstEntry(FirstServerName(h.extensions)))
  {
    SerialisedAt(h, tail);
    ParseParts(Serialise(h) + tail, PreambleOf(h), h.extensions);
  }

  /**
   * The parser returns the host name exactly when host_name is the first entry of its list, or there is
   * no host name to return. Lists with another kind of name in front of it are the only exception.
   */
  lemma HostNameExactly(h: Hello, tail: seq<byte>)
    requires WellFormed(h)
    ensures var names := FirstServerName(h.extensions);
            Parse(Serialise(h) + tail) == Name(HostName(names)) <==>
            names == [] || names[0].kind == 0 || HostName(names) == []
  {
    ParseSerialise(h, tail);
  }

  /** A well-formed message whose host name is not found. */
  lemma HiddenHostName() returns (h: Hello)
    ensures WellFormed(h) && HostName(FirstServerName(h.extensions)) == [97]
    ensures Parse(Serialise(h)) == Name([])
  {
    var zeros := seq(34, _ => 0 as byte);
    var names := [NameEntry(1, []), NameEntry(0, [97])];
    assert names[1..] == [NameEntry(0, [97])] && names[1..][1..] == [];
    assert |NamesBytes(names[1..])| == 4 && |NamesBytes(names)| == 7;
    h := Hello([3, 1], zeros, [], [], [], [ServerName(names)]);
    assert h.extensions[1..] == [];
    assert |ExtBytes(EncodeAll(h.extensions))| == 13;
    ParseSerialise(h, []);
    assert Serialise(h) + [] == Serialise(h);
  }

  /** The lengths of a serialised hello tell the truth: of the record, and of the message inside it. */
  lemma LengthsAreTrue(h: Hello)
    requires WellFormed(h)
    ensures var buf := Serialise(h);
            && 9 <= |buf| == 5 + U16(buf, 3)
            && |buf| == 9 + (buf[6] as int) * 65536 + U16(buf, 7)
  {
    var p, buf := PreambleOf(h), Serialise(h);
    assert buf[..|p.Bytes()|] == p.Bytes();
    PreambleHead(p);
    assert forall i :: 0 <= i < 9 ==> buf[i] == p.Bytes()[i];
  }

  lemma PreambleHead(p: Preamble)
    requires p.Fits()
    ensures |p.Bytes()| >= 9
    ensures p.Bytes()[3..5] == Enc16(p.recordLength) && p.Bytes()[6..9] == p.handshakeLength
  {
  }
}
