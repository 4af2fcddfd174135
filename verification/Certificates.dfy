/**
 * Certificates by server name: the TLS manager walks up the labels of the name, the TCP router scans its list
 * for a domain that is the name or a dotted suffix of it.
 */
module Certificates {
  import opened Domain
  import opened Sequences

  // ----- labels -----

  /** The domain covers the name: it is the name, or what follows one of its dots. */
  predicate Covers(domain: string, name: string) {
    HasSuffix(name, "." + domain) || name == domain
  }

  /** The candidates of the walk, longest first. */
  function Candidates(name: string): seq<string> {
    var d := IndexOf(name, '.');
    [name] + if d == |name| then [] else Candidates(name[d + 1..])
  }

  lemma {:induction false} CandidatesAsMany(name: string)
    ensures |Candidates(name)| == |Split(name, '.')|
  {
    var d := IndexOf(name, '.');
    if d < |name| {
      var rest := name[d + 1..];
      CandidatesAsMany(rest);
      assert Split(name, '.') == [name[..d]] + Split(rest, '.');
      assert Candidates(name) == [name] + Candidates(rest);
    }
  }

  /** The i-th candidate is what the labels from the i-th on join to. */
  lemma {:induction false} CandidateIsJoin(name: string, i: nat)
    requires i < |Split(name, '.')|
    ensures i < |Candidates(name)| && Candidates(name)[i] == Join(Split(name, '.')[i..], '.')
  {
    var d := IndexOf(name, '.');
    if i == 0 {
      JoinSplit(name, '.');
      assert Split(name, '.')[0..] == Split(name, '.');
    } else {
      var rest := name[d + 1..];
      CandidateIsJoin(rest, i - 1);
      assert Split(name, '.') == [name[..d]] + Split(rest, '.');
      assert Split(name, '.')[i..] == Split(rest, '.')[i - 1..];
      assert Candidates(name) == [name] + Candidates(rest);
    }
  }

  /** A dotted suffix, by position. */
  lemma SuffixAt(domain: string, name: string)
    ensures HasSuffix(name, "." + domain) <==>
            |domain| < |name| && name[|name| - |domain| - 1] == '.' && name[|name| - |domain|..] == domain
  {
    if |domain| < |name| {
      var at := |name| - |domain| - 1;
      assert name[at..] == [name[at]] + name[at + 1..];
      assert ("." + domain)[0] == '.' && ("." + domain)[1..] == domain;
    }
  }

  lemma CoversShorter(domain: string, name: string)
    requires Covers(domain, name) && name != domain
    ensures var d := IndexOf(name, '.'); d < |name| && Covers(domain, name[d + 1..])
  {
    SuffixAt(domain, name);
    var at := |name| - |domain| - 1;
    var d := IndexOf(name, '.');
    var rest := name[d + 1..];
    if d == at {
      assert rest == domain;
    } else {
      assert rest[|rest| - |domain| - 1] == name[at] && rest[|rest| - |domain|..] == name[at + 1..];
      SuffixAt(domain, rest);
    }
  }

  lemma CoversLonger(domain: string, name: string, d: nat)
    requires d < |name| && name[d] == '.' && Covers(domain, name[d + 1..])
    ensures Covers(domain, name)
  {
    var rest := name[d + 1..];
    SuffixAt(domain, name);
    if rest != domain {
      SuffixAt(domain, rest);
      assert name[|name| - |domain|..] == rest[|rest| - |domain|..];
    }
  }

  /** The candidates are exactly the domains that cover the name, each strictly longer than the next. */
  lemma {:induction false} CandidatesCover(name: string)
    ensures forall domain :: domain in Candidates(name) <==> Covers(domain, name)
    ensures forall i, j :: 0 <= i < j < |Candidates(name)| ==> |Candidates(name)[i]| > |Candidates(name)[j]|
    ensures forall i :: 0 <= i < |Candidates(name)| ==> |Candidates(name)[i]| <= |name|
  {
    var d := IndexOf(name, '.');
    if d < |name| {
      var rest := name[d + 1..];
      CandidatesCover(rest);
      forall domain ensures domain in Candidates(name) <==> Covers(domain, name) {
        if Covers(domain, name) && domain != name { CoversShorter(domain, name); }
        if domain in Candidates(rest) { CoversLonger(domain, name, d); }
      }
    } else {
      forall domain | Covers(domain, name) ensures domain == name {
        if domain != name { CoversShorter(domain, name); }
      }
    }
  }

  // ----- the two lookups as functions -----

  /** The first candidate, from the given one on, that has a certificate. */
  function Walk(candidates: seq<string>, domains: set<string>): Option<string> {
    if candidates == [] then None
    else if candidates[0] in domains then Some(candidates[0])
    else Walk(candidates[1..], domains)
  }

  function Scan(list: seq<string>, name: string): Option<string> {
    if list == [] then None
    else if Covers(list[0], name) then Some(list[0])
    else Scan(list[1..], name)
  }

  lemma {:induction false} WalkFinds(candidates: seq<string>, domains: set<string>)
    requires forall i, j :: 0 <= i < j < |candidates| ==> |candidates[i]| > |candidates[j]|
    ensures var w := Walk(candidates, domains);
            && (w.None? <==> forall d :: d in candidates ==> d !in domains)
            && (w.Some? ==> w.value in candidates && w.value in domains)
            && (w.Some? ==> forall d | d in candidates && d in domains && d != w.value :: |d| < |w.value|)
  {
    if candidates != [] {
      WalkFinds(candidates[1..], domains);
      assert forall d :: d in candidates <==> d == candidates[0] || d in candidates[1..];
    }
  }

  /** The walk answers with the longest domain that covers the name, and with nothing exactly when none does. */
  lemma WalkIsLongest(name: string, domains: set<string>)
    ensures var w := Walk(Candidates(name), domains);
            && (w.None? <==> forall d :: d in domains ==> !Covers(d, name))
            && (w.Some? ==> w.value in domains && Covers(w.value, name))
            && (w.Some? ==> forall d | d in domains && Covers(d, name) && d != w.value :: |d| < |w.value|)
  {
    CandidatesCover(name);
    WalkFinds(Candidates(name), domains);
  }

  lemma {:induction false} ScanFinds(list: seq<string>, name: string)
    ensures var s := Scan(list, name);
            && (s.None? <==> forall d :: d in list ==> !Covers(d, name))
            && (s.Some? ==> s.value in list && Covers(s.value, name))
  {
    if list != [] {
      ScanFinds(list[1..], name);
      assert forall d :: d in list <==> d == list[0] || d in list[1..];
    }
  }

  ghost predicate SameDomains(list: seq<string>, domains: set<string>) {
    forall d :: d in list <==> d in domains
  }

  /** Over the same domains the walk finds a certificate exactly when the scan does. */
  lemma WalkAndScanAgree(name: string, list: seq<string>, domains: set<string>)
    requires SameDomains(list, domains)
    ensures Walk(Candidates(name), domains).Some? <==> Scan(list, name).Some?
  {
    WalkIsLongest(name, domains);
    ScanFinds(list, name);
  }

  /** No covering domain listed ahead of d, and d covers the name. */
  ghost predicate FirstCovering(list: seq<string>, name: string, i: int) {
    0 <= i < |list| && Covers(list[i], name) && forall j :: 0 <= j < i ==> !Covers(list[j], name)
  }

  lemma {:induction false} ScanIsFirst(list: seq<string>, name: string, i: nat)
    requires FirstCovering(list, name, i)
    ensures Scan(list, name) == Some(list[i])
  {
    if i > 0 {
      forall j | 0 <= j < i - 1 ensures !Covers(list[1..][j], name) {
        assert list[1..][j] == list[j + 1];
      }
      ScanIsFirst(list[1..], name, i - 1);
    }
  }

  /** They find the same certificate exactly when the first covering domain listed is also the longest. */
  lemma SameCertificateExactly(name: string, list: seq<string>, domains: set<string>, i: nat)
    requires SameDomains(list, domains) && FirstCovering(list, name, i)
    ensures Scan(list, name) == Walk(Candidates(name), domains) <==>
            forall d :: d in list && Covers(d, name) ==> |d| <= |list[i]|
  {
    WalkIsLongest(name, domains);
    ScanIsFirst(list, name, i);
    assert list[i] in list;
  }

  /** Listed in sorted order, as the raw certificates are, a base domain can come ahead of a longer one. */
  lemma ScanMaySettleForLess()
    ensures var list := ["a", "b.a"];
            SortedBy(list, StringLe) && Scan(list, "b.a") == Some("a") &&
            Walk(Candidates("b.a"), {"a", "b.a"}) == Some("b.a")
  {
    assert "b.a"[1..] == ".a";
    assert Covers("a", "b.a");
    assert Candidates("b.a")[0] == "b.a";
  }

  // ----- the certificates directory -----

  predicate IsCertificate(name: string, present: string -> bool) {
    HasSuffix(name, ".pem") && !HasSuffix(name, "-key.pem") && present(TrimSuffix(name, ".pem") + "-key.pem")
  }

  function Listed(entries: seq<string>, present: string -> bool): seq<string> {
    if entries == [] then []
    else
      var name := entries[|entries| - 1];
      Listed(entries[..|entries| - 1], present) +
      if IsCertificate(name, present) then [TrimSuffix(name, ".pem")] else []
  }

  lemma {:induction false} ListedExactly(entries: seq<string>, present: string -> bool, domain: string)
    ensures domain in Listed(entries, present) <==>
            && domain + ".pem" in entries && present(domain + "-key.pem")
            && !HasSuffix(domain + ".pem", "-key.pem")
  {
    assert HasSuffix(domain + ".pem", ".pem") && TrimSuffix(domain + ".pem", ".pem") == domain;
    if entries != [] {
      var name := entries[|entries| - 1];
      ListedExactly(entries[..|entries| - 1], present, domain);
      assert entries == entries[..|entries| - 1] + [name];
      if HasSuffix(name, ".pem") { assert name == TrimSuffix(name, ".pem") + ".pem"; }
    }
  }

  method DiscoverDomains(entries: seq<string>, present: string -> bool) returns (domains: seq<string>)
    ensures domains == SortBy(Listed(entries, present), StringLe)
  {
    domains := [];
    for i := 0 to |entries|
      invariant domains == Listed(entries[..i], present)
    {
      assert entries[..i + 1][..i] == entries[..i];
      var name := entries[i];
      if !HasSuffix(name, ".pem") || HasSuffix(name, "-key.pem") { continue; }
      var domain := TrimSuffix(name, ".pem");
      if !present(domain + "-key.pem") { continue; }
      domains := domains + [domain];
    }
    assert entries[..|entries|] == entries;
    domains := SortBy(domains, StringLe);
  }

  // ----- the TLS manager -----

  /** The least domain; a fallback that does not depend on map iteration. */
  ghost predicate Least(domain: string, domains: set<string>) {
    domain in domains && forall d :: d in domains ==> StringLe(domain, d)
  }

  function Overlay<C>(certs: map<string, C>, domains: seq<string>, load: string -> Option<C>): map<string, C> {
    if domains == [] then certs
    else
      var domain := domains[|domains| - 1];
      var before := Overlay(certs, domains[..|domains| - 1], load);
      if load(domain).Some? then before[domain := load(domain).value] else before
  }

  lemma {:induction false} OverlayHolds<C>(certs: map<string, C>, domains: seq<string>, load: string -> Option<C>,
                                           domain: string)
    ensures var after := Overlay(certs, domains, load);
            if domain in domains && load(domain).Some? then domain in after && after[domain] == load(domain).value
            else (domain in after <==> domain in certs) && (domain in after ==> after[domain] == certs[domain])
  {
    if domains != [] {
      OverlayHolds(certs, domains[..|domains| - 1], load, domain);
      assert domains == domains[..|domains| - 1] + [domains[|domains| - 1]];
    }
  }

  /** After a load a domain is served from its pair of files if that loads, else from what was there before. */
  lemma LoadedExactly<C>(certs: map<string, C>, entries: seq<string>, present: string -> bool,
                         load: string -> Option<C>, domain: string)
    ensures var after := Overlay(certs, SortBy(Listed(entries, present), StringLe), load);
            if domain + ".pem" in entries && present(domain + "-key.pem") &&
               !HasSuffix(domain + ".pem", "-key.pem") && load(domain).Some?
            then domain in after && after[domain] == load(domain).value
            else (domain in after <==> domain in certs) && (domain in after ==> after[domain] == certs[domain])
  {
    var listed := Listed(entries, present);
    ListedExactly(entries, present, domain);
    SortByPermutes(listed, StringLe);
    assert domain in SortBy(listed, StringLe) <==> domain in multiset(SortBy(listed, StringLe));
    OverlayHolds(certs, SortBy(listed, StringLe), load, domain);
  }

  class Manager<Certificate> {
    var certs: map<string, Certificate>

    constructor ()
      ensures certs == map[]
    {
      certs := map[];
    }

    /** Every pair that loads replaces or joins what is served; nothing is taken away. */
    method LoadCerts(entries: seq<string>, present: string -> bool, load: string -> Option<Certificate>)
      modifies this
      ensures certs == Overlay(old(certs), SortBy(Listed(entries, present), StringLe), load)
    {
      var domains := DiscoverDomains(entries, present);
      for i := 0 to |domains|
        invariant certs == Overlay(old(certs), domains[..i], load)
      {
        assert domains[..i + 1][..i] == domains[..i];
        var cert := load(domains[i]);
        if cert.None? { continue; }
        certs := certs[domains[i] := cert.value];
      }
      assert domains[..|domains|] == domains;
    }

    /** The longest covering domain's certificate; without one, the least domain's; none only when none is loaded. */
    method GetCertificate(serverName: string) returns (cert: Option<Certificate>)
      ensures var w := Walk(Candidates(serverName), certs.Keys);
              if w.Some? then w.value in certs && cert == Some(certs[w.value])
              else if certs == map[] then cert == None
              else exists d :: Least(d, certs.Keys) && cert == Some(certs[d])
    {
      var parts := Split(serverName, '.');
      CandidatesAsMany(serverName);
      ghost var candidates := Candidates(serverName);
      for i := 0 to |parts|
        invariant Walk(candidates, certs.Keys) == Walk(candidates[i..], certs.Keys)
      {
        CandidateIsJoin(serverName, i);
        var domain := Join(parts[i..], '.');
        if domain in certs { return Some(certs[domain]); }
      }
      if |certs| > 0 {
        var domains := Keys();
        assert certs.Keys != {};
        ghost var some :| some in certs.Keys;
        assert some in domains;
        var sorted := SortBy(domains, StringLe);
        LeastIsFirst(domains);
        assert sorted[0] in domains;
        return Some(certs[sorted[0]]);
      }
      return None;
    }

    /** The keys in some order. */
    method Keys() returns (domains: seq<string>)
      ensures forall d :: d in domains <==> d in certs
    {
      domains := [];
      var rest := certs.Keys;
      while rest != {}
        invariant rest <= certs.Keys
        invariant forall d :: d in domains <==> d in certs.Keys - rest
        decreases |rest|
      {
        var domain :| domain in rest;
        rest := rest - {domain};
        domains := domains + [domain];
      }
    }
  }

  lemma LeastIsFirst(domains: seq<string>)
    requires domains != []
    ensures var sorted := SortBy(domains, StringLe);
            sorted != [] && sorted[0] in domains && forall d :: d in domains ==> StringLe(sorted[0], d)
  {
    var sorted := SortBy(domains, StringLe);
    SortByPermutes(domains, StringLe);
    StringLeIsTotal();
    SortByOrders(domains, StringLe);
    assert sorted[0] in multiset(sorted);
    forall d | d in domains ensures StringLe(sorted[0], d) {
      assert d in multiset(sorted);
      var i :| 0 <= i < |sorted| && sorted[i] == d;
      StringLeTotal(d, d);
    }
  }

  // ----- the TCP router's list -----

  datatype TcpCert = TcpCert(cert: seq<bv8>, key: seq<bv8>, domain: string)

  function Domains(certs: seq<TcpCert>): seq<string> {
    seq(|certs|, i requires 0 <= i < |certs| => certs[i].domain)
  }

  class TcpRouter {
    var certs: seq<TcpCert>

    constructor (certs: seq<TcpCert>)
      ensures this.certs == certs
    {
      this.certs := certs;
    }

    method UpdateCerts(certs: seq<TcpCert>)
      modifies this
      ensures this.certs == certs
    {
      this.certs := certs;
    }

    /** The first listed certificate whose domain covers the name. */
    method FindCert(hostname: string) returns (found: Option<nat>)
      ensures found.None? <==> Scan(Domains(certs), hostname).None?
      ensures found.Some? ==>
                FirstCovering(Domains(certs), hostname, found.value) &&
                Scan(Domains(certs), hostname) == Some(certs[found.value].domain)
    {
      ScanFinds(Domains(certs), hostname);
      for i := 0 to |certs|
        invariant forall j :: 0 <= j < i ==> !Covers(Domains(certs)[j], hostname)
      {
        if HasSuffix(hostname, "." + certs[i].domain) || hostname == certs[i].domain {
          assert FirstCovering(Domains(certs), hostname, i);
          ScanIsFirst(Domains(certs), hostname, i);
          return Some(i);
        }
      }
      return None;
    }
  }

  // ----- replaying the buffered hello -----

  /** A connection whose peer will still send these bytes; each read takes a piece of them. */
  class Conn {
    var rest: seq<bv8>

    constructor (rest: seq<bv8>)
      ensures this.rest == rest
    {
      this.rest := rest;
    }

    method Read(room: nat, piece: nat) returns (b: seq<bv8>)
      modifies this
      ensures old(rest) == b + rest && |b| <= room
    {
      var n := if piece <= room then piece else room;
      if n > |rest| { n := |rest|; }
      b := rest[..n];
      rest := rest[n..];
    }
  }

  /** A connection that first gives back what was read from it before. */
  class PrefixedConn {
    const conn: Conn
    const prefix: seq<bv8>
    var offset: nat

    ghost predicate Valid()
      reads this
    {
      offset <= |prefix|
    }

    /** What a reader has still to see. */
    ghost function Unread(): seq<bv8>
      reads this, conn
      requires Valid()
    {
      prefix[offset..] + conn.rest
    }

    constructor (conn: Conn, prefix: seq<bv8>)
      ensures Valid() && this.conn == conn && this.prefix == prefix
      ensures Unread() == prefix + conn.rest
    {
      this.conn, this.prefix, offset := conn, prefix, 0;
    }

    /** Reads take the prefix and then the connection, nothing lost, repeated or reordered. */
    method Read(room: nat, piece: nat) returns (b: seq<bv8>)
      requires Valid()
      modifies this, conn
      ensures Valid() && old(Unread()) == b + Unread() && |b| <= room
      ensures old(offset) < |prefix| ==> conn.rest == old(conn.rest) && (room > 0 ==> b != [])
    {
      if offset < |prefix| {
        var n := if room <= |prefix| - offset then room else |prefix| - offset;
        b := prefix[offset..offset + n];
        offset := offset + n;
        return;
      }
      b := conn.Read(room, piece);
    }
  }
}
