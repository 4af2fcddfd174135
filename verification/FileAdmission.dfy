/**
 * Admission of a routes file: what is refused, and what an admitted file guarantees to the router and to its
 * health checks. Reading the file and decoding YAML are given by their outcome.
 */
module FileAdmission {
  import opened Domain
  import opened Sequences

  // ----- the decoded document -----

  /** A scalar whose type the document chooses; a float is given by its truncation. */
  datatype Value =
    | Absent | IntValue(n: int) | FloatValue(truncated: int) | StringValue(s: string) | OtherValue(text: string)

  datatype HealthConfig = HealthConfig(path: string, interval: Value, timeout: Value)

  datatype RouteConfig = RouteConfig(
    host: string, hosts: seq<string>, target: Value, targets: Option<seq<Value>>,
    path: string, strip: bool, health: Option<HealthConfig>)

  datatype TcpConfig = TcpConfig(host: string, target: Value, listen: int)

  datatype RoutesFile = RoutesFile(
    routes: seq<RouteConfig>, passthrough: seq<PassthroughDomain>, tcp: seq<TcpConfig>, expected: seq<ExpectedHost>)

  datatype Url = Url(scheme: string, hostname: string, port: string, hasUser: bool, fragment: string)

  datatype RequestUri = RequestUri(host: string, rawQuery: string, fragment: string)

  /** The library functions admission relies on, and the address port-only targets resolve to. */
  datatype Lib = Lib(
    hostAddress: string,
    isSpace: char -> bool,
    parseUrl: string -> Option<Url>,
    parseRequestUri: string -> Option<RequestUri>,
    withHost: (string, string) -> string,   // a URL with its host and port replaced
    splitHostPort: string -> Option<(string, string)>,
    joinHostPort: (string, string) -> string)

  // ----- numbers in text -----

  function DigitValue(c: char): int {
    (c as int) - ('0' as int)
  }

  function DigitsValue(s: string): int {
    if s == "" then 0 else DigitsValue(s[..|s| - 1]) * 10 + DigitValue(s[|s| - 1])
  }

  /** Decimal text to number. A number out of the machine's range is out of every range checked here too. */
  function Atoi(s: string): Option<int> {
    if AllDigits(s) then Some(DigitsValue(s))
    else if s != "" && s[0] == '-' && AllDigits(s[1..]) then Some(-DigitsValue(s[1..]))
    else if s != "" && s[0] == '+' && AllDigits(s[1..]) then Some(DigitsValue(s[1..]))
    else None
  }

  /** Digits, with or without a sign, are read as their value; any other text is no number. */
  lemma AtoiExactly(s: string, digits: string)
    requires AllDigits(digits)
    ensures s == digits || s == "+" + digits ==> Atoi(s) == Some(DigitsValue(digits))
    ensures s == "-" + digits ==> Atoi(s) == Some(-DigitsValue(digits))
    ensures Atoi(s).Some? ==> exists d :: AllDigits(d) && (s == d || s == "+" + d || s == "-" + d)
  {
    if s == "+" + digits || s == "-" + digits {
      assert s[1..] == digits && !IsDigit(s[0]);
      assert !AllDigits(s);
    }
    if Atoi(s).Some? && !AllDigits(s) {
      assert s == [s[0]] + s[1..];
      assert s == "+" + s[1..] || s == "-" + s[1..];
    }
  }

  function DecimalNat(n: nat): (s: string)
    ensures AllDigits(s)
  {
    if n < 10 then [('0' as int + n) as char]
    else DecimalNat(n / 10) + [('0' as int + n % 10) as char]
  }

  function Decimal(n: int): string {
    if n < 0 then "-" + DecimalNat(-n) else DecimalNat(n)
  }

  lemma {:induction false} DecimalReadsBack(n: nat)
    ensures DigitsValue(DecimalNat(n)) == n
  {
    var s := DecimalNat(n);
    if n < 10 {
      assert s[..|s| - 1] == "";
    } else {
      DecimalReadsBack(n / 10);
      assert s[..|s| - 1] == DecimalNat(n / 10);
    }
  }

  predicate InPortRange(s: string) {
    Atoi(s).Some? && 1 <= Atoi(s).value <= 65535
  }

  // ----- host names -----

  function TrimLeft(s: string, isSpace: char -> bool): string {
    if s != "" && isSpace(s[0]) then TrimLeft(s[1..], isSpace) else s
  }

  function TrimRight(s: string, isSpace: char -> bool): string {
    if s != "" && isSpace(s[|s| - 1]) then TrimRight(s[..|s| - 1], isSpace) else s
  }

  function Trim(s: string, isSpace: char -> bool): string {
    TrimRight(TrimLeft(s, isSpace), isSpace)
  }

  lemma {:induction false} LeftTrimmed(s: string, isSpace: char -> bool) returns (k: nat)
    ensures k <= |s| && TrimLeft(s, isSpace) == s[k..] && forall i :: 0 <= i < k ==> isSpace(s[i])
    ensures k < |s| ==> !isSpace(s[k])
  {
    k := 0;
    if s != "" && isSpace(s[0]) {
      var j := LeftTrimmed(s[1..], isSpace);
      k := j + 1;
      assert s[1..][j..] == s[k..];
    }
  }

  lemma {:induction false} RightTrimmed(s: string, isSpace: char -> bool) returns (k: nat)
    ensures k <= |s| && TrimRight(s, isSpace) == s[..k] && forall i :: k <= i < |s| ==> isSpace(s[i])
    ensures k > 0 ==> !isSpace(s[k - 1])
  {
    k := |s|;
    if s != "" && isSpace(s[|s| - 1]) {
      k := RightTrimmed(s[..|s| - 1], isSpace);
      assert s[..|s| - 1][..k] == s[..k];
    }
  }

  /** Trimming takes the space off both ends and nothing else. */
  lemma TrimExactly(s: string, isSpace: char -> bool)
    ensures exists i, j :: 0 <= i <= j <= |s| && Trim(s, isSpace) == s[i..j] &&
              (forall k :: 0 <= k < i || j <= k < |s| ==> isSpace(s[k])) &&
              (i < j ==> !isSpace(s[i]) && !isSpace(s[j - 1]))
  {
    var i := LeftTrimmed(s, isSpace);
    var n := RightTrimmed(s[i..], isSpace);
    assert s[i..][..n] == s[i..i + n];
    forall k | i + n <= k < |s| ensures isSpace(s[k]) { assert s[i..][k - i] == s[k]; }
    if n > 0 { assert s[i..][0] == s[i] && s[i..][n - 1] == s[i + n - 1]; }
  }

  /** The trimmed, non-blank entries, each where it first appears. */
  function Names(entries: seq<string>, isSpace: char -> bool): seq<string> {
    if entries == [] then []
    else
      var before := Names(entries[..|entries| - 1], isSpace);
      var name := Trim(entries[|entries| - 1], isSpace);
      if name == "" || name in before then before else before + [name]
  }

  function HostNames(lib: Lib, r: RouteConfig): seq<string> {
    Names([r.host] + r.hosts, lib.isSpace)
  }

  lemma {:induction false} NamesAre(entries: seq<string>, isSpace: char -> bool)
    ensures NoDuplicates(Names(entries, isSpace))
    ensures forall x :: x in Names(entries, isSpace) <==> x != "" && exists e :: e in entries && Trim(e, isSpace) == x
  {
    if entries != [] {
      NamesAre(entries[..|entries| - 1], isSpace);
      assert entries == entries[..|entries| - 1] + [entries[|entries| - 1]];
    }
  }

  method Hostnames(lib: Lib, r: RouteConfig) returns (out: seq<string>)
    ensures out == HostNames(lib, r)
  {
    var entries := [r.host] + r.hosts;
    var seen: map<string, bool> := map[];
    out := [];
    for i := 0 to |entries|
      invariant out == Names(entries[..i], lib.isSpace)
      invariant forall x :: x in seen <==> x in out
    {
      assert entries[..i + 1][..i] == entries[..i];
      var hostname := Trim(entries[i], lib.isSpace);
      if hostname == "" || hostname in seen { continue; }
      seen := seen[hostname := true];
      out := out + [hostname];
    }
    assert entries[..|entries|] == entries;
  }

  // ----- targets -----

  const DOCKER_HOST: string := "host.docker.internal"

  /** A URL of the Docker host is sent to the address that was detected for it, if one was. */
  function RewriteHost(lib: Lib, raw: string): string {
    if lib.hostAddress == "" || lib.hostAddress == DOCKER_HOST then raw
    else
      var u := lib.parseUrl(raw);
      if u.None? || u.value.hostname != DOCKER_HOST then raw
      else
        var port := u.value.port;
        lib.withHost(raw, if port != "" then lib.joinHostPort(lib.hostAddress, port) else lib.hostAddress)
  }

  function ResolveTarget(lib: Lib, v: Value): string {
    match v
    case IntValue(n) => "http://" + lib.hostAddress + ":" + Decimal(n)
    case FloatValue(n) => "http://" + lib.hostAddress + ":" + Decimal(n)
    case StringValue(s) => if AllDigits(s) then "http://" + lib.hostAddress + ":" + s else RewriteHost(lib, s)
    case OtherValue(text) => text
    case Absent => "<nil>"
  }

  predicate HttpTarget(lib: Lib, target: string) {
    var u := lib.parseUrl(target);
    && u.Some? && (u.value.scheme == "http" || u.value.scheme == "https")
    && u.value.hostname != "" && !u.value.hasUser && u.value.fragment == ""
  }

  predicate PortOk(lib: Lib, target: string) {
    var u := lib.parseUrl(target);
    u.Some? ==> u.value.port == "" || InPortRange(u.value.port)
  }

  function PortOrZero(s: string): int {
    if Atoi(s).Some? then Atoi(s).value else 0
  }

  function ResolveTcpTarget(lib: Lib, v: Value): (string, int) {
    match v
    case IntValue(n) => (lib.hostAddress, n)
    case FloatValue(n) => (lib.hostAddress, n)
    case StringValue(s) =>
      if AllDigits(s) then (lib.hostAddress, PortOrZero(s))
      else if IndexOf(s, ':') < |s| then (s[..IndexOf(s, ':')], PortOrZero(s[IndexOf(s, ':') + 1..]))
      else (s, 0)
    case _ => (lib.hostAddress, 0)
  }

  predicate ValidPassthroughTarget(lib: Lib, target: string) {
    target == "" || target == "traefik" ||
    (var hp := lib.splitHostPort(target); hp.Some? && hp.value.0 != "" && InPortRange(hp.value.1))
  }

  // ----- one route record -----

  datatype LoadError =
    | BadHealth(index: nat) | BadTargets(index: nat) | BadReplica(index: nat) | BadTarget(index: nat)
    | BadPort(index: nat) | DuplicateTarget(index: nat) | TooManyChecks
    | NoHost | BadRouteTarget | BadTcp | BadPassthrough
    | NoFile | EmptyDocument | BadYaml | NoCollection | NotSequence(key: string) | NoSection | BadRecords

  predicate HealthOk(lib: Lib, h: HealthConfig, pooled: bool) {
    var u := lib.parseRequestUri(h.path);
    && h.interval.IntValue? && h.timeout.IntValue? && pooled && u.Some?
    && HasPrefix(h.path, "/") && !HasPrefix(h.path, "//")
    && (forall c :: c in h.path ==> c !in "?#\r\n") && |h.path| <= 256
    && u.value.rawQuery == "" && u.value.fragment == "" && u.value.host == ""
    && 5 <= h.interval.n <= 300 && 1 <= h.timeout.n <= 10 && h.timeout.n <= h.interval.n
  }

  function HealthOf(r: RouteConfig): Option<HealthCheck> {
    if r.health.Some? && r.health.value.interval.IntValue? && r.health.value.timeout.IntValue?
    then Some(HealthCheck(r.health.value.path, r.health.value.interval.n, r.health.value.timeout.n))
    else None
  }

  function PoolName(index: nat): string {
    "static:" + DecimalNat(index)
  }

  function PoolOf(index: nat, r: RouteConfig): string {
    if r.targets.Some? then PoolName(index) else ""
  }

  function PathOf(r: RouteConfig): string {
    if r.path == "" then "/" else r.path
  }

  function Values(r: RouteConfig): seq<Value> {
    if r.targets.Some? then r.targets.value else [r.target]
  }

  function Targets(lib: Lib, values: seq<Value>): seq<string> {
    seq(|values|, i requires 0 <= i < |values| => ResolveTarget(lib, values[i]))
  }

  /** What is wrong with the last of these values, the ones before it being fine. */
  function ValueError(lib: Lib, index: nat, pooled: bool, values: seq<Value>): Option<LoadError>
    requires values != []
  {
    var n := |values| - 1;
    var target := ResolveTarget(lib, values[n]);
    if pooled && !values[n].IntValue? && !values[n].StringValue? then Some(BadReplica(index))
    else if !HttpTarget(lib, target) then Some(BadTarget(index))
    else if !PortOk(lib, target) then Some(BadPort(index))
    else if target in Targets(lib, values[..n]) then Some(DuplicateTarget(index))
    else None
  }

  function ValuesError(lib: Lib, index: nat, pooled: bool, values: seq<Value>): Option<LoadError> {
    if values == [] then None
    else
      var before := ValuesError(lib, index, pooled, values[..|values| - 1]);
      if before.Some? then before else ValueError(lib, index, pooled, values)
  }

  function RecordError(lib: Lib, index: nat, r: RouteConfig): Option<LoadError> {
    if r.health.Some? && !HealthOk(lib, r.health.value, r.targets.Some?) then Some(BadHealth(index))
    else if r.targets.Some? && (!r.target.Absent? || |r.targets.value| < 1 || |r.targets.value| > 32) then
      Some(BadTargets(index))
    else ValuesError(lib, index, r.targets.Some?, Values(r))
  }

  function MakeRoute(index: nat, r: RouteConfig, target: string, hostname: string): Route {
    Route(hostname, false, PathOf(r), target, PoolOf(index, r), HealthOf(r), r.strip, false, "static", "")
  }

  function OnHosts(index: nat, r: RouteConfig, target: string, names: seq<string>): seq<Route> {
    seq(|names|, i requires 0 <= i < |names| => MakeRoute(index, r, target, names[i]))
  }

  /** The routes of a record: for each target in order, one per host name in order. */
  function ExpandTargets(index: nat, r: RouteConfig, targets: seq<string>, names: seq<string>): seq<Route> {
    if targets == [] then []
    else ExpandTargets(index, r, targets[..|targets| - 1], names) + OnHosts(index, r, targets[|targets| - 1], names)
  }

  function Expand(lib: Lib, index: nat, r: RouteConfig): seq<Route> {
    ExpandTargets(index, r, Targets(lib, Values(r)), HostNames(lib, r))
  }

  function ExpandAll(lib: Lib, records: seq<RouteConfig>): seq<Route> {
    if records == [] then []
    else ExpandAll(lib, records[..|records| - 1]) + Expand(lib, |records| - 1, records[|records| - 1])
  }

  function FirstError(lib: Lib, records: seq<RouteConfig>): Option<LoadError> {
    if records == [] then None
    else
      var before := FirstError(lib, records[..|records| - 1]);
      if before.Some? then before else RecordError(lib, |records| - 1, records[|records| - 1])
  }

  // ----- loading and checking -----

  predicate HealthChecked(r: Route) {
    r.health.Some?
  }

  /** The first thing the loader refuses. */
  function LoadFailure(lib: Lib, f: RoutesFile): Option<LoadError> {
    var first := FirstError(lib, f.routes);
    if first.Some? then first
    else if |Filter(ExpandAll(lib, f.routes), HealthChecked)| > 128 then Some(TooManyChecks)
    else None
  }

  /** The checks on one value; earlier values are known by the set of their targets. */
  method CheckValue(lib: Lib, index: nat, pooled: bool, value: Value, seen: map<string, bool>, ghost values: seq<Value>)
    returns (bad: Option<LoadError>, target: string)
    requires values != [] && value == values[|values| - 1]
    requires forall t :: t in seen <==> t in Targets(lib, values[..|values| - 1])
    ensures bad == ValueError(lib, index, pooled, values)
    ensures bad.None? ==> target == ResolveTarget(lib, value)
  {
    if pooled && !value.IntValue? && !value.StringValue? { return Some(BadReplica(index)), ""; }
    target := ResolveTarget(lib, value);
    if !HttpTarget(lib, target) { return Some(BadTarget(index)), ""; }
    if !PortOk(lib, target) { return Some(BadPort(index)), ""; }
    if target in seen { return Some(DuplicateTarget(index)), ""; }
    return None, target;
  }

  method AppendRoutes(routes: seq<Route>, index: nat, r: RouteConfig, target: string, names: seq<string>)
    returns (out: seq<Route>)
    ensures out == routes + OnHosts(index, r, target, names)
  {
    out := routes;
    for j := 0 to |names|
      invariant out == routes + OnHosts(index, r, target, names[..j])
    {
      out := out + [MakeRoute(index, r, target, names[j])];
      assert OnHosts(index, r, target, names[..j + 1]) ==
             OnHosts(index, r, target, names[..j]) + [MakeRoute(index, r, target, names[j])];
    }
    assert names[..|names|] == names;
  }

  lemma TargetsSnoc(lib: Lib, values: seq<Value>, k: nat)
    requires k < |values|
    ensures values[..k + 1][..k] == values[..k]
    ensures Targets(lib, values[..k + 1]) == Targets(lib, values[..k]) + [ResolveTarget(lib, values[k])]
  {
  }

  lemma ExpandSnoc(index: nat, r: RouteConfig, targets: seq<string>, target: string, names: seq<string>)
    ensures ExpandTargets(index, r, targets + [target], names) ==
            ExpandTargets(index, r, targets, names) + OnHosts(index, r, target, names)
  {
    assert (targets + [target])[..|targets|] == targets;
  }

  method LoadValues(lib: Lib, index: nat, r: RouteConfig, values: seq<Value>, names: seq<string>)
    returns (err: Option<LoadError>, routes: seq<Route>)
    ensures err == ValuesError(lib, index, r.targets.Some?, values)
    ensures err.None? ==> routes == ExpandTargets(index, r, Targets(lib, values), names)
  {
    routes := [];
    var seen: map<string, bool> := map[];
    for k := 0 to |values|
      invariant ValuesError(lib, index, r.targets.Some?, values[..k]).None?
      invariant routes == ExpandTargets(index, r, Targets(lib, values[..k]), names)
      invariant forall t :: t in seen <==> t in Targets(lib, values[..k])
    {
      TargetsSnoc(lib, values, k);
      var bad, target := CheckValue(lib, index, r.targets.Some?, values[k], seen, values[..k + 1]);
      if bad.Some? {
        ErrorSticks(lib, index, r.targets.Some?, values, k + 1);
        return bad, routes;
      }
      seen := seen[target := true];
      ExpandSnoc(index, r, Targets(lib, values[..k]), target, names);
      routes := AppendRoutes(routes, index, r, target, names);
    }
    assert values[..|values|] == values;
    return None, routes;
  }

  method LoadRecord(lib: Lib, index: nat, r: RouteConfig) returns (err: Option<LoadError>, routes: seq<Route>)
    ensures err == RecordError(lib, index, r)
    ensures err.None? ==> routes == Expand(lib, index, r)
  {
    if r.health.Some? {
      var h := r.health.value;
      if !HealthOk(lib, h, r.targets.Some?) { return Some(BadHealth(index)), []; }
    }
    var values := [r.target];
    if r.targets.Some? {
      if !r.target.Absent? || |r.targets.value| < 1 || |r.targets.value| > 32 { return Some(BadTargets(index)), []; }
      values := r.targets.value;
    }
    var names := Hostnames(lib, r);
    err, routes := LoadValues(lib, index, r, values, names);
  }

  lemma {:induction false} ErrorSticks(lib: Lib, index: nat, pooled: bool, values: seq<Value>, k: nat)
    requires k <= |values| && ValuesError(lib, index, pooled, values[..k]).Some?
    ensures ValuesError(lib, index, pooled, values) == ValuesError(lib, index, pooled, values[..k])
    decreases |values|
  {
    if k < |values| {
      var before := values[..|values| - 1];
      assert before[..k] == values[..k];
      ErrorSticks(lib, index, pooled, before, k);
    } else {
      assert values[..k] == values;
    }
  }

  lemma {:induction false} FirstErrorSticks(lib: Lib, records: seq<RouteConfig>, k: nat)
    requires k <= |records| && FirstError(lib, records[..k]).Some?
    ensures FirstError(lib, records) == FirstError(lib, records[..k])
    decreases |records|
  {
    if k < |records| {
      var before := records[..|records| - 1];
      assert before[..k] == records[..k];
      FirstErrorSticks(lib, before, k);
    } else {
      assert records[..k] == records;
    }
  }

  // ----- the document before its records -----

  /** An entry of the document's mapping: its key, and whether its value is a sequence. */
  datatype Entry = Entry(key: string, isSequence: bool)

  /** The file as found. A mapping comes with what it decodes to, if it does. */
  datatype Document = Missing | Blank | NotYaml | NoMapping | Mapping(entries: seq<Entry>, decoded: Option<RoutesFile>)

  predicate Section(key: string) {
    key == "routes" || key == "tcp" || key == "passthrough" || key == "expect"
  }

  /** The document names at least one collection, and each one it names as a sequence. */
  ghost predicate Explicit(d: Document) {
    && d.Mapping? && d.decoded.Some?
    && (exists e :: e in d.entries && Section(e.key))
    && (forall e :: e in d.entries && Section(e.key) ==> e.isSequence)
  }

  /** The first collection that is no sequence. */
  function FirstScalar(entries: seq<Entry>): (key: Option<string>)
    ensures key.None? <==> forall e :: e in entries && Section(e.key) ==> e.isSequence
  {
    if entries == [] then None
    else if Section(entries[0].key) && !entries[0].isSequence then Some(entries[0].key)
    else FirstScalar(entries[1..])
  }

  ghost function DocumentFailure(d: Document): Option<LoadError> {
    match d
    case Missing => Some(NoFile)
    case Blank => Some(EmptyDocument)
    case NotYaml => Some(BadYaml)
    case NoMapping => Some(NoCollection)
    case Mapping(entries, decoded) =>
      if FirstScalar(entries).Some? then Some(NotSequence(FirstScalar(entries).value))
      else if !exists e :: e in entries && Section(e.key) then Some(NoSection)
      else if decoded.None? then Some(BadRecords)
      else None
  }

  method ReadKeys(entries: seq<Entry>) returns (scalar: Option<string>, explicit: bool)
    ensures scalar == FirstScalar(entries)
    ensures scalar.None? ==> (explicit <==> exists e :: e in entries && Section(e.key))
  {
    hide Section;
    explicit := false;
    for i := 0 to |entries|
      invariant FirstScalar(entries) == FirstScalar(entries[i..])
      invariant explicit <==> exists e :: e in entries[..i] && Section(e.key)
    {
      var entry := entries[i];
      assert entries[..i + 1] == entries[..i] + [entry];
      if Section(entry.key) {
        if !entry.isSequence { return Some(entry.key), explicit; }
        explicit := true;
      }
    }
    assert entries[..|entries|] == entries;
    return None, explicit;
  }

  method ReadDocument(d: Document) returns (err: Option<LoadError>, f: RoutesFile)
    ensures err == DocumentFailure(d)
    ensures err.None? <==> Explicit(d)
    ensures err.None? ==> f == d.decoded.value
  {
    hide Section;
    f := RoutesFile([], [], [], []);
    if d.Missing? { return Some(NoFile), f; }
    if d.Blank? { return Some(EmptyDocument), f; }
    if d.NotYaml? { return Some(BadYaml), f; }
    if d.NoMapping? { return Some(NoCollection), f; }
    var scalar, explicit := ReadKeys(d.entries);
    if scalar.Some? { return Some(NotSequence(scalar.value)), f; }
    if !explicit { return Some(NoSection), f; }
    if d.decoded.None? { return Some(BadRecords), f; }
    return None, d.decoded.value;
  }

  method LoadRecords(lib: Lib, f: RoutesFile) returns (err: Option<LoadError>, routes: seq<Route>, tcp: seq<TcpRoute>)
    ensures err == LoadFailure(lib, f)
    ensures err.None? ==> routes == ExpandAll(lib, f.routes) && tcp == TcpRoutes(lib, f.tcp)
  {
    hide RecordError, Expand, Filter;
    routes, tcp := [], [];
    for i := 0 to |f.routes|
      invariant FirstError(lib, f.routes[..i]).None?
      invariant routes == ExpandAll(lib, f.routes[..i])
    {
      assert f.routes[..i + 1][..i] == f.routes[..i];
      var bad, more := LoadRecord(lib, i, f.routes[i]);
      if bad.Some? {
        FirstErrorSticks(lib, f.routes, i + 1);
        return bad, routes + more, [];
      }
      routes := routes + more;
    }
    assert f.routes[..|f.routes|] == f.routes;
    var checked := CountChecked(routes);
    if checked > 128 { return Some(TooManyChecks), routes, []; }
    tcp := LoadTcp(lib, f.tcp);
    return None, routes, tcp;
  }

  method LoadFileParsed(lib: Lib, d: Document)
    returns (err: Option<LoadError>, parsed: RoutesFile, routes: seq<Route>, tcp: seq<TcpRoute>)
    ensures err == if DocumentFailure(d).Some? then DocumentFailure(d) else LoadFailure(lib, d.decoded.value)
    ensures err.None? ==> Explicit(d) && parsed == d.decoded.value
    ensures err.None? ==> routes == ExpandAll(lib, parsed.routes) && tcp == TcpRoutes(lib, parsed.tcp)
  {
    routes, tcp := [], [];
    err, parsed := ReadDocument(d);
    if err.None? { err, routes, tcp := LoadRecords(lib, parsed); }
  }

  method CountChecked(routes: seq<Route>) returns (checked: nat)
    ensures checked == |Filter(routes, HealthChecked)|
  {
    checked := 0;
    for i := 0 to |routes|
      invariant checked == |Filter(routes[..i], HealthChecked)|
    {
      assert routes[..i + 1][..i] == routes[..i];
      if routes[i].health.Some? { checked := checked + 1; }
    }
    assert routes[..|routes|] == routes;
  }

  method LoadTcp(lib: Lib, configs: seq<TcpConfig>) returns (tcp: seq<TcpRoute>)
    ensures tcp == TcpRoutes(lib, configs)
  {
    tcp := [];
    for i := 0 to |configs|
      invariant tcp == TcpRoutes(lib, configs[..i])
    {
      var t := configs[i];
      var (host, port) := ResolveTcpTarget(lib, t.target);
      tcp := tcp + [TcpRoute(t.host, host, port, t.listen, "static")];
    }
    assert configs[..|configs|] == configs;
  }

  function TcpRoutes(lib: Lib, configs: seq<TcpConfig>): seq<TcpRoute> {
    seq(|configs|, i requires 0 <= i < |configs| =>
      var (host, port) := ResolveTcpTarget(lib, configs[i].target);
      TcpRoute(configs[i].host, host, port, configs[i].listen, "static"))
  }

  predicate TcpOk(t: TcpRoute) {
    t.hostname != "" && t.targetHost != "" && 1 <= t.targetPort <= 65535 && 1 <= t.listenPort <= 65535
  }

  predicate PassthroughOk(lib: Lib, p: PassthroughDomain) {
    p.domain != "" && ValidPassthroughTarget(lib, p.target)
  }

  /** Check's own pass over the routes is weaker on fragments than the loader's. */
  predicate CheckedTarget(lib: Lib, target: string) {
    var u := lib.parseUrl(target);
    && u.Some? && (u.value.scheme == "http" || u.value.scheme == "https")
    && u.value.hostname != "" && !u.value.hasUser
    && (u.value.port == "" || InPortRange(u.value.port))
  }

  // ----- the whole check -----

  /** What a load without errors publishes. */
  function Loaded(lib: Lib, f: RoutesFile): Message {
    Message("file", None, ExpandAll(lib, f.routes), TcpRoutes(lib, f.tcp), f.passthrough, f.expected)
  }

  /** The first thing the check refuses. */
  ghost function CheckFailure(lib: Lib, f: RoutesFile): Option<LoadError> {
    var load := LoadFailure(lib, f);
    if load.Some? then load
    else if exists r :: r in f.routes && HostNames(lib, r) == [] then Some(NoHost)
    else if exists r :: r in ExpandAll(lib, f.routes) && !CheckedTarget(lib, r.target) then Some(BadRouteTarget)
    else if exists t :: t in TcpRoutes(lib, f.tcp) && !TcpOk(t) then Some(BadTcp)
    else if exists p :: p in f.passthrough && !PassthroughOk(lib, p) then Some(BadPassthrough)
    else None
  }

  method Check(lib: Lib, d: Document) returns (msg: Message, err: Option<LoadError>)
    ensures err == if DocumentFailure(d).Some? then DocumentFailure(d) else CheckFailure(lib, d.decoded.value)
    ensures err.None? ==> Explicit(d) && msg == Loaded(lib, d.decoded.value)
  {
    var load, parsed, routes, tcp := LoadFileParsed(lib, d);
    if load.Some? {
      return Message("file", Some("load"), routes, [], [], []), load;
    }
    msg := Message("file", None, routes, tcp, parsed.passthrough, parsed.expected);
    var named := AllNamed(lib, parsed.routes);
    if !named { return msg, Some(NoHost); }
    var targeted := AllTargeted(lib, routes);
    if !targeted { return msg, Some(BadRouteTarget); }
    var tcpOk := AllTcpOk(tcp);
    if !tcpOk { return msg, Some(BadTcp); }
    var passthroughOk := AllPassthroughOk(lib, parsed.passthrough);
    if !passthroughOk { return msg, Some(BadPassthrough); }
    return msg, None;
  }

  method AllNamed(lib: Lib, records: seq<RouteConfig>) returns (ok: bool)
    ensures ok <==> forall r :: r in records ==> HostNames(lib, r) != []
  {
    for i := 0 to |records|
      invariant forall k :: 0 <= k < i ==> HostNames(lib, records[k]) != []
    {
      var names := Hostnames(lib, records[i]);
      if |names| == 0 { return false; }
    }
    return true;
  }

  method AllTargeted(lib: Lib, routes: seq<Route>) returns (ok: bool)
    ensures ok <==> forall r :: r in routes ==> CheckedTarget(lib, r.target)
  {
    for i := 0 to |routes|
      invariant forall k :: 0 <= k < i ==> CheckedTarget(lib, routes[k].target)
    {
      if !CheckedTarget(lib, routes[i].target) { return false; }
    }
    return true;
  }

  method AllTcpOk(tcp: seq<TcpRoute>) returns (ok: bool)
    ensures ok <==> forall t :: t in tcp ==> TcpOk(t)
  {
    for i := 0 to |tcp|
      invariant forall k :: 0 <= k < i ==> TcpOk(tcp[k])
    {
      if !TcpOk(tcp[i]) { return false; }
    }
    return true;
  }

  method AllPassthroughOk(lib: Lib, passthrough: seq<PassthroughDomain>) returns (ok: bool)
    ensures ok <==> forall p :: p in passthrough ==> PassthroughOk(lib, p)
  {
    for i := 0 to |passthrough|
      invariant forall k :: 0 <= k < i ==> PassthroughOk(lib, passthrough[k])
    {
      if !PassthroughOk(lib, passthrough[i]) { return false; }
    }
    return true;
  }

  /** What a reload publishes: the whole file, or a message that carries an error. */
  method LoadFile(lib: Lib, d: Document) returns (msg: Message)
    ensures msg.err.None? <==> Explicit(d) && CheckFailure(lib, d.decoded.value).None?
    ensures msg.err.None? ==> msg == Loaded(lib, d.decoded.value)
  {
    var err;
    msg, err := Check(lib, d);
    if err.Some? { msg := msg.(err := Some("refused")); }
  }

  // ----- what is accepted, without the order of the checks -----

  ghost predicate ValuesOk(lib: Lib, pooled: bool, values: seq<Value>) {
    && (forall v :: v in values ==>
          && (pooled ==> v.IntValue? || v.StringValue?)
          && HttpTarget(lib, ResolveTarget(lib, v)) && PortOk(lib, ResolveTarget(lib, v)))
    && NoDuplicates(Targets(lib, values))
  }

  ghost predicate RecordOk(lib: Lib, r: RouteConfig) {
    && (r.health.Some? ==> HealthOk(lib, r.health.value, r.targets.Some?))
    && (r.targets.Some? ==> r.target.Absent? && 1 <= |r.targets.value| <= 32)
    && ValuesOk(lib, r.targets.Some?, Values(r))
  }

  /** The host and backend pairs that records with a health check ask to be probed. */
  function ProbedPairs(lib: Lib, records: seq<RouteConfig>): nat {
    if records == [] then 0
    else
      var r := records[|records| - 1];
      ProbedPairs(lib, records[..|records| - 1]) + if r.health.Some? then |Values(r)| * |HostNames(lib, r)| else 0
  }

  ghost predicate Admissible(lib: Lib, f: RoutesFile) {
    && (forall r :: r in f.routes ==> RecordOk(lib, r) && HostNames(lib, r) != [])
    && ProbedPairs(lib, f.routes) <= 128
    && (forall t :: t in TcpRoutes(lib, f.tcp) ==> TcpOk(t))
    && (forall p :: p in f.passthrough ==> PassthroughOk(lib, p))
  }

  lemma {:induction false} ValuesAccepted(lib: Lib, index: nat, pooled: bool, values: seq<Value>)
    ensures ValuesError(lib, index, pooled, values).None? <==> ValuesOk(lib, pooled, values)
  {
    hide HttpTarget, PortOk, ResolveTarget;
    if values != [] {
      var n := |values| - 1;
      ValuesAccepted(lib, index, pooled, values[..n]);
      assert values == values[..n] + [values[n]];
      TargetsSnoc(lib, values, n);
      assert values[..n + 1] == values;
      DistinctSnoc(Targets(lib, values[..n]), ResolveTarget(lib, values[n]));
    }
  }

  lemma DistinctSnoc<T>(s: seq<T>, x: T)
    ensures NoDuplicates(s + [x]) <==> NoDuplicates(s) && x !in s
  {
    assert forall i :: 0 <= i < |s| ==> (s + [x])[i] == s[i];
    assert (s + [x])[|s|] == x;
  }

  lemma RecordAccepted(lib: Lib, index: nat, r: RouteConfig)
    ensures RecordError(lib, index, r).None? <==> RecordOk(lib, r)
  {
    ValuesAccepted(lib, index, r.targets.Some?, Values(r));
  }

  lemma {:induction false} RecordsAccepted(lib: Lib, records: seq<RouteConfig>)
    ensures FirstError(lib, records).None? <==> forall r :: r in records ==> RecordOk(lib, r)
  {
    hide RecordOk, RecordError;
    if records != [] {
      var n := |records| - 1;
      RecordsAccepted(lib, records[..n]);
      assert records == records[..n] + [records[n]];
      RecordAccepted(lib, n, records[n]);
    }
  }

  lemma {:induction false} ExpandedSize(index: nat, r: RouteConfig, targets: seq<string>, names: seq<string>)
    ensures |ExpandTargets(index, r, targets, names)| == |targets| * |names|
    ensures forall x :: x in ExpandTargets(index, r, targets, names) ==>
              exists t, h :: t in targets && h in names && x == MakeRoute(index, r, t, h)
  {
    if targets != [] {
      var n := |targets| - 1;
      ExpandedSize(index, r, targets[..n], names);
      assert targets == targets[..n] + [targets[n]];
      assert |targets| * |names| == n * |names| + |names|;
      forall x | x in ExpandTargets(index, r, targets, names)
        ensures exists t, h :: t in targets && h in names && x == MakeRoute(index, r, t, h)
      {
        if x in ExpandTargets(index, r, targets[..n], names) {
          var t, h :| t in targets[..n] && h in names && x == MakeRoute(index, r, t, h);
        } else {
          var on := OnHosts(index, r, targets[n], names);
          var i :| 0 <= i < |on| && on[i] == x;
          assert targets[n] in targets && names[i] in names && x == MakeRoute(index, r, targets[n], names[i]);
        }
      }
    }
  }

  lemma {:induction false} FilterEverything<T>(s: seq<T>, keep: T -> bool)
    requires forall x :: x in s ==> keep(x)
    ensures Filter(s, keep) == s
  {
    if s != [] {
      FilterEverything(s[..|s| - 1], keep);
      assert s == s[..|s| - 1] + [s[|s| - 1]];
    }
  }

  lemma PairsOfRecord(lib: Lib, n: nat, r: RouteConfig)
    requires RecordOk(lib, r)
    ensures |Filter(Expand(lib, n, r), HealthChecked)| ==
            if r.health.Some? then |Values(r)| * |HostNames(lib, r)| else 0
  {
    hide Filter, HostNames;
    var here := Expand(lib, n, r);
    ExpandedSize(n, r, Targets(lib, Values(r)), HostNames(lib, r));
    if r.health.Some? { FilterEverything(here, HealthChecked); } else { FilterNothing(here, HealthChecked); }
  }

  lemma {:induction false} PairsCounted(lib: Lib, records: seq<RouteConfig>)
    requires forall r :: r in records ==> RecordOk(lib, r)
    ensures |Filter(ExpandAll(lib, records), HealthChecked)| == ProbedPairs(lib, records)
  {
    if records != [] {
      hide Filter, Expand, HostNames, RecordOk;
      var n := |records| - 1;
      assert forall x :: x in records[..n] ==> x in records;
      PairsCounted(lib, records[..n]);
      assert records[n] in records;
      PairsOfRecord(lib, n, records[n]);
      FilterConcat(ExpandAll(lib, records[..n]), Expand(lib, n, records[n]), HealthChecked);
    }
  }

  lemma {:induction false} ExpandedFrom(lib: Lib, records: seq<RouteConfig>, x: Route)
    requires x in ExpandAll(lib, records)
    ensures exists n: nat, t, h :: Expands(lib, records, n, t, h) && x == MakeRoute(n, records[n], t, h)
  {
    var n := |records| - 1;
    if x in Expand(lib, n, records[n]) {
      ExpandedSize(n, records[n], Targets(lib, Values(records[n])), HostNames(lib, records[n]));
      var t, h :|
        t in Targets(lib, Values(records[n])) && h in HostNames(lib, records[n]) && x == MakeRoute(n, records[n], t, h);
      assert Expands(lib, records, n, t, h);
    } else {
      ExpandedFrom(lib, records[..n], x);
      var m: nat, t, h :| Expands(lib, records[..n], m, t, h) && x == MakeRoute(m, records[..n][m], t, h);
      assert Expands(lib, records, m, t, h);
    }
  }

  /** Record n answers to host h and names target t. */
  ghost predicate Expands(lib: Lib, records: seq<RouteConfig>, n: nat, t: string, h: string) {
    n < |records| && t in Targets(lib, Values(records[n])) && h in HostNames(lib, records[n])
  }

  lemma {:induction false} ExpansionAppears(index: nat, r: RouteConfig, targets: seq<string>, names: seq<string>,
                                            t: string, h: string)
    requires t in targets && h in names
    ensures MakeRoute(index, r, t, h) in ExpandTargets(index, r, targets, names)
  {
    var n := |targets| - 1;
    if t == targets[n] {
      var i :| 0 <= i < |names| && names[i] == h;
      assert OnHosts(index, r, t, names)[i] == MakeRoute(index, r, t, h);
      assert MakeRoute(index, r, t, h) in OnHosts(index, r, targets[n], names);
    } else {
      assert targets == targets[..n] + [targets[n]];
      ExpansionAppears(index, r, targets[..n], names, t, h);
    }
  }

  lemma {:induction false} RecordAppears(lib: Lib, records: seq<RouteConfig>, n: nat, t: string, h: string)
    requires Expands(lib, records, n, t, h)
    ensures MakeRoute(n, records[n], t, h) in ExpandAll(lib, records)
  {
    hide ExpandTargets, Targets, HostNames, Values;
    var m := |records| - 1;
    if n == m {
      ExpansionAppears(n, records[n], Targets(lib, Values(records[n])), HostNames(lib, records[n]), t, h);
    } else {
      assert Expands(lib, records[..m], n, t, h);
      RecordAppears(lib, records[..m], n, t, h);
    }
  }

  /**
   * A route is loaded exactly when it belongs to one of a record's targets under one of its hosts, with the record's
   * strip flag and health check, its path or "/", and the record's pool if it lists replicas.
   */
  lemma RoutesExactly(lib: Lib, records: seq<RouteConfig>, x: Route)
    ensures x in ExpandAll(lib, records) <==>
            exists n: nat, t, h :: Expands(lib, records, n, t, h) && Belongs(x, n, records[n], t, h)
  {
    if x in ExpandAll(lib, records) {
      ExpandedFrom(lib, records, x);
      var n: nat, t, h :| Expands(lib, records, n, t, h) && x == MakeRoute(n, records[n], t, h);
      assert Belongs(x, n, records[n], t, h);
    }
    if n: nat, t, h :| Expands(lib, records, n, t, h) && Belongs(x, n, records[n], t, h) {
      assert x == MakeRoute(n, records[n], t, h);
      RecordAppears(lib, records, n, t, h);
    }
  }

  /** The fields of a loaded route, from its record. */
  ghost predicate Belongs(x: Route, n: nat, r: RouteConfig, t: string, h: string) {
    && x.hostname == h && x.target == t && x.stripPath == r.strip && !x.isRegexp && !x.h2c
    && x.source == "static" && x.containerName == ""
    && (r.path == "" ==> x.path == "/") && (r.path != "" ==> x.path == r.path)
    && (r.targets.None? ==> x.backendPool == "") && (r.targets.Some? ==> x.backendPool == PoolName(n))
    && (r.health.None? ==> x.health.None?)
    && (r.health.Some? && r.health.value.interval.IntValue? && r.health.value.timeout.IntValue? ==>
          x.health == Some(HealthCheck(r.health.value.path, r.health.value.interval.n, r.health.value.timeout.n)))
    && (r.health.Some? && !(r.health.value.interval.IntValue? && r.health.value.timeout.IntValue?) ==> x.health.None?)
  }

  // ----- what the targets come to -----

  /** The parser takes a port of any digits behind the host address, and no negative one; "<nil>" has no scheme. */
  ghost predicate ParsesPorts(lib: Lib) {
    && (forall d | AllDigits(d) ::
          lib.parseUrl("http://" + lib.hostAddress + ":" + d) == Some(Url("http", lib.hostAddress, d, false, "")))
    && (forall n: nat :: n > 0 ==> lib.parseUrl("http://" + lib.hostAddress + ":" + "-" + DecimalNat(n)).None?)
    && (lib.parseUrl("<nil>").Some? ==> lib.parseUrl("<nil>").value.scheme == "")
  }

  /** The value is this port: a number, or text of digits alone. */
  predicate IsPort(v: Value, digits: string) {
    || (v.IntValue? && v.n >= 0 && DecimalNat(v.n) == digits)
    || (v.FloatValue? && v.truncated >= 0 && DecimalNat(v.truncated) == digits)
    || (v.StringValue? && AllDigits(v.s) && v.s == digits)
  }

  /** A port alone stands for plain HTTP to that port of the host address. */
  lemma PortTarget(lib: Lib, v: Value, digits: string)
    requires ParsesPorts(lib) && IsPort(v, digits)
    ensures lib.parseUrl(ResolveTarget(lib, v)) == Some(Url("http", lib.hostAddress, digits, false, ""))
  {
    assert AllDigits(digits);
  }

  lemma NegativePort(lib: Lib, n: int)
    requires ParsesPorts(lib) && n < 0
    ensures lib.parseUrl(ResolveTarget(lib, IntValue(n))).None?
  {
    var m: nat := -n;
    assert "http://" + lib.hostAddress + ":" + ("-" + DecimalNat(m)) ==
           "http://" + lib.hostAddress + ":" + "-" + DecimalNat(m);
  }

  /**
   * A record of an accepted file that names a port has, under each of its hosts, a route to that port of the host
   * address over plain HTTP; the port is between 1 and 65535.
   */
  lemma PortRoutes(lib: Lib, f: RoutesFile, i: nat, v: Value, h: string)
    requires ParsesPorts(lib) && CheckFailure(lib, f).None? && i < |f.routes|
    requires v in Values(f.routes[i]) && h in HostNames(lib, f.routes[i])
    requires v.IntValue? || (v.StringValue? && AllDigits(v.s))
    ensures var n := if v.IntValue? then v.n else DigitsValue(v.s);
            1 <= n <= 65535
    ensures exists x, digits :: x in ExpandAll(lib, f.routes) && x.hostname == h && IsPort(v, digits) &&
              lib.parseUrl(x.target) == Some(Url("http", lib.hostAddress, digits, false, ""))
  {
    hide ExpandAll;
    AcceptedExactly(lib, f);
    var r := f.routes[i];
    assert RecordOk(lib, r);
    if v.IntValue? && v.n < 0 { NegativePort(lib, v.n); }
    var digits := if v.IntValue? then DecimalNat(v.n) else v.s;
    PortTarget(lib, v, digits);
    if v.IntValue? { DecimalReadsBack(v.n); }
    var k :| 0 <= k < |Values(r)| && Values(r)[k] == v;
    assert Targets(lib, Values(r))[k] == ResolveTarget(lib, v);
    assert Expands(lib, f.routes, i, ResolveTarget(lib, v), h);
    RecordAppears(lib, f.routes, i, ResolveTarget(lib, v), h);
    assert MakeRoute(i, r, ResolveTarget(lib, v), h).target == ResolveTarget(lib, v);
  }

  /** A URL whose host is replaced parses like the URL, but for that host. */
  ghost predicate ReplacesHost(lib: Lib) {
    forall raw | lib.parseUrl(raw).Some? ::
      var u := lib.parseUrl(raw).value;
      var host := if u.port != "" then lib.joinHostPort(lib.hostAddress, u.port) else lib.hostAddress;
      lib.parseUrl(lib.withHost(raw, host)) == Some(u.(hostname := lib.hostAddress))
  }

  /**
   * An HTTP target as admission wants it: http or https to a host, without credentials or fragment, the port in
   * range.
   */
  ghost predicate SoundTarget(lib: Lib, target: string) {
    exists scheme, host, port ::
      && lib.parseUrl(target) == Some(Url(scheme, host, port, false, "")) && scheme in {"http", "https"} && host != ""
      && (port == "" || (Atoi(port).Some? && 1 <= Atoi(port).value <= 65535))
  }

  /** A file's targets are all sound, and of a pool's replicas each is a number or text and none names another's. */
  lemma TargetsExactly(lib: Lib, pooled: bool, values: seq<Value>)
    ensures ValuesOk(lib, pooled, values) <==>
              && (forall v :: v in values ==> SoundTarget(lib, ResolveTarget(lib, v)))
              && (pooled ==> forall v :: v in values ==> v.IntValue? || v.StringValue?)
              && (forall i, j :: 0 <= i < j < |values| ==>
                    ResolveTarget(lib, values[i]) != ResolveTarget(lib, values[j]))
  {
    hide ResolveTarget, Atoi;
    forall v | v in values
      ensures SoundTarget(lib, ResolveTarget(lib, v)) <==>
              HttpTarget(lib, ResolveTarget(lib, v)) && PortOk(lib, ResolveTarget(lib, v))
    {
      SoundIsChecked(lib, ResolveTarget(lib, v));
    }
    hide SoundTarget, HttpTarget, PortOk;
    assert forall i :: 0 <= i < |values| ==> Targets(lib, values)[i] == ResolveTarget(lib, values[i]);
  }

  lemma SoundIsChecked(lib: Lib, target: string)
    ensures SoundTarget(lib, target) <==> HttpTarget(lib, target) && PortOk(lib, target)
  {
    if HttpTarget(lib, target) && PortOk(lib, target) {
      var u := lib.parseUrl(target).value;
      assert lib.parseUrl(target) == Some(Url(u.scheme, u.hostname, u.port, false, ""));
    }
  }

  /** Any other text stands for itself, but for the Docker host, whose detected address takes its place. */
  lemma TextTarget(lib: Lib, s: string)
    requires ReplacesHost(lib) && !AllDigits(s)
    ensures var t, u := ResolveTarget(lib, StringValue(s)), lib.parseUrl(s);
            if lib.hostAddress !in {"", "host.docker.internal"} && u.Some? && u.value.hostname == "host.docker.internal"
            then lib.parseUrl(t) == Some(u.value.(hostname := lib.hostAddress))
            else t == s
  {
  }

  /** A record that names no target is refused. */
  lemma NoTargetRefused(lib: Lib, index: nat, r: RouteConfig)
    requires ParsesPorts(lib) && r.target.Absent? && r.targets.None?
    ensures RecordError(lib, index, r).Some?
  {
    assert Values(r) == [Absent] && [Absent][..0] == [];
    assert ValuesError(lib, index, false, [Absent][..0]) == None;
    assert !HttpTarget(lib, ResolveTarget(lib, Absent));
    assert ValueError(lib, index, false, [Absent]) == Some(BadTarget(index));
  }

  /** An origin path: one leading slash, no query, fragment or line break, at most 256 characters. */
  ghost predicate CleanPath(lib: Lib, path: string) {
    && lib.parseRequestUri(path) == Some(RequestUri("", "", ""))
    && 1 <= |path| <= 256 && path[0] == '/' && (|path| > 1 ==> path[1] != '/')
    && forall i :: 0 <= i < |path| ==> path[i] != '?' && path[i] != '#' && path[i] != '\r' && path[i] != '\n'
  }

  lemma PathIsClean(lib: Lib, path: string)
    ensures CleanPath(lib, path) <==>
              && lib.parseRequestUri(path) == Some(RequestUri("", "", ""))
              && HasPrefix(path, "/") && !HasPrefix(path, "//") && |path| <= 256
              && forall c :: c in path ==> c !in "?#\r\n"
  {
    if |path| > 0 {
      assert path[..1] == [path[0]];
      if |path| > 1 { assert path[..2] == [path[0], path[1]]; }
    }
    assert forall c :: c in "?#\r\n" <==> c == '?' || c == '#' || c == '\r' || c == '\n';
    assert forall i :: 0 <= i < |path| ==> path[i] in path;
  }

  /**
   * A health check is refused exactly when it has no replicas to probe, no clean path of its own, or a time out of
   * range: an interval of 5 to 300 seconds, a timeout of 1 to 10 that is no longer.
   */
  lemma HealthRefusedExactly(lib: Lib, index: nat, r: RouteConfig)
    ensures RecordError(lib, index, r) == Some(BadHealth(index)) <==>
              r.health.Some? && !(r.targets.Some? && CleanPath(lib, r.health.value.path) &&
                                  exists interval, timeout ::
                                    && r.health.value.interval == IntValue(interval)
                                    && r.health.value.timeout == IntValue(timeout)
                                    && 5 <= interval <= 300 && 1 <= timeout <= 10 && timeout <= interval)
  {
    hide CleanPath, HasPrefix;
    ValuesErrorIsNotHealth(lib, index, r.targets.Some?, Values(r));
    if r.health.Some? {
      var h := r.health.value;
      PathIsClean(lib, h.path);
      if h.interval.IntValue? && h.timeout.IntValue? {
        assert h.interval == IntValue(h.interval.n) && h.timeout == IntValue(h.timeout.n);
      }
    }
  }

  lemma {:induction false} ValuesErrorIsNotHealth(lib: Lib, index: nat, pooled: bool, values: seq<Value>)
    ensures ValuesError(lib, index, pooled, values) != Some(BadHealth(index))
  {
    if values != [] { ValuesErrorIsNotHealth(lib, index, pooled, values[..|values| - 1]); }
  }

  // ----- TCP and passthrough entries -----

  /** The destination of a TCP entry: a port of the host address, or the host and port its text names. */
  ghost predicate TcpDestination(lib: Lib, v: Value, host: string, port: int) {
    && (v.IntValue? ==> host == lib.hostAddress && port == v.n)
    && (forall n: nat :: v == StringValue(DecimalNat(n)) ==> host == lib.hostAddress && port == n)
    && (forall h, n: nat :: ':' !in h && v == StringValue(h + ":" + DecimalNat(n)) ==> host == h && port == n)
    && (v.StringValue? && ':' !in v.s && !AllDigits(v.s) ==> host == v.s && port == 0)
  }

  lemma TcpResolves(lib: Lib, v: Value)
    ensures var (host, port) := ResolveTcpTarget(lib, v); TcpDestination(lib, v, host, port)
  {
    hide ResolveTcpTarget;
    var (host, port) := ResolveTcpTarget(lib, v);
    forall n: nat | v == StringValue(DecimalNat(n)) ensures host == lib.hostAddress && port == n {
      PortFormsAgree(lib, n);
    }
    forall h, n: nat | ':' !in h && v == StringValue(h + ":" + DecimalNat(n)) ensures host == h && port == n {
      TcpTargetSplits(lib, h, n);
    }
    TcpPlain(lib, v);
  }

  lemma TcpPlain(lib: Lib, v: Value)
    ensures v.IntValue? ==> ResolveTcpTarget(lib, v) == (lib.hostAddress, v.n)
    ensures v.StringValue? && ':' !in v.s && !AllDigits(v.s) ==> ResolveTcpTarget(lib, v) == (v.s, 0)
  {
  }

  /** Each TCP entry becomes one route: its host and listen port, and the destination it names. */
  lemma TcpRoutesExactly(lib: Lib, configs: seq<TcpConfig>, i: nat)
    requires i < |configs|
    ensures |TcpRoutes(lib, configs)| == |configs|
    ensures var c, t := configs[i], TcpRoutes(lib, configs)[i];
            && t.hostname == c.host && t.listenPort == c.listen && t.source == "static"
            && TcpDestination(lib, c.target, t.targetHost, t.targetPort)
  {
    hide TcpDestination, ResolveTcpTarget;
    TcpResolves(lib, configs[i].target);
  }

  /** The splitter takes a host without colon or brackets and what follows the colon, and nothing without a colon. */
  ghost predicate SplitsHostPort(lib: Lib) {
    && (forall host, port | Bare(host) && Bare(port) :: lib.splitHostPort(host + ":" + port) == Some((host, port)))
    && (forall s | ':' !in s :: lib.splitHostPort(s).None?)
  }

  predicate Bare(s: string) {
    ':' !in s && '[' !in s && ']' !in s
  }

  /** A passthrough entry is sound exactly with a domain and a target that is empty, "traefik", or host and port. */
  lemma PassthroughExactly(lib: Lib, domain: string, host: string, n: nat)
    requires SplitsHostPort(lib) && Bare(host)
    ensures PassthroughOk(lib, PassthroughDomain(domain, "")) <==> domain != ""
    ensures PassthroughOk(lib, PassthroughDomain(domain, "traefik")) <==> domain != ""
    ensures PassthroughOk(lib, PassthroughDomain(domain, host)) <==> domain != "" && (host == "" || host == "traefik")
    ensures PassthroughOk(lib, PassthroughDomain(domain, host + ":" + DecimalNat(n))) <==>
              domain != "" && host != "" && 1 <= n <= 65535
  {
    DecimalReadsBack(n);
    var port := DecimalNat(n);
    assert forall c :: c in port ==> IsDigit(c);
    assert Bare(port);
    var s := host + ":" + port;
    assert s[|host|] == ':';
    assert ':' in s && ':' !in "traefik";
  }

  /** A port given as a number and the same port given as text resolve alike, for HTTP and for TCP. */
  lemma PortFormsAgree(lib: Lib, n: nat)
    ensures ResolveTarget(lib, IntValue(n)) == ResolveTarget(lib, StringValue(DecimalNat(n)))
    ensures ResolveTcpTarget(lib, IntValue(n)) == ResolveTcpTarget(lib, StringValue(DecimalNat(n))) ==
            (lib.hostAddress, n)
  {
    DecimalReadsBack(n);
  }

  /** A TCP destination in text is split at its first colon. */
  lemma TcpTargetSplits(lib: Lib, host: string, n: nat)
    requires ':' !in host
    ensures ResolveTcpTarget(lib, StringValue(host + ":" + DecimalNat(n))) == (host, n)
  {
    var s := host + ":" + DecimalNat(n);
    assert s[|host|] == ':';
    assert forall j :: 0 <= j < |host| ==> s[j] == host[j];
    assert !IsDigit(s[|host|]);
    assert IndexOf(s, ':') == |host| && s[..|host|] == host && s[|host| + 1..] == DecimalNat(n);
    DecimalReadsBack(n);
  }

  /** Check's own pass over the routes refuses nothing that loaded. */
  lemma CheckedTargetsAreLoaded(lib: Lib, records: seq<RouteConfig>, x: Route)
    requires forall r :: r in records ==> RecordOk(lib, r)
    requires x in ExpandAll(lib, records)
    ensures CheckedTarget(lib, x.target)
  {
    ExpandedFrom(lib, records, x);
    var n: nat, t, h :| Expands(lib, records, n, t, h) && x == MakeRoute(n, records[n], t, h);
    assert records[n] in records;
    var i :| 0 <= i < |Values(records[n])| && Targets(lib, Values(records[n]))[i] == t;
    assert Values(records[n])[i] in Values(records[n]);
  }

  /**
   * A file is accepted exactly when every record is sound and has a host, at most 128 pairs are probed, and
   * every TCP and passthrough entry is sound; the second pass over the HTTP targets never decides.
   */
  lemma AcceptedExactly(lib: Lib, f: RoutesFile)
    ensures CheckFailure(lib, f).None? <==> Admissible(lib, f)
    ensures CheckFailure(lib, f) != Some(BadRouteTarget)
  {
    hide ExpandAll, RecordOk, FirstError, Filter, TcpRoutes, TcpOk, PassthroughOk, CheckedTarget;
    RecordsAccepted(lib, f.routes);
    if forall r :: r in f.routes ==> RecordOk(lib, r) {
      PairsCounted(lib, f.routes);
      forall x | x in ExpandAll(lib, f.routes) ensures CheckedTarget(lib, x.target) {
        CheckedTargetsAreLoaded(lib, f.routes, x);
      }
    }
    LoadErrorKinds(lib, f);
  }

  lemma {:induction false} ValuesErrorKinds(lib: Lib, index: nat, pooled: bool, values: seq<Value>)
    ensures ValuesError(lib, index, pooled, values) != Some(BadRouteTarget)
  {
    if values != [] { ValuesErrorKinds(lib, index, pooled, values[..|values| - 1]); }
  }

  lemma {:induction false} FirstErrorKinds(lib: Lib, records: seq<RouteConfig>)
    ensures FirstError(lib, records) != Some(BadRouteTarget)
  {
    if records != [] {
      var n := |records| - 1;
      FirstErrorKinds(lib, records[..n]);
      ValuesErrorKinds(lib, n, records[n].targets.Some?, Values(records[n]));
    }
  }

  lemma LoadErrorKinds(lib: Lib, f: RoutesFile)
    ensures LoadFailure(lib, f) != Some(BadRouteTarget)
  {
    FirstErrorKinds(lib, f.routes);
  }

  /** A host name is listed exactly when some entry of the record trims to it; none is blank, none repeats. */
  lemma HostNamesExactly(lib: Lib, r: RouteConfig, name: string)
    ensures name in HostNames(lib, r) <==>
            name != "" && exists e :: e in [r.host] + r.hosts && Trim(e, lib.isSpace) == name
    ensures NoDuplicates(HostNames(lib, r))
  {
    NamesAre([r.host] + r.hosts, lib.isSpace);
  }
}
