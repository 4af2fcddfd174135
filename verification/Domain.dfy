/** The records that providers, aggregator and router exchange. */
module Domain {

  datatype Option<+T> = None | Some(value: T)

  /** A read-only active probe, opted into by a static pool. */
  datatype HealthCheck = HealthCheck(path: string, intervalSeconds: int, timeoutSeconds: int)

  datatype Route = Route(
    hostname: string,
    isRegexp: bool,
    path: string,
    target: string,
    backendPool: string,
    health: Option<HealthCheck>,
    stripPath: bool,
    h2c: bool,
    source: string,
    containerName: string)

  datatype TcpRoute = TcpRoute(
    hostname: string,
    targetHost: string,
    targetPort: int,
    listenPort: int,
    source: string)

  datatype PassthroughDomain = PassthroughDomain(domain: string, target: string)

  datatype ExpectedHost = ExpectedHost(host: string, why: string, project: string)

  /** What a provider emits: a whole configuration, or an error. */
  datatype Message = Message(
    providerName: string,
    err: Option<string>,
    routes: seq<Route>,
    tcpRoutes: seq<TcpRoute>,
    passthrough: seq<PassthroughDomain>,
    expected: seq<ExpectedHost>)

  const NUL: string := [0 as char]

  /** The identity of a health cell: four fields joined by NUL. */
  function HealthKey(r: Route): string {
    r.hostname + NUL + r.backendPool + NUL + r.path + NUL + r.target
  }

  /** The identity of a round-robin counter. */
  function PoolKey(r: Route): string {
    r.hostname + NUL + r.backendPool
  }

  /** The routes that own a health cell. */
  predicate Checked(r: Route) {
    r.health.Some? && r.backendPool != "" && r.source == "static"
  }

  predicate HasPrefix(s: string, prefix: string) {
    |prefix| <= |s| && s[..|prefix|] == prefix
  }

  predicate HasSuffix(s: string, suffix: string) {
    |suffix| <= |s| && s[|s| - |suffix|..] == suffix
  }

  function TrimPrefix(s: string, prefix: string): string {
    if HasPrefix(s, prefix) then s[|prefix|..] else s
  }

  function TrimSuffix(s: string, suffix: string): string {
    if HasSuffix(s, suffix) then s[..|s| - |suffix|] else s
  }

  predicate IsDigit(c: char) {
    '0' <= c <= '9'
  }

  predicate AllDigits(s: string) {
    s != "" && forall i :: 0 <= i < |s| ==> IsDigit(s[i])
  }

  /** Where a character first occurs, or the length. */
  function IndexOf(s: string, c: char): (i: nat)
    ensures i <= |s| && (i < |s| ==> s[i] == c) && forall j :: 0 <= j < i ==> s[j] != c
  {
    if s == "" || s[0] == c then 0 else 1 + IndexOf(s[1..], c)
  }

  /** The pieces between separators; there is always at least one. */
  function Split(s: string, c: char): (parts: seq<string>)
    ensures parts != []
  {
    var d := IndexOf(s, c);
    if d == |s| then [s] else [s[..d]] + Split(s[d + 1..], c)
  }

  function Join(parts: seq<string>, c: char): string {
    if parts == [] then "" else if |parts| == 1 then parts[0] else parts[0] + [c] + Join(parts[1..], c)
  }

  lemma JoinFirst(first: string, rest: seq<string>, c: char)
    requires rest != []
    ensures Join([first] + rest, c) == first + [c] + Join(rest, c)
  {
    assert ([first] + rest)[1..] == rest;
  }

  lemma {:induction false} JoinSplit(s: string, c: char)
    ensures Join(Split(s, c), c) == s
  {
    var d := IndexOf(s, c);
    if d < |s| {
      var rest := Split(s[d + 1..], c);
      JoinSplit(s[d + 1..], c);
      JoinFirst(s[..d], rest, c);
      assert s == s[..d] + [c] + s[d + 1..];
    }
  }
}
