/** `http_engine`: building and sending a request, receiving the response, and the
    loop that follows redirects. The functions are the specification of the methods
    of the class `HttpEngine`. */
module Engines {
  import opened Text
  import opened OrderedMap
  import opened Responses
  import opened Parser
  import opened HeaderFormat
  import opened Follow
  import opened Url
  import Base64

  datatype HttpType = PlainHttp | SslHttps
  datatype HttpProxy = NoProxy | ProxyHttp | ProxyHttps

  /** The environment variables http_proxy and https_proxy; empty when not set. */
  datatype Environment = Environment(httpProxy: string, httpsProxy: string)

  /** What the network does with one request: no connection, or a stream of reads
      that ends with the connection being closed. */
  datatype Answer = Refused | Answers(input: seq<Read>)

  datatype Engine = Engine(
    verb: string, host: string, url: string, targetUrl: string, version: string,
    proxyAuth: (string, string), body: string,
    httpProxy: HttpProxy, httpType: HttpType, redirtimes: int)

  /** An engine with its response, after a call that ended with `control`, and the
      requests written to the network so far. */
  datatype Run = Run(control: Control, engine: Engine, response: Response, requests: seq<string>)

  // ---------- the request ----------

  /** The path that is requested: "/" when the URL has none. */
  function RequestPath(p: UrlParts): string {
    if p.path + p.file == "" then "/" else p.path + p.file
  }

  function PortOr(p: UrlParts, port: string): string {
    if p.port == "" then port else p.port
  }

  const HOST := "Host"
  const HTTP := "http"
  const HTTPS := "https"
  const HTTP_PORT := "80"
  const HTTPS_PORT := "443"

  function HostAddress(scheme: string, p: UrlParts, defaultPort: string): string {
    scheme + "://" + p.host + ":" + PortOr(p, defaultPort)
  }

  /** The engine once the scheme has decided on the kind of connection. */
  function AddressedAs(e: Engine, p: UrlParts, scheme: string, port: string, httpType: HttpType, proxy: string): Engine {
    e.(httpType := httpType, host := HostAddress(scheme, p, port),
       targetUrl := p.host + ":" + PortOr(p, port),
       httpProxy := if proxy != "" then ProxyHttp else e.httpProxy)
  }

  /** The part of `send()` before the connection is made. */
  function Addressed(e: Engine, p: UrlParts, env: Environment): Engine {
    var e1 := e.(url := RequestPath(p));
    var scheme := Lower(p.scheme);
    if scheme == HTTP then AddressedAs(e1, p, scheme, HTTP_PORT, PlainHttp, env.httpProxy)
    else if scheme == HTTPS then AddressedAs(e1, p, scheme, HTTPS_PORT, SslHttps, env.httpsProxy)
    else e1
  }

  predicate IsHttp(p: UrlParts) {
    Lower(p.scheme) == HTTP || Lower(p.scheme) == HTTPS
  }

  function WithHost(r: Response, p: UrlParts): Response {
    if IsHttp(p) then r.(sendHeaders := r.sendHeaders[HOST := p.host]) else r
  }

  const BASIC := "Basic "

  function BasicToken(auth: (string, string)): string {
    BASIC + Base64.Encode(auth.0 + ":" + auth.1)
  }

  const AUTHORIZATION := "Authorization"
  const PROXY_AUTHORIZATION := "Proxy-Authorization"
  const LAST_LINES := [("Accept", "*/*"), ("Connection", "close")]

  /** The header lines after those the caller has asked for. */
  function OwnLines(e: Engine, r: Response): seq<(string, string)> {
    if r.httpAuth.0 != "" then [(AUTHORIZATION, BasicToken(r.httpAuth))] + ProxyLines(e) else ProxyLines(e)
  }

  function ProxyLines(e: Engine): seq<(string, string)> {
    if e.httpProxy == ProxyHttp && e.proxyAuth.0 != "" then
      [(PROXY_AUTHORIZATION, BasicToken(e.proxyAuth))] + LAST_LINES
    else LAST_LINES
  }

  /** What is asked for: the path and the parameters, and in front of them scheme, host and
      port when a proxy is asked. */
  function Target(e: Engine, query: string): string {
    (if e.httpProxy == NoProxy then e.url else e.host + e.url) + query
  }

  function RequestLine(e: Engine, query: string): string {
    e.verb + " " + Target(e, query) + " " + e.version + CRLF
  }

  function Request(e: Engine, r: Response, query: string): string {
    RequestLine(e, query) + HeaderText(Lines(r.sendHeaders) + OwnLines(e, r)) + (CRLF + CRLF + e.body)
  }

  /** Once connected, the length of the request body becomes a header of the response. */
  function WithRequestLength(e: Engine, r: Response): Response {
    r.(headers := r.headers[CONTENT_LENGTH := Decimal(|e.body|)])
  }

  /** The part of `send()` after the connection is made, with its `receive()`. */
  function Exchange(e: Engine, r: Response, query: string, input: seq<Read>, requests: seq<string>): Run {
    var r1 := WithRequestLength(e, r);
    var m := Receive(Start(r1, e.redirtimes, e.url), input);
    Run(m.control, e.(redirtimes := m.redirtimes, url := m.url), m.response, requests + [Request(e, r1, query)])
  }

  lemma Exchanged(e: Engine, r: Response, query: string, input: seq<Read>, requests: seq<string>, r1: Response, request: string)
    requires r1 == WithRequestLength(e, r) && request == Request(e, r1, query)
    ensures var m := Receive(Start(r1, e.redirtimes, e.url), input);
      Exchange(e, r, query, input, requests) ==
      Run(m.control, e.(redirtimes := m.redirtimes, url := m.url), m.response, requests + [request])
  {
  }

  /** The response as `receive()` finds it. */
  function Prepared(e: Engine, r: Response, p: UrlParts): Response {
    WithRequestLength(e, WithHost(r, p))
  }

  /** `send()` */
  function Send(e: Engine, r: Response, env: Environment, answer: Answer, requests: seq<string>): Run {
    match Split(r.url)
    case None => Run(Threw(NoUrlMatch), e, r, requests)
    case Some(parts) =>
      var e1, r1 := Addressed(e, parts, env), WithHost(r, parts);
      match answer
      case Refused => Run(Threw(NoConnection), e1, r1, requests)
      case Answers(input) => Exchange(e1, r1, parts.query, input, requests)
  }

  // ---------- redirects ----------

  type World = nat -> Answer

  lemma {:induction false} FeedCountsRedirects(m: Machine, s: string)
    ensures var m' := Feed(m, s);
      if m.control == Running && m'.control == Returned(true)
      then m.redirtimes <= 5 && m'.redirtimes == m.redirtimes + 1
      else m.redirtimes <= m'.redirtimes <= m.redirtimes + 1
    ensures Feed(m, s).control == Running ==> Feed(m, s).redirtimes == m.redirtimes
    decreases |s|
  {
    if s != "" {
      FeedCountsRedirects(Step(m, s[0]), s[1..]);
      if Idle(Step(m, s[0])) {
        FeedIdle(Step(m, s[0]), s[1..]);
      }
    }
  }

  lemma {:induction false} ReceiveCountsRedirects(m: Machine, input: seq<Read>)
    requires m.control == Running
    ensures var m' := Receive(m, input);
      if m'.control == Returned(true) then m.redirtimes <= 5 && m'.redirtimes == m.redirtimes + 1
      else m.redirtimes <= m'.redirtimes <= m.redirtimes + 1
    ensures Receive(m, input).control != Running
    decreases |input|
  {
    if input != [] {
      FeedCountsRedirects(m, input[0].bytes);
      var m1 := Feed(m, input[0].bytes);
      if m1.control == Running {
        var m2 := FlushMachine(m1, input[0].canOpen);
        if m2.locals.state != AnetdOk {
          ReceiveCountsRedirects(m2, input[1..]);
        }
      }
    }
  }

  function Budget(e: Engine): nat {
    if e.redirtimes <= 5 then 6 - e.redirtimes else 0
  }

  lemma SendCountsRedirects(e: Engine, r: Response, env: Environment, answer: Answer, requests: seq<string>)
    ensures var run := Send(e, r, env, answer, requests);
      && run.control != Running
      && |run.requests| <= |requests| + 1
      && (run.control == Returned(true) ==>
           && Budget(run.engine) < Budget(e)
           && run.engine.redirtimes == e.redirtimes + 1
           && |run.requests| == |requests| + 1)
  {
    if Split(r.url).Some? && answer.Answers? {
      var e1, r1 := Addressed(e, Split(r.url).value, env), WithHost(r, Split(r.url).value);
      ReceiveCountsRedirects(Start(WithRequestLength(e1, r1), e1.redirtimes, e1.url), answer.input);
    }
  }

  // ---------- connect() ----------

  /** A run that has yet to send its first request. */
  function Begin(e: Engine, r: Response, requests: seq<string>): Run {
    Run(Returned(true), e, r, requests)
  }

  /** The run after one more request. */
  function NextHop(run: Run, env: Environment, answer: Answer): Run {
    Send(run.engine, run.response, env, answer, run.requests)
  }

  /** A request that is answered. */
  lemma Sent(run: Run, env: Environment, answer: Answer, p: UrlParts, e: Engine, r: Response)
    requires Split(run.response.url) == Some(p) && answer.Answers?
    requires e == Addressed(run.engine, p, env) && r == Prepared(e, run.response, p)
    ensures var m := Receive(Start(r, e.redirtimes, e.url), answer.input);
      NextHop(run, env, answer) == Run(m.control, e.(redirtimes := m.redirtimes, url := m.url), m.response,
                                       run.requests + [Request(e, r, p.query)])
  {
  }

  lemma NotSent(run: Run, env: Environment, answer: Answer)
    requires Split(run.response.url).None? || answer.Refused?
    ensures NextHop(run, env, answer).requests == run.requests
    ensures NextHop(run, env, answer) == match Split(run.response.url)
      case None => run.(control := Threw(NoUrlMatch))
      case Some(p) => Run(Threw(NoConnection), Addressed(run.engine, p, env), WithHost(run.response, p), run.requests)
  {
  }

  function Sender(env: Environment, world: World): (Run, nat) -> Run {
    (run: Run, hop: nat) => NextHop(run, env, world(hop))
  }

  lemma SenderSends(run: Run, env: Environment, world: World, hop: nat, answer: Answer)
    requires answer == world(hop)
    ensures Sender(env, world)(run, hop) == NextHop(run, env, answer)
  {
  }

  predicate GoesOn(run: Run) {
    run.control == Returned(true)
  }

  /** The states of a run that has only followed redirects so far. Answer number `hop`
      of the world is the answer to the first request. */
  ghost predicate Redirects(runs: seq<Run>, env: Environment, world: World, hop: nat) {
    Chain(Sender(env, world), GoesOn, runs, hop)
  }

  /** `connect()`: the redirects `runs` are followed and one more request ends the run. */
  ghost predicate Connects(runs: seq<Run>, env: Environment, world: World, hop: nat, final: Run) {
    Ends(Sender(env, world), GoesOn, runs, hop, final)
  }

  function LastRequest(run: Run): string
    requires run.requests != []
  {
    run.requests[|run.requests| - 1]
  }

  lemma LastSend(runs: seq<Run>, last: Run, env: Environment, world: World, hop: nat, at: nat, final: Run)
    requires Connects(runs, env, world, hop, final)
    requires last == runs[|runs| - 1] && at == hop + |runs| - 1
    ensures final == NextHop(last, env, world(at)) && final.control != Returned(true)
  {
    SenderSends(last, env, world, at, world(at));
  }

  lemma FirstSend(runs: seq<Run>, start: Run, env: Environment, world: World, hop: nat, final: Run)
    requires Connects(runs, env, world, hop, final) && start == runs[0]
    ensures final == NextHop(start, env, world(hop)) || NextHop(start, env, world(hop)).control == Returned(true)
  {
    SenderSends(start, env, world, hop, world(hop));
    if !GoesOn(Sender(env, world)(start, hop)) {
      EndsAtOnce(Sender(env, world), GoesOn, runs, hop, final);
    }
  }

  /** One followed redirect, and the end. */
  lemma ConnectsAfterTwo(run: Run, next: Run, final: Run, env: Environment, world: World, hop: nat)
    requires GoesOn(run) && GoesOn(next) && !GoesOn(final)
    requires next == Sender(env, world)(run, hop) && final == Sender(env, world)(next, hop + 1)
    ensures Connects([run, next], env, world, hop, final)
  {
    EndsAfterTwo(Sender(env, world), GoesOn, run, next, final, hop);
  }

  lemma ConnectsAtOnce(run: Run, final: Run, env: Environment, world: World, hop: nat)
    requires GoesOn(run) && final == Sender(env, world)(run, hop) && !GoesOn(final)
    ensures Connects([run], env, world, hop, final)
  {
  }

  lemma HopCounts(run: Run, env: Environment, answer: Answer, next: Run)
    requires next == NextHop(run, env, answer)
    ensures next.control != Running && |next.requests| <= |run.requests| + 1
    ensures next.control == Returned(true) ==>
      && Budget(next.engine) < Budget(run.engine)
      && next.engine.redirtimes == run.engine.redirtimes + 1
      && |next.requests| == |run.requests| + 1
  {
    SendCountsRedirects(run.engine, run.response, env, answer, run.requests);
  }

  lemma RedirectHop(runs: seq<Run>, env: Environment, world: World, hop: nat, n: nat)
    requires Redirects(runs, env, world, hop) && n + 1 < |runs|
    ensures runs[n + 1] == NextHop(runs[n], env, world(hop + n)) && runs[n + 1].control == Returned(true)
  {
    assert runs[n + 1] == Sender(env, world)(runs[n], hop + n);
  }

  lemma {:induction false} RedirectsCount(runs: seq<Run>, env: Environment, world: World, hop: nat, n: nat)
    requires Redirects(runs, env, world, hop) && n < |runs|
    ensures Budget(runs[n].engine) + n <= Budget(runs[0].engine)
    ensures runs[n].engine.redirtimes == runs[0].engine.redirtimes + n
    ensures |runs[n].requests| == |runs[0].requests| + n
  {
    if n > 0 {
      var k := n - 1;
      RedirectsCount(runs, env, world, hop, k);
      RedirectHop(runs, env, world, hop, k);
      HopCounts(runs[k], env, world(hop + k), runs[n]);
    }
  }

  /** Whatever the servers answer, `connect()` makes at most one request more than the
      budget allows redirects: seven from a fresh engine. */
  lemma ConnectIsBounded(runs: seq<Run>, env: Environment, world: World, hop: nat, final: Run)
    requires Connects(runs, env, world, hop, final)
    ensures |runs| <= Budget(runs[0].engine) + 1
    ensures |final.requests| <= |runs[0].requests| + |runs|
  {
    RedirectsCount(runs, env, world, hop, |runs| - 1);
    HopCounts(runs[|runs| - 1], env, world(hop + |runs| - 1), final);
  }

  /** The first run and the answers of the servers determine every hop of `connect()` and
      how it ends. */
  lemma ConnectIsDetermined(runs: seq<Run>, others: seq<Run>, env: Environment, world: World, hop: nat,
                            final: Run, other: Run)
    requires Connects(runs, env, world, hop, final) && Connects(others, env, world, hop, other)
    requires runs[0] == others[0]
    ensures runs == others && final == other
  {
    EndsOnce(Sender(env, world), GoesOn, runs, others, hop, final, other);
  }

  /** From a fresh engine at most six redirects are followed, and seven requests sent. */
  lemma AtMostSixRedirects(runs: seq<Run>, env: Environment, world: World, hop: nat, final: Run)
    requires Connects(runs, env, world, hop, final) && runs[0].engine == FreshEngine()
    ensures |runs| <= 7 && |final.requests| <= |runs[0].requests| + 7
  {
    ConnectIsBounded(runs, env, world, hop, final);
  }

  /** Every run of `connect()` has an end. */
  lemma {:induction false} ConnectEnds(runs: seq<Run>, env: Environment, world: World, hop: nat)
    returns (all: seq<Run>, final: Run)
    requires Redirects(runs, env, world, hop)
    ensures Connects(all, env, world, hop, final) && all[0] == runs[0]
    decreases Budget(runs[|runs| - 1].engine)
  {
    var last, at := runs[|runs| - 1], hop + |runs| - 1;
    var next := Sender(env, world)(last, at);
    SenderSends(last, env, world, at, world(at));
    if GoesOn(next) {
      HopCounts(last, env, world(at), next);
      ChainGrows(Sender(env, world), GoesOn, runs, hop, next);
      all, final := ConnectEnds(runs + [next], env, world, hop);
    } else {
      all, final := runs, next;
    }
  }

  const GET := "GET"

  /** The engine after construction or `reset`, as far as it is not kept. */
  function FreshEngine(): Engine {
    Engine(GET, "", "/", "", VERSION_1_0, ("", ""), "", NoProxy, PlainHttp, 0)
  }
}
