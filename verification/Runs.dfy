/** Whole runs of `connect()`: what followed redirects leave behind, and what the response
    holds at the end. */
module Runs {
  import opened Text
  import opened OrderedMap
  import opened FileName
  import opened Responses
  import opened HeaderFormat
  import opened Parser
  import opened Grammar
  import opened Url
  import opened Engines
  import opened FileSink
  import opened FileHead
  import opened FileContents
  import opened FileRedirect

  /** Fields that a followed redirect leaves alone. */
  predicate SameEngine(e: Engine, f: Engine) {
    e.verb == f.verb && e.version == f.version && e.proxyAuth == f.proxyAuth && e.body == f.body
  }

  predicate SameExcept(a: Headers, b: Headers, key: string) {
    a - {key} == b - {key}
  }

  /** The response differs in its URL, the Host header to send, the Content-Length entry
      that every request overwrites, and what a file sink knows of its file. */
  predicate SameResponse(r: Response, q: Response) {
    && q == r.(url := q.url, headers := q.headers, sendHeaders := q.sendHeaders, file := q.file)
    && SameExcept(r.headers, q.headers, CONTENT_LENGTH)
    && SameExcept(r.sendHeaders, q.sendHeaders, HOST)
    && (r.sink == Memory ==> q.file == r.file)
  }

  /** A response that no body has come into. */
  predicate Empty(r: Response) {
    r.body == "" && (r.sink == File ==> FileExists(r.file))
  }

  lemma UpdateSame(a: Headers, b: Headers, key: string, value: string)
    requires SameExcept(a, b, key)
    ensures a[key := value] == b[key := value]
  {
    assert a[key := value] == (a - {key})[key := value];
    assert b[key := value] == (b - {key})[key := value];
  }

  lemma SameAfterUpdate(a: Headers, b: Headers, key: string, value: string)
    requires SameExcept(a, b, key)
    ensures SameExcept(a, b[key := value], key)
  {
    assert b[key := value] - {key} == b - {key};
  }

  lemma PreparedSame(e: Engine, r: Response, q: Response, p: UrlParts)
    requires SameResponse(r, q)
    ensures SameResponse(r, Prepared(e, q, p))
  {
    SameAfterUpdate(r.headers, q.headers, CONTENT_LENGTH, Decimal(|e.body|));
    SameAfterUpdate(r.sendHeaders, q.sendHeaders, HOST, p.host);
  }

  // ---------- one hop ----------

  /** A request that is answered, in terms of the grammar. */
  lemma SendFollowsGrammar(run: Run, env: Environment, answer: Answer, p: UrlParts, e: Engine, r: Response)
    requires r.sink == Memory && r.body == ""
    requires Split(run.response.url) == Some(p) && answer.Answers?
    requires e == Addressed(run.engine, p, env) && r == Prepared(e, run.response, p)
    ensures var outcome := Expected(r, e.redirtimes, e.url, Stream(answer.input));
      NextHop(run, env, answer) == Run(outcome.control, e.(redirtimes := outcome.redirtimes, url := outcome.url),
                                       outcome.response, run.requests + [Request(e, r, p.query)])
  {
    Sent(run, env, answer, p, e, r);
    ReceiveFollowsGrammar(r, e.redirtimes, e.url, answer.input);
  }

  /** With either sink, `receive()` asks for another request exactly after a redirect with
      a location, when no more than five have been counted before it. */
  lemma FollowsExactly(r: Response, redirtimes: int, url: string, input: seq<Read>)
    requires Empty(r)
    ensures var h := ParseHead(Stream(input));
      Receive(Start(r, redirtimes, url), input).control == Returned(true) <==>
        h.Complete? && 300 <= h.status <= 399 && "Location" in FirstValues(h.lines) && redirtimes <= 5
  {
    if r.sink == Memory {
      ReceiveFollowsGrammar(r, redirtimes, url, input);
      ExpectedFollows(r, redirtimes, url, Stream(input), ParseHead(Stream(input)));
    } else {
      FileFollowsExactly(r, redirtimes, url, input);
    }
  }

  lemma ExpectedFollows(r: Response, redirtimes: int, url: string, s: string, h: Head)
    requires h == ParseHead(s)
    ensures Expected(r, redirtimes, url, s).control == Returned(true) <==> Followed(h, redirtimes)
  {
    if h.Complete? && h.status < 300 {
      ExpectedBelow(r, redirtimes, url, s, h, Accepted(r, h));
    } else if h.Complete? && h.status <= 399 {
      ExpectedRedirect(r, redirtimes, url, s, h);
    }
  }

  /** Then only the URL of the response changes, to the location, and the file sink's file. */
  lemma ReceiveAgain(r: Response, redirtimes: int, url: string, input: seq<Read>)
    requires Empty(r) && Receive(Start(r, redirtimes, url), input).control == Returned(true)
    ensures var m, h := Receive(Start(r, redirtimes, url), input), ParseHead(Stream(input));
      && Followed(h, redirtimes) && m.response.url == FirstValues(h.lines)["Location"]
      && m.response == r.(url := m.response.url, file := m.response.file)
      && Empty(m.response) && (r.sink == Memory ==> m.response.file == r.file)
      && m.redirtimes == redirtimes + 1
  {
    ReceiveCountsRedirects(Start(r, redirtimes, url), input);
    FollowsExactly(r, redirtimes, url, input);
    if r.sink == Memory {
      MemoryAgain(r, redirtimes, url, input, ParseHead(Stream(input)));
    } else {
      FileAgain(r, redirtimes, url, input, ParseHead(Stream(input)));
    }
  }

  lemma MemoryAgain(r: Response, redirtimes: int, url: string, input: seq<Read>, h: Head)
    requires r.sink == Memory && r.body == "" && h == ParseHead(Stream(input)) && Followed(h, redirtimes)
    ensures Receive(Start(r, redirtimes, url), input).response == r.(url := FirstValues(h.lines)["Location"])
  {
    ReceiveFollowsGrammar(r, redirtimes, url, input);
    ExpectedRedirect(r, redirtimes, url, Stream(input), h);
  }

  lemma FileAgain(r: Response, redirtimes: int, url: string, input: seq<Read>, h: Head)
    requires r.sink == File && r.body == "" && FileExists(r.file)
    requires h == ParseHead(Stream(input)) && Followed(h, redirtimes)
    ensures var next := Receive(Start(r, redirtimes, url), input).response;
      next == r.(url := FirstValues(h.lines)["Location"], file := next.file) && FileExists(next.file)
  {
    HeadOnly(r, redirtimes, url, input, h);
  }

  lemma ExpectedRedirect(r: Response, redirtimes: int, url: string, s: string, h: Head)
    requires h == ParseHead(s) && h.Complete? && 300 <= h.status <= 399
    ensures var followed := Followed(h, redirtimes);
      Expected(r, redirtimes, url, s) ==
      if followed then
        var location := FirstValues(h.lines)["Location"];
        Outcome(Returned(true), r.(url := location), redirtimes + 1, location)
      else Outcome(Returned(false), r.(status := h.status, description := h.description), redirtimes + 1, url)
  {
  }

  /** Whether a request for this URL goes through a proxy of its own. */
  predicate Proxied(p: UrlParts, env: Environment) {
    (Lower(p.scheme) == HTTP && env.httpProxy != "") || (Lower(p.scheme) == HTTPS && env.httpsProxy != "")
  }

  predicate UsesProxy(run: Run, env: Environment) {
    Split(run.response.url).Some? && Proxied(Split(run.response.url).value, env)
  }

  lemma AddressedMode(e: Engine, p: UrlParts, env: Environment)
    ensures Addressed(e, p, env).httpProxy == if Proxied(p, env) then ProxyHttp else e.httpProxy
    ensures SameEngine(e, Addressed(e, p, env)) && Addressed(e, p, env).redirtimes == e.redirtimes
  {
  }

  /** The head of an answer. */
  function LastHead(answer: Answer): Head {
    if answer.Answers? then ParseHead(Stream(answer.input)) else Incomplete
  }

  lemma HopKeeps(first: Run, run: Run, env: Environment, answer: Answer, next: Run)
    requires Empty(first.response) && Empty(run.response)
    requires SameEngine(first.engine, run.engine) && SameResponse(first.response, run.response)
    requires next == NextHop(run, env, answer) && next.control == Returned(true)
    ensures Empty(next.response) && Split(run.response.url).Some?
    ensures SameEngine(first.engine, next.engine) && SameResponse(first.response, next.response)
    ensures next.engine.redirtimes == run.engine.redirtimes + 1 && run.engine.redirtimes <= 5
    ensures answer.Answers? && LastHead(answer).Complete? && "Location" in FirstValues(LastHead(answer).lines)
    ensures next.response.url == FirstValues(LastHead(answer).lines)["Location"]
    ensures next.engine.httpProxy == if UsesProxy(run, env) then ProxyHttp else run.engine.httpProxy
  {
    if Split(run.response.url).None? || answer.Refused? {
      NotSent(run, env, answer);
      assert false;
    }
    var p := Split(run.response.url).value;
    var e := Addressed(run.engine, p, env);
    var r := Prepared(e, run.response, p);
    Sent(run, env, answer, p, e, r);
    AddressedMode(run.engine, p, env);
    PreparedSame(e, first.response, run.response, p);
    ReceiveAgain(r, e.redirtimes, e.url, answer.input);
  }

  /** One of the first `n` requests of a run goes through a proxy. */
  predicate PassesProxy(runs: seq<Run>, env: Environment, n: nat)
    requires n <= |runs|
  {
    exists i :: 0 <= i < n && UsesProxy(runs[i], env)
  }

  /** Followed redirects change nothing else: they count, and the proxy mode stays on once
      a request has gone through a proxy. */
  lemma {:induction false} RedirectsKeep(runs: seq<Run>, env: Environment, world: World, hop: nat, n: nat)
    requires Redirects(runs, env, world, hop) && n < |runs|
    requires Empty(runs[0].response)
    ensures Empty(runs[n].response)
    ensures SameEngine(runs[0].engine, runs[n].engine) && SameResponse(runs[0].response, runs[n].response)
    ensures runs[n].engine.redirtimes == runs[0].engine.redirtimes + n
    ensures n > 0 ==> runs[n].engine.redirtimes <= 6 && Split(runs[n - 1].response.url).Some?
    ensures runs[n].engine.httpProxy == if PassesProxy(runs, env, n) then ProxyHttp else runs[0].engine.httpProxy
    decreases n
  {
    if n > 0 {
      var m := n - 1;
      RedirectsKeep(runs, env, world, hop, m);
      RedirectHop(runs, env, world, hop, m);
      HopKeeps(runs[0], runs[m], env, world(hop + m), runs[n]);
      OneMoreProxy(runs, env, m);
    }
  }

  lemma OneMoreProxy(runs: seq<Run>, env: Environment, n: nat)
    requires n < |runs|
    ensures PassesProxy(runs, env, n + 1) <==> PassesProxy(runs, env, n) || UsesProxy(runs[n], env)
  {
  }

  // ---------- redirects leave no trace ----------

  predicate NoRedirect(answer: Answer) {
    answer.Answers? ==>
      var h := ParseHead(Stream(answer.input)); h.Complete? ==> !(300 <= h.status <= 399)
  }

  /** What `receive()` makes of an answer that is no redirect does not depend on the
      redirects counted so far. */
  lemma ExpectedElsewhere(r: Response, redirtimes: int, other: int, url: string, s: string)
    requires ParseHead(s).Complete? ==> !(300 <= ParseHead(s).status <= 399)
    ensures var a, b := Expected(r, redirtimes, url, s), Expected(r, other, url, s);
      a.control == b.control != Returned(true) && a.response == b.response && a.url == b.url
  {
  }

  lemma PreparedEqual(e: Engine, f: Engine, r: Response, q: Response, p: UrlParts)
    requires SameResponse(r, q) && r.sink == Memory && IsHttp(p) && e.body == f.body
    ensures Prepared(e, r.(url := q.url), p) == Prepared(f, q, p)
  {
    UpdateSame(r.headers, q.headers, CONTENT_LENGTH, Decimal(|e.body|));
    UpdateSame(r.sendHeaders, q.sendHeaders, HOST, p.host);
  }

  /** An engine that asks a proxy, and one with the same addresses that may not. */
  predicate SameButProxy(a: Engine, b: Engine) {
    b == a.(redirtimes := b.redirtimes, httpProxy := b.httpProxy)
  }

  lemma AddressedSame(e: Engine, f: Engine, p: UrlParts, env: Environment)
    requires SameEngine(e, f) && IsHttp(p)
    ensures SameButProxy(Addressed(e, p, env), Addressed(f, p, env)) && Addressed(e, p, env).host != ""
  {
  }

  /** The proxy mode `b` shows in a request, where the mode `a` would not. */
  predicate ProxyShows(a: Engine, b: Engine) {
    b.httpProxy == ProxyHttp && (a.httpProxy == NoProxy || (a.httpProxy == ProxyHttps && a.proxyAuth.0 != ""))
  }

  lemma TargetLonger(a: Engine, b: Engine, query: string)
    requires SameButProxy(a, b) && b.httpProxy == ProxyHttp && a.host != ""
    ensures |RequestLine(b, query)| >= |RequestLine(a, query)|
    ensures a.httpProxy == NoProxy ==> |RequestLine(b, query)| > |RequestLine(a, query)|
  {
    assert |Target(b, query)| == |a.host| + |a.url| + |query|;
    LineLength(a, query);
    LineLength(b, query);
  }

  lemma LineLength(e: Engine, query: string)
    ensures |RequestLine(e, query)| == |e.verb| + |Target(e, query)| + |e.version| + 4
  {
  }

  lemma OneLineMore(line: (string, string), lines: seq<(string, string)>)
    ensures |HeaderText([line] + lines)| == |HeaderLine(line.0, line.1)| + |HeaderText(lines)| > |HeaderText(lines)|
  {
    assert ([line] + lines)[1..] == lines;
  }

  lemma ProxyLinesLonger(a: Engine, b: Engine)
    requires SameButProxy(a, b) && b.httpProxy == ProxyHttp && a.httpProxy != ProxyHttp
    ensures |HeaderText(ProxyLines(b))| >= |HeaderText(ProxyLines(a))|
    ensures a.proxyAuth.0 != "" ==> |HeaderText(ProxyLines(b))| > |HeaderText(ProxyLines(a))|
  {
    OneLineMore((PROXY_AUTHORIZATION, BasicToken(b.proxyAuth)), LAST_LINES);
  }

  lemma OwnLinesLength(e: Engine, r: Response)
    ensures |HeaderText(Lines(r.sendHeaders) + OwnLines(e, r))| == |HeaderText(Lines(r.sendHeaders))|
      + (if r.httpAuth.0 != "" then |HeaderLine(AUTHORIZATION, BasicToken(r.httpAuth))| else 0)
      + |HeaderText(ProxyLines(e))|
  {
    HeaderTextAppend(Lines(r.sendHeaders), OwnLines(e, r));
    OneLineMore((AUTHORIZATION, BasicToken(r.httpAuth)), ProxyLines(e));
  }

  lemma RequestLength(e: Engine, r: Response, query: string)
    ensures |Request(e, r, query)| == |RequestLine(e, query)|
      + |HeaderText(Lines(r.sendHeaders) + OwnLines(e, r))| + 4 + |e.body|
  {
  }

  lemma ShownProxy(a: Engine, b: Engine, r: Response, query: string)
    requires SameButProxy(a, b) && ProxyShows(a, b) && a.host != ""
    ensures |Request(b, r, query)| > |Request(a, r, query)|
  {
    TargetLonger(a, b, query);
    ProxyLinesLonger(a, b);
    OwnLinesLength(a, r);
    OwnLinesLength(b, r);
    RequestLength(a, r, query);
    RequestLength(b, r, query);
  }

  lemma HiddenProxy(a: Engine, b: Engine, r: Response, query: string)
    requires SameButProxy(a, b) && !ProxyShows(a, b)
    requires b.httpProxy == ProxyHttp || b.httpProxy == a.httpProxy
    ensures Request(a, r, query) == Request(b, r, query)
  {
    assert RequestLine(a, query) == RequestLine(b, query);
    assert OwnLines(a, r) == OwnLines(b, r);
  }

  /** Two engines with the mode of a run at its start and at its end send requests of the
      same text exactly when the proxy does not show, and otherwise the second is longer. */
  lemma SameRequest(a: Engine, b: Engine, r: Response, query: string)
    requires SameButProxy(a, b) && a.host != ""
    requires b.httpProxy == ProxyHttp || b.httpProxy == a.httpProxy
    ensures Request(a, r, query) == Request(b, r, query) <==> !ProxyShows(a, b)
    ensures ProxyShows(a, b) ==> |Request(b, r, query)| > |Request(a, r, query)|
  {
    if ProxyShows(a, b) {
      ShownProxy(a, b, r, query);
    } else {
      HiddenProxy(a, b, r, query);
    }
  }

  /** An earlier URL of the run has brought in a proxy that the last one has none of, and
      it shows in the last request: the engine had no proxy mode before, or one without
      the credentials line and has credentials for it. */
  predicate ProxyStays(runs: seq<Run>, env: Environment)
    requires runs != []
  {
    var first := runs[0].engine;
    && PassesProxy(runs, env, |runs| - 1) && !UsesProxy(runs[|runs| - 1], env)
    && (first.httpProxy == NoProxy || (first.httpProxy == ProxyHttps && first.proxyAuth.0 != ""))
  }

  /** A run that follows redirects to a URL whose server answers with something else ends
      like a run that starts at that URL: with the same outcome and the same memory
      response, in which not even the number of redirects shows. The last URL must be http
      or https. The last request is the same text, too, unless a proxy of an earlier URL
      stays; then it is longer. */
  lemma RedirectTransparency(runs: seq<Run>, last: Run, env: Environment, world: World, hop: nat, at: nat,
                             followed: Run, directRuns: seq<Run>, direct: Run)
    requires Connects(runs, env, world, hop, followed)
    requires last == runs[|runs| - 1] && at == hop + |runs| - 1
    requires runs[0].response.sink == Memory && runs[0].response.body == ""
    requires Connects(directRuns, env, world, at, direct)
    requires directRuns[0] == runs[0].(response := runs[0].response.(url := last.response.url))
    requires world(at).Answers? && NoRedirect(world(at))
    requires Split(last.response.url).Some? && IsHttp(Split(last.response.url).value)
    ensures followed.control == direct.control && followed.response == direct.response
    ensures followed.requests != [] && direct.requests != []
    ensures LastRequest(followed) == LastRequest(direct) <==> !ProxyStays(runs, env)
    ensures ProxyStays(runs, env) ==> |LastRequest(followed)| > |LastRequest(direct)|
  {
    RedirectsKeep(runs, env, world, hop, |runs| - 1);
    LastSend(runs, last, env, world, hop, at, followed);
    FirstSend(directRuns, directRuns[0], env, world, at, direct);
    SameEnd(runs[0], last, directRuns[0], env, world(at), PassesProxy(runs, env, |runs| - 1));
  }

  /** The last request of both runs; `passed` says whether an earlier one had a proxy. */
  lemma SameEnd(first: Run, last: Run, start: Run, env: Environment, answer: Answer, passed: bool)
    requires SameEngine(first.engine, last.engine) && SameResponse(first.response, last.response)
    requires first.response.sink == Memory && first.response.body == ""
    requires last.engine.httpProxy == if passed then ProxyHttp else first.engine.httpProxy
    requires start == first.(response := first.response.(url := last.response.url))
    requires answer.Answers? && NoRedirect(answer)
    requires Split(last.response.url).Some? && IsHttp(Split(last.response.url).value)
    ensures var f, d := NextHop(last, env, answer), NextHop(start, env, answer);
      var stays := passed && !UsesProxy(last, env) && ProxyShows(first.engine, last.engine);
      && f.control == d.control != Returned(true) && f.response == d.response
      && f.requests != [] && d.requests != []
      && (LastRequest(f) == LastRequest(d) <==> !stays)
      && (stays ==> |LastRequest(f)| > |LastRequest(d)|)
  {
    var p := Split(last.response.url).value;
    var a, b := Addressed(first.engine, p, env), Addressed(last.engine, p, env);
    var ready := Prepared(b, last.response, p);
    AddressedSame(first.engine, last.engine, p, env);
    PreparedEqual(a, b, first.response, last.response, p);
    SentAlike(last, start, answer, env, p, a, b, ready);
    AddressedMode(first.engine, p, env);
    AddressedMode(last.engine, p, env);
    SameRequest(a, b, ready, p.query);
  }

  /** The same prepared response meets the same answer. */
  lemma SentAlike(last: Run, start: Run, answer: Answer, env: Environment, p: UrlParts, a: Engine, b: Engine,
                  ready: Response)
    requires Split(last.response.url) == Some(p) && Split(start.response.url) == Some(p)
    requires answer.Answers? && NoRedirect(answer) && ready.sink == Memory && ready.body == ""
    requires a == Addressed(start.engine, p, env) && ready == Prepared(a, start.response, p)
    requires b == Addressed(last.engine, p, env) && ready == Prepared(b, last.response, p) && a.url == b.url
    ensures var f, d := NextHop(last, env, answer), NextHop(start, env, answer);
      && f.control == d.control != Returned(true) && f.response == d.response
      && f.requests == last.requests + [Request(b, ready, p.query)]
      && d.requests == start.requests + [Request(a, ready, p.query)]
  {
    SendFollowsGrammar(last, env, answer, p, b, ready);
    SendFollowsGrammar(start, env, answer, p, a, ready);
    ExpectedElsewhere(ready, a.redirtimes, b.redirtimes, a.url, Stream(answer.input));
  }

  /** Without proxies in the environment, the last request is always that of the direct run. */
  lemma TransparencyWithoutProxies(runs: seq<Run>, last: Run, env: Environment, world: World, hop: nat, at: nat,
                                   followed: Run, directRuns: seq<Run>, direct: Run)
    requires env.httpProxy == "" && env.httpsProxy == ""
    requires Connects(runs, env, world, hop, followed)
    requires last == runs[|runs| - 1] && at == hop + |runs| - 1
    requires runs[0].response.sink == Memory && runs[0].response.body == ""
    requires Connects(directRuns, env, world, at, direct)
    requires directRuns[0] == runs[0].(response := runs[0].response.(url := last.response.url))
    requires world(at).Answers? && NoRedirect(world(at))
    requires Split(last.response.url).Some? && IsHttp(Split(last.response.url).value)
    ensures followed.control == direct.control && followed.response == direct.response
    ensures followed.requests != [] && direct.requests != [] && LastRequest(followed) == LastRequest(direct)
  {
    RedirectTransparency(runs, last, env, world, hop, at, followed, directRuns, direct);
    assert forall i :: 0 <= i < |runs| ==> !UsesProxy(runs[i], env);
  }

  // ---------- how a run ends ----------

  /** What the last answer leaves in a response that was reset before the run, apart from
      the body; `before` are the headers it had. */
  ghost predicate Classified(r: Response, final: Response, before: Headers, h: Head, redirtimes: int) {
    && final.status == (if h.Complete? then h.status else 0)
    && (h.Complete? && 300 <= h.status <= 399 ==> redirtimes > 5 || "Location" !in FirstValues(h.lines))
    && final.version == (if h.Complete? && h.status < 300 then h.version else r.version)
    && final.description == (if h.Complete? then h.description else r.description)
    && final.headers == (if h.Complete? && h.status < 300 then FirstValues(h.lines) + before else before)
  }

  /** What it leaves in the body of a memory response. */
  predicate BodyClassified(final: Response, h: Head) {
    && final.bodySize == |final.body| == final.progress
    && final.body == if h.Complete? && h.status < 300 then AnnouncedBody(h) else ""
  }

  /** A response as after `reset`, as far as it matters here. */
  predicate IsReset(r: Response) {
    Empty(r) && r.progress == 0 && r.bodySize == 0 && r.status == 0
  }

  /** An answer that fills in the head. */
  lemma FilledClassified(r: Response, final: Response, h: Head, redirtimes: int)
    requires h.Complete? && h.status < 300
    requires final == WithHead(r, h).(file := final.file, body := final.body, progress := final.progress,
                                      bodySize := final.bodySize)
    ensures Classified(r, final, r.headers, h, redirtimes)
  {
  }

  lemma ExpectedFilled(r: Response, redirtimes: int, url: string, s: string, h: Head)
    requires IsReset(r) && h == ParseHead(s) && h.Complete? && h.status < 300
    requires Expected(r, redirtimes, url, s).control == Returned(false)
    ensures Expected(r, redirtimes, url, s).response == WithBody(WithHead(r, h), AnnouncedBody(h))
  {
    ExpectedBelow(r, redirtimes, url, s, h, Accepted(r, h));
    AcceptedBody(r, h);
  }

  lemma ExpectedBelow(r: Response, redirtimes: int, url: string, s: string, h: Head, accepted: (Control, Response))
    requires h == ParseHead(s) && h.Complete? && h.status < 300 && accepted == Accepted(r, h)
    ensures Expected(r, redirtimes, url, s) == Outcome(accepted.0, accepted.1, redirtimes, url)
  {
  }

  lemma AcceptedBody(r: Response, h: Head)
    requires h.Complete?
    ensures Accepted(r, h).0 == Returned(false) ==> Accepted(r, h).1 == WithBody(WithHead(r, h), AnnouncedBody(h))
  {
  }

  lemma AcceptedClassified(r: Response, final: Response, h: Head, redirtimes: int)
    requires IsReset(r) && h.Complete? && h.status < 300 && final == WithBody(WithHead(r, h), AnnouncedBody(h))
    ensures Classified(r, final, r.headers, h, redirtimes) && BodyClassified(final, h)
  {
    assert "" + AnnouncedBody(h) == AnnouncedBody(h);
    FilledClassified(r, final, h, redirtimes);
  }

  /** An answer that leaves the response without a body. */
  lemma BodilessClassified(r: Response, final: Response, h: Head, redirtimes: int)
    requires IsReset(r) && (h.Complete? ==> h.status >= 300)
    requires h.Complete? && 300 <= h.status <= 399 ==> redirtimes > 5 || "Location" !in FirstValues(h.lines)
    requires final == r.(file := final.file, status := final.status, description := final.description)
    requires final.status == if h.Complete? then h.status else 0
    requires final.description == if h.Complete? then h.description else r.description
    ensures Classified(r, final, r.headers, h, redirtimes) && BodyClassified(final, h)
  {
  }

  lemma ExpectedClassified(r: Response, redirtimes: int, url: string, s: string, h: Head)
    requires IsReset(r) && h == ParseHead(s) && Expected(r, redirtimes, url, s).control == Returned(false)
    ensures var final := Expected(r, redirtimes, url, s).response;
      Classified(r, final, r.headers, h, redirtimes) && BodyClassified(final, h)
  {
    var final := Expected(r, redirtimes, url, s).response;
    if h.Complete? && h.status < 300 {
      ExpectedFilled(r, redirtimes, url, s, h);
      AcceptedClassified(r, final, h, redirtimes);
    } else {
      ExpectedBodiless(r, redirtimes, url, s, h);
      BodilessClassified(r, final, h, redirtimes);
    }
  }

  lemma ExpectedBodiless(r: Response, redirtimes: int, url: string, s: string, h: Head)
    requires IsReset(r) && h == ParseHead(s) && (h.Complete? ==> h.status >= 300)
    requires Expected(r, redirtimes, url, s).control == Returned(false)
    ensures var final := Expected(r, redirtimes, url, s).response;
      && final == (if h.Complete? then r.(status := h.status, description := h.description) else r)
      && (h.Complete? && 300 <= h.status <= 399 ==> redirtimes > 5 || "Location" !in FirstValues(h.lines))
  {
    if h.Complete? && 300 <= h.status <= 399 {
      ExpectedRedirect(r, redirtimes, url, s, h);
    }
  }

  lemma StoredClassified(r: Response, redirtimes: int, url: string, input: seq<Packet>, h: Head)
    requires IsReset(r) && r.sink == File && h == ParseHead(Stream(input)) && Stored(h)
    ensures Classified(r, Receive(Start(r, redirtimes, url), input).response, r.headers, h, redirtimes)
  {
    FileSinkContents(r, redirtimes, url, input, h);
    var final := Receive(Start(r, redirtimes, url), input).response;
    EndsKeepHead(final, BeforeBody(r, input), r.progress, Delivered(r.file, input));
    FilledClassified(r, final, h, redirtimes);
  }

  lemma EndsKeepHead(final: Response, before: Response, progress: int, d: Delivery)
    requires Ends(final, before, progress, d.inFile, d.Text(), d.Size(), Done(d.length, d.groups))
    ensures final == before.(file := final.file, body := final.body, progress := final.progress,
                             bodySize := final.bodySize)
  {
  }

  lemma EarlyClassified(r: Response, redirtimes: int, url: string, input: seq<Packet>, h: Head)
    requires IsReset(r) && r.sink == File && h == ParseHead(Stream(input)) && (h.Complete? ==> h.status >= 300)
    requires Receive(Start(r, redirtimes, url), input).control == Returned(false)
    ensures Classified(r, Receive(Start(r, redirtimes, url), input).response, r.headers, h, redirtimes)
  {
    if h.Complete? {
      HeadOnly(r, redirtimes, url, input, h);
    } else {
      ReceiveNoHead(r, redirtimes, url, input);
    }
    BodilessClassified(r, Receive(Start(r, redirtimes, url), input).response, h, redirtimes);
  }

  lemma FileClassified(r: Response, redirtimes: int, url: string, input: seq<Packet>, h: Head)
    requires IsReset(r) && r.sink == File && h == ParseHead(Stream(input))
    requires Receive(Start(r, redirtimes, url), input).control == Returned(false)
    ensures Classified(r, Receive(Start(r, redirtimes, url), input).response, r.headers, h, redirtimes)
  {
    if !h.Complete? || h.status >= 300 {
      EarlyClassified(r, redirtimes, url, input, h);
    } else if Stored(h) {
      StoredClassified(r, redirtimes, url, input, h);
    } else {
      NothingStored(r, redirtimes, url, input, h);
      assert false;
    }
  }

  /** One `receive()` that ends the run, with either sink. */
  lemma ReceiveClassified(r: Response, redirtimes: int, url: string, input: seq<Read>, h: Head)
    requires IsReset(r) && h == ParseHead(Stream(input))
    requires Receive(Start(r, redirtimes, url), input).control == Returned(false)
    ensures var final := Receive(Start(r, redirtimes, url), input).response;
      && Classified(r, final, r.headers, h, redirtimes)
      && (r.sink == Memory ==> BodyClassified(final, h))
  {
    if r.sink == Memory {
      ReceiveFollowsGrammar(r, redirtimes, url, input);
      ExpectedClassified(r, redirtimes, url, Stream(input), h);
    } else {
      FileClassified(r, redirtimes, url, input, h);
    }
  }

  /** Every run of `connect()` that ends without an exception, from a reset response of
      either kind: the status is that of the last answer if its header block was complete,
      else 0; a redirect status means that the budget was spent or the location was missing;
      version and received headers are filled in below 300 only, the description with every
      complete header block. In memory, the length reported, the body and the progress
      agree, and there is a body below 300 only. */
  lemma ConnectOutcome(runs: seq<Run>, last: Run, env: Environment, world: World, hop: nat, at: nat, final: Run)
    requires Connects(runs, env, world, hop, final)
    requires last == runs[|runs| - 1] && at == hop + |runs| - 1
    requires IsReset(runs[0].response) && final.control == Returned(false)
    ensures var first := runs[0];
      && Classified(first.response, final.response,
                    first.response.headers["Content-Length" := Decimal(|first.engine.body|)],
                    LastHead(world(at)), first.engine.redirtimes + |runs| - 1)
      && (first.response.sink == Memory ==> BodyClassified(final.response, LastHead(world(at))))
  {
    RedirectsKeep(runs, env, world, hop, |runs| - 1);
    LastSend(runs, last, env, world, hop, at, final);
    LastOutcome(runs[0], last, env, world(at), final);
  }

  lemma LastOutcome(first: Run, last: Run, env: Environment, answer: Answer, final: Run)
    requires SameEngine(first.engine, last.engine) && SameResponse(first.response, last.response)
    requires IsReset(first.response) && Empty(last.response)
    requires final == NextHop(last, env, answer) && final.control == Returned(false)
    ensures Classified(first.response, final.response,
                       first.response.headers[CONTENT_LENGTH := Decimal(|first.engine.body|)],
                       LastHead(answer), last.engine.redirtimes)
    ensures first.response.sink == Memory ==> BodyClassified(final.response, LastHead(answer))
  {
    if Split(last.response.url).None? || answer.Refused? {
      NotSent(last, env, answer);
      assert false;
    }
    var p := Split(last.response.url).value;
    var e := Addressed(last.engine, p, env);
    var r := Prepared(e, last.response, p);
    Sent(last, env, answer, p, e, r);
    AddressedMode(last.engine, p, env);
    ReceiveClassified(r, e.redirtimes, e.url, answer.input, LastHead(answer));
    UpdateSame(first.response.headers, last.response.headers, CONTENT_LENGTH, Decimal(|e.body|));
  }

  // ---------- how many redirects ----------

  /** An answer that asks for another request. */
  predicate Redirecting(answer: Answer) {
    && LastHead(answer).Complete? && 300 <= LastHead(answer).status <= 399
    && "Location" in FirstValues(LastHead(answer).lines)
    && Split(FirstValues(LastHead(answer).lines)["Location"]).Some?
  }

  ghost predicate KeepRedirecting(world: World, hop: nat) {
    forall i: nat :: hop <= i <= hop + 6 ==> Redirecting(world(i))
  }

  /** Where answers only redirect, a run of `connect()` from a fresh engine follows exactly
      six of them and refuses the seventh, whose status it reports. */
  lemma SixRedirectsExactly(runs: seq<Run>, env: Environment, world: World, hop: nat, final: Run)
    requires Connects(runs, env, world, hop, final)
    requires runs[0].engine == FreshEngine() && IsReset(runs[0].response) && Split(runs[0].response.url).Some?
    requires KeepRedirecting(world, hop)
    ensures |runs| == 7 && |final.requests| == |runs[0].requests| + 7 && final.control == Returned(false)
    ensures 300 <= final.response.status <= 399
    ensures LastHead(world(hop + 6)).Complete? && final.response.status == LastHead(world(hop + 6)).status
  {
    var n := |runs| - 1;
    AtMostSixRedirects(runs, env, world, hop, final);
    StillRedirecting(world, hop, n);
    SevenRequests(runs, env, world, hop, final, n);
    LastStatus(runs, runs[n], env, world, hop, hop + n, final);
  }

  lemma SevenRequests(runs: seq<Run>, env: Environment, world: World, hop: nat, final: Run, n: nat)
    requires Connects(runs, env, world, hop, final) && n == |runs| - 1 <= 6
    requires runs[0].engine.redirtimes == 0 && Empty(runs[0].response) && Split(runs[0].response.url).Some?
    requires KeepRedirecting(world, hop)
    ensures n == 6 && |final.requests| == |runs[0].requests| + 7 && final.control == Returned(false)
  {
    RedirectsKeep(runs, env, world, hop, n);
    RedirectsCount(runs, env, world, hop, n);
    LastUrlSplits(runs, env, world, hop, n);
    StillRedirecting(world, hop, n);
    LastRefused(runs, runs[n], env, world, hop, hop + n, final);
  }

  lemma LastRefused(runs: seq<Run>, last: Run, env: Environment, world: World, hop: nat, at: nat, final: Run)
    requires Connects(runs, env, world, hop, final)
    requires last == runs[|runs| - 1] && at == hop + |runs| - 1
    requires Empty(last.response) && Split(last.response.url).Some? && Redirecting(world(at))
    ensures last.engine.redirtimes > 5 && final.control == Returned(false)
    ensures |final.requests| == |last.requests| + 1
  {
    LastSend(runs, last, env, world, hop, at, final);
    Refused(last, env, world(at), final);
  }

  lemma LastStatus(runs: seq<Run>, last: Run, env: Environment, world: World, hop: nat, at: nat, final: Run)
    requires Connects(runs, env, world, hop, final) && final.control == Returned(false)
    requires last == runs[|runs| - 1] && at == hop + |runs| - 1
    requires IsReset(runs[0].response) && LastHead(world(at)).Complete?
    ensures final.response.status == LastHead(world(at)).status
  {
    ConnectOutcome(runs, last, env, world, hop, at, final);
  }

  lemma StillRedirecting(world: World, hop: nat, n: nat)
    requires KeepRedirecting(world, hop) && n <= 6
    ensures Redirecting(world(hop + n))
  {
  }

  lemma LastUrlSplits(runs: seq<Run>, env: Environment, world: World, hop: nat, n: nat)
    requires Redirects(runs, env, world, hop) && n < |runs|
    requires Empty(runs[0].response) && Split(runs[0].response.url).Some?
    requires KeepRedirecting(world, hop) && n <= 6
    ensures Split(runs[n].response.url).Some?
  {
    if n > 0 {
      var m := n - 1;
      RedirectsKeep(runs, env, world, hop, m);
      RedirectHop(runs, env, world, hop, m);
      HopKeeps(runs[0], runs[m], env, world(hop + m), runs[n]);
      StillRedirecting(world, hop, m);
    }
  }

  /** The end of a run that is answered by a redirect. */
  lemma Refused(last: Run, env: Environment, answer: Answer, final: Run)
    requires Empty(last.response) && Split(last.response.url).Some? && Redirecting(answer)
    requires final == NextHop(last, env, answer) && final.control != Returned(true)
    ensures last.engine.redirtimes > 5 && final.control == Returned(false)
    ensures |final.requests| == |last.requests| + 1
  {
    var p := Split(last.response.url).value;
    var e := Addressed(last.engine, p, env);
    var r := Prepared(e, last.response, p);
    Sent(last, env, answer, p, e, r);
    AddressedMode(last.engine, p, env);
    FollowsExactly(r, e.redirtimes, e.url, answer.input);
    RefusedReceive(r, e.redirtimes, e.url, answer.input, LastHead(answer));
  }

  lemma RefusedReceive(r: Response, redirtimes: int, url: string, input: seq<Read>, h: Head)
    requires Empty(r) && h == ParseHead(Stream(input)) && h.Complete? && 300 <= h.status <= 399
    requires Receive(Start(r, redirtimes, url), input).control != Returned(true)
    ensures Receive(Start(r, redirtimes, url), input).control == Returned(false)
  {
    if r.sink == Memory {
      ReceiveFollowsGrammar(r, redirtimes, url, input);
      ExpectedRedirect(r, redirtimes, url, Stream(input), h);
    } else {
      HeadOnly(r, redirtimes, url, input, h);
    }
  }

  /** There is such a run for every first run of that kind. */
  lemma SixRedirectsFollowed(first: Run, env: Environment, world: World, hop: nat) returns (runs: seq<Run>, final: Run)
    requires first.control == Returned(true) && first.engine == FreshEngine()
    requires IsReset(first.response) && Split(first.response.url).Some?
    requires KeepRedirecting(world, hop)
    ensures Connects(runs, env, world, hop, final) && runs[0] == first && |runs| == 7
  {
    runs, final := ConnectEnds([first], env, world, hop);
    SixRedirectsExactly(runs, env, world, hop, final);
  }

  // ---------- after a reset ----------

  /** A reset makes every response one that the classification is about. */
  lemma ResetIsReset(r: Response)
    ensures IsReset(AfterReset(r)) && AfterReset(r).headers == map[] && AfterReset(r).url == ""
    ensures r.sink == File ==>
      var f := AfterReset(r).file;
      !f.isOpen && f.filename == "" && f.filepath == "" && f.disk == r.file.disk
  {
  }

  /** A transfer into a file after a reset leaves the files of earlier transfers alone, also
      one that was still open: the document is stored in a new file, whose name is taken
      from the URL of one of the hops. */
  lemma ResetProtectsFiles(r: Response, url: string, runs: seq<Run>, last: Run, env: Environment, world: World, hop: nat,
                           at: nat, final: Run, h: Head)
    requires r.sink == File && Connects(runs, env, world, hop, final)
    requires runs[0].response == WithUrl(AfterReset(r), url)
    requires last == runs[|runs| - 1] && at == hop + |runs| - 1
    requires world(at).Answers? && Split(last.response.url).Some?
    requires h == ParseHead(Stream(world(at).input)) && Stored(h)
    ensures var d := Delivered(last.response.file, world(at).input);
      var k := FirstEarly(world, hop, |runs| - 1);
      && Split(runs[k].response.url).Some?
      && var path := FreePath(Split(runs[k].response.url).value.file, r.file.disk.Keys);
        path !in r.file.disk
        && final.response.file.disk == (if d.inFile then r.file.disk[path := d.Text()] else r.file.disk)
    ensures forall path :: path in r.file.disk ==>
      path in final.response.file.disk && final.response.file.disk[path] == r.file.disk[path]
  {
    ResetIsReset(r);
    DocumentPath(runs, last, env, world, hop, at, final, h);
  }
}
