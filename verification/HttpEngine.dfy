/** The class `http_engine`: its methods carry out what the functions of the modules
    Parser and Engines say. */
module HttpEngines {
  import opened Text
  import opened OrderedMap
  import opened Responses
  import opened Parser
  import opened HeaderFormat
  import opened HeaderLoop
  import opened Follow
  import opened Url
  import opened Engines

  /** The bytes before `position` and the one there. */
  lemma Advance(m: Machine, bytes: string, position: nat)
    requires position < |bytes|
    ensures Feed(m, bytes[..position + 1]) == Step(Feed(m, bytes[..position]), bytes[position])
    ensures Idle(Feed(m, bytes[..position])) ==> Feed(m, bytes) == Feed(m, bytes[..position])
    ensures Idle(Feed(m, bytes[..position + 1])) ==> Feed(m, bytes) == Feed(m, bytes[..position + 1])
  {
    assert bytes[..position + 1] == bytes[..position] + [bytes[position]];
    FeedOne(m, bytes[..position], bytes[position]);
    FeedRest(m, bytes, position);
    FeedRest(m, bytes, position + 1);
  }

  lemma FeedRest(m: Machine, bytes: string, n: nat)
    requires n <= |bytes|
    ensures Idle(Feed(m, bytes[..n])) ==> Feed(m, bytes) == Feed(m, bytes[..n])
  {
    assert bytes == bytes[..n] + bytes[n..];
    FeedAppend(m, bytes[..n], bytes[n..]);
    if Idle(Feed(m, bytes[..n])) {
      FeedIdle(Feed(m, bytes[..n]), bytes[n..]);
    }
  }

  class HttpEngine {
    const env: Environment
    const world: World
    var verb: string
    var host: string
    var url: string
    var targetUrl: string
    var version: string
    var proxyAuth: (string, string)
    var body: string
    var httpProxy: HttpProxy
    var httpType: HttpType
    var redirtimes: int
    var response: HttpResponse
    // the network: the answer that is due next, the reads of the open connection that
    // have not been taken yet, and the requests written so far
    var hop: nat
    var input: seq<Read>
    var requests: seq<string>

    function View(): Engine
      reads this
    {
      Engine(verb, host, url, targetUrl, version, proxyAuth, body, httpProxy, httpType, redirtimes)
    }

    /** The engine starts with a memory response of its own. */
    constructor (env: Environment, world: World)
      ensures View() == Engine("GET", "", "/", "", "HTTP/1.0", ("", ""), "", NoProxy, PlainHttp, 0)
      ensures View() == FreshEngine() && hop == 0 && requests == []
      ensures this.env == env && this.world == world
      ensures fresh(response) && response.View() == FreshResponse()
    {
      this.env, this.world := env, world;
      hop, input, requests := 0, [], [];
      verb, host, url, targetUrl := GET, "", "/", "";
      version, proxyAuth, body := VERSION_1_0, ("", ""), "";
      httpProxy, httpType, redirtimes := NoProxy, PlainHttp, 0;
      response := new HttpResponse(Memory, map[]);
    }

    /** The machine that the locals of `Receive` stand for. */
    ghost function Here(p: Locals): Machine
      reads this, response
    {
      Machine(Running, p, response.View(), redirtimes, url)
    }

    /** Copies the next read into the buffer; a closed connection gives `eof`. */
    method SockGet(buffer: array<char>) returns (bytesRead: nat, canOpen: bool, eof: bool)
      requires buffer.Length == BUFFER_SIZE
      modifies `input, buffer
      ensures eof <==> old(input) == []
      ensures eof ==> input == old(input)
      ensures !eof ==> input == old(input)[1..] && canOpen == old(input)[0].canOpen
      ensures !eof ==> 0 < bytesRead <= 2048 && buffer[..bytesRead] == old(input)[0].bytes
    {
      if input == [] {
        return 0, false, true;
      }
      var bytes := input[0].bytes;
      forall i | 0 <= i < |bytes| {
        buffer[i] := bytes[i];
      }
      bytesRead, canOpen, eof := |bytes|, input[0].canOpen, false;
      input := input[1..];
    }

    method IsAcceptable(status: int) returns (ok: bool)
      ensures ok == ParseStatus(status)
    {
      if status < 300 {
        return true;
      } else if status >= 300 && status < 400 {
        return true;
      } else if status >= 400 && status < 500 {
        return false;
      } else {
        return false;
      }
    }

    method Report(status: int, description: string)
      modifies response
      ensures response.View() == Reported(old(response.View()), status, description)
    {
      response.status := status;
      response.description := description;
      response.Completed();
    }

    method Redirect(p: Locals) returns (again: bool)
      modifies `redirtimes, `url, response
      ensures Here(p).(control := Returned(again)) == Redirected(old(Here(p)))
    {
      redirtimes := redirtimes + 1;
      if redirtimes - 1 > REDIRECT_LIMIT {
        Report(p.status, p.description);
        return false;
      }
      if LOCATION in p.tempHeaders {
        url := p.tempHeaders[LOCATION];
        response.SetUrl(url);
        return true;
      }
      Report(p.status, p.description);
      return false;
    }

    /** Fills the head into the response; stops at a length that is not a number. */
    method FillIn(p: Locals) returns (complete: bool)
      modifies response
      ensures (response.View(), complete) == FilledIn(old(response.View()), p)
    {
      response.version := p.version;
      response.status := p.status;
      response.description := p.description;
      complete := InsertHeaders(response, p.tempHeaders);
    }

    method SetUp(p: Locals) returns (complete: bool, state: ParserState)
      modifies response
      ensures Parser.SetUp(old(Here(p))) ==
        if complete then Here(p.(state := state)) else Here(p).(control := Threw(BadLength))
    {
      complete := FillIn(p);
      state := AnetdBody;
      if complete {
        if CONTENT_LENGTH in p.tempHeaders {
          state := if response.bodySize == 0 then AnetdOk else AnetdBody;
        } else {
          response.bodySize := 0;
        }
      }
    }

    /** What happens at the newline that ends the header block. */
    method EndOfHeaders(p: Locals) returns (control: Control, state: ParserState)
      modifies `redirtimes, `url, response
      ensures Parser.EndOfHeaders(old(Here(p))) ==
        Here(if control == Running then p.(state := state) else p).(control := control)
    {
      state := p.state;
      var acceptable := IsAcceptable(p.status);
      if !acceptable {
        Report(p.status, p.description);
        return Returned(false), state;
      }
      if p.status >= 300 && p.status < 400 {
        var again := Redirect(p);
        return Returned(again), state;
      }
      var complete;
      complete, state := SetUp(p);
      return if complete then Running else Threw(BadLength), state;
    }

    /** One round of the inner loop, before the end of the body: the byte `c` moves
        the locals from `p` to `q`. */
    method Consume(p: Locals, c: char) returns (control: Control, q: Locals)
      requires p.state != AnetdOk
      modifies `redirtimes, `url, response
      ensures Here(q).(control := control) == Step(old(Here(p)), c)
    {
      control, q := Running, p;
      match p.state
      case AnetdVersion =>
        if c != ' ' {
          q := q.(version := q.version + [c]);
        } else {
          q := q.(state := AnetdStatus, temp := "");
        }
      case AnetdStatus =>
        if c != ' ' {
          q := q.(temp := q.temp + [c]);
        } else {
          var n := CastInt(q.temp);
          if n.None? {
            return Threw(BadStatus), q;
          }
          q := q.(status := n.value, state := AnetdDescription);
        }
      case AnetdDescription =>
        if c == '\n' {
          q := q.(state := AnetdHeaderKey);
        } else if c != '\r' {
          q := q.(description := q.description + [c]);
        }
      case AnetdHeaderKey =>
        if c == '\n' {
          var state;
          control, state := EndOfHeaders(q);
          if control == Running {
            q := q.(state := state);
          }
        } else if c == ' ' {
          q := q.(tempValue := "", state := AnetdHeaderValue);
        } else if c != '\r' && c != ':' {
          q := q.(tempKey := q.tempKey + [c]);
        }
      case AnetdHeaderValue =>
        if c == '\n' {
          q := q.(tempHeaders := Insert(q.tempHeaders, q.tempKey, q.tempValue), tempKey := "",
                  state := AnetdHeaderKey);
        } else if c != '\r' {
          q := q.(tempValue := q.tempValue + [c]);
        }
      case AnetdBody =>
        response.SetBody(c);
        if |response.body| == response.bodySize {
          q := q.(state := AnetdOk);
        }
    }

    /** Reads the response to the request just sent. */
    method Receive() returns (control: Control)
      modifies `input, `redirtimes, `url, response
      ensures var m := Parser.Receive(Start(old(response.View()), old(redirtimes), old(url)), old(input));
        && control == m.control && response.View() == m.response
        && redirtimes == m.redirtimes && url == m.url
    {
      var p := START;
      var buffer := new char[BUFFER_SIZE];
      ghost var outcome := Parser.Receive(Here(START), input);
      while true
        invariant outcome == Parser.Receive(Here(p), input)
        invariant p.state != AnetdOk
        decreases |input|
      {
        ghost var m, due := Here(p), input;
        var bytesRead, canOpen, eof := SockGet(buffer);
        if eof {
          response.bodySize := |response.body|;
          return Returned(false);
        }
        control, p := Walk(p, buffer, bytesRead);
        if control != Running {
          return;
        }
        response.Flush(canOpen);
        if p.state == AnetdOk {
          response.Completed();
          return Returned(false);
        }
      }
    }

    /** The inner loop: moves over the bytes that the last read put into the buffer. */
    method Walk(p: Locals, buffer: array<char>, bytesRead: nat) returns (control: Control, q: Locals)
      requires bytesRead <= buffer.Length
      modifies `redirtimes, `url, response
      ensures Here(q).(control := control) == Feed(old(Here(p)), buffer[..bytesRead])
    {
      control, q := Running, p;
      ghost var m, bytes := Here(p), buffer[..bytesRead];
      assert bytes[..bytesRead] == bytes;
      var position := 0;
      while position < bytesRead
        invariant 0 <= position <= bytesRead && buffer[..bytesRead] == bytes
        invariant control == Running && Here(q) == Feed(m, bytes[..position])
      {
        Advance(m, bytes, position);
        if q.state == AnetdOk {
          position := bytesRead;
        } else {
          control, q := Consume(q, buffer[position]);
          if control != Running {
            return;
          }
          position := position + 1;
        }
      }
    }

    method Reset()
      modifies this, response
      ensures verb == "GET" && url == "/" && host == "" && version == "HTTP/1.0"
      ensures httpProxy == NoProxy && httpType == PlainHttp && redirtimes == 0
      ensures View() == FreshEngine().(proxyAuth := old(proxyAuth), body := old(body), targetUrl := old(targetUrl))
      ensures response == old(response) && response.View() == AfterReset(old(response.View()))
    {
      verb := GET;
      url := "/";
      host := "";
      version := VERSION_1_0;
      response.Reset();
      httpProxy := NoProxy;
      httpType := PlainHttp;
      redirtimes := 0;
    }

    /** The part of `send()` that takes the URL apart. */
    method Address(parts: UrlParts)
      modifies this, response
      ensures View() == Addressed(old(View()), parts, env)
      ensures response == old(response) && response.View() == WithHost(old(response.View()), parts)
      ensures hop == old(hop) && requests == old(requests)
    {
      url := parts.path + parts.file;
      if url == "" {
        url := "/";
      }
      var scheme := Lower(parts.scheme);
      if scheme == HTTP {
        AddressAs(parts, scheme, HTTP_PORT, PlainHttp, env.httpProxy);
      } else if scheme == HTTPS {
        AddressAs(parts, scheme, HTTPS_PORT, SslHttps, env.httpsProxy);
      }
    }

    method AddressAs(parts: UrlParts, scheme: string, defaultPort: string, connection: HttpType, proxy: string)
      modifies `httpType, `host, `targetUrl, `httpProxy, response`sendHeaders
      ensures View() == AddressedAs(old(View()), parts, scheme, defaultPort, connection, proxy)
      ensures response.sendHeaders == old(response.sendHeaders)[HOST := parts.host]
    {
      httpType := connection;
      var port := parts.port;
      if port == "" {
        port := defaultPort;
      }
      host := scheme + "://" + parts.host + ":" + (if parts.port == "" then defaultPort else parts.port);
      targetUrl := parts.host + ":" + port;
      response.sendHeaders := response.sendHeaders[HOST := parts.host];
      if proxy != "" {
        httpProxy := ProxyHttp;
      }
    }

    /** The text of the request. */
    method Print(query: string) returns (request: string)
      ensures request == Request(View(), response.View(), query)
    {
      var line := PrintLine(query);
      var sent := PrintHeaders(response.sendHeaders);
      var own := PrintOwnHeaders();
      HeaderTextAppend(Lines(response.sendHeaders), OwnLines(View(), response.View()));
      request := line + (sent + own) + (CRLF + CRLF + body);
    }

    method PrintLine(query: string) returns (line: string)
      ensures line == RequestLine(View(), query)
    {
      match httpProxy {
        case NoProxy => line := verb + " " + url;
        case ProxyHttp | ProxyHttps => line := verb + " " + host + url;
      }
      if |query| > 0 {
        line := line + query;
      }
      assert line == verb + " " + Target(View(), query);
      line := line + " " + version + CRLF;
    }

    method PrintHeaders(sendHeaders: Headers) returns (text: string)
      ensures text == HeaderText(Lines(sendHeaders))
    {
      var keys := InOrder(sendHeaders.Keys);
      ghost var lines := Lines(sendHeaders);
      text := "";
      var i := 0;
      while i < |keys|
        invariant 0 <= i <= |keys|
        invariant text == HeaderText(lines[..i])
      {
        assert keys[i] in keys && lines[i] == (keys[i], sendHeaders[keys[i]]);
        assert lines[..i + 1] == lines[..i] + [lines[i]];
        HeaderTextOne(lines[..i], keys[i], sendHeaders[keys[i]]);
        text := text + HeaderLine(keys[i], sendHeaders[keys[i]]);
        i := i + 1;
      }
      assert lines[..i] == lines;
    }

    method PrintOwnHeaders() returns (text: string)
      ensures text == HeaderText(OwnLines(View(), response.View()))
    {
      ghost var lines: seq<(string, string)> := [];
      text := "";
      if |response.httpAuth.0| > 0 {
        HeaderTextOne(lines, AUTHORIZATION, BasicToken(response.httpAuth));
        lines := lines + [(AUTHORIZATION, BasicToken(response.httpAuth))];
        text := text + HeaderLine(AUTHORIZATION, BasicToken(response.httpAuth));
      }
      if httpProxy == ProxyHttp && |proxyAuth.0| > 0 {
        HeaderTextOne(lines, PROXY_AUTHORIZATION, BasicToken(proxyAuth));
        lines := lines + [(PROXY_AUTHORIZATION, BasicToken(proxyAuth))];
        text := text + HeaderLine(PROXY_AUTHORIZATION, BasicToken(proxyAuth));
      }
      HeaderTextAppend(lines, LAST_LINES);
      assert lines + LAST_LINES == OwnLines(View(), response.View());
      var last := PrintLastHeaders();
      text := text + last;
    }

    method PrintLastHeaders() returns (text: string)
      ensures text == HeaderText(LAST_LINES)
    {
      text := "Accept: */*" + CRLF;
      text := text + "Connection: close" + CRLF;
      assert LAST_LINES[1..] == [("Connection", "close")];
    }

    /** Writes the request to the connection. */
    method SendRequest(query: string)
      modifies `requests, response`headers
      ensures response.View() == WithRequestLength(View(), old(response.View()))
      ensures requests == old(requests) + [Request(View(), response.View(), query)]
    {
      response.headers := response.headers[CONTENT_LENGTH := Decimal(|body|)];
      var request := Print(query);
      requests := requests + [request];
    }

    /** Receives what comes over the connection that has just been made. */
    method ReceiveReply(reply: seq<Read>) returns (control: Control)
      modifies `input, `redirtimes, `url, response
      ensures var m := Parser.Receive(Start(old(response.View()), old(redirtimes), old(url)), reply);
        && control == m.control && response.View() == m.response
        && View() == old(View()).(redirtimes := m.redirtimes, url := m.url)
    {
      input := reply;
      control := Receive();
    }

    /** The part of `send()` after the connection is made. */
    method Exchange(query: string, reply: seq<Read>) returns (control: Control)
      modifies this, response
      ensures response == old(response) && hop == old(hop)
      ensures Run(control, View(), response.View(), requests) ==
              Engines.Exchange(old(View()), old(response.View()), query, reply, old(requests))
    {
      ghost var e, r, sent := View(), response.View(), requests;
      SendRequest(query);
      ghost var r1, request := response.View(), Request(e, response.View(), query);
      control := ReceiveReply(reply);
      Exchanged(e, r, query, reply, sent, r1, request);
    }

    method Send() returns (control: Control)
      modifies this, response
      ensures response == old(response) && hop == old(hop) + 1
      ensures Run(control, View(), response.View(), requests) ==
              Engines.Send(old(View()), old(response.View()), env, world(old(hop)), old(requests))
    {
      var answer := world(hop);
      hop := hop + 1;
      var parts := Split(response.url);
      if parts.None? {
        return Threw(NoUrlMatch);
      }
      Address(parts.value);
      if answer.Refused? {
        return Threw(NoConnection);
      }
      control := Exchange(parts.value.query, answer.input);
    }

    /** One `send()` of a run that has passed the states `runs`. */
    method FollowOne(ghost runs: seq<Run>, ghost start: nat) returns (control: Control)
      requires Redirects(runs, env, world, start) && start + |runs| == hop + 1
      requires runs[|runs| - 1] == Begin(View(), response.View(), requests)
      modifies this, response
      ensures response == old(response) && hop == old(hop) + 1
      ensures var next := Run(control, View(), response.View(), requests);
        if control == Returned(true) then Redirects(runs + [next], env, world, start)
        else Connects(runs, env, world, start, next)
      ensures control == Returned(true) ==> Budget(View()) < Budget(old(View()))
    {
      ghost var last, n := Begin(View(), response.View(), requests), hop;
      control := Send();
      ghost var next := Run(control, View(), response.View(), requests);
      HopCounts(last, env, world(n), next);
      assert next == Sender(env, world)(last, n);
      if control == Returned(true) {
        ChainGrows(Sender(env, world), GoesOn, runs, start, next);
      }
    }

    /** Follows redirects until a request ends otherwise. */
    method Connect() returns (control: Control, ghost runs: seq<Run>)
      modifies this, response
      ensures response == old(response)
      ensures runs != [] && runs[0] == Begin(old(View()), old(response.View()), old(requests))
      ensures Connects(runs, env, world, old(hop), Run(control, View(), response.View(), requests))
    {
      ghost var start := hop;
      runs := [Begin(View(), response.View(), requests)];
      control := Returned(true);
      while control == Returned(true)
        invariant response == old(response)
        invariant runs != [] && runs[0] == Begin(old(View()), old(response.View()), old(requests))
        invariant control == Returned(true) ==>
          Redirects(runs, env, world, start) && start + |runs| == hop + 1
          && runs[|runs| - 1] == Begin(View(), response.View(), requests)
        invariant control != Returned(true) ==>
          Connects(runs, env, world, start, Run(control, View(), response.View(), requests))
        decreases control == Returned(true), Budget(View())
      {
        control := FollowOne(runs, start);
        if control == Returned(true) {
          runs := runs + [Begin(View(), response.View(), requests)];
        }
      }
    }

    /** `Starttransfer`, without its thread: the caller's response takes the place of the
        one at hand, and the transfer runs. */
    method StartTransfer(newResponse: HttpResponse) returns (control: Control, ghost runs: seq<Run>)
      modifies this, newResponse
      ensures response == newResponse
      ensures runs != [] && runs[0] == Begin(old(View()), old(newResponse.View()), old(requests))
      ensures Connects(runs, env, world, old(hop), Run(control, View(), newResponse.View(), requests))
    {
      response := newResponse;
      control, runs := Connect();
    }
  }
}
