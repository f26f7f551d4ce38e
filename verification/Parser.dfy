/** The byte machine inside `http_engine::receive()`, as a function of one byte, and
    the run of the machine over the reads of a connection. */
module Parser {
  import opened Text
  import opened OrderedMap
  import opened Responses

  datatype ParserState =
    | AnetdVersion | AnetdStatus | AnetdDescription | AnetdHeaderKey | AnetdHeaderValue | AnetdBody | AnetdOk

  /** The exceptions that leave `receive()` and `send()`. */
  datatype Failure = BadStatus | BadLength | NoUrlMatch | NoConnection

  /** Whether `receive()` is still looping, and how it ended. */
  datatype Control = Running | Returned(again: bool) | Threw(failure: Failure)

  /** The local variables of `receive()`. */
  datatype Locals = Locals(
    state: ParserState, version: string, status: int, description: string, temp: string,
    tempKey: string, tempValue: string, tempHeaders: Headers)

  /** The locals with the parts of the engine and the response that the loop updates. */
  datatype Machine = Machine(control: Control, locals: Locals, response: Response, redirtimes: int, url: string)

  const CONTENT_LENGTH := "Content-Length"
  const LOCATION := "Location"
  const REDIRECT_LIMIT := 5

  const START := Locals(AnetdVersion, "", 0, "", "", "", "", map[])

  function Start(r: Response, redirtimes: int, url: string): Machine {
    Machine(Running, START, r, redirtimes, url)
  }

  /** `parse_status` */
  predicate ParseStatus(status: int) {
    status < 400
  }

  predicate IsRedirect(status: int) {
    300 <= status < 400
  }

  /** The response after an end without a body: only status and description are set. */
  function Reported(r: Response, status: int, description: string): Response {
    AfterCompleted(r.(status := status, description := description))
  }

  /** The headers that the setup loop has inserted before it meets a length that is
      not a number: those up to and including Content-Length. */
  function UpToLength(temp: Headers): Headers {
    map k | k in temp && !Less(CONTENT_LENGTH, k) :: temp[k]
  }

  /** Headers and body size of the response after the setup loop over the received
      headers, and whether the loop ended without an exception. */
  datatype HeaderSetup = HeaderSetup(headers: Headers, bodySize: nat, ok: bool)

  function Setup(before: Headers, bodySize: nat, temp: Headers): HeaderSetup {
    if CONTENT_LENGTH !in temp then HeaderSetup(temp + before, bodySize, true)
    else
      match CastInt(temp[CONTENT_LENGTH])
      case None => HeaderSetup(UpToLength(temp) + before, bodySize, false)
      case Some(n) => HeaderSetup(temp + before, ToSize(n), true)
  }

  /** The headers of a redirect are complete. */
  function Redirected(m: Machine): Machine {
    var p := m.locals;
    var m1 := m.(redirtimes := m.redirtimes + 1);
    if m.redirtimes > REDIRECT_LIMIT || LOCATION !in p.tempHeaders then
      m1.(control := Returned(false), response := Reported(m.response, p.status, p.description))
    else
      m1.(control := Returned(true), url := p.tempHeaders[LOCATION],
          response := WithUrl(m.response, p.tempHeaders[LOCATION]))
  }

  /** The response with the received head, and whether its length could be read. */
  function FilledIn(r: Response, p: Locals): (Response, bool) {
    var setup := Setup(r.headers, r.bodySize, p.tempHeaders);
    (r.(version := p.version, status := p.status, description := p.description,
        headers := setup.headers, bodySize := setup.bodySize), setup.ok)
  }

  /** The headers of a response with a body are complete. */
  function SetUp(m: Machine): Machine {
    var p, (r, ok) := m.locals, FilledIn(m.response, m.locals);
    if !ok then m.(control := Threw(BadLength), response := r)
    else if CONTENT_LENGTH in p.tempHeaders then
      m.(locals := p.(state := if r.bodySize == 0 then AnetdOk else AnetdBody), response := r)
    else
      m.(locals := p.(state := AnetdBody), response := r.(bodySize := 0))
  }

  /** The end of the header block: a newline where a key would start. */
  function EndOfHeaders(m: Machine): Machine {
    var p := m.locals;
    if !ParseStatus(p.status) then
      m.(control := Returned(false), response := Reported(m.response, p.status, p.description))
    else if IsRedirect(p.status) then Redirected(m)
    else SetUp(m)
  }

  /** One byte. A machine that has finished or stopped ignores it. */
  function Step(m: Machine, c: char): Machine {
    var p := m.locals;
    if m.control != Running then m
    else match p.state
      case AnetdVersion =>
        if c != ' ' then m.(locals := p.(version := p.version + [c]))
        else m.(locals := p.(state := AnetdStatus, temp := ""))
      case AnetdStatus =>
        if c != ' ' then m.(locals := p.(temp := p.temp + [c]))
        else (match CastInt(p.temp)
          case None => m.(control := Threw(BadStatus))
          case Some(n) => m.(locals := p.(status := n, state := AnetdDescription)))
      case AnetdDescription =>
        if c == '\r' then m
        else if c != '\n' then m.(locals := p.(description := p.description + [c]))
        else m.(locals := p.(state := AnetdHeaderKey))
      case AnetdHeaderKey =>
        if c == '\r' then m
        else if c == '\n' then EndOfHeaders(m)
        else if c == ':' then m
        else if c != ' ' then m.(locals := p.(tempKey := p.tempKey + [c]))
        else m.(locals := p.(tempValue := "", state := AnetdHeaderValue))
      case AnetdHeaderValue =>
        if c == '\r' then m
        else if c != '\n' then m.(locals := p.(tempValue := p.tempValue + [c]))
        else m.(locals := p.(tempHeaders := Insert(p.tempHeaders, p.tempKey, p.tempValue), tempKey := "",
                             state := AnetdHeaderKey))
      case AnetdBody =>
        var r := AppendBody(m.response, c);
        m.(response := r, locals := p.(state := if |r.body| == r.bodySize then AnetdOk else AnetdBody))
      case AnetdOk => m
  }

  function Feed(m: Machine, s: string): Machine
    decreases |s|
  {
    if s == "" then m else Feed(Step(m, s[0]), s[1..])
  }

  const BUFFER_SIZE := 2048

  /** One read from the connection, and the answer to the open call that a file sink
      may make when it is flushed after that read. */
  datatype Packet = Packet(bytes: string, canOpen: bool)

  type Read = p: Packet | 0 < |p.bytes| <= BUFFER_SIZE witness Packet(" ", true)

  function FlushMachine(m: Machine, canOpen: bool): Machine {
    m.(response := AfterFlush(m.response, canOpen))
  }

  /** The connection is closed: the length becomes that of the body in memory. */
  function AtEof(m: Machine): Machine {
    m.(control := Returned(false), response := m.response.(bodySize := |m.response.body|))
  }

  function AtOk(m: Machine): Machine {
    m.(control := Returned(false), response := AfterCompleted(m.response))
  }

  /** `receive()`: after each read the response is flushed; the end of the reads is
      the end of the stream. */
  function Receive(m: Machine, input: seq<Packet>): Machine
    decreases |input|
  {
    if input == [] then AtEof(m)
    else
      var m1 := Feed(m, input[0].bytes);
      if m1.control != Running then m1
      else
        var m2 := FlushMachine(m1, input[0].canOpen);
        if m2.locals.state == AnetdOk then AtOk(m2) else Receive(m2, input[1..])
  }

  /** A read after which the loop goes on. */
  lemma ReceiveGoesOn(m: Machine, input: seq<Packet>, fed: Machine)
    requires input != [] && fed == Feed(m, input[0].bytes)
    requires fed.control == Running && fed.locals.state != AnetdOk
    ensures Receive(m, input) == Receive(FlushMachine(fed, input[0].canOpen), input[1..])
  {
  }

  /** A read that completes the response. */
  lemma ReceiveCompletes(m: Machine, input: seq<Packet>, fed: Machine)
    requires input != [] && fed == Feed(m, input[0].bytes)
    requires fed.control == Running && fed.locals.state == AnetdOk
    ensures Receive(m, input) == AtOk(FlushMachine(fed, input[0].canOpen))
  {
  }

  function Stream(input: seq<Packet>): string {
    if input == [] then "" else input[0].bytes + Stream(input[1..])
  }

  // ---------- feeding in pieces ----------

  lemma {:induction false} FeedAppend(m: Machine, a: string, b: string)
    ensures Feed(m, a + b) == Feed(Feed(m, a), b)
    decreases |a|
  {
    if a == "" {
      assert a + b == b;
    } else {
      assert (a + b)[1..] == a[1..] + b;
      FeedAppend(Step(m, a[0]), a[1..], b);
    }
  }

  lemma FeedOne(m: Machine, s: string, c: char)
    ensures Feed(m, s + [c]) == Step(Feed(m, s), c)
  {
    FeedAppend(m, s, [c]);
    assert [c][1..] == "";
  }

  predicate Idle(m: Machine) {
    m.control != Running || m.locals.state == AnetdOk
  }

  lemma {:induction false} FeedIdle(m: Machine, s: string)
    requires Idle(m)
    ensures Feed(m, s) == m
  {
    if s != "" {
      FeedIdle(m, s[1..]);
    }
  }

  lemma {:induction false} FeedKeepsSink(m: Machine, s: string)
    ensures Feed(m, s).response.sink == m.response.sink
    decreases |s|
  {
    if s != "" {
      FeedKeepsSink(Step(m, s[0]), s[1..]);
    }
  }

  // ---------- the memory sink does not see how the stream was cut ----------

  /** What `receive()` does with a whole stream. */
  function Finish(m: Machine): Machine {
    if m.control != Running then m
    else if m.locals.state == AnetdOk then AtOk(m)
    else AtEof(m)
  }

  lemma {:induction false} ReceiveIsFeed(m: Machine, input: seq<Read>)
    requires m.response.sink == Memory && !Idle(m)
    ensures Receive(m, input) == Finish(Feed(m, Stream(input)))
    decreases |input|
  {
    if input != [] {
      var m1 := Feed(m, input[0].bytes);
      FeedKeepsSink(m, input[0].bytes);
      FeedAppend(m, input[0].bytes, Stream(input[1..]));
      if Idle(m1) {
        FeedIdle(m1, Stream(input[1..]));
      } else {
        ReceiveIsFeed(m1, input[1..]);
      }
    }
  }

  /** Two ways of cutting one stream into reads give the same outcome: the same
      return value or exception, response, redirect count and URL. */
  lemma ChunkingIndependence(r: Response, redirtimes: int, url: string, a: seq<Read>, b: seq<Read>)
    requires r.sink == Memory
    requires Stream(a) == Stream(b)
    ensures Receive(Start(r, redirtimes, url), a) == Receive(Start(r, redirtimes, url), b)
  {
    ReceiveIsFeed(Start(r, redirtimes, url), a);
    ReceiveIsFeed(Start(r, redirtimes, url), b);
  }
}
