/** A reading of a whole response stream by the grammar of sections 4.2, 6 and 7.2.2 of
    RFC 1945, as far as the library follows it, and the proof that the byte machine
    behind `receive()` computes exactly that for every stream and every cut. */
module Grammar {
  import opened Text
  import opened OrderedMap
  import opened Responses
  import opened Parser

  datatype HeaderBlock = NoBlock | Block(lines: seq<(string, string)>, rest: string)

  function Prepend(lines: seq<(string, string)>, b: HeaderBlock): HeaderBlock {
    match b
    case NoBlock => NoBlock
    case Block(more, rest) => Block(lines + more, rest)
  }

  /** The header lines up to the newline that stands where a key would start. A key
      ends at a space, not at the colon, which is dropped. */
  function ParseLines(s: string): HeaderBlock
    decreases |s|, 1
  {
    var i := Find(s, KeyEnd);
    if i == |s| then NoBlock
    else if s[i] == '\n' then Block([], s[i + 1..])
    else ParseValue(Without(s[..i], KeyNoise), s[i + 1..])
  }

  function ParseValue(key: string, s: string): HeaderBlock
    decreases |s|, 2
  {
    var i := Find(s, Newline);
    if i == |s| then NoBlock else Prepend([(key, Without(s[..i], Return))], ParseLines(s[i + 1..]))
  }

  datatype Head =
    | Incomplete
    | BadStatusLine
    | Complete(version: string, status: int, description: string, lines: seq<(string, string)>, rest: string)

  /** Everything before the body: the stream may end early, and the status may not be
      a number. */
  function ParseHead(s: string): Head {
    var i := Find(s, Blank);
    if i == |s| then Incomplete else ParseStatusCode(s[..i], s[i + 1..])
  }

  function ParseStatusCode(version: string, s: string): Head {
    var i := Find(s, Blank);
    if i == |s| then Incomplete
    else match CastInt(s[..i])
      case None => BadStatusLine
      case Some(status) => ParseDescription(version, status, s[i + 1..])
  }

  function ParseDescription(version: string, status: int, s: string): Head {
    var i := Find(s, Newline);
    if i == |s| then Incomplete
    else match ParseLines(s[i + 1..])
      case NoBlock => Incomplete
      case Block(lines, rest) => Complete(version, status, Without(s[..i], Return), lines, rest)
  }

  // ---------- what receive() makes of it ----------

  /** What a caller of `receive()` sees. */
  datatype Outcome = Outcome(control: Control, response: Response, redirtimes: int, url: string)

  function Seen(m: Machine): Outcome {
    Outcome(m.control, m.response, m.redirtimes, m.url)
  }

  /** The first `n` bytes, or all if there are fewer. */
  function Cut(s: string, n: nat): string {
    if n <= |s| then s[..n] else s
  }

  function WithBody(r: Response, body: string): Response {
    r.(body := body, progress := r.progress + |body|, bodySize := |body|)
  }

  /** What the received headers say about the length of the body. */
  datatype Announcement = Unannounced | Unreadable | Announced(n: nat)

  /** A negative length is taken for an unsigned one of 64 bits. */
  function AnnouncedLength(lines: seq<(string, string)>): Announcement {
    var headers := FirstValues(lines);
    if "Content-Length" !in headers then Unannounced
    else match CastInt(headers["Content-Length"])
      case None => Unreadable
      case Some(n) => Announced(if n < 0 then n + 0x1_0000_0000_0000_0000 else n)
  }

  /** The head of a redirect that is followed: six are. */
  predicate Followed(h: Head, redirtimes: int) {
    h.Complete? && 300 <= h.status <= 399 && "Location" in FirstValues(h.lines) && redirtimes <= 5
  }

  /** The bytes after the head, up to the announced length. */
  function AnnouncedBody(h: Head): string
    requires h.Complete?
  {
    match AnnouncedLength(h.lines)
    case Unannounced => h.rest
    case Unreadable => ""
    case Announced(n) => Cut(h.rest, n)
  }

  function WithHead(r: Response, h: Head): Response
    requires h.Complete?
  {
    r.(version := h.version, status := h.status, description := h.description,
       headers := FirstValues(h.lines) + r.headers)
  }

  /** The headers whose keys do not come after `key` in byte order. */
  function UpTo(key: string, headers: Headers): Headers {
    map k | k in headers && !Less(key, k) :: headers[k]
  }

  /** A response below 300: the received headers go below those already there, the
      body is cut at the announced length, and its length is reported. */
  function Accepted(r: Response, h: Head): (Control, Response)
    requires h.Complete?
  {
    if AnnouncedLength(h.lines) == Unreadable then
      (Threw(BadLength), WithHead(r, h).(headers := UpTo("Content-Length", FirstValues(h.lines)) + r.headers))
    else
      (Returned(false), WithBody(WithHead(r, h), AnnouncedBody(h)))
  }

  function Expected(r: Response, redirtimes: int, url: string, s: string): Outcome {
    match ParseHead(s)
    case Incomplete => Outcome(Returned(false), r.(bodySize := |r.body|), redirtimes, url)
    case BadStatusLine => Outcome(Threw(BadStatus), r, redirtimes, url)
    case Complete(version, status, description, lines, rest) =>
      if status >= 400 then
        Outcome(Returned(false), r.(status := status, description := description), redirtimes, url)
      else if status >= 300 then
        if Followed(ParseHead(s), redirtimes) then
          var location := FirstValues(lines)["Location"];
          Outcome(Returned(true), r.(url := location), redirtimes + 1, location)
        else
          Outcome(Returned(false), r.(status := status, description := description), redirtimes + 1, url)
      else
        var (control, r1) := Accepted(r, ParseHead(s));
        Outcome(control, r1, redirtimes, url)
  }

  // ---------- runs of bytes without a delimiter ----------

  lemma {:induction false} VersionRun(m: Machine, a: string)
    requires m.control == Running && m.locals.state == AnetdVersion && Free(a, Blank)
    ensures Feed(m, a) == m.(locals := m.locals.(version := m.locals.version + a))
    decreases |a|
  {
    if a == "" {
      assert m.locals.version + a == m.locals.version;
    } else {
      VersionRun(Step(m, a[0]), a[1..]);
      assert m.locals.version + [a[0]] + a[1..] == m.locals.version + a;
    }
  }

  lemma {:induction false} StatusRun(m: Machine, a: string)
    requires m.control == Running && m.locals.state == AnetdStatus && Free(a, Blank)
    ensures Feed(m, a) == m.(locals := m.locals.(temp := m.locals.temp + a))
    decreases |a|
  {
    if a == "" {
      assert m.locals.temp + a == m.locals.temp;
    } else {
      StatusRun(Step(m, a[0]), a[1..]);
      assert m.locals.temp + [a[0]] + a[1..] == m.locals.temp + a;
    }
  }

  lemma AppendKept(b: string, a: string, k: Class)
    requires a != ""
    ensures !In(a[0], k) ==> b + [a[0]] + Without(a[1..], k) == b + Without(a, k)
    ensures In(a[0], k) ==> Without(a[1..], k) == Without(a, k)
  {
  }

  lemma {:induction false} DescriptionRun(m: Machine, a: string)
    requires m.control == Running && m.locals.state == AnetdDescription && Free(a, Newline)
    ensures Feed(m, a) == m.(locals := m.locals.(description := m.locals.description + Without(a, Return)))
    decreases |a|
  {
    if a == "" {
      assert m.locals.description + "" == m.locals.description;
    } else {
      DescriptionRun(Step(m, a[0]), a[1..]);
      AppendKept(m.locals.description, a, Return);
    }
  }

  lemma {:induction false} KeyRun(m: Machine, a: string)
    requires m.control == Running && m.locals.state == AnetdHeaderKey && Free(a, KeyEnd)
    ensures Feed(m, a) == m.(locals := m.locals.(tempKey := m.locals.tempKey + Without(a, KeyNoise)))
    decreases |a|
  {
    if a == "" {
      assert m.locals.tempKey + "" == m.locals.tempKey;
    } else {
      KeyRun(Step(m, a[0]), a[1..]);
      AppendKept(m.locals.tempKey, a, KeyNoise);
    }
  }

  lemma {:induction false} ValueRun(m: Machine, a: string)
    requires m.control == Running && m.locals.state == AnetdHeaderValue && Free(a, Newline)
    ensures Feed(m, a) == m.(locals := m.locals.(tempValue := m.locals.tempValue + Without(a, Return)))
    decreases |a|
  {
    if a == "" {
      assert m.locals.tempValue + "" == m.locals.tempValue;
    } else {
      ValueRun(Step(m, a[0]), a[1..]);
      AppendKept(m.locals.tempValue, a, Return);
    }
  }

  /** The machine after the bytes before position `i`, the byte there, and the rest. */
  lemma FeedPast(m: Machine, s: string, i: nat)
    requires i < |s|
    ensures Feed(m, s) == Feed(Step(Feed(m, s[..i]), s[i]), s[i + 1..])
  {
    assert s == s[..i] + s[i..];
    FeedAppend(m, s[..i], s[i..]);
    assert s[i..][1..] == s[i + 1..];
  }

  function AppendAll(r: Response, s: string): Response {
    r.(body := r.body + s, progress := r.progress + |s|)
  }

  /** Body bytes that do not reach the announced length. */
  lemma {:induction false} BodyRun(m: Machine, s: string)
    requires m.control == Running && m.locals.state == AnetdBody
    requires m.response.bodySize <= |m.response.body| || |m.response.body| + |s| < m.response.bodySize
    ensures Feed(m, s) == m.(response := AppendAll(m.response, s))
    decreases |s|
  {
    if s == "" {
      assert m.response.body + s == m.response.body;
    } else {
      BodyRun(Step(m, s[0]), s[1..]);
      assert m.response.body + [s[0]] + s[1..] == m.response.body + s;
    }
  }

  /** Body bytes that reach it: the machine is done there, and ignores the rest. */
  lemma BodyEnds(m: Machine, s: string)
    requires m.control == Running && m.locals.state == AnetdBody
    requires |m.response.body| < m.response.bodySize <= |m.response.body| + |s|
    ensures Feed(m, s) == m.(locals := m.locals.(state := AnetdOk),
                             response := AppendAll(m.response, s[..m.response.bodySize - |m.response.body|]))
  {
    var k := m.response.bodySize - |m.response.body|;
    ThreeParts(s, k);
    BodyEndsAt(m, s[..k - 1], s[k - 1], s[k..]);
  }

  lemma ThreeParts(s: string, k: nat)
    requires 0 < k <= |s|
    ensures s == (s[..k - 1] + [s[k - 1]]) + s[k..] && s[..k] == s[..k - 1] + [s[k - 1]]
  {
  }

  lemma BodyEndsAt(m: Machine, front: string, c: char, rest: string)
    requires m.control == Running && m.locals.state == AnetdBody
    requires |m.response.body| + |front| + 1 == m.response.bodySize
    ensures Feed(m, (front + [c]) + rest)
         == m.(locals := m.locals.(state := AnetdOk), response := AppendAll(m.response, front + [c]))
  {
    FeedAppend(m, front + [c], rest);
    FeedOne(m, front, c);
    BodyRun(m, front);
    LastBodyByte(m, front, c);
    FeedIdle(Feed(m, front + [c]), rest);
  }

  lemma LastBodyByte(m: Machine, front: string, c: char)
    requires m.control == Running && m.locals.state == AnetdBody
    requires |m.response.body| + |front| + 1 == m.response.bodySize
    ensures Step(m.(response := AppendAll(m.response, front)), c)
         == m.(locals := m.locals.(state := AnetdOk), response := AppendAll(m.response, front + [c]))
  {
    assert m.response.body + front + [c] == m.response.body + (front + [c]);
  }

  /** The body in memory never exceeds an announced length, and the machine is done
      exactly when the body is the announced number of bytes after the headers. */
  lemma BodyIsExact(m: Machine, s: string)
    requires m.control == Running && m.locals.state == AnetdBody && m.response.body == ""
    ensures var n, fed := m.response.bodySize, Feed(m, s);
      && fed.control == Running
      && fed.response.body == (if n == 0 then s else Cut(s, n))
      && fed.response.progress == m.response.progress + |fed.response.body|
      && (fed.locals.state == AnetdOk <==> 0 < n <= |s|)
  {
    var n := m.response.bodySize;
    assert "" + s == s;
    if 0 < n <= |s| {
      BodyEnds(m, s);
      assert "" + s[..n] == s[..n];
    } else {
      BodyRun(m, s);
    }
  }

  // ---------- the head ----------

  /** Locals that agree except for the key and the value being read. */
  predicate SameButKey(p: Locals, q: Locals) {
    p.(tempKey := "", tempValue := "") == q.(tempKey := "", tempValue := "")
  }

  predicate InHeaders(m: Machine) {
    m.control == Running && m.locals.state != AnetdBody && m.locals.state != AnetdOk
  }

  lemma FeedKey(m: Machine, k: string)
    requires m.control == Running && m.locals.state == AnetdHeaderKey && m.locals.tempKey == "" && Free(k, KeyEnd)
    ensures Feed(m, k + [' ']) ==
      m.(locals := m.locals.(tempKey := Without(k, KeyNoise), tempValue := "", state := AnetdHeaderValue))
  {
    KeyRun(m, k);
    FeedOne(m, k, ' ');
    assert "" + Without(k, KeyNoise) == Without(k, KeyNoise);
  }

  lemma FeedValue(m: Machine, v: string)
    requires m.control == Running && m.locals.state == AnetdHeaderValue && m.locals.tempValue == "" && Free(v, Newline)
    ensures var p, value := m.locals, Without(v, Return);
      Feed(m, v + ['\n']) ==
      m.(locals := p.(tempHeaders := Insert(p.tempHeaders, p.tempKey, value), tempValue := value, tempKey := "",
                      state := AnetdHeaderKey))
  {
    ValueRun(m, v);
    FeedOne(m, v, '\n');
    assert "" + Without(v, Return) == Without(v, Return);
  }

  /** One complete header line. */
  lemma FeedLine(m: Machine, k: string, v: string)
    requires m.control == Running && m.locals.state == AnetdHeaderKey && m.locals.tempKey == ""
    requires Free(k, KeyEnd) && Free(v, Newline)
    ensures var p := m.locals;
      var key, value := Without(k, KeyNoise), Without(v, Return);
      Feed(m, k + [' '] + (v + ['\n']))
      == m.(locals := p.(tempHeaders := Insert(p.tempHeaders, key, value), tempValue := value))
  {
    FeedAppend(m, k + [' '], v + ['\n']);
    FeedKey(m, k);
    FeedValue(Feed(m, k + [' ']), v);
  }

  /** The bytes `front` take the machine to the newline that ends the header block, with
      the locals `p`, and `rest` follows. */
  ghost predicate ReachesEnd(m: Machine, p: Locals, front: string, s: string, rest: string) {
    && s == front + ['\n'] + rest
    && p.state == AnetdHeaderKey
    && Feed(m, front) == m.(locals := p)
  }

  lemma ReachedEnd(m: Machine, p: Locals, front: string, s: string, rest: string)
    requires ReachesEnd(m, p, front, s, rest) && m.control == Running
    ensures Feed(m, front + ['\n']) == EndOfHeaders(m.(locals := p))
    ensures Feed(m, s) == Feed(EndOfHeaders(m.(locals := p)), rest)
  {
    FeedOne(m, front, '\n');
    FeedAppend(m, front + ['\n'], rest);
  }

  lemma Regroup(a: string, front: string, c: char, rest: string)
    ensures a + (front + [c] + rest) == (a + front) + [c] + rest
  {
  }

  /** Bytes `a` that move the machine to the locals `q`, then on from there. */
  lemma ReachesLater(m: Machine, q: Locals, a: string, s: string, p: Locals, front: string, rest: string)
    requires Feed(m, a) == m.(locals := q)
    requires ReachesEnd(m.(locals := q), p, front, s, rest)
    ensures ReachesEnd(m, p, a + front, a + s, rest)
  {
    FeedAppend(m, a, front);
    Regroup(a, front, '\n', rest);
  }

  /** If the header block ends, the machine is at its last newline with all lines
      inserted; if not, the machine is still inside it. */
  ghost predicate AfterLines(m: Machine, p: Locals, front: string, b: HeaderBlock, s: string) {
    match b
    case NoBlock => Feed(m, s) == m.(locals := p) && InHeaders(m.(locals := p))
    case Block(lines, rest) =>
      && SameButKey(p, m.locals.(tempHeaders := InsertAll(m.locals.tempHeaders, lines)))
      && ReachesEnd(m, p, front, s, rest)
  }

  lemma {:induction false} FeedLines(m: Machine, s: string) returns (p: Locals, front: string)
    requires m.control == Running && m.locals.state == AnetdHeaderKey && m.locals.tempKey == ""
    ensures AfterLines(m, p, front, ParseLines(s), s)
    decreases |s|, 1
  {
    front := "";
    var i := Find(s, KeyEnd);
    if i == |s| {
      p := FeedOpenKey(m, s);
    } else if s[i] == '\n' {
      p, front := FeedLastLine(m, s, i);
    } else {
      p, front := FeedFirstLine(m, s, i, s[i + 1..]);
    }
  }

  lemma {:induction false} FeedFirstLine(m: Machine, s: string, i: nat, t: string) returns (p: Locals, front: string)
    requires m.control == Running && m.locals.state == AnetdHeaderKey && m.locals.tempKey == ""
    requires i < |s| && Free(s[..i], KeyEnd) && s[i] == ' ' && t == s[i + 1..]
    ensures AfterLines(m, p, front, ParseValue(Without(s[..i], KeyNoise), t), s)
    decreases |s|, 0
  {
    var j := Find(t, Newline);
    if j == |t| {
      front := "";
      p := FeedOpenValue(m, s, i);
    } else {
      SplitLine(s, i, j);
      p, front := FeedLineAndMore(m, s[..i], t[..j], t[j + 1..], s);
    }
  }

  lemma {:induction false} FeedLineAndMore(m: Machine, k: string, v: string, more: string, s: string)
    returns (p: Locals, front: string)
    requires m.control == Running && m.locals.state == AnetdHeaderKey && m.locals.tempKey == ""
    requires Free(k, KeyEnd) && Free(v, Newline) && s == k + [' '] + (v + ['\n']) + more
    ensures AfterLines(m, p, front, Prepend([(Without(k, KeyNoise), Without(v, Return))], ParseLines(more)), s)
    decreases |more|, 2
  {
    var key, value := Without(k, KeyNoise), Without(v, Return);
    var line := k + [' '] + (v + ['\n']);
    var q := m.locals.(tempHeaders := Insert(m.locals.tempHeaders, key, value), tempValue := value);
    FeedLine(m, k, v);
    p, front := FeedLines(m.(locals := q), more);
    AfterOneMore(m, q, p, front, key, value, ParseLines(more), line, more, s);
    front := line + front;
  }

  lemma SplitLine(s: string, i: nat, j: nat)
    requires i < |s| && s[i] == ' ' && j < |s[i + 1..]| && s[i + 1..][j] == '\n'
    ensures var t := s[i + 1..]; s == s[..i] + [' '] + (t[..j] + ['\n']) + t[j + 1..]
  {
    var t := s[i + 1..];
    SplitAfter(s, i);
    SplitAfter(t, j);
  }

  lemma FeedLastLine(m: Machine, s: string, i: nat) returns (p: Locals, front: string)
    requires m.control == Running && m.locals.state == AnetdHeaderKey
    requires i == Find(s, KeyEnd) && i < |s| && s[i] == '\n'
    ensures AfterLines(m, p, front, ParseLines(s), s)
  {
    SplitAfter(s, i);
    front := s[..i];
    p := FeedNoKey(m, front, s[i + 1..], s);
  }

  lemma FeedNoKey(m: Machine, front: string, rest: string, s: string) returns (p: Locals)
    requires m.control == Running && m.locals.state == AnetdHeaderKey
    requires Free(front, KeyEnd) && s == front + ['\n'] + rest
    ensures AfterLines(m, p, front, Block([], rest), s)
  {
    KeyRun(m, front);
    p := m.locals.(tempKey := m.locals.tempKey + Without(front, KeyNoise));
  }

  lemma AfterOneMore(m: Machine, q: Locals, p: Locals, front: string, key: string, value: string, b: HeaderBlock,
                     line: string, more: string, s: string)
    requires q == m.locals.(tempHeaders := Insert(m.locals.tempHeaders, key, value), tempValue := value)
    requires s == line + more && Feed(m, line) == m.(locals := q) && AfterLines(m.(locals := q), p, front, b, more)
    ensures AfterLines(m, p, line + front, Prepend([(key, value)], b), s)
  {
    if b.Block? {
      InsertAllCons(m.locals.tempHeaders, key, value, b.lines);
      ReachesLater(m, q, line, more, p, front, b.rest);
    } else {
      FeedAppend(m, line, more);
    }
  }

  lemma InsertAllCons(m: Headers, key: string, value: string, lines: seq<(string, string)>)
    ensures InsertAll(m, [(key, value)] + lines) == InsertAll(Insert(m, key, value), lines)
  {
    assert ([(key, value)] + lines)[1..] == lines;
  }

  /** A stream that ends inside a key. */
  lemma FeedOpenKey(m: Machine, s: string) returns (p: Locals)
    requires m.control == Running && m.locals.state == AnetdHeaderKey && Free(s, KeyEnd)
    ensures AfterLines(m, p, "", NoBlock, s)
  {
    KeyRun(m, s);
    p := Feed(m, s).locals;
  }

  /** A stream that ends inside a value. */
  lemma FeedOpenValue(m: Machine, s: string, i: nat) returns (p: Locals)
    requires m.control == Running && m.locals.state == AnetdHeaderKey
    requires i < |s| && Free(s[..i], KeyEnd) && s[i] == ' ' && Free(s[i + 1..], Newline)
    ensures Feed(m, s) == m.(locals := p) && InHeaders(m.(locals := p))
  {
    FeedPast(m, s, i);
    KeyRun(m, s[..i]);
    ValueRun(Step(Feed(m, s[..i]), s[i]), s[i + 1..]);
    p := Feed(m, s).locals;
  }

  /** What the head of the stream makes of a fresh machine. */
  ghost predicate AfterHead(m: Machine, p: Locals, front: string, h: Head, s: string) {
    match h
    case Incomplete => Feed(m, s) == m.(locals := p) && InHeaders(m.(locals := p))
    case BadStatusLine => Feed(m, s) == m.(locals := p, control := Threw(BadStatus))
    case Complete(version, status, description, lines, rest) =>
      && SameButKey(p, START.(state := AnetdHeaderKey, version := version, status := status,
                              description := description, temp := p.temp, tempHeaders := InsertAll(map[], lines)))
      && ReachesEnd(m, p, front, s, rest)
  }

  /** Bytes `a` move the machine to the locals `q`; the rest `t` is read there. */
  lemma AfterHeadLater(m: Machine, q: Locals, a: string, t: string, s: string, p: Locals, front: string, h: Head)
    requires s == a + t && Feed(m, a) == m.(locals := q)
    requires AfterHead(m.(locals := q), p, front, h, t)
    ensures AfterHead(m, p, a + front, h, s)
  {
    if h.Complete? {
      ReachesLater(m, q, a, t, p, front, h.rest);
    } else {
      FeedAppend(m, a, t);
    }
  }

  lemma SplitAfter(s: string, i: nat)
    requires i < |s|
    ensures s == s[..i] + [s[i]] + s[i + 1..]
  {
  }

  lemma FeedDescription(m: Machine, s: string) returns (p: Locals, front: string)
    requires m.control == Running
    requires m.locals == START.(state := AnetdDescription, version := m.locals.version,
                                status := m.locals.status, temp := m.locals.temp)
    ensures AfterHead(m, p, front, ParseDescription(m.locals.version, m.locals.status, s), s)
  {
    front := "";
    var i := Find(s, Newline);
    if i == |s| {
      DescriptionRun(m, s);
      p := Feed(m, s).locals;
    } else {
      SplitAfter(s, i);
      p, front := FeedPastDescription(m, s[..i], s[i + 1..], s);
    }
  }

  lemma FeedPastDescription(m: Machine, d: string, t: string, s: string) returns (p: Locals, front: string)
    requires m.control == Running && Free(d, Newline) && s == d + ['\n'] + t
    requires m.locals == START.(state := AnetdDescription, version := m.locals.version,
                                status := m.locals.status, temp := m.locals.temp)
    ensures var h := match ParseLines(t)
        case NoBlock => Incomplete
        case Block(lines, rest) => Complete(m.locals.version, m.locals.status, Without(d, Return), lines, rest);
      AfterHead(m, p, front, h, s)
  {
    var description := Without(d, Return);
    DescriptionRun(m, d);
    FeedOne(m, d, '\n');
    assert "" + description == description;
    var q := m.locals.(description := description, state := AnetdHeaderKey);
    p, front := FeedLines(m.(locals := q), t);
    var h := match ParseLines(t)
      case NoBlock => Incomplete
      case Block(lines, rest) => Complete(m.locals.version, m.locals.status, description, lines, rest);
    AfterHeadLater(m, q, d + ['\n'], t, s, p, front, h);
    front := d + ['\n'] + front;
  }

  lemma FeedStatus(m: Machine, s: string) returns (p: Locals, front: string)
    requires m.control == Running
    requires m.locals == START.(state := AnetdStatus, version := m.locals.version)
    ensures AfterHead(m, p, front, ParseStatusCode(m.locals.version, s), s)
  {
    front := "";
    var i := Find(s, Blank);
    if i == |s| {
      StatusRun(m, s);
      p := Feed(m, s).locals;
    } else {
      var code := s[..i];
      StatusRead(m, code);
      SplitAfter(s, i);
      match CastInt(code)
      case None => p := FeedBadStatus(m, code, s[i + 1..], s);
      case Some(n) => p, front := FeedGoodStatus(m, code, n, s[i + 1..], s);
    }
  }

  lemma FeedBadStatus(m: Machine, code: string, t: string, s: string) returns (p: Locals)
    requires m.control == Running && s == code + [' '] + t
    requires Feed(m, code + [' ']) == m.(locals := m.locals.(temp := code), control := Threw(BadStatus))
    ensures AfterHead(m, p, "", BadStatusLine, s)
  {
    p := m.locals.(temp := code);
    FeedAppend(m, code + [' '], t);
    FeedIdle(m.(locals := p, control := Threw(BadStatus)), t);
  }

  lemma FeedGoodStatus(m: Machine, code: string, n: int, t: string, s: string) returns (p: Locals, front: string)
    requires m.control == Running && m.locals == START.(state := AnetdStatus, version := m.locals.version)
    requires s == code + [' '] + t
    requires Feed(m, code + [' ']) == m.(locals := m.locals.(temp := code, status := n, state := AnetdDescription))
    ensures AfterHead(m, p, front, ParseDescription(m.locals.version, n, t), s)
  {
    var q := m.locals.(temp := code, status := n, state := AnetdDescription);
    p, front := FeedDescription(m.(locals := q), t);
    AfterHeadLater(m, q, code + [' '], t, s, p, front, ParseDescription(m.locals.version, n, t));
    front := code + [' '] + front;
  }

  lemma StatusRead(m: Machine, code: string)
    requires m.control == Running && m.locals.state == AnetdStatus && m.locals.temp == "" && Free(code, Blank)
    ensures Feed(m, code + [' ']) == match CastInt(code)
      case None => m.(locals := m.locals.(temp := code), control := Threw(BadStatus))
      case Some(n) => m.(locals := m.locals.(temp := code, status := n, state := AnetdDescription))
  {
    StatusRun(m, code);
    FeedOne(m, code, ' ');
    assert "" + code == code;
  }

  lemma FeedVersion(m: Machine, version: string)
    requires m.control == Running && m.locals == START && Free(version, Blank)
    ensures Feed(m, version + [' ']) == m.(locals := START.(version := version, state := AnetdStatus))
  {
    VersionRun(m, version);
    FeedOne(m, version, ' ');
    assert "" + version == version;
  }

  lemma FeedOpenVersion(m: Machine, s: string) returns (p: Locals)
    requires m.control == Running && m.locals == START && Free(s, Blank)
    ensures AfterHead(m, p, "", Incomplete, s)
  {
    VersionRun(m, s);
    p := Feed(m, s).locals;
  }

  lemma FeedPastVersion(m: Machine, version: string, t: string, s: string) returns (p: Locals, front: string)
    requires m.control == Running && m.locals == START && Free(version, Blank) && s == version + [' '] + t
    ensures AfterHead(m, p, front, ParseStatusCode(version, t), s)
  {
    var q := START.(version := version, state := AnetdStatus);
    FeedVersion(m, version);
    p, front := FeedStatus(m.(locals := q), t);
    AfterHeadLater(m, q, version + [' '], t, s, p, front, ParseStatusCode(version, t));
    front := version + [' '] + front;
  }

  lemma FeedHead(m: Machine, s: string) returns (p: Locals, front: string)
    requires m.control == Running && m.locals == START
    ensures AfterHead(m, p, front, ParseHead(s), s)
  {
    front := "";
    var i := Find(s, Blank);
    if i == |s| {
      p := FeedOpenVersion(m, s);
    } else {
      SplitAfter(s, i);
      p, front := FeedPastVersion(m, s[..i], s[i + 1..], s);
    }
  }

  // ---------- receive() is what the grammar says ----------

  /** The rest of the stream after the headers of a response with a body. */
  lemma FinishBody(m: Machine, rest: string)
    requires m.control == Running && m.response.sink == Memory && m.response.body == ""
    requires m.locals.state == AnetdBody || (m.locals.state == AnetdOk && m.response.bodySize == 0)
    ensures var body := if m.locals.state == AnetdBody && m.response.bodySize == 0 then rest
                        else Cut(rest, m.response.bodySize);
      Seen(Finish(Feed(m, rest))) == Outcome(Returned(false), WithBody(m.response, body), m.redirtimes, m.url)
  {
    assert "" + rest == rest;
    if m.locals.state == AnetdOk {
      FeedIdle(m, rest);
      assert rest[..0] == "";
    } else if 0 < m.response.bodySize <= |rest| {
      BodyEnds(m, rest);
      assert "" + rest[..m.response.bodySize] == rest[..m.response.bodySize];
    } else {
      BodyRun(m, rest);
    }
  }

  /** The locals hold what the grammar reads in the head. */
  predicate HeadRead(m: Machine, h: Head) {
    && m.control == Running && h.Complete?
    && m.locals.version == h.version && m.locals.status == h.status && m.locals.description == h.description
    && m.locals.tempHeaders == FirstValues(h.lines)
  }

  lemma SetUpUnannounced(m: Machine, h: Head)
    requires HeadRead(m, h) && AnnouncedLength(h.lines) == Unannounced
    ensures SetUp(m) == m.(locals := m.locals.(state := AnetdBody), response := WithHead(m.response, h).(bodySize := 0))
  {
  }

  lemma SetUpAnnounced(m: Machine, h: Head, n: nat)
    requires HeadRead(m, h) && AnnouncedLength(h.lines) == Announced(n)
    ensures SetUp(m) == m.(locals := m.locals.(state := if n == 0 then AnetdOk else AnetdBody),
                           response := WithHead(m.response, h).(bodySize := n))
  {
  }

  lemma SetUpUnreadable(m: Machine, h: Head)
    requires HeadRead(m, h) && AnnouncedLength(h.lines) == Unreadable
    ensures SetUp(m) == m.(control := Threw(BadLength), response := Accepted(m.response, h).1)
  {
  }

  lemma FinishUnannounced(m: Machine, h: Head)
    requires HeadRead(m, h) && m.response.sink == Memory && m.response.body == ""
    requires AnnouncedLength(h.lines) == Unannounced
    ensures Seen(Finish(Feed(SetUp(m), h.rest))) ==
            Outcome(Returned(false), WithBody(WithHead(m.response, h), h.rest), m.redirtimes, m.url)
  {
    SetUpUnannounced(m, h);
    FinishBody(SetUp(m), h.rest);
  }

  lemma FinishAnnounced(m: Machine, h: Head, n: nat)
    requires HeadRead(m, h) && m.response.sink == Memory && m.response.body == ""
    requires AnnouncedLength(h.lines) == Announced(n)
    ensures Seen(Finish(Feed(SetUp(m), h.rest))) ==
            Outcome(Returned(false), WithBody(WithHead(m.response, h), Cut(h.rest, n)), m.redirtimes, m.url)
  {
    SetUpAnnounced(m, h, n);
    FinishBody(SetUp(m), h.rest);
  }

  lemma FinishAccepted(m: Machine, h: Head)
    requires HeadRead(m, h) && m.response.sink == Memory && m.response.body == ""
    ensures var (control, r) := Accepted(m.response, h);
      Seen(Finish(Feed(SetUp(m), h.rest))) == Outcome(control, r, m.redirtimes, m.url)
  {
    match AnnouncedLength(h.lines)
    case Unannounced => FinishUnannounced(m, h);
    case Unreadable =>
      SetUpUnreadable(m, h);
      FeedIdle(SetUp(m), h.rest);
    case Announced(n) => FinishAnnounced(m, h, n);
  }

  lemma InsertedFirstValues(lines: seq<(string, string)>)
    ensures InsertAll(map[], lines) == FirstValues(lines)
  {
    InsertAllIsLeftBiased(map[], lines);
    PlusEmpty(FirstValues(lines));
  }

  lemma FinishHead(m: Machine, h: Head, s: string)
    requires HeadRead(m, h) && m.response.sink == Memory && m.response.body == "" && h == ParseHead(s)
    ensures Seen(Finish(Feed(EndOfHeaders(m), h.rest))) == Expected(m.response, m.redirtimes, m.url, s)
  {
    if h.status < 300 {
      FinishAccepted(m, h);
    } else {
      FinishEarly(m, h, s);
    }
  }

  /** A response that ends with its header block. */
  lemma FinishEarly(m: Machine, h: Head, s: string)
    requires HeadRead(m, h) && m.response.sink == Memory && h == ParseHead(s) && h.status >= 300
    ensures Seen(Finish(Feed(EndOfHeaders(m), h.rest))) == Expected(m.response, m.redirtimes, m.url, s)
  {
    FeedIdle(EndOfHeaders(m), h.rest);
  }

  /** For every stream, cut in any way, the memory sink ends up with what the grammar
      says about the whole stream. */
  lemma ReceiveFollowsGrammar(r: Response, redirtimes: int, url: string, input: seq<Read>)
    requires r.sink == Memory && r.body == ""
    ensures Seen(Receive(Start(r, redirtimes, url), input)) == Expected(r, redirtimes, url, Stream(input))
  {
    var m, s := Start(r, redirtimes, url), Stream(input);
    ReceiveIsFeed(m, input);
    var p, front := FeedHead(m, s);
    var h := ParseHead(s);
    if h.Complete? {
      ReachedEnd(m, p, front, s, h.rest);
      InsertedFirstValues(h.lines);
      FinishHead(m.(locals := p), h, s);
    }
  }
}
