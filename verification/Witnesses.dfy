/** Inputs on which the library does not do what one would expect of it, and what it does
    on them. The exact conditions are in the modules imported here. */
module Witnesses {
  import opened Text
  import opened OrderedMap
  import opened Responses
  import opened FileName
  import opened HeaderFormat
  import opened Parser
  import opened Grammar
  import opened RoundTrip
  import opened Url
  import opened Engines
  import opened FileSink
  import opened FileHead
  import opened FileContents
  import opened FileRedirect
  import opened Runs
  import Base64
  import opened Requests

  const NAME := "f"

  const CLOSED := FileState(NAME, "", false, map[])

  /** A file sink with a name and no files on disk. */
  function Sinking(): Response {
    FreshResponse().(sink := File, file := CLOSED)
  }

  lemma NewPath()
    ensures FreePath(NAME, {}) == NAME
  {
    assert Candidate(NAME, 0) == NAME;
    FreePathIsLeast(NAME, {}, 0);
  }

  /** When "f" exists, the document goes to "f.1". */
  lemma FirstNumber()
    ensures FreePath("f", {"f"}) == "f.1"
  {
    var k := FreePathByName("f", {"f"});
    assert "f" + "." + Decimal(1) == "f.1";
    assert Numbered("f", {"f"}, "f.1", 1);
  }

  // ---------- a body of two bytes ----------

  const TWO_BYTES := [(CONTENT_LENGTH, "2")]

  function TwoByteHead(): string {
    PrintHead(VERSION_1_0, 200, DEFAULT_DESCRIPTION, TWO_BYTES)
  }

  lemma ShortHead(status: int, description: string, line: (string, string))
    requires 100 <= status < 1000 && |description| < 100 && |line.0| + |line.1| < 100
    ensures 0 < |PrintHead(VERSION_1_0, status, description, [line])| <= 300
  {
    ThreeDigits(status);
    HeaderTextOne([], line.0, line.1);
    assert [] + [line] == [line];
  }

  lemma ThreeDigits(n: nat)
    requires 100 <= n < 1000
    ensures |Decimal(n)| == 3
  {
    assert |Decimal(n / 10 / 10)| == 1;
    assert |Decimal(n / 10)| == 2;
  }

  lemma TwoByteHeadParses(rest: string)
    ensures ParseHead(TwoByteHead() + rest) == Complete(VERSION_1_0, 200, DEFAULT_DESCRIPTION, TWO_BYTES, rest)
    ensures AnnouncedLength(TWO_BYTES) == Announced(2)
  {
    assert Clean(TWO_BYTES) by {
      assert CleanLine(TWO_BYTES[0]);
    }
    PrintedHeadParses(VERSION_1_0, 200, DEFAULT_DESCRIPTION, TWO_BYTES, rest);
    CastPrinted(2);
    FirstValuesKeys(TWO_BYTES, CONTENT_LENGTH);
  }

  lemma StreamOfThree(head: string, x: string, y: string)
    ensures Stream([Packet(head, true), Packet(x, true), Packet(y, true)]) == head + (x + y)
  {
    StreamCons(Packet(y, true), []);
    StreamCons(Packet(x, true), [Packet(y, true)]);
    StreamCons(Packet(head, true), [Packet(x, true), Packet(y, true)]);
    assert [Packet(y, true)] + [] == [Packet(y, true)];
    assert [Packet(x, true)] + [Packet(y, true)] == [Packet(x, true), Packet(y, true)];
    assert [Packet(head, true)] + [Packet(x, true), Packet(y, true)]
        == [Packet(head, true), Packet(x, true), Packet(y, true)];
  }

  /** The head, written out. */
  lemma HeadText()
    ensures TwoByteHead() == HEAD_TEXT
  {
    TwoHundred();
    LengthText();
    StatusLineText();
    JoinedLines();
  }

  lemma JoinedLines()
    ensures STATUS_LINE + LENGTH_LINE + CRLF == HEAD_TEXT
  {
  }

  const HEAD_TEXT := "HTTP/1.0 200 OK\r\nContent-Length: 2\r\n\r\n"
  const STATUS_LINE := "HTTP/1.0 200 OK\r\n"
  const LENGTH_LINE := "Content-Length: 2\r\n"

  lemma StatusLineText()
    ensures VERSION_1_0 + " " + "200" + " " + DEFAULT_DESCRIPTION + CRLF == STATUS_LINE
  {
  }

  lemma TwoHundred()
    ensures PrintInt(200) == "200"
  {
    assert Decimal(2) == "2";
    assert Decimal(20) == "20";
  }

  lemma LengthText()
    ensures HeaderText(TWO_BYTES) == LENGTH_LINE
  {
    HeaderTextOne([], CONTENT_LENGTH, "2");
    assert [] + TWO_BYTES == TWO_BYTES;
  }

  /** The head in a read of its own, and the body bytes in two more; every open call
      succeeds. */
  function ThreeReads(x: string, y: string): (input: seq<Read>)
    requires 0 < |x| <= BUFFER_SIZE && 0 < |y| <= BUFFER_SIZE
    ensures Stream(input) == TwoByteHead() + (x + y)
  {
    ShortHead(200, DEFAULT_DESCRIPTION, TWO_BYTES[0]);
    StreamOfThree(TwoByteHead(), x, y);
    [Packet(TwoByteHead(), true), Packet(x, true), Packet(y, true)]
  }

  lemma StreamCons(first: Packet, later: seq<Packet>)
    ensures Stream([first] + later) == first.bytes + Stream(later)
    ensures later == [] ==> Stream([first] + later) == first.bytes
  {
    assert ([first] + later)[1..] == later;
    assert first.bytes + "" == first.bytes;
  }

  lemma HeadAlone(head: string, later: seq<Packet>, f: FileState)
    ensures var input := [Packet(head, true)] + later;
      BodyPieces(input, |head|) == [Packet("", true)] + later && EarlyFile(f, input, |head|) == f
  {
    var input := [Packet(head, true)] + later;
    assert input[1..] == later && head[|head|..] == "";
  }

  lemma EmptyFirst(later: seq<Packet>, length: Announcement)
    ensures Groups("", false, [Packet("", true)] + later) == later && Opens(length, "", [Packet("", true)] + later)
  {
    var pieces := [Packet("", true)] + later;
    assert pieces[1..] == later && "" + pieces[0].bytes == "";
    assert Group("", true) + later == later;
  }

  lemma ThreeReadsDelivered(x: string, y: string)
    requires 0 < |x| <= BUFFER_SIZE && 0 < |y| <= BUFFER_SIZE
    ensures Stored(ParseHead(Stream(ThreeReads(x, y))))
    ensures Delivered(CLOSED, ThreeReads(x, y)) ==
            Delivery(CLOSED, Announced(2), [Packet(x, true), Packet(y, true)], true)
  {
    var head, later := TwoByteHead(), [Packet(x, true), Packet(y, true)];
    TwoByteHeadParses(x + y);
    HeadOfThree(x, y);
    HeadAlone(head, later, CLOSED);
    EmptyFirst(later, Announced(2));
  }

  lemma HeadOfThree(x: string, y: string)
    requires 0 < |x| <= BUFFER_SIZE && 0 < |y| <= BUFFER_SIZE
    ensures HeadLength(Stream(ThreeReads(x, y))) == |TwoByteHead()|
    ensures ThreeReads(x, y) == [Packet(TwoByteHead(), true)] + [Packet(x, true), Packet(y, true)]
  {
    TwoByteHeadParses(x + y);
    FrontIsHead(TwoByteHead(), x + y);
    OneAndTwo(Packet(TwoByteHead(), true), Packet(x, true), Packet(y, true));
  }

  lemma OneAndTwo(p: Packet, q: Packet, r: Packet)
    ensures [p] + [q, r] == [p, q, r]
  {
  }

  lemma FrontIsHead(head: string, rest: string)
    requires ParseHead(head + rest).Complete? && ParseHead(head + rest).rest == rest
    ensures HeadLength(head + rest) == |head|
  {
    FrontLength(head + rest, ParseHead(head + rest), |head|);
  }

  lemma OnlyFile(text: string)
    ensures Wrote(Ready(CLOSED), text).disk == map[NAME := text]
  {
    NewPath();
    assert "" + text == text;
  }

  lemma StoresOnly(input: seq<Packet>, h: Head, groups: seq<Packet>)
    requires h == ParseHead(Stream(input)) && Stored(h)
    requires Delivered(CLOSED, input) == Delivery(CLOSED, Announced(2), groups, true)
    ensures var r := Receive(Start(Sinking(), 0, ""), input).response;
      r.file.disk == map[NAME := Kept(Announced(2), groups)] && r.bodySize == SizeOf(Announced(2), groups)
  {
    FileSinkContents(Sinking(), 0, "", input, h);
    OnlyFile(Kept(Announced(2), groups));
  }

  lemma StoresThree(x: string, y: string, text: string, size: nat)
    requires 0 < |x| <= BUFFER_SIZE && 0 < |y| <= BUFFER_SIZE
    requires var groups := [Packet(x, true), Packet(y, true)];
      text == Kept(Announced(2), groups) && size == SizeOf(Announced(2), groups)
    ensures var r := Receive(Start(Sinking(), 0, ""), ThreeReads(x, y)).response;
      r.file.disk == map[NAME := text] && r.bodySize == size
  {
    ThreeReadsDelivered(x, y);
    StoresOnly(ThreeReads(x, y), ParseHead(Stream(ThreeReads(x, y))), [Packet(x, true), Packet(y, true)]);
  }

  lemma KeptOfTwo(length: Announcement, x: string, y: string)
    ensures var groups := [Packet(x, true), Packet(y, true)];
      && Kept(length, groups) == (if Reached(length, x) then x[..length.n]
                                  else x + if Reached(length, y) then y[..length.n] else y)
      && SizeOf(length, groups) == if Reached(length, x) || Reached(length, y) then length.n else 0
  {
    var groups, last := [Packet(x, true), Packet(y, true)], [Packet(y, true)];
    assert groups[1..] == last && last[1..] == [];
    assert Kept(length, last) == if Reached(length, y) then y[..length.n] else y + "";
    assert y + "" == y;
    assert SizeOf(length, last) == if Reached(length, y) then length.n else 0;
  }

  lemma StoresFirst(x: string, y: string)
    requires |x| == 2 && 0 < |y| <= 2
    ensures var r := Receive(Start(Sinking(), 0, ""), ThreeReads(x, y)).response;
      r.file.disk == map[NAME := x] && r.bodySize == 2
  {
    KeptOfTwo(Announced(2), x, y);
    assert x[..2] == x;
    StoresThree(x, y, x, 2);
  }

  lemma StoresBoth(x: string, y: string)
    requires |x| == 1 && 0 < |y| <= 2
    ensures var r := Receive(Start(Sinking(), 0, ""), ThreeReads(x, y)).response;
      r.file.disk == map[NAME := x + y] && r.bodySize == if |y| == 2 then 2 else 0
  {
    KeptOfTwo(Announced(2), x, y);
    assert |y| == 2 ==> y[..2] == y;
    StoresThree(x, y, x + y, if |y| == 2 then 2 else 0);
  }

  const A := "a"
  const B := "b"
  const C := "c"
  const AB := "ab"
  const BC := "bc"
  const ABC := "abc"

  /** The same stream, with two bytes announced and three sent: cut one way the file holds
      two of them, cut the other way all three. */
  lemma CutsDiffer() returns (a: seq<Read>, b: seq<Read>)
    ensures Stream(a) == Stream(b)
    ensures Receive(Start(Sinking(), 0, ""), a).response.file.disk == map[NAME := AB]
    ensures Receive(Start(Sinking(), 0, ""), b).response.file.disk == map[NAME := ABC]
  {
    a, b := ThreeReads(AB, C), ThreeReads(A, BC);
    SameBytes();
    StoresFirst(AB, C);
    StoresBoth(A, BC);
  }

  lemma SameBytes()
    ensures AB + C == A + BC == ABC && A + B == AB
  {
  }

  /** Two bytes announced and sent, in two reads: both are stored, and the size reported
      is 0. With a third byte in the second read three are stored, and it is 2. */
  lemma SizesDiffer() returns (a: seq<Read>, b: seq<Read>)
    ensures var r := Receive(Start(Sinking(), 0, ""), a).response;
      r.file.disk == map[NAME := AB] && r.bodySize == 0
    ensures var r := Receive(Start(Sinking(), 0, ""), b).response;
      r.file.disk == map[NAME := ABC] && r.bodySize == 2
  {
    a, b := ThreeReads(A, B), ThreeReads(A, BC);
    SameBytes();
    StoresBoth(A, B);
    StoresBoth(A, BC);
  }

  // ---------- a redirect in two reads ----------

  const OTHER := "g"
  const SITE := "h"
  const ROOT := "/"

  function PartsOf(scheme: string, file: string): UrlParts {
    UrlParts(scheme, SITE, "", ROOT, file, "")
  }

  function UrlOf(scheme: string, file: string): string {
    Join(PartsOf(scheme, file))
  }

  predicate PlainNames(scheme: string, file: string) {
    (scheme == HTTP || scheme == HTTPS) && |file| == 1 && IsWord(file[0])
  }

  lemma CanonicalParts(scheme: string, file: string)
    requires PlainNames(scheme, file)
    ensures Canonical(PartsOf(scheme, file))
  {
    assert (ROOT + file)[0] == '/';
  }

  /** What the sinks and a Location line need of a URL of that site. */
  predicate FileUrl(url: string, scheme: string, file: string) {
    Split(url) == Some(PartsOf(scheme, file)) && |url| < 20 && Free(url, LineEnd)
  }

  lemma SplitUrlOf(scheme: string, file: string)
    requires PlainNames(scheme, file)
    ensures FileUrl(UrlOf(scheme, file), scheme, file)
  {
    CanonicalParts(scheme, file);
    SplitJoined(PartsOf(scheme, file));
    PlainUrl(UrlOf(scheme, file), scheme, file);
  }

  lemma PlainUrl(url: string, scheme: string, file: string)
    requires PlainNames(scheme, file) && url == UrlOf(scheme, file)
    ensures |url| < 20 && Free(url, LineEnd)
  {
    assert url == if scheme == HTTP then "http://h/" + file else "https://h/" + file;
  }

  const FOUND := "Found"

  /** The head of a redirect. */
  function MovedHead(url: string): string {
    PrintHead(VERSION_1_0, 302, FOUND, [(LOCATION, url)])
  }

  lemma LocationRead(url: string)
    requires Free(url, LineEnd)
    ensures var lines := [(LOCATION, url)];
      Clean(lines) && LOCATION in FirstValues(lines) && FirstValues(lines)[LOCATION] == url
  {
    var lines := [(LOCATION, url)];
    assert CleanLine(lines[0]);
    FirstValuesKeys(lines, LOCATION);
  }

  lemma MovedHeadParses(url: string)
    requires Free(url, LineEnd)
    ensures ParseHead(MovedHead(url)) == Complete(VERSION_1_0, 302, FOUND, [(LOCATION, url)], "")
    ensures HeadLength(MovedHead(url)) == |MovedHead(url)|
  {
    LocationRead(url);
    PrintedHeadParses(VERSION_1_0, 302, FOUND, [(LOCATION, url)], "");
    assert MovedHead(url) + "" == MovedHead(url);
    FrontLength(MovedHead(url), ParseHead(MovedHead(url)), |MovedHead(url)|);
  }

  /** A text cut after its first byte; the open call after the first read succeeds. */
  function CutInTwo(head: string): (input: seq<Read>)
    requires 1 < |head| <= 300
    ensures Stream(input) == head && |input| == 2 && input[0] == Packet(head[..1], true)
  {
    var last: seq<Read> := [Packet(head[1..], true)];
    StreamCons(Packet(head[1..], true), []);
    StreamCons(Packet(head[..1], true), last);
    [Packet(head[..1], true)] + last
  }

  lemma CutOpensEarly(head: string)
    requires 1 < |head| <= 300 && HeadLength(head) == |head|
    ensures OpenedEarly(Answers(CutInTwo(head)))
  {
    var input := CutInTwo(head);
    assert EarlyReads(input, |head|) >= 1;
    assert input[0].canOpen;
  }

  /** A redirect to `url` in two reads. */
  lemma RedirectInTwo(url: string) returns (answer: Answer)
    requires Free(url, LineEnd) && |url| < 20
    ensures OpenedEarly(answer)
    ensures var h := ParseHead(Stream(answer.input));
      Followed(h, 0) && h.status == 302 && FirstValues(h.lines)[LOCATION] == url
  {
    ShortHead(302, FOUND, (LOCATION, url));
    MovedHeadParses(url);
    LocationRead(url);
    CutOpensEarly(MovedHead(url));
    answer := Answers(CutInTwo(MovedHead(url)));
  }

  function TwoAnswers(first: Answer, second: Answer): World {
    (n: nat) => if n == 0 then first else second
  }

  const DIRECT := Environment("", "")

  lemma FirstHop(run: Run, answer: Answer, next: Run, other: string)
    requires Split(run.response.url).Some? && OpenedEarly(answer)
    requires run.response.sink == File && run.response.body == "" && FileExists(run.response.file)
    requires var h := ParseHead(Stream(answer.input));
      Followed(h, run.engine.redirtimes) && h.status == 302 && FirstValues(h.lines)[LOCATION] == other
    requires next == NextHop(run, DIRECT, answer)
    ensures next.control == Returned(true) && next.response.url == other && next.response.file.isOpen
    ensures next.response.sink == File && next.response.body == "" && FileExists(next.response.file)
  {
    var p := Split(run.response.url).value;
    var e := Addressed(run.engine, p, DIRECT);
    var r := Prepared(e, run.response, p);
    Sent(run, DIRECT, answer, p, e, r);
    RedirectedEarly(r, e.redirtimes, e.url, answer, other);
  }

  lemma RedirectedEarly(r: Response, redirtimes: int, url: string, answer: Answer, other: string)
    requires r.sink == File && r.body == "" && FileExists(r.file) && OpenedEarly(answer)
    requires var h := ParseHead(Stream(answer.input));
      Followed(h, redirtimes) && h.status == 302 && FirstValues(h.lines)[LOCATION] == other
    ensures var m := Receive(Start(r, redirtimes, url), answer.input);
      && m.control == Returned(true) && m.response.url == other && m.response.file.isOpen
      && m.response.sink == File && m.response.body == "" && FileExists(m.response.file)
  {
    HeadOnly(r, redirtimes, url, answer.input, ParseHead(Stream(answer.input)));
    EarlyFileIsOpen(r.file, answer.input, HeadLength(Stream(answer.input)));
  }

  lemma SecondHop(next: Run, final: Run)
    requires next.response.sink == File && next.response.body == "" && FileExists(next.response.file)
    requires Split(next.response.url).Some?
    requires final == NextHop(next, DIRECT, Answers(ThreeReads(A, B)))
    ensures Stored(ParseHead(Stream(ThreeReads(A, B)))) && final.control == Returned(false)
  {
    ThreeReadsDelivered(A, B);
    SendStored(next, DIRECT, Answers(ThreeReads(A, B)), final, ParseHead(Stream(ThreeReads(A, B))));
  }

  lemma TextOfOpen(f: FileState)
    requires f.isOpen
    ensures ParseHead(Stream(ThreeReads(A, B))).Complete?
    ensures Delivered(f, ThreeReads(A, B)).inFile && Delivered(f, ThreeReads(A, B)).Text() == AB
  {
    var head, later := TwoByteHead(), [Packet(A, true), Packet(B, true)];
    TwoByteHeadParses(A + B);
    HeadOfThree(A, B);
    HeadAlone(head, later, f);
    EmptyFirstOpen(later);
    KeptOfTwo(Announced(2), A, B);
    SameBytes();
  }

  lemma EmptyFirstOpen(later: seq<Packet>)
    ensures Groups("", true, [Packet("", true)] + later) == later
  {
    var pieces := [Packet("", true)] + later;
    assert pieces[1..] == later && "" + pieces[0].bytes == "";
    assert Group("", true) + later == later;
  }

  /** A redirect from "f" to "g" that comes in two reads: the document of "g" is stored
      under the name "f". */
  lemma WrongName() returns (runs: seq<Run>, world: World, final: Run)
    ensures Connects(runs, DIRECT, world, 0, final) && |runs| == 2
    ensures runs[0] == Begin(FreshEngine(), Sinking().(url := UrlOf(HTTP, NAME)), [])
    ensures Split(UrlOf(HTTP, NAME)) == Some(PartsOf(HTTP, NAME))
    ensures Split(runs[1].response.url) == Some(PartsOf(HTTP, OTHER))
    ensures final.response.file.disk == map[NAME := AB]
  {
    SplitUrlOf(HTTP, NAME);
    SplitUrlOf(HTTP, OTHER);
    var answer := RedirectInTwo(UrlOf(HTTP, OTHER));
    var run := Begin(FreshEngine(), Sinking().(url := UrlOf(HTTP, NAME)), []);
    var next := NextHop(run, DIRECT, answer);
    FirstHop(run, answer, next, UrlOf(HTTP, OTHER));
    world, final := LastHop(run, next, answer);
    runs := [run, next];
  }

  lemma LastHop(run: Run, next: Run, answer: Answer) returns (world: World, final: Run)
    requires run.control == Returned(true) && next == NextHop(run, DIRECT, answer) && next.control == Returned(true)
    requires run.response.sink == File && run.response.body == "" && run.response.file == CLOSED && OpenedEarly(answer)
    requires next.response.sink == File && next.response.body == "" && FileExists(next.response.file)
    requires next.response.file.isOpen && Split(next.response.url).Some?
    ensures Connects([run, next], DIRECT, world, 0, final)
    ensures final.response.file.disk == map[NAME := AB]
  {
    var last := Answers(ThreeReads(A, B));
    world := TwoAnswers(answer, last);
    final := Sender(DIRECT, world)(next, 1);
    SenderSends(run, DIRECT, world, 0, answer);
    SenderSends(next, DIRECT, world, 1, last);
    SecondHop(next, final);
    ConnectsAfterTwo(run, next, final, DIRECT, world, 0);
    StoredUnder(run, next, [run, next], world, answer, final);
  }

  lemma FirstIsEarly(world: World, hop: nat, n: nat)
    requires OpenedEarly(world(hop)) && n > 0
    ensures FirstEarly(world, hop, n) == 0
  {
    var k := FirstEarly(world, hop, n);
    assert EarlyAt(world)(hop);
    assert k > 0 ==> hop <= hop < hop + k;
  }

  lemma StoredUnder(run: Run, next: Run, runs: seq<Run>, world: World, answer: Answer, final: Run)
    requires runs == [run, next] && Connects(runs, DIRECT, world, 0, final)
    requires world(0) == answer && OpenedEarly(answer) && world(1) == Answers(ThreeReads(A, B))
    requires run.response.sink == File && run.response.body == "" && run.response.file == CLOSED
    requires next.response.file.isOpen && Split(next.response.url).Some?
    ensures final.response.file.disk == map[NAME := AB]
  {
    var h := ParseHead(Stream(ThreeReads(A, B)));
    ThreeReadsDelivered(A, B);
    TextOfOpen(next.response.file);
    NewPath();
    FirstIsEarly(world, 0, 1);
    DocumentPath(runs, next, DIRECT, world, 0, 1, final, h);
  }

  // ---------- seven redirects ----------

  /** A server that redirects to itself: six redirects are followed, and the seventh is
      refused with its status. */
  lemma RedirectLoop() returns (world: World, runs: seq<Run>, final: Run)
    ensures runs != [] && runs[0] == Begin(FreshEngine(), FreshResponse().(url := UrlOf(HTTP, OTHER)), [])
    ensures Connects(runs, DIRECT, world, 0, final)
    ensures |runs| == 7 && |final.requests| == 7
    ensures final.control == Returned(false) && final.response.status == 302
  {
    SplitUrlOf(HTTP, OTHER);
    var answer := RedirectInTwo(UrlOf(HTTP, OTHER));
    world := (n: nat) => answer;
    runs, final := LoopEnds(Begin(FreshEngine(), FreshResponse().(url := UrlOf(HTTP, OTHER)), []), answer, world);
  }

  lemma LoopEnds(first: Run, answer: Answer, world: World) returns (runs: seq<Run>, final: Run)
    requires first.control == Returned(true) && first.engine == FreshEngine() && first.requests == []
    requires IsReset(first.response) && Split(first.response.url).Some?
    requires Redirecting(answer) && LastHead(answer).status == 302 && forall i: nat :: world(i) == answer
    ensures Connects(runs, DIRECT, world, 0, final) && runs[0] == first
    ensures |runs| == 7 && |final.requests| == 7
    ensures final.control == Returned(false) && final.response.status == 302
  {
    runs, final := SixRedirectsFollowed(first, DIRECT, world, 0);
    SixRedirectsExactly(runs, DIRECT, world, 0, final);
  }

  // ---------- requests, written out ----------

  lemma EncodedGroup(s: string, v: nat, w: nat, x: nat, y: nat)
    requires |s| == 3 && Base64.IsByteString(s)
    requires v == s[0] as int / 4 && w == s[0] as int % 4 * 16 + s[1] as int / 16
    requires x == s[1] as int % 16 * 4 + s[2] as int / 64 && y == s[2] as int % 64
    requires v < 64 && w < 64 && x < 64 && y < 64
    ensures Base64.Encode(s) == [Base64.Symbol(v), Base64.Symbol(w), Base64.Symbol(x), Base64.Symbol(y)]
  {
    Base64.SextetsOfGroup(s);
    Base64.GroupSymbols(s);
    Base64.ByteIsOctet(s, 0);
    Base64.ByteIsOctet(s, 1);
    Base64.ByteIsOctet(s, 2);
    WholeGroup(s);
  }

  lemma WholeGroup(s: string)
    requires |s| == 3
    ensures Base64.Encode(s) == Base64.Symbols(s)
  {
    assert Base64.Padding(3) == "";
    assert Base64.BreakLines(Base64.Symbols(s)) == Base64.Symbols(s);
  }

  lemma Tokens()
    ensures Base64.Encode("u:p") == "dTpw" && Base64.Encode("v:w") == "djp3"
  {
    EncodedGroup("u:p", 29, 19, 41, 48);
    EncodedGroup("v:w", 29, 35, 41, 55);
  }

  const HOST_LINE := "Host: h\r\n"
  const AUTHORIZATION_LINE := "Authorization: Basic dTpw\r\n"
  const PROXY_LINE := "Proxy-Authorization: Basic djp3\r\n"
  const LAST_TWO_LINES := "Accept: */*\r\nConnection: close\r\n"

  const TOKEN := "Basic dTpw"
  const PROXY_TOKEN := "Basic djp3"

  lemma BasicTokens()
    ensures BasicToken(("u", "p")) == TOKEN && BasicToken(("v", "w")) == PROXY_TOKEN
  {
    Tokens();
    assert "u" + ":" + "p" == "u:p" && "v" + ":" + "w" == "v:w";
  }

  lemma TokenTexts()
    ensures HeaderLine("Authorization", TOKEN) == AUTHORIZATION_LINE
    ensures HeaderLine("Proxy-Authorization", PROXY_TOKEN) == PROXY_LINE
  {
  }

  lemma HostText()
    ensures HeaderLine("Host", "h") == HOST_LINE
  {
  }

  const ACCEPT_LINE := "Accept: */*\r\n"
  const CONNECTION_LINE := "Connection: close\r\n"

  lemma LastText()
    ensures HeaderText(LAST_LINES) == LAST_TWO_LINES
  {
    LastLineTexts();
    TwoLines(LAST_LINES[0], LAST_LINES[1]);
    assert LAST_LINES == [LAST_LINES[0], LAST_LINES[1]];
    assert ACCEPT_LINE + CONNECTION_LINE == LAST_TWO_LINES;
  }

  lemma LastLineTexts()
    ensures |LAST_LINES| == 2
    ensures HeaderLine(LAST_LINES[0].0, LAST_LINES[0].1) == ACCEPT_LINE
    ensures HeaderLine(LAST_LINES[1].0, LAST_LINES[1].1) == CONNECTION_LINE
  {
  }

  lemma TwoLines(a: (string, string), b: (string, string))
    ensures HeaderText([a, b]) == HeaderLine(a.0, a.1) + HeaderLine(b.0, b.1)
  {
    HeaderTextOne([], b.0, b.1);
    HeaderTextCons(a.0, a.1, [b]);
    assert [] + [b] == [b] && [a] + [b] == [a, b];
  }

  /** A request without a proxy and without credentials, written out. */
  lemma DirectText(e: Engine, r: Response)
    requires e == FreshEngine().(url := "/p") && r.httpAuth == ("", "") && r.sendHeaders == map["Host" := "h"]
    ensures Request(e, r, "?q=1") ==
      "GET /p?q=1 HTTP/1.0\r\n" + (HOST_LINE + LAST_TWO_LINES) + "\r\n\r\n"
  {
    LastText();
    HostText();
    OrderedMap.OneLine("Host", "h");
    HeaderTextCons("Host", "h", LAST_LINES);
    assert RequestLine(e, "?q=1") == "GET /p?q=1 HTTP/1.0\r\n";
    assert CRLF + CRLF + e.body == "\r\n\r\n";
  }

  /** A request through a proxy, with credentials for the server and for the proxy. */
  lemma ProxiedText(e: Engine, r: Response)
    requires e == FreshEngine().(url := "/p", host := "http://h:80", httpProxy := ProxyHttp, proxyAuth := ("v", "w"))
    requires r.httpAuth == ("u", "p") && r.sendHeaders == map["Host" := "h"]
    ensures Request(e, r, "?q=1") ==
      "GET http://h:80/p?q=1 HTTP/1.0\r\n" + (HOST_LINE + (AUTHORIZATION_LINE + (PROXY_LINE + LAST_TWO_LINES)))
      + "\r\n\r\n"
  {
    ProxiedLineText(e);
    BasicTokens();
    OrderedMap.OneLine("Host", "h");
    ProxiedLinesText(e, r);
    assert CRLF + CRLF + e.body == "\r\n\r\n";
  }

  const PROXIED_TARGET := "http://h:80/p?q=1"

  lemma ProxiedLineText(e: Engine)
    requires e.verb == "GET" && e.version == "HTTP/1.0"
    requires e.url == "/p" && e.host == "http://h:80" && e.httpProxy == ProxyHttp
    ensures RequestLine(e, "?q=1") == "GET http://h:80/p?q=1 HTTP/1.0\r\n"
  {
    assert Target(e, "?q=1") == PROXIED_TARGET;
    GetLine(PROXIED_TARGET);
  }

  lemma GetLine(target: string)
    requires target == PROXIED_TARGET
    ensures "GET" + " " + target + " " + "HTTP/1.0" + CRLF == "GET http://h:80/p?q=1 HTTP/1.0\r\n"
  {
  }

  lemma ProxiedLinesText(e: Engine, r: Response)
    requires e.httpProxy == ProxyHttp && e.proxyAuth.0 != "" && BasicToken(e.proxyAuth) == PROXY_TOKEN
    requires r.httpAuth.0 != "" && BasicToken(r.httpAuth) == TOKEN && Lines(r.sendHeaders) == [("Host", "h")]
    ensures HeaderText(Lines(r.sendHeaders) + OwnLines(e, r)) ==
            HOST_LINE + (AUTHORIZATION_LINE + (PROXY_LINE + LAST_TWO_LINES))
  {
    LastText();
    HostText();
    TokenTexts();
    HeaderTextCons("Proxy-Authorization", PROXY_TOKEN, LAST_LINES);
    HeaderTextCons("Authorization", TOKEN, ProxyLines(e));
    HeaderTextCons("Host", "h", OwnLines(e, r));
  }

  // ---------- a proxy that stays ----------

  /** https goes through a proxy, http does not. */
  const HALF_PROXIED := Environment("", "p")

  lemma SchemesAreLower()
    ensures Lower(HTTP) == HTTP && Lower(HTTPS) == HTTPS
  {
  }

  lemma PassesAndLeaves(run: Run, next: Run)
    requires FileUrl(run.response.url, HTTPS, NAME) && FileUrl(next.response.url, HTTP, OTHER)
    requires run.engine.httpProxy == NoProxy
    ensures ProxyStays([run, next], HALF_PROXIED) && IsHttp(Split(next.response.url).value)
  {
    SchemesAreLower();
    assert UsesProxy([run, next][0], HALF_PROXIED);
  }

  lemma MemoryHop(run: Run, env: Environment, answer: Answer, next: Run, other: string)
    requires Split(run.response.url).Some? && answer.Answers?
    requires run.response.sink == Memory && run.response.body == ""
    requires var h := ParseHead(Stream(answer.input));
      Followed(h, run.engine.redirtimes) && FirstValues(h.lines)[LOCATION] == other
    requires next == NextHop(run, env, answer)
    ensures next.control == Returned(true) && next.response.url == other
  {
    var p := Split(run.response.url).value;
    var e := Addressed(run.engine, p, env);
    var r, s := Prepared(e, run.response, p), Stream(answer.input);
    SendFollowsGrammar(run, env, answer, p, e, r);
    ExpectedRedirect(r, e.redirtimes, e.url, s, ParseHead(s));
  }

  const SILENCE := Answers([])

  lemma SilenceEnds(run: Run, env: Environment)
    requires Split(run.response.url).Some?
    ensures NextHop(run, env, SILENCE).control == Returned(false) && NoRedirect(SILENCE)
  {
    var p := Split(run.response.url).value;
    var e := Addressed(run.engine, p, env);
    Sent(run, env, SILENCE, p, e, Prepared(e, run.response, p));
  }

  /** A redirect from https, with a proxy, to http, without one: the response is that of a
      direct request for the second URL, but the last request is still one for a proxy. */
  lemma ProxyStaysOn() returns (runs: seq<Run>, world: World, followed: Run, direct: Run)
    ensures |runs| == 2 && runs[0] == Begin(FreshEngine(), FreshResponse().(url := UrlOf(HTTPS, NAME)), [])
    ensures Connects(runs, HALF_PROXIED, world, 0, followed) && runs[1].response.url == UrlOf(HTTP, OTHER)
    ensures Connects([runs[0].(response := FreshResponse().(url := UrlOf(HTTP, OTHER)))], HALF_PROXIED, world, 1, direct)
    ensures followed.control == direct.control && followed.response == direct.response
    ensures followed.requests != [] && direct.requests != []
    ensures |LastRequest(followed)| > |LastRequest(direct)|
  {
    SplitUrlOf(HTTPS, NAME);
    SplitUrlOf(HTTP, OTHER);
    var answer := RedirectInTwo(UrlOf(HTTP, OTHER));
    var run := Begin(FreshEngine(), FreshResponse().(url := UrlOf(HTTPS, NAME)), []);
    var next := NextHop(run, HALF_PROXIED, answer);
    MemoryHop(run, HALF_PROXIED, answer, next, UrlOf(HTTP, OTHER));
    PassesAndLeaves(run, next);
    runs := [run, next];
    world, followed, direct := EndInSilence(run, next, answer);
  }

  lemma EndInSilence(run: Run, next: Run, answer: Answer) returns (world: World, followed: Run, direct: Run)
    requires run.control == Returned(true) && next == NextHop(run, HALF_PROXIED, answer) && next.control == Returned(true)
    requires run.response.sink == Memory && run.response.body == "" && ProxyStays([run, next], HALF_PROXIED)
    requires Split(next.response.url).Some? && IsHttp(Split(next.response.url).value)
    ensures Connects([run, next], HALF_PROXIED, world, 0, followed)
    ensures Connects([run.(response := run.response.(url := next.response.url))], HALF_PROXIED, world, 1, direct)
    ensures followed.control == direct.control && followed.response == direct.response
    ensures followed.requests != [] && direct.requests != []
    ensures |LastRequest(followed)| > |LastRequest(direct)|
  {
    var start := run.(response := run.response.(url := next.response.url));
    world, followed, direct := TwoRuns(run, next, start, answer);
    LongerRequest([run, next], [start], world, followed, direct);
  }

  lemma TwoRuns(run: Run, next: Run, start: Run, answer: Answer) returns (world: World, followed: Run, direct: Run)
    requires GoesOn(run) && next == NextHop(run, HALF_PROXIED, answer) && GoesOn(next) && GoesOn(start)
    requires Split(next.response.url).Some? && Split(start.response.url).Some?
    ensures Connects([run, next], HALF_PROXIED, world, 0, followed)
    ensures Connects([start], HALF_PROXIED, world, 1, direct)
    ensures world(1).Answers? && NoRedirect(world(1))
  {
    world := TwoAnswers(answer, SILENCE);
    followed, direct := Sender(HALF_PROXIED, world)(next, 1), Sender(HALF_PROXIED, world)(start, 1);
    SenderSends(run, HALF_PROXIED, world, 0, answer);
    SenderSends(next, HALF_PROXIED, world, 1, SILENCE);
    SenderSends(start, HALF_PROXIED, world, 1, SILENCE);
    SilenceEnds(next, HALF_PROXIED);
    SilenceEnds(start, HALF_PROXIED);
    ConnectsAfterTwo(run, next, followed, HALF_PROXIED, world, 0);
    ConnectsAtOnce(start, direct, HALF_PROXIED, world, 1);
  }

  lemma LongerRequest(runs: seq<Run>, directRuns: seq<Run>, world: World, followed: Run, direct: Run)
    requires |runs| == 2 && Connects(runs, HALF_PROXIED, world, 0, followed)
    requires Connects(directRuns, HALF_PROXIED, world, 1, direct)
    requires directRuns[0] == runs[0].(response := runs[0].response.(url := runs[1].response.url))
    requires world(1).Answers? && NoRedirect(world(1)) && ProxyStays(runs, HALF_PROXIED)
    requires runs[0].response.sink == Memory && runs[0].response.body == ""
    requires Split(runs[1].response.url).Some? && IsHttp(Split(runs[1].response.url).value)
    ensures followed.control == direct.control && followed.response == direct.response
    ensures followed.requests != [] && direct.requests != []
    ensures |LastRequest(followed)| > |LastRequest(direct)|
  {
    RedirectTransparency(runs, runs[1], HALF_PROXIED, world, 0, 1, followed, directRuns, direct);
  }

  // ---------- credentials ----------

  function Asking(user: string, password: string): Response {
    FreshResponse().(httpAuth := (user, password))
  }

  /** 54 bytes of user name, a colon and no password are one byte too many. */
  lemma LongCredentials() returns (user: string)
    ensures CredentialsLength((user, "")) == 55
    ensures var r := Asking(user, "");
      var b := ParseLines(HeaderPart(FreshEngine(), r, ""));
      b.Block? && AUTHORIZATION in FirstValues(b.lines) && FirstValues(b.lines)[AUTHORIZATION] != BasicToken((user, ""))
  {
    user := seq(54, _ => 'a');
    AuthorizationReadBack(FreshEngine(), Asking(user, ""), "");
  }

  /** A user ":" without password and an empty user with password ":" send the same token,
      which is read as the second. */
  lemma ColonCredentials()
    ensures BasicToken((":", "")) == BasicToken(("", ":"))
    ensures ReadCredentials(BasicToken((":", ""))) == Some(("", ":"))
  {
    assert ":" + ":" + "" == "" + ":" + ":";
    CredentialsRoundTrip("", ":");
  }
}
