/** Printing and parsing are inverse: header lines as `send()` writes them, and whole
    responses in the layout of section 6 of RFC 1945. */
module RoundTrip {
  import opened Text
  import opened OrderedMap
  import opened Responses
  import opened HeaderFormat
  import opened Parser
  import opened Grammar

  lemma FreeSuffix(a: string, c: char, k: Class)
    requires Free(a, k) && !In(c, k)
    ensures Free(a + [c], k)
  {
  }

  lemma KeyRead(key: string)
    requires Free(key, Reserved)
    ensures Free(key + ":", KeyEnd) && Without(key + ":", KeyNoise) == key
  {
    assert forall i :: 0 <= i < |key| ==> !In(key[i], KeyEnd) && !In(key[i], KeyNoise) by {
      assert forall i :: 0 <= i < |key| ==> !In(key[i], Reserved);
    }
    FreeSuffix(key, ':', KeyEnd);
    WithoutAppend(key, ":", KeyNoise);
    WithoutNothing(key, KeyNoise);
    assert Without(":", KeyNoise) == "";
  }

  lemma ValueRead(value: string)
    requires Free(value, LineEnd)
    ensures Free(value + "\r", Newline) && Without(value + "\r", Return) == value
  {
    assert forall i :: 0 <= i < |value| ==> !In(value[i], Newline) && !In(value[i], Return) by {
      assert forall i :: 0 <= i < |value| ==> !In(value[i], LineEnd);
    }
    FreeSuffix(value, '\r', Newline);
    WithoutAppend(value, "\r", Return);
    WithoutNothing(value, Return);
    assert Without("\r", Return) == "";
  }

  /** A key, a blank, a value up to the newline, and more. */
  lemma ParseOneLine(s: string, key: string, value: string, more: string)
    requires Free(key, KeyEnd) && Free(value, Newline)
    requires s == key + [' '] + (value + ['\n'] + more)
    ensures ParseLines(s) == Prepend([(Without(key, KeyNoise), Without(value, Return))], ParseLines(more))
  {
    var t := value + ['\n'] + more;
    FindAt(key, ' ', t, KeyEnd);
    assert s[..|key|] == key && s[|key| + 1..] == t;
    FindAt(value, '\n', more, Newline);
    assert t[..|value|] == value && t[|value| + 1..] == more;
  }

  lemma ParseEnd(rest: string)
    ensures ParseLines(CRLF + rest) == Block([], rest)
  {
    FindAt("\r", '\n', rest, KeyEnd);
    assert CRLF + rest == "\r" + ['\n'] + rest;
    assert (CRLF + rest)[2..] == rest;
  }

  lemma ParseOnePrinted(key: string, value: string, text: string, tail: string)
    requires CleanLine((key, value))
    ensures ParseLines(HeaderLine(key, value) + text + tail) == Prepend([(key, value)], ParseLines(text + tail))
  {
    FirstPrintedLine(key, value, text, tail);
    KeyRead(key);
    ValueRead(value);
    ParseOneLine(HeaderLine(key, value) + text + tail, key + ":", value + "\r", text + tail);
  }

  lemma CleanTail(lines: seq<(string, string)>)
    requires Clean(lines) && lines != []
    ensures CleanLine(lines[0]) && Clean(lines[1..])
    ensures [lines[0]] + lines[1..] == lines
  {
    assert forall i :: 0 <= i < |lines[1..]| ==> lines[1..][i] == lines[i + 1];
  }

  lemma PrependTwice(line: (string, string), lines: seq<(string, string)>, b: HeaderBlock)
    ensures Prepend([line], Prepend(lines, b)) == Prepend([line] + lines, b)
  {
    if b.Block? {
      assert [line] + (lines + b.lines) == [line] + lines + b.lines;
    }
  }

  /** Clean header lines come back as they were written, in order, whatever follows. */
  lemma {:induction false} PrintedLinesParse(lines: seq<(string, string)>, tail: string)
    requires Clean(lines)
    ensures ParseLines(HeaderText(lines) + tail) == Prepend(lines, ParseLines(tail))
    decreases |lines|
  {
    if lines == [] {
      assert "" + tail == tail;
      if ParseLines(tail).Block? {
        assert [] + ParseLines(tail).lines == ParseLines(tail).lines;
      }
    } else {
      CleanTail(lines);
      PrintedLinesParse(lines[1..], tail);
      ParseOnePrinted(lines[0].0, lines[0].1, HeaderText(lines[1..]), tail);
      PrependTwice(lines[0], lines[1..], ParseLines(tail));
    }
  }

  /** A header block as `send()` writes it. */
  lemma PrintedBlockParses(lines: seq<(string, string)>, rest: string)
    requires Clean(lines)
    ensures ParseLines(HeaderText(lines) + (CRLF + rest)) == Block(lines, rest)
  {
    PrintedLinesParse(lines, CRLF + rest);
    ParseEnd(rest);
    assert lines + [] == lines;
  }

  lemma FirstPrintedLine(key: string, value: string, text: string, tail: string)
    ensures HeaderLine(key, value) + text + tail
         == (key + ":") + [' '] + ((value + "\r") + ['\n'] + (text + tail))
  {
    assert HeaderLine(key, value) == (key + ":") + [' '] + ((value + "\r") + ['\n']);
  }

  /** The header lines that `send()` prints for a map, followed by an empty line, give
      the receiving machine exactly that map. */
  lemma HeaderMapRoundTrip(m: Machine, headers: Headers) returns (p: Locals)
    requires m.control == Running && m.locals.state == AnetdHeaderKey
    requires m.locals.tempKey == "" && m.locals.tempHeaders == map[]
    requires forall k :: k in headers ==> CleanLine((k, headers[k]))
    ensures Feed(m, HeaderText(Lines(headers)) + CRLF) == EndOfHeaders(m.(locals := p))
    ensures p.tempHeaders == headers && SameButKey(p, m.locals.(tempHeaders := headers))
  {
    CleanMap(headers);
    PrintedBlockParses(Lines(headers), "");
    assert CRLF + "" == CRLF;
    var front;
    p, front := FeedLines(m, HeaderText(Lines(headers)) + CRLF);
    ReachedEnd(m, p, front, HeaderText(Lines(headers)) + CRLF, "");
    InsertedFirstValues(Lines(headers));
    LinesDetermineMap(headers);
  }

  lemma CleanMap(headers: Headers)
    requires forall k :: k in headers ==> CleanLine((k, headers[k]))
    ensures Clean(Lines(headers))
  {
    forall i | 0 <= i < |Lines(headers)| ensures CleanLine(Lines(headers)[i]) {
      assert InOrder(headers.Keys)[i] in headers.Keys;
    }
  }

  // ---------- whole responses ----------

  /** The status line and the header block of a response. */
  function PrintHead(version: string, status: int, description: string, lines: seq<(string, string)>): string {
    version + " " + PrintInt(status) + " " + description + CRLF + HeaderText(lines) + CRLF
  }

  predicate Printable(version: string, status: int, description: string, lines: seq<(string, string)>) {
    Free(version, Blank) && INT_MIN <= status <= INT_MAX && Free(description, LineEnd) && Clean(lines)
  }

  lemma DescriptionParses(version: string, status: int, description: string, lines: seq<(string, string)>, rest: string)
    requires Free(description, LineEnd) && Clean(lines)
    ensures ParseDescription(version, status, (description + "\r") + ['\n'] + (HeaderText(lines) + (CRLF + rest)))
         == Complete(version, status, description, lines, rest)
  {
    var block := HeaderText(lines) + (CRLF + rest);
    var s := (description + "\r") + ['\n'] + block;
    PrintedBlockParses(lines, rest);
    ValueRead(description);
    FindAt(description + "\r", '\n', block, Newline);
    assert s[..|description| + 1] == description + "\r" && s[|description| + 2..] == block;
  }

  lemma StatusParses(version: string, status: int, s: string)
    requires INT_MIN <= status <= INT_MAX
    ensures ParseStatusCode(version, PrintInt(status) + [' '] + s) == ParseDescription(version, status, s)
  {
    CastPrinted(status);
    var t := PrintInt(status);
    assert Free(t, Blank) by {
      assert forall i :: 0 <= i < |t| ==> !In(t[i], Reserved);
    }
    FindAt(t, ' ', s, Blank);
    assert (t + [' '] + s)[..|t|] == t && (t + [' '] + s)[|t| + 1..] == s;
  }

  lemma VersionParses(version: string, s: string)
    requires Free(version, Blank)
    ensures ParseHead(version + [' '] + s) == ParseStatusCode(version, s)
  {
    FindAt(version, ' ', s, Blank);
    assert (version + [' '] + s)[..|version|] == version && (version + [' '] + s)[|version| + 1..] == s;
  }

  lemma PrintedHeadParses(version: string, status: int, description: string, lines: seq<(string, string)>, rest: string)
    requires Printable(version, status, description, lines)
    ensures ParseHead(PrintHead(version, status, description, lines) + rest)
         == Complete(version, status, description, lines, rest)
  {
    var s := (description + "\r") + ['\n'] + (HeaderText(lines) + (CRLF + rest));
    HeadLayout(version, PrintInt(status), description, HeaderText(lines), rest);
    VersionParses(version, PrintInt(status) + [' '] + s);
    StatusParses(version, status, s);
    DescriptionParses(version, status, description, lines, rest);
  }

  lemma HeadLayout(version: string, status: string, description: string, text: string, rest: string)
    ensures version + " " + status + " " + description + CRLF + text + CRLF + rest
         == version + [' '] + (status + [' '] + ((description + "\r") + ['\n'] + (text + (CRLF + rest))))
  {
    assert description + CRLF == (description + "\r") + ['\n'];
  }

  /** The length of the body is announced by Content-Length, or not at all. */
  predicate LengthFits(lines: seq<(string, string)>, body: string, extra: string) {
    match AnnouncedLength(lines)
    case Unannounced => extra == ""
    case Unreadable => false
    case Announced(n) => n == |body|
  }

  /** A printed length is announced as it is; a negative one, as the unsigned 64-bit number
      that it is converted to. */
  lemma PrintedLength(lines: seq<(string, string)>, n: int)
    requires -0x8000_0000 <= n <= 0x7fff_ffff
    requires var headers := FirstValues(lines);
      "Content-Length" in headers && headers["Content-Length"] == PrintInt(n)
    ensures AnnouncedLength(lines) == Announced(if n >= 0 then n else n + 0x1_0000_0000_0000_0000)
  {
    CastPrinted(n);
  }

  /** The body is printed with its length, or nothing follows it. */
  predicate LengthPrinted(lines: seq<(string, string)>, body: string, extra: string) {
    var headers := FirstValues(lines);
    if "Content-Length" in headers then headers["Content-Length"] == Decimal(|body|) && |body| <= 0x7fff_ffff
    else extra == ""
  }

  lemma PrintedLengthFits(lines: seq<(string, string)>, body: string, extra: string)
    requires LengthPrinted(lines, body, extra)
    ensures LengthFits(lines, body, extra)
  {
    if "Content-Length" in FirstValues(lines) {
      PrintedLength(lines, |body|);
    }
  }

  /** A printed response below 300, received in any cut by a response without headers,
      gives back every field; bytes after an announced body are ignored. */
  lemma ResponseRoundTrip(r: Response, redirtimes: int, url: string, input: seq<Read>,
                          version: string, status: int, description: string, lines: seq<(string, string)>,
                          body: string, extra: string)
    requires r.sink == Memory && r.body == "" && r.headers == map[]
    requires Printable(version, status, description, lines) && status < 300
    requires LengthPrinted(lines, body, extra)
    requires Stream(input) == PrintHead(version, status, description, lines) + (body + extra)
    ensures Seen(Receive(Start(r, redirtimes, url), input)) == Outcome(Returned(false),
      r.(version := version, status := status, description := description, headers := FirstValues(lines),
         body := body, bodySize := |body|, progress := r.progress + |body|), redirtimes, url)
  {
    var h := Complete(version, status, description, lines, body + extra);
    PrintedHeadParses(version, status, description, lines, body + extra);
    PrintedLengthFits(lines, body, extra);
    ReceiveFollowsGrammar(r, redirtimes, url, input);
    ExpectedFits(r, redirtimes, url, Stream(input), h, body, extra);
    PrintedFields(r, h, body);
  }

  lemma PrintedFields(r: Response, h: Head, body: string)
    requires h.Complete? && r.body == "" && r.headers == map[]
    ensures WithBody(WithHead(r, h), body) ==
      r.(version := h.version, status := h.status, description := h.description, headers := FirstValues(h.lines),
         body := body, bodySize := |body|, progress := r.progress + |body|)
  {
    PlusEmpty(FirstValues(h.lines));
  }

  lemma ExpectedFits(r: Response, redirtimes: int, url: string, s: string, h: Head, body: string, extra: string)
    requires h == ParseHead(s) && h.Complete? && h.status < 300
    requires h.rest == body + extra && LengthFits(h.lines, body, extra)
    ensures Expected(r, redirtimes, url, s) ==
            Outcome(Returned(false), WithBody(WithHead(r, h), body), redirtimes, url)
  {
    AcceptedFits(r, h, body, extra);
  }

  lemma AcceptedFits(r: Response, h: Head, body: string, extra: string)
    requires h.Complete? && h.rest == body + extra && LengthFits(h.lines, body, extra)
    ensures Accepted(r, h) == (Returned(false), WithBody(WithHead(r, h), body))
  {
    PrintedBody(h, body, extra);
  }

  lemma PrintedBody(h: Head, body: string, extra: string)
    requires h.Complete? && h.rest == body + extra && LengthFits(h.lines, body, extra)
    ensures AnnouncedBody(h) == body
  {
    assert (body + extra)[..|body|] == body;
    assert body + "" == body;
  }
}
