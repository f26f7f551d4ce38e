/** What a reader of the request sees: its header lines, the credentials in it, and the
    absolute form of the target that is sent to a proxy. */
module Requests {
  import opened Text
  import opened OrderedMap
  import opened Responses
  import opened HeaderFormat
  import opened Grammar
  import opened Url
  import opened Engines
  import opened RoundTrip
  import Base64

  // ---------- credentials ----------

  /** The user name before the first colon and the password after it; section 11.1 of
      RFC 1945. */
  function SplitAtColon(s: string): (string, string) {
    var i := Find(s, Colon);
    if i == |s| then (s, "") else (s[..i], s[i + 1..])
  }

  /** The credentials that a server reads from a Basic token. */
  function ReadCredentials(token: string): Option<(string, string)> {
    if |token| < |BASIC| then None
    else match Base64.Decode(Without(token[|BASIC|..], Newline))
      case None => None
      case Some(s) => Some(SplitAtColon(s))
  }

  lemma SplitAtFirstColon(user: string, password: string)
    ensures SplitAtColon(user + ":" + password) == (user, password) <==> Free(user, Colon)
  {
    var s := user + ":" + password;
    assert s[|user|] == ':';
    if Free(user, Colon) {
      FindAt(user, ':', password, Colon);
      assert s[..|user|] == user && s[|user| + 1..] == password;
    } else {
      var i :| 0 <= i < |user| && In(user[i], Colon);
      assert s[i] == user[i];
      assert Find(s, Colon) <= i;
    }
  }

  /** A server gets back the user and the password exactly when the user has no colon. */
  lemma CredentialsRoundTrip(user: string, password: string)
    requires Base64.IsByteString(user) && Base64.IsByteString(password)
    ensures ReadCredentials(BasicToken((user, password))) == Some((user, password)) <==> Free(user, Colon)
  {
    var s := user + ":" + password;
    assert Base64.IsByteString(s) by {
      assert forall i :: 0 <= i < |s| ==>
        s[i] == if i < |user| then user[i] else if i == |user| then ':' else password[i - |user| - 1];
    }
    Base64.RoundTrip(s);
    assert BasicToken((user, password))[|BASIC|..] == Base64.Encode(s);
    SplitAtFirstColon(user, password);
  }

  // ---------- the header lines of a request ----------

  lemma {:induction false} BrokenLinesFree(t: string, k: Class)
    requires Free(t, k) && !In('\n', k)
    ensures Free(Base64.BreakLines(t), k)
  {
    if |t| > Base64.LINE {
      BrokenLinesFree(t[Base64.LINE..], k);
    }
  }

  lemma TokenFree(s: string, k: Class)
    requires k == Return || k == Blank
    ensures Free(Base64.Encode(s), k)
  {
    assert forall i :: 0 <= i < |Base64.Symbols(s)| ==> !In(Base64.Symbols(s)[i], k) by {
      assert forall i :: 0 <= i < |Base64.Symbols(s)| ==> !In(Base64.Symbols(s)[i], Reserved);
    }
    BrokenLinesFree(Base64.Symbols(s), k);
  }

  /** How many bytes the credentials have. */
  function CredentialsLength(auth: (string, string)): nat {
    |auth.0| + 1 + |auth.1|
  }

  /** The token stays on one line exactly when the credentials have at most 54 bytes. */
  lemma TokenIsOneLine(auth: (string, string))
    ensures Free(BasicToken(auth), LineEnd) <==> CredentialsLength(auth) <= 54
  {
    var s := auth.0 + ":" + auth.1;
    Base64.Layout(s);
    TokenFree(s, Return);
    OneLineToken(Base64.Encode(s));
  }

  lemma OneLineToken(e: string)
    requires Free(e, Return)
    ensures Free(BASIC + e, LineEnd) <==> Free(e, Newline)
  {
    if Free(e, Newline) {
      assert Free(e, LineEnd) by {
        assert forall i :: 0 <= i < |e| ==> !In(e[i], Newline) && !In(e[i], Return);
      }
      BasicPrefix(e);
    } else {
      var i :| 0 <= i < |e| && In(e[i], Newline);
      assert (BASIC + e)[|BASIC| + i] == e[i];
    }
  }

  /** A line whose value holds a newline: the value is cut there, and what follows is
      taken for the end of the header block. */
  lemma BrokenLineParses(key: string, a: string, b: string, more: string)
    requires Free(key, Reserved) && Free(a, LineEnd) && Free(b, Blank)
    ensures var block := ParseLines(HeaderLine(key, a + "\n" + b) + more);
      block.Block? && block.lines == [(key, a)]
  {
    var rest := b + (CRLF + more);
    KeyRead(key);
    assert forall i :: 0 <= i < |a| ==> !In(a[i], Newline) && !In(a[i], Return) by {
      assert forall i :: 0 <= i < |a| ==> !In(a[i], LineEnd);
    }
    WithoutNothing(a, Return);
    BrokenLayout(key, a, b, more);
    ParseOneLine(HeaderLine(key, a + "\n" + b) + more, key + ":", a, rest);
    EndsAtNewline(b, more);
    assert [(key, a)] + [] == [(key, a)];
  }

  lemma BrokenLayout(key: string, a: string, b: string, more: string)
    ensures HeaderLine(key, a + "\n" + b) + more == (key + ":") + [' '] + (a + ['\n'] + (b + (CRLF + more)))
  {
  }

  lemma EndsAtNewline(b: string, more: string)
    requires Free(b, Blank)
    ensures var block := ParseLines(b + (CRLF + more)); block.Block? && block.lines == []
  {
    var s := b + (CRLF + more);
    assert forall i :: 0 <= i < |b| ==> s[i] == b[i];
    assert s[|b|] == '\r' && s[|b| + 1] == '\n';
  }

  /** The line of a token, as the header parser reads it. */
  lemma TokenLineParses(key: string, auth: (string, string), text: string, tail: string)
    requires Free(key, Reserved)
    ensures var block := ParseLines(HeaderLine(key, BasicToken(auth)) + text + tail);
      if CredentialsLength(auth) <= 54 then block == Prepend([(key, BasicToken(auth))], ParseLines(text + tail))
      else block.Block? && |block.lines| == 1 && block.lines[0].0 == key && block.lines[0].1 != BasicToken(auth)
  {
    TokenIsOneLine(auth);
    if CredentialsLength(auth) <= 54 {
      ParseOnePrinted(key, BasicToken(auth), text, tail);
    } else {
      var a, b := CutToken(auth);
      BrokenLineParses(key, a, b, text + tail);
      assert HeaderLine(key, BasicToken(auth)) + text + tail == HeaderLine(key, BasicToken(auth)) + (text + tail);
    }
  }

  lemma CutToken(auth: (string, string)) returns (a: string, b: string)
    requires CredentialsLength(auth) > 54
    ensures BasicToken(auth) == a + "\n" + b && a != BasicToken(auth)
    ensures Free(a, LineEnd) && Free(b, Blank)
  {
    var first;
    first, b := CutEncoded(auth.0 + ":" + auth.1);
    a := BASIC + first;
    BasicPrefix(first);
    assert |BasicToken(auth)| > |a|;
  }

  lemma CutEncoded(s: string) returns (first: string, b: string)
    requires |s| > 54
    ensures Base64.Encode(s) == first + "\n" + b
    ensures Free(first, LineEnd) && Free(b, Blank)
  {
    var e := Base64.Encode(s);
    Base64.Layout(s);
    TokenFree(s, Return);
    TokenFree(s, Blank);
    assert e[Base64.LINE] == '\n';
    first, b := e[..Base64.LINE], e[Base64.LINE + 1..];
    assert forall i :: 0 <= i < |first| ==> first[i] == e[i] && !In(e[i], Return);
  }

  lemma BasicPrefix(s: string)
    requires Free(s, LineEnd)
    ensures Free(BASIC + s, LineEnd)
  {
    assert forall i :: 0 <= i < |BASIC| ==> !In(BASIC[i], LineEnd);
  }

  /** The request after its first line. */
  function HeaderPart(e: Engine, r: Response, query: string): (text: string)
    ensures Request(e, r, query) == RequestLine(e, query) + text
  {
    SplitsAfter(RequestLine(e, query), HeaderText(Lines(r.sendHeaders) + OwnLines(e, r)), CRLF + CRLF + e.body);
    Request(e, r, query)[|RequestLine(e, query)|..]
  }

  lemma SplitsAfter(line: string, text: string, end: string)
    ensures var request := line + text + end; request == line + request[|line|..]
  {
  }

  lemma HeaderPartLayout(e: Engine, r: Response, query: string)
    ensures HeaderPart(e, r, query)
         == HeaderText(Lines(r.sendHeaders) + OwnLines(e, r)) + (CRLF + (CRLF + e.body))
    ensures HeaderPart(e, r, query)
         == HeaderText(Lines(r.sendHeaders)) + (HeaderText(OwnLines(e, r)) + (CRLF + (CRLF + e.body)))
  {
    DropFront(RequestLine(e, query), HeaderText(Lines(r.sendHeaders) + OwnLines(e, r)), e.body);
    HeaderTextAppend(Lines(r.sendHeaders), OwnLines(e, r));
    Associative(HeaderText(Lines(r.sendHeaders)), HeaderText(OwnLines(e, r)), CRLF + (CRLF + e.body));
  }

  lemma DropFront(line: string, text: string, body: string)
    ensures (line + text + (CRLF + CRLF + body))[|line|..] == text + (CRLF + (CRLF + body))
  {
  }

  lemma {:induction false} ParsedClean(s: string)
    ensures ParseLines(s).Block? ==> Clean(ParseLines(s).lines)
    decreases |s|, 1
  {
    var i := Find(s, KeyEnd);
    if i < |s| && s[i] == ' ' {
      CleanKey(s[..i]);
      ParsedValueClean(Without(s[..i], KeyNoise), s[i + 1..]);
    }
  }

  lemma {:induction false} ParsedValueClean(key: string, s: string)
    requires Free(key, Reserved)
    ensures ParseValue(key, s).Block? ==> Clean(ParseValue(key, s).lines)
    decreases |s|, 2
  {
    var i := Find(s, Newline);
    if i < |s| {
      var b := ParseLines(s[i + 1..]);
      ParsedClean(s[i + 1..]);
      FirstLineFree(s[..i]);
      if b.Block? {
        CleanCons((key, Without(s[..i], Return)), b.lines);
      }
    }
  }

  lemma CleanKey(s: string)
    requires Free(s, KeyEnd)
    ensures Free(Without(s, KeyNoise), Reserved)
  {
    var key := Without(s, KeyNoise);
    assert forall c :: c in s ==> !In(c, KeyEnd);
    assert forall k :: 0 <= k < |key| ==> key[k] in key;
  }

  lemma CleanCons(line: (string, string), lines: seq<(string, string)>)
    requires CleanLine(line) && Clean(lines)
    ensures Clean([line] + lines)
  {
    var all := [line] + lines;
    assert forall i :: 0 < i < |all| ==> all[i] == lines[i - 1];
  }

  /** The receiver's header parser reads back the lines of a request, in order, exactly
      when they are clean, and what is left over is one empty line more than needed,
      before the body. */
  lemma RequestHeadersParse(e: Engine, r: Response, query: string)
    ensures var lines := Lines(r.sendHeaders) + OwnLines(e, r);
      ParseLines(HeaderPart(e, r, query)) == Block(lines, CRLF + e.body) <==> Clean(lines)
  {
    var lines := Lines(r.sendHeaders) + OwnLines(e, r);
    HeaderPartLayout(e, r, query);
    ParsedClean(HeaderPart(e, r, query));
    if Clean(lines) {
      PrintedBlockParses(lines, CRLF + e.body);
    }
  }

  // ---------- the whole request ----------

  /** A request as it is read. */
  datatype Reading = Reading(verb: string, target: string, version: string, lines: seq<(string, string)>, rest: string)

  /** The request line by section 5.1 of RFC 1945: two words and a version. */
  function ReadLine(line: string): Option<(string, string, string)> {
    var i := Find(line, Blank);
    if i == |line| then None
    else
      var more := line[i + 1..];
      var j := Find(more, Blank);
      if j == |more| then None else Some((line[..i], more[..j], more[j + 1..]))
  }

  /** A whole request: the request line, and the header block as the library reads it. */
  function ReadRequest(text: string): Option<Reading> {
    var i := Find(text, Newline);
    if i == |text| then None
    else match ReadLine(Without(text[..i], Return))
      case None => None
      case Some((verb, target, version)) =>
        match ParseLines(text[i + 1..])
        case NoBlock => None
        case Block(lines, rest) => Some(Reading(verb, target, version, lines, rest))
  }

  lemma LineWordsFree(line: string)
    requires Free(line, LineEnd)
    ensures ReadLine(line).Some? ==>
      var (verb, target, version) := ReadLine(line).value;
      Free(verb, Separator) && Free(target, Separator) && Free(version, LineEnd)
  {
    var i := Find(line, Blank);
    if i < |line| {
      var more := line[i + 1..];
      WordFree(line);
      SuffixFree(line, i + 1);
      WordFree(more);
      if Find(more, Blank) < |more| {
        SuffixFree(more, Find(more, Blank) + 1);
      }
    }
  }

  lemma WordFree(s: string)
    requires Free(s, LineEnd)
    ensures Free(s[..Find(s, Blank)], Separator)
  {
    assert forall k :: 0 <= k < Find(s, Blank) ==> !In(s[k], LineEnd);
  }

  lemma SuffixFree(s: string, i: nat)
    requires i <= |s| && Free(s, LineEnd)
    ensures Free(s[i..], LineEnd)
  {
    var t := s[i..];
    assert forall k :: 0 <= k < |t| ==> t[k] == s[i + k];
  }

  lemma LineWords(verb: string, target: string, version: string)
    requires Free(verb, Blank) && Free(target, Blank)
    ensures ReadLine(verb + [' '] + (target + [' '] + version)) == Some((verb, target, version))
  {
    var more := target + [' '] + version;
    FindAt(verb, ' ', more, Blank);
    assert (verb + [' '] + more)[..|verb|] == verb && (verb + [' '] + more)[|verb| + 1..] == more;
    FindAt(target, ' ', version, Blank);
    assert more[..|target|] == target && more[|target| + 1..] == version;
  }

  /** A line, its end, and more. */
  lemma ReadAfterLine(line: string, more: string)
    requires Free(line, LineEnd)
    ensures ReadRequest(line + CRLF + more) ==
      match ReadLine(line)
      case None => None
      case Some((verb, target, version)) =>
        match ParseLines(more)
        case NoBlock => None
        case Block(lines, rest) => Some(Reading(verb, target, version, lines, rest))
  {
    var text := line + CRLF + more;
    ValueRead(line);
    assert text == (line + "\r") + ['\n'] + more;
    FindAt(line + "\r", '\n', more, Newline);
    assert text[..|line| + 1] == line + "\r" && text[|line| + 2..] == more;
  }

  lemma FirstLineFree(a: string)
    requires Free(a, Newline)
    ensures Free(Without(a, Return), LineEnd)
  {
    var line := Without(a, Return);
    assert forall c :: c in a ==> !In(c, Newline);
    assert forall k :: 0 <= k < |line| ==> line[k] in line;
  }

  lemma ReadingIsFree(text: string)
    requires ReadRequest(text).Some?
    ensures var q := ReadRequest(text).value;
      Free(q.verb, Separator) && Free(q.target, Separator) && Free(q.version, LineEnd) && Clean(q.lines)
  {
    var i := Find(text, Newline);
    FirstLineFree(text[..i]);
    LineWordsFree(Without(text[..i], Return));
    ParsedClean(text[i + 1..]);
  }

  /** The credentials that are sent fit on their lines. */
  predicate ShortCredentials(e: Engine, r: Response) {
    && (r.httpAuth.0 != "" ==> CredentialsLength(r.httpAuth) <= 54)
    && (e.httpProxy == ProxyHttp && e.proxyAuth.0 != "" ==> CredentialsLength(e.proxyAuth) <= 54)
  }

  lemma CleanAppend(a: seq<(string, string)>, b: seq<(string, string)>)
    ensures Clean(a + b) <==> Clean(a) && Clean(b)
  {
    assert forall i :: 0 <= i < |a| ==> (a + b)[i] == a[i];
    assert forall i :: 0 <= i < |b| ==> (a + b)[|a| + i] == b[i];
  }

  lemma CleanToken(key: string, auth: (string, string))
    requires Free(key, Reserved)
    ensures Clean([(key, BasicToken(auth))]) <==> CredentialsLength(auth) <= 54
  {
    TokenIsOneLine(auth);
    var lines := [(key, BasicToken(auth))];
    assert Clean(lines) <==> CleanLine(lines[0]);
  }

  lemma CleanProxyLines(e: Engine)
    ensures Clean(ProxyLines(e)) <==>
      (e.httpProxy == ProxyHttp && e.proxyAuth.0 != "" ==> CredentialsLength(e.proxyAuth) <= 54)
  {
    CleanLastLines();
    CleanKeys();
    CleanToken(PROXY_AUTHORIZATION, e.proxyAuth);
    CleanAppend([(PROXY_AUTHORIZATION, BasicToken(e.proxyAuth))], LAST_LINES);
  }

  lemma CleanOwnLines(e: Engine, r: Response)
    ensures Clean(OwnLines(e, r)) <==> ShortCredentials(e, r)
  {
    CleanKeys();
    CleanProxyLines(e);
    CleanToken(AUTHORIZATION, r.httpAuth);
    CleanAppend([(AUTHORIZATION, BasicToken(r.httpAuth))], ProxyLines(e));
  }

  /** What a request must look like to be read back. */
  predicate Readable(e: Engine, r: Response, query: string) {
    && Free(e.verb, Separator) && Free(Target(e, query), Separator) && Free(e.version, LineEnd)
    && Clean(Lines(r.sendHeaders)) && ShortCredentials(e, r)
  }

  /** The text of a request reads back into its verb, target, version, header lines and,
      after the empty line too many, its body exactly when the target has no blank and no
      line end, the headers are clean and the credentials have at most 54 bytes. */
  lemma RequestReadsBack(e: Engine, r: Response, query: string)
    ensures var target := (if e.httpProxy == NoProxy then e.url else e.host + e.url) + query;
      ReadRequest(Request(e, r, query)) ==
      Some(Reading(e.verb, target, e.version, Lines(r.sendHeaders) + OwnLines(e, r), "\r\n" + e.body))
      <==> Readable(e, r, query)
  {
    var lines := Lines(r.sendHeaders) + OwnLines(e, r);
    CleanOwnLines(e, r);
    CleanAppend(Lines(r.sendHeaders), OwnLines(e, r));
    if ReadRequest(Request(e, r, query)).Some? {
      ReadingIsFree(Request(e, r, query));
    }
    if Readable(e, r, query) {
      RequestHeadersParse(e, r, query);
      LineReadsBack(e, r, query, HeaderPart(e, r, query));
    }
  }

  lemma LineReadsBack(e: Engine, r: Response, query: string, more: string)
    requires Free(e.verb, Separator) && Free(Target(e, query), Separator) && Free(e.version, LineEnd)
    requires ParseLines(more).Block?
    ensures var b := ParseLines(more);
      ReadRequest(RequestLine(e, query) + more) ==
      Some(Reading(e.verb, Target(e, query), e.version, b.lines, b.rest))
  {
    var target := Target(e, query);
    PrintedLine(e.verb, target, e.version);
    WordsReadBack(e.verb, target, e.version, more, ParseLines(more));
  }

  lemma PrintedLine(verb: string, target: string, version: string)
    ensures verb + " " + target + " " + version + CRLF == verb + [' '] + (target + [' '] + version) + CRLF
  {
  }

  lemma WordsReadBack(verb: string, target: string, version: string, more: string, b: HeaderBlock)
    requires Free(verb, Separator) && Free(target, Separator) && Free(version, LineEnd)
    requires b == ParseLines(more) && b.Block?
    ensures ReadRequest(verb + [' '] + (target + [' '] + version) + CRLF + more) ==
            Some(Reading(verb, target, version, b.lines, b.rest))
  {
    SeparatorFree(verb);
    SeparatorFree(target);
    LineFree(verb, target, version);
    LineWords(verb, target, version);
    ReadAfterLine(verb + [' '] + (target + [' '] + version), more);
  }

  lemma SeparatorFree(s: string)
    requires Free(s, Separator)
    ensures Free(s, Blank) && Free(s, LineEnd)
  {
    assert forall i :: 0 <= i < |s| ==> !In(s[i], Separator);
  }

  lemma LineFree(verb: string, target: string, version: string)
    requires Free(verb, LineEnd) && Free(target, LineEnd) && Free(version, LineEnd)
    ensures Free(verb + [' '] + (target + [' '] + version), LineEnd)
  {
    FreeAppend(target + [' '], version, LineEnd);
    FreeSuffix(target, ' ', LineEnd);
    FreeSuffix(verb, ' ', LineEnd);
    FreeAppend(verb + [' '], target + [' '] + version, LineEnd);
  }

  // ---------- the credentials line ----------

  lemma CleanLastLines()
    ensures Clean(LAST_LINES)
  {
    assert CleanLine(LAST_LINES[0]);
    assert CleanLine(LAST_LINES[1]);
  }

  /** A line with a token in front of lines that parse. */
  lemma TokenFirst(key: string, auth: (string, string), later: seq<(string, string)>, tail: string)
    requires Free(key, Reserved) && ParseLines(HeaderText(later) + tail).Block?
    ensures var b := ParseLines(HeaderText([(key, BasicToken(auth))] + later) + tail);
      && b.Block? && b.lines != [] && b.lines[0].0 == key
      && (b.lines[0].1 == BasicToken(auth) <==> CredentialsLength(auth) <= 54)
  {
    HeaderTextCons(key, BasicToken(auth), later);
    TokenLineParses(key, auth, HeaderText(later), tail);
  }

  lemma HeaderTextCons(key: string, value: string, lines: seq<(string, string)>)
    ensures HeaderText([(key, value)] + lines) == HeaderLine(key, value) + HeaderText(lines)
  {
    assert ([(key, value)] + lines)[1..] == lines;
  }

  lemma LastLinesParse(tail: string)
    ensures ParseLines(HeaderText(LAST_LINES) + (CRLF + tail)).Block?
  {
    CleanLastLines();
    PrintedBlockParses(LAST_LINES, tail);
  }

  lemma CleanKeys()
    ensures Free(AUTHORIZATION, Reserved) && Free(PROXY_AUTHORIZATION, Reserved)
  {
  }

  /** The lines after the caller's credentials always end in a header block. */
  lemma LaterLinesParse(e: Engine, tail: string)
    ensures ParseLines(HeaderText(ProxyLines(e)) + (CRLF + tail)).Block?
  {
    LastLinesParse(tail);
    CleanKeys();
    TokenFirst(PROXY_AUTHORIZATION, e.proxyAuth, LAST_LINES, CRLF + tail);
  }

  lemma FirstAfter(lines: seq<(string, string)>, key: string, value: string, more: seq<(string, string)>)
    requires forall i :: 0 <= i < |lines| ==> lines[i].0 != key
    ensures var m := FirstValues(lines + [(key, value)] + more); key in m && m[key] == value
  {
    var all := lines + [(key, value)] + more;
    assert all[|lines|] == (key, value);
    assert forall i :: 0 <= i < |lines| ==> all[i] == lines[i];
    FirstValuesKeys(all, key);
    assert FirstLine(all, key) == |lines|;
  }

  lemma FirstLineAfter(sent: seq<(string, string)>, text: string, b: HeaderBlock)
    requires b == ParseLines(text) && b.Block? && b.lines != []
    requires Clean(sent) && forall i :: 0 <= i < |sent| ==> sent[i].0 != b.lines[0].0
    ensures var all := ParseLines(HeaderText(sent) + text);
      && all.Block?
      && b.lines[0].0 in FirstValues(all.lines)
      && FirstValues(all.lines)[b.lines[0].0] == b.lines[0].1
  {
    PrintedLinesParse(sent, text);
    FirstOfRest(sent, b.lines);
  }

  lemma FirstOfRest(sent: seq<(string, string)>, lines: seq<(string, string)>)
    requires lines != [] && forall i :: 0 <= i < |sent| ==> sent[i].0 != lines[0].0
    ensures var m := FirstValues(sent + lines); lines[0].0 in m && m[lines[0].0] == lines[0].1
  {
    FirstAfter(sent, lines[0].0, lines[0].1, lines[1..]);
    assert sent + lines == sent + [(lines[0].0, lines[0].1)] + lines[1..];
  }

  /** The credentials line of a request, read with its header block: intact exactly when
      the credentials have at most 54 bytes, because the encoder breaks longer tokens. */
  lemma AuthorizationReadBack(e: Engine, r: Response, query: string)
    requires r.httpAuth.0 != "" && Clean(Lines(r.sendHeaders)) && "Authorization" !in r.sendHeaders
    ensures var b := ParseLines(HeaderPart(e, r, query));
      && b.Block?
      && "Authorization" in FirstValues(b.lines)
      && (FirstValues(b.lines)["Authorization"] == "Basic " + Base64.Encode(r.httpAuth.0 + ":" + r.httpAuth.1)
          <==> CredentialsLength(r.httpAuth) <= 54)
  {
    LaterLinesParse(e, CRLF + e.body);
    SentKeys(r.sendHeaders);
    CleanKeys();
    var tail := CRLF + (CRLF + e.body);
    TokenFirst(AUTHORIZATION, r.httpAuth, ProxyLines(e), tail);
    var text := HeaderText(OwnLines(e, r)) + tail;
    FirstLineAfter(Lines(r.sendHeaders), text, ParseLines(text));
    HeaderPartLayout(e, r, query);
  }

  lemma SentKeys(headers: Headers)
    ensures forall i :: 0 <= i < |Lines(headers)| ==> Lines(headers)[i].0 in headers
  {
    forall i | 0 <= i < |Lines(headers)| ensures Lines(headers)[i].0 in headers {
      assert InOrder(headers.Keys)[i] in headers.Keys;
    }
  }

  lemma ProxyPartLayout(e: Engine, r: Response, query: string, sent: seq<(string, string)>)
    requires Lines(r.sendHeaders) + OwnLines(e, r) == sent + ProxyLines(e)
    ensures HeaderPart(e, r, query) == HeaderText(sent) + (HeaderText(ProxyLines(e)) + (CRLF + (CRLF + e.body)))
  {
    HeaderPartLayout(e, r, query);
    HeaderTextAppend(sent, ProxyLines(e));
    Associative(HeaderText(sent), HeaderText(ProxyLines(e)), CRLF + (CRLF + e.body));
  }

  /** The lines in front of those for the proxy. */
  function BeforeProxyLines(r: Response): seq<(string, string)> {
    Lines(r.sendHeaders) + if r.httpAuth.0 != "" then [(AUTHORIZATION, BasicToken(r.httpAuth))] else []
  }

  lemma BeforeProxyLinesClean(e: Engine, r: Response)
    requires Clean(Lines(r.sendHeaders)) && (r.httpAuth.0 != "" ==> CredentialsLength(r.httpAuth) <= 54)
    requires "Proxy-Authorization" !in r.sendHeaders
    ensures Clean(BeforeProxyLines(r)) && Lines(r.sendHeaders) + OwnLines(e, r) == BeforeProxyLines(r) + ProxyLines(e)
    ensures forall i :: 0 <= i < |BeforeProxyLines(r)| ==> BeforeProxyLines(r)[i].0 != "Proxy-Authorization"
  {
    SentKeys(r.sendHeaders);
    CleanKeys();
    CleanToken(AUTHORIZATION, r.httpAuth);
    CleanAppend(Lines(r.sendHeaders), [(AUTHORIZATION, BasicToken(r.httpAuth))]);
  }

  /** The same for the line that a proxy reads, which holds the engine's credentials for
      the proxy: intact exactly when they have at most 54 bytes, unless the line before it
      is already broken. */
  lemma ProxyAuthorizationReadBack(e: Engine, r: Response, query: string)
    requires e.httpProxy == ProxyHttp && e.proxyAuth.0 != ""
    requires Clean(Lines(r.sendHeaders)) && "Proxy-Authorization" !in r.sendHeaders
    requires r.httpAuth.0 != "" ==> CredentialsLength(r.httpAuth) <= 54
    ensures var b := ParseLines(HeaderPart(e, r, query));
      && b.Block?
      && "Proxy-Authorization" in FirstValues(b.lines)
      && (FirstValues(b.lines)["Proxy-Authorization"] == "Basic " + Base64.Encode(e.proxyAuth.0 + ":" + e.proxyAuth.1)
          <==> CredentialsLength(e.proxyAuth) <= 54)
  {
    var tail, sent := CRLF + (CRLF + e.body), BeforeProxyLines(r);
    LastLinesParse(CRLF + e.body);
    CleanKeys();
    TokenFirst(PROXY_AUTHORIZATION, e.proxyAuth, LAST_LINES, tail);
    BeforeProxyLinesClean(e, r);
    var text := HeaderText(ProxyLines(e)) + tail;
    FirstLineAfter(sent, text, ParseLines(text));
    ProxyPartLayout(e, r, query, sent);
  }

  /** Without proxy mode, or without a user for the proxy, there is no such line. */
  lemma NoProxyAuthorization(e: Engine, r: Response, query: string)
    requires e.httpProxy != ProxyHttp || e.proxyAuth.0 == ""
    requires Clean(Lines(r.sendHeaders)) && "Proxy-Authorization" !in r.sendHeaders
    requires r.httpAuth.0 != "" ==> CredentialsLength(r.httpAuth) <= 54
    ensures var b := ParseLines(HeaderPart(e, r, query));
      b.Block? && "Proxy-Authorization" !in FirstValues(b.lines)
  {
    BeforeProxyLinesClean(e, r);
    CleanLastLines();
    CleanAppend(BeforeProxyLines(r), LAST_LINES);
    RequestHeadersParse(e, r, query);
    LastKeys();
    NoSuchKey(BeforeProxyLines(r), LAST_LINES, "Proxy-Authorization");
  }

  lemma LastKeys()
    ensures forall i :: 0 <= i < |LAST_LINES| ==> LAST_LINES[i].0 != "Proxy-Authorization"
  {
  }

  lemma NoSuchKey(a: seq<(string, string)>, b: seq<(string, string)>, key: string)
    requires forall i :: 0 <= i < |a| ==> a[i].0 != key
    requires forall i :: 0 <= i < |b| ==> b[i].0 != key
    ensures key !in FirstValues(a + b)
  {
    FirstValuesKeys(a + b, key);
  }

  // ---------- the request line ----------

  /** What is asked for when no proxy is asked: path and parameters of the URL. */
  function DirectTarget(p: UrlParts): string {
    (if p.path + p.file == "" then "/" else p.path + p.file) + p.query
  }

  lemma LineComesFirst(e: Engine, r: Response, query: string)
    ensures RequestLine(e, query) <= Request(e, r, query)
  {
  }

  /** Without a proxy, a request starts with verb, target and version, and the target is
      made of path and parameters of the URL alone. */
  lemma DirectRequest(run: Run, env: Environment, answer: Answer, p: UrlParts)
    requires Split(run.response.url) == Some(p) && answer.Answers?
    requires Addressed(run.engine, p, env).httpProxy == NoProxy
    ensures var next := NextHop(run, env, answer);
      && |next.requests| == |run.requests| + 1 && run.requests <= next.requests
      && run.engine.verb + " " + DirectTarget(p) + " " + run.engine.version + "\r\n" <= LastRequest(next)
  {
    var e := Addressed(run.engine, p, env);
    var r := Prepared(e, run.response, p);
    Sent(run, env, answer, p, e, r);
    DirectLine(run.engine, e, p, env);
    LineComesFirst(e, r, p.query);
  }

  lemma DirectLine(e: Engine, addressed: Engine, p: UrlParts, env: Environment)
    requires addressed == Addressed(e, p, env) && addressed.httpProxy == NoProxy
    ensures RequestLine(addressed, p.query) == e.verb + " " + DirectTarget(p) + " " + e.version + "\r\n"
    ensures addressed.url + p.query == DirectTarget(p)
  {
  }

  /** Through a proxy, the target names scheme, host and port as well; a port that is not
      in the URL is the default one. */
  lemma ProxiedRequest(run: Run, env: Environment, answer: Answer, p: UrlParts)
    requires Split(run.response.url) == Some(p) && answer.Answers?
    requires Lower(p.scheme) == "http" || Lower(p.scheme) == "https"
    requires Addressed(run.engine, p, env).httpProxy != NoProxy
    ensures var next := NextHop(run, env, answer);
      var port := if p.port != "" then p.port else if Lower(p.scheme) == "http" then "80" else "443";
      var target := Lower(p.scheme) + "://" + p.host + ":" + port + DirectTarget(p);
      && |next.requests| == |run.requests| + 1 && run.requests <= next.requests
      && run.engine.verb + " " + target + " " + run.engine.version + "\r\n" <= LastRequest(next)
  {
    var e := Addressed(run.engine, p, env);
    var r := Prepared(e, run.response, p);
    Sent(run, env, answer, p, e, r);
    ProxiedLine(run.engine, e, p, env);
    LineComesFirst(e, r, p.query);
  }

  lemma ProxiedLine(e: Engine, addressed: Engine, p: UrlParts, env: Environment)
    requires Lower(p.scheme) == "http" || Lower(p.scheme) == "https"
    requires addressed == Addressed(e, p, env) && addressed.httpProxy != NoProxy
    ensures var port := if p.port != "" then p.port else if Lower(p.scheme) == "http" then "80" else "443";
      var target := Lower(p.scheme) + "://" + p.host + ":" + port + DirectTarget(p);
      RequestLine(addressed, p.query) == e.verb + " " + target + " " + e.version + "\r\n"
  {
    if Lower(p.scheme) == "http" {
      HttpHost(e, p, env);
    } else {
      HttpsHost(e, p, env);
    }
    Associative(addressed.host, addressed.url, p.query);
  }

  lemma HttpHost(e: Engine, p: UrlParts, env: Environment)
    requires Lower(p.scheme) == "http"
    ensures var a := Addressed(e, p, env);
      && a.host == Lower(p.scheme) + "://" + p.host + ":" + (if p.port != "" then p.port else "80")
      && a.url + p.query == DirectTarget(p) && a.verb == e.verb && a.version == e.version
  {
  }

  lemma HttpsHost(e: Engine, p: UrlParts, env: Environment)
    requires Lower(p.scheme) == "https"
    ensures var a := Addressed(e, p, env);
      && a.host == Lower(p.scheme) + "://" + p.host + ":" + (if p.port != "" then p.port else "443")
      && a.url + p.query == DirectTarget(p) && a.verb == e.verb && a.version == e.version
  {
  }

  /** With a path, the target is the URL from behind host and port up to the fragment. */
  lemma TargetIsInUrl(url: string) returns (front: string, tail: string)
    requires Split(url).Some? && Split(url).value.path + Split(url).value.file != ""
    ensures var p := Split(url).value;
      && url == front + DirectTarget(p) + tail
      && front == (if p.scheme == "" then "" else p.scheme + "://") + p.host + (if p.port == "" then "" else ":" + p.port)
      && (tail == "" || tail[0] == '#')
  {
    var p := Split(url).value;
    tail := SplitMatches(url);
    front := JoinScheme(p.scheme) + p.host + JoinPort(p.port);
    JoinedTarget(front, p.path, p.file, p.query);
  }

  lemma JoinedTarget(front: string, path: string, file: string, query: string)
    ensures front + path + file + query == front + ((path + file) + query)
  {
  }

  /** A server that is asked directly reads the target, when the request can be read at all. */
  lemma DirectTargetReadsBack(run: Run, env: Environment, answer: Answer, p: UrlParts, e: Engine, r: Response)
    requires Split(run.response.url) == Some(p) && answer.Answers?
    requires e == Addressed(run.engine, p, env) && e.httpProxy == NoProxy && r == Prepared(e, run.response, p)
    requires Readable(e, r, p.query)
    ensures var next := NextHop(run, env, answer);
      && next.requests != []
      && var reading := ReadRequest(LastRequest(next));
        && reading.Some? && reading.value.target == DirectTarget(p)
        && reading.value.verb == run.engine.verb && reading.value.version == run.engine.version
  {
    Sent(run, env, answer, p, e, r);
    DirectLine(run.engine, e, p, env);
    RequestReadsBack(e, r, p.query);
  }

  // ---------- where a request goes ----------

  /** An http URL: a plain connection to port 80 or the one named, and a Host line with the
      host alone. */
  lemma HttpAddress(e: Engine, r: Response, p: UrlParts, env: Environment)
    requires Lower(p.scheme) == "http"
    ensures var port := if p.port == "" then "80" else p.port;
      Addressed(e, p, env) == e.(httpType := PlainHttp,
        url := if p.path + p.file == "" then "/" else p.path + p.file,
        host := "http://" + p.host + ":" + port, targetUrl := p.host + ":" + port,
        httpProxy := if env.httpProxy != "" then ProxyHttp else e.httpProxy)
    ensures WithHost(r, p) == r.(sendHeaders := r.sendHeaders["Host" := p.host])
  {
  }

  /** An https URL: TLS, port 443, and the other proxy variable. */
  lemma HttpsAddress(e: Engine, r: Response, p: UrlParts, env: Environment)
    requires Lower(p.scheme) == "https"
    ensures var port := if p.port == "" then "443" else p.port;
      Addressed(e, p, env) == e.(httpType := SslHttps,
        url := if p.path + p.file == "" then "/" else p.path + p.file,
        host := "https://" + p.host + ":" + port, targetUrl := p.host + ":" + port,
        httpProxy := if env.httpsProxy != "" then ProxyHttp else e.httpProxy)
    ensures WithHost(r, p) == r.(sendHeaders := r.sendHeaders["Host" := p.host])
  {
  }

  /** Any other scheme changes the path only. */
  lemma OtherAddress(e: Engine, r: Response, p: UrlParts, env: Environment)
    requires Lower(p.scheme) != "http" && Lower(p.scheme) != "https"
    ensures Addressed(e, p, env) == e.(url := if p.path + p.file == "" then "/" else p.path + p.file)
    ensures WithHost(r, p) == r
  {
  }

  // ---------- the absolute form of the target ----------

  /** A URL with the defaults filled in. */
  function Normalised(p: UrlParts, defaultPort: string): UrlParts {
    UrlParts(Lower(p.scheme), p.host, PortOr(p, defaultPort), if p.path + p.file == "" then "/" else p.path, p.file,
             p.query)
  }

  function DefaultPort(p: UrlParts): string {
    if Lower(p.scheme) == HTTP then HTTP_PORT else HTTPS_PORT
  }

  lemma LowerIsLower(s: string)
    ensures Lower(Lower(s)) == Lower(s)
    ensures Free(s, Delimiter) ==> Free(Lower(s), Delimiter)
  {
    if Free(s, Delimiter) {
      forall i | 0 <= i < |s| ensures !In(Lower(s)[i], Delimiter) {
        assert !In(s[i], Delimiter);
      }
    }
  }

  lemma NormalisedIsCanonical(p: UrlParts, defaultPort: string)
    requires Canonical(p) && p.scheme != "" && AllDigits(defaultPort) && defaultPort != ""
    ensures Canonical(Normalised(p, defaultPort))
  {
    LowerIsLower(p.scheme);
    assert !IsDigit('/') && !IsDigit(':');
  }

  lemma NormalisedTwice(p: UrlParts, defaultPort: string)
    requires defaultPort != ""
    ensures Normalised(Normalised(p, defaultPort), defaultPort) == Normalised(p, defaultPort)
  {
    LowerIsLower(p.scheme);
  }

  lemma JoinNormalised(p: UrlParts, defaultPort: string)
    requires p.scheme != "" && defaultPort != ""
    ensures Join(Normalised(p, defaultPort)) == HostAddress(Lower(p.scheme), p, defaultPort) + RequestPath(p) + p.query
  {
    var q := Normalised(p, defaultPort);
    assert q.path + q.file == RequestPath(p);
    JoinLayout(Lower(p.scheme), p.host, PortOr(p, defaultPort), q.path, q.file, p.query);
  }

  lemma JoinLayout(scheme: string, host: string, port: string, path: string, file: string, query: string)
    ensures (scheme + "://") + host + (":" + port) + path + file + query
         == (scheme + "://" + host + ":" + port) + (path + file) + query
  {
  }

  /** For http and https URLs that are fetched through a proxy, the target on the request
      line splits into the normalised pieces of the URL, and the engine makes the same
      target of it again. */
  lemma AbsoluteTargetRoundTrip(url: string, e: Engine, env: Environment)
    requires Split(url).Some? && IsHttp(Split(url).value)
    requires Addressed(e, Split(url).value, env).httpProxy != NoProxy
    ensures var p := Split(url).value;
      var q := Normalised(p, DefaultPort(p));
      var target := Target(Addressed(e, p, env), p.query);
      && Split(target) == Some(q)
      && Target(Addressed(e, q, env), q.query) == target
  {
    var p := Split(url).value;
    var port := DefaultPort(p);
    var q := Normalised(p, port);
    SplitIsCanonical(url);
    PortsAreDigits();
    NormalisedIsCanonical(p, port);
    JoinNormalised(p, port);
    SplitJoined(q);
    NormalisedTwice(p, port);
    JoinNormalised(q, port);
    AddressedTarget(e, p, env);
    AddressedTarget(e, q, env);
  }

  lemma PortsAreDigits()
    ensures AllDigits(HTTP_PORT) && AllDigits(HTTPS_PORT)
  {
  }

  lemma AddressedTarget(e: Engine, p: UrlParts, env: Environment)
    requires IsHttp(p) && Addressed(e, p, env).httpProxy != NoProxy
    ensures p.scheme != ""
    ensures Target(Addressed(e, p, env), p.query)
         == HostAddress(Lower(p.scheme), p, DefaultPort(p)) + RequestPath(p) + p.query
  {
  }

  // ---------- the name of the stored file ----------

  /** The name that the file sink takes from a URL is the last segment of the path that
      is requested; a URL that does not split leaves the name as it was. Nothing else but
      the URL changes. */
  lemma FileNameIsLastSegment(r: Response, url: string)
    requires r.sink == File
    ensures WithUrl(r, url) == r.(url := url, file := r.file.(filename := WithUrl(r, url).file.filename))
    ensures Split(url).Some? ==>
      var path := RequestPath(Split(url).value);
      WithUrl(r, url).file.filename == path[AfterLastSlash(path)..]
    ensures Split(url).None? ==> WithUrl(r, url).file.filename == r.file.filename
  {
    if Split(url).Some? {
      var p := Split(url).value;
      SplitIsCanonical(url);
      LastSlashPast(p.path, p.file);
      assert (p.path + p.file)[|p.path|..] == p.file;
      assert "/"[AfterLastSlash("/")..] == "";
    }
  }
}
