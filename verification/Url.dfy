/** The URL splitter shared by the engine and the file sink: the six capture groups
    of their regular expression, computed by one scan, and the proof that the scan
    finds what a backtracking, greedy matcher would find. */
module Url {
  import opened Text

  /** The groups protocol, host, port, path and file, and the group for the
      parameters with its question mark; a group that takes no part is empty. */
  datatype UrlParts = UrlParts(scheme: string, host: string, port: string,
                               path: string, file: string, query: string)

  /** `\w` in the C locale */
  predicate IsWord(c: char) {
    'a' <= c <= 'z' || 'A' <= c <= 'Z' || IsDigit(c) || c == '_'
  }

  /** The codes of the word characters: digits, capitals, underscore and small letters. */
  lemma WordCharacters(c: char)
    ensures IsWord(c) <==>
      48 <= c as int <= 57 || 65 <= c as int <= 90 || c as int == 95 || 97 <= c as int <= 122
  {
  }

  /** `to_lower` in the C locale */
  function Lower(s: string): (t: string)
    ensures |t| == |s|
    ensures forall i :: 0 <= i < |s| ==> t[i] == if 'A' <= s[i] <= 'Z' then (s[i] as int + 32) as char else s[i]
  {
    seq(|s|, i requires 0 <= i < |s| => if 'A' <= s[i] <= 'Z' then (s[i] as int + 32) as char else s[i])
  }

  function IndexOfNonDigit(s: string): (i: nat)
    ensures i <= |s|
    ensures AllDigits(s[..i])
    ensures i < |s| ==> !IsDigit(s[i])
  {
    if s == [] || !IsDigit(s[0]) then 0 else 1 + IndexOfNonDigit(s[1..])
  }

  /** Position just after the last slash of `s`, or 0. */
  function AfterLastSlash(s: string): (i: nat)
    ensures i <= |s|
    ensures i == 0 || s[i - 1] == '/'
    ensures forall j :: i <= j < |s| ==> s[j] != '/'
  {
    if s == [] || s[|s| - 1] == '/' then |s|
    else
      AfterLastSlash(s[..|s| - 1])
  }

  /** Length of the `:digits` at the front of `s`, 0 if there is none. */
  function PortLength(s: string): (d: nat)
    ensures d <= |s|
    ensures d != 1
    ensures d > 0 ==> s[0] == ':' && forall j :: 1 <= j < d ==> IsDigit(s[j])
    ensures d > 0 && d < |s| ==> !IsDigit(s[d])
    ensures d == 0 ==> s == [] || s[0] != ':' || |s| == 1 || !IsDigit(s[1])
  {
    if s != [] && s[0] == ':' && |s| > 1 && IsDigit(s[1]) then
      var d := IndexOfNonDigit(s[1..]);
      assert forall j :: 0 <= j < d ==> s[1..][..d][j] == s[j + 1];
      1 + d
    else 0
  }

  /** What is left of the URL after the match: nothing, or a fragment. */
  predicate IsFragment(tail: string) {
    tail == "" || tail[0] == '#'
  }

  /** Length of path and file together: everything up to a '?' or a '#'. */
  function FileEnd(r: string): (e: nat)
    ensures e <= |r|
    ensures Free(r[..e], QueryStart)
    ensures e < |r| ==> r[e] == '?' || r[e] == '#'
  {
    Find(r, QueryStart)
  }

  function QueryOf(r: string): (query: string)
    ensures query == "" || (query[0] == '?' && query == r[FileEnd(r)..])
    ensures query == "" ==> IsFragment(r[FileEnd(r)..])
  {
    if FileEnd(r) < |r| && r[FileEnd(r)] == '?' then r[FileEnd(r)..] else ""
  }

  /** Everything after the port. */
  function SplitRest(scheme: string, host: string, port: string, r: string): (p: UrlParts)
    ensures p.scheme == scheme && p.host == host && p.port == port
  {
    var e := FileEnd(r);
    var f := AfterLastSlash(r[..e]);
    UrlParts(scheme, host, port, r[..f], r[f..e], QueryOf(r))
  }

  /** Everything after the scheme. */
  function SplitAuthority(scheme: string, t: string): (p: UrlParts)
    ensures p.scheme == scheme
  {
    var h := Find(t, Delimiter);
    var d := PortLength(t[h..]);
    SplitRest(scheme, t[..h], if d == 0 then "" else t[h..][1..d], t[h..][d..])
  }

  /** `s` has "://" and a word character at position `i`. */
  predicate SchemeEndsAt(s: string, i: nat) {
    i + 3 < |s| && s[i..i + 3] == "://" && IsWord(s[i + 3])
  }

  /** The groups of the match, or None when the expression does not match. */
  function Split(s: string): Option<UrlParts> {
    var i := Find(s, Delimiter);
    if 0 < i && SchemeEndsAt(s, i) then
      Some(SplitAuthority(s[..i], s[i + 3..]))
    else if s != [] && IsWord(s[0]) then
      Some(SplitAuthority("", s))
    else
      None
  }

  // ---------- the regular expression ----------

  function JoinScheme(scheme: string): string {
    if scheme == "" then "" else scheme + "://"
  }

  function JoinPort(port: string): string {
    if port == "" then "" else ":" + port
  }

  function Join(p: UrlParts): string {
    JoinScheme(p.scheme) + p.host + JoinPort(p.port) + p.path + p.file + p.query
  }

  /** The strings each group may hold. The file group may hold a slash as far as
      the expression is concerned. */
  predicate InGroups(p: UrlParts) {
    && Free(p.scheme, Delimiter)
    && p.host != "" && IsWord(p.host[0]) && Free(p.host, Delimiter)
    && AllDigits(p.port)
    && Free(p.path, QueryStart) && (p.path == "" || p.path[|p.path| - 1] == '/')
    && Free(p.file, QueryStart)
    && (p.query == "" || p.query[0] == '?')
  }

  /** `p` is one way of matching the expression at the start of `s`, leaving `tail`. */
  predicate Matches(s: string, p: UrlParts, tail: string) {
    InGroups(p) && s == Join(p) + tail
  }

  predicate Higher(a: nat, b: nat, next: bool) {
    a > b || (a == b && next)
  }

  /** A backtracking matcher tries the scheme before no scheme and longer groups
      before shorter ones, from left to right. */
  predicate TriedNoLater(p: UrlParts, q: UrlParts) {
    Higher(|JoinScheme(p.scheme)|, |JoinScheme(q.scheme)|,
      Higher(|p.host|, |q.host|,
        Higher(|p.port|, |q.port|,
          Higher(|p.path|, |q.path|,
            Higher(|p.file|, |q.file|, |p.query| >= |q.query|)))))
  }

  function JoinRest(p: UrlParts): string {
    p.path + p.file + p.query
  }

  lemma RestMatches(scheme: string, host: string, port: string, r: string) returns (tail: string)
    ensures r == JoinRest(SplitRest(scheme, host, port, r)) + tail
    ensures IsFragment(tail) && (QueryOf(r) != "" ==> tail == "")
  {
    var e := FileEnd(r);
    tail := if QueryOf(r) == "" then r[e..] else "";
    ThreeWays(r, AfterLastSlash(r[..e]), e);
  }

  lemma RestInGroups(scheme: string, host: string, port: string, r: string)
    ensures var p := SplitRest(scheme, host, port, r);
      && Free(p.path, QueryStart) && (p.path == "" || p.path[|p.path| - 1] == '/')
      && Free(p.file, QueryStart) && '/' !in p.file
  {
    var e := FileEnd(r);
    var f := AfterLastSlash(r[..e]);
    assert forall i :: 0 <= i < f ==> r[..f][i] == r[..e][i];
    assert forall i :: 0 <= i < e - f ==> r[f..e][i] == r[..e][f + i];
  }

  lemma ThreeWays(r: string, f: nat, e: nat)
    requires f <= e <= |r|
    ensures r == r[..f] + r[f..e] + r[e..]
  {
  }

  lemma PortMatches(u: string)
    ensures var d := PortLength(u); u == JoinPort(if d == 0 then "" else u[1..d]) + u[d..]
  {
  }

  lemma HostInGroup(t: string)
    requires t != [] && IsWord(t[0])
    ensures var host := t[..Find(t, Delimiter)];
      host != "" && IsWord(host[0]) && Free(host, Delimiter)
  {
  }

  lemma PortInGroup(u: string)
    ensures AllDigits(if PortLength(u) == 0 then "" else u[1..PortLength(u)])
  {
  }

  lemma AuthorityInGroups(scheme: string, t: string)
    requires t != [] && IsWord(t[0]) && Free(scheme, Delimiter)
    ensures InGroups(SplitAuthority(scheme, t))
  {
    var h := Find(t, Delimiter);
    HostInGroup(t);
    HostedInGroups(scheme, t[..h], t[h..]);
  }

  lemma HostedInGroups(scheme: string, host: string, u: string)
    requires Free(scheme, Delimiter) && host != "" && IsWord(host[0]) && Free(host, Delimiter)
    ensures var d := PortLength(u);
      InGroups(SplitRest(scheme, host, if d == 0 then "" else u[1..d], u[d..]))
  {
    var d := PortLength(u);
    PortInGroup(u);
    RestInGroups(scheme, host, if d == 0 then "" else u[1..d], u[d..]);
  }

  lemma PortAndRest(scheme: string, host: string, u: string) returns (tail: string)
    ensures var d := PortLength(u);
      var port := if d == 0 then "" else u[1..d];
      u == JoinPort(port) + (JoinRest(SplitRest(scheme, host, port, u[d..])) + tail)
    ensures IsFragment(tail) && (QueryOf(u[PortLength(u)..]) != "" ==> tail == "")
  {
    var d := PortLength(u);
    PortMatches(u);
    tail := RestMatches(scheme, host, if d == 0 then "" else u[1..d], u[d..]);
  }

  lemma TakeDrop(s: string, i: nat)
    requires i <= |s|
    ensures s == s[..i] + s[i..]
  {
  }

  lemma AuthorityPieces(scheme: string, t: string) returns (tail: string)
    ensures var p := SplitAuthority(scheme, t); t == p.host + (JoinPort(p.port) + (JoinRest(p) + tail))
    ensures IsFragment(tail)
    ensures SplitAuthority(scheme, t).query != "" ==> tail == ""
  {
    var h := Find(t, Delimiter);
    tail := PortAndRest(scheme, t[..h], t[h..]);
    TakeDrop(t, h);
  }

  lemma AuthorityMatches(scheme: string, t: string) returns (tail: string)
    ensures JoinScheme(scheme) + t == Join(SplitAuthority(scheme, t)) + tail
    ensures IsFragment(tail)
    ensures SplitAuthority(scheme, t).query != "" ==> tail == ""
  {
    tail := AuthorityPieces(scheme, t);
    Regroup(JoinScheme(scheme), SplitAuthority(scheme, t), tail);
  }

  lemma Regroup(scheme: string, p: UrlParts, tail: string)
    ensures scheme + (p.host + (JoinPort(p.port) + (JoinRest(p) + tail)))
         == scheme + p.host + JoinPort(p.port) + p.path + p.file + p.query + tail
  {
  }

  lemma SchemeMatches(s: string, i: nat)
    requires 0 < i && i + 3 <= |s| && s[i..i + 3] == "://"
    ensures s == JoinScheme(s[..i]) + s[i + 3..]
  {
    assert s == s[..i] + s[i..i + 3] + s[i + 3..];
  }

  /** `p` matches at the start of `s`, and only a fragment is left over; with parameters
      there is nothing left, so a fragment after them counts as part of them. */
  predicate MatchesWhole(s: string, p: UrlParts, tail: string) {
    Matches(s, p, tail) && IsFragment(tail) && (p.query != "" ==> tail == "")
  }

  lemma AuthoritySplit(scheme: string, t: string) returns (tail: string)
    requires t != [] && IsWord(t[0]) && Free(scheme, Delimiter)
    ensures MatchesWhole(JoinScheme(scheme) + t, SplitAuthority(scheme, t), tail)
  {
    AuthorityInGroups(scheme, t);
    tail := AuthorityMatches(scheme, t);
  }

  lemma SchemeSplit(s: string, i: nat) returns (tail: string)
    requires 0 < i && SchemeEndsAt(s, i) && Free(s[..i], Delimiter)
    ensures MatchesWhole(s, SplitAuthority(s[..i], s[i + 3..]), tail)
  {
    SchemeMatches(s, i);
    tail := AuthoritySplit(s[..i], s[i + 3..]);
  }

  lemma PlainSplit(s: string) returns (tail: string)
    requires s != [] && IsWord(s[0])
    ensures MatchesWhole(s, SplitAuthority("", s), tail)
  {
    tail := AuthoritySplit("", s);
    assert JoinScheme("") + s == s;
  }

  /** The split is a match that takes the whole URL but for a fragment. */
  lemma SplitMatches(s: string) returns (tail: string)
    requires Split(s).Some?
    ensures MatchesWhole(s, Split(s).value, tail)
  {
    var i := Find(s, Delimiter);
    if 0 < i && SchemeEndsAt(s, i) {
      tail := SchemeSplit(s, i);
    } else {
      tail := PlainSplit(s);
    }
  }

  // ---------- the split is the match a greedy, backtracking matcher finds ----------

  lemma FileEndPast(front: string, more: string)
    requires Free(front, QueryStart)
    ensures FileEnd(front + more) >= |front|
    ensures more == "" || In(more[0], QueryStart) ==> FileEnd(front + more) == |front|
  {
    var r := front + more;
    assert forall i :: 0 <= i < |front| ==> r[i] == front[i];
    assert more != "" ==> r[|front|] == more[0];
  }

  lemma LastSlashPast(path: string, more: string)
    requires path == "" || path[|path| - 1] == '/'
    ensures AfterLastSlash(path + more) >= |path|
    ensures '/' !in more ==> AfterLastSlash(path + more) == |path|
  {
    var s := path + more;
    assert path != "" ==> s[|path| - 1] == '/';
    assert forall i :: |path| <= i < |s| ==> s[i] == more[i - |path|];
  }

  lemma RestLengths(r: string, path: string, file: string, more: string)
    requires r == (path + file) + more && Free(path + file, QueryStart)
    requires path == "" || path[|path| - 1] == '/'
    ensures FileEnd(r) >= |path + file| && AfterLastSlash(r[..FileEnd(r)]) >= |path|
  {
    FileEndPast(path + file, more);
    var later := r[|path|..FileEnd(r)];
    assert r[..FileEnd(r)] == path + later;
    LastSlashPast(path, later);
  }

  lemma QueryGreedy(r: string, front: string, query: string, tail: string)
    requires r == front + (query + tail) && FileEnd(r) == |front|
    requires query == "" || query[0] == '?'
    ensures |QueryOf(r)| >= |query|
  {
    if query != "" {
      assert r[|front|] == (query + tail)[0] == query[0];
    }
  }

  lemma RestGreedy(p: UrlParts, q: UrlParts, r: string, tail: string)
    requires p == SplitRest(p.scheme, p.host, p.port, r)
    requires r == JoinRest(q) + tail
    requires Free(q.path + q.file, QueryStart)
    requires q.path == "" || q.path[|q.path| - 1] == '/'
    requires q.query == "" || q.query[0] == '?'
    ensures Higher(|p.path|, |q.path|, Higher(|p.file|, |q.file|, |p.query| >= |q.query|))
  {
    var front := q.path + q.file;
    Associative(front, q.query, tail);
    RestLengths(r, q.path, q.file, q.query + tail);
    if FileEnd(r) == |front| {
      QueryGreedy(r, front, q.query, tail);
    }
  }

  lemma PortGreedy(u: string, port: string, rest: string)
    requires u == JoinPort(port) + rest && AllDigits(port)
    ensures PortLength(u) > |JoinPort(port)| || (PortLength(u) == |JoinPort(port)| && u[PortLength(u)..] == rest)
  {
    var d, n := PortLength(u), |JoinPort(port)|;
    assert forall i :: 1 <= i < n ==> u[i] == port[i - 1];
    assert u[n..] == rest;
  }

  lemma HostGreedy(t: string, host: string, rest: string)
    requires t == host + rest && Free(host, Delimiter)
    ensures var h := Find(t, Delimiter); h > |host| || (h == |host| && t[h..] == rest)
  {
    assert forall i :: 0 <= i < |host| ==> t[i] == host[i];
    assert t[|host|..] == rest;
  }

  lemma FreeAppend(a: string, b: string, k: Class)
    ensures Free(a + b, k) <==> Free(a, k) && Free(b, k)
  {
    assert forall i :: 0 <= i < |a| ==> (a + b)[i] == a[i];
    assert forall i :: 0 <= i < |b| ==> (a + b)[|a| + i] == b[i];
  }

  lemma AuthorityGreedy(scheme: string, t: string, q: UrlParts, tail: string)
    requires InGroups(q)
    requires t == q.host + (JoinPort(q.port) + (JoinRest(q) + tail))
    ensures var p := SplitAuthority(scheme, t);
      Higher(|p.host|, |q.host|, Higher(|p.port|, |q.port|,
        Higher(|p.path|, |q.path|, Higher(|p.file|, |q.file|, |p.query| >= |q.query|))))
  {
    var p := SplitAuthority(scheme, t);
    HostGreedy(t, q.host, JoinPort(q.port) + (JoinRest(q) + tail));
    if |p.host| == |q.host| {
      var u := JoinPort(q.port) + (JoinRest(q) + tail);
      PortGreedy(u, q.port, JoinRest(q) + tail);
      if |p.port| == |q.port| {
        FreeAppend(q.path, q.file, QueryStart);
        RestGreedy(p, q, JoinRest(q) + tail, tail);
      }
    }
  }

  lemma SchemeGreedy(s: string, q: UrlParts, t: string)
    requires Free(q.scheme, Delimiter) && t != "" && IsWord(t[0])
    requires s == JoinScheme(q.scheme) + t
    ensures Split(s).Some?
    ensures |JoinScheme(Split(s).value.scheme)| >= |JoinScheme(q.scheme)|
    ensures |JoinScheme(Split(s).value.scheme)| == |JoinScheme(q.scheme)|
        ==> Split(s).value == SplitAuthority(q.scheme, t)
    ensures q.scheme != "" ==> Split(s).value == SplitAuthority(q.scheme, t)
  {
    if q.scheme != "" {
      assert s == q.scheme + [':'] + ("//" + t);
      FindAt(q.scheme, ':', "//" + t, Delimiter);
      assert s[..|q.scheme|] == q.scheme && s[|q.scheme| + 3..] == t;
    } else {
      assert s == t;
    }
  }

  /** The expression matches at the start of `s` exactly when the scan succeeds, and
      no other match is tried before the one the scan returns. */
  lemma SplitIsFirstMatch(s: string, q: UrlParts, tail: string)
    requires Matches(s, q, tail)
    ensures Split(s).Some? && TriedNoLater(Split(s).value, q)
  {
    var t := q.host + (JoinPort(q.port) + (JoinRest(q) + tail));
    Regroup(JoinScheme(q.scheme), q, tail);
    assert t[0] == q.host[0];
    SchemeGreedy(s, q, t);
    AuthorityGreedy(q.scheme, t, q, tail);
  }

  // ---------- pieces that survive joining ----------

  /** Pieces that cannot be confused with their neighbours once joined. */
  predicate Canonical(p: UrlParts) {
    var r := p.path + p.file;
    && InGroups(p)
    && '/' !in p.file
    && (r == "" || r[0] == '/' || (if p.port == "" then r[0] == ':' && (|r| == 1 || !IsDigit(r[1]))
                                   else !IsDigit(r[0])))
    && (p.scheme == "" && p.port == "" ==> !SchemeEndsAt(r, 0))
  }

  lemma RestJoin(p: UrlParts)
    requires Free(p.path + p.file, QueryStart)
    requires p.path == "" || p.path[|p.path| - 1] == '/'
    requires '/' !in p.file
    requires p.query == "" || p.query[0] == '?'
    ensures SplitRest(p.scheme, p.host, p.port, JoinRest(p)) == p
  {
    var front := p.path + p.file;
    assert JoinRest(p) == front + p.query;
    FileEndPast(front, p.query);
    LastSlashPast(p.path, p.file);
    assert JoinRest(p)[..|front|] == front && JoinRest(p)[|front|..] == p.query;
  }

  lemma PortJoin(port: string, rest: string)
    requires AllDigits(port)
    requires StartsRest(port, rest)
    ensures PortLength(JoinPort(port) + rest) == |JoinPort(port)|
  {
    var u := JoinPort(port) + rest;
    PortGreedy(u, port, rest);
    var n := |JoinPort(port)|;
    assert rest != "" ==> u[n] == rest[0];
    assert |rest| > 1 ==> u[n + 1] == rest[1];
  }

  lemma HostJoin(host: string, rest: string)
    requires Free(host, Delimiter)
    requires rest == "" || rest[0] == '/' || rest[0] == '?' || rest[0] == ':'
    ensures Find(host + rest, Delimiter) == |host|
  {
    HostGreedy(host + rest, host, rest);
    if rest != "" {
      assert (host + rest)[|host|] == rest[0];
    }
  }

  /** What may follow the host, and what may follow a port. */
  predicate StartsRest(port: string, r: string) {
    r == "" || if port == "" then r[0] == '/' || r[0] == '?' || (r[0] == ':' && (|r| == 1 || !IsDigit(r[1])))
               else !IsDigit(r[0])
  }

  lemma RestStart(p: UrlParts)
    requires Canonical(p)
    ensures StartsRest(p.port, JoinRest(p))
  {
    var r, front := JoinRest(p), p.path + p.file;
    if front == "" {
      assert r == p.query;
    } else {
      assert r[0] == front[0];
      assert |r| > 1 ==> r[1] == if |front| > 1 then front[1] else p.query[0];
    }
  }

  lemma PortPieces(port: string, r: string)
    requires AllDigits(port) && StartsRest(port, r)
    ensures var u := JoinPort(port) + r; var d := PortLength(u);
      && (u == "" || u[0] == '/' || u[0] == '?' || u[0] == ':')
      && u[d..] == r
      && (if d == 0 then "" else u[1..d]) == port
  {
    PortJoin(port, r);
    var u := JoinPort(port) + r;
    assert u[|JoinPort(port)|..] == r;
    assert port != "" ==> u[1..|JoinPort(port)|] == port;
  }

  lemma AuthorityJoin(p: UrlParts)
    requires Canonical(p)
    ensures SplitAuthority(p.scheme, p.host + (JoinPort(p.port) + JoinRest(p))) == p
  {
    CanonicalRest(p);
    RestStart(p);
    var r := JoinRest(p);
    PortPieces(p.port, r);
    HostPieces(p.scheme, p.host, JoinPort(p.port) + r);
  }

  lemma CanonicalRest(p: UrlParts)
    requires Canonical(p)
    ensures SplitRest(p.scheme, p.host, p.port, JoinRest(p)) == p
  {
    FreeAppend(p.path, p.file, QueryStart);
    RestJoin(p);
  }

  lemma HostPieces(scheme: string, host: string, u: string)
    requires Free(host, Delimiter)
    requires u == "" || u[0] == '/' || u[0] == '?' || u[0] == ':'
    ensures SplitAuthority(scheme, host + u) ==
      SplitRest(scheme, host, if PortLength(u) == 0 then "" else u[1..PortLength(u)], u[PortLength(u)..])
  {
    HostJoin(host, u);
    var t := host + u;
    assert t[|host|..] == u && t[..|host|] == host;
  }

  /** Without a scheme the pieces must not look as if they had one. */
  lemma NoSchemeJoin(p: UrlParts)
    requires Canonical(p) && p.scheme == ""
    ensures var t := p.host + (JoinPort(p.port) + JoinRest(p));
      Split(t) == Some(SplitAuthority("", t))
  {
    var u := JoinPort(p.port) + JoinRest(p);
    RestStart(p);
    CanonicalPortPieces(p, u);
    HostJoin(p.host, u);
    assert (p.host + u)[0] == p.host[0];
    if SchemeEndsAt(p.host + u, |p.host|) {
      SchemeEndLater(p.host, u);
      NotASchemeJoin(p, u);
    }
  }

  lemma CanonicalPortPieces(p: UrlParts, u: string)
    requires Canonical(p) && u == JoinPort(p.port) + JoinRest(p)
    ensures u == "" || u[0] == '/' || u[0] == '?' || u[0] == ':'
  {
    RestStart(p);
    PortPieces(p.port, JoinRest(p));
  }

  lemma SchemeEndLater(host: string, u: string)
    requires SchemeEndsAt(host + u, |host|)
    ensures SchemeEndsAt(u, 0)
  {
    assert (host + u)[|host|..|host| + 3] == u[0..3];
    assert (host + u)[|host| + 3] == u[3];
  }

  lemma PortStart(port: string, rest: string)
    requires AllDigits(port) && port != ""
    ensures !SchemeEndsAt(JoinPort(port) + rest, 0)
  {
    var u := JoinPort(port) + rest;
    assert u[1] == port[0];
    if |u| > 3 {
      assert u[0..3][1] == port[0];
    }
  }

  lemma NotASchemeJoin(p: UrlParts, u: string)
    requires Canonical(p) && p.scheme == "" && u == JoinPort(p.port) + JoinRest(p)
    ensures !SchemeEndsAt(u, 0)
  {
    if p.port != "" {
      PortStart(p.port, JoinRest(p));
    } else {
      assert u == (p.path + p.file) + p.query;
      NotInQuery(p.path + p.file, p.query);
    }
  }

  lemma NotInQuery(r: string, query: string)
    requires !SchemeEndsAt(r, 0) && (query == "" || query[0] == '?')
    ensures !SchemeEndsAt(r + query, 0)
  {
    var u := r + query;
    if |r| > 3 {
      assert u[0..3] == r[0..3] && u[3] == r[3];
    } else if query != "" {
      assert u[|r|] == '?';
      if |r| < 3 && |u| > 3 {
        assert u[0..3][|r|] == '?';
      }
    } else {
      assert u == r;
    }
  }

  lemma JoinedAuthority(p: UrlParts)
    ensures Join(p) == JoinScheme(p.scheme) + (p.host + (JoinPort(p.port) + JoinRest(p)))
    ensures p.scheme == "" ==> Join(p) == p.host + (JoinPort(p.port) + JoinRest(p))
  {
  }

  /** Splitting what was joined returns the pieces. */
  lemma SplitJoined(p: UrlParts)
    requires Canonical(p)
    ensures Split(Join(p)) == Some(p)
  {
    var t := p.host + (JoinPort(p.port) + JoinRest(p));
    AuthorityJoin(p);
    JoinedAuthority(p);
    assert t[0] == p.host[0];
    if p.scheme == "" {
      NoSchemeJoin(p);
    } else {
      SchemeGreedy(Join(p), p, t);
    }
  }

  /** ... and a split always returns such pieces, so joining and splitting are
      inverse exactly on them. */
  lemma SplitIsCanonical(s: string)
    requires Split(s).Some?
    ensures Canonical(Split(s).value)
  {
    var tail := SplitMatches(s);
    var i := Find(s, Delimiter);
    if 0 < i && SchemeEndsAt(s, i) {
      AuthorityCanonical(s[..i], s[i + 3..]);
    } else {
      AuthorityCanonical("", s);
      NoSchemeCanonical(s);
    }
  }

  lemma RestPrefix(scheme: string, host: string, port: string, x: string)
    ensures var p := SplitRest(scheme, host, port, x);
      p.path + p.file == x[..FileEnd(x)] && '/' !in p.file
  {
    RestInGroups(scheme, host, port, x);
  }

  predicate PortBoundary(port: string, r: string) {
    r == "" || (if port == "" then r[0] != ':' || |r| == 1 || !IsDigit(r[1]) else !IsDigit(r[0]))
  }

  lemma AfterPort(u: string)
    ensures PortBoundary(if PortLength(u) == 0 then "" else u[1..PortLength(u)], u[PortLength(u)..])
  {
  }

  lemma AfterHost(t: string)
    ensures var u := t[Find(t, Delimiter)..]; u == "" || In(u[0], Delimiter)
  {
  }

  lemma AuthorityCanonical(scheme: string, t: string)
    ensures var p := SplitAuthority(scheme, t); var r := p.path + p.file;
      && '/' !in p.file
      && (r == "" || r[0] == '/' || (if p.port == "" then r[0] == ':' && (|r| == 1 || !IsDigit(r[1]))
                                     else !IsDigit(r[0])))
  {
    var p := SplitAuthority(scheme, t);
    var u := t[Find(t, Delimiter)..];
    var x := u[PortLength(u)..];
    RestPrefix(scheme, p.host, p.port, x);
    AfterPort(u);
    AfterHost(t);
  }

  lemma SchemeEndMoves(s: string, h: nat, n: nat)
    requires h + n <= |s|
    ensures SchemeEndsAt(s[h..][..n], 0) ==> SchemeEndsAt(s, h)
  {
    if SchemeEndsAt(s[h..][..n], 0) {
      assert s[h..h + 3] == s[h..][..n][0..3];
    }
  }

  lemma NoSchemeCanonical(s: string)
    requires !SchemeEndsAt(s, Find(s, Delimiter))
    ensures var p := SplitAuthority("", s); p.port == "" ==> !SchemeEndsAt(p.path + p.file, 0)
  {
    var p := SplitAuthority("", s);
    var h := Find(s, Delimiter);
    var u := s[h..];
    RestPrefix("", p.host, p.port, u[PortLength(u)..]);
    if p.port == "" {
      assert u[PortLength(u)..] == u;
      SchemeEndMoves(s, h, FileEnd(u));
    }
  }
}
