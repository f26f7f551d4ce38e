/** Redirects with a file sink. The flush after each read opens the file, also during the
    headers, so a redirect that arrives in more than one read leaves the file open, and the
    document is stored under the name of the URL that redirected. */
module FileRedirect {
  import opened OrderedMap
  import opened Responses
  import opened FileName
  import opened Parser
  import opened Grammar
  import opened Url
  import opened Follow
  import opened Engines
  import opened FileSink
  import opened FileHead
  import opened FileContents

  // ---------- one answer ----------

  lemma EndsEarly(m: Machine, h: Head)
    requires HeadRead(m, h) && h.status >= 300
    ensures var followed := Followed(h, m.redirtimes);
      && EndOfHeaders(m).control == Returned(followed)
      && EndOfHeaders(m).redirtimes == m.redirtimes + (if IsRedirect(h.status) then 1 else 0)
      && EndOfHeaders(m).response ==
           if followed then WithUrl(m.response, FirstValues(h.lines)["Location"])
           else Reported(m.response, h.status, h.description)
  {
    assert LOCATION == "Location";
  }

  lemma ReportedFile(r: Response, status: int, description: string)
    requires r.sink == File
    ensures Reported(r, status, description) ==
            r.(status := status, description := description, file := FileState("", "", false, r.file.disk))
  {
  }

  /** From status 300 on, `receive()` ends with the head: a followed redirect changes URL
      and file name, anything else is reported and closes the file, which is as the flushes
      during the headers have left it. */
  lemma HeadOnly(r: Response, redirtimes: int, url: string, input: seq<Packet>, h: Head)
    requires r.sink == File && r.body == "" && FileExists(r.file)
    requires h == ParseHead(Stream(input)) && h.Complete? && h.status >= 300
    ensures var final, followed := Receive(Start(r, redirtimes, url), input), Followed(h, redirtimes);
      var r1 := r.(file := EarlyFile(r.file, input, HeadLength(Stream(input))));
      && FileExists(r1.file)
      && final.control == Returned(followed)
      && final.redirtimes == redirtimes + (if IsRedirect(h.status) then 1 else 0)
      && final.response == if followed then WithUrl(r1, FirstValues(h.lines)["Location"])
                           else r1.(status := h.status, description := h.description,
                                    file := FileState("", "", false, r1.file.disk))
  {
    var mh := ReceiveHead(r, redirtimes, url, input, h);
    EndsEarly(mh, h);
    ReportedFile(mh.response, h.status, h.description);
  }

  lemma NothingStored(r: Response, redirtimes: int, url: string, input: seq<Packet>, h: Head)
    requires r.sink == File && r.body == "" && FileExists(r.file)
    requires h == ParseHead(Stream(input)) && h.Complete? && h.status < 300 && !Stored(h)
    ensures Receive(Start(r, redirtimes, url), input).control == Threw(BadLength)
  {
    var mh := ReceiveHead(r, redirtimes, url, input, h);
    SetUpUnreadable(mh, h);
  }

  /** `receive()` asks for another request exactly after such a redirect. */
  lemma FileFollowsExactly(r: Response, redirtimes: int, url: string, input: seq<Packet>)
    requires r.sink == File && r.body == "" && FileExists(r.file)
    ensures Receive(Start(r, redirtimes, url), input).control == Returned(true)
       <==> Followed(ParseHead(Stream(input)), redirtimes)
  {
    var h := ParseHead(Stream(input));
    if !h.Complete? {
      ReceiveNoHead(r, redirtimes, url, input);
    } else if h.status >= 300 {
      HeadOnly(r, redirtimes, url, input, h);
    } else if Stored(h) {
      FileSinkContents(r, redirtimes, url, input, h);
    } else {
      NothingStored(r, redirtimes, url, input, h);
    }
  }

  // ---------- whole runs ----------

  /** An open call succeeds after one of the reads of the answer that do not complete its
      head. */
  predicate OpenedEarly(answer: Answer) {
    answer.Answers? && OpensEarly(answer.input, HeadLength(Stream(answer.input)))
  }

  function EarlyAt(world: World): nat -> bool {
    (i: nat) => OpenedEarly(world(i))
  }

  /** The number of the first of `n` answers of which that is true, or `n`. */
  function FirstEarly(world: World, hop: nat, n: nat): nat {
    FirstOf(EarlyAt(world), hop, n)
  }

  /** A receive that ends in a followed redirect. */
  lemma ReceiveFollowed(r: Response, redirtimes: int, url: string, input: seq<Packet>, next: Response)
    requires r.sink == File && r.body == "" && FileExists(r.file)
    requires var m := Receive(Start(r, redirtimes, url), input); m.control == Returned(true) && m.response == next
    ensures var f := EarlyFile(r.file, input, HeadLength(Stream(input)));
      && FileExists(f)
      && next == r.(url := next.url, file := f.(filename := next.file.filename))
      && (Split(next.url).Some? ==> next.file.filename == Split(next.url).value.file)
  {
    FileFollowsExactly(r, redirtimes, url, input);
    HeadOnly(r, redirtimes, url, input, ParseHead(Stream(input)));
  }

  /** One followed redirect. */
  lemma FileHop(run: Run, env: Environment, answer: Answer, next: Run)
    requires run.response.sink == File && run.response.body == "" && FileExists(run.response.file)
    requires next == NextHop(run, env, answer) && next.control == Returned(true)
    ensures answer.Answers? && Split(run.response.url).Some?
    ensures var f := EarlyFile(run.response.file, answer.input, HeadLength(Stream(answer.input)));
      && next.response.sink == File && next.response.body == "" && next.response.progress == run.response.progress
      && FileExists(next.response.file)
      && next.response.file == f.(filename := next.response.file.filename)
      && (Split(next.response.url).Some? ==> next.response.file.filename == Split(next.response.url).value.file)
  {
    if Split(run.response.url).None? || answer.Refused? {
      NotSent(run, env, answer);
      assert false;
    }
    var p := Split(run.response.url).value;
    var e := Addressed(run.engine, p, env);
    var r := Prepared(e, run.response, p);
    Sent(run, env, answer, p, e, r);
    ReceiveFollowed(r, e.redirtimes, e.url, answer.input, next.response);
  }

  /** The file, where it has got to after redirects; `name` is the name under which an
      early open call created it. */
  predicate FileIs(f: FileState, f0: FileState, early: bool, name: string) {
    && FileExists(f)
    && (f.isOpen <==> f0.isOpen || early)
    && (if f0.isOpen then f.filepath == f0.filepath && f.disk == f0.disk
        else if early then f.filepath == FreePath(name, f0.disk.Keys) && f.disk == f0.disk[f.filepath := ""]
        else f.disk == f0.disk)
  }

  lemma FileMoves(f0: FileState, f: FileState, early: bool, name: string, answer: Answer, g: FileState)
    requires FileIs(f, f0, early, name) && answer.Answers? && FileExists(g)
    requires g == EarlyFile(f, answer.input, HeadLength(Stream(answer.input))).(filename := g.filename)
    ensures FileIs(g, f0, early || OpenedEarly(answer), if early then name else f.filename)
  {
    EarlyFileIsOpen(f, answer.input, HeadLength(Stream(answer.input)));
  }

  /** The file name is taken from the URL. */
  predicate NamedByUrl(r: Response) {
    Split(r.url).Some? ==> r.file.filename == Split(r.url).value.file
  }

  /** After any number of followed redirects the file is open exactly when it was open
      before, or one of the answers had an early open call that succeeded; the first of
      them has created the file, under the name that was current then, and it is empty. No
      other file has changed. */
  lemma {:induction false} FileAfterRedirects(runs: seq<Run>, env: Environment, world: World, hop: nat, n: nat)
    requires Redirects(runs, env, world, hop) && n < |runs|
    requires var r := runs[0].response; r.sink == File && r.body == "" && FileExists(r.file)
    ensures var first, r, k := runs[0].response, runs[n].response, FirstEarly(world, hop, n);
      && r.sink == File && r.body == "" && r.progress == first.progress
      && FileIs(r.file, first.file, k < n, runs[k].response.file.filename)
      && (n > 0 ==> NamedByUrl(r) && Split(runs[n - 1].response.url).Some?)
    decreases n
  {
    if n > 0 {
      var m := n - 1;
      FileAfterRedirects(runs, env, world, hop, m);
      RedirectHop(runs, env, world, hop, m);
      var k := FirstEarly(world, hop, m);
      FirstOfNext(EarlyAt(world), hop, m);
      OneMoreHop(runs[0].response, runs[m], env, world(hop + m), runs[n], k < m, runs[k].response.file.filename);
    }
  }

  lemma OneMoreHop(first: Response, run: Run, env: Environment, answer: Answer, next: Run, early: bool, name: string)
    requires var r := run.response;
      r.sink == File && r.body == "" && r.progress == first.progress && FileIs(r.file, first.file, early, name)
    requires next == NextHop(run, env, answer) && next.control == Returned(true)
    ensures var r := next.response;
      && r.sink == File && r.body == "" && r.progress == first.progress
      && FileIs(r.file, first.file, early || OpenedEarly(answer), if early then name else run.response.file.filename)
      && NamedByUrl(r) && Split(run.response.url).Some?
  {
    FileHop(run, env, answer, next);
    FileMoves(first.file, run.response.file, early, name, answer, next.response.file);
  }

  /** The URL at which a run had got to is one that splits, and names the file, when the
      first one did. */
  lemma HopIsNamed(runs: seq<Run>, last: Run, env: Environment, world: World, hop: nat, k: nat)
    requires Redirects(runs, env, world, hop) && k < |runs| && last == runs[|runs| - 1]
    requires var r := runs[0].response; r.sink == File && r.body == "" && FileExists(r.file)
    requires Split(last.response.url).Some?
    ensures Split(runs[k].response.url).Some?
    ensures k > 0 || NamedByUrl(runs[0].response) ==> NamedByUrl(runs[k].response)
  {
    FileAfterRedirects(runs, env, world, hop, k);
    if k + 1 < |runs| {
      FileAfterRedirects(runs, env, world, hop, k + 1);
    }
  }

  lemma ReadyEarly(f: FileState, input: seq<Packet>, n: nat)
    ensures Ready(EarlyFile(f, input, n)) == Ready(f)
  {
    EarlyFileIsOpen(f, input, n);
  }

  lemma SendStored(run: Run, env: Environment, answer: Answer, final: Run, h: Head)
    requires run.response.sink == File && run.response.body == "" && FileExists(run.response.file)
    requires final == NextHop(run, env, answer)
    requires answer.Answers? && Split(run.response.url).Some?
    requires h == ParseHead(Stream(answer.input)) && Stored(h)
    ensures var d := Delivered(run.response.file, answer.input);
      && final.control == Returned(false)
      && final.response.progress == run.response.progress + |d.Text()|
      && (final.response.file.isOpen <==> d.StaysOpen())
      && (if d.inFile then
            && final.response.file.disk == Wrote(Ready(run.response.file), d.Text()).disk
            && final.response.body == ""
          else
            && final.response.file.disk == Delivered(run.response.file, answer.input).file.disk
            && final.response.body == d.Text())
  {
    var p := Split(run.response.url).value;
    var e := Addressed(run.engine, p, env);
    var r := Prepared(e, run.response, p);
    Sent(run, env, answer, p, e, r);
    FileSinkContents(r, e.redirtimes, e.url, answer.input, h);
    ReadyEarly(run.response.file, answer.input, HeadLength(Stream(answer.input)));
  }

  /** Where a run of `connect()` stores the document, from a response whose file is closed:
      in a new file, and no other file is touched. Its name is taken from the last URL
      exactly when no redirect had an early open call that succeeded; otherwise from the
      URL at which the first of them did. (A first response that was given its name in
      another way than by its URL may keep it.) */
  lemma DocumentPath(runs: seq<Run>, last: Run, env: Environment, world: World, hop: nat, at: nat, final: Run, h: Head)
    requires Connects(runs, env, world, hop, final)
    requires last == runs[|runs| - 1] && at == hop + |runs| - 1
    requires var r := runs[0].response; r.sink == File && r.body == "" && !r.file.isOpen
    requires world(at).Answers? && Split(last.response.url).Some?
    requires h == ParseHead(Stream(world(at).input)) && Stored(h)
    ensures var before, d := runs[0].response.file.disk, Delivered(last.response.file, world(at).input);
      var k := FirstEarly(world, hop, |runs| - 1);
      var name := runs[k].response.file.filename;
      var path := FreePath(name, before.Keys);
      && final.control == Returned(false)
      && Split(runs[k].response.url).Some?
      && (k > 0 || NamedByUrl(runs[0].response) ==> name == Split(runs[k].response.url).value.file)
      && path !in before
      && (if d.inFile then final.response.file.disk == before[path := d.Text()] && final.response.body == ""
          else final.response.file.disk == before && final.response.body == d.Text())
      && final.response.progress == runs[0].response.progress + |d.Text()|
      && (final.response.file.isOpen <==> d.StaysOpen())
  {
    var f0, f, input := runs[0].response.file, last.response.file, world(at).input;
    var k := FirstEarly(world, hop, |runs| - 1);
    FileAfterRedirects(runs, env, world, hop, |runs| - 1);
    HopIsNamed(runs, last, env, world, hop, k);
    LastSend(runs, last, env, world, hop, at, final);
    SendStored(last, env, world(at), final, h);
    EarlyFileIsOpen(f, input, HeadLength(Stream(input)));
    NewFile(f0, f, k < |runs| - 1, runs[k].response.file.filename, Delivered(f, input).Text());
  }

  lemma NewFile(f0: FileState, f: FileState, early: bool, name: string, text: string)
    requires FileIs(f, f0, early, name) && !f0.isOpen && (!early ==> name == f.filename)
    ensures var path := FreePath(name, f0.disk.Keys);
      path !in f0.disk && Wrote(Ready(f), text).disk == f0.disk[path := text]
    ensures !f.isOpen ==> f.disk == f0.disk
  {
    var path := FreePath(name, f0.disk.Keys);
    assert Ready(f).filepath == path && Ready(f).disk == f0.disk[path := ""];
    assert "" + text == text;
  }
}
