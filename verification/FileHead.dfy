/** The head of a response with a file sink. The flush after each read opens the file,
    also during the headers, and touches nothing else until a body comes. */
module FileHead {
  import opened Responses
  import opened Parser
  import opened Grammar
  import opened FileSink

  /** The file as it is once an open call succeeds. */
  function Ready(f: FileState): FileState {
    AfterOpenFile(f, true)
  }

  /** How many reads are complete before the one that completes the head of `n` bytes. */
  function EarlyReads(input: seq<Packet>, n: nat): (k: nat)
    ensures k <= |input|
    decreases |input|
  {
    if input == [] || |input[0].bytes| >= n then 0 else 1 + EarlyReads(input[1..], n - |input[0].bytes|)
  }

  /** The state of the file after these reads have been flushed. */
  function EarlyFile(f: FileState, input: seq<Packet>, n: nat): FileState
    decreases |input|
  {
    if input == [] || |input[0].bytes| >= n then f
    else EarlyFile(AfterOpenFile(f, input[0].canOpen), input[1..], n - |input[0].bytes|)
  }

  /** The reads from the one that completes the head of `n` bytes, without the head. */
  function BodyPieces(input: seq<Packet>, n: nat): seq<Packet>
    decreases |input|
  {
    if input == [] then []
    else if |input[0].bytes| < n then BodyPieces(input[1..], n - |input[0].bytes|)
    else [Packet(input[0].bytes[n..], input[0].canOpen)] + input[1..]
  }

  /** How many bytes the head of a stream takes up. */
  function HeadLength(s: string): nat {
    var h := ParseHead(s);
    if h.Complete? && |h.rest| <= |s| then |s| - |h.rest| else 0
  }

  // ---------- the file has no influence on the parser ----------

  function WithFile(m: Machine, f: FileState): Machine {
    m.(response := m.response.(file := f))
  }

  predicate SameButFile(a: Machine, b: Machine) {
    WithFile(a, b.response.file) == b
  }

  lemma StepSameButFile(a: Machine, b: Machine, c: char)
    requires SameButFile(a, b)
    ensures SameButFile(Step(a, c), Step(b, c))
  {
    if a.control == Running && a.locals.state == AnetdHeaderKey && c == '\n' {
      EndOfHeadersSameButFile(a, b);
    }
  }

  lemma EndOfHeadersSameButFile(a: Machine, b: Machine)
    requires SameButFile(a, b)
    ensures SameButFile(EndOfHeaders(a), EndOfHeaders(b))
  {
    if ParseStatus(a.locals.status) {
      if IsRedirect(a.locals.status) {
        RedirectedSameButFile(a, b);
      } else {
        SetUpSameButFile(a, b);
      }
    }
  }

  lemma RedirectedSameButFile(a: Machine, b: Machine)
    requires SameButFile(a, b)
    ensures SameButFile(Redirected(a), Redirected(b))
  {
  }

  lemma SetUpSameButFile(a: Machine, b: Machine)
    requires SameButFile(a, b)
    ensures SameButFile(SetUp(a), SetUp(b))
  {
  }

  lemma {:induction false} FeedSameButFile(a: Machine, b: Machine, s: string)
    requires SameButFile(a, b)
    ensures SameButFile(Feed(a, s), Feed(b, s))
    decreases |s|
  {
    if s != "" {
      StepSameButFile(a, b, s[0]);
      FeedSameButFile(Step(a, s[0]), Step(b, s[0]), s[1..]);
    }
  }

  /** While the loop goes on, the state of the file stays as it was. */
  lemma FeedWithFile(m: Machine, s: string, f: FileState)
    requires Feed(m, s).control == Running
    ensures Feed(WithFile(m, f), s) == WithFile(Feed(m, s), f)
  {
    FeedSameButFile(m, WithFile(m, f), s);
    FeedConserves(WithFile(m, f), s);
  }

  // ---------- within the headers ----------

  lemma {:induction false} NeverBackInHeaders(m: Machine, s: string)
    requires !InHeaders(m)
    ensures !InHeaders(Feed(m, s))
    ensures m.control == Running ==> Feed(m, s).control == Running
    decreases |s|
  {
    if s != "" {
      NeverBackInHeaders(Step(m, s[0]), s[1..]);
    }
  }

  lemma {:induction false} HeadersKeepResponse(m: Machine, s: string)
    requires InHeaders(Feed(m, s))
    ensures Feed(m, s).response == m.response
    decreases |s|
  {
    if s != "" {
      var m1 := Step(m, s[0]);
      if !InHeaders(m1) {
        NeverBackInHeaders(m1, s[1..]);
        assert false;
      }
      HeadersKeepResponse(m1, s[1..]);
    }
  }

  lemma InsideHeaders(m: Machine, a: string, b: string)
    requires InHeaders(Feed(m, a + b))
    ensures InHeaders(Feed(m, a)) && Feed(m, a).response == m.response
  {
    FeedAppend(m, a, b);
    if !InHeaders(Feed(m, a)) {
      NeverBackInHeaders(Feed(m, a), b);
      assert false;
    }
    HeadersKeepResponse(m, a);
  }

  /** A machine that has received no body yet and writes to a file. */
  predicate Bodiless(m: Machine) {
    m.response.sink == File && m.response.body == "" && FileExists(m.response.file)
  }

  lemma FlushEmpty(m: Machine, canOpen: bool)
    requires Bodiless(m)
    ensures FlushMachine(m, canOpen) == WithFile(m, AfterOpenFile(m.response.file, canOpen))
    ensures FileExists(AfterOpenFile(m.response.file, canOpen))
  {
    var f := AfterOpenFile(m.response.file, canOpen);
    assert Contents(f) + "" == Contents(f);
    if f.isOpen {
      assert f.disk[f.filepath := f.disk[f.filepath]] == f.disk;
    }
  }

  lemma SameTail(c: string, more: string, later: string, rest: string)
    requires c + more == c + later + ['\n'] + rest
    ensures more == later + ['\n'] + rest
  {
    assert (c + more)[|c|..] == more;
    assert (c + later + ['\n'] + rest)[|c|..] == later + ['\n'] + rest;
  }

  /** A read inside the head. */
  lemma EarlyRead(m: Machine, input: seq<Packet>, c: string, later: string, rest: string)
    requires input != [] && c == input[0].bytes && Bodiless(m)
    requires Stream(input) == c + later + ['\n'] + rest && InHeaders(Feed(m, c + later))
    ensures var f := AfterOpenFile(m.response.file, input[0].canOpen);
      var m1 := WithFile(Feed(m, c), f);
      && InHeaders(m1) && m1.response == m.response.(file := f) && FileExists(f)
      && Receive(m, input) == Receive(m1, input[1..])
      && Stream(input[1..]) == later + ['\n'] + rest
      && Feed(m1, later) == WithFile(Feed(m, c + later), f)
  {
    var f := AfterOpenFile(m.response.file, input[0].canOpen);
    InsideHeaders(m, c, later);
    FlushEmpty(Feed(m, c), input[0].canOpen);
    FeedAppend(m, c, later);
    FeedWithFile(Feed(m, c), later, f);
    SameTail(c, Stream(input[1..]), later, rest);
  }

  /** What is left of `receive()` after the end of the headers, where `m` has got to. */
  function AfterHeaders(m: Machine, pieces: seq<Packet>): Machine {
    if m.control != Running then m else Receive(m, pieces)
  }

  /** The read that completes the head. */
  lemma LastHeadRead(m: Machine, input: seq<Packet>, front: string, rest: string)
    requires input != [] && |input[0].bytes| > |front| && Stream(input) == front + ['\n'] + rest
    requires InHeaders(Feed(m, front)) && Feed(m, front).locals.state == AnetdHeaderKey
    ensures Receive(m, input) == AfterHeaders(EndOfHeaders(Feed(m, front)), BodyPieces(input, |front| + 1))
  {
    var c, n := input[0].bytes, |front| + 1;
    assert c == front + ['\n'] + c[n..] by {
      assert Stream(input) == c + Stream(input[1..]);
      assert c[..n] == Stream(input)[..n];
    }
    FeedOne(m, front, '\n');
    FeedAppend(m, front + ['\n'], c[n..]);
    FeedIdleAfter(EndOfHeaders(Feed(m, front)), c[n..]);
    var pieces := BodyPieces(input, n);
    assert pieces[0] == Packet(c[n..], input[0].canOpen) && pieces[1..] == input[1..];
  }

  lemma FeedIdleAfter(m: Machine, s: string)
    ensures m.control != Running ==> Feed(m, s) == m
  {
    if m.control != Running {
      FeedIdle(m, s);
    }
  }

  lemma Shorter(c: string, more: string, front: string, rest: string)
    requires c + more == front + ['\n'] + rest && |c| <= |front|
    ensures front == c + front[|c|..]
  {
    assert (c + more)[..|c|] == c;
    assert (front + ['\n'] + rest)[..|c|] == front[..|c|];
  }

  /** The head is received, over any number of reads. */
  lemma {:induction false} HeadReads(m: Machine, input: seq<Packet>, front: string, rest: string)
    requires InHeaders(m) && Bodiless(m)
    requires Stream(input) == front + ['\n'] + rest
    requires InHeaders(Feed(m, front)) && Feed(m, front).locals.state == AnetdHeaderKey
    ensures HeadReceived(m, input, Feed(m, front), |front| + 1)
    decreases |input|, 1
  {
    var c := input[0].bytes;
    if |c| > |front| {
      LastHeadRead(m, input, front, rest);
      HeadersKeepResponse(m, front);
    } else {
      Shorter(c, Stream(input[1..]), front, rest);
      HeadReadsOn(m, input, c, front[|c|..], front, rest);
    }
  }

  /** `receive()` gets to the end of a head of `n` bytes in the state `mh`, but with the file
      that the flushes during the head have left, and goes on from there. */
  predicate HeadReceived(m: Machine, input: seq<Packet>, mh: Machine, n: nat) {
    var f := EarlyFile(m.response.file, input, n);
    FileExists(f) && Receive(m, input) == AfterHeaders(EndOfHeaders(WithFile(mh, f)), BodyPieces(input, n))
  }

  lemma {:induction false} HeadReadsOn(m: Machine, input: seq<Packet>, c: string, later: string, front: string,
                                       rest: string)
    requires input != [] && c == input[0].bytes && front == c + later
    requires InHeaders(m) && Bodiless(m)
    requires Stream(input) == front + ['\n'] + rest
    requires InHeaders(Feed(m, front)) && Feed(m, front).locals.state == AnetdHeaderKey
    ensures HeadReceived(m, input, Feed(m, front), |front| + 1)
    decreases |input|, 0
  {
    var f := AfterOpenFile(m.response.file, input[0].canOpen);
    var m1 := WithFile(Feed(m, c), f);
    EarlyRead(m, input, c, later, rest);
    HeadReads(m1, input[1..], later, rest);
    OneReadEarlier(m, input, m1, Feed(m, front), f, |later| + 1);
  }

  lemma OneReadEarlier(m: Machine, input: seq<Packet>, m1: Machine, mh: Machine, f: FileState, n: nat)
    requires input != [] && f == AfterOpenFile(m.response.file, input[0].canOpen) && m1.response.file == f && n > 0
    requires Receive(m, input) == Receive(m1, input[1..])
    requires HeadReceived(m1, input[1..], WithFile(mh, f), n)
    ensures HeadReceived(m, input, mh, |input[0].bytes| + n)
  {
  }

  lemma AfterFront(s: string, front: string, rest: string)
    requires s == front + ['\n'] + rest
    ensures s[|front| + 1..] == rest
  {
  }

  /** When the head of the stream is complete: `receive()` gets to its end with the file
      that the flushes during the head have left, and goes on from there. */
  lemma ReceiveHead(r: Response, redirtimes: int, url: string, input: seq<Packet>, h: Head) returns (mh: Machine)
    requires r.sink == File && r.body == "" && FileExists(r.file)
    requires h == ParseHead(Stream(input)) && h.Complete?
    ensures HeadRead(mh, h) && mh.redirtimes == redirtimes && mh.url == url
    ensures var n := HeadLength(Stream(input));
      && mh.response == r.(file := EarlyFile(r.file, input, n)) && FileExists(mh.response.file)
      && n <= |Stream(input)| && Stream(input)[n..] == h.rest
      && Receive(Start(r, redirtimes, url), input) == AfterHeaders(EndOfHeaders(mh), BodyPieces(input, n))
  {
    var m, s := Start(r, redirtimes, url), Stream(input);
    var p, front := FeedHead(m, s);
    InsertedFirstValues(h.lines);
    AfterFront(s, front, h.rest);
    HeadReads(m, input, front, h.rest);
    mh := WithFile(m.(locals := p), EarlyFile(r.file, input, |front| + 1));
    FrontLength(s, h, |front| + 1);
  }

  lemma FrontLength(s: string, h: Head, n: nat)
    requires h == ParseHead(s) && h.Complete? && n + |h.rest| == |s|
    ensures HeadLength(s) == n
  {
  }

  /** The stream has ended inside the head: the flushes have opened the file, and the size
      is that of no body. */
  predicate EndsInHead(final: Machine, r: Response, input: seq<Packet>) {
    final.response == r.(file := EarlyFile(r.file, input, |Stream(input)| + 1), bodySize := 0)
  }

  /** A stream that never gets past its head: `receive()` returns false at its end, or
      throws. */
  lemma {:induction false} OnlyHeaders(m: Machine, input: seq<Packet>)
    requires InHeaders(m) && Bodiless(m)
    requires InHeaders(Feed(m, Stream(input))) || Feed(m, Stream(input)).control != Running
    ensures var control := Feed(m, Stream(input)).control;
      Receive(m, input).control == if control == Running then Returned(false) else control
    ensures InHeaders(Feed(m, Stream(input))) ==> EndsInHead(Receive(m, input), m.response, input)
    decreases |input|
  {
    if input != [] {
      var c, later := input[0].bytes, Stream(input[1..]);
      var m1 := Feed(m, c);
      FeedAppend(m, c, later);
      FeedIdleAfter(m1, later);
      if m1.control == Running {
        if !InHeaders(m1) {
          NeverBackInHeaders(m1, later);
          assert false;
        }
        HeadersKeepResponse(m, c);
        FlushEmpty(m1, input[0].canOpen);
        var m2 := FlushMachine(m1, input[0].canOpen);
        FeedSameButFile(m1, m2, later);
        OnlyHeaders(m2, input[1..]);
      }
    }
  }

  lemma ReceiveNoHead(r: Response, redirtimes: int, url: string, input: seq<Packet>)
    requires r.sink == File && r.body == "" && FileExists(r.file)
    requires !ParseHead(Stream(input)).Complete?
    ensures Receive(Start(r, redirtimes, url), input).control ==
            if ParseHead(Stream(input)).Incomplete? then Returned(false) else Threw(BadStatus)
    ensures ParseHead(Stream(input)).Incomplete? ==>
            EndsInHead(Receive(Start(r, redirtimes, url), input), r, input)
  {
    var p, front := FeedHead(Start(r, redirtimes, url), Stream(input));
    OnlyHeaders(Start(r, redirtimes, url), input);
  }

  // ---------- which file is open after the head ----------

  /** An open call succeeds after one of the reads before the last one of the head. */
  predicate OpensEarly(input: seq<Packet>, n: nat) {
    exists i :: 0 <= i < EarlyReads(input, n) && input[i].canOpen
  }

  lemma OpensEarlyCons(input: seq<Packet>, n: nat)
    requires input != [] && |input[0].bytes| < n
    ensures OpensEarly(input, n) <==> input[0].canOpen || OpensEarly(input[1..], n - |input[0].bytes|)
  {
    var later, k := input[1..], EarlyReads(input[1..], n - |input[0].bytes|);
    assert EarlyReads(input, n) == k + 1;
    assert forall i :: 0 <= i < k ==> later[i] == input[i + 1];
    if OpensEarly(input, n) {
      var i :| 0 <= i < k + 1 && input[i].canOpen;
      if i > 0 {
        assert later[i - 1].canOpen;
      }
    }
  }

  /** The file is left open exactly when it was open, or one of these calls succeeded; in
      the second case it is new and empty, and has the old name. */
  lemma {:induction false} EarlyFileIsOpen(f: FileState, input: seq<Packet>, n: nat)
    ensures var g := EarlyFile(f, input, n);
      && (g.isOpen <==> f.isOpen || OpensEarly(input, n))
      && g.filename == f.filename
      && (if f.isOpen then g == f else if g.isOpen then g == Ready(f) else g.disk == f.disk)
    decreases |input|
  {
    if input != [] && |input[0].bytes| < n {
      OpensEarlyCons(input, n);
      EarlyFileIsOpen(AfterOpenFile(f, input[0].canOpen), input[1..], n - |input[0].bytes|);
    }
  }
}
