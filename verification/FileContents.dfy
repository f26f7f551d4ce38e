/** What a file sink has on disk and in memory when `receive()` ends, for every way of
    cutting the stream into reads and every pattern of failing open calls. The test for
    the end of the body looks at the body in memory, which each flush empties, so the
    answer depends on where the reads fall. */
module FileContents {
  import opened Text
  import opened Responses
  import opened Parser
  import opened Grammar
  import opened FileSink
  import opened FileHead

  // ---------- what the end of the body test sees ----------

  function Group(bytes: string, canOpen: bool): seq<Packet> {
    if bytes == "" then [] else [Packet(bytes, canOpen)]
  }

  /** The body bytes that are together in memory when the length is tested: those of one
      read, once the file is open; before that, what an open call that failed has left in
      memory is joined by the next read. */
  function Groups(held: string, isOpen: bool, pieces: seq<Packet>): seq<Packet>
    decreases |pieces|
  {
    if pieces == [] then Group(held, false)
    else
      var all := held + pieces[0].bytes;
      if isOpen || pieces[0].canOpen then Group(all, pieces[0].canOpen) + pieces[1..]
      else Groups(all, false, pieces[1..])
  }

  /** An open call succeeds while the body is received, that is before the announced
      length is in memory or with the read that brings it. */
  predicate Opens(length: Announcement, held: string, pieces: seq<Packet>)
    decreases |pieces|
  {
    && pieces != []
    && var all := held + pieces[0].bytes;
      pieces[0].canOpen || (!Reached(length, all) && Opens(length, all, pieces[1..]))
  }

  predicate Reached(length: Announcement, s: string) {
    length.Announced? && length.n <= |s|
  }

  /** What is kept of the groups: everything, unless one of them brings the announced
      length alone. */
  function Kept(length: Announcement, groups: seq<Packet>): string {
    if groups == [] then ""
    else if Reached(length, groups[0].bytes) then groups[0].bytes[..length.n]
    else groups[0].bytes + Kept(length, groups[1..])
  }

  /** The body size that a file sink reports in the end: the announced length when one
      group alone brought it; otherwise the connection is closed, and the size is that of
      the emptied buffer. */
  function SizeOf(length: Announcement, groups: seq<Packet>): nat {
    if groups == [] then 0
    else if Reached(length, groups[0].bytes) then length.n
    else SizeOf(length, groups[1..])
  }

  /** A group brings the announced length, and so ends the transfer before the connection
      is closed. */
  predicate Done(length: Announcement, groups: seq<Packet>) {
    if groups == [] then Reached(length, "") else Reached(length, groups[0].bytes) || Done(length, groups[1..])
  }

  /** That is: nothing was announced to come, or one of the groups is long enough. */
  lemma {:induction false} DoneWhen(length: Announcement, groups: seq<Packet>)
    ensures Done(length, groups) <==>
      length == Announced(0) || exists i :: 0 <= i < |groups| && Reached(length, groups[i].bytes)
  {
    if groups != [] {
      var later := groups[1..];
      DoneWhen(length, later);
      assert forall i :: 0 <= i < |later| ==> later[i] == groups[i + 1];
      if exists i :: 0 <= i < |groups| && Reached(length, groups[i].bytes) {
        var i :| 0 <= i < |groups| && Reached(length, groups[i].bytes);
        assert i > 0 ==> Reached(length, later[i - 1].bytes);
      }
    }
  }

  // ---------- one read ----------

  /** The file with `s` added at its end. */
  function Wrote(f: FileState, s: string): FileState {
    f.(disk := f.disk[f.filepath := Contents(f) + s])
  }

  lemma WroteTwice(f: FileState, a: string, b: string)
    ensures Wrote(Wrote(f, a), b) == Wrote(f, a + b)
  {
    assert Contents(f) + a + b == Contents(f) + (a + b);
  }

  /** The machine at the start of the body, or inside it before the announced length is
      reached. */
  predicate AtBody(m: Machine) {
    && m.control == Running && m.response.sink == File
    && (m.locals.state == AnetdBody || (m.locals.state == AnetdOk && m.response.bodySize == 0))
    && (m.response.bodySize == 0 || |m.response.body| < m.response.bodySize)
    && (m.locals.state == AnetdOk ==> m.response.body == "")
  }

  function LengthAt(m: Machine): Announcement {
    if m.locals.state == AnetdBody && m.response.bodySize == 0 then Unannounced else Announced(m.response.bodySize)
  }

  lemma LimitedGrows(held: string, c: string, n: nat)
    requires |held| < n <= |held| + |c|
    ensures held + c[..n - |held|] == (held + c)[..n]
  {
  }

  lemma BodyReadLast(m: Machine, c: string, n: nat)
    requires TakesBody(m) && n == m.response.bodySize
    requires |m.response.body| < n <= |m.response.body| + |c|
    ensures Feed(m, c) == m.(locals := m.locals.(state := AnetdOk),
      response := m.response.(body := (m.response.body + c)[..n],
                              progress := m.response.progress + n - |m.response.body|))
  {
    BodyEnds(m, c);
    LimitedGrows(m.response.body, c, n);
  }

  /** The response with the body `text`, of which what is new has just come. */
  function Grown(r: Response, text: string): Response
    requires |r.body| <= |text|
  {
    r.(body := text, progress := r.progress + |text| - |r.body|)
  }

  lemma GrownIsAppended(r: Response, c: string)
    ensures Grown(r, r.body + c) == AppendAll(r, c)
  {
  }

  lemma BodyReadMore(m: Machine, c: string, n: nat)
    requires TakesBody(m) && n == m.response.bodySize
    requires n == 0 || |m.response.body| + |c| < n
    ensures Feed(m, c) == m.(response := Grown(m.response, m.response.body + c))
  {
    BodyRun(m, c);
    GrownIsAppended(m.response, c);
  }

  /** The response after a read that leaves the body `text` in memory, and the flush. */
  function Taken(r: Response, text: string, canOpen: bool): Response
    requires |r.body| <= |text|
  {
    AfterFlush(Grown(r, text), canOpen)
  }

  lemma TakenToFile(r: Response, text: string, canOpen: bool)
    requires r.sink == File && |r.body| <= |text| && (r.file.isOpen || canOpen)
    ensures Taken(r, text, canOpen) == r.(file := Wrote(Ready(r.file), text), body := "",
                                          progress := r.progress + |text| - |r.body|)
  {
  }

  lemma TakenToMemory(r: Response, text: string)
    requires r.sink == File && |r.body| <= |text| && !r.file.isOpen
    ensures Taken(r, text, false) == r.(file := AfterOpenFile(r.file, false), body := text,
                                        progress := r.progress + |text| - |r.body|)
  {
  }

  /** What the reads that hold the body make of the response. */
  function AfterBody(length: Announcement, r: Response, pieces: seq<Packet>): Response
    requires length.Announced? ==> |r.body| <= length.n
    decreases |pieces|
  {
    if pieces == [] then r.(bodySize := |r.body|)
    else
      var all := r.body + pieces[0].bytes;
      if Reached(length, all) then AfterCompleted(Taken(r, all[..length.n], pieces[0].canOpen))
      else AfterBody(length, Taken(r, all, pieces[0].canOpen), pieces[1..])
  }

  lemma FeedMore(m: Machine, c: string, canOpen: bool)
    requires AtBody(m) && !Reached(LengthAt(m), m.response.body + c)
    ensures m.locals.state == AnetdBody && Feed(m, c).control == Running && Feed(m, c).locals.state == AnetdBody
    ensures FlushMachine(Feed(m, c), canOpen) == m.(response := Taken(m.response, m.response.body + c, canOpen))
  {
    BodyReadMore(m, c, m.response.bodySize);
  }

  /** A read that does not complete the body. */
  lemma StepOn(m: Machine, pieces: seq<Packet>, m1: Machine)
    requires AtBody(m) && pieces != [] && !Reached(LengthAt(m), m.response.body + pieces[0].bytes)
    requires m1 == m.(response := Taken(m.response, m.response.body + pieces[0].bytes, pieces[0].canOpen))
    ensures m.locals.state == AnetdBody && Receive(m, pieces) == Receive(m1, pieces[1..])
  {
    FeedMore(m, pieces[0].bytes, pieces[0].canOpen);
    ReceiveGoesOn(m, pieces, Feed(m, pieces[0].bytes));
  }

  lemma FeedLast(m: Machine, c: string, n: nat)
    requires AtBody(m) && LengthAt(m) == Announced(n) && n <= |m.response.body| + |c|
    ensures |m.response.body| <= n
    ensures Feed(m, c) == m.(locals := m.locals.(state := AnetdOk),
                             response := Grown(m.response, (m.response.body + c)[..n]))
  {
    if m.locals.state == AnetdOk {
      FeedIdle(m, c);
      assert (m.response.body + c)[..0] == m.response.body;
    } else {
      BodyReadLast(m, c, n);
    }
  }

  /** The read that completes it. */
  lemma StepLast(m: Machine, pieces: seq<Packet>, n: nat)
    requires AtBody(m) && pieces != [] && LengthAt(m) == Announced(n) && n <= |m.response.body + pieces[0].bytes|
    ensures var all := m.response.body + pieces[0].bytes;
      && |m.response.body| <= n
      && Receive(m, pieces).control == Returned(false)
      && Receive(m, pieces).response == AfterCompleted(Taken(m.response, all[..n], pieces[0].canOpen))
  {
    FeedLast(m, pieces[0].bytes, n);
    ReceiveCompletes(m, pieces, Feed(m, pieces[0].bytes));
  }

  lemma StillAtBody(m: Machine, r: Response)
    requires AtBody(m) && m.locals.state == AnetdBody && r.sink == File && r.bodySize == m.response.bodySize
    requires r.bodySize == 0 || |r.body| < r.bodySize
    ensures AtBody(m.(response := r)) && LengthAt(m.(response := r)) == LengthAt(m)
  {
  }

  lemma FlushKeeps(r: Response, canOpen: bool)
    ensures var r1 := AfterFlush(r, canOpen); r1.sink == r.sink && r1.bodySize == r.bodySize && |r1.body| <= |r.body|
  {
  }

  lemma {:induction false} ReceiveIsBody(m: Machine, pieces: seq<Packet>)
    requires AtBody(m) && (m.locals.state == AnetdOk ==> pieces != [])
    ensures Receive(m, pieces).control == Returned(false)
    ensures Receive(m, pieces).response == AfterBody(LengthAt(m), m.response, pieces)
    decreases |pieces|
  {
    if pieces != [] {
      var all := m.response.body + pieces[0].bytes;
      if Reached(LengthAt(m), all) {
        StepLast(m, pieces, LengthAt(m).n);
      } else {
        var r1 := Taken(m.response, all, pieces[0].canOpen);
        StepOn(m, pieces, m.(response := r1));
        FlushKeeps(Grown(m.response, all), pieces[0].canOpen);
        StillAtBody(m, r1);
        ReceiveIsBody(m.(response := r1), pieces[1..]);
      }
    }
  }

  // ---------- the end ----------

  /** What the response `r` has become when the body `text` has ended up at the end of the
      file `f`: the size reported is `size`, and the file is closed if `done`. */
  predicate EndsInFile(final: Response, r: Response, f: FileState, progress: int, text: string, size: nat, done: bool) {
    && progress + |text| >= 0
    && final == r.(file := if done then AfterCloseFile(Wrote(f, text)) else Wrote(f, text),
                   body := "", progress := progress + |text|, bodySize := size)
  }

  /** ... or when no file has been opened, and the body is in memory. */
  predicate EndsInMemory(final: Response, r: Response, progress: int, text: string) {
    && progress + |text| >= 0
    && final == r.(file := final.file, body := text, progress := progress + |text|, bodySize := |text|)
    && final.file.disk == r.file.disk && !final.file.isOpen
  }

  predicate Ends(final: Response, r: Response, progress: int, inFile: bool, text: string, size: nat, done: bool) {
    if inFile then EndsInFile(final, r, Ready(r.file), progress, text, size, done)
    else EndsInMemory(final, r, progress, text)
  }

  /** The response takes a body of this length. */
  predicate Expects(r: Response, length: Announcement) {
    r.sink == File && length != Unreadable && (length.Announced? ==> r.bodySize == length.n)
  }

  lemma LaterInFile(final: Response, r: Response, f: FileState, r1: Response, p: int, a: string, b: string,
                    size: nat, done: bool)
    requires r1 == r.(file := Wrote(f, a), body := "", progress := r1.progress) && r1.progress == p + |a|
    requires EndsInFile(final, r1, r1.file, r1.progress, b, size, done)
    ensures EndsInFile(final, r, f, p, a + b, size, done)
  {
    WroteTwice(f, a, b);
  }

  /** The reads from a point where the file is open and memory is empty. */
  lemma {:induction false} BodyReads(length: Announcement, r: Response, pieces: seq<Packet>)
    requires Expects(r, length) && r.body == "" && r.file.isOpen && FileExists(r.file)
    requires length == Announced(0) ==> pieces != []
    ensures EndsInFile(AfterBody(length, r, pieces), r, r.file, r.progress,
                       Kept(length, pieces), SizeOf(length, pieces), Done(length, pieces))
    decreases |pieces|
  {
    if pieces == [] {
      WroteNothing(r.file);
    } else {
      var c, later := pieces[0].bytes, pieces[1..];
      assert r.body + c == c;
      if Reached(length, c) {
        TakenToFile(r, c[..length.n], pieces[0].canOpen);
      } else {
        var r1 := Taken(r, c, pieces[0].canOpen);
        TakenToFile(r, c, pieces[0].canOpen);
        BodyReads(length, r1, later);
        LaterInFile(AfterBody(length, r, pieces), r, r.file, r1, r.progress, c,
                    Kept(length, later), SizeOf(length, later), Done(length, later));
      }
    }
  }

  lemma WroteNothing(f: FileState)
    requires f.filepath in f.disk
    ensures Wrote(f, "") == f
  {
    assert Contents(f) + "" == f.disk[f.filepath];
    assert f.disk[f.filepath := f.disk[f.filepath]] == f.disk;
  }

  lemma GroupCons(bytes: string, canOpen: bool, pieces: seq<Packet>)
    ensures Stream(Group(bytes, canOpen) + pieces) == bytes + Stream(pieces)
    ensures bytes != "" ==>
      (Group(bytes, canOpen) + pieces)[0].bytes == bytes && (Group(bytes, canOpen) + pieces)[1..] == pieces
    ensures bytes == "" ==> Group(bytes, canOpen) + pieces == pieces
  {
    if bytes == "" {
      assert Group(bytes, canOpen) + pieces == pieces;
      assert "" + Stream(pieces) == Stream(pieces);
    } else {
      assert ([Packet(bytes, canOpen)] + pieces)[1..] == pieces;
    }
  }

  lemma KeptGroup(length: Announcement, bytes: string, canOpen: bool, pieces: seq<Packet>)
    ensures Kept(length, Group(bytes, canOpen) + pieces) ==
            if Reached(length, bytes) then bytes[..length.n] else bytes + Kept(length, pieces)
    ensures SizeOf(length, Group(bytes, canOpen) + pieces) ==
            if Reached(length, bytes) then length.n else SizeOf(length, pieces)
    ensures Done(length, Group(bytes, canOpen) + pieces) <==> Reached(length, bytes) || Done(length, pieces)
  {
    GroupCons(bytes, canOpen, pieces);
    if bytes == "" {
      if Reached(length, bytes) {
        KeptNothing(length, pieces);
      }
      assert "" + Kept(length, pieces) == Kept(length, pieces);
    }
  }

  lemma KeptNothing(length: Announcement, groups: seq<Packet>)
    requires length == Announced(0)
    ensures Kept(length, groups) == "" && SizeOf(length, groups) == 0 && Done(length, groups)
  {
  }

  /** Bytes in memory stay together until the file is open. */
  lemma {:induction false} HeldTogether(held: string, pieces: seq<Packet>)
    ensures var groups := Groups(held, false, pieces);
      held != "" ==> groups != [] && held <= groups[0].bytes
    decreases |pieces|
  {
    if pieces != [] && held != "" {
      var all := held + pieces[0].bytes;
      if pieces[0].canOpen {
        GroupCons(all, pieces[0].canOpen, pieces[1..]);
      } else {
        HeldTogether(all, pieces[1..]);
      }
    }
  }

  lemma KeptOfHeld(length: Announcement, held: string, pieces: seq<Packet>)
    requires Reached(length, held)
    ensures Kept(length, Groups(held, false, pieces)) == held[..length.n] && Done(length, Groups(held, false, pieces))
  {
    HeldTogether(held, pieces);
    if held == "" {
      KeptNothing(length, Groups(held, false, pieces));
    }
  }

  /** The reads from a point where the file is not open yet. */
  lemma {:induction false} BodyWaits(length: Announcement, r: Response, pieces: seq<Packet>)
    requires Expects(r, length) && !r.file.isOpen
    requires length.Announced? ==> |r.body| < length.n || (length.n == 0 && r.body == "" && pieces != [])
    ensures var held := r.body;
      var groups := Groups(held, false, pieces);
      Ends(AfterBody(length, r, pieces), r, r.progress - |held|, Opens(length, held, pieces),
           Kept(length, groups), SizeOf(length, groups), Done(length, groups))
    decreases |pieces|
  {
    var held := r.body;
    if pieces == [] {
      KeptAtEof(length, held);
    } else {
      var all, canOpen := held + pieces[0].bytes, pieces[0].canOpen;
      if canOpen {
        BodyOpens(length, r, all, pieces);
      } else if Reached(length, all) {
        BodyStays(length, r, all, pieces);
      } else {
        var r1, later := Taken(r, all, false), pieces[1..];
        var groups := Groups(all, false, later);
        TakenToMemory(r, all);
        BodyWaits(length, r1, later);
        WaitsLonger(AfterBody(length, r1, later), r, r1, r.progress - |held|, Opens(length, all, later),
                    Kept(length, groups), SizeOf(length, groups), Done(length, groups));
      }
    }
  }

  lemma KeptAtEof(length: Announcement, held: string)
    requires length.Announced? ==> |held| < length.n
    ensures Kept(length, Group(held, false)) == held && !Done(length, Group(held, false))
  {
    KeptGroup(length, held, false, []);
    assert Group(held, false) + [] == Group(held, false);
    assert held + "" == held;
  }

  lemma WaitsLonger(final: Response, r: Response, r1: Response, p: int, inFile: bool, text: string, size: nat, done: bool)
    requires r1 == r.(file := AfterOpenFile(r.file, false), body := r1.body, progress := r1.progress) && !r.file.isOpen
    requires Ends(final, r1, p, inFile, text, size, done)
    ensures Ends(final, r, p, inFile, text, size, done)
  {
  }

  /** The read that completes the body while no file is open. */
  lemma BodyStays(length: Announcement, r: Response, all: string, pieces: seq<Packet>)
    requires Expects(r, length) && !r.file.isOpen && pieces != [] && !pieces[0].canOpen
    requires all == r.body + pieces[0].bytes && Reached(length, all) && |r.body| <= length.n
    ensures var groups := Groups(r.body, false, pieces);
      && EndsInMemory(AfterBody(length, r, pieces), r, r.progress - |r.body|, Kept(length, groups))
      && !Opens(length, r.body, pieces)
  {
    TakenToMemory(r, all[..length.n]);
    KeptOfHeld(length, all, pieces[1..]);
  }

  /** The read whose open call succeeds. */
  lemma BodyOpens(length: Announcement, r: Response, all: string, pieces: seq<Packet>)
    requires Expects(r, length) && !r.file.isOpen && pieces != [] && pieces[0].canOpen
    requires length.Announced? ==> |r.body| <= length.n
    requires all == r.body + pieces[0].bytes
    ensures var groups := Group(all, true) + pieces[1..];
      Ends(AfterBody(length, r, pieces), r, r.progress - |r.body|, true,
           Kept(length, groups), SizeOf(length, groups), Done(length, groups))
  {
    var later := pieces[1..];
    KeptGroup(length, all, true, later);
    if Reached(length, all) {
      TakenToFile(r, all[..length.n], true);
    } else {
      var r1 := Taken(r, all, true);
      TakenToFile(r, all, true);
      BodyReads(length, r1, later);
      LaterInFile(AfterBody(length, r, pieces), r, Ready(r.file), r1, r.progress - |r.body|, all,
                  Kept(length, later), SizeOf(length, later), Done(length, later));
    }
  }

  /** The reads from the start of the body. */
  lemma BodyStarts(length: Announcement, r: Response, pieces: seq<Packet>)
    requires Expects(r, length) && r.body == "" && FileExists(r.file) && pieces != []
    ensures var groups := Groups("", r.file.isOpen, pieces);
      Ends(AfterBody(length, r, pieces), r, r.progress, r.file.isOpen || Opens(length, "", pieces),
           Kept(length, groups), SizeOf(length, groups), Done(length, groups))
  {
    if r.file.isOpen {
      var c := pieces[0].bytes;
      BodyReads(length, r, pieces);
      assert "" + c == c;
      KeptGroup(length, c, pieces[0].canOpen, pieces[1..]);
    } else {
      BodyWaits(length, r, pieces);
    }
  }

  // ---------- the whole stream ----------

  /** The header block is followed by a body that is stored. */
  predicate Stored(h: Head) {
    h.Complete? && h.status < 300 && AnnouncedLength(h.lines) != Unreadable
  }

  /** What a file sink does with the body: the file after the early reads, the groups, and
      whether they go into a file. */
  datatype Delivery = Delivery(file: FileState, length: Announcement, groups: seq<Packet>, inFile: bool) {
    /** The body that is stored. */
    function Text(): string {
      Kept(length, groups)
    }

    /** The body size that the response reports. */
    function Size(): nat {
      if inFile then SizeOf(length, groups) else |Text()|
    }

    /** The file is still open when `receive()` ends: the body is in it, and the connection
        was closed before one group brought the announced length. */
    predicate StaysOpen() {
      inFile && !Done(length, groups)
    }

    /** The first group brings all that was announced. */
    predicate AtOnce() {
      groups != [] && Reached(length, groups[0].bytes)
    }
  }

  function Delivered(f: FileState, input: seq<Packet>): Delivery
    requires ParseHead(Stream(input)).Complete?
  {
    var n, length := HeadLength(Stream(input)), AnnouncedLength(ParseHead(Stream(input)).lines);
    var f1, pieces := EarlyFile(f, input, n), BodyPieces(input, n);
    Delivery(f1, length, Groups("", f1.isOpen, pieces), f1.isOpen || Opens(length, "", pieces))
  }

  lemma StoredSetUp(m: Machine, h: Head)
    requires HeadRead(m, h) && Stored(h) && m.response.sink == File && m.response.body == ""
    ensures var mh := EndOfHeaders(m);
      && AtBody(mh) && mh.response == WithHead(m.response, h).(bodySize := mh.response.bodySize)
      && LengthAt(mh) == AnnouncedLength(h.lines)
  {
    match AnnouncedLength(h.lines)
    case Unannounced => SetUpUnannounced(m, h);
    case Announced(n) => SetUpAnnounced(m, h, n);
  }

  lemma {:induction false} PiecesAreRest(input: seq<Packet>, n: nat)
    requires n <= |Stream(input)|
    ensures Stream(BodyPieces(input, n)) == Stream(input)[n..]
    ensures 0 < n ==> BodyPieces(input, n) != []
    decreases |input|
  {
    if input != [] {
      var c := input[0].bytes;
      if |c| < n {
        PiecesAreRest(input[1..], n - |c|);
      } else {
        var pieces := BodyPieces(input, n);
        assert pieces[1..] == input[1..];
      }
    }
  }

  lemma {:induction false} GroupsAreStream(held: string, isOpen: bool, pieces: seq<Packet>)
    ensures Stream(Groups(held, isOpen, pieces)) == held + Stream(pieces)
    decreases |pieces|
  {
    if pieces == [] {
      GroupCons(held, false, []);
      assert Group(held, false) + [] == Group(held, false);
    } else {
      var all := held + pieces[0].bytes;
      Associative(held, pieces[0].bytes, Stream(pieces[1..]));
      if isOpen || pieces[0].canOpen {
        GroupCons(all, pieces[0].canOpen, pieces[1..]);
      } else {
        GroupsAreStream(all, false, pieces[1..]);
      }
    }
  }

  /** The response `r` as far as the head has filled it in, with the file that is open
      before the body. */
  function BeforeBody(r: Response, input: seq<Packet>): Response
    requires ParseHead(Stream(input)).Complete?
  {
    WithHead(r, ParseHead(Stream(input))).(file := Delivered(r.file, input).file)
  }

  /** With a file sink, whichever open calls fail: the head fills in the response, and the
      body ends up in the file that is open already, or in a new one with the first free
      name, and every other file is as before; or, when no open call succeeds in time, in
      memory. The bytes stored are those that `Kept` says, and the groups are all the bytes
      after the head. */
  lemma FileSinkContents(r: Response, redirtimes: int, url: string, input: seq<Packet>, h: Head)
    requires r.sink == File && r.body == "" && FileExists(r.file)
    requires h == ParseHead(Stream(input)) && Stored(h)
    ensures var d, final := Delivered(r.file, input), Receive(Start(r, redirtimes, url), input);
      && final.control == Returned(false)
      && Ends(final.response, BeforeBody(r, input), r.progress, d.inFile, d.Text(), d.Size(), Done(d.length, d.groups))
      && (final.response.file.isOpen <==> d.StaysOpen())
      && Stream(d.groups) == h.rest
  {
    var n, d := HeadLength(Stream(input)), Delivered(r.file, input);
    var mh := ReceiveHead(r, redirtimes, url, input, h);
    var m, pieces := EndOfHeaders(mh), BodyPieces(input, n);
    StoredSetUp(mh, h);
    PiecesAreRest(input, n);
    StoredBody(m, pieces, BeforeBody(r, input), d);
    GroupsAreStream("", d.file.isOpen, pieces);
    assert "" + h.rest == h.rest;
  }

  lemma StoredBody(m: Machine, pieces: seq<Packet>, before: Response, d: Delivery)
    requires AtBody(m) && m.response.body == "" && FileExists(m.response.file) && pieces != [] && d.length == LengthAt(m)
    requires before == m.response.(bodySize := before.bodySize) && d.file == m.response.file
    requires d.groups == Groups("", d.file.isOpen, pieces) && d.inFile == (d.file.isOpen || Opens(d.length, "", pieces))
    ensures var final := AfterHeaders(m, pieces);
      && final.control == Returned(false)
      && Ends(final.response, before, before.progress, d.inFile, d.Text(), d.Size(), Done(d.length, d.groups))
      && (final.response.file.isOpen <==> d.StaysOpen())
  {
    ReceiveIsBody(m, pieces);
    EndsFromStart(m.response, before, d, pieces);
  }

  lemma EndsFromStart(r: Response, before: Response, d: Delivery, pieces: seq<Packet>)
    requires Expects(r, d.length) && r.body == "" && FileExists(r.file) && pieces != []
    requires before == r.(bodySize := before.bodySize) && d.file == r.file
    requires d.groups == Groups("", r.file.isOpen, pieces) && d.inFile == (r.file.isOpen || Opens(d.length, "", pieces))
    ensures var final := AfterBody(d.length, r, pieces);
      && Ends(final, before, r.progress, d.inFile, d.Text(), d.Size(), Done(d.length, d.groups))
      && (final.file.isOpen <==> d.StaysOpen())
  {
    BodyStarts(d.length, r, pieces);
  }

  /** A file that stays open is written to by the next transfer, unless the response is
      reset: the second document is appended to the first. */
  lemma SecondTransferAppends(r: Response, a: seq<Packet>, b: seq<Packet>, r1: Response, r2: Response,
                              redirtimes: int, url: string, later: int, laterUrl: string)
    requires r.sink == File && r.body == "" && FileExists(r.file)
    requires Stored(ParseHead(Stream(a))) && Stored(ParseHead(Stream(b)))
    requires r1 == Receive(Start(r, redirtimes, url), a).response && Delivered(r.file, a).StaysOpen()
    requires r2.sink == File && r2.body == r1.body && r2.file == r1.file.(filename := r2.file.filename)
    ensures Receive(Start(r2, later, laterUrl), b).response.file.disk ==
            Wrote(Ready(Delivered(r.file, a).file), Delivered(r.file, a).Text() + Delivered(r2.file, b).Text()).disk
  {
    var f, text := Ready(Delivered(r.file, a).file), Delivered(r.file, a).Text();
    FileSinkContents(r, redirtimes, url, a, ParseHead(Stream(a)));
    EarlyFileIsOpen(r2.file, b, HeadLength(Stream(b)));
    FileSinkContents(r2, later, laterUrl, b, ParseHead(Stream(b)));
    WroteTwice(f, text, Delivered(r2.file, b).Text());
  }

  /** Read number `k` is flushed into the file: its open call succeeds, and the announced
      length was not in memory before it. */
  predicate OpensAt(length: Announcement, held: string, pieces: seq<Packet>, k: nat) {
    k < |pieces| && pieces[k].canOpen && (k == 0 || !Reached(length, held + Stream(pieces[..k])))
  }

  lemma OpensAtNext(length: Announcement, held: string, pieces: seq<Packet>, k: nat)
    requires pieces != [] && !Reached(length, held + pieces[0].bytes)
    ensures OpensAt(length, held + pieces[0].bytes, pieces[1..], k) <==> OpensAt(length, held, pieces, k + 1)
  {
    if k + 1 < |pieces| {
      var first := pieces[..k + 1];
      assert first[1..] == pieces[1..][..k];
      Associative(held, pieces[0].bytes, Stream(first[1..]));
      assert k == 0 ==> held + pieces[0].bytes + "" == held + pieces[0].bytes;
    }
  }

  lemma ReachedLater(length: Announcement, held: string, pieces: seq<Packet>, k: nat)
    requires pieces != [] && Reached(length, held + pieces[0].bytes)
    ensures !OpensAt(length, held, pieces, k + 1)
  {
    if k + 1 < |pieces| {
      assert pieces[..k + 1][0] == pieces[0];
    }
  }

  /** A file that was closed is opened exactly when there is such a read. */
  lemma {:induction false} OpensWhen(length: Announcement, held: string, pieces: seq<Packet>)
    ensures Opens(length, held, pieces) <==> exists k: nat :: OpensAt(length, held, pieces, k)
    decreases |pieces|
  {
    if pieces != [] {
      if pieces[0].canOpen {
        assert OpensAt(length, held, pieces, 0);
      } else if Reached(length, held + pieces[0].bytes) {
        forall k: nat ensures !OpensAt(length, held, pieces, k) {
          if k > 0 {
            ReachedLater(length, held, pieces, k - 1);
          }
        }
      } else {
        OpensWhen(length, held + pieces[0].bytes, pieces[1..]);
        OpensLater(length, held, pieces);
      }
    }
  }

  lemma OpensLater(length: Announcement, held: string, pieces: seq<Packet>)
    requires pieces != [] && !pieces[0].canOpen && !Reached(length, held + pieces[0].bytes)
    ensures (exists k: nat :: OpensAt(length, held, pieces, k))
       <==> (exists k: nat :: OpensAt(length, held + pieces[0].bytes, pieces[1..], k))
  {
    if k: nat :| OpensAt(length, held, pieces, k) {
      OpensAtNext(length, held, pieces, k - 1);
      assert OpensAt(length, held + pieces[0].bytes, pieces[1..], k - 1);
    }
    if k: nat :| OpensAt(length, held + pieces[0].bytes, pieces[1..], k) {
      OpensAtNext(length, held, pieces, k);
      assert OpensAt(length, held, pieces, k + 1);
    }
  }

  // ---------- when it is the announced body ----------

  lemma {:induction false} FirstGroupNotEmpty(held: string, isOpen: bool, pieces: seq<Packet>)
    requires forall i :: 0 < i < |pieces| ==> pieces[i].bytes != ""
    ensures var groups := Groups(held, isOpen, pieces); groups != [] ==> groups[0].bytes != ""
    decreases |pieces|
  {
    if pieces != [] {
      var all := held + pieces[0].bytes;
      if isOpen || pieces[0].canOpen {
        GroupCons(all, pieces[0].canOpen, pieces[1..]);
      } else {
        FirstGroupNotEmpty(all, false, pieces[1..]);
      }
    }
  }

  lemma {:induction false} LaterPiecesNotEmpty(input: seq<Read>, n: nat)
    ensures forall i :: 0 < i < |BodyPieces(input, n)| ==> BodyPieces(input, n)[i].bytes != ""
  {
    if input != [] && |input[0].bytes| < n {
      LaterPiecesNotEmpty(input[1..], n - |input[0].bytes|);
    }
  }

  lemma {:induction false} KeptAll(length: Announcement, groups: seq<Packet>)
    requires length.Announced? ==> |Stream(groups)| <= length.n
    ensures Kept(length, groups) == Stream(groups)
  {
    if groups != [] {
      if Reached(length, groups[0].bytes) {
        assert Stream(groups[1..]) == "";
        assert groups[0].bytes[..length.n] == groups[0].bytes;
      } else {
        KeptAll(length, groups[1..]);
      }
    }
  }

  /** After a first group that is too short, everything is kept, or at least the
      announced number of bytes more. */
  lemma {:induction false} KeptMore(n: nat, groups: seq<Packet>)
    ensures Kept(Announced(n), groups) == Stream(groups) || |Kept(Announced(n), groups)| >= n
  {
    if groups != [] && |groups[0].bytes| < n {
      KeptMore(n, groups[1..]);
    }
  }

  /** Groups whose bytes are cut at the announced length. */
  lemma KeptIsCut(n: nat, groups: seq<Packet>)
    requires groups != [] ==> groups[0].bytes != ""
    ensures Kept(Announced(n), groups) == Cut(Stream(groups), n)
      <==> |Stream(groups)| <= n || (groups != [] && n <= |groups[0].bytes|)
  {
    if |Stream(groups)| <= n {
      KeptAll(Announced(n), groups);
      assert |Stream(groups)| == n ==> Stream(groups)[..n] == Stream(groups);
    } else if n <= |groups[0].bytes| {
      assert Stream(groups)[..n] == groups[0].bytes[..n];
    } else {
      KeptMore(n, groups[1..]);
    }
  }

  lemma GroupsOfReads(f: FileState, input: seq<Read>, h: Head)
    requires h == ParseHead(Stream(input)) && h.Complete?
    ensures var groups := Delivered(f, input).groups; groups != [] ==> groups[0].bytes != ""
  {
    var n := HeadLength(Stream(input));
    LaterPiecesNotEmpty(input, n);
    FirstGroupNotEmpty("", EarlyFile(f, input, n).isOpen, BodyPieces(input, n));
  }

  /** The body that is stored is the one that was announced exactly when none was
      announced, or the server sends no more than it announces, or the first group brings
      all of it: while the file can be opened, that is the read in which the body starts.
      In particular, a body of exactly the announced length is stored whole for every cut. */
  lemma FileHoldsBody(r: Response, redirtimes: int, url: string, input: seq<Read>, h: Head)
    requires r.sink == File && r.body == "" && FileExists(r.file)
    requires h == ParseHead(Stream(input)) && Stored(h)
    ensures var d := Delivered(r.file, input);
      && Ends(Receive(Start(r, redirtimes, url), input).response, BeforeBody(r, input), r.progress, d.inFile,
              d.Text(), d.Size(), Done(d.length, d.groups))
      && (d.Text() == AnnouncedBody(h) <==>
           d.length == Unannounced || |h.rest| <= d.length.n || d.AtOnce())
  {
    var d := Delivered(r.file, input);
    FileSinkContents(r, redirtimes, url, input, h);
    GroupsOfReads(r.file, input, h);
    match d.length
    case Unannounced => KeptAll(d.length, d.groups);
    case Announced(n) => KeptIsCut(n, d.groups);
  }

  lemma {:induction false} SizeOfRest(length: Announcement, groups: seq<Packet>)
    ensures SizeOf(length, groups) <= |Kept(length, groups)|
    ensures length == Unannounced || (length.Announced? && |Stream(groups)| < length.n) ==> SizeOf(length, groups) == 0
  {
    if groups != [] {
      SizeOfRest(length, groups[1..]);
    }
  }

  lemma SizeIsLength(length: Announcement, groups: seq<Packet>)
    requires groups != [] && groups[0].bytes != "" && length != Unreadable
    ensures SizeOf(length, groups) == |Kept(length, groups)| <==> Reached(length, groups[0].bytes)
    ensures !Reached(length, groups[0].bytes) && (length.Announced? ==> |Stream(groups)| <= length.n) ==>
            SizeOf(length, groups) == 0
  {
    SizeOfRest(length, groups[1..]);
  }

  /** The size reported is the length of what was stored exactly when it stayed in memory,
      or nothing came after the head, or the first group brings all of the announced
      length. Otherwise a server that sends no more than it announces, or announces
      nothing, has its body reported with size 0. */
  lemma ReportedSizeIsStored(r: Response, redirtimes: int, url: string, input: seq<Read>, h: Head)
    requires r.sink == File && r.body == "" && FileExists(r.file)
    requires h == ParseHead(Stream(input)) && Stored(h)
    ensures var d := Delivered(r.file, input);
      && Receive(Start(r, redirtimes, url), input).response.bodySize == d.Size()
      && (d.Size() == |d.Text()| <==> !d.inFile || h.rest == "" || d.AtOnce())
      && (d.Size() != |d.Text()| && (d.length.Announced? ==> |h.rest| <= d.length.n) ==> d.Size() == 0)
  {
    var d := Delivered(r.file, input);
    FileSinkContents(r, redirtimes, url, input, h);
    GroupsOfReads(r.file, input, h);
    if d.groups != [] {
      SizeIsLength(d.length, d.groups);
    }
  }
}
