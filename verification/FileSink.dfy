/** The file sink under `receive()`: no byte is lost, whatever open calls fail. */
module FileSink {
  import opened Text
  import opened Responses
  import opened Parser

  /** Receiving stopped in the middle: the reads of `input` have been taken and flushed,
      and the bytes `tail` of the next one have been looked at. */
  function Partial(m: Machine, input: seq<Packet>, tail: string): Machine
    decreases |input|
  {
    if input == [] then Feed(m, tail)
    else
      var m1 := Feed(m, input[0].bytes);
      if m1.control != Running then m1
      else
        var m2 := FlushMachine(m1, input[0].canOpen);
        if m2.locals.state == AnetdOk then m2 else Partial(m2, input[1..], tail)
  }

  predicate TakesBody(m: Machine) {
    m.control == Running && m.locals.state == AnetdBody
  }

  /** The bytes of `s` that the machine passes to `setBody`. */
  function BodyOf(m: Machine, s: string): string
    decreases |s|
  {
    if s == "" then ""
    else (if TakesBody(m) then [s[0]] else "") + BodyOf(Step(m, s[0]), s[1..])
  }

  function Consumed(m: Machine, input: seq<Packet>, tail: string): string
    decreases |input|
  {
    if input == [] then BodyOf(m, tail)
    else
      var m1 := Feed(m, input[0].bytes);
      BodyOf(m, input[0].bytes) +
      (if m1.control != Running then ""
       else
         var m2 := FlushMachine(m1, input[0].canOpen);
         if m2.locals.state == AnetdOk then "" else Consumed(m2, input[1..], tail))
  }

  /** What has been written to the file that is open. */
  function Written(f: FileState): string {
    if f.isOpen then Contents(f) else ""
  }

  predicate FileExists(f: FileState) {
    f.isOpen ==> f.filepath in f.disk
  }

  /** File and memory together. */
  function Held(r: Response): string {
    Written(r.file) + r.body
  }

  lemma FlushConserves(r: Response, canOpen: bool)
    requires FileExists(r.file)
    ensures Held(AfterFlush(r, canOpen)) == Held(r) && FileExists(AfterFlush(r, canOpen).file)
    ensures AfterFlush(r, canOpen).progress == r.progress
  {
    var f := AfterOpenFile(r.file, canOpen);
    if r.sink == File && f.isOpen {
      assert Contents(f) + r.body + "" == Contents(f) + r.body;
      assert Written(r.file) == Contents(f);
    }
  }

  lemma StepConserves(m: Machine, c: char)
    requires Step(m, c).control == Running
    ensures Held(Step(m, c).response) == Held(m.response) + (if TakesBody(m) then [c] else "")
    ensures Step(m, c).response.progress == m.response.progress + (if TakesBody(m) then 1 else 0)
    ensures Step(m, c).response.file == m.response.file && m.control == Running
  {
    assert Held(m.response) + "" == Held(m.response);
    if TakesBody(m) {
      assert Written(m.response.file) + (m.response.body + [c]) == Held(m.response) + [c];
    }
  }

  lemma {:induction false} FeedConserves(m: Machine, s: string)
    requires Feed(m, s).control == Running
    ensures Held(Feed(m, s).response) == Held(m.response) + BodyOf(m, s)
    ensures Feed(m, s).response.progress == m.response.progress + |BodyOf(m, s)|
    ensures Feed(m, s).response.file == m.response.file
    decreases |s|
  {
    if s == "" {
      assert Held(m.response) + "" == Held(m.response);
    } else {
      FirstStepRuns(m, s);
      StepConserves(m, s[0]);
      FeedConserves(Step(m, s[0]), s[1..]);
      Associative(Held(m.response), if TakesBody(m) then [s[0]] else "", BodyOf(Step(m, s[0]), s[1..]));
    }
  }

  lemma FirstStepRuns(m: Machine, s: string)
    requires s != "" && Feed(m, s).control == Running
    ensures Step(m, s[0]).control == Running
  {
    if Step(m, s[0]).control != Running {
      FeedIdle(Step(m, s[0]), s[1..]);
    }
  }

  /** At every point of every run that has not left `receive()`, the bytes written to
      the file followed by the body in memory are all body bytes received so far, and
      the progress is their number; open calls may fail in any pattern. */
  lemma {:induction false} BytesAreConserved(m: Machine, input: seq<Packet>, tail: string)
    requires FileExists(m.response.file)
    requires Partial(m, input, tail).control == Running
    ensures Held(Partial(m, input, tail).response) == Held(m.response) + Consumed(m, input, tail)
    ensures Partial(m, input, tail).response.progress == m.response.progress + |Consumed(m, input, tail)|
    decreases |input|
  {
    if input == [] {
      FeedConserves(m, tail);
    } else {
      var first := input[0];
      FeedConserves(m, first.bytes);
      var m1 := Feed(m, first.bytes);
      FlushConserves(m1.response, first.canOpen);
      var m2 := FlushMachine(m1, first.canOpen);
      if m2.locals.state == AnetdOk {
        assert BodyOf(m, first.bytes) + "" == BodyOf(m, first.bytes);
      } else {
        BytesAreConserved(m2, input[1..], tail);
        Associative(Held(m.response), BodyOf(m, first.bytes), Consumed(m2, input[1..], tail));
      }
    }
  }

  lemma {:induction false} ReceiveIsPartial(m: Machine, input: seq<Packet>)
    requires !Idle(m)
    ensures Receive(m, input) == Finish(Partial(m, input, ""))
    decreases |input|
  {
    if input != [] {
      var m1 := Feed(m, input[0].bytes);
      var m2 := FlushMachine(m1, input[0].canOpen);
      if !Idle(m2) {
        ReceiveIsPartial(m2, input[1..]);
      }
    }
  }

  /** Leaving `receive()` after the body, or at the end of the stream, neither writes nor
      drops a byte: what the file then open holds, followed by the body in memory, is all
      that was received. */
  lemma EndKeepsBytes(m: Machine, input: seq<Packet>)
    requires !Idle(m) && FileExists(m.response.file)
    requires Partial(m, input, "").control == Running
    ensures var last, final := Partial(m, input, ""), Receive(m, input);
      && final.control == Returned(false)
      && final.response.file.disk == last.response.file.disk
      && Written(last.response.file) + final.response.body == Held(m.response) + Consumed(m, input, "")
      && final.response.progress == m.response.progress + |Consumed(m, input, "")|
  {
    ReceiveIsPartial(m, input);
    BytesAreConserved(m, input, "");
  }
}
