/** Header lines as `send()` writes them. */
module HeaderFormat {
  import opened Text

  const CRLF := "\r\n"

  function HeaderLine(key: string, value: string): string {
    key + ": " + value + CRLF
  }

  function HeaderText(lines: seq<(string, string)>): string
    decreases |lines|
  {
    if lines == [] then "" else HeaderLine(lines[0].0, lines[0].1) + HeaderText(lines[1..])
  }

  lemma {:induction false} HeaderTextAppend(a: seq<(string, string)>, b: seq<(string, string)>)
    ensures HeaderText(a + b) == HeaderText(a) + HeaderText(b)
    decreases |a|
  {
    if a == [] {
      assert a + b == b;
    } else {
      assert (a + b)[1..] == a[1..] + b;
      HeaderTextAppend(a[1..], b);
    }
  }

  lemma HeaderTextOne(a: seq<(string, string)>, key: string, value: string)
    ensures HeaderText(a + [(key, value)]) == HeaderText(a) + HeaderLine(key, value)
  {
    HeaderTextAppend(a, [(key, value)]);
    assert [(key, value)][1..] == [];
    assert HeaderLine(key, value) + "" == HeaderLine(key, value);
  }

  /** What a header must look like to be read back. */
  predicate CleanLine(line: (string, string)) {
    Free(line.0, Reserved) && Free(line.1, LineEnd)
  }

  predicate Clean(lines: seq<(string, string)>) {
    forall i :: 0 <= i < |lines| ==> CleanLine(lines[i])
  }
}
