/** The encoder assembled from Boost's `transform_width<6, 8>`, `base64_from_binary`
    and `insert_linebreaks<72>` iterators, against the decoder of section 4 of RFC 4648. */
module Base64 {
  import opened Text

  const LINE := 72

  /** One byte of the input, and zero bits past its end. */
  function Octet(s: string, j: nat): (b: nat)
    ensures b < 256
  {
    if j < |s| then s[j] as int % 256 else 0
  }

  /** How many six-bit groups are needed for `n` bytes. */
  function SymbolCount(n: nat): nat {
    (8 * n + 5) / 6
  }

  /** Bits 6i to 6i + 5 of the input, cut out of the one or two bytes they lie in. */
  function Sextet(s: string, i: nat): (v: nat)
    ensures v < 64
  {
    var j, offset := 6 * i / 8, 6 * i % 8;
    if offset == 0 then Octet(s, j) / 4
    else if offset == 2 then Octet(s, j) % 64
    else if offset == 4 then Octet(s, j) % 16 * 4 + Octet(s, j + 1) / 64
    else Octet(s, j) % 4 * 16 + Octet(s, j + 1) / 16
  }

  function Symbol(v: nat): (c: char)
    requires v < 64
    ensures !In(c, Reserved) && c != '='
    ensures SymbolValue(c) == Some(v)
  {
    if v < 26 then ('A' as int + v) as char
    else if v < 52 then ('a' as int + (v - 26)) as char
    else if v < 62 then ('0' as int + (v - 52)) as char
    else if v == 62 then '+' else '/'
  }

  /** The value of a character of the alphabet. */
  function SymbolValue(c: char): (v: Option<nat>)
    ensures v.Some? ==> v.value < 64
  {
    if 'A' <= c <= 'Z' then Some(c as int - 'A' as int)
    else if 'a' <= c <= 'z' then Some(c as int - 'a' as int + 26)
    else if '0' <= c <= '9' then Some(c as int - '0' as int + 52)
    else if c == '+' then Some(62)
    else if c == '/' then Some(63)
    else None
  }

  function Symbols(s: string): (t: string)
    ensures |t| == SymbolCount(|s|)
    ensures forall i :: 0 <= i < |t| ==> t[i] == Symbol(Sextet(s, i))
  {
    seq(SymbolCount(|s|), i requires 0 <= i => Symbol(Sextet(s, i)))
  }

  /** A newline after every 72 symbols that are followed by another one. */
  function BreakLines(t: string): string {
    if |t| <= LINE then t else t[..LINE] + "\n" + BreakLines(t[LINE..])
  }

  function PadCount(n: nat): nat {
    (3 - n % 3) % 3
  }

  function Padding(n: nat): (pad: string)
    ensures |pad| == PadCount(n)
    ensures forall i :: 0 <= i < |pad| ==> pad[i] == '='
  {
    seq(PadCount(n), _ => '=')
  }

  function Encode(s: string): string {
    BreakLines(Symbols(s)) + Padding(|s|)
  }

  // ---------- decoding ----------

  predicate IsByteString(s: string) {
    forall i :: 0 <= i < |s| ==> s[i] as int < 256
  }

  /** The three bytes held by four symbols. */
  function First(v: nat, w: nat): char
    requires v < 64 && w < 64
  {
    (v * 4 + w / 16) as char
  }

  function Second(w: nat, x: nat): char
    requires w < 64 && x < 64
  {
    (w % 16 * 16 + x / 4) as char
  }

  function Third(x: nat, y: nat): char
    requires x < 64 && y < 64
  {
    (x % 4 * 64 + y) as char
  }

  /** The bytes of a text of whole four-character groups; only the last group may
      hold pad characters. */
  function Decode(t: string): Option<string> {
    if t == "" then Some("")
    else if |t| < 4 then None
    else
      var v, w, x, y := SymbolValue(t[0]), SymbolValue(t[1]), SymbolValue(t[2]), SymbolValue(t[3]);
      if v.None? || w.None? then None
      else if |t| == 4 && t[2] == '=' && t[3] == '=' then Some([First(v.value, w.value)])
      else if x.None? then None
      else if |t| == 4 && t[3] == '=' then Some([First(v.value, w.value), Second(w.value, x.value)])
      else if y.None? then None
      else
        var rest := Decode(t[4..]);
        if rest.None? then None
        else Some([First(v.value, w.value), Second(w.value, x.value), Third(x.value, y.value)] + rest.value)
  }

  // ---------- round trip ----------

  lemma SextetsOfGroup(s: string)
    ensures var a, b, c := Octet(s, 0), Octet(s, 1), Octet(s, 2);
      && Sextet(s, 0) == a / 4
      && Sextet(s, 1) == a % 4 * 16 + b / 16
      && Sextet(s, 2) == b % 16 * 4 + c / 64
      && Sextet(s, 3) == c % 64
  {
  }

  lemma SextetShift(s: string, i: nat)
    requires |s| >= 3
    ensures Sextet(s, i + 4) == Sextet(s[3..], i)
  {
    assert 6 * (i + 4) / 8 == 6 * i / 8 + 3;
    assert 6 * (i + 4) % 8 == 6 * i % 8;
  }

  lemma SymbolsShift(s: string)
    requires |s| >= 3
    ensures |Symbols(s)| >= 4 && Symbols(s)[4..] == Symbols(s[3..])
  {
    forall i | 0 <= i < |Symbols(s[3..])|
      ensures Symbols(s)[4..][i] == Symbols(s[3..])[i]
    {
      SextetShift(s, i);
    }
  }

  lemma Regrouped(a: nat, b: nat, c: nat)
    requires a < 256 && b < 256 && c < 256
    ensures var v, w, x, y := a / 4, a % 4 * 16 + b / 16, b % 16 * 4 + c / 64, c % 64;
      && v * 4 + w / 16 == a
      && w % 16 * 16 + x / 4 == b
      && x % 4 * 64 + y == c
  {
  }

  lemma ByteIsOctet(s: string, i: nat)
    requires IsByteString(s) && i < |s|
    ensures s[i] as int == Octet(s, i)
  {
  }

  lemma BytesOfGroup(s: string)
    requires IsByteString(s)
    ensures |s| > 0 ==> First(Sextet(s, 0), Sextet(s, 1)) == s[0]
    ensures |s| > 1 ==> Second(Sextet(s, 1), Sextet(s, 2)) == s[1]
    ensures |s| > 2 ==> Third(Sextet(s, 2), Sextet(s, 3)) == s[2]
  {
    OctetsOfGroup(s);
    if |s| > 0 {
      ByteIsOctet(s, 0);
    }
    if |s| > 1 {
      ByteIsOctet(s, 1);
    }
    if |s| > 2 {
      ByteIsOctet(s, 2);
    }
  }

  lemma OctetsOfGroup(s: string)
    ensures First(Sextet(s, 0), Sextet(s, 1)) as int == Octet(s, 0)
    ensures Second(Sextet(s, 1), Sextet(s, 2)) as int == Octet(s, 1)
    ensures Third(Sextet(s, 2), Sextet(s, 3)) as int == Octet(s, 2)
  {
    SextetsOfGroup(s);
    Regrouped(Octet(s, 0), Octet(s, 1), Octet(s, 2));
  }

  lemma DecodeLast(s: string)
    requires IsByteString(s) && |s| < 3
    ensures Decode(Symbols(s) + Padding(|s|)) == Some(s)
  {
    BytesOfGroup(s);
    var t := Symbols(s) + Padding(|s|);
    if |s| == 1 {
      assert t == [Symbol(Sextet(s, 0)), Symbol(Sextet(s, 1)), '=', '='];
      assert s == [s[0]];
    } else if |s| == 2 {
      assert t == [Symbol(Sextet(s, 0)), Symbol(Sextet(s, 1)), Symbol(Sextet(s, 2)), '='];
      assert s == [s[0], s[1]];
    } else {
      assert t == "";
    }
  }

  lemma DecodeQuad(v: nat, w: nat, x: nat, y: nat, rest: string)
    requires v < 64 && w < 64 && x < 64 && y < 64
    ensures Decode([Symbol(v), Symbol(w), Symbol(x), Symbol(y)] + rest) ==
            if Decode(rest).None? then None else Some([First(v, w), Second(w, x), Third(x, y)] + Decode(rest).value)
  {
    var t := [Symbol(v), Symbol(w), Symbol(x), Symbol(y)] + rest;
    assert t[4..] == rest;
  }

  lemma DecodeGroup(s: string, rest: string)
    requires IsByteString(s) && |s| == 3
    ensures Decode(Symbols(s) + rest) ==
            if Decode(rest).None? then None else Some(s + Decode(rest).value)
  {
    GroupSymbols(s);
    DecodeQuad(Sextet(s, 0), Sextet(s, 1), Sextet(s, 2), Sextet(s, 3), rest);
  }

  lemma GroupSymbols(s: string)
    requires IsByteString(s) && |s| == 3
    ensures Symbols(s) == [Symbol(Sextet(s, 0)), Symbol(Sextet(s, 1)), Symbol(Sextet(s, 2)), Symbol(Sextet(s, 3))]
    ensures s == [First(Sextet(s, 0), Sextet(s, 1)), Second(Sextet(s, 1), Sextet(s, 2)), Third(Sextet(s, 2), Sextet(s, 3))]
  {
    BytesOfGroup(s);
  }

  lemma GroupOf(s: string)
    requires |s| >= 3
    ensures Symbols(s)[..4] == Symbols(s[..3])
  {
    var group := s[..3];
    forall i | 0 <= i < 4 ensures Symbols(s)[i] == Symbols(group)[i] {
      SameSextet(s, i);
    }
  }

  lemma SameSextet(s: string, i: nat)
    requires |s| >= 3 && i < 4
    ensures Sextet(s, i) == Sextet(s[..3], i)
  {
    var group := s[..3];
    assert Octet(s, 0) == Octet(group, 0) && Octet(s, 1) == Octet(group, 1) && Octet(s, 2) == Octet(group, 2);
    if i == 0 {
    } else if i == 1 {
    } else if i == 2 {
    } else {
      assert i == 3;
    }
  }

  lemma SplitGroup(s: string)
    requires |s| >= 3
    ensures Symbols(s) + Padding(|s|) == Symbols(s[..3]) + (Symbols(s[3..]) + Padding(|s[3..]|))
  {
    GroupOf(s);
    SymbolsShift(s);
    assert Padding(|s|) == Padding(|s[3..]|);
    assert Symbols(s) == Symbols(s)[..4] + Symbols(s)[4..];
  }

  lemma {:induction false} DecodeUnbroken(s: string)
    requires IsByteString(s)
    ensures Decode(Symbols(s) + Padding(|s|)) == Some(s)
  {
    if |s| < 3 {
      DecodeLast(s);
    } else {
      SplitGroup(s);
      DecodeGroup(s[..3], Symbols(s[3..]) + Padding(|s[3..]|));
      DecodeUnbroken(s[3..]);
      assert s == s[..3] + s[3..];
    }
  }

  /** Removing the newlines and decoding gives back every byte string. */
  lemma RoundTrip(s: string)
    requires IsByteString(s)
    ensures Decode(Without(Encode(s), Newline)) == Some(s)
  {
    WithoutAppend(BreakLines(Symbols(s)), Padding(|s|), Newline);
    WithoutNothing(Padding(|s|), Newline);
    UnbreakLines(Symbols(s));
    DecodeUnbroken(s);
  }

  lemma {:induction false} UnbreakLines(t: string)
    requires Free(t, Newline)
    ensures Without(BreakLines(t), Newline) == t
  {
    if |t| <= LINE {
      WithoutNothing(t, Newline);
    } else {
      var rest := BreakLines(t[LINE..]);
      WithoutAppend(t[..LINE] + "\n", rest, Newline);
      WithoutAppend(t[..LINE], "\n", Newline);
      WithoutNothing(t[..LINE], Newline);
      UnbreakLines(t[LINE..]);
    }
  }

  // ---------- layout ----------

  /** Newlines stand exactly after every 72 symbols, never at the end. */
  lemma {:induction false} BreakLinesLayout(t: string)
    requires Free(t, Newline) && t != ""
    ensures |BreakLines(t)| == |t| + (|t| - 1) / LINE
    ensures forall i :: 0 <= i < |BreakLines(t)| ==> (BreakLines(t)[i] == '\n' <==> i % (LINE + 1) == LINE)
  {
    var b := BreakLines(t);
    if |t| > LINE {
      var rest := BreakLines(t[LINE..]);
      BreakLinesLayout(t[LINE..]);
      assert b == t[..LINE] + "\n" + rest;
      AfterOneLine(|t|);
      forall i | 0 <= i < |b| ensures b[i] == '\n' <==> i % (LINE + 1) == LINE {
        if i > LINE {
          assert b[i] == rest[i - LINE - 1];
          SameColumn(i);
        } else {
          FirstColumns(i);
          assert i < LINE ==> b[i] == t[i];
        }
      }
    }
  }

  lemma AfterOneLine(n: nat)
    requires n > LINE
    ensures (n - 1) / LINE == (n - LINE - 1) / LINE + 1
  {
  }

  lemma SameColumn(i: nat)
    requires i > LINE
    ensures i % (LINE + 1) == (i - LINE - 1) % (LINE + 1)
  {
  }

  lemma FirstColumns(i: nat)
    requires i <= LINE
    ensures i % (LINE + 1) == i
  {
  }

  lemma InLastLine(i: nat, k: nat)
    requires k * (LINE + 1) <= i < k * (LINE + 1) + LINE
    ensures i % (LINE + 1) != LINE
  {
  }

  lemma NewlinePositions(s: string)
    requires s != ""
    ensures |Encode(s)| == SymbolCount(|s|) + (SymbolCount(|s|) - 1) / LINE + PadCount(|s|)
    ensures forall i :: 0 <= i < |Encode(s)| ==> (Encode(s)[i] == '\n' <==> i % (LINE + 1) == LINE)
  {
    var lines := BreakLines(Symbols(s));
    BreakLinesLayout(Symbols(s));
    LastLineRoom(|s|, (SymbolCount(|s|) - 1) / LINE);
    PaddedPositions(lines, Padding(|s|), (SymbolCount(|s|) - 1) / LINE);
  }

  lemma LastLineRoom(n: nat, k: nat)
    requires n > 0 && k == (SymbolCount(n) - 1) / LINE
    ensures k * (LINE + 1) <= SymbolCount(n) + k
    ensures SymbolCount(n) + k + PadCount(n) <= k * (LINE + 1) + LINE
  {
    LastLine(n);
    Counts(n);
  }

  lemma PaddedPositions(lines: string, pad: string, k: nat)
    requires forall i :: 0 <= i < |lines| ==> (lines[i] == '\n' <==> i % (LINE + 1) == LINE)
    requires forall i :: 0 <= i < |pad| ==> pad[i] == '='
    requires k * (LINE + 1) <= |lines| && |lines| + |pad| <= k * (LINE + 1) + LINE
    ensures forall i :: 0 <= i < |lines + pad| ==> ((lines + pad)[i] == '\n' <==> i % (LINE + 1) == LINE)
  {
    var e := lines + pad;
    forall i | 0 <= i < |e| ensures e[i] == '\n' <==> i % (LINE + 1) == LINE {
      if i >= |lines| {
        assert e[i] == pad[i - |lines|];
        InLastLine(i, k);
      } else {
        assert e[i] == lines[i];
      }
    }
  }

  /** The symbols are those of the alphabet of section 4 of RFC 4648, in its order. */
  lemma SymbolsOfAlphabet(v: nat)
    requires v < 64
    ensures Symbol(0) == 'A' && Symbol(25) == 'Z' && Symbol(26) == 'a' && Symbol(51) == 'z'
    ensures Symbol(52) == '0' && Symbol(61) == '9' && Symbol(62) == '+' && Symbol(63) == '/'
    ensures v < 61 && v != 25 && v != 51 ==> Symbol(v + 1) as int == Symbol(v) as int + 1
  {
  }

  /** For n > 0 bytes: ceil(4n/3) symbols, a multiple of four with the padding; a
      newline stands at every 73rd position and nowhere else, so no line is longer
      than 72 characters, and the text is one line exactly when n <= 54. */
  lemma Layout(s: string)
    requires s != ""
    ensures SymbolCount(|s|) == (4 * |s| + 2) / 3
    ensures SymbolCount(|s|) + PadCount(|s|) == (|s| + 2) / 3 * 4
    ensures |Encode(s)| == (|s| + 2) / 3 * 4 + (SymbolCount(|s|) - 1) / 72
    ensures forall i :: 0 <= i < |Encode(s)| ==> (Encode(s)[i] == '\n' <==> i % 73 == 72)
    ensures 0 < |Encode(s)| - (SymbolCount(|s|) - 1) / 72 * 73 <= 72
    ensures Free(Encode(s), Newline) <==> |s| <= 54
  {
    NewlinePositions(s);
    LastLine(|s|);
    Counts(|s|);
    OneLine(s);
  }

  lemma Counts(n: nat)
    ensures SymbolCount(n) == (4 * n + 2) / 3
    ensures SymbolCount(n) + PadCount(n) == (n + 2) / 3 * 4
  {
  }

  lemma OneLine(s: string)
    requires s != ""
    ensures Free(Encode(s), Newline) <==> |s| <= 54
  {
    NewlinePositions(s);
    if |s| > 54 {
      assert Encode(s)[LINE] == '\n';
    } else {
      assert |Encode(s)| <= LINE;
    }
  }

  lemma LastLine(n: nat)
    requires n > 0
    ensures var lines := (SymbolCount(n) - 1) / LINE;
      && lines * LINE < SymbolCount(n)
      && (n + 2) / 3 * 4 <= lines * LINE + LINE
  {
    var count, k := SymbolCount(n), (n + 2) / 3;
    var q := (count - 1) / LINE;
    Counts(n);
    assert q * LINE <= count - 1 < q * LINE + LINE;
    assert 4 * k <= 72 * q + 74;
    assert k <= 18 * q + 18;
  }
}
