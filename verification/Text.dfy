/** Byte strings as the library handles them: scanning for a delimiter, dropping
    bytes, and the decimal conversions done by `boost::lexical_cast`. */
module Text {

  datatype Option<+T> = None | Some(value: T)

  /** The classes of bytes that the parsers look for. */
  datatype Class =
    | Delimiter   // : / ? #   ends a scheme and a host
    | QueryStart  // ? #       ends a file name
    | Blank       // space
    | Newline     // \n
    | Return      // \r
    | KeyEnd      // space, \n
    | Colon
    | KeyNoise    // : \r     dropped from a header key
    | LineEnd     // \r \n
    | Separator   // space \r \n
    | Reserved    // space : \r \n

  predicate In(c: char, k: Class) {
    match k
    case Delimiter => c == ':' || c == '/' || c == '?' || c == '#'
    case QueryStart => c == '?' || c == '#'
    case Blank => c == ' '
    case Newline => c == '\n'
    case Return => c == '\r'
    case KeyEnd => c == ' ' || c == '\n'
    case Colon => c == ':'
    case KeyNoise => c == ':' || c == '\r'
    case LineEnd => c == '\r' || c == '\n'
    case Separator => c == ' ' || c == '\r' || c == '\n'
    case Reserved => c == ' ' || c == ':' || c == '\r' || c == '\n'
  }

  /** The members of the classes, written out. */
  lemma ClassMembers(c: char)
    ensures In(c, Delimiter) <==> c in ":/?#"
    ensures In(c, QueryStart) <==> c in "?#"
    ensures In(c, Blank) <==> c in " "
    ensures In(c, Newline) <==> c in "\n"
    ensures In(c, Return) <==> c in "\r"
    ensures In(c, KeyEnd) <==> c in " \n"
    ensures In(c, Colon) <==> c in ":"
    ensures In(c, KeyNoise) <==> c in ":\r"
    ensures In(c, LineEnd) <==> c in "\r\n"
    ensures In(c, Separator) <==> c in " \r\n"
    ensures In(c, Reserved) <==> c in " :\r\n"
  {
  }

  /** Index of the first byte of `s` of class `k`, or |s|. */
  function Find(s: string, k: Class): (i: nat)
    ensures i <= |s|
    ensures i < |s| ==> In(s[i], k)
    ensures forall j :: 0 <= j < i ==> !In(s[j], k)
  {
    if s == [] || In(s[0], k) then 0 else 1 + Find(s[1..], k)
  }

  /** `s` with every byte of class `k` removed. */
  function Without(s: string, k: Class): (t: string)
    ensures forall c :: c in t ==> c in s && !In(c, k)
  {
    if s == [] then []
    else if In(s[0], k) then Without(s[1..], k)
    else [s[0]] + Without(s[1..], k)
  }

  predicate Free(s: string, k: Class) {
    forall i :: 0 <= i < |s| ==> !In(s[i], k)
  }

  lemma Associative(a: string, b: string, c: string)
    ensures a + b + c == a + (b + c)
  {
  }

  lemma FindAt(a: string, c: char, b: string, k: Class)
    requires Free(a, k) && In(c, k)
    ensures Find(a + [c] + b, k) == |a|
  {
    var s := a + [c] + b;
    assert s[|a|] == c;
    assert forall i :: 0 <= i < |a| ==> s[i] == a[i];
  }

  lemma {:induction false} WithoutNothing(s: string, k: Class)
    requires Free(s, k)
    ensures Without(s, k) == s
  {
    if s != [] {
      WithoutNothing(s[1..], k);
    }
  }

  lemma {:induction false} WithoutAppend(a: string, b: string, k: Class)
    ensures Without(a + b, k) == Without(a, k) + Without(b, k)
  {
    if a == [] {
      assert a + b == b;
    } else {
      assert a + b == [a[0]] + (a[1..] + b);
      WithoutAppend(a[1..], b, k);
    }
  }

  // ---------- decimal numbers ----------

  const INT_MIN := -0x8000_0000
  const INT_MAX := 0x7fff_ffff

  predicate IsDigit(c: char) {
    '0' <= c <= '9'
  }

  predicate AllDigits(s: string) {
    forall i :: 0 <= i < |s| ==> IsDigit(s[i])
  }

  function DigitOf(d: nat): (c: char)
    requires d < 10
    ensures IsDigit(c)
  {
    ('0' as int + d) as char
  }

  function Number(s: string): nat
    requires AllDigits(s)
  {
    if s == [] then 0
    else Number(s[..|s| - 1]) * 10 + (s[|s| - 1] as int - '0' as int)
  }

  /** `lexical_cast<std::string>` of a number that is not negative. */
  function Decimal(n: nat): (s: string)
    ensures s != [] && AllDigits(s)
    ensures Number(s) == n
    ensures s[0] == '0' ==> n == 0 && |s| == 1
  {
    if n < 10 then [DigitOf(n)]
    else
      var front := Decimal(n / 10);
      var s := front + [DigitOf(n % 10)];
      assert s[..|s| - 1] == front;
      s
  }

  function PrintInt(n: int): string {
    if n < 0 then "-" + Decimal(-n) else Decimal(n)
  }

  /** `lexical_cast<int>`: an optional sign and digits, in the range of a 32-bit
      int; None is the exception `bad_lexical_cast`. */
  function CastInt(s: string): (r: Option<int>)
    ensures r.Some? ==> INT_MIN <= r.value <= INT_MAX
  {
    var signed := s != [] && (s[0] == '-' || s[0] == '+');
    var digits := if signed then s[1..] else s;
    if digits == [] || !AllDigits(digits) then None
    else
      var n: int := Number(digits);
      var n := if signed && s[0] == '-' then -n else n;
      if INT_MIN <= n <= INT_MAX then Some(n) else None
  }

  /** A text stands for the number `n`: an optional sign and at least one digit. */
  predicate IsNumeral(s: string, sign: string, digits: string, n: int) {
    && s == sign + digits && digits != "" && AllDigits(digits)
    && (((sign == "" || sign == "+") && n == Number(digits)) || (sign == "-" && -n == Number(digits)))
  }

  /** The int conversion succeeds exactly for the numerals of 32-bit ints. */
  lemma CastIntExactly(s: string, n: int)
    ensures CastInt(s) == Some(n) <==>
      -2147483648 <= n <= 2147483647 && exists sign, digits :: IsNumeral(s, sign, digits, n)
  {
    var signed := s != [] && (s[0] == '-' || s[0] == '+');
    var sign, digits := if signed then s[..1] else "", if signed then s[1..] else s;
    assert s == sign + digits;
    if CastInt(s) == Some(n) {
      assert IsNumeral(s, sign, digits, n);
    }
    forall a, b | IsNumeral(s, a, b, n) && -2147483648 <= n <= 2147483647 ensures CastInt(s) == Some(n) {
      NumeralParts(s, a, b, n);
    }
  }

  lemma NumeralParts(s: string, sign: string, digits: string, n: int)
    requires IsNumeral(s, sign, digits, n) && INT_MIN <= n <= INT_MAX
    ensures CastInt(s) == Some(n)
  {
    if sign == "" {
      assert s == digits;
      assert IsDigit(s[0]);
    } else {
      assert s[0] == sign[0] && s[1..] == digits;
    }
  }

  lemma CastPrinted(n: int)
    requires INT_MIN <= n <= INT_MAX
    ensures CastInt(PrintInt(n)) == Some(n)
    ensures Free(PrintInt(n), Reserved)
  {
    var s := PrintInt(n);
    if n < 0 {
      assert s[1..] == Decimal(-n);
      assert forall i :: 1 <= i < |s| ==> IsDigit(s[i]);
    } else {
      assert forall i :: 0 <= i < |s| ==> IsDigit(s[i]);
    }
    PrintedIntFree(s);
  }

  lemma PrintedIntFree(s: string)
    requires forall i :: 0 <= i < |s| ==> s[i] == '-' || IsDigit(s[i])
    ensures Free(s, Reserved)
  {
  }

  lemma DecimalInjective(m: nat, n: nat)
    requires m != n
    ensures Decimal(m) != Decimal(n)
  {
    assert Number(Decimal(m)) == m;
  }
}
