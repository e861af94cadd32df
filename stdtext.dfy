// The pieces of the C++ standard library the configuration text format
// relies on: `operator<<` of a bool and an int on an ostringstream,
// `std::stoi` (strtol in base 10, then a range check), and `std::getline`
// splitting an istringstream at '\n'.
module StdText {
  import opened W = Word
  import opened Options

  /** Why std::stoi threw: no digits at all, or a value outside int. */
  datatype StoiError = InvalidArgument | OutOfRange

  datatype Parsed<T> = Ok(value: T) | Err(error: StoiError)

  predicate IsDigit(c: char)
  {
    '0' <= c <= '9'
  }

  predicate AllDigits(s: string)
  {
    forall i :: 0 <= i < |s| ==> IsDigit(s[i])
  }

  function DigitChar(d: nat): (c: char)
    requires d < 10
    ensures IsDigit(c) && c as int - 48 == d
  {
    (48 + d) as char
  }

  /** The decimal digits of n without leading zeros; "0" for zero. */
  function NatDigits(n: nat): (s: string)
    ensures |s| > 0 && AllDigits(s)
    ensures s[0] != '0' || n == 0
    decreases n
  {
    if n < 10 then [DigitChar(n)] else NatDigits(n / 10) + [DigitChar(n % 10)]
  }

  /** The number a string of decimal digits denotes, most significant first. */
  function DigitsValue(s: string): int
  {
    if |s| == 0 then 0 else DigitsValue(s[..|s| - 1]) * 10 + (s[|s| - 1] as int - 48)
  }

  /** os << n for an int: a minus sign for negative values, then the magnitude. */
  function Decimal(n: int): (s: string)
    ensures |s| > 0 && '\n' !in s && '=' !in s
  {
    if n < 0 then "-" + NatDigits(-n) else NatDigits(n)
  }

  /** os << b for a bool without std::boolalpha. */
  function BoolText(b: bool): (s: string)
    ensures s == "1" <==> b
  {
    if b then "1" else "0"
  }

  /** The characters isspace accepts in the C locale. */
  predicate IsSpace(c: char)
  {
    c == ' ' || c == '\t' || c == '\n' || c == '\U{000B}' || c == '\U{000C}' || c == '\r'
  }

  function SkipSpace(s: string): (t: string)
    ensures |t| <= |s|
  {
    if |s| > 0 && IsSpace(s[0]) then SkipSpace(s[1..]) else s
  }

  /** The length of the run of digits that starts s. */
  function DigitRun(s: string): (n: nat)
    ensures n <= |s|
  {
    if |s| > 0 && IsDigit(s[0]) then 1 + DigitRun(s[1..]) else 0
  }

  /**
   * std::stoi(s): leading white space, an optional sign and the longest run
   * of digits after it; characters after the run are ignored.
   */
  function Stoi(s: string): (r: Parsed<Int32>)
  {
    var t := SkipSpace(s);
    if |t| > 0 && t[0] == '-' then Convert(true, t[1..])
    else if |t| > 0 && t[0] == '+' then Convert(false, t[1..])
    else Convert(false, t)
  }

  /** The digits that start body, negated when a minus sign preceded them. */
  function Convert(negative: bool, body: string): (r: Parsed<Int32>)
  {
    var n := DigitRun(body);
    if n == 0 then Err(InvalidArgument)
    else
      var magnitude := DigitsValue(body[..n]);
      var v := if negative then -magnitude else magnitude;
      if -0x8000_0000 <= v < 0x8000_0000 then Ok(v) else Err(OutOfRange)
  }

  lemma {:induction false} DigitsValueOfNat(n: nat)
    ensures DigitsValue(NatDigits(n)) == n
    decreases n
  {
    if n >= 10 {
      var s := NatDigits(n);
      assert s[..|s| - 1] == NatDigits(n / 10);
      DigitsValueOfNat(n / 10);
    }
  }

  lemma DigitRunAll(s: string, t: string)
    requires AllDigits(s) && (t == [] || !IsDigit(t[0]))
    ensures DigitRun(s + t) == |s|
    decreases |s|
  {
    if |s| > 0 {
      assert (s + t)[1..] == s[1..] + t;
      DigitRunAll(s[1..], t);
    }
  }

  lemma ConvertKnown(negative: bool, body: string, n: nat, v: int)
    requires DigitRun(body) == n > 0 && DigitsValue(body[..n]) == v
    requires 0 <= v && (if negative then v <= 0x8000_0000 else v < 0x8000_0000)
    ensures Convert(negative, body) == Ok(if negative then 0 - v else v)
  {
  }

  /** Converting a run of digits ended by a non-digit reads exactly that run. */
  lemma ConvertRun(negative: bool, d: string, t: string)
    requires |d| > 0 && AllDigits(d) && (t == [] || !IsDigit(t[0]))
    requires var v := DigitsValue(d); 0 <= v && (if negative then v <= 0x8000_0000 else v < 0x8000_0000)
    ensures Convert(negative, d + t) == Ok(if negative then 0 - DigitsValue(d) else DigitsValue(d))
  {
    DigitRunAll(d, t);
    assert (d + t)[..|d|] == d;
    ConvertKnown(negative, d + t, |d|, DigitsValue(d));
  }

  /** stoi of a run of digits ended by a non-digit. */
  lemma StoiPlain(d: string, t: string)
    requires |d| > 0 && AllDigits(d) && (t == [] || !IsDigit(t[0]))
    requires 0 <= DigitsValue(d) < 0x8000_0000
    ensures Stoi(d + t) == Ok(DigitsValue(d))
  {
    var s := d + t;
    assert s[0] == d[0] && IsDigit(s[0]);
    assert SkipSpace(s) == s;
    assert Stoi(s) == Convert(false, s);
    ConvertRun(false, d, t);
  }

  /** stoi of a minus sign and a run of digits ended by a non-digit. */
  lemma StoiMinus(d: string, t: string)
    requires |d| > 0 && AllDigits(d) && (t == [] || !IsDigit(t[0]))
    requires 0 <= DigitsValue(d) <= 0x8000_0000
    ensures Stoi("-" + (d + t)) == Ok(0 - DigitsValue(d))
  {
    var s := "-" + (d + t);
    assert s[0] == '-';
    assert SkipSpace(s) == s;
    assert s[1..] == d + t;
    assert Stoi(s) == Convert(true, d + t);
    ConvertRun(true, d, t);
  }

  /**
   * stoi reads back what operator<< wrote for any int, whatever non-digit
   * text follows it.
   */
  lemma StoiDecimal(n: Int32, t: string)
    requires t == [] || !IsDigit(t[0])
    ensures Stoi(Decimal(n) + t) == Ok(n)
  {
    var ni: int := n;
    var m: nat := if ni < 0 then -ni else ni;
    DigitsValueOfNat(m);
    if ni < 0 {
      StoiMinus(NatDigits(m), t);
      assert Decimal(n) + t == "-" + (NatDigits(m) + t);
    } else {
      StoiPlain(NatDigits(m), t);
    }
  }

  /** stoi fails exactly when no digit follows the white space and the sign. */
  lemma StoiInvalid(s: string)
    ensures Stoi(s) == Err(InvalidArgument) <==>
      var t := SkipSpace(s);
      var body := if |t| > 0 && (t[0] == '-' || t[0] == '+') then t[1..] else t;
      |body| == 0 || !IsDigit(body[0])
  {
    var t := SkipSpace(s);
    var body := if |t| > 0 && (t[0] == '-' || t[0] == '+') then t[1..] else t;
    assert Stoi(s) == Convert(|t| > 0 && t[0] == '-', body);
  }

  /** The first index of c in s. */
  function Find(s: string, c: char): (r: Option<nat>)
    ensures r.None? <==> c !in s
    ensures r.Some? ==> r.value < |s| && s[r.value] == c && c !in s[..r.value]
  {
    if |s| == 0 then None
    else if s[0] == c then Some(0)
    else match Find(s[1..], c)
      case None => None
      case Some(i) =>
        assert s[..i + 1] == [s[0]] + s[1..][..i];
        Some(i + 1)
  }

  /**
   * The lines std::getline extracts from an istringstream: the text between
   * '\n' characters, with no final empty line after a trailing '\n'.
   */
  function Lines(s: string): (ls: seq<string>)
    ensures forall i :: 0 <= i < |ls| ==> '\n' !in ls[i]
    decreases |s|
  {
    match Find(s, '\n')
    case None => if |s| == 0 then [] else [s]
    case Some(i) => [s[..i]] + Lines(s[i + 1..])
  }

  /** What a chain of `os << line << "\n"` writes. */
  function JoinLines(ls: seq<string>): string
  {
    if |ls| == 0 then "" else ls[0] + "\n" + JoinLines(ls[1..])
  }

  /** getline splits a text of newline-terminated lines back into those lines. */
  lemma {:induction false} LinesOfJoin(ls: seq<string>)
    requires forall i :: 0 <= i < |ls| ==> '\n' !in ls[i]
    ensures Lines(JoinLines(ls)) == ls
  {
    if |ls| > 0 {
      var s := JoinLines(ls);
      var rest := JoinLines(ls[1..]);
      assert s == ls[0] + ("\n" + rest);
      FindAfter(ls[0], '\n', "\n" + rest);
      assert s[..|ls[0]|] == ls[0];
      assert s[|ls[0]| + 1..] == rest;
      LinesOfJoin(ls[1..]);
    }
  }

  lemma FindAfter(a: string, c: char, b: string)
    requires c !in a && |b| > 0 && b[0] == c
    ensures Find(a + b, c) == Some(|a|)
    decreases |a|
  {
    if |a| > 0 {
      assert (a + b)[1..] == a[1..] + b;
      FindAfter(a[1..], c, b);
    }
  }
}
