/**
 * The wire format of Select Graphic Rendition (ECMA-48, section 8.3.117):
 * the control sequence introducer ESC '[' (ECMA-48, section 5.4), the
 * parameters as base-10 integers separated by ';', and the final byte 'm'.
 *
 * Render is what a colour's format() produces for its parameter list;
 * ParseSgr reads such a sequence back and is its proved inverse.
 */
module Sgr {
  import opened Options
  import opened Attributes

  /** ESC, the first character of every control sequence. */
  const Escape: char := '\U{1B}'
  /** The 7-bit control sequence introducer, ESC '['. */
  const Introducer: string := [Escape, '[']
  /** The final byte that selects the SGR control function. */
  const FinalByte: char := 'm'
  /** The separator between two parameters. */
  const Separator: char := ';'
  /** The sequence that resets every attribute. */
  const ResetSequence: string := "\U{1B}[0m"

  predicate IsDigit(c: char) {
    '0' <= c <= '9'
  }

  predicate AllDigits(s: string) {
    forall i :: 0 <= i < |s| ==> IsDigit(s[i])
  }

  /** An optional '-' followed by one or more decimal digits. */
  predicate IsDecimal(s: string) {
    if |s| > 0 && s[0] == '-' then |s| > 1 && AllDigits(s[1..]) else |s| > 0 && AllDigits(s)
  }

  function DigitChar(d: int): (c: char)
    requires 0 <= d < 10
    ensures IsDigit(c) && c as int - '0' as int == d
  {
    ('0' as int + d) as char
  }

  /** The digits of n, most significant first, with no leading zero. */
  function NaturalDigits(n: nat): (r: string)
    ensures |r| > 0 && AllDigits(r)
    ensures r[0] == '0' ==> n == 0
  {
    if n < 10 then [DigitChar(n)] else NaturalDigits(n / 10) + [DigitChar(n % 10)]
  }

  /** strconv.Itoa: base 10, with a leading '-' exactly for negative numbers. */
  function Itoa(n: int): (r: string)
    ensures IsDecimal(r)
    ensures r[0] == '-' <==> n < 0
  {
    if n < 0 then "-" + NaturalDigits(-n) else NaturalDigits(n)
  }

  /** strings.Join: the parts with sep between consecutive ones. */
  function Join(parts: seq<string>, sep: char): string {
    if |parts| == 0 then ""
    else if |parts| == 1 then parts[0]
    else parts[0] + [sep] + Join(parts[1..], sep)
  }

  /** The parameters rendered one by one, as sequence() fills its slice. */
  function Decimals(ps: seq<Attribute>): (r: seq<string>)
    ensures |r| == |ps|
  {
    seq(|ps|, i requires 0 <= i < |ps| => Itoa(ps[i]))
  }

  /** The parameter string between introducer and final byte: sequence(). */
  function Parameters(ps: seq<Attribute>): (r: string)
    ensures r == "" <==> |ps| == 0
    ensures |ps| > 0 ==> |Itoa(ps[0])| <= |r| && r[..|Itoa(ps[0])|] == Itoa(ps[0])
  {
    Join(Decimals(ps), Separator)
  }

  /** The SGR control sequence for ps: format(). */
  function Render(ps: seq<Attribute>): (r: string)
    ensures |r| >= 3 && r[..2] == Introducer && r[|r| - 1] == FinalByte
    ensures r[2..|r| - 1] == Parameters(ps)
  {
    Introducer + Parameters(ps) + [FinalByte]
  }

  // ---------------------------------------------------------------------
  // Reading a sequence back
  // ---------------------------------------------------------------------

  /** The value of a string of digits, read most significant first. */
  function DigitsValue(s: string): nat
    requires AllDigits(s)
  {
    if |s| == 0 then 0 else 10 * DigitsValue(s[..|s| - 1]) + (s[|s| - 1] as int - '0' as int)
  }

  function ParseDecimal(s: string): Option<int> {
    if !IsDecimal(s) then None
    else if s[0] == '-' then Some(0 - DigitsValue(s[1..]))
    else Some(DigitsValue(s))
  }

  /** The pieces of s between occurrences of sep; s itself when sep does not occur. */
  function Split(s: string, sep: char): (r: seq<string>)
    ensures |r| > 0
  {
    if |s| == 0 then [""]
    else if s[0] == sep then [""] + Split(s[1..], sep)
    else
      var rest := Split(s[1..], sep);
      [[s[0]] + rest[0]] + rest[1..]
  }

  function ParseAll(parts: seq<string>): Option<seq<Attribute>> {
    if |parts| == 0 then Some([])
    else
      match ParseDecimal(parts[0])
      case None => None
      case Some(v) =>
        match ParseAll(parts[1..])
        case None => None
        case Some(vs) => Some([v] + vs)
  }

  /** The parameters of a parameter string; the empty string has none. */
  function ParseParameters(body: string): Option<seq<Attribute>> {
    if body == "" then Some([]) else ParseAll(Split(body, Separator))
  }

  /** The parameters of an SGR control sequence, or None if s is not one. */
  function ParseSgr(s: string): Option<seq<Attribute>> {
    if |s| >= 3 && s[..2] == Introducer && s[|s| - 1] == FinalByte
    then ParseParameters(s[2..|s| - 1])
    else None
  }

  // ---------------------------------------------------------------------
  // Lemmas
  // ---------------------------------------------------------------------

  lemma {:induction false} DigitsValueOfNaturalDigits(n: nat)
    ensures DigitsValue(NaturalDigits(n)) == n
  {
    if n >= 10 {
      var r := NaturalDigits(n);
      assert r[..|r| - 1] == NaturalDigits(n / 10);
      DigitsValueOfNaturalDigits(n / 10);
    } else {
      assert NaturalDigits(n)[..0] == [];
    }
  }

  /** Reading back what Itoa wrote gives the number again, negatives included. */
  lemma ParseItoa(n: int)
    ensures ParseDecimal(Itoa(n)) == Some(n)
  {
    if n < 0 {
      assert Itoa(n)[1..] == NaturalDigits(-n);
      DigitsValueOfNaturalDigits(-n);
    } else {
      DigitsValueOfNaturalDigits(n);
    }
  }

  lemma {:induction false} JoinAvoids(parts: seq<string>, sep: char, c: char)
    requires c != sep
    requires forall i :: 0 <= i < |parts| ==> c !in parts[i]
    ensures c !in Join(parts, sep)
  {
    if |parts| > 1 {
      JoinAvoids(parts[1..], sep, c);
    }
  }

  lemma {:induction false} SplitPrefix(x: string, rest: string, sep: char)
    requires sep !in x
    ensures Split(x + rest, sep) == [x + Split(rest, sep)[0]] + Split(rest, sep)[1..]
  {
    if |x| == 0 {
      var r := Split(rest, sep);
      assert x + rest == rest;
      assert x + r[0] == r[0];
      assert [r[0]] + r[1..] == r;
    } else {
      assert (x + rest)[0] == x[0];
      assert (x + rest)[1..] == x[1..] + rest;
      SplitPrefix(x[1..], rest, sep);
      assert [x[0]] + (x[1..] + Split(rest, sep)[0]) == x + Split(rest, sep)[0];
    }
  }

  /** Splitting a join at its separator gives the parts back. */
  lemma {:induction false} SplitJoin(parts: seq<string>, sep: char)
    requires |parts| > 0
    requires forall i :: 0 <= i < |parts| ==> sep !in parts[i]
    ensures Split(Join(parts, sep), sep) == parts
  {
    if |parts| == 1 {
      SplitPrefix(parts[0], "", sep);
      assert parts[0] + "" == parts[0];
    } else {
      var tail := Join(parts[1..], sep);
      assert Join(parts, sep) == parts[0] + ([sep] + tail);
      SplitPrefix(parts[0], [sep] + tail, sep);
      assert ([sep] + tail)[0] == sep;
      assert ([sep] + tail)[1..] == tail;
      assert Split([sep] + tail, sep) == [""] + Split(tail, sep);
      SplitJoin(parts[1..], sep);
      assert parts[0] + "" == parts[0];
      assert [parts[0]] + parts[1..] == parts;
    }
  }

  lemma {:induction false} ParseAllDecimals(ps: seq<Attribute>)
    ensures ParseAll(Decimals(ps)) == Some(ps)
  {
    if |ps| > 0 {
      ParseItoa(ps[0]);
      assert Decimals(ps)[1..] == Decimals(ps[1..]);
      ParseAllDecimals(ps[1..]);
      assert [ps[0]] + ps[1..] == ps;
    }
  }

  /** No rendered parameter contains the separator or the final byte. */
  lemma DecimalsAvoid(ps: seq<Attribute>, c: char)
    requires c != '-' && !IsDigit(c)
    ensures forall i :: 0 <= i < |ps| ==> c !in Decimals(ps)[i]
  {
  }

  /**
   * The parameter string determines the parameters: reading it back
   * gives exactly ps, the empty list included.
   */
  lemma ParametersRoundTrip(ps: seq<Attribute>)
    ensures ParseParameters(Parameters(ps)) == Some(ps)
  {
    if |ps| > 0 {
      var parts := Decimals(ps);
      assert |Join(parts, Separator)| >= |parts[0]| > 0;
      DecimalsAvoid(ps, Separator);
      SplitJoin(parts, Separator);
      ParseAllDecimals(ps);
    }
  }

  /** The SGR sequence for ps reads back as ps: format() loses nothing and is injective. */
  lemma RenderRoundTrip(ps: seq<Attribute>)
    ensures ParseSgr(Render(ps)) == Some(ps)
  {
    var s := Render(ps);
    assert s[..2] == Introducer;
    assert s[2..|s| - 1] == Parameters(ps);
    ParametersRoundTrip(ps);
  }

  /** Two parameter lists render alike only if they are the same list. */
  lemma RenderInjective(ps: seq<Attribute>, qs: seq<Attribute>)
    requires Render(ps) == Render(qs)
    ensures ps == qs
  {
    RenderRoundTrip(ps);
    RenderRoundTrip(qs);
  }

  /** Occurrences of c in s. */
  function Count(s: string, c: char): nat {
    if |s| == 0 then 0 else (if s[0] == c then 1 else 0) + Count(s[1..], c)
  }

  lemma {:induction false} CountAppend(a: string, b: string, c: char)
    ensures Count(a + b, c) == Count(a, c) + Count(b, c)
  {
    if |a| > 0 {
      assert (a + b)[1..] == a[1..] + b;
      CountAppend(a[1..], b, c);
    } else {
      assert a + b == b;
    }
  }

  lemma {:induction false} CountAbsent(s: string, c: char)
    requires c !in s
    ensures Count(s, c) == 0
  {
    if |s| > 0 {
      CountAbsent(s[1..], c);
    }
  }

  lemma {:induction false} JoinSeparatorCount(parts: seq<string>, sep: char)
    requires forall i :: 0 <= i < |parts| ==> sep !in parts[i]
    ensures Count(Join(parts, sep), sep) == if |parts| == 0 then 0 else |parts| - 1
  {
    if |parts| == 1 {
      CountAbsent(parts[0], sep);
    } else if |parts| > 1 {
      var tail := Join(parts[1..], sep);
      CountAppend(parts[0] + [sep], tail, sep);
      CountAppend(parts[0], [sep], sep);
      CountAbsent(parts[0], sep);
      JoinSeparatorCount(parts[1..], sep);
    }
  }

  /**
   * There is one ';' between each two parameters and none elsewhere: an
   * empty list and a single parameter produce no separator.
   */
  lemma SeparatorCount(ps: seq<Attribute>)
    ensures Count(Parameters(ps), Separator) == if |ps| == 0 then 0 else |ps| - 1
  {
    DecimalsAvoid(ps, Separator);
    JoinSeparatorCount(Decimals(ps), Separator);
  }

  /**
   * A rendered sequence holds no '%', so writing it with Fprintf as the
   * format string (as setWriter does) writes it verbatim.
   */
  lemma RenderHasNoVerb(ps: seq<Attribute>)
    ensures '%' !in Render(ps)
  {
    DecimalsAvoid(ps, '%');
    JoinAvoids(Decimals(ps), Separator, '%');
  }

  /** The reset sequence is the SGR sequence of the single attribute Reset. */
  lemma ResetIsRenderOfReset()
    ensures Render([Reset]) == ResetSequence
  {
  }

  /** Concrete sequences: empty, single and two parameters. */
  lemma RenderExamples()
    ensures Render([]) == "\U{1B}[m"
    ensures Render([FgRed]) == "\U{1B}[31m"
    ensures Render([Bold, FgGreen]) == "\U{1B}[1;32m"
    ensures Render([-1]) == "\U{1B}[-1m"
  {
    assert Decimals([]) == [];
    assert Itoa(31) == "31";
    assert Decimals([FgRed]) == ["31"];
    assert Itoa(1) == "1";
    assert Itoa(32) == "32";
    assert Decimals([Bold, FgGreen]) == ["1", "32"];
    assert Join(["1", "32"], Separator) == "1;32";
    assert Itoa(-1) == "-1";
    assert Decimals([-1]) == ["-1"];
  }
}
