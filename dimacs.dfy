/**
 * The text randcnf.c writes for each formula, in the DIMACS CNF file
 * convention (lines 72, 82-83, 110 and 113): a comment line, the problem
 * line `p cnf <vars> <clauses>`, then one line per clause with every
 * literal followed by a space and the line closed by `0`.
 *
 * The small parsers below are the partners of the printers: they read the
 * text back, and the round-trip lemmas show nothing is lost.
 */
module Dimacs {
  import opened Options

  predicate IsDigit(ch: char) {
    '0' <= ch <= '9'
  }

  predicate AllDigits(s: string) {
    forall i :: 0 <= i < |s| ==> IsDigit(s[i])
  }

  function DigitChar(d: nat): (ch: char)
    requires d < 10
    ensures IsDigit(ch) && DigitValue(ch) == d
  {
    ('0' as int + d) as char
  }

  function DigitValue(ch: char): (d: nat)
    requires IsDigit(ch)
    ensures d < 10
  {
    (ch as int - '0' as int) as nat
  }

  /** Decimal digits as printf writes them: at least one, and no leading zero unless the number is 0. */
  predicate Canonical(s: string) {
    |s| > 0 && AllDigits(s) && (s[0] == '0' ==> s == "0")
  }

  /** `%lu` / `%u`: the decimal digits of x, most significant first, "0" for zero. */
  function NatToString(x: nat): (s: string)
    decreases x
    ensures Canonical(s)
    ensures s[0] == '0' <==> x == 0
  {
    if x < 10 then [DigitChar(x)] else NatToString(x / 10) + [DigitChar(x % 10)]
  }

  /** The number a string of decimal digits denotes. */
  function DigitsValue(s: string): nat
    requires AllDigits(s)
  {
    if s == [] then 0 else DigitsValue(s[..|s| - 1]) * 10 + DigitValue(s[|s| - 1])
  }

  lemma {:induction false} NatToStringRoundTrip(x: nat)
    ensures DigitsValue(NatToString(x)) == x
    decreases x
  {
    var s := NatToString(x);
    if x >= 10 {
      NatToStringRoundTrip(x / 10);
      assert s[..|s| - 1] == NatToString(x / 10);
    }
  }

  /** A number with a nonzero leading digit is positive. */
  lemma {:induction false} LeadingDigitPositive(s: string)
    requires |s| > 0 && AllDigits(s) && s[0] != '0'
    ensures DigitsValue(s) > 0
    decreases |s|
  {
    if |s| > 1 {
      LeadingDigitPositive(s[..|s| - 1]);
    }
  }

  /** Printing the value of canonical digits gives those digits back: the printed form is unique. */
  lemma {:induction false} CanonicalRoundTrip(s: string)
    requires Canonical(s)
    ensures NatToString(DigitsValue(s)) == s
    decreases |s|
  {
    var last := s[|s| - 1];
    if |s| > 1 {
      var init := s[..|s| - 1];
      assert init[0] == s[0] != '0';
      LeadingDigitPositive(init);
      CanonicalRoundTrip(init);
      var x := DigitsValue(s);
      assert x / 10 == DigitsValue(init) && x % 10 == DigitValue(last);
      assert DigitChar(DigitValue(last)) == last;
      assert init + [last] == s;
    } else {
      assert DigitChar(DigitValue(last)) == last;
      assert [last] == s;
    }
  }

  /** Different numbers print differently. */
  lemma NatToStringInjective(x: nat, y: nat)
    requires NatToString(x) == NatToString(y)
    ensures x == y
  {
    NatToStringRoundTrip(x);
    NatToStringRoundTrip(y);
  }

  /** Signed decimal text as printf writes it: canonical digits, after a '-' unless the number is 0 or more. */
  predicate CanonicalInt(t: string) {
    Canonical(t) || (|t| > 1 && t[0] == '-' && Canonical(t[1..]) && t[1..] != "0")
  }

  /** `%ld`: a signed literal, with a leading '-' when negative. */
  function IntToString(v: int): (s: string)
    ensures CanonicalInt(s) && ' ' !in s && '\n' !in s
    ensures s[0] == '-' <==> v < 0
  {
    if v < 0 then "-" + NatToString(-v) else NatToString(v)
  }

  /** Reads one signed decimal number, the whole string. */
  function ParseInt(t: string): Option<int> {
    if |t| > 1 && t[0] == '-' && AllDigits(t[1..]) then Some(-(DigitsValue(t[1..]) as int))
    else if |t| > 0 && AllDigits(t) then Some(DigitsValue(t))
    else None
  }

  lemma IntToStringRoundTrip(v: int)
    ensures ParseInt(IntToString(v)) == Some(v)
  {
    var s := IntToString(v);
    if v < 0 {
      var digits := NatToString(-v);
      assert s == "-" + digits;
      assert s[1..] == digits;
      NatToStringRoundTrip(-v);
    } else {
      assert IsDigit(s[0]);
      NatToStringRoundTrip(v);
    }
  }

  /** The number of lines of a text: its newline characters. */
  function LineCount(s: string): nat {
    multiset(s)['\n']
  }

  /** Printing the number read from canonical signed text gives that text back. */
  lemma CanonicalIntRoundTrip(t: string)
    requires CanonicalInt(t)
    ensures ParseInt(t).Some? && IntToString(ParseInt(t).value) == t
  {
    if Canonical(t) {
      assert !IsDigit('-');
      CanonicalRoundTrip(t);
    } else {
      var digits := t[1..];
      assert digits[0] != '0';
      LeadingDigitPositive(digits);
      CanonicalRoundTrip(digits);
      assert "-" + digits == t;
    }
  }

  /** randcnf.c:110: each literal of the clause followed by one space, in order. */
  function LiteralsText(c: seq<int>): (s: string)
    ensures '\n' !in s
    ensures c == [] <==> s == ""
    ensures c != [] ==> s[|s| - 1] == ' '
  {
    if c == [] then "" else IntToString(c[0]) + " " + LiteralsText(c[1..])
  }

  /** randcnf.c:110 and 113: a whole clause line. */
  function ClauseLine(c: seq<int>): (s: string)
    ensures |s| >= 2 && s[|s| - 2..] == "0\n"
    ensures '\n' !in s[..|s| - 1]
  {
    var t := LiteralsText(c);
    assert (t + "0\n")[..|t| + 1] == t + "0";
    t + "0\n"
  }

  /** randcnf.c:82: the comment line opening every file. */
  const CommentLine := "c random formula\n"

  /** randcnf.c:83: the problem line `p cnf <vars> <clauses>`, a single line. */
  function ProblemLine(numVars: nat, numClauses: nat): (s: string)
    ensures |s| > 6 && s[..6] == "p cnf " && s[|s| - 1] == '\n'
    ensures '\n' !in s[..|s| - 1]
  {
    var a, b := NatToString(numVars), NatToString(numClauses);
    var line := "p cnf " + a + " " + b;
    assert '\n' !in a && '\n' !in b by {
      assert !IsDigit('\n');
    }
    assert (line + "\n")[..|line|] == line;
    line + "\n"
  }

  /** randcnf.c:82-83: the comment line and the problem line. */
  function Header(numVars: nat, numClauses: nat): (s: string)
    ensures |s| > 17 && s[..17] == "c random formula\n" && s[|s| - 1] == '\n'
  {
    CommentLine + ProblemLine(numVars, numClauses)
  }

  /** The clause lines of a formula, one after another. */
  function Body(clauses: seq<seq<int>>): string
  {
    if clauses == [] then ""
    else Body(clauses[..|clauses| - 1]) + ClauseLine(clauses[|clauses| - 1])
  }

  /** The whole text written to one formula's file. */
  function FormulaText(numVars: nat, numClauses: nat, clauses: seq<seq<int>>): (s: string)
    ensures |s| > 17 && s[..17] == "c random formula\n"
  {
    var h := Header(numVars, numClauses);
    assert (h + Body(clauses))[..17] == h[..17];
    h + Body(clauses)
  }

  /** A text without a newline has no lines. */
  lemma NoNewlineNoLines(s: string)
    requires '\n' !in s
    ensures LineCount(s) == 0
  {
    assert '\n' !in multiset(s);
  }

  /** Lines of two texts put together add up. */
  lemma LineCountAppend(x: string, y: string)
    ensures LineCount(x + y) == LineCount(x) + LineCount(y)
  {
    assert multiset(x + y) == multiset(x) + multiset(y);
  }

  /** A text that ends in its only newline is one line. */
  lemma OneLine(s: string)
    requires |s| > 0 && s[|s| - 1] == '\n' && '\n' !in s[..|s| - 1]
    ensures LineCount(s) == 1
  {
    assert s == s[..|s| - 1] + "\n";
    NoNewlineNoLines(s[..|s| - 1]);
    LineCountAppend(s[..|s| - 1], "\n");
    assert multiset("\n") == multiset{'\n'};
  }

  /** randcnf.c:82: the comment is one line. */
  lemma CommentLineLines()
    ensures LineCount(CommentLine) == 1
  {
    assert CommentLine[..|CommentLine| - 1] == "c random formula";
    OneLine(CommentLine);
  }

  /** randcnf.c:82-83: the header is two lines. */
  lemma HeaderLines(numVars: nat, numClauses: nat)
    ensures LineCount(Header(numVars, numClauses)) == 2
  {
    CommentLineLines();
    OneLine(ProblemLine(numVars, numClauses));
    LineCountAppend(CommentLine, ProblemLine(numVars, numClauses));
  }

  /** randcnf.c:110-113: a clause line is one line. */
  lemma ClauseLineLines(c: seq<int>)
    ensures LineCount(ClauseLine(c)) == 1
  {
    OneLine(ClauseLine(c));
  }

  /** Every clause adds one line to the body. */
  lemma {:induction false} BodyLines(clauses: seq<seq<int>>)
    ensures LineCount(Body(clauses)) == |clauses|
    decreases |clauses|
  {
    if clauses != [] {
      BodyLines(clauses[..|clauses| - 1]);
      ClauseLineLines(clauses[|clauses| - 1]);
    }
  }

  /** A formula's file has `num_clauses + 2` lines: the header and one per clause. */
  lemma FormulaTextLines(numVars: nat, numClauses: nat, clauses: seq<seq<int>>)
    ensures LineCount(FormulaText(numVars, numClauses, clauses)) == 2 + |clauses|
  {
    HeaderLines(numVars, numClauses);
    BodyLines(clauses);
  }

  /** randcnf.c:72: the file of formula k (counted from 0) is `randomcnf-<k+1>`. */
  function FileName(k: nat): (s: string)
    ensures |s| > 10 && s[..10] == "randomcnf-"
    ensures Canonical(s[10..]) && DigitsValue(s[10..]) == k + 1
  {
    var digits := NatToString(k + 1);
    NatToStringRoundTrip(k + 1);
    assert ("randomcnf-" + digits)[10..] == digits;
    "randomcnf-" + digits
  }

  /** Body grows by one line per clause. */
  lemma BodyAppend(clauses: seq<seq<int>>, c: seq<int>)
    ensures Body(clauses + [c]) == Body(clauses) + ClauseLine(c)
  {
    assert (clauses + [c])[..|clauses|] == clauses;
  }

  /** A formula's text grows by one line per clause. */
  lemma FormulaTextAppend(numVars: nat, numClauses: nat, clauses: seq<seq<int>>, c: seq<int>)
    ensures FormulaText(numVars, numClauses, clauses + [c]) == FormulaText(numVars, numClauses, clauses) + ClauseLine(c)
  {
    BodyAppend(clauses, c);
  }

  /** No two formulas of a run share a file name. */
  lemma FileNamesDistinct(j: nat, k: nat)
    requires FileName(j) == FileName(k)
    ensures j == k
  {
    assert FileName(j)[10..] == NatToString(j + 1);
    assert FileName(k)[10..] == NatToString(k + 1);
    NatToStringInjective(j + 1, k + 1);
  }

  /** Splits at the first space: the token before it and the text after it. */
  function SplitToken(s: string): (r: Option<(string, string)>)
    ensures r.Some? ==> |r.value.1| < |s|
  {
    if s == [] then None
    else if s[0] == ' ' then Some(([], s[1..]))
    else
      match SplitToken(s[1..])
      case None => None
      case Some((t, rest)) => Some(([s[0]] + t, rest))
  }

  lemma {:induction false} SplitTokenOf(t: string, rest: string)
    requires ' ' !in t
    ensures SplitToken(t + " " + rest) == Some((t, rest))
  {
    if t == [] {
      assert t + " " + rest == [' '] + rest;
    } else {
      assert (t + " " + rest)[1..] == t[1..] + " " + rest;
      SplitTokenOf(t[1..], rest);
      assert [t[0]] + t[1..] == t;
    }
  }

  /** Reads a clause line back: nonzero literals, each ended by a space, then `0\n`. */
  function ParseClauseLine(s: string): Option<seq<int>>
    decreases |s|
  {
    if s == "0\n" then Some([])
    else
      match SplitToken(s)
      case None => None
      case Some((t, rest)) =>
        match ParseInt(t)
        case None => None
        case Some(v) =>
          if v == 0 then None
          else
            match ParseClauseLine(rest)
            case None => None
            case Some(vs) => Some([v] + vs)
  }

  /** A nonempty clause's line is its first literal, a space, and the line of the rest. */
  lemma ClauseLineCons(c: seq<int>)
    requires c != []
    ensures ClauseLine(c) == IntToString(c[0]) + " " + ClauseLine(c[1..])
  {
  }

  /** Reading one nonzero literal and its space, then the rest of the line. */
  lemma ParseClauseLineStep(t: string, rest: string, v: int, vs: seq<int>)
    requires ' ' !in t && |rest| >= 2 && v != 0
    requires ParseInt(t) == Some(v) && ParseClauseLine(rest) == Some(vs)
    ensures ParseClauseLine(t + " " + rest) == Some([v] + vs)
  {
    assert |t + " " + rest| > 2;
    SplitTokenOf(t, rest);
  }

  /** Every clause of nonzero literals is read back exactly from its line. */
  lemma {:induction false} ClauseLineRoundTrip(c: seq<int>)
    requires forall i :: 0 <= i < |c| ==> c[i] != 0
    ensures ParseClauseLine(ClauseLine(c)) == Some(c)
  {
    if c != [] {
      ClauseLineCons(c);
      IntToStringRoundTrip(c[0]);
      ClauseLineRoundTrip(c[1..]);
      ParseClauseLineStep(IntToString(c[0]), ClauseLine(c[1..]), c[0], c[1..]);
      assert [c[0]] + c[1..] == c;
    }
  }

  /** Reads a problem line `p cnf <vars> <clauses>\n` back. */
  function ParseProblemLine(s: string): Option<(nat, nat)> {
    if |s| < 7 || s[..6] != "p cnf " || s[|s| - 1] != '\n' then None
    else
      match SplitToken(s[6..|s| - 1])
      case None => None
      case Some((a, b)) =>
        if |a| > 0 && |b| > 0 && AllDigits(a) && AllDigits(b)
        then Some((DigitsValue(a), DigitsValue(b)))
        else None
  }

  /** The problem line reads back as the two counts it prints. */
  lemma ProblemLineRoundTrip(numVars: nat, numClauses: nat)
    ensures ParseProblemLine(ProblemLine(numVars, numClauses)) == Some((numVars, numClauses))
  {
    var p := ProblemLine(numVars, numClauses);
    var a, b := NatToString(numVars), NatToString(numClauses);
    assert p == "p cnf " + a + " " + b + "\n";
    assert p[6..|p| - 1] == a + " " + b;
    SplitTokenOf(a, b);
    NatToStringRoundTrip(numVars);
    NatToStringRoundTrip(numClauses);
  }

  /** The header is the comment line followed by a problem line that reads back its two counts. */
  lemma HeaderRoundTrip(numVars: nat, numClauses: nat)
    ensures var h := Header(numVars, numClauses);
      h[..17] == "c random formula\n" && ParseProblemLine(h[17..]) == Some((numVars, numClauses))
  {
    var h := Header(numVars, numClauses);
    assert h[17..] == ProblemLine(numVars, numClauses);
    ProblemLineRoundTrip(numVars, numClauses);
  }
}
