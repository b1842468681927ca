/** Text primitives the aggregator relies on: substring search (grep, sed's
    address regex with no special characters), `String.prototype.endsWith`,
    `Array.prototype.join`, decimal rendering of a number in a template
    literal, and the newline-terminated lines of a text file. */
module Strings {

  /** `pat` occurs somewhere in `s`. */
  predicate Contains(s: string, pat: string)
    decreases |s|
  {
    pat <= s || (s != [] && Contains(s[1..], pat))
  }

  /** An occurrence of `pat` at position `i` makes `s` contain `pat`. */
  lemma {:induction false} ContainsAt(s: string, pat: string, i: nat)
    requires i <= |s| && pat <= s[i..]
    ensures Contains(s, pat)
    decreases i
  {
    if i > 0 {
      assert s[1..][i - 1..] == s[i..];
      ContainsAt(s[1..], pat, i - 1);
    }
  }

  /** `s` ends with `suffix`, as `String.prototype.endsWith` decides it. */
  predicate EndsWith(s: string, suffix: string) {
    |suffix| <= |s| && s[|s| - |suffix|..] == suffix
  }

  /** `parts.join(sep)`. */
  function JoinWith(parts: seq<string>, sep: string): string
  {
    if |parts| == 0 then ""
    else if |parts| == 1 then parts[0]
    else parts[0] + sep + JoinWith(parts[1..], sep)
  }

  /** The content of a text file whose lines are `lines`, each ended by a newline. */
  function Unlines(lines: seq<string>): string
  {
    if lines == [] then "" else lines[0] + "\n" + Unlines(lines[1..])
  }

  /** The length of the first line of `s`: the position of the first
      newline, or the whole text when there is none. */
  function LineLength(s: string): (i: nat)
    ensures i <= |s|
    ensures forall j :: 0 <= j < i ==> s[j] != '\n'
    ensures i < |s| ==> s[i] == '\n'
    decreases |s|
  {
    if s == [] || s[0] == '\n' then 0 else 1 + LineLength(s[1..])
  }

  /** The lines of a text file as a line-oriented reader such as grep sees
      them: each ends at a newline, and a last part with no newline after it
      is a line too. */
  function Lines(text: string): seq<string>
    decreases |text|
  {
    if text == [] then []
    else
      var i := LineLength(text);
      if i == |text| then [text] else [text[..i]] + Lines(text[i + 1..])
  }

  /** A text that does not contain a newline has no newline character. */
  lemma NoNewlineChars(l: string)
    requires !Contains(l, "\n")
    ensures forall j :: 0 <= j < |l| ==> l[j] != '\n'
  {
    forall j | 0 <= j < |l|
      ensures l[j] != '\n'
    {
      if l[j] == '\n' {
        assert "\n" <= l[j..];
        ContainsAt(l, "\n", j);
      }
    }
  }

  /** Reading back a file written one line per string gives the strings,
      as long as none of them holds a newline. */
  lemma {:induction false} LinesUnlines(lines: seq<string>)
    requires forall k :: 0 <= k < |lines| ==> !Contains(lines[k], "\n")
    ensures Lines(Unlines(lines)) == lines
  {
    if lines != [] {
      var l, rest := lines[0], Unlines(lines[1..]);
      var s := Unlines(lines);
      assert s == l + "\n" + rest;
      NoNewlineChars(l);
      var i := LineLength(s);
      assert s[|l|] == '\n';
      assert i == |l|;
      assert s[..i] == l;
      assert s[i + 1..] == rest;
      LinesUnlines(lines[1..]);
      assert lines == [l] + lines[1..];
    }
  }

  /** Writing two runs of lines one after the other gives the concatenated file. */
  lemma {:induction false} UnlinesAppend(a: seq<string>, b: seq<string>)
    ensures Unlines(a + b) == Unlines(a) + Unlines(b)
  {
    if a != [] {
      assert (a + b)[1..] == a[1..] + b;
      UnlinesAppend(a[1..], b);
    } else {
      assert a + b == b;
    }
  }

  /** A file written in one piece, then the rest of it in one piece. */
  lemma UnlinesPrefix(a: seq<string>, b: seq<string>, c: seq<string>)
    ensures Unlines(a + b + c) == Unlines(a) + Unlines(b + c)
  {
    assert a + b + c == a + (b + c);
    UnlinesAppend(a, b + c);
  }

  /** A non-empty file of lines is the lines joined by newlines plus a final newline. */
  lemma {:induction false} UnlinesIsJoin(lines: seq<string>)
    requires lines != []
    ensures Unlines(lines) == JoinWith(lines, "\n") + "\n"
  {
    if |lines| > 1 {
      UnlinesIsJoin(lines[1..]);
    }
  }

  predicate IsDigit(c: char)
  {
    '0' <= c <= '9'
  }

  predicate AllDigits(s: string)
  {
    forall i :: 0 <= i < |s| ==> IsDigit(s[i])
  }

  /** The number a string of decimal digits denotes. */
  function DigitsValue(s: string): nat
    requires AllDigits(s)
  {
    if s == [] then 0
    else DigitsValue(s[..|s| - 1]) * 10 + (s[|s| - 1] as int - '0' as int)
  }

  /** The decimal digits of a natural number: at least one digit, no leading
      zero, and reading them back gives the number. */
  function DecimalDigits(n: nat): (r: string)
    ensures |r| >= 1 && AllDigits(r)
    ensures r[0] != '0' || n == 0
    ensures DigitsValue(r) == n
    decreases n
  {
    var digit := ('0' as int + n % 10) as char;
    if n < 10 then [digit]
    else
      var high := DecimalDigits(n / 10);
      assert (high + [digit])[..|high|] == high;
      high + [digit]
  }

  /** How an integer number is rendered inside a template literal: a minus
      sign exactly when the number is negative, then its decimal digits. */
  function NumberText(n: int): (r: string)
    ensures |r| >= 1 && ((r[0] == '-') <==> n < 0)
    ensures n < 0 ==> |r| >= 2 && AllDigits(r[1..]) && DigitsValue(r[1..]) == -n
    ensures n >= 0 ==> AllDigits(r) && DigitsValue(r) == n
  {
    if n < 0 then
      var digits := DecimalDigits(-n);
      assert ("-" + digits)[1..] == digits;
      "-" + digits
    else DecimalDigits(n)
  }

  /** Reading a rendered number back: an optional minus sign, then digits. */
  function NumberValue(s: string): int
    requires |s| >= 1
    requires s[0] == '-' ==> AllDigits(s[1..])
    requires s[0] != '-' ==> AllDigits(s)
  {
    if s[0] == '-' then -(DigitsValue(s[1..]) as int) else DigitsValue(s)
  }

  /** Rendering then reading back gives the number, so two different
      timestamps never render to the same sed address. */
  lemma NumberTextRoundTrip(n: int)
    ensures var r := NumberText(n); NumberValue(r) == n
  {
  }

  lemma NumberTextInjective(a: int, b: int)
    requires NumberText(a) == NumberText(b)
    ensures a == b
  {
    NumberTextRoundTrip(a);
    NumberTextRoundTrip(b);
  }
}

/** The conventional optional value, standing for JavaScript's `null`. */
module Wrappers {
  datatype Option<+T> = None | Some(value: T)
}
