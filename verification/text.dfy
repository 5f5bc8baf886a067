/**
 * The JavaScript string operations the handlers rely on: `trim`, `split` on one
 * character, `join`, `startsWith`, and the decimal rendering of a number inside a
 * template literal.
 */
module Text {

  /** The characters `String.prototype.trim` removes (WhiteSpace and LineTerminator). */
  predicate IsWhitespace(c: char) {
    || c == ' ' || c == '\t' || c == '\n' || c == '\r'
    || c == '\U{B}' || c == '\U{C}' || c == '\U{A0}' || c == '\U{1680}'
    || ('\U{2000}' <= c <= '\U{200A}')
    || c == '\U{2028}' || c == '\U{2029}' || c == '\U{202F}' || c == '\U{205F}'
    || c == '\U{3000}' || c == '\U{FEFF}'
  }

  /** Every character of `s` is whitespace (the empty string included). */
  predicate IsBlank(s: string) {
    forall i :: 0 <= i < |s| ==> IsWhitespace(s[i])
  }

  /** The number of whitespace characters `s` starts with. */
  function LeadingBlanks(s: string): (n: nat)
    ensures n <= |s|
    ensures forall i :: 0 <= i < n ==> IsWhitespace(s[i])
    ensures n < |s| ==> !IsWhitespace(s[n])
  {
    if |s| > 0 && IsWhitespace(s[0]) then
      var m := LeadingBlanks(s[1..]);
      assert forall i :: 1 <= i < m + 1 ==> s[i] == s[1..][i - 1];
      m + 1
    else 0
  }

  /** The number of whitespace characters `s` ends with. */
  function TrailingBlanks(s: string): (n: nat)
    ensures n <= |s|
    ensures forall i :: |s| - n <= i < |s| ==> IsWhitespace(s[i])
    ensures n < |s| ==> !IsWhitespace(s[|s| - n - 1])
  {
    if |s| > 0 && IsWhitespace(s[|s| - 1]) then
      var m := TrailingBlanks(s[..|s| - 1]);
      assert forall i :: |s| - 1 - m <= i < |s| - 1 ==> s[i] == s[..|s| - 1][i];
      m + 1
    else 0
  }

  /**
   * `s.trim()`: drop the leading whitespace, then the trailing whitespace of
   * what is left. Empty exactly when `s` is all whitespace.
   */
  function Trim(s: string): (r: string)
    ensures r == [] <==> IsBlank(s)
  {
    var lead := LeadingBlanks(s);
    var n := |s| - lead - TrailingBlanks(s[lead..]);
    assert forall i :: lead <= i < |s| ==> s[i] == s[lead..][i - lead];
    s[lead..lead + n]
  }

  /** `s.trim()` is what is left of `s` between a blank prefix and a blank suffix. */
  lemma TrimShape(s: string)
    ensures LeadingBlanks(s) + |Trim(s)| <= |s|
    ensures Trim(s) == s[LeadingBlanks(s)..LeadingBlanks(s) + |Trim(s)|]
    ensures IsBlank(s[..LeadingBlanks(s)])
    ensures IsBlank(s[LeadingBlanks(s) + |Trim(s)|..])
  {
    var lead := LeadingBlanks(s);
    var n := |s| - lead - TrailingBlanks(s[lead..]);
    assert Trim(s) == s[lead..lead + n];
    BlankPrefix(s, lead);
    BlankRest(s, lead, n);
  }

  /** `s.trim()` neither starts nor ends with whitespace: the blank margins are maximal. */
  lemma TrimEndsNotBlank(s: string)
    ensures |Trim(s)| > 0 ==> !IsWhitespace(Trim(s)[0])
    ensures |Trim(s)| > 0 ==> !IsWhitespace(Trim(s)[|Trim(s)| - 1])
  {
    var lead := LeadingBlanks(s);
    var n := |s| - lead - TrailingBlanks(s[lead..]);
    assert Trim(s) == s[lead..lead + n];
    if n > 0 {
      TrimEnds(s, lead, n);
    }
  }

  /** A prefix of whitespace characters is blank. */
  lemma BlankPrefix(s: string, lead: nat)
    requires lead <= |s| && forall i :: 0 <= i < lead ==> IsWhitespace(s[i])
    ensures IsBlank(s[..lead])
  {
    assert forall i :: 0 <= i < lead ==> s[..lead][i] == s[i];
  }

  /** What `Trim` cuts off at the end is blank. */
  lemma BlankRest(s: string, lead: nat, n: nat)
    requires lead <= |s| && n == |s| - lead - TrailingBlanks(s[lead..])
    ensures IsBlank(s[lead + n..])
  {
    var t := s[lead..];
    var u := s[lead + n..];
    forall j | 0 <= j < |u|
      ensures IsWhitespace(u[j])
    {
      assert u[j] == t[n + j];
    }
  }

  /** The first and last characters `Trim` keeps are not whitespace. */
  lemma TrimEnds(s: string, lead: nat, n: nat)
    requires lead == LeadingBlanks(s)
    requires n == |s| - lead - TrailingBlanks(s[lead..]) && n > 0
    ensures !IsWhitespace(s[lead..lead + n][0]) && !IsWhitespace(s[lead..lead + n][n - 1])
  {
    var t := s[lead..];
    assert s[lead..lead + n][0] == s[lead];
    assert s[lead..lead + n][n - 1] == t[|t| - TrailingBlanks(t) - 1];
  }

  /** `s.startsWith(prefix)`. */
  predicate StartsWith(s: string, prefix: string) {
    |prefix| <= |s| && s[..|prefix|] == prefix
  }

  /** A text starts with anything it is built by extending. */
  lemma PrefixStarts(prefix: string, rest: string)
    ensures StartsWith(prefix + rest, prefix)
  {
    assert (prefix + rest)[..|prefix|] == prefix;
  }

  /** `parts.join(sep)`: the parts with `sep` between consecutive ones. */
  function Join(parts: seq<string>, sep: string): string {
    if |parts| == 0 then ""
    else if |parts| == 1 then parts[0]
    else parts[0] + sep + Join(parts[1..], sep)
  }

  /** `s.split(sep)` for a one-character separator: the maximal separator-free pieces. */
  function Split(s: string, sep: char): (r: seq<string>)
    ensures |r| >= 1
    ensures forall i :: 0 <= i < |r| ==> sep !in r[i]
  {
    if |s| == 0 then [""]
    else
      var rest := Split(s[1..], sep);
      if s[0] == sep then [""] + rest else [[s[0]] + rest[0]] + rest[1..]
  }

  /** Joining the pieces of a split with the same separator gives back the string. */
  lemma {:induction false} JoinSplit(s: string, sep: char)
    ensures Join(Split(s, sep), [sep]) == s
  {
    if |s| > 0 {
      var rest := Split(s[1..], sep);
      JoinSplit(s[1..], sep);
      if s[0] == sep {
        assert Split(s, sep) == [""] + rest;
        assert s == [s[0]] + s[1..];
      } else {
        if |rest| == 1 {
          assert Join(Split(s, sep), [sep]) == [s[0]] + rest[0];
        } else {
          assert Split(s, sep)[1..] == rest[1..];
          assert Join(Split(s, sep), [sep]) == [s[0]] + rest[0] + [sep] + Join(rest[1..], [sep]);
        }
        assert s == [s[0]] + s[1..];
      }
    }
  }

  /** Splitting a join of separator-free pieces gives back the pieces. */
  lemma {:induction false} SplitJoin(parts: seq<string>, sep: char)
    requires |parts| >= 1
    requires forall i :: 0 <= i < |parts| ==> sep !in parts[i]
    ensures Split(Join(parts, [sep]), sep) == parts
  {
    if |parts| == 1 {
      SplitPiece(parts[0], sep);
    } else {
      SplitJoin(parts[1..], sep);
      SplitAround(parts[0], sep, Join(parts[1..], [sep]));
      assert Join(parts, [sep]) == parts[0] + [sep] + Join(parts[1..], [sep]);
      assert parts == [parts[0]] + parts[1..];
    }
  }

  /** A separator-free string splits into itself alone. */
  lemma {:induction false} SplitPiece(a: string, sep: char)
    requires sep !in a
    ensures Split(a, sep) == [a]
  {
    if |a| > 0 {
      SplitPiece(a[1..], sep);
      assert a == [a[0]] + a[1..];
    }
  }

  /** The first separator of `a + [sep] + b`, with `a` separator-free, ends the first piece. */
  lemma {:induction false} SplitAround(a: string, sep: char, b: string)
    requires sep !in a
    ensures Split(a + [sep] + b, sep) == [a] + Split(b, sep)
  {
    if |a| == 0 {
      assert a + [sep] + b == [sep] + b;
      assert ([sep] + b)[1..] == b;
    } else {
      SplitAround(a[1..], sep, b);
      assert (a + [sep] + b)[1..] == a[1..] + [sep] + b;
      assert a == [a[0]] + a[1..];
    }
  }

  /** The decimal digit for `d`. */
  function Digit(d: nat): char
    requires d < 10
  {
    "0123456789"[d]
  }

  /** The value of a decimal digit character. */
  function DigitValue(c: char): nat {
    if '0' <= c <= '9' then (c as int - '0' as int) as nat else 0
  }

  /** The number written by a string of decimal digits. */
  function ParseDecimal(s: string): nat {
    if |s| == 0 then 0 else 10 * ParseDecimal(s[..|s| - 1]) + DigitValue(s[|s| - 1])
  }

  /** `${n}` for a natural number: its shortest decimal representation. */
  function NatToString(n: nat): (r: string)
    ensures |r| >= 1
    ensures forall i :: 0 <= i < |r| ==> '0' <= r[i] <= '9'
    ensures r[0] == '0' ==> n == 0
  {
    if n < 10 then [Digit(n)] else NatToString(n / 10) + [Digit(n % 10)]
  }

  /** Reading back a rendered number gives the number: distinct placeholders print distinctly. */
  lemma {:induction false} ParseNatToString(n: nat)
    ensures ParseDecimal(NatToString(n)) == n
  {
    DigitRoundTrip(n % 10);
    if n >= 10 {
      ParseNatToString(n / 10);
      var s := NatToString(n);
      assert s == NatToString(n / 10) + [Digit(n % 10)];
      assert s[..|s| - 1] == NatToString(n / 10);
      assert ParseDecimal(s) == 10 * (n / 10) + n % 10;
    }
  }

  /** Reading a digit back gives its value. */
  lemma DigitRoundTrip(d: nat)
    requires d < 10
    ensures DigitValue(Digit(d)) == d
  {
    if d == 0 {} else if d == 1 {} else if d == 2 {} else if d == 3 {} else if d == 4 {}
    else if d == 5 {} else if d == 6 {} else if d == 7 {} else if d == 8 {} else {}
  }
}
