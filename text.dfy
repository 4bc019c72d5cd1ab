/** String operations the application relies on: slicing, joining, lower-casing, `in` and decimal rendering. */
module Text {

  /** Python's `s[:n]`: the first n characters, or all of s when it is shorter. */
  function Truncate(s: string, n: nat): (r: string)
    ensures |r| <= n && r <= s
    ensures |s| <= n ==> r == s
    ensures |s| > n ==> |r| == n
  {
    if |s| <= n then s else s[..n]
  }

  /** Python's `'\n'.join(lines)`. */
  function JoinLines(lines: seq<string>): (r: string)
    ensures |lines| == 0 ==> r == ""
    ensures |lines| > 0 ==> lines[0] <= r
    ensures |lines| > 1 ==> |lines[0]| < |r| && r[|lines[0]|] == '\n'
    decreases |lines|
  {
    if |lines| == 0 then ""
    else if |lines| == 1 then lines[0]
    else lines[0] + "\n" + JoinLines(lines[1..])
  }

  /** No character of s is a newline. */
  predicate NoNewline(s: string)
  {
    forall k | 0 <= k < |s| :: s[k] != '\n'
  }

  /** Index of the first newline in s, or |s| when there is none. */
  function NewlineIndex(s: string): (i: nat)
    ensures i <= |s|
    ensures i < |s| ==> s[i] == '\n'
    ensures forall k | 0 <= k < i :: s[k] != '\n'
    decreases |s|
  {
    if |s| == 0 then 0
    else if s[0] == '\n' then 0
    else 1 + NewlineIndex(s[1..])
  }

  /** Python's `s.split('\n')`: the inverse of JoinLines on lines without newlines. */
  function SplitLines(s: string): (r: seq<string>)
    ensures |r| >= 1
    ensures forall k | 0 <= k < |r| :: NoNewline(r[k])
    decreases |s|
  {
    var i := NewlineIndex(s);
    if i == |s| then [s] else [s[..i]] + SplitLines(s[i + 1..])
  }

  lemma {:induction false} SplitJoinRoundTrip(lines: seq<string>)
    requires |lines| >= 1
    requires forall k | 0 <= k < |lines| :: NoNewline(lines[k])
    ensures SplitLines(JoinLines(lines)) == lines
    decreases |lines|
  {
    if |lines| == 1 {
      assert NoNewline(lines[0]);
    } else {
      assert NoNewline(lines[0]);
      SplitAfterLine(lines[0], JoinLines(lines[1..]));
      SplitJoinRoundTrip(lines[1..]);
      assert lines == [lines[0]] + lines[1..];
    }
  }

  /** A newline-free line followed by a newline splits off as the first piece. */
  lemma SplitAfterLine(l: string, rest: string)
    requires NoNewline(l)
    ensures SplitLines(l + "\n" + rest) == [l] + SplitLines(rest)
  {
    var s := l + "\n" + rest;
    assert forall k | 0 <= k < |l| :: s[k] == l[k];
    assert s[|l|] == '\n';
    assert NewlineIndex(s) == |l|;
    assert s[..|l|] == l;
    assert s[|l| + 1..] == rest;
  }

  /** Total number of characters in the lines. */
  function TotalLength(lines: seq<string>): (r: nat)
    decreases |lines|
  {
    if |lines| == 0 then 0 else |lines[0]| + TotalLength(lines[1..])
  }

  lemma {:induction false} JoinLinesLength(lines: seq<string>)
    requires |lines| >= 1
    ensures |JoinLines(lines)| == TotalLength(lines) + |lines| - 1
    decreases |lines|
  {
    if |lines| > 1 {
      JoinLinesLength(lines[1..]);
    }
  }

  /** Lower-casing of one character; only A-Z change (see README on Unicode). */
  function LowerChar(c: char): (r: char)
  {
    if 'A' <= c <= 'Z' then (c as int + 32) as char else c
  }

  /** `s.lower()` restricted to ASCII letters. */
  function Lower(s: string): (r: string)
    ensures |r| == |s|
    ensures forall k | 0 <= k < |s| :: r[k] == LowerChar(s[k])
  {
    seq(|s|, k requires 0 <= k < |s| => LowerChar(s[k]))
  }

  /** Python's `t in s` for strings. */
  predicate HasInfix(s: string, t: string)
    ensures HasInfix(s, t) ==> |t| <= |s|
    decreases |s|
  {
    t <= s || (|s| > 0 && HasInfix(s[1..], t))
  }

  /** t occurs in s starting at index i. */
  predicate InfixAt(s: string, t: string, i: int)
  {
    0 <= i && i + |t| <= |s| && s[i..i + |t|] == t
  }

  lemma {:induction false} HasInfixIff(s: string, t: string)
    ensures HasInfix(s, t) <==> exists i :: InfixAt(s, t, i)
    decreases |s|
  {
    if t <= s {
      assert InfixAt(s, t, 0);
    } else if |s| == 0 {
    } else {
      HasInfixIff(s[1..], t);
      if HasInfix(s[1..], t) {
        var i :| InfixAt(s[1..], t, i);
        InfixShift(s, t, i);
      }
      if exists i :: InfixAt(s, t, i) {
        var i :| InfixAt(s, t, i);
        assert i != 0;
        InfixShift(s, t, i - 1);
      }
    }
  }

  /** An occurrence in s[1..] is an occurrence in s one position further on. */
  lemma InfixShift(s: string, t: string, i: nat)
    requires |s| > 0
    ensures InfixAt(s[1..], t, i) <==> InfixAt(s, t, i + 1)
  {
    if i + |t| <= |s| - 1 {
      assert s[1..][i..i + |t|] == s[i + 1..i + 1 + |t|];
    }
  }

  predicate IsDigit(c: char) { '0' <= c <= '9' }

  function DigitValue(c: char): (d: nat)
    requires IsDigit(c)
    ensures d < 10
  {
    c as int - '0' as int
  }

  function DigitChar(d: nat): (c: char)
    requires d < 10
    ensures IsDigit(c)
  {
    ('0' as int + d) as char
  }

  /** Python's `f"{n}"` for a non-negative int: decimal digits, no leading zero. */
  function NatToString(n: nat): (r: string)
    ensures |r| >= 1
    ensures r[0] == '0' <==> n == 0
    ensures forall k | 0 <= k < |r| :: IsDigit(r[k])
    decreases n
  {
    if n < 10 then [DigitChar(n)] else NatToString(n / 10) + [DigitChar(n % 10)]
  }

  /** The number a string of decimal digits denotes. */
  function DigitsValue(s: string): (r: nat)
    requires forall k | 0 <= k < |s| :: IsDigit(s[k])
    decreases |s|
  {
    if |s| == 0 then 0 else DigitsValue(s[..|s| - 1]) * 10 + DigitValue(s[|s| - 1])
  }

  lemma {:induction false} NatToStringRoundTrip(n: nat)
    ensures DigitsValue(NatToString(n)) == n
    decreases n
  {
    var s := NatToString(n);
    if n < 10 {
      assert s[..0] == [];
    } else {
      NatToStringRoundTrip(n / 10);
      assert s[..|s| - 1] == NatToString(n / 10);
    }
  }

  lemma NatToStringInjective(a: nat, b: nat)
    requires a != b
    ensures NatToString(a) != NatToString(b)
  {
    NatToStringRoundTrip(a);
    NatToStringRoundTrip(b);
  }
}
