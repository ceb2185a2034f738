/**
 * The few operations on Python `str` values that the parser and the
 * analyzer use: prefix and suffix tests, substring search, `strip()`,
 * `split()`, `splitlines()`, `"sep".join(...)`, and the decimal rendering
 * of a non-negative integer with the `0>N` format specifier.
 */
module Strings {

  predicate StartsWith(s: string, prefix: string)
  {
    |prefix| <= |s| && s[..|prefix|] == prefix
  }

  predicate EndsWith(s: string, suffix: string)
  {
    |suffix| <= |s| && s[|s| - |suffix|..] == suffix
  }

  /** Python's `sub in s`. */
  predicate Contains(s: string, sub: string)
    decreases |s|
  {
    StartsWith(s, sub) || (|s| > 0 && Contains(s[1..], sub))
  }

  /** The characters Python 2's `str.strip()` removes: space, \t, \n, \r, \v, \f. */
  predicate IsSpace(c: char)
  {
    c == ' ' || c == '\t' || c == '\n' || c == '\r' || c as int == 11 || c as int == 12
  }

  function StripLeft(s: string): string
  {
    if |s| > 0 && IsSpace(s[0]) then StripLeft(s[1..]) else s
  }

  function StripRight(s: string): string
  {
    if |s| > 0 && IsSpace(s[|s| - 1]) then StripRight(s[..|s| - 1]) else s
  }

  /** `lstrip()` removes exactly the leading blanks: what is left is a suffix that opens with a non-blank. */
  lemma {:induction false} StripLeftFacts(s: string)
    ensures var r := StripLeft(s);
      && |r| <= |s| && r == s[|s| - |r|..]
      && (r == [] || !IsSpace(r[0]))
      && forall i :: 0 <= i < |s| - |r| ==> IsSpace(s[i])
    decreases |s|
  {
    if |s| > 0 && IsSpace(s[0]) {
      StripLeftFacts(s[1..]);
    }
  }

  /** `rstrip()` removes exactly the trailing blanks: what is left is a prefix that closes with a non-blank. */
  lemma {:induction false} StripRightFacts(s: string)
    ensures var r := StripRight(s);
      && |r| <= |s| && r == s[..|r|]
      && (r == [] || !IsSpace(r[|r| - 1]))
      && forall i :: |r| <= i < |s| ==> IsSpace(s[i])
    decreases |s|
  {
    if |s| > 0 && IsSpace(s[|s| - 1]) {
      StripRightFacts(s[..|s| - 1]);
    }
  }

  /** Python's `s.strip()`. */
  function Strip(s: string): string
  {
    StripLeft(StripRight(s))
  }

  predicate AllSpace(s: string)
  {
    forall i :: 0 <= i < |s| ==> IsSpace(s[i])
  }

  lemma {:induction false} StripLeftSpaces(ws: string, s: string)
    requires AllSpace(ws)
    ensures StripLeft(ws + s) == StripLeft(s)
    decreases |ws|
  {
    if |ws| > 0 {
      assert (ws + s)[1..] == ws[1..] + s;
      StripLeftSpaces(ws[1..], s);
    } else {
      assert ws + s == s;
    }
  }

  lemma {:induction false} StripRightSpaces(s: string, ws: string)
    requires AllSpace(ws)
    ensures StripRight(s + ws) == StripRight(s)
    decreases |ws|
  {
    if |ws| > 0 {
      assert (s + ws)[..|s + ws| - 1] == s + ws[..|ws| - 1];
      StripRightSpaces(s, ws[..|ws| - 1]);
    } else {
      assert s + ws == s;
    }
  }

  lemma StripLeftOfStripped(s: string)
    requires s == [] || !IsSpace(s[0])
    ensures StripLeft(s) == s
  {
  }

  /** Surrounding whitespace never changes what `strip()` returns. */
  lemma StripIgnoresPadding(ws1: string, s: string, ws2: string)
    requires AllSpace(ws1) && AllSpace(ws2)
    ensures Strip(ws1 + s + ws2) == Strip(s)
  {
    StripRightSpaces(ws1 + s, ws2);
    if AllSpace(s) {
      StripRightSpaces("", s);
      StripRightSpaces(ws1, s);
      StripRightSpaces("", ws1);
      assert "" + s == s && "" + ws1 == ws1;
    } else {
      StripRightKeepsPrefix(ws1, s);
      StripLeftSpaces(ws1, StripRight(s));
    }
  }

  /** When `s` is not blank, trimming the right of `p + s` trims only `s`. */
  lemma {:induction false} StripRightKeepsPrefix(p: string, s: string)
    requires !AllSpace(s)
    ensures StripRight(p + s) == p + StripRight(s)
    decreases |s|
  {
    if IsSpace(s[|s| - 1]) {
      var init := s[..|s| - 1];
      assert (p + s)[..|p + s| - 1] == p + init;
      assert !AllSpace(init);
      StripRightKeepsPrefix(p, init);
    }
  }

  /** `strip()` is idempotent. */
  lemma StripIdempotent(s: string)
    ensures Strip(Strip(s)) == Strip(s)
  {
    var t := Strip(s);
    StripRightFacts(s);
    StripLeftFacts(StripRight(s));
    StripLeftNoTrailing(StripRight(s));
    assert t == [] || !IsSpace(t[|t| - 1]);
    assert StripRight(t) == t;
    StripLeftOfStripped(t);
  }

  lemma StripLeftNoTrailing(s: string)
    requires s == [] || !IsSpace(s[|s| - 1])
    ensures StripLeft(s) == [] || !IsSpace(StripLeft(s)[|StripLeft(s)| - 1])
  {
    StripLeftFacts(s);
  }

  /** Python's `s.split(sep)` for a one-character separator. */
  function SplitOn(s: string, sep: char): (r: seq<string>)
    ensures |r| >= 1
  {
    if |s| == 0 then [""]
    else
      var rest := SplitOn(s[1..], sep);
      if s[0] == sep then [""] + rest
      else [[s[0]] + rest[0]] + rest[1..]
  }

  /** No piece of a split holds the separator. */
  lemma {:induction false} SplitOnPieces(s: string, sep: char)
    ensures forall i :: 0 <= i < |SplitOn(s, sep)| ==> sep !in SplitOn(s, sep)[i]
    decreases |s|
  {
    if |s| > 0 {
      SplitOnPieces(s[1..], sep);
      var rest := SplitOn(s[1..], sep);
      if s[0] != sep {
        assert sep !in [s[0]] + rest[0];
      }
    }
  }

  /** `sep.join(ss)`, unfolded from the right. */
  function Join(ss: seq<string>, sep: string): string
  {
    if |ss| == 0 then ""
    else if |ss| == 1 then ss[0]
    else Join(ss[..|ss| - 1], sep) + sep + ss[|ss| - 1]
  }

  lemma JoinAppend(ss: seq<string>, s: string, sep: string)
    requires |ss| > 0
    ensures Join(ss + [s], sep) == Join(ss, sep) + sep + s
  {
    assert (ss + [s])[..|ss + [s]| - 1] == ss;
  }

  lemma {:induction false} JoinCons(s: string, ss: seq<string>, sep: string)
    requires |ss| > 0
    ensures Join([s] + ss, sep) == s + sep + Join(ss, sep)
    decreases |ss|
  {
    if |ss| == 1 {
      assert [s] + ss == [s] + [ss[0]];
      JoinAppend([s], ss[0], sep);
    } else {
      var init := ss[..|ss| - 1];
      assert [s] + ss == ([s] + init) + [ss[|ss| - 1]];
      JoinAppend([s] + init, ss[|ss| - 1], sep);
      JoinCons(s, init, sep);
      JoinAppend(init, ss[|ss| - 1], sep);
      assert init + [ss[|ss| - 1]] == ss;
    }
  }

  /** Splitting at a separator and joining the pieces with it gives back the text. */
  lemma {:induction false} JoinSplit(s: string, sep: char)
    ensures Join(SplitOn(s, sep), [sep]) == s
    decreases |s|
  {
    if |s| > 0 {
      var rest := SplitOn(s[1..], sep);
      JoinSplit(s[1..], sep);
      if s[0] == sep {
        JoinCons("", rest, [sep]);
        assert s == [sep] + s[1..];
      } else if |rest| == 1 {
        assert s == [s[0]] + s[1..];
      } else {
        JoinCons(rest[0], rest[1..], [sep]);
        JoinCons([s[0]] + rest[0], rest[1..], [sep]);
        assert [rest[0]] + rest[1..] == rest;
        assert s == [s[0]] + s[1..];
      }
    }
  }

  /**
   * Python's `s.splitlines()` on text whose only line break is '\n':
   * the pieces between breaks, without a final empty piece.
   */
  function SplitLines(s: string): seq<string>
  {
    if s == "" then []
    else
      var pieces := SplitOn(s, '\n');
      if pieces[|pieces| - 1] == "" then pieces[..|pieces| - 1] else pieces
  }

  function Digit(d: nat): char
    requires d < 10
  {
    "0123456789"[d]
  }

  predicate IsDigit(c: char)
  {
    '0' <= c <= '9'
  }

  function DigitValue(c: char): nat
    requires IsDigit(c)
  {
    (c as int - '0' as int) as nat
  }

  /** Python's `str(n)` for a non-negative integer. */
  function NatToString(n: nat): (r: string)
    ensures |r| >= 1
    ensures forall i :: 0 <= i < |r| ==> IsDigit(r[i])
  {
    if n < 10 then [Digit(n)] else NatToString(n / 10) + [Digit(n % 10)]
  }

  function Repeat(c: char, k: nat): (r: string)
    ensures |r| == k && forall i :: 0 <= i < k ==> r[i] == c
  {
    if k == 0 then "" else Repeat(c, k - 1) + [c]
  }

  /** The `{:0>w}` format of `n`: its digits, padded on the left with zeros to at least `w` characters. */
  function ZeroPad(n: nat, w: nat): (r: string)
    ensures |r| == if |NatToString(n)| >= w then |NatToString(n)| else w
    ensures forall i :: 0 <= i < |r| ==> IsDigit(r[i])
  {
    var s := NatToString(n);
    if |s| >= w then s else Repeat('0', w - |s|) + s
  }

  /** The value of a string of decimal digits, read left to right. */
  function DecimalValue(s: string): nat
    requires forall i :: 0 <= i < |s| ==> IsDigit(s[i])
  {
    if s == "" then 0
    else DecimalValue(s[..|s| - 1]) * 10 + DigitValue(s[|s| - 1])
  }

  lemma {:induction false} DecimalOfNatToString(n: nat)
    ensures DecimalValue(NatToString(n)) == n
  {
    if n >= 10 {
      var s := NatToString(n);
      assert s[..|s| - 1] == NatToString(n / 10);
      DecimalOfNatToString(n / 10);
    }
  }

  lemma {:induction false} DecimalIgnoresLeadingZeros(k: nat, s: string)
    requires forall i :: 0 <= i < |s| ==> IsDigit(s[i])
    ensures forall i :: 0 <= i < |Repeat('0', k) + s| ==> IsDigit((Repeat('0', k) + s)[i])
    ensures DecimalValue(Repeat('0', k) + s) == DecimalValue(s)
    decreases |s|
  {
    var z := Repeat('0', k);
    if s == "" {
      assert z + s == z;
      ZerosValue(k);
    } else {
      var init := s[..|s| - 1];
      assert (z + s)[..|z + s| - 1] == z + init;
      DecimalIgnoresLeadingZeros(k, init);
    }
  }

  lemma {:induction false} ZerosValue(k: nat)
    ensures DecimalValue(Repeat('0', k)) == 0
  {
    if k > 0 {
      assert Repeat('0', k)[..k - 1] == Repeat('0', k - 1);
      ZerosValue(k - 1);
    }
  }

  /** Reading the zero-padded rendering of `n` back gives `n`, whatever the width. */
  lemma ZeroPadRoundTrip(n: nat, w: nat)
    ensures DecimalValue(ZeroPad(n, w)) == n
  {
    DecimalOfNatToString(n);
    var s := NatToString(n);
    if |s| < w {
      DecimalIgnoresLeadingZeros(w - |s|, s);
    }
  }

  /** Two different numbers never render alike, at any width. */
  lemma ZeroPadInjective(a: nat, b: nat, w: nat)
    requires ZeroPad(a, w) == ZeroPad(b, w)
    ensures a == b
  {
    ZeroPadRoundTrip(a, w);
    ZeroPadRoundTrip(b, w);
  }
}
