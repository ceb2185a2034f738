/**
 * Shell-style wildcard matching as `fnmatch.fnmatch` does it on a POSIX
 * system (no case folding): `*` matches any run of characters, `?` any
 * single character, every other character itself, and the whole name
 * must be matched.
 */
module Glob {

  import opened Strings

  function Matches(name: string, pattern: string): bool
    decreases |name| + |pattern|
  {
    if |pattern| == 0 then |name| == 0
    else if pattern[0] == '*' then
      Matches(name, pattern[1..]) || (|name| > 0 && Matches(name[1..], pattern))
    else
      |name| > 0 && (pattern[0] == '?' || pattern[0] == name[0]) && Matches(name[1..], pattern[1..])
  }

  predicate IsLiteral(pattern: string)
  {
    '*' !in pattern && '?' !in pattern
  }

  /** A lone `*` matches every name. */
  lemma {:induction false} StarMatchesAll(name: string)
    ensures Matches(name, "*")
    decreases |name|
  {
    if |name| > 0 {
      StarMatchesAll(name[1..]);
    }
  }

  /** A pattern without wildcards matches exactly the name spelled like it. */
  lemma {:induction false} LiteralMatchesItself(name: string, pattern: string)
    requires IsLiteral(pattern)
    ensures Matches(name, pattern) <==> name == pattern
    decreases |pattern|
  {
    if |pattern| > 0 {
      assert pattern[0] in pattern;
      assert IsLiteral(pattern[1..]) by {
        assert forall c :: c in pattern[1..] ==> c in pattern;
      }
      if |name| > 0 {
        LiteralMatchesItself(name[1..], pattern[1..]);
        if name[1..] == pattern[1..] && name[0] == pattern[0] {
          assert name == [name[0]] + name[1..];
          assert pattern == [pattern[0]] + pattern[1..];
        }
      }
    }
  }

  /** `*` followed by a literal suffix, such as `*.md`, matches exactly the names ending with it. */
  lemma {:induction false} StarSuffixMatchesEndings(name: string, suffix: string)
    requires IsLiteral(suffix)
    ensures Matches(name, "*" + suffix) <==> EndsWith(name, suffix)
    decreases |name|
  {
    var p := "*" + suffix;
    assert p[1..] == suffix;
    LiteralMatchesItself(name, suffix);
    if |name| > 0 {
      StarSuffixMatchesEndings(name[1..], suffix);
      if |suffix| < |name| {
        assert name[|name| - |suffix|..] == name[1..][|name[1..]| - |suffix|..];
      }
    } else {
      assert Matches(name, p) == Matches(name, suffix);
    }
    if EndsWith(name, suffix) && |suffix| == |name| {
      assert name == suffix;
    }
  }

  /** `?` consumes exactly one character. */
  lemma QuestionMarkIsOneChar(name: string, rest: string)
    ensures Matches(name, "?" + rest) <==> |name| > 0 && Matches(name[1..], rest)
  {
    assert ("?" + rest)[0] == '?' && ("?" + rest)[1..] == rest;
  }
}
