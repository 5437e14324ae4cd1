/**
 * Shell-style wildcard matching as Python's fnmatch performs it on POSIX
 * (no case folding): `*` matches any run of characters, `/` and newlines
 * included; `?` matches one character; `[...]` matches one character of a set
 * and `[!...]` one character outside it; a `[` without a closing `]` is an
 * ordinary character. There is no escape character, so a backslash is literal.
 */
module Glob {
  import opened Wrappers

  /** Characters that have a meaning of their own in a pattern. */
  predicate IsMeta(c: char) {
    c == '*' || c == '?' || c == '['
  }

  predicate NoMeta(p: string) {
    forall i :: 0 <= i < |p| ==> !IsMeta(p[i])
  }

  /** First `]` at or after index k. */
  function FindClose(p: string, k: nat): (r: Option<nat>)
    decreases |p| - k
    ensures r.Some? ==> k <= r.value < |p| && p[r.value] == ']'
    ensures r.None? ==> forall i :: k <= i < |p| ==> p[i] != ']'
  {
    if k >= |p| then None
    else if p[k] == ']' then Some(k)
    else FindClose(p, k + 1)
  }

  /**
   * Index of the `]` that closes the bracket expression opening p. A `!` right
   * after the `[`, and then a `]`, belong to the set rather than closing it.
   */
  function ClassEnd(p: string): (r: Option<nat>)
    requires |p| > 0 && p[0] == '['
    ensures r.Some? ==> 2 <= r.value < |p| && p[r.value] == ']'
  {
    var k0 := if 1 < |p| && p[1] == '!' then 2 else 1;
    var k1 := if k0 < |p| && p[k0] == ']' then k0 + 1 else k0;
    FindClose(p, k1)
  }

  /** c is one of the characters or ranges `lo-hi` listed in items. */
  function InSet(c: char, items: string): bool
    decreases |items|
  {
    if items == [] then false
    else if |items| >= 3 && items[1] == '-' then
      (items[0] <= c <= items[2]) || InSet(c, items[3..])
    else
      c == items[0] || InSet(c, items[1..])
  }

  /** The body of a bracket expression (between `[` and `]`) accepts c. */
  function ClassAccepts(body: string, c: char): bool {
    if |body| > 0 && body[0] == '!' then !InSet(c, body[1..]) else InSet(c, body)
  }

  /** fnmatch(s, p): the whole of s matches the pattern p. */
  function Match(s: string, p: string): bool
    decreases |p|, |s|
  {
    if p == [] then s == []
    else if p[0] == '*' then Match(s, p[1..]) || (s != [] && Match(s[1..], p))
    else if s == [] then false
    else if p[0] == '?' then Match(s[1..], p[1..])
    else if p[0] == '[' then
      match ClassEnd(p)
      case None => s[0] == '[' && Match(s[1..], p[1..])
      case Some(j) => ClassAccepts(p[1..j], s[0]) && Match(s[1..], p[j + 1..])
    else s[0] == p[0] && Match(s[1..], p[1..])
  }

  /** A lone `*` matches every string, including ones that contain `/`. */
  lemma {:induction false} StarMatchesEverything(s: string)
    ensures Match(s, "*")
  {
    if s != [] {
      StarMatchesEverything(s[1..]);
    }
  }

  /** A pattern without wildcards matches exactly itself. */
  lemma {:induction false} LiteralMatchesItself(s: string, p: string)
    requires NoMeta(p)
    ensures Match(s, p) <==> s == p
  {
    if p != [] && s != [] {
      assert !IsMeta(p[0]);
      LiteralMatchesItself(s[1..], p[1..]);
      if Match(s, p) {
        assert s == [s[0]] + s[1..] && p == [p[0]] + p[1..];
      }
    }
  }

  /** `prefix*` with a literal prefix matches exactly the strings starting with it. */
  lemma {:induction false} PrefixStarMatches(s: string, prefix: string)
    requires NoMeta(prefix)
    ensures Match(s, prefix + "*") <==> prefix <= s
  {
    if prefix == [] {
      assert prefix + "*" == "*";
      StarMatchesEverything(s);
    } else {
      var p := prefix + "*";
      assert p[0] == prefix[0] && !IsMeta(prefix[0]);
      assert p[1..] == prefix[1..] + "*";
      if s != [] {
        PrefixStarMatches(s[1..], prefix[1..]);
      }
    }
  }

  /** `?` consumes exactly one character. */
  lemma QuestionMarkIsOneChar(s: string)
    ensures Match(s, "?") <==> |s| == 1
  {
    if s != [] {
      assert "?"[1..] == [];
    }
  }

  /** `*suffix` with a literal suffix matches exactly the strings ending with it. */
  lemma {:induction false} StarSuffixMatches(s: string, suffix: string)
    requires NoMeta(suffix)
    ensures Match(s, "*" + suffix) <==> (|suffix| <= |s| && s[|s| - |suffix|..] == suffix)
  {
    var p := "*" + suffix;
    assert p[1..] == suffix;
    LiteralMatchesItself(s, suffix);
    if s != [] {
      StarSuffixMatches(s[1..], suffix);
      if |suffix| <= |s[1..]| {
        assert s[1..][|s[1..]| - |suffix|..] == s[|s| - |suffix|..];
      }
    }
  }

  /** File-name examples: `*.py` selects Python files. */
  lemma SuffixExamples()
    ensures Match("main.py", "*.py") && !Match("main.js", "*.py")
  {
    StarSuffixMatches("main.py", ".py");
    StarSuffixMatches("main.js", ".py");
    assert "*" + ".py" == "*.py";
    assert "main.py"[4..] == ".py" && "main.js"[4..] != ".py";
  }

  /** Prefix examples: a directory glob and a policy-id family glob. */
  lemma PrefixExamples()
    ensures Match("lib/ssl.so", "lib/*") && !Match("app/main.py", "lib/*")
    ensures Match("SQ31102", "SQ311*") && !Match("SQ34108", "SQ311*")
  {
    PrefixStarMatches("lib/ssl.so", "lib/");
    PrefixStarMatches("app/main.py", "lib/");
    PrefixStarMatches("SQ31102", "SQ311");
    PrefixStarMatches("SQ34108", "SQ311");
    assert "lib/" + "*" == "lib/*";
    assert "SQ311" + "*" == "SQ311*";
    assert "lib/" <= "lib/ssl.so" && !("lib/" <= "app/main.py");
    assert "SQ311" <= "SQ31102";
    assert "SQ34108"[3] != "SQ311"[3];
  }

  /** A bracket range accepts the characters between its bounds and nothing else. */
  lemma RangeExamples()
    ensures Match("b", "[a-c]") && !Match("d", "[a-c]") && Match("d", "[!a-c]")
    ensures Match("[x", "[x")
  {
    assert ClassEnd("[a-c]") == Some(4) by {
      assert FindClose("[a-c]", 1) == FindClose("[a-c]", 2) == FindClose("[a-c]", 3) == Some(4);
    }
    assert "[a-c]"[1..4] == "a-c" && "[a-c]"[5..] == [];
    assert ClassEnd("[!a-c]") == Some(5) by {
      assert FindClose("[!a-c]", 2) == FindClose("[!a-c]", 3) == FindClose("[!a-c]", 4) == Some(5);
    }
    assert "[!a-c]"[1..5] == "!a-c" && "!a-c"[1..] == "a-c" && "[!a-c]"[6..] == [];
    assert "a-c"[3..] == [];
    assert ClassEnd("[x") == None;
    assert "[x"[1..] == "x" && "x"[1..] == [];
  }
}
