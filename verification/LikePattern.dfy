/** SQLite's LIKE with ESCAPE '!', and the patterns compiled for it. */
module LikePattern {
  import opened Text

  function AsciiLower(c: char): char {
    if 'A' <= c <= 'Z' then c - 'A' + 'a' else c
  }

  /** Whether the pattern matches all of s: % is any run, _ any character, ! takes the next
      character literally; ASCII letters match in either case. */
  predicate Like(pattern: string, s: string)
    decreases |pattern| + |s|
  {
    if pattern == "" then s == ""
    else if pattern[0] == '%' then Like(pattern[1..], s) || (s != "" && Like(pattern, s[1..]))
    else if s == "" then false
    else if pattern[0] == '_' then Like(pattern[1..], s[1..])
    else if pattern[0] == '!' then
      |pattern| >= 2 && AsciiLower(pattern[1]) == AsciiLower(s[0]) && Like(pattern[2..], s[1..])
    else AsciiLower(pattern[0]) == AsciiLower(s[0]) && Like(pattern[1..], s[1..])
  }

  function EscapeLike(value: string): string {
    Replace(Replace(Replace(value, '!', "!!"), '%', "!%"), '_', "!_")
  }

  function EscapeChar(c: char): string {
    if c == '!' || c == '%' || c == '_' then ['!', c] else [c]
  }

  function EscapeEach(value: string): string {
    if value == "" then "" else EscapeChar(value[0]) + EscapeEach(value[1..])
  }

  lemma {:induction false} ReplaceAppend(a: string, b: string, needle: char, replacement: string)
    ensures Replace(a + b, needle, replacement) == Replace(a, needle, replacement) + Replace(b, needle, replacement)
  {
    if a == "" {
      assert a + b == b;
    } else {
      assert (a + b)[1..] == a[1..] + b;
      ReplaceAppend(a[1..], b, needle, replacement);
    }
  }

  lemma {:induction false} ReplaceOne(c: char, needle: char, replacement: string)
    ensures Replace([c], needle, replacement) == if c == needle then replacement else [c]
  {
    assert [c][1..] == "";
  }

  lemma {:induction false} ReplaceTwo(c: char, d: char, needle: char, replacement: string)
    requires c != needle && d != needle
    ensures Replace([c, d], needle, replacement) == [c, d]
  {
    assert [c, d] == [c] + [d];
    ReplaceAppend([c], [d], needle, replacement);
    ReplaceOne(c, needle, replacement);
    ReplaceOne(d, needle, replacement);
  }

  /** Three replacements in this order are one pass over the characters. */
  lemma {:induction false} EscapeIsOnePass(value: string)
    ensures EscapeLike(value) == EscapeEach(value)
  {
    if value != "" {
      var c, rest := value[0], value[1..];
      var one := Replace([c], '!', "!!");
      var two := Replace(one, '%', "!%");
      assert value == [c] + rest;
      ReplaceAppend([c], rest, '!', "!!");
      ReplaceAppend(one, Replace(rest, '!', "!!"), '%', "!%");
      ReplaceAppend(two, Replace(Replace(rest, '!', "!!"), '%', "!%"), '_', "!_");
      ReplaceOne(c, '!', "!!");
      if c == '!' {
        ReplaceTwo('!', '!', '%', "!%");
        ReplaceTwo('!', '!', '_', "!_");
      } else {
        ReplaceOne(c, '%', "!%");
        if c == '%' {
          ReplaceTwo('!', '%', '_', "!_");
        } else {
          ReplaceOne(c, '_', "!_");
        }
      }
      assert Replace(two, '_', "!_") == EscapeChar(c);
      EscapeIsOnePass(rest);
    }
  }

  predicate PrefixIgnoringCase(p: string, s: string) {
    |p| <= |s| && forall k :: 0 <= k < |p| ==> AsciiLower(p[k]) == AsciiLower(s[k])
  }

  lemma {:induction false} PercentMatchesAll(s: string)
    ensures Like("%", s)
  {
    assert "%"[1..] == "";
    if s != "" {
      PercentMatchesAll(s[1..]);
    }
  }

  lemma {:induction false} EscapedEachMatches(p: string, s: string)
    ensures Like(EscapeEach(p) + "%", s) <==> PrefixIgnoringCase(p, s)
  {
    if p == "" {
      assert EscapeEach(p) + "%" == "%";
      PercentMatchesAll(s);
    } else {
      var c := p[0];
      var pattern := EscapeEach(p) + "%";
      var rest := EscapeEach(p[1..]) + "%";
      assert pattern == EscapeChar(c) + rest;
      if s != "" {
        EscapedEachMatches(p[1..], s[1..]);
        if |EscapeChar(c)| == 2 {
          assert pattern[2..] == rest;
        } else {
          assert pattern[1..] == rest;
        }
        assert Like(pattern, s) <==> AsciiLower(c) == AsciiLower(s[0]) && Like(rest, s[1..]);
        PrefixStep(p, s);
      }
    }
  }

  lemma PrefixStep(p: string, s: string)
    requires p != "" && s != ""
    ensures PrefixIgnoringCase(p, s) <==> AsciiLower(p[0]) == AsciiLower(s[0]) && PrefixIgnoringCase(p[1..], s[1..])
  {
    if AsciiLower(p[0]) == AsciiLower(s[0]) && PrefixIgnoringCase(p[1..], s[1..]) {
      forall k | 0 <= k < |p|
        ensures AsciiLower(p[k]) == AsciiLower(s[k])
      {
        assert k > 0 ==> p[1..][k - 1] == p[k] && s[1..][k - 1] == s[k];
      }
    }
  }

  /** A compiled pattern means exactly "starts with this text", for every text: nothing in it
      acts as a wildcard. */
  lemma {:induction false} EscapedLikeIsPrefix(p: string, s: string)
    ensures Like(EscapeLike(p) + "%", s) <==> PrefixIgnoringCase(p, s)
  {
    EscapeIsOnePass(p);
    EscapedEachMatches(p, s);
  }

  /** The order of the replacements matters: escaping '!' last would corrupt the text. */
  lemma EscapeOrderMatters()
    ensures Replace(Replace("%", '%', "!%"), '!', "!!") == "!!%"
    ensures Like("!!%", "!x") && !PrefixIgnoringCase("%", "!x")
  {
    assert "%"[1..] == "" && "!%"[1..] == "%" && "!!%"[2..] == "%" && "!x"[1..] == "x";
    PercentMatchesAll("x");
  }
}
