/** String operations of the host language, on sequences of characters. */
module Text {
  /** str.split(sep): always at least one part. */
  function SplitOn(s: string, sep: char): (parts: seq<string>)
    ensures |parts| > 0
  {
    if s == "" then [""]
    else
      var rest := SplitOn(s[1..], sep);
      if s[0] == sep then [""] + rest else [[s[0]] + rest[0]] + rest[1..]
  }

  function Join(parts: seq<string>, sep: char): string {
    if parts == [] then ""
    else if |parts| == 1 then parts[0]
    else parts[0] + [sep] + Join(parts[1..], sep)
  }

  function NonEmptyParts(parts: seq<string>): seq<string> {
    if parts == [] then []
    else (if parts[0] == "" then [] else [parts[0]]) + NonEmptyParts(parts[1..])
  }

  /** The components of a path written with one separator. */
  function Components(s: string, sep: char): seq<string> {
    NonEmptyParts(SplitOn(s, sep))
  }

  /** str.replace with a one-character needle. */
  function Replace(s: string, needle: char, replacement: string): string {
    if s == "" then ""
    else (if s[0] == needle then replacement else [s[0]]) + Replace(s[1..], needle, replacement)
  }

  function StripLeft(s: string, c: char): string {
    if s != "" && s[0] == c then StripLeft(s[1..], c) else s
  }

  function StripRight(s: string, c: char): string {
    if s != "" && s[|s| - 1] == c then StripRight(s[..|s| - 1], c) else s
  }

  function Strip(s: string, c: char): string {
    StripRight(StripLeft(s, c), c)
  }

  /** The characters Python's str.strip() removes. */
  predicate IsSpace(c: char) {
    var u := c as int;
    || 0x09 <= u <= 0x0D
    || 0x1C <= u <= 0x20
    || u == 0x85 || u == 0xA0 || u == 0x1680
    || 0x2000 <= u <= 0x200A
    || u == 0x2028 || u == 0x2029 || u == 0x202F || u == 0x205F || u == 0x3000
  }

  function TrimLeft(s: string): string {
    if s != "" && IsSpace(s[0]) then TrimLeft(s[1..]) else s
  }

  function TrimRight(s: string): string {
    if s != "" && IsSpace(s[|s| - 1]) then TrimRight(s[..|s| - 1]) else s
  }

  /** str.strip() */
  function Trim(s: string): string {
    TrimRight(TrimLeft(s))
  }

  /** Case folding, character by character. */
  function Fold(fold: char -> string, s: string): string {
    if s == "" then "" else fold(s[0]) + Fold(fold, s[1..])
  }

  function WithoutDots(parts: seq<string>): seq<string> {
    if parts == [] then []
    else (if parts[0] == "." then [] else [parts[0]]) + WithoutDots(parts[1..])
  }

  ghost predicate NoneContains(parts: seq<string>, sep: char) {
    forall k :: 0 <= k < |parts| ==> sep !in parts[k]
  }

  lemma {:induction false} SplitHasNoSeparator(s: string, sep: char)
    ensures NoneContains(SplitOn(s, sep), sep)
  {
    if s != "" {
      SplitHasNoSeparator(s[1..], sep);
    }
  }

  lemma {:induction false} NonEmptyPartsProperties(parts: seq<string>, sep: char)
    requires NoneContains(parts, sep)
    ensures NoneContains(NonEmptyParts(parts), sep)
    ensures forall k :: 0 <= k < |NonEmptyParts(parts)| ==> NonEmptyParts(parts)[k] != ""
  {
    if parts != [] {
      assert forall k :: 0 <= k < |parts[1..]| ==> parts[1..][k] == parts[k + 1];
      NonEmptyPartsProperties(parts[1..], sep);
    }
  }

  lemma ComponentsProperties(s: string, sep: char)
    ensures NoneContains(Components(s, sep), sep)
    ensures forall k :: 0 <= k < |Components(s, sep)| ==> Components(s, sep)[k] != ""
  {
    SplitHasNoSeparator(s, sep);
    NonEmptyPartsProperties(SplitOn(s, sep), sep);
  }

  lemma {:induction false} SplitAfterPart(part: string, rest: string, sep: char)
    requires sep !in part
    ensures SplitOn(part + [sep] + rest, sep) == [part] + SplitOn(rest, sep)
  {
    if part == "" {
      assert part + [sep] + rest == [sep] + rest;
    } else {
      assert (part + [sep] + rest)[1..] == part[1..] + [sep] + rest;
      SplitAfterPart(part[1..], rest, sep);
      assert part == [part[0]] + part[1..];
    }
  }

  lemma {:induction false} SplitOnePart(part: string, sep: char)
    requires sep !in part
    ensures SplitOn(part, sep) == [part]
  {
    if part != "" {
      SplitOnePart(part[1..], sep);
      assert part == [part[0]] + part[1..];
    }
  }

  /** Splitting undoes joining. */
  lemma {:induction false} SplitJoin(parts: seq<string>, sep: char)
    requires parts != [] && NoneContains(parts, sep)
    ensures SplitOn(Join(parts, sep), sep) == parts
  {
    if |parts| == 1 {
      SplitOnePart(parts[0], sep);
    } else {
      assert forall k :: 0 <= k < |parts[1..]| ==> parts[1..][k] == parts[k + 1];
      SplitJoin(parts[1..], sep);
      SplitAfterPart(parts[0], Join(parts[1..], sep), sep);
      hide SplitOn;
      assert parts == [parts[0]] + parts[1..];
    }
  }

  lemma {:induction false} NonEmptyPartsKeepsAll(parts: seq<string>)
    requires forall k :: 0 <= k < |parts| ==> parts[k] != ""
    ensures NonEmptyParts(parts) == parts
  {
    if parts != [] {
      assert forall k :: 0 <= k < |parts[1..]| ==> parts[1..][k] == parts[k + 1];
      NonEmptyPartsKeepsAll(parts[1..]);
    }
  }

  /** Components undo joining, too. */
  lemma {:induction false} ComponentsOfJoin(parts: seq<string>, sep: char)
    requires NoneContains(parts, sep) && forall k :: 0 <= k < |parts| ==> parts[k] != ""
    ensures Components(Join(parts, sep), sep) == parts
  {
    if parts == [] {
      assert SplitOn("", sep) == [""] && NonEmptyParts([""][1..]) == [];
    } else {
      SplitJoin(parts, sep);
      NonEmptyPartsKeepsAll(parts);
    }
  }

  lemma {:induction false} NonEmptyPartsAppend(a: seq<string>, b: seq<string>)
    ensures NonEmptyParts(a + b) == NonEmptyParts(a) + NonEmptyParts(b)
  {
    if a == [] {
      assert a + b == b;
    } else {
      assert (a + b)[1..] == a[1..] + b;
      NonEmptyPartsAppend(a[1..], b);
    }
  }

  lemma {:induction false} SplitStep(s: string, sep: char)
    requires s != ""
    ensures var rest := SplitOn(s[1..], sep);
      SplitOn(s, sep) == if s[0] == sep then [""] + rest else [[s[0]] + rest[0]] + rest[1..]
  {}

  lemma {:induction false} SplitFirst(b: string, sep: char)
    ensures SplitOn([sep] + b, sep) == SplitOn("", sep) + SplitOn(b, sep)
  {
    assert ([sep] + b)[1..] == b;
  }

  lemma PartsShift(head: char, isSep: bool, x: seq<string>, y: seq<string>)
    requires x != []
    ensures (if isSep then [""] + (x + y) else [[head] + (x + y)[0]] + (x + y)[1..])
         == (if isSep then [""] + x else [[head] + x[0]] + x[1..]) + y
  {}

  lemma {:induction false} SplitAtSeparator(a: string, b: string, sep: char)
    ensures SplitOn(a + [sep] + b, sep) == SplitOn(a, sep) + SplitOn(b, sep)
  {
    hide SplitOn;
    var whole := a + [sep] + b;
    if a == "" {
      assert whole == [sep] + b;
      SplitFirst(b, sep);
    } else {
      assert whole[1..] == a[1..] + [sep] + b && whole[0] == a[0];
      SplitAtSeparator(a[1..], b, sep);
      SplitStep(whole, sep);
      SplitStep(a, sep);
      PartsShift(a[0], a[0] == sep, SplitOn(a[1..], sep), SplitOn(b, sep));
    }
  }

  lemma ComponentsAtSeparator(a: string, b: string, sep: char)
    ensures Components(a + [sep] + b, sep) == Components(a, sep) + Components(b, sep)
  {
    SplitAtSeparator(a, b, sep);
    NonEmptyPartsAppend(SplitOn(a, sep), SplitOn(b, sep));
  }

  lemma ComponentsOfNothing(sep: char)
    ensures Components("", sep) == []
  {
    assert [""][1..] == [];
  }

  lemma {:induction false} StripLeftComponents(s: string, c: char)
    ensures Components(StripLeft(s, c), c) == Components(s, c)
  {
    if s != "" && s[0] == c {
      StripLeftComponents(s[1..], c);
      ComponentsAtSeparator("", s[1..], c);
      ComponentsOfNothing(c);
      assert s == "" + [c] + s[1..];
    }
  }

  lemma {:induction false} StripRightComponents(s: string, c: char)
    ensures Components(StripRight(s, c), c) == Components(s, c)
  {
    if s != "" && s[|s| - 1] == c {
      var init := s[..|s| - 1];
      StripRightComponents(init, c);
      ComponentsAtSeparator(init, "", c);
      ComponentsOfNothing(c);
      assert s == init + [c] + "";
    }
  }

  /** Separators at either end do not change the components. */
  lemma StripComponents(s: string, c: char)
    ensures Components(Strip(s, c), c) == Components(s, c)
  {
    StripLeftComponents(s, c);
    StripRightComponents(StripLeft(s, c), c);
  }

  lemma {:induction false} FoldAppend(fold: char -> string, a: string, b: string)
    ensures Fold(fold, a + b) == Fold(fold, a) + Fold(fold, b)
  {
    if a == "" {
      assert a + b == b;
    } else {
      assert (a + b)[1..] == a[1..] + b;
      FoldAppend(fold, a[1..], b);
    }
  }
}
