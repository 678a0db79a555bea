/** UNC paths in normal form, and the check that a ledger row lies under its assigned root. */
module UncPath {
  import opened Wrappers
  import opened Text
  import opened Ledger

  /** The separated parts of a UNC path, or None where the source raises ValueError. */
  function UncParts(path: string): Option<seq<string>> {
    var value := Trim(Replace(path, '/', "\\"));
    if !("\\\\" <= value) || "\\\\?\\" <= value || "\\\\.\\" <= value then None
    else
      var parts := WithoutDots(Components(value[2..], '\\'));
      if |parts| < 2 || ".." in parts then None else Some(parts)
  }

  function NormalizeUncPath(path: string): Option<string> {
    match UncParts(path)
    case None => None
    case Some(parts) => Some("\\\\" + Join(parts, '\\'))
  }

  // ----- prefixes of paths and prefixes of part lists -----

  ghost predicate CleanParts(parts: seq<string>) {
    forall k :: 0 <= k < |parts| ==> parts[k] != "" && '\\' !in parts[k]
  }

  lemma {:induction false} WithoutDotsClean(parts: seq<string>)
    requires CleanParts(parts)
    ensures CleanParts(WithoutDots(parts))
  {
    if parts != [] {
      assert forall k :: 0 <= k < |parts[1..]| ==> parts[1..][k] == parts[k + 1];
      WithoutDotsClean(parts[1..]);
    }
  }

  lemma UncPartsClean(path: string)
    requires UncParts(path).Some?
    ensures CleanParts(UncParts(path).value) && |UncParts(path).value| >= 2
  {
    var value := Trim(Replace(path, '/', "\\"));
    ComponentsProperties(value[2..], '\\');
    hide Trim, Replace, Components, WithoutDots;
    WithoutDotsClean(Components(value[2..], '\\'));
  }

  /** Text up to the first separator is determined. */
  lemma {:induction false} FirstPart(a: string, b: string, s: string, t: string)
    requires '\\' !in a && '\\' !in b
    ensures a + "\\" + s <= b + "\\" + t <==> a == b && s <= t
  {
    if a == "" || b == "" {
      assert a == "" ==> a + "\\" + s == "\\" + s;
      assert b == "" ==> b + "\\" + t == "\\" + t;
      if a == "" && b == "" {
        assert ("\\" + s)[1..] == s && ("\\" + t)[1..] == t;
        PrefixTail("\\" + s, "\\" + t);
      } else if a == "" {
        assert (b + "\\" + t)[0] == b[0];
      } else {
        assert (a + "\\" + s)[0] == a[0];
      }
    } else {
      assert (a + "\\" + s)[1..] == a[1..] + "\\" + s && (b + "\\" + t)[1..] == b[1..] + "\\" + t;
      assert a == [a[0]] + a[1..] && b == [b[0]] + b[1..];
      PrefixTail(a + "\\" + s, b + "\\" + t);
      FirstPart(a[1..], b[1..], s, t);
    }
  }

  lemma PrefixTail(a: string, b: string)
    requires a != "" && b != ""
    ensures a <= b <==> a[0] == b[0] && a[1..] <= b[1..]
  {
    if a[0] == b[0] && a[1..] <= b[1..] {
      assert a == [a[0]] + a[1..] && b == [b[0]] + b[1..];
      assert forall k :: 0 < k < |a| ==> a[k] == a[1..][k - 1] && b[k] == b[1..][k - 1];
    }
    if a <= b {
      assert forall k :: 0 <= k < |a| - 1 ==> a[1..][k] == a[k + 1] && b[1..][k] == b[k + 1];
    }
  }

  /** One joined list followed by a separator begins another exactly when it is a shorter,
      leading part of it. */
  lemma {:induction false} JoinPrefix(a: seq<string>, b: seq<string>)
    requires a != [] && b != [] && CleanParts(a) && CleanParts(b)
    ensures Join(a, '\\') + "\\" <= Join(b, '\\') <==> a < b
  {
    if |b| == 1 {
      assert b[0] == Join(b, '\\');
      SeparatorLast(Join(a, '\\'), b[0]);
    } else {
      var rest := Join(b[1..], '\\');
      assert Join(b, '\\') == b[0] + "\\" + rest;
      TailsOf(a, b);
      if |a| == 1 {
        assert Join(a, '\\') + "\\" == a[0] + "\\" + "";
        FirstPart(a[0], b[0], "", rest);
      } else {
        var more := Join(a[1..], '\\') + "\\";
        assert Join(a, '\\') + "\\" == a[0] + "\\" + more;
        FirstPart(a[0], b[0], more, rest);
        JoinPrefix(a[1..], b[1..]);
      }
    }
  }

  lemma SeparatorLast(a: string, b: string)
    requires '\\' !in b
    ensures !(a + "\\" <= b)
  {
    assert (a + "\\")[|a|] == '\\';
    assert |a| < |b| ==> b[|a|] in b;
  }

  lemma TailsOf(a: seq<string>, b: seq<string>)
    requires a != [] && b != [] && CleanParts(a) && CleanParts(b)
    ensures CleanParts(a[1..]) && CleanParts(b[1..])
    ensures a < b <==> a[0] == b[0] && a[1..] < b[1..]
  {
    assert forall k :: 0 <= k < |a[1..]| ==> a[1..][k] == a[k + 1];
    assert forall k :: 0 <= k < |b[1..]| ==> b[1..][k] == b[k + 1];
    if a[0] == b[0] && a[1..] < b[1..] {
      assert a == [a[0]] + a[1..] && b == [b[0]] + b[1..];
    }
  }

  // ----- case folding -----

  /** Folding turns separators into separators and nothing else into one, and drops nothing. */
  ghost predicate KeepsSeparators(fold: char -> string) {
    && fold('\\') == "\\"
    && forall c :: c != '\\' ==> fold(c) != "" && '\\' !in fold(c)
  }

  function FoldParts(fold: char -> string, parts: seq<string>): (r: seq<string>)
    ensures |r| == |parts|
  {
    if parts == [] then [] else [Fold(fold, parts[0])] + FoldParts(fold, parts[1..])
  }

  lemma {:induction false} FoldClean(fold: char -> string, s: string)
    requires KeepsSeparators(fold) && '\\' !in s
    ensures '\\' !in Fold(fold, s) && (s != "" ==> Fold(fold, s) != "")
  {
    if s != "" {
      assert s[0] != '\\';
      FoldClean(fold, s[1..]);
    }
  }

  lemma {:induction false} FoldPartsClean(fold: char -> string, parts: seq<string>)
    requires KeepsSeparators(fold) && CleanParts(parts)
    ensures CleanParts(FoldParts(fold, parts))
  {
    if parts != [] {
      assert forall k :: 0 <= k < |parts[1..]| ==> parts[1..][k] == parts[k + 1];
      FoldPartsClean(fold, parts[1..]);
      FoldClean(fold, parts[0]);
    }
  }

  lemma {:induction false} FoldJoin(fold: char -> string, parts: seq<string>)
    requires KeepsSeparators(fold)
    ensures Fold(fold, Join(parts, '\\')) == Join(FoldParts(fold, parts), '\\')
  {
    hide KeepsSeparators;
    if |parts| > 1 {
      FoldJoin(fold, parts[1..]);
      FoldAppend(fold, parts[0] + "\\", Join(parts[1..], '\\'));
      FoldAppend(fold, parts[0], "\\");
      FoldOne(fold);
      assert parts[0] + ['\\'] + Join(parts[1..], '\\') == parts[0] + "\\" + Join(parts[1..], '\\');
    }
  }

  lemma FoldOne(fold: char -> string)
    requires KeepsSeparators(fold)
    ensures Fold(fold, "\\") == "\\" && Fold(fold, "\\\\") == "\\\\"
  {
    assert "\\"[1..] == "" && "\\\\"[1..] == "\\";
  }

  lemma {:induction false} FoldUnc(fold: char -> string, parts: seq<string>)
    requires KeepsSeparators(fold)
    ensures Fold(fold, "\\\\" + Join(parts, '\\')) == "\\\\" + Join(FoldParts(fold, parts), '\\')
  {
    FoldAppend(fold, "\\\\", Join(parts, '\\'));
    FoldJoin(fold, parts);
    FoldOne(fold);
  }

  /** The string test is a test on parts: the root's server, share and folders are, up to case,
      the leading parts of the path, and the path has more. A sibling whose name only starts
      with the root's last part is not under it. */
  lemma UnderRootIffPartsExtend(fold: char -> string, path: string, root: string)
    requires KeepsSeparators(fold) && UncParts(path).Some? && UncParts(root).Some?
    ensures Fold(fold, NormalizeUncPath(root).value) + "\\" <= Fold(fold, NormalizeUncPath(path).value)
      <==> FoldParts(fold, UncParts(root).value) < FoldParts(fold, UncParts(path).value)
  {
    UncPartsClean(path);
    UncPartsClean(root);
    var a, b := UncParts(root).value, UncParts(path).value;
    hide UncParts, Fold, Join;
    FoldUnc(fold, a);
    FoldUnc(fold, b);
    FoldPartsClean(fold, a);
    FoldPartsClean(fold, b);
    var x, y := FoldParts(fold, a), FoldParts(fold, b);
    JoinPrefix(x, y);
    assert ("\\\\" + Join(x, '\\')) + "\\" == "\\\\" + (Join(x, '\\') + "\\");
    SamePrefix("\\\\", Join(x, '\\') + "\\", Join(y, '\\'));
  }

  lemma SamePrefix(p: string, a: string, b: string)
    ensures p + a <= p + b <==> a <= b
  {
    if p + a <= p + b {
      assert forall k :: 0 <= k < |a| ==> a[k] == (p + a)[|p| + k] && b[k] == (p + b)[|p| + k];
    }
  }

  // ----- validation -----

  datatype Grant = Grant(intentId: string, sourceId: string, fileRevision: string, shareId: string)

  datatype Share = Share(shareId: string, enabled: bool, sharePath: string)

  /** str() of a column that may be null. */
  function Str(s: Option<string>): string {
    if s.None? then "None" else s.value
  }

  function FirstShare(shares: seq<Share>, shareId: string): Option<Share> {
    if shares == [] then None
    else if shares[0].shareId == shareId then Some(shares[0])
    else FirstShare(shares[1..], shareId)
  }

  /** The normal path of the file, or the outcome of the error raised. */
  function ValidateResolvedFile(row: Option<FileInfo>, g: Grant, shares: seq<Share>,
                                fold: char -> string): Result<string, string> {
    if row.None? || Str(row.value.sourceId) != g.sourceId || Str(row.value.fileRevision) != g.fileRevision then Failure("moved")
    else if row.value.shareId != g.shareId then Failure("access_denied")
    else
      var share := FirstShare(shares, g.shareId);
      if share.None? || !share.value.enabled then Failure("offline")
      else
        var path, root := NormalizeUncPath(row.value.path), NormalizeUncPath(share.value.sharePath);
        if path.None? || root.None? || !(Fold(fold, root.value) + "\\" <= Fold(fold, path.value)) then Failure("access_denied")
        else Success(path.value)
  }

  /** The k-th share is the first of its name. */
  ghost predicate FirstNamed(shares: seq<Share>, k: nat, shareId: string) {
    k < |shares| && shares[k].shareId == shareId && forall j :: 0 <= j < k ==> shares[j].shareId != shareId
  }

  lemma {:induction false} FirstShareIs(shares: seq<Share>, shareId: string, k: nat)
    requires FirstNamed(shares, k, shareId)
    ensures FirstShare(shares, shareId) == Some(shares[k])
  {
    if k > 0 {
      assert forall j :: 0 <= j < |shares[1..]| ==> shares[1..][j] == shares[j + 1];
      FirstShareIs(shares[1..], shareId, k - 1);
    }
  }

  lemma {:induction false} FirstShareAt(shares: seq<Share>, shareId: string) returns (k: nat)
    requires FirstShare(shares, shareId).Some?
    ensures FirstNamed(shares, k, shareId)
  {
    if shares[0].shareId == shareId {
      k := 0;
    } else {
      k := FirstShareAt(shares[1..], shareId);
      assert forall j :: 0 <= j < |shares[1..]| ==> shares[1..][j] == shares[j + 1];
      k := k + 1;
    }
  }

  ghost predicate InsideShare(row: FileInfo, s: Share, fold: char -> string) {
    && UncParts(row.path).Some? && UncParts(s.sharePath).Some?
    && FoldParts(fold, UncParts(s.sharePath).value) < FoldParts(fold, UncParts(row.path).value)
  }

  ghost predicate Matches(row: FileInfo, g: Grant) {
    Str(row.sourceId) == g.sourceId && Str(row.fileRevision) == g.fileRevision && row.shareId == g.shareId
  }

  /** A path is released exactly when the row agrees with the grant in identity, revision and
      share, and lies inside the first assigned share of that name, which is enabled. */
  lemma ValidationExact(row: Option<FileInfo>, g: Grant, shares: seq<Share>, fold: char -> string)
    requires KeepsSeparators(fold)
    ensures ValidateResolvedFile(row, g, shares, fold).Success? <==>
      row.Some? && Matches(row.value, g) &&
      exists k: nat :: k < |shares| && FirstNamed(shares, k, g.shareId) && shares[k].enabled && InsideShare(row.value, shares[k], fold)
    ensures ValidateResolvedFile(row, g, shares, fold).Success? ==>
      NormalizeUncPath(row.value.path) == Some(ValidateResolvedFile(row, g, shares, fold).value)
  {
    hide Fold, FoldParts, UncParts, KeepsSeparators, FirstShare, FirstNamed;
    var share := FirstShare(shares, g.shareId);
    forall k: nat | k < |shares| && FirstNamed(shares, k, g.shareId)
      ensures share == Some(shares[k])
    {
      FirstShareIs(shares, g.shareId, k);
    }
    if share.Some? {
      var k := FirstShareAt(shares, g.shareId);
      assert FirstNamed(shares, k, g.shareId);
    }
    if row.Some? && share.Some? && UncParts(row.value.path).Some? && UncParts(share.value.sharePath).Some? {
      UnderRootIffPartsExtend(fold, row.value.path, share.value.sharePath);
    }
  }
}
