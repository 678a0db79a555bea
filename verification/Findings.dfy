/** Scanner findings as issues: the title, labels and body they are rendered to, and the markers
    by which an issue is recognised again. */
module Findings {
  import opened Wrappers
  import opened Text

  const LABEL := "dast"
  const SCAN_ALERT_TITLE := "[dast-" + "alert] Scheduled production DAST scan did not produce a report"
  const TARGET := "https://getlawhand.com"
  const MAX_AFFECTED_URLS: nat := 50
  const DIGEST_LENGTH: nat := 40

  predicate IsHexDigit(c: char) {
    '0' <= c <= '9' || 'a' <= c <= 'f'
  }

  predicate IsDigest(s: string) {
    |s| == DIGEST_LENGTH && forall k :: 0 <= k < |s| ==> IsHexDigit(s[k])
  }

  ghost function Zeros(n: nat): (s: string)
    ensures |s| == n && forall k :: 0 <= k < n ==> s[k] == '0'
  {
    seq(n, _ => '0')
  }

  type Digest = s: string | IsDigest(s) ghost witness Zeros(DIGEST_LENGTH)

  datatype Affected = Affected(uri: string, methods: seq<string>)

  /** A finding with its two digests: of the rule and parameter, and of everything shown except
      the run. `affected` is in the order of the URIs. */
  datatype Finding = Finding(
    fingerprint: Digest,
    contentHash: Digest,
    pluginId: string,
    name: string,
    risk: string,
    confidence: string,
    cwe: string,
    wasc: string,
    cves: seq<string>,
    description: string,
    solution: string,
    reference: string,
    param: string,
    sourceLabel: string,
    affected: seq<Affected>)

  // ----- rendering -----

  function Or(s: string, fallback: string): string {
    if s == "" then fallback else s
  }

  function CommaJoin(parts: seq<string>): string {
    if parts == [] then "" else if |parts| == 1 then parts[0] else parts[0] + ", " + CommaJoin(parts[1..])
  }

  function Decimal(n: nat): string {
    var digit := ['0' + (n % 10) as char];
    if n < 10 then digit else Decimal(n / 10) + digit
  }

  function RenderTitle(f: Finding): string {
    var title := "[dast][" + f.risk + "] " + f.name + " [" + f.pluginId + "]"
                 + (if f.param == "" then "" else " (" + f.param + ")");
    if |title| <= 200 then title else title[..200]
  }

  function SeverityLabel(risk: string): Option<string> {
    if risk == "Critical" then Some("severity:critical")
    else if risk == "High" then Some("severity:high")
    else if risk == "Medium" then Some("severity:medium")
    else if risk == "Low" then Some("severity:low")
    else if risk == "Informational" then Some("severity:informational")
    else None
  }

  function SeverityLabels(f: Finding): seq<string> {
    match SeverityLabel(f.risk)
    case Some(severity) => [LABEL, severity]
    case None => [LABEL]
  }

  const FINGERPRINT_MARK := "<!-- dast-fingerprint: "
  const CONTENT_MARK := "<!-- dast-content: "
  const MARK_END := " -->"

  function AffectedLines(affected: seq<Affected>): seq<string> {
    if affected == [] then []
    else ["- `" + Trim(CommaJoin(NonEmptyParts(affected[0].methods)) + " " + affected[0].uri) + "`"] + AffectedLines(affected[1..])
  }

  function BodyLines(f: Finding, runUrl: string): seq<string> {
    ["",
     "| Criticality | Confidence | CWE | WASC | CVE |",
     "| --- | --- | --- | --- | --- |",
     "| " + f.risk + " | " + Or(f.confidence, "n/a") + " | " + Or(f.cwe, "n/a") + " | " + Or(f.wasc, "n/a") + " | "
       + (if f.cves == [] then "None" else CommaJoin(f.cves)) + " |",
     "",
     "**Plugin:** `" + f.pluginId + "`",
     "",
     Or(f.description, "_No description supplied by the scanner._"),
     "",
     "**Solution**",
     "",
     Or(f.solution, "_No remediation supplied by the scanner._"),
     "",
     "**References**",
     "",
     Or(f.reference, "_None._"),
     "",
     "**CVSS:** _Not provided by the scanner._",
     "",
     "**Affected URLs**",
     ""]
    + AffectedLines(if |f.affected| <= MAX_AFFECTED_URLS then f.affected else f.affected[..MAX_AFFECTED_URLS])
    + (if |f.affected| > MAX_AFFECTED_URLS then ["- ...and " + Decimal(|f.affected| - MAX_AFFECTED_URLS) + " more"] else [])
    + ["",
       "---",
       "Detected by " + f.sourceLabel + ".",
       "- Target: `" + TARGET + "`",
       "- Run: " + Or(runUrl, "_n/a_")]
    + (if f.cves != [] then []
       else ["- CVE: none associated with this rule. It is a configuration or "
             + "information-disclosure finding (see CWE/WASC), not a known CVE."])
  }

  function RenderBody(f: Finding, runUrl: string): string {
    Join([FINGERPRINT_MARK + f.fingerprint + MARK_END, CONTENT_MARK + f.contentHash + MARK_END] + BodyLines(f, runUrl), '\n')
  }

  // ----- markers -----

  predicate MarkAt(body: string, mark: string, at: nat) {
    && at + |mark| + DIGEST_LENGTH + |MARK_END| <= |body|
    && body[at..at + |mark|] == mark
    && IsDigest(body[at + |mark|..at + |mark| + DIGEST_LENGTH])
    && body[at + |mark| + DIGEST_LENGTH..at + |mark| + DIGEST_LENGTH + |MARK_END|] == MARK_END
  }

  /** The digest at the leftmost place where the pattern matches. */
  function MarkerFrom(body: string, mark: string, at: nat): Option<string>
    requires at <= |body|
    decreases |body| - at
  {
    if MarkAt(body, mark, at) then Some(body[at + |mark|..at + |mark| + DIGEST_LENGTH])
    else if at == |body| then None
    else MarkerFrom(body, mark, at + 1)
  }

  function Marker(body: string, mark: string): Option<string> {
    MarkerFrom(body, mark, 0)
  }

  lemma {:induction false} LeftmostMarker(body: string, mark: string, from: nat, at: nat)
    requires from <= at <= |body| && MarkAt(body, mark, at)
    requires forall k :: from <= k < at ==> !MarkAt(body, mark, k)
    ensures MarkerFrom(body, mark, from) == Some(body[at + |mark|..at + |mark| + DIGEST_LENGTH])
    decreases at - from
  {
    if from < at {
      LeftmostMarker(body, mark, from + 1, at);
    }
  }

  lemma BodyStartsWithMarkers(f: Finding, runUrl: string) returns (rest: string)
    ensures RenderBody(f, runUrl)
         == FINGERPRINT_MARK + f.fingerprint + MARK_END + "\n" + CONTENT_MARK + f.contentHash + MARK_END + rest
  {
    var first, second := FINGERPRINT_MARK + f.fingerprint + MARK_END, CONTENT_MARK + f.contentHash + MARK_END;
    var lines := BodyLines(f, runUrl);
    hide BodyLines;
    var tail := [second] + lines;
    assert ([first, second] + lines)[1..] == tail;
    assert tail[1..] == lines;
    rest := if lines == [] then "" else "\n" + Join(lines, '\n');
    assert Join(tail, '\n') == second + rest;
    assert RenderBody(f, runUrl) == first + ['\n'] + (second + rest);
  }

  lemma MarkedAt(before: string, mark: string, digest: Digest, after: string)
    ensures MarkAt(before + mark + digest + MARK_END + after, mark, |before|)
    ensures (before + mark + digest + MARK_END + after)[|before| + |mark|..|before| + |mark| + DIGEST_LENGTH] == digest
  {
    var body := before + mark + digest + MARK_END + after;
    assert body[|before|..|before| + |mark|] == mark;
    assert body[|before| + |mark|..|before| + |mark| + DIGEST_LENGTH] == digest;
    assert body[|before| + |mark| + DIGEST_LENGTH..|before| + |mark| + DIGEST_LENGTH + |MARK_END|] == MARK_END;
  }

  lemma MarkedAtStart(mark: string, digest: Digest, after: string)
    ensures MarkAt(mark + digest + MARK_END + after, mark, 0)
    ensures (mark + digest + MARK_END + after)[|mark|..|mark| + DIGEST_LENGTH] == digest
  {
    var body := mark + digest + MARK_END + after;
    assert body[0..|mark|] == mark;
    assert body[|mark| + DIGEST_LENGTH..|mark| + DIGEST_LENGTH + |MARK_END|] == MARK_END;
  }

  lemma FirstMarker(f: Finding, body: string, rest: string)
    requires body == FINGERPRINT_MARK + f.fingerprint + MARK_END + "\n" + CONTENT_MARK + f.contentHash + MARK_END + rest
    ensures Marker(body, FINGERPRINT_MARK) == Some(f.fingerprint)
  {
    hide IsDigest, MarkAt;
    var after := "\n" + CONTENT_MARK + f.contentHash + MARK_END + rest;
    assert body == FINGERPRINT_MARK + f.fingerprint + MARK_END + after;
    MarkedAtStart(FINGERPRINT_MARK, f.fingerprint, after);
    LeftmostMarker(body, FINGERPRINT_MARK, 0, 0);
  }

  lemma SecondMarker(f: Finding, body: string, rest: string)
    requires body == FINGERPRINT_MARK + f.fingerprint + MARK_END + "\n" + CONTENT_MARK + f.contentHash + MARK_END + rest
    ensures Marker(body, CONTENT_MARK) == Some(f.contentHash)
  {
    hide IsDigest, MarkAt;
    var line1 := FINGERPRINT_MARK + f.fingerprint + MARK_END + "\n";
    assert body == line1 + CONTENT_MARK + f.contentHash + MARK_END + rest;
    MarkedAt(line1, CONTENT_MARK, f.contentHash, rest);
    assert line1 <= body;
    forall k | 0 <= k < |line1|
      ensures !MarkAt(body, CONTENT_MARK, k)
    {
      NoContentMarkInFirstLine(f.fingerprint, body, k);
    }
    LeftmostMarker(body, CONTENT_MARK, 0, |line1|);
  }

  /** Whatever the scanner supplied, even text that imitates a marker, the two markers read back
      from a rendered body are the finding's own. */
  lemma MarkersReadBack(f: Finding, runUrl: string)
    ensures Marker(RenderBody(f, runUrl), FINGERPRINT_MARK) == Some(f.fingerprint)
    ensures Marker(RenderBody(f, runUrl), CONTENT_MARK) == Some(f.contentHash)
  {
    hide *;
    var rest := BodyStartsWithMarkers(f, runUrl);
    FirstMarker(f, RenderBody(f, runUrl), rest);
    SecondMarker(f, RenderBody(f, runUrl), rest);
  }

  lemma NoContentMarkInFirstLine(fingerprint: Digest, body: string, k: nat)
    requires FINGERPRINT_MARK + fingerprint + MARK_END + "\n" <= body
    requires k < |FINGERPRINT_MARK + fingerprint + MARK_END + "\n"|
    ensures !MarkAt(body, CONTENT_MARK, k)
  {
    var line1 := FINGERPRINT_MARK + fingerprint + MARK_END + "\n";
    assert body[k] == line1[k];
    if k + |CONTENT_MARK| <= |body| {
      var found := body[k..k + |CONTENT_MARK|];
      assert found[0] == body[k];
      if k == 0 {
        assert found[10] == body[10] == line1[10] == 'f' && CONTENT_MARK[10] == 'c';
      } else if |FINGERPRINT_MARK| <= k < |FINGERPRINT_MARK| + DIGEST_LENGTH {
        assert line1[k] == fingerprint[k - |FINGERPRINT_MARK|];
        assert IsHexDigit(line1[k]);
      } else if k < |FINGERPRINT_MARK| {
        assert line1[k] == FINGERPRINT_MARK[k];
      } else {
        assert line1[k] == (MARK_END + "\n")[k - |FINGERPRINT_MARK| - DIGEST_LENGTH];
      }
    }
  }

  lemma TitleIsNotAlert(f: Finding)
    ensures RenderTitle(f) != SCAN_ALERT_TITLE
  {
    var title := RenderTitle(f);
    assert |title| > 5 && title[5] == ']';
    assert SCAN_ALERT_TITLE[..6] == "[dast-";
    assert SCAN_ALERT_TITLE[5] == SCAN_ALERT_TITLE[..6][5];
  }
}
