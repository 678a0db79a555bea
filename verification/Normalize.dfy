/** From a scanner report to findings: alerts are grouped by rule and parameter, and why the
    groups have fingerprints of their own. */
module Normalize {
  import opened Wrappers
  import F = Findings
  import opened Reconcile
  import opened Convergence

  /** One place an alert was seen. Absent texts are empty. */
  datatype Instance = Instance(param: string, uri: string, verb: string)

  /** The details stand for what a finding only copies from its first alert. */
  datatype Alert = Alert(pluginId: string, riskcode: string, details: seq<string>, instances: seq<Instance>)

  datatype Site = Site(name: string, alerts: seq<Alert>)

  /** The lowest risk kept, which addresses are passed over, and the host's upper-casing. */
  datatype Rules = Rules(minRisk: int, ignored: string -> bool, upper: string -> string)

  type Key = (string, string)

  datatype Sighting = Sighting(key: Key, alert: Alert, uri: string, verb: string)

  /** A finding in the making: its first alert, and the verbs seen at each address. */
  datatype Group = Group(alert: Alert, affected: map<string, set<string>>)

  type Groups = map<Key, Group>

  function RiskRank(riskcode: string): int {
    if riskcode == "1" then 1 else if riskcode == "2" then 2 else if riskcode == "3" then 3 else 0
  }

  function Or(s: string, fallback: string): string {
    if s == "" then fallback else s
  }

  function SightingOf(site: Site, alert: Alert, i: Instance, rules: Rules): Sighting {
    Sighting((alert.pluginId, i.param), alert, Or(i.uri, site.name), rules.upper(Or(i.verb, "GET")))
  }

  function OfInstances(site: Site, alert: Alert, instances: seq<Instance>, rules: Rules): seq<Sighting> {
    seq(|instances|, i requires 0 <= i < |instances| => SightingOf(site, alert, instances[i], rules))
  }

  /** An alert without instances counts as seen once, with nothing known. */
  function OfAlert(site: Site, alert: Alert, rules: Rules): seq<Sighting> {
    if RiskRank(alert.riskcode) < rules.minRisk then []
    else OfInstances(site, alert, if alert.instances == [] then [Instance("", "", "")] else alert.instances, rules)
  }

  function OfAlerts(site: Site, alerts: seq<Alert>, rules: Rules): seq<Sighting> {
    if alerts == [] then [] else OfAlerts(site, alerts[..|alerts| - 1], rules) + OfAlert(site, alerts[|alerts| - 1], rules)
  }

  function OfSites(sites: seq<Site>, rules: Rules): seq<Sighting> {
    if sites == [] then []
    else
      var last := sites[|sites| - 1];
      OfSites(sites[..|sites| - 1], rules) + OfAlerts(last, last.alerts, rules)
  }

  // ----- grouping -----

  function SeenAt(affected: map<string, set<string>>, uri: string, verb: string): map<string, set<string>> {
    affected[uri := (if uri in affected then affected[uri] else {}) + {verb}]
  }

  function AddSighting(groups: Groups, s: Sighting, rules: Rules): Groups {
    var group := if s.key in groups then groups[s.key] else Group(s.alert, map[]);
    groups[s.key := if rules.ignored(s.uri) then group else group.(affected := SeenAt(group.affected, s.uri, s.verb))]
  }

  function GroupAll(ss: seq<Sighting>, rules: Rules): Groups {
    if ss == [] then map[] else AddSighting(GroupAll(ss[..|ss| - 1], rules), ss[|ss| - 1], rules)
  }

  function Reported(groups: Groups): Groups {
    map k | k in groups && groups[k].affected != map[] :: groups[k]
  }

  lemma {:induction false} OneMoreSighting(ss: seq<Sighting>, s: Sighting, rules: Rules)
    ensures GroupAll(ss + [s], rules) == AddSighting(GroupAll(ss, rules), s, rules)
  {
    assert (ss + [s])[..|ss|] == ss;
  }

  /** The instances of one alert, added to what there is. */
  method AddInstances(groups: Groups, ghost before: seq<Sighting>, site: Site, alert: Alert,
                      instances: seq<Instance>, rules: Rules)
    returns (r: Groups)
    requires groups == GroupAll(before, rules)
    ensures r == GroupAll(before + OfInstances(site, alert, instances, rules), rules)
  {
    hide GroupAll, AddSighting, SightingOf;
    r := groups;
    ghost var all := OfInstances(site, alert, instances, rules);
    assert before + all[..0] == before;
    for k := 0 to |instances|
      invariant r == GroupAll(before + all[..k], rules)
    {
      var s := SightingOf(site, alert, instances[k], rules);
      OneMoreSighting(before + all[..k], s, rules);
      assert before + all[..k + 1] == (before + all[..k]) + [s];
      r := AddSighting(r, s, rules);
    }
    assert all[..|instances|] == all;
  }

  method NormalizeReport(sites: seq<Site>, rules: Rules) returns (findings: Groups)
    ensures findings == Reported(GroupAll(OfSites(sites, rules), rules))
  {
    hide GroupAll, AddSighting, Reported;
    var groups: Groups := map[];
    ghost var before: seq<Sighting> := [];
    NothingSeen(rules);
    for j := 0 to |sites|
      invariant before == OfSites(sites[..j], rules) && groups == GroupAll(before, rules)
    {
      assert sites[..j + 1][..j] == sites[..j];
      groups := AddAlerts(groups, before, sites[j], rules);
      before := before + OfAlerts(sites[j], sites[j].alerts, rules);
    }
    assert sites[..|sites|] == sites;
    findings := Reported(groups);
  }

  /** The alerts of one site; those of too low a risk are passed over. */
  method AddAlerts(groups: Groups, ghost earlier: seq<Sighting>, site: Site, rules: Rules) returns (r: Groups)
    requires groups == GroupAll(earlier, rules)
    ensures r == GroupAll(earlier + OfAlerts(site, site.alerts, rules), rules)
  {
    hide GroupAll, OfInstances, RiskRank;
    r := groups;
    ghost var before := earlier;
    assert earlier + [] == earlier;
    for k := 0 to |site.alerts|
      invariant before == earlier + OfAlerts(site, site.alerts[..k], rules) && r == GroupAll(before, rules)
    {
      var alert := site.alerts[k];
      assert site.alerts[..k + 1][..k] == site.alerts[..k];
      if RiskRank(alert.riskcode) < rules.minRisk {
        assert before + [] == before;
        continue;
      }
      var instances := if alert.instances == [] then [Instance("", "", "")] else alert.instances;
      r := AddInstances(r, before, site, alert, instances, rules);
      before := before + OfAlert(site, alert, rules);
    }
    assert site.alerts[..|site.alerts|] == site.alerts;
  }

  lemma {:induction false} NothingSeen(rules: Rules)
    ensures GroupAll([], rules) == map[] && OfSites([], rules) == []
  {}

  /** Where and how a key was seen, leaving out the addresses passed over. */
  ghost predicate SeenWith(ss: seq<Sighting>, key: Key, uri: string, verb: string, rules: Rules) {
    exists s :: s in ss && s.key == key && s.uri == uri && s.verb == verb && !rules.ignored(s.uri)
  }

  ghost predicate Recorded(groups: Groups, key: Key, uri: string, verb: string) {
    key in groups && uri in groups[key].affected && verb in groups[key].affected[uri]
  }

  /** The first alert that brought a key. */
  ghost function FirstAlert(ss: seq<Sighting>, key: Key): Option<Alert> {
    if ss == [] then None else if ss[0].key == key then Some(ss[0].alert) else FirstAlert(ss[1..], key)
  }

  lemma {:induction false} FirstAlertAppend(ss: seq<Sighting>, s: Sighting, key: Key)
    ensures FirstAlert(ss + [s], key)
         == if FirstAlert(ss, key).Some? then FirstAlert(ss, key) else if s.key == key then Some(s.alert) else None
  {
    if ss == [] {
      assert ss + [s] == [s] && [s][1..] == [];
    } else {
      assert (ss + [s])[1..] == ss[1..] + [s];
      FirstAlertAppend(ss[1..], s, key);
    }
  }

  lemma OneMoreRecorded(groups: Groups, s: Sighting, rules: Rules, key: Key, uri: string, verb: string)
    ensures var now := AddSighting(groups, s, rules);
      && (Recorded(now, key, uri, verb)
          <==> Recorded(groups, key, uri, verb) || (s.key == key && s.uri == uri && s.verb == verb && !rules.ignored(s.uri)))
      && (key in now <==> key in groups || s.key == key)
      && (key in now ==> now[key].alert == if key in groups then groups[key].alert else s.alert)
  {}

  lemma SeenInMore(ss: seq<Sighting>, s: Sighting, rules: Rules, key: Key, uri: string, verb: string)
    ensures SeenWith(ss + [s], key, uri, verb, rules)
      <==> SeenWith(ss, key, uri, verb, rules) || (s.key == key && s.uri == uri && s.verb == verb && !rules.ignored(s.uri))
  {
    assert forall x :: x in ss + [s] <==> x in ss || x == s;
  }

  lemma {:induction false} GroupsAre(ss: seq<Sighting>, rules: Rules, key: Key, uri: string, verb: string)
    ensures Recorded(GroupAll(ss, rules), key, uri, verb) <==> SeenWith(ss, key, uri, verb, rules)
    ensures key in GroupAll(ss, rules) <==> FirstAlert(ss, key).Some?
    ensures key in GroupAll(ss, rules) ==> Some(GroupAll(ss, rules)[key].alert) == FirstAlert(ss, key)
  {
    if ss != [] {
      var init, last := ss[..|ss| - 1], ss[|ss| - 1];
      assert ss == init + [last];
      GroupsAre(init, rules, key, uri, verb);
      FirstAlertAppend(init, last, key);
      OneMoreRecorded(GroupAll(init, rules), last, rules, key, uri, verb);
      SeenInMore(init, last, rules, key, uri, verb);
      hide AddSighting, Recorded, SeenWith, FirstAlert;
    }
  }

  lemma {:induction false} NoEmptyVerbs(ss: seq<Sighting>, rules: Rules, key: Key, uri: string)
    requires key in GroupAll(ss, rules) && uri in GroupAll(ss, rules)[key].affected
    ensures GroupAll(ss, rules)[key].affected[uri] != {}
  {
    var init, last := ss[..|ss| - 1], ss[|ss| - 1];
    var groups := GroupAll(init, rules);
    if key in groups && uri in groups[key].affected {
      NoEmptyVerbs(init, rules, key, uri);
    }
  }

  /** A finding is reported for exactly the keys seen at an address that counts; it lists
      exactly the addresses and verbs of its key, each sighting in one finding and no other,
      and takes its details from the first alert. */
  lemma {:induction false} ReportedExactly(sites: seq<Site>, rules: Rules, key: Key, uri: string, verb: string)
    ensures var ss := OfSites(sites, rules);
      var findings := Reported(GroupAll(ss, rules));
      && (Recorded(findings, key, uri, verb) <==> SeenWith(ss, key, uri, verb, rules))
      && (key in findings <==> exists u, v :: SeenWith(ss, key, u, v, rules))
      && (key in findings ==> Some(findings[key].alert) == FirstAlert(ss, key))
  {
    var ss := OfSites(sites, rules);
    var groups := GroupAll(ss, rules);
    forall u, v
      ensures Recorded(groups, key, u, v) <==> SeenWith(ss, key, u, v, rules)
    {
      GroupsAre(ss, rules, key, u, v);
    }
    GroupsAre(ss, rules, key, uri, verb);
    hide GroupAll, SeenWith, FirstAlert, OfSites;
    if key in Reported(groups) {
      var u :| u in groups[key].affected;
      NoEmptyVerbs(ss, rules, key, u);
      var v :| v in groups[key].affected[u];
      assert Recorded(groups, key, u, v);
    }
    if u, v :| SeenWith(ss, key, u, v, rules) {
      assert Recorded(groups, key, u, v);
    }
  }

  // ----- fingerprints -----

  /** The text whose digest is the fingerprint. */
  function KeyText(key: Key): string {
    key.0 + "|" + key.1
  }

  /** The digest tells the key texts in play apart. */
  ghost predicate CollisionFree(keys: seq<Key>, digest: string -> F.Digest) {
    forall j, k :: 0 <= j < |keys| && 0 <= k < |keys| && digest(KeyText(keys[j])) == digest(KeyText(keys[k])) ==>
      KeyText(keys[j]) == KeyText(keys[k])
  }

  lemma {:induction false} FirstBar(a: string, b: string, s: string, t: string)
    requires '|' !in a && '|' !in b && a + "|" + s == b + "|" + t
    ensures a == b && s == t
  {
    if a == "" || b == "" {
      assert (a + "|" + s)[0] == (b + "|" + t)[0];
      assert a == "" && b == "";
      assert ("|" + s)[1..] == s && ("|" + t)[1..] == t;
      assert a + "|" + s == "|" + s && b + "|" + t == "|" + t;
    } else {
      assert (a + "|" + s)[1..] == a[1..] + "|" + s && (b + "|" + t)[1..] == b[1..] + "|" + t;
      assert (a + "|" + s)[0] == a[0] && (b + "|" + t)[0] == b[0];
      FirstBar(a[1..], b[1..], s, t);
      assert a == [a[0]] + a[1..] && b == [b[0]] + b[1..];
    }
  }

  /** Findings made from groups with these keys, one each. */
  ghost predicate MadeFrom(findings: seq<F.Finding>, keys: seq<Key>, digest: string -> F.Digest) {
    && |findings| == |keys|
    && (forall j, k :: 0 <= j < k < |keys| ==> keys[j] != keys[k])
    && forall k :: 0 <= k < |keys| ==> findings[k].fingerprint == digest(KeyText(keys[k]))
  }

  /** With a digest free of collisions on these keys, the findings can be reconciled for good exactly when
      keys that spell the same text want the same issue. */
  lemma ConsistentIff(findings: seq<F.Finding>, keys: seq<Key>, digest: string -> F.Digest)
    requires MadeFrom(findings, keys, digest) && CollisionFree(keys, digest)
    ensures Consistent(findings) <==>
      forall j, k :: 0 <= j < |keys| && 0 <= k < |keys| && KeyText(keys[j]) == KeyText(keys[k]) ==>
        SameIssue(findings[j], findings[k])
  {
    hide SameIssue;
    if Consistent(findings) {
      forall j, k | 0 <= j < |keys| && 0 <= k < |keys| && KeyText(keys[j]) == KeyText(keys[k])
        ensures SameIssue(findings[j], findings[k])
      {
        assert findings[j] in findings && findings[k] in findings;
      }
    } else {
      var a, b :| a in findings && b in findings && a.fingerprint == b.fingerprint && !SameIssue(a, b);
      var j :| 0 <= j < |keys| && findings[j] == a;
      var k :| 0 <= k < |keys| && findings[k] == b;
      assert KeyText(keys[j]) == KeyText(keys[k]);
    }
  }

  /** Rule ids without a bar are enough. */
  lemma PlainRulesAreConsistent(findings: seq<F.Finding>, keys: seq<Key>, digest: string -> F.Digest)
    requires MadeFrom(findings, keys, digest) && CollisionFree(keys, digest)
    requires forall k :: 0 <= k < |keys| ==> '|' !in keys[k].0
    ensures Consistent(findings)
  {
    forall j, k | 0 <= j < |keys| && 0 <= k < |keys| && KeyText(keys[j]) == KeyText(keys[k])
      ensures SameIssue(findings[j], findings[k])
    {
      FirstBar(keys[j].0, keys[k].0, keys[j].1, keys[k].1);
    }
    ConsistentIff(findings, keys, digest);
  }

  /** So one run settles the issues of any report whose rule ids hold no bar, whatever the store
      held before. */
  lemma PlainRulesSettle(s: Store, findings: seq<F.Finding>, keys: seq<Key>, digest: string -> F.Digest, runUrl: string,
                         zapExitCode: int)
    requires MadeFrom(findings, keys, digest) && CollisionFree(keys, digest) && ValidStore(s)
    requires forall k :: 0 <= k < |keys| ==> '|' !in keys[k].0
    ensures Settled(Reconciled(s, findings, runUrl, zapExitCode), findings, zapExitCode)
  {
    PlainRulesAreConsistent(findings, keys, digest);
    hide CollisionFree, MadeFrom, Settled, Reconciled, ValidStore, Consistent;
    OneRunSettles(s, findings, runUrl, zapExitCode);
  }

  /** And no run is ever quiet when two keys spell one text and want different issues, whatever
      the digest. */
  lemma ClashingKeysNeverSettle(s: Store, findings: seq<F.Finding>, keys: seq<Key>, digest: string -> F.Digest, j: nat, k: nat,
                                zapExitCode: int)
    requires MadeFrom(findings, keys, digest) && j < |keys| && k < |keys|
    requires KeyText(keys[j]) == KeyText(keys[k]) && !SameIssue(findings[j], findings[k])
    ensures !Quiet(ReconciledCounts(s, findings, zapExitCode))
  {
    hide SameIssue, Quiet, ReconciledCounts;
    assert findings[j] in findings && findings[k] in findings;
    DisagreementNeverSettles(s, findings, zapExitCode);
  }

  /** Different keys can spell the same text. */
  lemma BarsCollide()
    ensures ("a", "b|c") != ("a|b", "c") && KeyText(("a", "b|c")) == KeyText(("a|b", "c"))
  {
    assert "a" + "|" + "b|c" == "a|b" + "|" + "c";
  }

  // ----- a digest that tells given keys apart -----

  function Power16(n: nat): (p: nat)
    ensures p > 0
  {
    if n == 0 then 1 else 16 * Power16(n - 1)
  }

  function HexDigit(n: nat): (c: char)
    requires n < 16
    ensures F.IsHexDigit(c)
  {
    "0123456789abcdef"[n]
  }

  function Hex(n: nat, length: nat): (s: string)
    ensures |s| == length && forall k :: 0 <= k < |s| ==> F.IsHexDigit(s[k])
  {
    if length == 0 then "" else Hex(n / 16, length - 1) + [HexDigit(n % 16)]
  }

  lemma HexDigitTells(m: nat, n: nat)
    requires m < 16 && n < 16 && HexDigit(m) == HexDigit(n)
    ensures m == n
  {}

  /** Numbers that fit the length have different spellings. */
  lemma {:induction false} HexTells(m: nat, n: nat, length: nat)
    requires m < Power16(length) && n < Power16(length) && Hex(m, length) == Hex(n, length)
    ensures m == n
  {
    if length > 0 {
      var a, b := Hex(m / 16, length - 1), Hex(n / 16, length - 1);
      assert (a + [HexDigit(m % 16)])[..length - 1] == a && (b + [HexDigit(n % 16)])[..length - 1] == b;
      assert (a + [HexDigit(m % 16)])[length - 1] == HexDigit(m % 16) && (b + [HexDigit(n % 16)])[length - 1] == HexDigit(n % 16);
      HexTells(m / 16, n / 16, length - 1);
      HexDigitTells(m % 16, n % 16);
    }
  }

  /** Where a text is first spelled by a key; the number of keys if by none. */
  function FirstSpelled(keys: seq<Key>, text: string): (n: nat)
    ensures n <= |keys|
    ensures n < |keys| ==> KeyText(keys[n]) == text
    ensures n == |keys| ==> forall k :: 0 <= k < |keys| ==> KeyText(keys[k]) != text
  {
    if keys == [] then 0
    else if KeyText(keys[0]) == text then 0
    else 1 + FirstSpelled(keys[1..], text)
  }

  function NumberedDigest(keys: seq<Key>): string -> F.Digest {
    (text: string) => Hex(FirstSpelled(keys, text), F.DIGEST_LENGTH)
  }

  /** Any keys a report can hold have such a digest. */
  lemma CollisionFreeDigestExists(keys: seq<Key>)
    requires |keys| < Power16(F.DIGEST_LENGTH)
    ensures CollisionFree(keys, NumberedDigest(keys))
  {
    var digest := NumberedDigest(keys);
    forall j, k | 0 <= j < |keys| && 0 <= k < |keys| && digest(KeyText(keys[j])) == digest(KeyText(keys[k]))
      ensures KeyText(keys[j]) == KeyText(keys[k])
    {
      HexTells(FirstSpelled(keys, KeyText(keys[j])), FirstSpelled(keys, KeyText(keys[k])), F.DIGEST_LENGTH);
    }
  }
}
