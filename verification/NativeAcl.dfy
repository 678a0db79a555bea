/** Capture of a file's access list and the conservative read decision taken on the record,
    against the ordered access check of section 2.5.3.2 of [MS-DTYP]. */
module NativeAcl {
  import opened Wrappers

  datatype Ace = Ace(sid: string, inherited: bool)

  datatype AclState = Healthy | Unknown | CaptureFailed | Unavailable

  datatype AclRecord = AclRecord(state: AclState, capturedAt: Option<int>, allow: seq<Ace>, deny: seq<Ace>)

  datatype Reason = AclUnknown | AclStale | AclExplicitDeny | AclAllow | AclNoAllow

  datatype AclDecision = AclDecision(allowed: bool, reason: Reason)

  function UpperChar(c: char): char {
    if 'a' <= c <= 'z' then c - 'a' + 'A' else c
  }

  function Upper(s: string): string {
    seq(|s|, k requires 0 <= k < |s| => UpperChar(s[k]))
  }

  predicate Names(aces: seq<Ace>, principals: set<string>) {
    exists ace :: ace in aces && Upper(ace.sid) in principals
  }

  function UpperAll(sids: set<string>): set<string> {
    set sid | sid in sids :: Upper(sid)
  }

  const CLOCK_SKEW_SECONDS := 30

  predicate Fresh(record: AclRecord, maxAgeSeconds: int, now: int) {
    record.capturedAt.Some? && record.capturedAt.value <= now + CLOCK_SKEW_SECONDS
    && now - record.capturedAt.value <= maxAgeSeconds
  }

  function AuthorizeAcl(record: Option<AclRecord>, principalSids: set<string>, maxAgeSeconds: int, now: int): AclDecision {
    if record.None? || record.value.state != Healthy || record.value.capturedAt.None? then
      AclDecision(false, AclUnknown)
    else if !Fresh(record.value, maxAgeSeconds, now) then AclDecision(false, AclStale)
    else
      var principals := UpperAll(principalSids);
      if Names(record.value.deny, principals) then AclDecision(false, AclExplicitDeny)
      else if Names(record.value.allow, principals) then AclDecision(true, AclAllow)
      else AclDecision(false, AclNoAllow)
  }

  // ----- capture -----

  const FILE_READ_DATA: bv32 := 0x1
  const GENERIC_READ: bv32 := 0x8000_0000
  const GENERIC_WRITE: bv32 := 0x4000_0000
  const GENERIC_EXECUTE: bv32 := 0x2000_0000
  const GENERIC_ALL: bv32 := 0x1000_0000
  const INHERIT_ONLY: bv8 := 0x08
  const INHERITED: bv8 := 0x10

  datatype AceKind = AccessAllowed | AccessDenied | OtherKind

  datatype RawAce = RawAce(kind: AceKind, flags: bv8, mask: bv32, sid: string)

  predicate ReadCapable(mask: bv32) {
    mask & (FILE_READ_DATA | GENERIC_READ | GENERIC_ALL) != 0
  }

  /** The ACEs the record keeps: plain, effective on the file itself, and about reading. */
  predicate Kept(raw: RawAce) {
    raw.kind != OtherKind && raw.flags & INHERIT_ONLY == 0 && ReadCapable(raw.mask)
  }

  function Normalized(raw: RawAce): Ace {
    Ace(Upper(raw.sid), raw.flags & INHERITED != 0)
  }

  ghost function KeptOfKind(dacl: seq<RawAce>, kind: AceKind): seq<Ace> {
    if dacl == [] then []
    else
      var init := KeptOfKind(dacl[..|dacl| - 1], kind);
      var last := dacl[|dacl| - 1];
      if Kept(last) && last.kind == kind then init + [Normalized(last)] else init
  }

  ghost function RecordOf(dacl: Option<seq<RawAce>>, now: int): AclRecord {
    match dacl
    case None => AclRecord(Unknown, Some(now), [], [])
    case Some(aces) =>
      var allow, deny := KeptOfKind(aces, AccessAllowed), KeptOfKind(aces, AccessDenied);
      AclRecord(if allow != [] || deny != [] then Healthy else Unknown, Some(now), allow, deny)
  }

  method CaptureSmbAcl(dacl: Option<seq<RawAce>>, now: int) returns (record: AclRecord)
    ensures record == RecordOf(dacl, now)
  {
    if dacl.None? {
      return AclRecord(Unknown, Some(now), [], []);
    }
    var aces := dacl.value;
    var allows: seq<Ace>, denies: seq<Ace> := [], [];
    for k := 0 to |aces|
      invariant allows == KeptOfKind(aces[..k], AccessAllowed)
      invariant denies == KeptOfKind(aces[..k], AccessDenied)
    {
      var ace := aces[k];
      assert aces[..k + 1][..k] == aces[..k];
      if ace.kind == OtherKind { continue; }
      if ace.flags & INHERIT_ONLY != 0 { continue; }
      if !ReadCapable(ace.mask) { continue; }
      if ace.kind == AccessDenied {
        denies := denies + [Normalized(ace)];
      } else {
        allows := allows + [Normalized(ace)];
      }
    }
    assert aces[..|aces|] == aces;
    record := AclRecord(if allows != [] || denies != [] then Healthy else Unknown, Some(now), allows, denies);
  }

  // ----- the ordered access check of [MS-DTYP] -----

  /** Generic rights spelled out for a file object. */
  function MapGeneric(mask: bv32): bv32 {
    mask
    | (if mask & GENERIC_READ != 0 then 0x0012_0089 else 0)
    | (if mask & GENERIC_WRITE != 0 then 0x0012_0116 else 0)
    | (if mask & GENERIC_EXECUTE != 0 then 0x0012_00A0 else 0)
    | (if mask & GENERIC_ALL != 0 then 0x001F_01FF else 0)
  }

  predicate Plain(dacl: seq<RawAce>) {
    forall raw :: raw in dacl ==> raw.kind != OtherKind
  }

  predicate Applies(raw: RawAce, token: set<string>) {
    raw.flags & INHERIT_ONLY == 0 && Upper(raw.sid) in UpperAll(token)
  }

  /** ACEs are read in order: a matching deny of a right still wanted refuses, a matching
      allow takes its rights off the list, and access is granted once none is left. */
  function AccessCheck(dacl: seq<RawAce>, token: set<string>, remaining: bv32): bool {
    if remaining == 0 then true
    else if dacl == [] then false
    else
      var raw := dacl[0];
      if !Applies(raw, token) then AccessCheck(dacl[1..], token, remaining)
      else match raw.kind
        case AccessDenied =>
          MapGeneric(raw.mask) & remaining == 0 && AccessCheck(dacl[1..], token, remaining)
        case AccessAllowed => AccessCheck(dacl[1..], token, remaining & !MapGeneric(raw.mask))
        case OtherKind => AccessCheck(dacl[1..], token, remaining)
  }

  function WindowsGrantsRead(dacl: Option<seq<RawAce>>, token: set<string>): bool {
    dacl.None? || AccessCheck(dacl.value, token, FILE_READ_DATA)
  }

  predicate Matches(raw: RawAce, kind: AceKind, token: set<string>) {
    raw.kind == kind && Applies(raw, token) && ReadCapable(raw.mask)
  }

  ghost predicate SomeMatch(dacl: seq<RawAce>, kind: AceKind, token: set<string>) {
    exists raw :: raw in dacl && Matches(raw, kind, token)
  }

  lemma ReadBit(mask: bv32)
    ensures MapGeneric(mask) & FILE_READ_DATA != 0 <==> ReadCapable(mask)
    ensures FILE_READ_DATA & !MapGeneric(mask) == if ReadCapable(mask) then 0 else FILE_READ_DATA
  {}

  lemma UpperTwice(s: string)
    ensures Upper(Upper(s)) == Upper(s)
  {}

  lemma {:induction false} KeptNames(dacl: seq<RawAce>, kind: AceKind, token: set<string>)
    requires kind != OtherKind
    ensures Names(KeptOfKind(dacl, kind), UpperAll(token)) <==> SomeMatch(dacl, kind, token)
  {
    if dacl != [] {
      var init, last := dacl[..|dacl| - 1], dacl[|dacl| - 1];
      KeptNames(init, kind, token);
      UpperTwice(last.sid);
      assert dacl == init + [last];
      assert SomeMatch(dacl, kind, token) <==> SomeMatch(init, kind, token) || Matches(last, kind, token);
      var kept := KeptOfKind(init, kind);
      if Kept(last) && last.kind == kind {
        assert Names(kept + [Normalized(last)], UpperAll(token))
          <==> Names(kept, UpperAll(token)) || Upper(Normalized(last).sid) in UpperAll(token);
      }
    }
  }

  /** Which ACE decides: the check grants reading exactly when the first matching ACE about
      reading allows it. */
  lemma {:induction false} FirstMatchDecides(dacl: seq<RawAce>, token: set<string>)
    ensures AccessCheck(dacl, token, FILE_READ_DATA)
       <==> exists k :: 0 <= k < |dacl| && Matches(dacl[k], AccessAllowed, token)
                        && forall m :: 0 <= m < k ==> !Matches(dacl[m], AccessDenied, token)
  {
    if dacl != [] {
      var rest := dacl[1..];
      FirstMatchDecides(rest, token);
      ReadBit(dacl[0].mask);
      if Matches(dacl[0], AccessAllowed, token) {
        assert AccessCheck(dacl, token, FILE_READ_DATA);
      } else if Matches(dacl[0], AccessDenied, token) {
        assert !AccessCheck(dacl, token, FILE_READ_DATA);
      } else {
        assert AccessCheck(dacl, token, FILE_READ_DATA) == AccessCheck(rest, token, FILE_READ_DATA);
        if k :| 0 <= k < |rest| && Matches(rest[k], AccessAllowed, token)
                && forall m :: 0 <= m < k ==> !Matches(rest[m], AccessDenied, token) {
          assert dacl[k + 1] == rest[k];
          forall m | 0 <= m < k + 1
            ensures !Matches(dacl[m], AccessDenied, token)
          {
            assert m > 0 ==> dacl[m] == rest[m - 1];
          }
        }
        if k :| 0 <= k < |dacl| && Matches(dacl[k], AccessAllowed, token)
                && forall m :: 0 <= m < k ==> !Matches(dacl[m], AccessDenied, token) {
          assert rest[k - 1] == dacl[k];
          forall m | 0 <= m < k - 1
            ensures !Matches(rest[m], AccessDenied, token)
          {
            assert rest[m] == dacl[m + 1];
          }
        }
      }
    }
  }

  /** The record's decision, exactly: it allows while fresh, when Windows would and no read deny
      names the caller, in whatever order the ACEs stand. In particular it never allows more. */
  lemma AuthorizedExactly(dacl: seq<RawAce>, token: set<string>, capturedAt: int, maxAgeSeconds: int, now: int)
    requires Plain(dacl)
    ensures AuthorizeAcl(Some(RecordOf(Some(dacl), capturedAt)), token, maxAgeSeconds, now).allowed
       <==> && Fresh(RecordOf(Some(dacl), capturedAt), maxAgeSeconds, now)
            && WindowsGrantsRead(Some(dacl), token)
            && !SomeMatch(dacl, AccessDenied, token)
  {
    KeptNames(dacl, AccessAllowed, token);
    KeptNames(dacl, AccessDenied, token);
    FirstMatchDecides(dacl, token);
    if SomeMatch(dacl, AccessAllowed, token) && !SomeMatch(dacl, AccessDenied, token) {
      var raw :| raw in dacl && Matches(raw, AccessAllowed, token);
      var k :| 0 <= k < |dacl| && dacl[k] == raw;
      assert forall m :: 0 <= m < k ==> dacl[m] in dacl && !Matches(dacl[m], AccessDenied, token);
    }
  }

  /** Denials before grants, the order Windows writes. */
  predicate Canonical(dacl: seq<RawAce>) {
    forall k, m :: 0 <= k < m < |dacl| && dacl[m].kind == AccessDenied ==> dacl[k].kind == AccessDenied
  }

  /** On a canonical list the two decisions coincide. */
  lemma CanonicalAgreement(dacl: seq<RawAce>, token: set<string>, capturedAt: int, maxAgeSeconds: int, now: int)
    requires Plain(dacl) && Canonical(dacl)
    ensures AuthorizeAcl(Some(RecordOf(Some(dacl), capturedAt)), token, maxAgeSeconds, now).allowed
       <==> Fresh(RecordOf(Some(dacl), capturedAt), maxAgeSeconds, now) && WindowsGrantsRead(Some(dacl), token)
  {
    AuthorizedExactly(dacl, token, capturedAt, maxAgeSeconds, now);
    FirstMatchDecides(dacl, token);
  }

  /** Out of canonical order the record is the stricter of the two. */
  lemma LateDenyRefused(sid: string)
    ensures var dacl := [RawAce(AccessAllowed, 0, FILE_READ_DATA, sid), RawAce(AccessDenied, 0, FILE_READ_DATA, sid)];
            && WindowsGrantsRead(Some(dacl), {sid})
            && !AuthorizeAcl(Some(RecordOf(Some(dacl), 0)), {sid}, 60, 0).allowed
  {
    var dacl := [RawAce(AccessAllowed, 0, FILE_READ_DATA, sid), RawAce(AccessDenied, 0, FILE_READ_DATA, sid)];
    AuthorizedExactly(dacl, {sid}, 0, 60, 0);
    FirstMatchDecides(dacl, {sid});
    assert Matches(dacl[0], AccessAllowed, {sid});
    assert dacl[1] in dacl && Matches(dacl[1], AccessDenied, {sid});
  }

  /** More denials, fewer principals' doors: a longer deny list never opens access. */
  lemma DenyIsMonotone(record: AclRecord, more: seq<Ace>, token: set<string>, maxAgeSeconds: int, now: int)
    ensures AuthorizeAcl(Some(record.(deny := record.deny + more)), token, maxAgeSeconds, now).allowed
        ==> AuthorizeAcl(Some(record), token, maxAgeSeconds, now).allowed
  {
    assert forall ace :: ace in record.deny ==> ace in record.deny + more;
  }
}
