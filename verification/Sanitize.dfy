/** Scrubbing active content and metadata out of a PDF's object graph: a worklist walk over a
    possibly cyclic graph that changes the nodes while it walks. */
module Sanitize {
  import opened Wrappers

  const STRIP_KEYS: set<string> :=
    {"/A", "/AA", "/JavaScript", "/JS", "/Launch", "/SubmitForm", "/ImportData", "/GoToR", "/GoToE", "/OpenAction",
     "/Metadata", "/XFA"}

  /** An object as its container refers to it; a reference to no object cannot be resolved. */
  type Ref = nat

  datatype Content =
    | Dictionary(entries: map<string, Ref>)
    | Array(items: seq<Ref>)
    | Leaf

  type Graph = map<Ref, Content>

  function Scrub(c: Content): Content {
    match c
    case Dictionary(entries) => Dictionary(entries - STRIP_KEYS)
    case _ => c
  }

  ghost predicate Refers(c: Content, r: Ref) {
    match c
    case Dictionary(entries) => exists k :: k in entries && entries[k] == r
    case Array(items) => r in items
    case Leaf => false
  }

  ghost predicate Path(g: Graph, p: seq<Ref>) {
    && p != []
    && (forall k :: 0 <= k < |p| ==> p[k] in g)
    && (forall k :: 0 < k < |p| ==> Refers(g[p[k - 1]], p[k]))
  }

  /** Whether an object can be reached from the root through references that resolve. */
  ghost predicate Reaches(g: Graph, root: Ref, o: Ref) {
    exists p :: Path(g, p) && p[0] == root && p[|p| - 1] == o
  }

  lemma ReachesRoot(g: Graph, root: Ref)
    requires root in g
    ensures Reaches(g, root, root)
  {
    assert Path(g, [root]);
  }

  lemma ReachesNext(g: Graph, root: Ref, o: Ref, next: Ref)
    requires Reaches(g, root, o) && Refers(g[o], next) && next in g
    ensures Reaches(g, root, next)
  {
    var p :| Path(g, p) && p[0] == root && p[|p| - 1] == o;
    var q := p + [next];
    assert Path(g, q) && q[0] == root && q[|q| - 1] == next;
  }

  /** A set holding the root and closed under references holds everything reachable. */
  lemma {:induction false} ClosedHoldsReachable(g: Graph, root: Ref, s: set<Ref>, p: seq<Ref>)
    requires root in s && Path(g, p) && p[0] == root
    requires forall o, r :: o in s && o in g && Refers(g[o], r) && r in g ==> r in s
    ensures p[|p| - 1] in s
    decreases |p|
  {
    if |p| > 1 {
      var q := p[..|p| - 1];
      assert Path(g, q);
      ClosedHoldsReachable(g, root, s, q);
    }
  }

  /** Reachability only depends on what the reachable objects hold. */
  lemma ReachesMonotone(g: Graph, h: Graph, root: Ref, o: Ref)
    requires g.Keys == h.Keys
    requires forall x :: Reaches(h, root, x) ==> forall r :: Refers(g[x], r) ==> Refers(h[x], r)
    requires Reaches(g, root, o)
    ensures Reaches(h, root, o)
  {
    var p :| Path(g, p) && p[0] == root && p[|p| - 1] == o;
    var s := set x | x in h && Reaches(h, root, x);
    ReachesRoot(h, root);
    forall x, r | x in s && x in g && Refers(g[x], r) && r in g
      ensures r in s
    {
      ReachesNext(h, root, x, r);
    }
    ClosedHoldsReachable(g, root, s, p);
  }

  // ----- the result -----

  ghost function ScrubAll(g: Graph): Graph {
    map o | o in g :: Scrub(g[o])
  }

  /** Exactly the objects still reachable once everything is scrubbed have lost their keys. */
  ghost function Scrubbed(g: Graph, root: Ref): Graph {
    map o | o in g :: if Reaches(ScrubAll(g), root, o) then Scrub(g[o]) else g[o]
  }

  function NamesOf(g: Graph, root: Ref): Option<Ref> {
    if root in g && g[root].Dictionary? && "/Names" in g[root].entries then Some(g[root].entries["/Names"]) else None
  }

  function WithoutEmbeddedFiles(g: Graph, root: Ref): Graph {
    var names := NamesOf(g, root);
    if names.Some? && names.value in g && g[names.value].Dictionary? then
      g[names.value := Dictionary(g[names.value].entries - {"/EmbeddedFiles"})]
    else g
  }

  ghost function Sanitized(g: Graph, root: Ref): Graph {
    WithoutEmbeddedFiles(Scrubbed(g, root), root)
  }

  method ValuesOf(entries: map<string, Ref>) returns (values: seq<Ref>)
    ensures forall r :: r in values <==> exists k :: k in entries && entries[k] == r
  {
    values := [];
    var keys := entries.Keys;
    while keys != {}
      invariant keys <= entries.Keys
      invariant forall r :: r in values ==> exists k :: k in entries && entries[k] == r
      invariant forall k :: k in entries && k !in keys ==> entries[k] in values
      decreases |keys|
    {
      var key :| key in keys;
      values := values + [entries[key]];
      keys := keys - {key};
    }
    forall r | exists k :: k in entries && entries[k] == r
      ensures r in values
    {
      var k :| k in entries && entries[k] == r;
    }
  }

  /** Walked: scrubbed already, with every reference either walked or still to do. */
  ghost predicate Progress(start: Graph, now: Graph, root: Ref, seen: set<Ref>, stack: seq<Ref>) {
    && now.Keys == start.Keys
    && seen <= start.Keys
    && (forall o :: o in start ==> now[o] == if o in seen then Scrub(start[o]) else start[o])
    && (forall o, r :: o in seen && Refers(Scrub(start[o]), r) && r in start ==> r in seen || r in stack)
    && (root in start ==> root in seen || root in stack)
    && (forall r :: (r in seen || r in stack) && r in start ==> Reaches(ScrubAll(start), root, r))
  }

  lemma ProgressStep(start: Graph, now: Graph, root: Ref, seen: set<Ref>, stack: seq<Ref>, o: Ref, values: seq<Ref>)
    requires Progress(start, now, root, seen, stack + [o]) && o in start && o !in seen
    requires forall r :: r in values <==> Refers(Scrub(start[o]), r)
    ensures Progress(start, now[o := Scrub(start[o])], root, seen + {o}, stack + values)
  {
    assert o in stack + [o];
    forall r | r in values && r in start
      ensures Reaches(ScrubAll(start), root, r)
    {
      ReachesNext(ScrubAll(start), root, o, r);
    }
    assert forall r :: r in stack + [o] ==> r in stack || r == o;
  }

  lemma ProgressSkip(start: Graph, now: Graph, root: Ref, seen: set<Ref>, stack: seq<Ref>, o: Ref)
    requires Progress(start, now, root, seen, stack + [o]) && (o !in start || o in seen)
    ensures Progress(start, now, root, seen, stack)
  {
    assert forall r :: r in stack + [o] ==> r in stack || r == o;
    assert forall r :: r in stack ==> r in stack + [o];
  }

  lemma ProgressDone(start: Graph, now: Graph, root: Ref, seen: set<Ref>)
    requires Progress(start, now, root, seen, []) && root in start
    ensures now == Scrubbed(start, root)
  {
    hide Scrub, Refers;
    var s := ScrubAll(start);
    assert forall o, r :: o in seen && o in s && Refers(s[o], r) && r in s ==> r in seen;
    forall o | o in start
      ensures o in seen <==> Reaches(s, root, o)
    {
      if Reaches(s, root, o) {
        var p :| Path(s, p) && p[0] == root && p[|p| - 1] == o;
        ClosedHoldsReachable(s, root, seen, p);
      }
    }
  }

  class PdfWriter {
    var objects: Graph
    var root: Ref
    var info: Option<Ref>

    constructor (objects: Graph, root: Ref, info: Option<Ref>)
      ensures this.objects == objects && this.root == root && this.info == info
    {
      this.objects, this.root, this.info := objects, root, info;
    }

    /** The walk. The root object of a parsed document is one of its objects. */
    method ScrubReachable()
      requires root in objects
      modifies `objects
      ensures objects == Scrubbed(old(objects), root)
    {
      hide Scrub, Refers, Reaches, ScrubAll;
      ghost var start := objects;
      var seen: set<Ref> := {};
      var stack := [root];
      ReachesRootScrubbed(start, root);
      while stack != []
        invariant Progress(start, objects, root, seen, stack)
        decreases start.Keys - seen, |stack|
      {
        var raw := stack[|stack| - 1];
        ghost var before := stack;
        stack := stack[..|stack| - 1];
        assert before == stack + [raw];
        if raw !in objects || raw in seen {
          ProgressSkip(start, objects, root, seen, stack, raw);
          continue;
        }
        ghost var seen0 := seen;
        assert raw in start.Keys - seen0 && raw !in start.Keys - (seen0 + {raw});
        var values: seq<Ref>;
        match objects[raw] {
          case Dictionary(entries) =>
            values := ValuesOf(entries - STRIP_KEYS);
          case Array(items) =>
            values := items;
          case Leaf =>
            values := [];
        }
        ScrubbedRefers(objects[raw], values);
        ProgressStep(start, objects, root, seen, stack, raw, values);
        objects := objects[raw := Scrub(objects[raw])];
        seen := seen + {raw};
        stack := stack + values;
      }
      ProgressDone(start, objects, root, seen);
    }

    /** The scrub, the embedded files of the names tree, and the document information. A names
        entry that does not resolve ends the call with an exception. */
    method Run() returns (result: Result<(), string>)
      requires root in objects && objects[root].Dictionary?
      modifies `objects, `info
      ensures result.Success? ==> objects == Sanitized(old(objects), root) && info == None
      ensures result.Failure? <==>
        NamesOf(Scrubbed(old(objects), root), root).Some? && NamesOf(Scrubbed(old(objects), root), root).value !in old(objects)
    {
      ScrubReachable();
      var names := NamesOf(objects, root);
      if names.Some? {
        if names.value !in objects {
          return Failure("names tree could not be resolved");
        }
        if objects[names.value].Dictionary? {
          objects := objects[names.value := Dictionary(objects[names.value].entries - {"/EmbeddedFiles"})];
        }
      }
      info := None;
      result := Success(());
    }
  }

  lemma ScrubbedRefers(c: Content, values: seq<Ref>)
    requires match c
      case Dictionary(entries) =>
        forall r :: r in values <==> exists k :: k in entries - STRIP_KEYS && (entries - STRIP_KEYS)[k] == r
      case Array(items) => values == items
      case Leaf => values == []
    ensures forall r :: r in values <==> Refers(Scrub(c), r)
  {}

  lemma ReachesRootScrubbed(g: Graph, root: Ref)
    requires root in g
    ensures Reaches(ScrubAll(g), root, root)
  {
    ReachesRoot(ScrubAll(g), root);
  }

  // ----- what the result guarantees -----

  /** Nothing becomes reachable that was not, and the walk's own reach is that of its result. */
  lemma ScrubbedReach(g: Graph, root: Ref, o: Ref)
    ensures Reaches(Scrubbed(g, root), root, o) <==> Reaches(ScrubAll(g), root, o)
    ensures Reaches(Scrubbed(g, root), root, o) ==> Reaches(g, root, o)
  {
    var s, t := ScrubAll(g), Scrubbed(g, root);
    if Reaches(t, root, o) {
      ReachesMonotone(t, s, root, o);
    }
    if Reaches(s, root, o) {
      var p :| Path(s, p) && p[0] == root && p[|p| - 1] == o;
      PathStaysReached(g, root, p);
      assert Path(t, p);
      ReachesMonotone(s, g, root, o);
    }
  }

  lemma {:induction false} PathStaysReached(g: Graph, root: Ref, p: seq<Ref>)
    requires Path(ScrubAll(g), p) && p[0] == root
    ensures forall k :: 0 <= k < |p| ==> Reaches(ScrubAll(g), root, p[k])
  {
    forall k | 0 <= k < |p|
      ensures Reaches(ScrubAll(g), root, p[k])
    {
      assert Path(ScrubAll(g), p[..k + 1]) && p[..k + 1][|p[..k + 1]| - 1] == p[k];
    }
  }

  lemma WithoutEmbeddedReach(t: Graph, root: Ref, o: Ref)
    requires Reaches(WithoutEmbeddedFiles(t, root), root, o)
    ensures Reaches(t, root, o)
  {
    ReachesMonotone(WithoutEmbeddedFiles(t, root), t, root, o);
  }

  ghost predicate LacksKeys(c: Content, keys: set<string>) {
    c.Dictionary? ==> c.entries.Keys !! keys
  }

  /** No dictionary that can still be reached holds a stripped key, and the names tree holds no
      embedded files. */
  lemma NoActiveContentReachable(g: Graph, root: Ref, o: Ref)
    requires Reaches(Sanitized(g, root), root, o)
    ensures LacksKeys(Sanitized(g, root)[o], STRIP_KEYS)
    ensures NamesOf(Sanitized(g, root), root) == Some(o) ==> LacksKeys(Sanitized(g, root)[o], {"/EmbeddedFiles"})
  {
    var t := Scrubbed(g, root);
    WithoutEmbeddedReach(t, root, o);
    ScrubbedReach(g, root, o);
  }

  /** Everything else stays: arrays and leaves as they were, dictionaries with every entry that
      was not stripped, and objects that cannot be reached entirely. */
  lemma RestIsKept(g: Graph, root: Ref, o: Ref)
    requires o in g
    ensures o in Sanitized(g, root)
    ensures !g[o].Dictionary? ==> Sanitized(g, root)[o] == g[o]
    ensures g[o].Dictionary? ==>
      && Sanitized(g, root)[o].Dictionary?
      && (forall k :: k in Sanitized(g, root)[o].entries ==>
            k in g[o].entries && Sanitized(g, root)[o].entries[k] == g[o].entries[k])
      && (forall k :: k in g[o].entries && k !in STRIP_KEYS && k != "/EmbeddedFiles" ==> k in Sanitized(g, root)[o].entries)
    ensures !Reaches(g, root, o) ==> Sanitized(g, root)[o] == g[o]
  {
    ScrubbedReach(g, root, o);
    var t := Scrubbed(g, root);
    var names := NamesOf(t, root);
    if names == Some(o) && !Reaches(g, root, o) {
      ReachesRoot(g, root);
      assert Refers(t[root], o);
      assert Refers(g[root], o);
      ReachesNext(g, root, root, o);
    }
  }

  /** A second pass finds nothing left to do. */
  lemma SanitizeTwice(g: Graph, root: Ref)
    ensures Sanitized(Sanitized(g, root), root) == Sanitized(g, root)
  {
    var s := Sanitized(g, root);
    forall o | o in s
      ensures Scrubbed(s, root)[o] == s[o]
    {
      if Reaches(ScrubAll(s), root, o) {
        ScrubbedReach(s, root, o);
        NoActiveContentReachable(g, root, o);
        if s[o].Dictionary? {
          assert s[o].entries - STRIP_KEYS == s[o].entries;
        }
      }
    }
    assert Scrubbed(s, root) == s;
    var names := NamesOf(s, root);
    if names.Some? && names.value in s && s[names.value].Dictionary? {
      assert NamesOf(Scrubbed(g, root), root) == names;
      assert s[names.value].entries - {"/EmbeddedFiles"} == s[names.value].entries;
    }
  }
}
