/** The matcher (src/ld-query.js:252-388): compiled steps are tested right to
    left against a snapshot, from its last entry towards `#document`, and the
    snapshots that pass yield the values `select` returns. */
module Matcher {
  import opened Wrappers
  import opened Json
  import opened Walker
  import opened Compiler

  /** `testPathKey(value, key, expected)` for a string `expected`, the only kind
      a compiled query holds: the attribute must be a truthy string equal to
      `expected`, or an array holding that string. */
  function TestPathKey(v: Json, key: string, expected: string): (r: bool)
    ensures Attr(v, key).None? ==> !r
    ensures r <==>
      || (expected != "" && Attr(v, key) == Some(JString(expected)))
      || (Attr(v, key).Some? && Attr(v, key).value.JArray? && JString(expected) in Attr(v, key).value.items)
  {
    match Attr(v, key)
    case None => false
    case Some(a) => Truthy(a) && (if a.JArray? then JString(expected) in a.items else a == JString(expected))
  }

  /** Steps the matcher can evaluate: no `Keyless` step (which has no `tests`
      to run), and a `>` marker never carries a name. */
  predicate Matchable(steps: seq<Step>)
  {
    forall i :: 0 <= i < |steps| ==> steps[i].Step? && (steps[i].directChild ==> steps[i].path.None?)
  }

  /** The test of lines 283-289: the entry's key is the step's name, if it has
      one, and every attribute test of the step passes on the entry's value. */
  predicate NodeMatches(e: PathEntry, st: Step)
    requires st.Step?
  {
    && (st.path.None? || st.path.value == e.key)
    && forall i :: 0 <= i < |st.tests| ==> TestPathKey(e.value, st.tests[i].key, st.tests[i].expected)
  }

  /** The nearest entry at or below `start` that `st` matches, `-1` if none. */
  function Nearest(t: Trace, start: int, st: Step): (r: int)
    requires st.Step? && -1 <= start < |t|
    ensures -1 <= r <= start
    ensures r >= 0 ==> NodeMatches(t[r], st)
    ensures forall j :: r < j <= start ==> !NodeMatches(t[j], st)
    decreases start + 1
  {
    if start < 0 then -1
    else if NodeMatches(t[start], st) then start
    else Nearest(t, start - 1, st)
  }

  /** `findNextPathMatch(t, start, st)` (lines 275-297): scan down from `start`. */
  method FindNextPathMatch(t: Trace, start: int, st: Step) returns (i: int)
    requires st.Step? && -1 <= start < |t|
    ensures i == Nearest(t, start, st)
  {
    i := start;
    while -1 < i
      invariant -1 <= i <= start
      invariant Nearest(t, start, st) == Nearest(t, i, st)
      decreases i
    {
      if NodeMatches(t[i], st) {
        break;
      }
      i := i - 1;
    }
  }

  // ---- assessPath ----

  /** The `every` of `assessPath` (lines 306-345) from step `k` on, with the
      closure's state: `bookmark`, the pending `directChild` flag and `first`.
      A marker sets the flag; any other step is looked up below the bookmark,
      must sit right at it if it is the first or follows a marker, and fails
      the trace when it is not found. */
  function AssessFrom(t: Trace, steps: seq<Step>, k: nat, bookmark: nat, directChild: bool, first: bool): bool
    requires Matchable(steps) && k <= |steps| && bookmark <= |t|
    decreases |steps| - k
  {
    if k == |steps| then true
    else if steps[k].directChild then AssessFrom(t, steps, k + 1, bookmark, true, first)
    else
      var start := bookmark - 1;
      var found := Nearest(t, start, steps[k]);
      if first && found != start then false
      else if directChild && bookmark != found + 1 then false
      else found >= 0 && AssessFrom(t, steps, k + 1, found, false, false)
  }

  /** `assessPathForSteps(steps)(t)`. */
  function Assess(t: Trace, steps: seq<Step>): bool
    requires Matchable(steps)
  {
    AssessFrom(t, steps, 0, |t|, false, true)
  }

  /** The closure `assessPath` returned by `assessPathForSteps(steps)`. */
  method AssessPath(t: Trace, steps: seq<Step>) returns (r: bool)
    requires Matchable(steps)
    ensures r == Assess(t, steps)
  {
    var bookmark: int := |t|;
    var directChild := false;
    var first := true;
    var k := 0;
    while k < |steps|
      invariant 0 <= k <= |steps| && 0 <= bookmark <= |t|
      invariant AssessFrom(t, steps, k, bookmark, directChild, first) == Assess(t, steps)
    {
      var st := steps[k];
      if st.directChild {
        directChild := true;
      } else {
        var start := bookmark - 1;
        var found := FindNextPathMatch(t, start, st);
        if first {
          if found != start {
            return false;
          }
          first := false;
        }
        if directChild {
          if bookmark != found + 1 {
            return false;
          }
          directChild := false;
        }
        bookmark := found;
        if bookmark == -1 {
          return false;
        }
      }
      k := k + 1;
    }
    return true;
  }

  // ---- what assessment means ----

  /** The steps from `k` on can be placed on the entries below `bookmark`: each
      named step on an entry it matches, strictly below the previous one, right
      below it when it is the first step or follows a `>` marker. */
  ghost predicate EmbedFrom(t: Trace, steps: seq<Step>, k: nat, bookmark: nat, adjacent: bool, first: bool)
    requires Matchable(steps) && k <= |steps| && bookmark <= |t|
    decreases |steps| - k
  {
    if k == |steps| then true
    else if steps[k].directChild then EmbedFrom(t, steps, k + 1, bookmark, true, first)
    else
      exists p: nat :: p < bookmark && NodeMatches(t[p], steps[k])
        && ((first || adjacent) ==> p + 1 == bookmark)
        && EmbedFrom(t, steps, k + 1, p, false, false)
  }

  /** The trace has a placement of all the steps, the first named one on its
      last entry. */
  ghost predicate Embeds(t: Trace, steps: seq<Step>)
    requires Matchable(steps)
  {
    EmbedFrom(t, steps, 0, |t|, false, true)
  }

  lemma {:induction false} AssessFromSound(t: Trace, steps: seq<Step>, k: nat, bookmark: nat, directChild: bool, first: bool)
    requires Matchable(steps) && k <= |steps| && bookmark <= |t|
    requires AssessFrom(t, steps, k, bookmark, directChild, first)
    ensures EmbedFrom(t, steps, k, bookmark, directChild, first)
    decreases |steps| - k
  {
    if k < |steps| {
      if steps[k].directChild {
        AssessFromSound(t, steps, k + 1, bookmark, true, first);
      } else {
        var found := Nearest(t, bookmark - 1, steps[k]);
        AssessFromSound(t, steps, k + 1, found, false, false);
        var p: nat := found;
        assert p < bookmark && NodeMatches(t[p], steps[k]);
      }
    }
  }

  /** Every trace the matcher accepts has a placement of the steps. */
  lemma AssessSound(t: Trace, steps: seq<Step>)
    requires Matchable(steps) && Assess(t, steps)
    ensures Embeds(t, steps)
  {
    AssessFromSound(t, steps, 0, |t|, false, true);
  }

  predicate NoMarkers(steps: seq<Step>)
  {
    forall i :: 0 <= i < |steps| ==> !(steps[i].Step? && steps[i].directChild)
  }

  /** Without markers, a placement below a bookmark is one below any higher
      bookmark too. */
  lemma EmbedRaise(t: Trace, steps: seq<Step>, k: nat, low: nat, high: nat)
    requires Matchable(steps) && NoMarkers(steps) && k <= |steps| && low <= high <= |t|
    requires EmbedFrom(t, steps, k, low, false, false)
    ensures EmbedFrom(t, steps, k, high, false, false)
  {
    if k < |steps| {
      var p: nat :| p < low && NoMarkers(steps) && NodeMatches(t[p], steps[k])
        && EmbedFrom(t, steps, k + 1, p, false, false);
      assert p < high;
    }
  }

  /** A placement of a named step: where it goes. */
  lemma EmbedWitness(t: Trace, steps: seq<Step>, k: nat, bookmark: nat, first: bool) returns (p: nat)
    requires Matchable(steps) && k < |steps| && bookmark <= |t| && !steps[k].directChild
    requires EmbedFrom(t, steps, k, bookmark, false, first)
    ensures p < bookmark && NodeMatches(t[p], steps[k]) && (first ==> p + 1 == bookmark)
    ensures EmbedFrom(t, steps, k + 1, p, false, false)
  {
    p :| p < bookmark && NodeMatches(t[p], steps[k])
      && (first ==> p + 1 == bookmark)
      && EmbedFrom(t, steps, k + 1, p, false, false);
  }

  /** A named step found where it must be hands the bookmark on. */
  lemma AssessUnfold(t: Trace, steps: seq<Step>, k: nat, bookmark: nat, first: bool, found: nat)
    requires Matchable(steps) && k < |steps| && bookmark <= |t| && !steps[k].directChild
    requires bookmark > 0 && found == Nearest(t, bookmark - 1, steps[k])
    requires first ==> found == bookmark - 1
    ensures AssessFrom(t, steps, k, bookmark, false, first) == AssessFrom(t, steps, k + 1, found, false, false)
  {
  }

  /** No entry the step matches lies between the nearest one and `start`. */
  lemma NearestAtLeast(t: Trace, start: int, st: Step, p: nat)
    requires st.Step? && p <= start < |t| && NodeMatches(t[p], st)
    ensures p <= Nearest(t, start, st)
  {
  }

  /** One named step of a placement, read by the scan: the scan finds the step
      no lower than the placement does, so the rest can be placed below it. */
  lemma CompleteStep(t: Trace, steps: seq<Step>, k: nat, bookmark: nat) returns (found: nat)
    requires Matchable(steps) && NoMarkers(steps) && k < |steps| && bookmark <= |t|
    requires EmbedFrom(t, steps, k, bookmark, false, false)
    ensures found < bookmark && EmbedFrom(t, steps, k + 1, found, false, false)
    ensures AssessFrom(t, steps, k, bookmark, false, false) == AssessFrom(t, steps, k + 1, found, false, false)
  {
    assert !steps[k].directChild;
    var p := EmbedWitness(t, steps, k, bookmark, false);
    found := Nearest(t, bookmark - 1, steps[k]);
    NearestAtLeast(t, bookmark - 1, steps[k], p);
    EmbedRaise(t, steps, k + 1, p, found);
    AssessUnfold(t, steps, k, bookmark, false, found);
  }

  lemma {:induction false} AssessFromComplete(t: Trace, steps: seq<Step>, k: nat, bookmark: nat)
    requires Matchable(steps) && NoMarkers(steps) && k <= |steps| && bookmark <= |t|
    requires EmbedFrom(t, steps, k, bookmark, false, false)
    ensures AssessFrom(t, steps, k, bookmark, false, false)
    decreases |steps| - k
  {
    if k < |steps| {
      var next := k + 1;
      var found := CompleteStep(t, steps, k, bookmark);
      AssessFromComplete(t, steps, next, found);
    }
  }

  /** For descendant-only queries the nearest-match scan loses nothing: a trace
      is accepted exactly when the steps can be placed on it. */
  lemma AssessExactWithoutMarkers(t: Trace, steps: seq<Step>)
    requires Matchable(steps) && NoMarkers(steps)
    ensures Assess(t, steps) <==> Embeds(t, steps)
  {
    if Assess(t, steps) {
      AssessSound(t, steps);
    }
    if Embeds(t, steps) && steps != [] {
      assert !steps[0].directChild;
      var p := EmbedWitness(t, steps, 0, |t|, true);
      NearestAtLeast(t, |t| - 1, steps[0], p);
      AssessFromComplete(t, steps, 1, p);
      AssessUnfold(t, steps, 0, |t|, true, p);
    }
  }

  function Named(name: string): Step
  {
    Step(Some(name), false, [])
  }

  /** A path entry for an object under `name`, for the examples below. */
  function ObjectEntry(name: string): PathEntry
  {
    PathEntry(Object, name, -1, JObject([]))
  }

  /** With a `>` marker the scan does not go back: `x > y z` (steps
      `[z, y, >, x, #document]`) rejects `#document/x/y/y/z`, since `y` is taken
      at the nearer of its two entries, which is not right below an `x`, while
      the farther `y` would do. */
  lemma GreedyMissesFartherMatch(t: Trace, steps: seq<Step>)
    requires t == [ObjectEntry(DocumentKey), ObjectEntry("x"), ObjectEntry("y"), ObjectEntry("y"), ObjectEntry("z")]
    requires steps == [Named("z"), Named("y"), Step(None, true, []), Named("x"), Root]
    ensures Matchable(steps) && Embeds(t, steps) && !Assess(t, steps)
  {
    assert Matchable(steps);
    assert EmbedFrom(t, steps, 5, 0, false, false);
    var p0: nat := 0;
    assert NodeMatches(t[p0], steps[4]);
    assert EmbedFrom(t, steps, 4, 1, false, false);
    var p1: nat := 1;
    assert NodeMatches(t[p1], steps[3]);
    assert EmbedFrom(t, steps, 3, 2, true, false);
    assert EmbedFrom(t, steps, 2, 2, false, false);
    var p2: nat := 2;
    assert NodeMatches(t[p2], steps[1]);
    assert EmbedFrom(t, steps, 1, 4, false, false);
    var p4: nat := 4;
    assert NodeMatches(t[p4], steps[0]);
    assert Embeds(t, steps);
    assert Nearest(t, 4, steps[0]) == 4;
    assert Nearest(t, 3, steps[1]) == 3;
    assert Nearest(t, 2, steps[3]) == 1;
    assert !AssessFrom(t, steps, 3, 3, true, false);
    assert !AssessFrom(t, steps, 1, 4, false, false);
  }

  /** The `#document` step is a descendant step like any other: a one-segment
      query `n` (steps `[n, #document]`) accepts an `n` at any depth, here
      `#document/o/n`. */
  lemma RootIsNotAnchored(t: Trace, steps: seq<Step>)
    requires t == [ObjectEntry(DocumentKey), ObjectEntry("o"), ObjectEntry("n")]
    requires steps == [Named("n"), Root]
    ensures Matchable(steps) && Assess(t, steps)
  {
    assert Nearest(t, 2, steps[0]) == 2;
    assert Nearest(t, 1, steps[1]) == 0;
  }

  /** A query made only of predicates, such as `[@type=ex:Person]`, compiles
      to the `#document` step alone, carrying the predicates. As the first
      step it must sit on the trace's last entry, so it accepts only a trace
      whose last entry is keyed `#document`, never the snapshot of a node
      under any other key. */
  lemma PredicatesOnlyNeedRootLast(t: Trace, key: string, value: string)
    requires key != ""
    ensures Assemble([Where(key, value)]) == Some([Step(Some(DocumentKey), false, [Test(key, value)])])
    ensures Matchable([Step(Some(DocumentKey), false, [Test(key, value)])])
    ensures Assess(t, [Step(Some(DocumentKey), false, [Test(key, value)])]) ==>
      |t| > 0 && t[|t| - 1].key == DocumentKey
  {
    var steps := [Step(Some(DocumentKey), false, [Test(key, value)])];
    assert [Where(key, value)][..0] == [];
    assert Assemble([]) == Some([Root]);
    assert WithTest(Root, Test(key, value)) == steps[0];
    assert [Root][0] == Root && [Root][1..] == [];
    assert [WithTest(Root, Test(key, value))] + [Root][1..] == steps;
    assert Push([Root], Where(key, value)) == Some(steps);
    assert Matchable(steps);
    if Assess(t, steps) {
      AssessAnchorsFront(t, steps);
    }
  }

  /** `[@type=http://x#Person]` on `{"@type": "http://x#Person"}`: the root
      object passes the predicate, yet the document's one snapshot ends in
      the `@type` leaf, so the query selects nothing. */
  lemma RootTypeQuerySelectsNothing(doc: Json, steps: seq<Step>)
    requires doc == JObject([Field(TypeKey, JString("http://x#Person"))])
    requires steps == [Step(Some(DocumentKey), false, [Test(TypeKey, "http://x#Person")])]
    ensures TestPathKey(doc, TypeKey, "http://x#Person")
    ensures Snapshots(doc) == [[RootEntry(doc), PathEntry(Leaf, TypeKey, -1, JString("http://x#Person"))]]
    ensures Matchable(steps) && !Assess(Snapshots(doc)[0], steps)
  {
    var f := RootFrame(doc);
    assert f.nodeType == Object && Count(f) == 1;
    var c := StackFrame(f, 0, ChildValue(doc, 0));
    assert c == Frame(Leaf, JString("http://x#Person"), TypeKey, -1, []);
    assert [RootEntry(doc)] + [EntryOf(c)] == [RootEntry(doc), EntryOf(c)];
    assert Visit([RootEntry(doc)], c) == [[RootEntry(doc), EntryOf(c)]];
    assert Siblings([RootEntry(doc)], f, 1) == [];
    assert Snapshots(doc) == Visit([RootEntry(doc)], c) + Siblings([RootEntry(doc)], f, 1);
    PredicatesOnlyNeedRootLast(Snapshots(doc)[0], TypeKey, "http://x#Person");
  }

  /** The first step that is not a marker sits on the trace's last entry. */
  lemma AssessAnchorsFront(t: Trace, steps: seq<Step>)
    requires Matchable(steps) && |steps| > 0 && !steps[0].directChild && Assess(t, steps)
    ensures |t| > 0 && NodeMatches(t[|t| - 1], steps[0])
  {
  }

  // ---- cachedWalk ----

  /** The value a matching trace yields (lines 367-375): for a query ending in
      `@type` the `@type` property of the entry's parent object, otherwise the
      value of the last entry. */
  function Pick(t: Trace, steps: seq<Step>): (r: Json)
    requires Shaped(t) && Matchable(steps) && |steps| > 0 && Assess(t, steps)
    ensures steps[0].path != Some(TypeKey) ==> r == t[|t| - 1].value
    ensures steps[0].path == Some(TypeKey) ==>
      t[|t| - 2].value.JObject? && Lookup(t[|t| - 2].value.fields, TypeKey) == Some(r)
  {
    if steps[0].path == Some(TypeKey) then
      AssessAnchorsFront(t, steps);
      match Attr(t[|t| - 2].value, TypeKey)
      case Some(v) => v
      case None => assert false; JBool(false)
    else t[|t| - 1].value
  }

  /** When the parent's keys are distinct, as in any JavaScript object, the
      `@type` special case yields the matched entry's own value. */
  lemma PickIsLastValue(t: Trace, steps: seq<Step>)
    requires Shaped(t) && Matchable(steps) && |steps| > 0 && Assess(t, steps)
    requires t[|t| - 2].value.JObject? ==> DistinctKeys(t[|t| - 2].value.fields)
    ensures Pick(t, steps) == t[|t| - 1].value
  {
    if steps[0].path == Some(TypeKey) {
      AssessAnchorsFront(t, steps);
      var fields := t[|t| - 2].value.fields;
      var i :| 0 <= i < |fields| && fields[i] == Field(TypeKey, t[|t| - 1].value);
      LookupDistinct(fields, i);
    }
  }

  predicate AllShaped(paths: seq<Trace>)
  {
    forall i :: 0 <= i < |paths| ==> Shaped(paths[i])
  }

  /** The values of the traces that pass, in trace order. */
  function Matches(paths: seq<Trace>, steps: seq<Step>): (r: seq<Json>)
    requires AllShaped(paths) && Matchable(steps) && |steps| > 0
    ensures |r| <= |paths|
  {
    if paths == [] then []
    else
      (if Assess(paths[0], steps) then [Pick(paths[0], steps)] else [])
      + Matches(paths[1..], steps)
  }

  /** A value is among the matches exactly when some passing trace yields it. */
  lemma {:induction false} MatchesMembers(paths: seq<Trace>, steps: seq<Step>, v: Json)
    requires AllShaped(paths) && Matchable(steps) && |steps| > 0
    ensures v in Matches(paths, steps) <==>
      exists i :: 0 <= i < |paths| && Assess(paths[i], steps) && Pick(paths[i], steps) == v
  {
    if paths != [] {
      MatchesMembers(paths[1..], steps, v);
      if v in Matches(paths[1..], steps) {
        var i :| 0 <= i < |paths[1..]| && Assess(paths[1..][i], steps) && Pick(paths[1..][i], steps) == v;
        assert paths[i + 1] == paths[1..][i];
      }
      if exists i :: 0 <= i < |paths| && Assess(paths[i], steps) && Pick(paths[i], steps) == v {
        var i :| 0 <= i < |paths| && Assess(paths[i], steps) && Pick(paths[i], steps) == v;
        if i > 0 {
          assert paths[1..][i - 1] == paths[i];
        }
      }
    }
  }

  /** What `cachedWalk` returns: `null`, the first match, or all of them. */
  datatype Found = Null | One(value: Json) | All(values: seq<Json>)

  function FirstOf(ms: seq<Json>): (r: Found)
    ensures r.Null? <==> ms == []
    ensures r.One? ==> r.value == ms[0]
  {
    if ms == [] then Null else One(ms[0])
  }

  /** `cachedWalk(paths, steps, seekAll)` (lines 356-388). */
  method CachedWalk(paths: seq<Trace>, steps: seq<Step>, seekAll: bool) returns (r: Found)
    requires AllShaped(paths) && Matchable(steps) && |steps| > 0
    ensures r == if seekAll then All(Matches(paths, steps)) else FirstOf(Matches(paths, steps))
  {
    var result: seq<Json> := [];
    var ii := 0;
    while ii < |paths|
      invariant 0 <= ii <= |paths|
      invariant Matches(paths, steps) == result + Matches(paths[ii..], steps)
      invariant !seekAll ==> result == []
    {
      var path := paths[ii];
      assert paths[ii..][1..] == paths[ii + 1..];
      var ok := AssessPath(path, steps);
      if ok {
        var found := Pick(path, steps);
        if !seekAll {
          return One(found);
        }
        result := result + [found];
      }
      ii := ii + 1;
    }
    assert paths[ii..] == [];
    return if seekAll then All(result) else Null;
  }
}
