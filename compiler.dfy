/** The query compiler: `extractStep` (src/ld-query.js:391-432) cuts one piece off
    the front of a query string, `getSteps` (434-474) collects the pieces and
    assembles them into right-to-left match steps, memoised in `stepCache`. */
module Compiler {
  import opened Wrappers
  import opened Text
  import opened Expander
  import opened Json

  /** An attribute test `[key=expected]` attached to a step. */
  datatype Test = Test(key: string, expected: string)

  /** A compiled match step. `Step` is the object `{ path, directChild, tests }`
      (`path` is `None` where the source leaves it `undefined`). `Keyless` is
      what a predicate whose key trims to `""` becomes: `getSteps` takes it for
      a path step and stores the `{ key, value }` object itself, which has no
      `tests` array. */
  datatype Step =
    | Step(path: Option<string>, directChild: bool, tests: seq<Test>)
    | Keyless(value: string)

  /** What one `extractStep` call pushes onto `separatedSteps`. */
  datatype Piece =
    | Wildcard                          // the `\s*\*?` prefix of a predicate
    | Child                             // a `>` combinator
    | Segment(name: string)             // a path segment, already expanded
    | Where(key: string, value: string) // a predicate, its value possibly expanded

  /** The synthetic root step that `getSteps` seeds its result with. */
  const Root := Step(Some(DocumentKey), false, [])

  /** `/@(?!type|id).*\/.test(key)` (line 65): some `@` in the key is followed by
      neither `type` nor `id`; the values of such keys are not expanded. */
  predicate NonExpandableValueKey(key: string)
  {
    exists i :: 0 <= i < |key| && key[i] == '@'
      && !StartsWith(key[i + 1..], "type") && !StartsWith(key[i + 1..], "id")
  }

  /** `[`, `=` and `]` sit at `open`, `eq` and `close` in some match of
      `/^(\s*\*?)\[(.+?)=(.+?)\](.*)/` (line 394) against `s`, laziness aside:
      before the `[` only white space and at most one final `*`, and each of
      the two groups non-empty. */
  predicate WhereMatch(s: string, open: nat, eq: nat, close: nat)
  {
    && open + 2 <= eq && eq + 2 <= close < |s|
    && s[open] == '[' && s[eq] == '=' && s[close] == ']'
    && (forall i :: 0 <= i < open - 1 ==> IsSpace(s[i]))
    && (open > 0 ==> IsSpace(s[open - 1]) || s[open - 1] == '*')
  }

  /** The positions of `[`, `=` and `]` in the match that the regular
      expression of line 394 finds. Both lazy groups take the shortest
      non-empty run that lets the rest match, so the `=` is the first one after
      the character following `[`, and the `]` the first one after the
      character following that `=`. */
  function WhereBounds(s: string): (r: Option<(nat, nat, nat)>)
    ensures r.Some? ==>
      var (open, eq, close) := r.value;
      && WhereMatch(s, open, eq, close)
      && (forall i :: open + 2 <= i < eq ==> s[i] != '=')
      && (forall i :: eq + 2 <= i < close ==> s[i] != ']')
  {
    var ws := |s| - |TrimStart(s)|;
    var open := if ws < |s| && s[ws] == '*' then ws + 1 else ws;
    if open < |s| && s[open] == '[' then
      match Find(s, '=', open + 2)
      case None => None
      case Some(eq) =>
        match Find(s, ']', eq + 2)
        case None => None
        case Some(close) => Some((open, eq, close))
    else None
  }

  /** The scanner misses no match: it fails only when the regular expression
      does not match at all. */
  lemma WhereBoundsComplete(s: string)
    ensures WhereBounds(s).None? ==> forall open, eq, close :: !WhereMatch(s, open, eq, close)
  {
    forall open: nat, eq: nat, close: nat | WhereMatch(s, open, eq, close)
      ensures WhereBounds(s).Some?
    {
      WhereMatchFound(s, open, eq, close);
    }
  }

  lemma WhereMatchFound(s: string, open: nat, eq: nat, close: nat)
    requires WhereMatch(s, open, eq, close)
    ensures WhereBounds(s).Some?
  {
    var t := TrimStart(s);
    var ws := |s| - |t|;
    assert ws < |s| ==> s[ws] == t[0];
    assert ws <= open;
    if open > 0 && s[open - 1] == '*' {
      assert ws == open - 1;
      assert s[ws] == '*';
    } else {
      assert forall i :: 0 <= i < open ==> IsSpace(s[i]);
      assert ws == open;
    }
    var e := Find(s, '=', open + 2);
    assert e.Some? && e.value <= eq;
    assert Find(s, ']', e.value + 2).Some?;
  }

  /** The four groups of a match, put back together, give the input. */
  lemma WhereSplit(s: string, open: nat, eq: nat, close: nat)
    requires open < eq < close < |s| && s[open] == '[' && s[eq] == '=' && s[close] == ']'
    ensures s == s[..open] + "[" + s[open + 1..eq] + "=" + s[eq + 1..close] + "]" + s[close + 1..]
  {
    assert s[..open + 1] == s[..open] + "[";
    assert s[..eq] == s[..open + 1] + s[open + 1..eq];
    assert s[..eq + 1] == s[..eq] + "=";
    assert s[..close] == s[..eq + 1] + s[eq + 1..close];
    assert s[..close + 1] == s[..close] + "]";
    assert s == s[..close + 1] + s[close + 1..];
  }

  /** `/^(\s*\*?)\[(.+?)=(.+?)\](.*)/.exec(s)`: whether group 1 is non-empty,
      then groups 2, 3 and 4. */
  function WherePart(s: string): (r: Option<(bool, string, string, string)>)
    ensures r.None? <==> WhereBounds(s).None?
    ensures r.Some? ==>
      var (marked, key, value, rest) := r.value;
      var n := |s| - |rest| - |key| - |value| - 3;
      && |key| > 0 && |value| > 0 && 0 <= n
      && WhereBounds(s) == Some((n, n + |key| + 1, n + |key| + |value| + 2))
      && s == s[..n] + "[" + key + "=" + value + "]" + rest
      && (marked <==> n > 0)
      && (forall i :: 1 <= i < |key| ==> key[i] != '=')
      && (forall i :: 1 <= i < |value| ==> value[i] != ']')
  {
    match WhereBounds(s)
    case None => None
    case Some((open, eq, close)) =>
      WhereGroups(s, open, eq, close);
      Some((open > 0, s[open + 1..eq], s[eq + 1..close], s[close + 1..]))
  }

  lemma WhereGroups(s: string, open: nat, eq: nat, close: nat)
    requires WhereBounds(s) == Some((open, eq, close))
    ensures var key, value, rest := s[open + 1..eq], s[eq + 1..close], s[close + 1..];
      && |key| > 0 && |value| > 0 && |s| - |rest| - |key| - |value| - 3 == open
      && open + |key| + 1 == eq && open + |key| + |value| + 2 == close
      && s == s[..open] + "[" + key + "=" + value + "]" + rest
      && (forall i :: 1 <= i < |key| ==> key[i] != '=')
      && (forall i :: 1 <= i < |value| ==> value[i] != ']')
  {
    var key, value := s[open + 1..eq], s[eq + 1..close];
    assert forall i :: 1 <= i < |key| ==> key[i] == s[open + 1 + i];
    assert forall i :: 1 <= i < |value| ==> value[i] == s[eq + 1 + i];
    WhereSplit(s, open, eq, close);
  }

  /** `/^\s*>\s*(.*)/.exec(s)` (line 405): the text after the `>` and the white
      space around it. */
  function ChildPart(s: string): (r: Option<string>)
    ensures r.Some? ==> IsSuffix(r.value, s) && |r.value| < |s|
    ensures r.Some? ==> r.value == TrimStart(r.value)
    ensures r.Some? ==> exists j ::
              && 0 <= j < |s| - |r.value| && s[j] == '>'
              && forall i :: 0 <= i < |s| - |r.value| && i != j ==> IsSpace(s[i])
    ensures r.None? <==> TrimStart(s) == "" || TrimStart(s)[0] != '>'
  {
    var t := TrimStart(s);
    if t != "" && t[0] == '>' then
      ChildPrefix(s);
      Some(TrimStart(t[1..]))
    else None
  }

  lemma ChildPrefix(s: string)
    requires TrimStart(s) != "" && TrimStart(s)[0] == '>'
    ensures var u := TrimStart(TrimStart(s)[1..]);
      && IsSuffix(u, s) && |u| < |s|
      && exists j ::
           && 0 <= j < |s| - |u| && s[j] == '>'
           && forall i :: 0 <= i < |s| - |u| && i != j ==> IsSpace(s[i])
  {
    var t := TrimStart(s);
    var j := |s| - |t|;
    var t1 := t[1..];
    var u := TrimStart(t1);
    assert t == s[j..] && t1 == s[j + 1..];
    assert s[j] == t[0] == '>';
    forall i | 0 <= i < |s| - |u| && i != j
      ensures IsSpace(s[i])
    {
      if i > j {
        assert s[i] == t1[i - j - 1];
      }
    }
  }

  predicate IsDelimiter(c: char)
  {
    c == ' ' || c == '[' || c == '>'
  }

  /** The first position at or after `from` holding a space, `[` or `>`. */
  function FindDelimiter(s: string, from: nat): (r: Option<nat>)
    decreases |s| - from
    ensures r.Some? ==> from <= r.value < |s| && IsDelimiter(s[r.value])
    ensures r.Some? ==> forall i :: from <= i < r.value ==> !IsDelimiter(s[i])
    ensures r.None? ==> forall i :: from <= i < |s| ==> !IsDelimiter(s[i])
  {
    if from >= |s| then None
    else if IsDelimiter(s[from]) then Some(from)
    else FindDelimiter(s, from + 1)
  }

  /** `/^(.+?)( .*|\[.*|>.*)/.exec(s)` (line 413): the segment is the shortest
      non-empty prefix followed by a space, `[` or `>`. */
  function PathPart(s: string): (r: Option<(string, string)>)
    ensures r.Some? ==> s == r.value.0 + r.value.1
    ensures r.Some? ==> |r.value.0| > 0 && r.value.1 != "" && IsDelimiter(r.value.1[0])
    ensures r.Some? ==> forall i :: 1 <= i < |r.value.0| ==> !IsDelimiter(r.value.0[i])
    ensures r.None? <==> forall i :: 1 <= i < |s| ==> !IsDelimiter(s[i])
  {
    match FindDelimiter(s, 1)
    case None => None
    case Some(k) => assert s == s[..k] + s[k..]; Some((s[..k], s[k..]))
  }

  /** One `extractStep` call: the pieces it pushes and the remainder it returns.
      Keys of predicates are never expanded; their values are expanded unless
      the key is non-expandable; segments are trimmed and expanded. */
  function ExtractStep(ctx: Context, s: string): (r: (seq<Piece>, string))
    requires |ctx| > 0 && s != ""
    ensures IsSuffix(r.1, s) && |r.1| < |s|
    ensures 1 <= |r.0| <= 2
    ensures WherePart(s).Some? ==>
      var (marked, key, value, _) := WherePart(s).value;
      && r.0 == (if marked then [Wildcard] else []) + [Where(Trim(key),
           if NonExpandableValueKey(Trim(key)) then Trim(value) else Expand(ctx, Trim(value)))]
      && r.1 == WherePart(s).value.3
    ensures WherePart(s).None? && ChildPart(s).Some? ==> r == ([Child], ChildPart(s).value)
    ensures WherePart(s).None? && ChildPart(s).None? && PathPart(s).Some? ==>
      r == ([Segment(Expand(ctx, Trim(PathPart(s).value.0)))], PathPart(s).value.1)
    ensures WherePart(s).None? && ChildPart(s).None? && PathPart(s).None? ==>
      r == ([Segment(Expand(ctx, Trim(s)))], "")
  {
    match WherePart(s)
    case Some((marked, key, value, rest)) =>
      var k := Trim(key);
      var v := if NonExpandableValueKey(k) then Trim(value) else Expand(ctx, Trim(value));
      ((if marked then [Wildcard] else []) + [Where(k, v)], rest)
    case None =>
      match ChildPart(s)
      case Some(rest) => ([Child], rest)
      case None =>
        match PathPart(s)
        case Some((segment, rest)) => ([Segment(Expand(ctx, Trim(segment)))], rest)
        case None => ([Segment(Expand(ctx, Trim(s)))], "")
  }

  /** Two spaces between segments: the lazy group of the segment pattern takes
      the first space alone, so `extractStep` yields a segment that trims to
      the empty name and leaves the second space in front of the rest. */
  lemma DoubleSpaceEmptySegment(ctx: Context, b: string)
    requires |ctx| > 0 && b != "" && !IsSpace(b[0]) && b[0] != '[' && b[0] != '*' && b[0] != '>'
    ensures ExtractStep(ctx, "  " + b) == ([Segment("")], " " + b)
  {
    DoubleSpaceParts(b);
    DoubleSpaceSegment(b);
    EmptyNameUnchanged(ctx);
  }

  lemma DoubleSpaceParts(b: string)
    requires b != "" && !IsSpace(b[0]) && b[0] != '[' && b[0] != '*' && b[0] != '>'
    ensures WherePart("  " + b).None? && ChildPart("  " + b).None?
  {
    DoubleSpaceTrim(b);
    var s := "  " + b;
    assert s[2] == b[0];
    assert WhereBounds(s).None?;
  }

  lemma DoubleSpaceTrim(b: string)
    requires b != "" && !IsSpace(b[0])
    ensures TrimStart("  " + b) == b
  {
    var s := "  " + b;
    assert s[1..] == " " + b && s[1..][1..] == b;
    assert TrimStart(b) == b;
  }

  lemma DoubleSpaceSegment(b: string)
    ensures PathPart("  " + b) == Some((" ", " " + b))
    ensures Trim(" ") == ""
  {
    var s := "  " + b;
    assert FindDelimiter(s, 1) == Some(1);
    assert s[..1] == " " && s[1..] == " " + b;
    assert TrimStart(" ") == "";
  }

  /** The pieces that the `while` loop of `getSteps` collects from `s`. */
  function Separate(ctx: Context, s: string): seq<Piece>
    requires |ctx| > 0
    decreases |s|
  {
    if s == "" then [] else
      var (pieces, rest) := ExtractStep(ctx, s);
      pieces + Separate(ctx, rest)
  }

  /** The step that `getSteps` unshifts for a piece that is not a predicate
      with a non-empty key. */
  function StepOf(p: Piece): Step
  {
    match p
    case Wildcard => Step(None, false, [])
    case Child => Step(None, true, [])
    case Segment(name) => Step(Some(name), false, [])
    case Where(_, value) => Keyless(value)
  }

  /** `steps[0].tests.push(...)`: the step with one more predicate. */
  function WithTest(st: Step, t: Test): (r: Step)
    requires st.Step?
    ensures r.Step? && r.path == st.path && r.directChild == st.directChild
    ensures r.tests == st.tests + [t]
  {
    st.(tests := st.tests + [t])
  }

  /** One iteration of the `forEach` of `getSteps`: a predicate with a non-empty
      key is appended to the tests of the step at the front (which throws when
      that step is `Keyless`, having no `tests`); any other piece is unshifted. */
  function Push(steps: seq<Step>, p: Piece): (r: Option<seq<Step>>)
    requires |steps| > 0
  {
    if p.Where? && p.key != "" then
      if steps[0].Step? then
        Some([WithTest(steps[0], Test(p.key, p.value))] + steps[1..])
      else None
    else Some([StepOf(p)] + steps)
  }

  /** The `forEach` of `getSteps` over the first `|pieces|` pieces, starting from
      `[Root]`; `None` when it throws. */
  function Assemble(pieces: seq<Piece>): (r: Option<seq<Step>>)
    ensures r.Some? ==> |r.value| > 0
  {
    if pieces == [] then Some([Root])
    else
      match Assemble(pieces[..|pieces| - 1])
      case None => None
      case Some(steps) => Push(steps, pieces[|pieces| - 1])
  }

  /** A predicate whose key trims to `""`, and one whose key does not. */
  predicate Blank(p: Piece)
  {
    p.Where? && p.key == ""
  }

  predicate Keyed(p: Piece)
  {
    p.Where? && p.key != ""
  }

  /** Some keyed predicate directly follows a blank-key one. */
  predicate BlankBeforeKeyed(pieces: seq<Piece>)
  {
    exists i :: 0 <= i < |pieces| - 1 && Blank(pieces[i]) && Keyed(pieces[i + 1])
  }

  /** The `forEach` of `getSteps` throws exactly when a keyed predicate
      directly follows a blank-key one: only then is the front step the
      `{ key, value }` object, which has no `tests` to push onto. Otherwise
      the front step is that object exactly when the last piece was a
      blank-key predicate. */
  lemma {:induction false} AssembleFails(pieces: seq<Piece>)
    ensures Assemble(pieces).None? <==> BlankBeforeKeyed(pieces)
    ensures Assemble(pieces).Some? ==>
      (Assemble(pieces).value[0].Keyless? <==> pieces != [] && Blank(pieces[|pieces| - 1]))
  {
    if pieces != [] {
      var n := |pieces| - 1;
      var prefix, p := pieces[..n], pieces[n];
      AssembleFails(prefix);
      assert forall i :: 0 <= i < n ==> pieces[i] == prefix[i];
      if Assemble(prefix).None? {
        var i :| 0 <= i < n - 1 && Blank(prefix[i]) && Keyed(prefix[i + 1]);
        assert Blank(pieces[i]) && Keyed(pieces[i + 1]);
      } else {
        var steps := Assemble(prefix).value;
        if Keyed(p) && steps[0].Keyless? {
          assert Blank(pieces[n - 1]) && Keyed(pieces[n]);
        } else {
          assert !BlankBeforeKeyed(pieces) by {
            forall i | 0 <= i < n
              ensures !(Blank(pieces[i]) && Keyed(pieces[i + 1]))
            {
              if i < n - 1 {
                assert !(Blank(prefix[i]) && Keyed(prefix[i + 1]));
              }
            }
          }
          if Keyed(p) {
            assert Assemble(pieces).value[0] == WithTest(steps[0], Test(p.key, p.value));
          } else {
            assert Assemble(pieces).value[0] == StepOf(p);
          }
        }
      }
    }
  }

  /** `getSteps(q)` without its cache: `None` when it throws. */
  function Compile(ctx: Context, q: string): Option<seq<Step>>
    requires |ctx| > 0
  {
    Assemble(Separate(ctx, Trim(q)))
  }

  // ---- the partner of assembly: reading the pieces back off the steps ----

  function WhereOf(tests: seq<Test>): (r: seq<Piece>)
    ensures |r| == |tests|
  {
    if tests == [] then []
    else WhereOf(tests[..|tests| - 1]) + [Where(tests[|tests| - 1].key, tests[|tests| - 1].expected)]
  }

  /** `WhereOf` reads each test back as the predicate piece it came from. */
  lemma {:induction false} WhereOfAt(tests: seq<Test>)
    ensures forall i :: 0 <= i < |tests| ==> WhereOf(tests)[i] == Where(tests[i].key, tests[i].expected)
  {
    if tests != [] {
      var init := tests[..|tests| - 1];
      WhereOfAt(init);
      assert forall i :: 0 <= i < |init| ==> init[i] == tests[i];
    }
  }

  /** The pieces a step stands for: its own piece, then its predicates. */
  function Own(st: Step): seq<Piece>
  {
    match st
    case Keyless(value) => [Where("", value)]
    case Step(path, directChild, tests) =>
      var head := if path.Some? then Segment(path.value) else if directChild then Child else Wildcard;
      [head] + WhereOf(tests)
  }

  /** The pieces a step list was assembled from, read right to left: the
      predicates of the last (root) step, then each earlier step with its own
      predicates. */
  function Disassemble(steps: seq<Step>): seq<Piece>
    requires |steps| > 0
  {
    if |steps| == 1 then (if steps[0].Step? then WhereOf(steps[0].tests) else [])
    else Disassemble(steps[1..]) + Own(steps[0])
  }

  /** Assembly keeps the root step last, with its name and combinator. */
  lemma {:induction false} AssembleKeepsRoot(pieces: seq<Piece>)
    requires Assemble(pieces).Some?
    ensures var steps := Assemble(pieces).value;
      steps[|steps| - 1].Step? && steps[|steps| - 1].path == Some(DocumentKey)
      && !steps[|steps| - 1].directChild
  {
    if pieces != [] {
      AssembleKeepsRoot(pieces[..|pieces| - 1]);
      PushKeepsLast(Assemble(pieces[..|pieces| - 1]).value, pieces[|pieces| - 1]);
    }
  }

  lemma PushKeepsLast(steps: seq<Step>, p: Piece)
    requires |steps| > 0 && Push(steps, p).Some?
    ensures var r := Push(steps, p).value;
      |r| > 0 && (|steps| > 1 ==> r[|r| - 1] == steps[|steps| - 1])
      && (|steps| == 1 && p.Where? && p.key != "" ==> r[0].path == steps[0].path && r[0].directChild == steps[0].directChild)
      && (!(p.Where? && p.key != "") ==> r[|r| - 1] == steps[|steps| - 1])
  {
  }

  /** A `>` marker never carries a name: only segments do. */
  lemma {:induction false} AssembleMarkersUnnamed(pieces: seq<Piece>)
    requires Assemble(pieces).Some?
    ensures var steps := Assemble(pieces).value;
      forall i :: 0 <= i < |steps| && steps[i].Step? && steps[i].directChild ==> steps[i].path.None?
  {
    if pieces != [] {
      AssembleMarkersUnnamed(pieces[..|pieces| - 1]);
    }
  }

  /** Assembly loses nothing and reorders nothing beyond the reversal: reading
      the steps back from right to left gives the pieces in parse order, each
      predicate right after the step that was at the front when it was parsed
      (at the very start, before any step, for the root's predicates). */
  lemma {:induction false} DisassembleAssemble(pieces: seq<Piece>)
    requires Assemble(pieces).Some?
    ensures Disassemble(Assemble(pieces).value) == pieces
  {
    if pieces != [] {
      var prefix := pieces[..|pieces| - 1];
      var p := pieces[|pieces| - 1];
      DisassembleAssemble(prefix);
      DisassemblePush(Assemble(prefix).value, p);
      assert prefix + [p] == pieces;
    }
  }

  /** One iteration of the `forEach` adds its piece at the end of the read-back. */
  lemma DisassemblePush(steps: seq<Step>, p: Piece)
    requires |steps| > 0 && Push(steps, p).Some?
    ensures Disassemble(Push(steps, p).value) == Disassemble(steps) + [p]
  {
    if p.Where? && p.key != "" {
      DisassembleAddTest(steps, Test(p.key, p.value));
    } else {
      DisassembleUnshift(steps, StepOf(p));
      assert Own(StepOf(p)) == [p];
    }
  }

  lemma DisassembleAddTest(steps: seq<Step>, t: Test)
    requires |steps| > 0 && steps[0].Step?
    ensures Disassemble([WithTest(steps[0], t)] + steps[1..]) == Disassemble(steps) + [Where(t.key, t.expected)]
  {
    if |steps| == 1 {
      DisassembleAddTestRoot(steps[0], t);
      DisassembleSingle(steps, WithTest(steps[0], t));
    } else {
      DisassembleAddTestInner(steps[0], steps[1..], t);
      DisassembleFront(steps);
    }
  }

  lemma DisassembleSingle(steps: seq<Step>, st: Step)
    requires |steps| == 1
    ensures Disassemble([st] + steps[1..]) == Disassemble([st])
    ensures Disassemble(steps) == Disassemble([steps[0]])
  {
    assert [st] + steps[1..] == [st];
    assert steps == [steps[0]];
  }

  lemma DisassembleFront(steps: seq<Step>)
    requires |steps| > 0
    ensures Disassemble([steps[0]] + steps[1..]) == Disassemble(steps)
  {
    assert [steps[0]] + steps[1..] == steps;
  }

  lemma DisassembleAddTestInner(st: Step, rest: seq<Step>, t: Test)
    requires |rest| > 0 && st.Step?
    ensures Disassemble([WithTest(st, t)] + rest) == Disassemble([st] + rest) + [Where(t.key, t.expected)]
  {
    OwnWithTest(st, t);
    DisassembleUnshift(rest, WithTest(st, t));
    DisassembleUnshift(rest, st);
  }

  lemma DisassembleAddTestRoot(st: Step, t: Test)
    requires st.Step?
    ensures Disassemble([WithTest(st, t)]) == Disassemble([st]) + [Where(t.key, t.expected)]
  {
    WhereOfSnoc(st.tests, t);
  }

  lemma OwnWithTest(st: Step, t: Test)
    requires st.Step?
    ensures Own(WithTest(st, t)) == Own(st) + [Where(t.key, t.expected)]
  {
    WhereOfSnoc(st.tests, t);
  }

  lemma DisassembleUnshift(steps: seq<Step>, st: Step)
    requires |steps| > 0
    ensures Disassemble([st] + steps) == Disassemble(steps) + Own(st)
  {
    assert ([st] + steps)[1..] == steps;
  }

  lemma WhereOfSnoc(tests: seq<Test>, t: Test)
    ensures WhereOf(tests + [t]) == WhereOf(tests) + [Where(t.key, t.expected)]
  {
    assert (tests + [t])[..|tests|] == tests;
  }

  lemma SeparateUnfold(ctx: Context, s: string)
    requires |ctx| > 0 && s != ""
    ensures Separate(ctx, s) == ExtractStep(ctx, s).0 + Separate(ctx, ExtractStep(ctx, s).1)
  {
  }

  /** Once the `forEach` of `getSteps` has thrown, later pieces change nothing. */
  lemma {:induction false} AssembleFailurePersists(pieces: seq<Piece>, i: nat)
    requires i <= |pieces| && Assemble(pieces[..i]).None?
    ensures Assemble(pieces).None?
    decreases |pieces| - i
  {
    if i < |pieces| {
      assert pieces[..i + 1][..i] == pieces[..i];
      AssembleFailurePersists(pieces, i + 1);
    } else {
      assert pieces[..i] == pieces;
    }
  }

  /** The `while` loop of `getSteps` (lines 443-450): `extractStep` applied to
      the trimmed query until nothing remains. */
  method SplitQuery(ctx: Context, q: string) returns (separated: seq<Piece>)
    requires |ctx| > 0
    ensures separated == Separate(ctx, Trim(q))
  {
    separated := [];
    var remainder := Trim(q);
    while |remainder| > 0
      invariant separated + Separate(ctx, remainder) == Separate(ctx, Trim(q))
      decreases |remainder|
    {
      var step := ExtractStep(ctx, remainder);
      SeparateUnfold(ctx, remainder);
      Associate(separated, step.0, Separate(ctx, step.1));
      separated := separated + step.0;
      remainder := step.1;
    }
  }

  /** The `forEach` of `getSteps` (lines 453-468): starting from the root
      step, a predicate with a key goes into the tests of the front step, and
      any other piece is unshifted; `None` where pushing onto a step without
      tests throws. */
  method AssembleSteps(separated: seq<Piece>) returns (r: Option<seq<Step>>)
    ensures r == Assemble(separated)
  {
    var steps := [Root];
    var i := 0;
    while i < |separated|
      invariant 0 <= i <= |separated|
      invariant Assemble(separated[..i]) == Some(steps)
    {
      var p := separated[i];
      AssembleUnfold(separated, i);
      if p.Where? && p.key != "" {
        if !steps[0].Step? {
          AssembleFailurePersists(separated, i + 1);
          return None;
        }
        steps := [WithTest(steps[0], Test(p.key, p.value))] + steps[1..];
      } else {
        steps := [StepOf(p)] + steps;
      }
      i := i + 1;
    }
    assert separated[..i] == separated;
    r := Some(steps);
  }

  /** The body of `getSteps` after its cache lookup (lines 443-468). */
  method BuildSteps(ctx: Context, q: string) returns (r: Option<seq<Step>>)
    requires |ctx| > 0
    ensures r == Compile(ctx, q)
  {
    var separated := SplitQuery(ctx, q);
    r := AssembleSteps(separated);
  }

  lemma AssembleUnfold(pieces: seq<Piece>, i: nat)
    requires i < |pieces|
    ensures Assemble(pieces[..i + 1]) ==
      match Assemble(pieces[..i])
      case None => None
      case Some(steps) => Push(steps, pieces[i])
  {
    assert pieces[..i + 1][..i] == pieces[..i];
  }

  /** The builder closure of lines 13-67: the context, fixed once, and the
      `stepCache` that every query node it creates shares. */
  class Engine {
    const context: Context
    var stepCache: map<string, seq<Step>>

    /** Every cached list is what compiling its key gives. */
    ghost predicate Valid()
      reads this
    {
      |context| > 0 && forall q :: q in stepCache ==> Compile(context, q) == Some(stepCache[q])
    }

    constructor (ctx: Context)
      requires |ctx| > 0
      ensures Valid() && context == ctx && stepCache == map[]
    {
      context := ctx;
      stepCache := map[];
    }

    /** `getSteps(q)`: a cached list is returned as it is; otherwise the query
        is cut into pieces, assembled, and the result stored under `q`. The
        result is always what `Compile` gives, cached or not; `None` when the
        source throws, which stores nothing. */
    method GetSteps(q: string) returns (r: Option<seq<Step>>)
      requires Valid()
      modifies this
      ensures Valid()
      ensures r == Compile(context, q)
      ensures q in old(stepCache) ==> stepCache == old(stepCache)
      ensures q !in old(stepCache) ==>
        stepCache == if r.Some? then old(stepCache)[q := r.value] else old(stepCache)
    {
      if q in stepCache {
        return Some(stepCache[q]);
      }
      r := BuildSteps(context, q);
      if r.Some? {
        stepCache := stepCache[q := r.value];
      }
    }
  }
}
