# ld-query, modelled in Dafny

This project models the query engine of ld-query (`src/ld-query.js`) and proves properties of the model. ld-query answers CSS-like path queries over JSON-LD documents. It has five parts:

- a **name expander** that rewrites `alias:` prefixes and prepends `@vocab` to bare names;
- a **query compiler** that cuts a query string into segments, `>` combinators and `[key=value]` predicates, and assembles them into right-to-left match steps, memoised per query string;
- a **document walker**, an explicit-stack depth-first traversal that records the ancestor chain ("path") of every object and leaf it visits;
- a **matcher** that tests the compiled steps against each recorded path, anchored at the path's last entry;
- **query nodes** that hold a document and a per-node snapshot cache, and that wrap non-final results in new nodes.

Modules, one per file:

| file | module | what it holds |
|---|---|---|
| `wrappers.dfy` | `Wrappers` | `Option`, and a sequence lemma shared by the proofs |
| `json.dfy` | `Json` | documents (no `null`, integer numbers), attribute lookup, truthiness |
| `text.dfy` | `Text` | trimming and character scanners standing in for the regular expressions |
| `expander.dfy` | `Expander` | the `expand` closure chain |
| `compiler.dfy` | `Compiler` | `extractStep`, the assembly done by `getSteps`, and the `Engine` class that owns `stepCache` |
| `walker.dfy` | `Walker` | `arrayRange`, `StackFrame`, `walk`/`collectPaths` as a method, proved against a recursive pre-order definition `Snapshots` |
| `matcher.dfy` | `Matcher` | `testPathKey`, `findNextPathMatch`, `assessPath`, `cachedWalk` |
| `query.dfy` | `Query` | `select` and the `QueryNode` class with its `_state` |

The code is the reference throughout. In the places below it behaves differently from what a reader of ld-query's query language might expect, and the model follows the code:

- **The matcher is greedy.** Each step takes the nearest matching entry below the previous one and never reconsiders it; one might expect backtracking over ancestor candidates. Without `>` markers this loses nothing (`Matcher.AssessExactWithoutMarkers`). With a marker, `x > y z` rejects `#document/x/y/y/z` even though a valid placement exists (`Matcher.GreedyMissesFartherMatch`).
- **The `#document` step is a descendant step, not an anchor.** A one-segment query matches that name at any depth (`Matcher.RootIsNotAnchored`). One might instead expect `ex:name` to fail when the name is absent at the root.
- **A query made only of predicates never selects the document root.** `[@type=ex:Person]` compiles to the `#document` step alone, carrying the predicate. As the first step, it must sit on the snapshot's last entry, and no snapshot ends in the root entry (`Matcher.PredicatesOnlyNeedRootLast`). On `{"@type": "http://x#Person"}` the root passes the predicate, yet `[@type=http://x#Person]` selects nothing (`Matcher.RootTypeQuerySelectsNothing`). One might expect such a query to filter the document root by its attributes.
- **Step names and predicate values are compared after expansion; document keys and values are not.** Step names are expanded, so a document written with compact keys such as `"ex:name"` does not match the segment `ex:name`, only the expanded key does. A predicate value matches only as expanded: the plain string `"true"` when no `@vocab` applies to it or the key's values are not expanded, and the vocabulary IRI followed by `true` under `@vocab`. A predicate value `true` never matches the boolean `true`.
- **Predicate keys are never expanded.** `[ex:flag=x]` tests the document key written exactly `"ex:flag"`, never the expanded `"http://x#flag"` (`Compiler.ExtractStep`: the key is only trimmed). So a compact document key matches a predicate key written the same way, while the same compact key fails as a path segment. One might expect predicate keys to be expanded like segments.
- **Two spaces between segments leave an empty step.** In `a  b` the lazy segment pattern takes the first space alone as a segment, which trims to the empty name (`Compiler.DoubleSpaceEmptySegment`). That step matches only an entry keyed `""` (`Matcher.NodeMatches`), so `a  b` finds nothing where `a b` does.
- **Nodes do not share snapshots.** A node created by `query`/`queryAll` copies its parent's `cachePaths` flag into a fresh state with no snapshots. One might expect a single cache record shared by the whole lineage.

## Model

| member | source | states |
|---|---|---|
| Json.Attr | src/ld-query.js:254 | `value[key]` is found only on objects, and is the value of a field with that key; it is absent exactly when the value is not an object or no field has that key |
| Json.Lookup | src/ld-query.js:254 | finds a field with the key when one exists; absent exactly when no field has that key |
| Json.Truthy | src/ld-query.js:255 | JavaScript truthiness of an attribute value, as the `!pathValue` test uses it: `""`, `0` and `false` are falsy, and every array and object is truthy |
| Text.TrimStart | src/ld-query.js:405 | removes exactly the leading white space: the result is a suffix that does not start with a space, and everything dropped is a space |
| Text.Trim | src/ld-query.js:445 | `trim()`: a contiguous slice of the input with no white space at either end, everything dropped before and after it being white space |
| Expander.Rewrite | src/ld-query.js:76-98 | a key that does not match leaves the name unchanged; `@vocab` prepends its IRI to a non-empty name without `:`; an alias replaces a leading `alias:` with its IRI |
| Expander.IsKeyword | src/ld-query.js:51 | the unanchored `/@.*/`: a name is a keyword exactly when it holds `@` somewhere |
| Expander.IsBare | src/ld-query.js:38 | `/^([^:]+)$/`: a bare name is non-empty and holds no `:` |
| Expander.Fires | src/ld-query.js:79-81 | the pattern a key's rewrite uses: `@vocab` matches bare names, an alias matches names that begin with the alias and `:` |
| Expander.Expand | src/ld-query.js:71-102 | a name containing `@` anywhere comes back unchanged |
| Expander.ExpandIsFold | src/ld-query.js:71-102 | although every closure repeats the `@` test, expansion is that test on the original name followed by every key's rewrite in `Object.keys` order |
| Expander.FoldNoneFire | src/ld-query.js:79-98 | a name that no key's pattern matches is returned unchanged |
| Expander.ExpandOneRewrite | src/ld-query.js:71-102 | when only one key matches along the chain, expansion is exactly that key's rewrite |
| Expander.VocabExample | src/ld-query.js:76-98 | `name` under `@vocab` becomes `http://x#name`; `@type` is unchanged; `ex:name` under alias `ex` becomes `http://x#name` |
| Expander.EmptyNameUnchanged | src/ld-query.js:71-102 | the empty name comes back empty under any context: no alias prefix begins it, and it is not bare |
| Compiler.WhereBounds | src/ld-query.js:394 | where the predicate pattern matches: only white space and one optional `*` before `[`; the first `=` after a non-empty key; the first `]` after a non-empty value |
| Compiler.WhereBoundsComplete | src/ld-query.js:394 | the scan fails only when no placement of `[`, `=` and `]` fits the pattern at all |
| Compiler.NonExpandableValueKey | src/ld-query.js:65 | `/@(?!type|id).*/`: some `@` in the key is followed by neither `type` nor `id`; only then is a predicate's value left unexpanded |
| Compiler.WherePart | src/ld-query.js:394 | the predicate pattern's groups: the input is the prefix, then `[key=value]`, then the rest, with the brackets and `=` exactly where the scan finds them (so the prefix is white space and at most one `*`); the `*` flag is set exactly when the prefix is non-empty; key and value are non-empty and lazy (no `=` in the key and no `]` in the value after their first character); it fails exactly when the scan does |
| Compiler.ChildPart | src/ld-query.js:405 | the `>` pattern matches exactly when the first non-space character is `>`; the dropped prefix is white space, one `>` and white space; the rest has no leading white space |
| Compiler.PathPart | src/ld-query.js:413 | the segment pattern splits at the first space, `[` or `>` at index 1 or later; it fails exactly when there is no such delimiter |
| Compiler.ExtractStep | src/ld-query.js:391-432 | each call returns a strictly shorter suffix and pushes one or two pieces; a predicate's key is trimmed and never expanded, the remainder is the text after its `]`, and its value is expanded unless the key has an `@` followed by neither `type` nor `id` (line 65); a `*`/white-space prefix pushes a wildcard first; otherwise a `>` match pushes a marker, a segment match pushes the expanded trimmed segment with the remainder, and with no delimiter the whole trimmed input becomes the last segment |
| Compiler.DoubleSpaceEmptySegment | src/ld-query.js:413-422 | two spaces before a name: the segment pattern takes the first space alone, giving the empty segment and leaving the second space in front of the rest |
| Compiler.Assemble | src/ld-query.js:453-468 | the assembled list is never empty |
| Compiler.Push | src/ld-query.js:455-466 | one iteration of the `forEach`: a predicate with a non-empty key is appended to the tests of the front step, failing when that step is a blank-key predicate object without `tests`; any other piece is put at the front |
| Compiler.AssembleKeepsRoot | src/ld-query.js:453-468 | the last step is always the `#document` step, which is not a `>` marker |
| Compiler.AssembleMarkersUnnamed | src/ld-query.js:405-409 | a `>` marker step never carries a name |
| Compiler.DisassembleAssemble | src/ld-query.js:453-468 | the steps hold the pieces in reverse parse order; each predicate sits in the tests of the step that was at the front when it was parsed (the root's for leading predicates); nothing is lost |
| Compiler.AssembleFails | src/ld-query.js:453-468 | the `forEach` throws exactly when a keyed predicate directly follows a blank-key one; otherwise the front step is keyless exactly when the last piece was a blank-key predicate |
| Compiler.AssembleFailurePersists | src/ld-query.js:455-468 | once a predicate is pushed onto a step without tests (a throw), the compilation fails whatever follows |
| Compiler.SplitQuery | src/ld-query.js:443-450 | the `while` loop calling `extractStep` until the trimmed query is used up collects exactly the pieces `Separate` defines |
| Compiler.AssembleSteps | src/ld-query.js:453-468 | the `forEach` with `unshift`/`push` computes exactly `Assemble`, failing where the source throws |
| Compiler.BuildSteps | src/ld-query.js:443-468 | the two loops together compute exactly `Compile` |
| Compiler.WhereOfAt | src/ld-query.js:455-466 | each test pushed onto a step reads back as the predicate piece (key, expected value) it was built from |
| Compiler.DisassemblePush | src/ld-query.js:455-466 | one iteration of the `forEach` adds its piece at the end of the read-back, whether it was unshifted or pushed onto the front step's tests |
| Compiler.Engine.constructor | src/ld-query.js:67 | the step cache starts empty |
| Compiler.Engine.GetSteps | src/ld-query.js:434-474 | the result is always `Compile(q)`, whether cached or not; a hit leaves the cache unchanged; a successful miss stores the result under `q`; every cached entry stays the compilation of its key |
| Walker.ArrayRange | src/ld-query.js:104-121 | the loop builds exactly `Desc(0, n)`: the indices `n-1` down to `0`, so `pop` yields them in ascending order |
| Walker.NewFrame | src/ld-query.js:129-178 | an array becomes an array frame unless its key is `@type` (then it is one leaf); objects become object frames; every child is still to visit |
| Walker.StackFrame | src/ld-query.js:129-188 | an element of an array inherits the array's key and records its index; an object's child takes its field key, with index -1 |
| Walker.Walk | src/ld-query.js:190-250 | the explicit-stack loop (with the copying callback of `collectPaths`, lines 350-354) produces exactly the pre-order `Snapshots(doc)`: object keys in order, array indices ascending, arrays adding no entry |
| Walker.VisitShape | src/ld-query.js:203-246 | every snapshot under a node extends the ancestor chain; all its entries but the last are objects; the last is never an array; a last entry under `@type` sits right under the object that holds it as `@type` |
| Walker.SnapshotShape | src/ld-query.js:195-236 | every snapshot starts with the `#document` entry and has the shape above |
| Walker.VisitCount | src/ld-query.js:203-246 | a node yields exactly one snapshot per non-array value at or under it, an array under `@type` counting once |
| Walker.SnapshotCount | src/ld-query.js:195-246 | `collectPaths` yields one snapshot per non-array value below the root (the root's own entry is seeded, not visited) |
| Matcher.TestPathKey | src/ld-query.js:252-273 | false when the attribute is absent; true exactly for a non-empty string equal to the expected value, or an array containing it by `===` |
| Matcher.NodeMatches | src/ld-query.js:283-289 | an entry matches a step when the step has no name or the entry's key equals it, and every test of the step passes on the entry's value |
| Matcher.Nearest | src/ld-query.js:275-297 | the nearest index at or below `start` whose entry the step matches, or -1; no entry in between matches |
| Matcher.FindNextPathMatch | src/ld-query.js:275-297 | the downward `for` loop returns `Nearest` |
| Matcher.AssessFrom | src/ld-query.js:309-344 | the `every` from a given step on, with `bookmark`, the pending `directChild` flag and `first`: a marker sets the flag; any other step takes the nearest match below the bookmark, which must be right below it for the first step or after a marker, and fails when there is none |
| Matcher.Assess | src/ld-query.js:299-348 | `assessPath` on a trace: the `every` started with the bookmark at the trace's length, no pending marker, and the first step still to anchor |
| Matcher.AssessPath | src/ld-query.js:299-348 | the `every` with `bookmark`/`directChild`/`first` computes `Assess` |
| Matcher.AssessSound | src/ld-query.js:299-348 | an accepted trace has a placement: the first named step on the last entry; each later step strictly below; a step after `>` directly below |
| Matcher.AssessExactWithoutMarkers | src/ld-query.js:299-348 | for queries without `>`, a trace is accepted exactly when such a placement exists |
| Matcher.GreedyMissesFartherMatch | src/ld-query.js:316-337 | `x > y z` has a placement on `#document/x/y/y/z` but is rejected |
| Matcher.RootIsNotAnchored | src/ld-query.js:453 | the `#document` step matches from any depth: `n` accepts `#document/o/n` |
| Matcher.PredicatesOnlyNeedRootLast | src/ld-query.js:453-468 | a lone predicate compiles to the `#document` step with that test, and that step accepts a trace only when its last entry is keyed `#document` |
| Matcher.RootTypeQuerySelectsNothing | src/ld-query.js:316-328 | on `{"@type": "http://x#Person"}` the root passes `[@type=http://x#Person]`, but the one snapshot ends in the `@type` leaf and is rejected |
| Matcher.AssessAnchorsFront | src/ld-query.js:319-325 | the first step, when it is not a marker, matches the trace's last entry |
| Matcher.Pick | src/ld-query.js:366-375 | a match yields the last entry's value; for a query ending in `@type` it yields the parent object's `@type` property, which always exists |
| Matcher.PickIsLastValue | src/ld-query.js:366-375 | when the parent's keys are distinct, the `@type` special case yields the matched entry's own value |
| Matcher.Matches | src/ld-query.js:356-388 | at most one value per trace |
| Matcher.MatchesMembers | src/ld-query.js:361-384 | a value is among the matches exactly when some accepted trace yields it |
| Matcher.FirstOf | src/ld-query.js:359-380 | `null` exactly when nothing matched, otherwise the first match |
| Matcher.CachedWalk | src/ld-query.js:356-388 | `queryAll` mode returns every match in trace order; `query` mode returns the first match or `null` |
| Query.SelectOf | src/ld-query.js:497-512 | fails only where compilation throws or a compiled step has no tests to run (a blank predicate key); a result always has the form its mode asks for |
| Query.IsFinal | src/ld-query.js:507-508 | a selection is final when nothing was found (`null`, or an empty list for `queryAll`) or the front step's name is `@id`, `@index`, `@value` or `@type` |
| Query.NonFinalHasValue | src/ld-query.js:504-508 | a non-final selection always holds a value to wrap: one value for `query`, a non-empty list for `queryAll` |
| Query.QueryIsFirstOfAll | src/ld-query.js:497-512 | `query` selects the first of what `queryAll` selects; both succeed and are final together |
| Query.QueryNode.constructor | src/ld-query.js:514-525 | a node starts with no snapshots and with caching on, or with its parent's `cachePaths`; nothing else is shared |
| Query.QueryNode.WithPathCaching | src/ld-query.js:533-539 | sets `cachePaths`; turning caching off drops the cached snapshots; returns the node itself |
| Query.QueryNode.GetCachedPaths | src/ld-query.js:476-493 | always the document's snapshots; cached when caching is on, never stored otherwise |
| Query.QueryNode.Select | src/ld-query.js:497-512 | the result is `SelectOf`, whatever the cache state, so cached and uncached selection agree; the effects on the snapshot cache and the step cache |
| Query.QueryNode.Query | src/ld-query.js:541-548 | a final selection is returned raw; otherwise its value is wrapped in a fresh node that inherits `cachePaths` and shares the engine; the snapshot cache and the step cache change exactly as for `select` |
| Query.QueryNode.Wrap | src/ld-query.js:527-531 | one fresh node per value, in order, each inheriting `cachePaths` |
| Query.QueryNode.QueryAll | src/ld-query.js:549-558 | a final selection is returned raw; otherwise each value is wrapped in its own fresh node; the snapshot cache and the step cache change exactly as for `select` |

## Left out

- The module wrapper and host export (src/ld-query.js:1-13) are not modelled. The factory-versus-direct switch (560-574) is not modelled either: a root node is `QueryNode` constructed with no parent and an `Engine` for the context.
- `benchmark/selection.js` is not part of this model. It is a timing harness over an external library.
- `null` in documents is left out: the walker throws on it (`Object.keys(null)`). Floating-point numbers are left out too: numbers are integers, and matching only compares them against strings.
- Properties of strings, numbers, booleans and arrays (such as `"abc"["length"]`) are treated as absent.
- The array-expected branch of `testPathKey` (256-264) is not modelled. It is unreachable from compiled queries, whose expected values are always strings.
- The general regular-expression engine is not modelled; only the seven patterns used have hand-written equivalents: the bare-name test of `@vocab` (line 38), the `@` test (line 51), the non-expandable key test (line 65), the alias prefix (line 81), and the predicate, `>` and segment patterns (lines 394, 405, 413). Inputs are assumed to hold no line terminators. `\s` and `trim` are taken as ASCII white space, whereas JavaScript also counts Unicode spaces. Alias names are assumed to hold no regular-expression metacharacters, and context values no `$` replacement tokens.
- Expander.Expand: requires a non-empty context. With no keys, `expand` is `null` and any call to it throws.
- Compiler.Compile: requires a non-empty context, and so do `Compiler.ExtractStep`, `Compiler.Separate`, `Compiler.SplitQuery`, `Compiler.BuildSteps`, `Compiler.Engine`, `Query.SelectOf` and the `QueryNode` members built on them. This also excludes queries that never reach `expand`, such as `>` or `[@index=3]`; the source compiles those under an empty context `{}`. Under a non-empty context they are modelled.
- Path entries' `id` and `context` fields are not modelled; nothing reads them. The root entry's missing `index` is `-1` here.
- `walk` is modelled only with the callback of `collectPaths`, its one caller; the `this`/`self` binding is not modelled.
- `objectProps`, the `isArray` polyfill, and `stepCache` keys that collide with `Object.prototype` names are not modelled.
- Query.SelectOf: a query whose compiled steps contain a predicate with a blank key (`Keyless`) is reported as a failure outright. The source throws only once matching reaches such a step with a non-zero bookmark, and otherwise returns normally.
- Query.QueryNode.Select: the `{ json: null }` return for an empty step list (line 500) is not modelled. Compiled step lists are never empty (`Compiler.Assemble`).
- Matcher.Pick: requires a shaped trace (`Walker.Shaped`). The source indexes `path[length - 2]` for any trace, but it is only ever given the snapshots of `collectPaths`, which are shaped (`Walker.SnapshotShape`).
- `assessPathForSteps` returns a closure over the steps. Here the steps are passed to `Matcher.AssessPath` directly.
- The `json()` accessor of a node is the constant field `json`.
