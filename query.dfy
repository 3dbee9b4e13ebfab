/** Selection and the query node (src/ld-query.js:476-558): a node holds a
    document, the builder's compiled-query cache and its own `_state`
    `{ cachePaths, paths }`; `query` and `queryAll` select values and wrap
    those that are not final in new nodes. */
module Query {
  import opened Wrappers
  import opened Json
  import opened Text
  import opened Expander
  import opened Walker
  import opened Compiler
  import opened Matcher

  /** The front step names whose results are handed back raw (line 508). */
  const FinalNames: seq<string> := ["@id", "@index", "@value", "@type"]

  /** The `isFinal` of `select`: nothing was found, or the query ends in one of
      the final names. */
  predicate IsFinal(found: Found, front: Option<string>)
  {
    || (match found
        case Null => true
        case One(_) => false
        case All(values) => values == [])
    || (front.Some? && front.value in FinalNames)
  }

  /** What `select` returns: `{ json: found, isFinal }`. */
  datatype Selection = Selection(found: Found, isFinal: bool)

  /** `select(state, doc, q, seekAll)` as a value (lines 497-512): `None` where
      the source throws. The result does not depend on the cache state. */
  function SelectOf(ctx: Context, doc: Json, q: string, seekAll: bool): (r: Option<Selection>)
    requires |ctx| > 0
    ensures r.Some? ==> Compile(ctx, q).Some?
    ensures Compile(ctx, q).Some? && r.None? ==>
      exists i :: 0 <= i < |Compile(ctx, q).value| && Compile(ctx, q).value[i].Keyless?
    ensures r.Some? ==> (seekAll <==> r.value.found.All?)
  {
    match Compile(ctx, q)
    case None => None
    case Some(steps) =>
      if !Matchable(steps) then
        UnmatchableHasKeyless(ctx, q);
        None
      else
        SnapshotShape(doc);
        var matches := Matches(Snapshots(doc), steps);
        var found := if seekAll then All(matches) else FirstOf(matches);
        Some(Selection(found, IsFinal(found, steps[0].path)))
  }

  /** Compiled steps the matcher cannot evaluate hold a `Keyless` step: a
      `>` marker never carries a name. */
  lemma UnmatchableHasKeyless(ctx: Context, q: string)
    requires |ctx| > 0 && Compile(ctx, q).Some? && !Matchable(Compile(ctx, q).value)
    ensures exists i :: 0 <= i < |Compile(ctx, q).value| && Compile(ctx, q).value[i].Keyless?
  {
    var steps := Compile(ctx, q).value;
    AssembleMarkersUnnamed(Separate(ctx, Trim(q)));
    var i :| 0 <= i < |steps| && !(steps[i].Step? && (steps[i].directChild ==> steps[i].path.None?));
    assert steps[i].Keyless?;
  }

  /** A selection that is not final holds a value to wrap: `query` never wraps
      `null`, `queryAll` never maps over an empty list. */
  lemma NonFinalHasValue(ctx: Context, doc: Json, q: string, seekAll: bool)
    requires |ctx| > 0 && SelectOf(ctx, doc, q, seekAll).Some?
    requires !SelectOf(ctx, doc, q, seekAll).value.isFinal
    ensures var found := SelectOf(ctx, doc, q, seekAll).value.found;
      if seekAll then found.All? && found.values != [] else found.One?
  {
  }

  /** `query` selects the first of what `queryAll` selects, and both are final
      together whenever the query ends in a final name. */
  lemma QueryIsFirstOfAll(ctx: Context, doc: Json, q: string)
    requires |ctx| > 0
    ensures SelectOf(ctx, doc, q, false).Some? <==> SelectOf(ctx, doc, q, true).Some?
    ensures SelectOf(ctx, doc, q, true).Some? ==>
      SelectOf(ctx, doc, q, false).value.found == FirstOf(SelectOf(ctx, doc, q, true).value.found.values)
    ensures SelectOf(ctx, doc, q, true).Some? ==>
      SelectOf(ctx, doc, q, false).value.isFinal == SelectOf(ctx, doc, q, true).value.isFinal
  {
  }

  /** What `query` and `queryAll` return: the raw selection, a new node, new
      nodes, or `Failed` where the source throws. */
  datatype Answer = Failed | Raw(found: Found) | Node(node: QueryNode) | Nodes(nodes: seq<QueryNode>)

  /** `QueryNode(json, parent)` with its `_state` (lines 514-525). */
  class QueryNode {
    const json: Json
    const engine: Engine
    var cachePaths: bool
    var paths: Option<seq<Trace>>

    /** A cached snapshot list is the document's, and exists only while
        caching is on. */
    ghost predicate Valid()
      reads this, engine
    {
      && engine.Valid()
      && (paths.Some? ==> cachePaths && paths.value == Snapshots(json))
    }

    /** A node starts with no cached snapshots and caching on, or with its
        parent's `cachePaths`; nothing else of the parent's state is shared. */
    constructor (data: Json, e: Engine, parent: QueryNode?)
      requires e.Valid()
      ensures Valid() && json == data && engine == e && paths == None
      ensures cachePaths == (parent == null || parent.cachePaths)
    {
      json := data;
      engine := e;
      cachePaths := parent == null || parent.cachePaths;
      paths := None;
    }

    /** `withPathCaching(cache)` (lines 533-539): turning caching off drops
        the cached snapshots. */
    method WithPathCaching(cache: bool) returns (self: QueryNode)
      requires Valid()
      modifies this
      ensures Valid() && self == this
      ensures cachePaths == cache
      ensures paths == if cache then old(paths) else None
    {
      cachePaths := cache;
      if !cache {
        paths := None;
      }
      return this;
    }

    /** `getCachedPaths(state, json)` (lines 476-493): the snapshots of the
        document, from the cache when caching is on, walked afresh otherwise. */
    method GetCachedPaths() returns (ps: seq<Trace>)
      requires Valid()
      modifies this
      ensures Valid() && ps == Snapshots(json) && cachePaths == old(cachePaths)
      ensures paths == if cachePaths then Some(ps) else old(paths)
    {
      if !cachePaths {
        ps := Walk(json);
        return;
      }
      if paths.None? {
        ps := Walk(json);
        paths := Some(ps);
      } else {
        ps := paths.value;
      }
    }

    /** `select(this._state, this.json(), q, seekAll)`: cached or not, the
        result is `SelectOf`; the snapshots are cached once the query compiled. */
    method Select(q: string, seekAll: bool) returns (r: Option<Selection>)
      requires Valid()
      modifies this, engine
      ensures Valid() && r == SelectOf(engine.context, json, q, seekAll)
      ensures cachePaths == old(cachePaths)
      ensures paths == if cachePaths && Compile(engine.context, q).Some? then Some(Snapshots(json)) else old(paths)
      ensures engine.stepCache ==
        if q in old(engine.stepCache) || Compile(engine.context, q).None? then old(engine.stepCache)
        else old(engine.stepCache)[q := Compile(engine.context, q).value]
    {
      var steps := engine.GetSteps(q);
      if steps.None? {
        return None;
      }
      var ps := GetCachedPaths();
      AssembleMarkersUnnamed(Separate(engine.context, Trim(q)));
      if !Matchable(steps.value) {
        return None;
      }
      SnapshotShape(json);
      var found := CachedWalk(ps, steps.value, seekAll);
      return Some(Selection(found, IsFinal(found, steps.value[0].path)));
    }

    /** `query(q)` (lines 541-548): a final selection raw, otherwise its value
        in a new node that inherits `cachePaths`. */
    method Query(q: string) returns (r: Answer)
      requires Valid()
      modifies this, engine
      ensures Valid() && cachePaths == old(cachePaths)
      ensures paths == if cachePaths && Compile(engine.context, q).Some? then Some(Snapshots(json)) else old(paths)
      ensures engine.stepCache ==
        if q in old(engine.stepCache) || Compile(engine.context, q).None? then old(engine.stepCache)
        else old(engine.stepCache)[q := Compile(engine.context, q).value]
      ensures var sel := SelectOf(engine.context, json, q, false);
        && (sel.None? ==> r.Failed?)
        && (sel.Some? && sel.value.isFinal ==> r == Raw(sel.value.found))
        && (sel.Some? && !sel.value.isFinal ==>
              && r.Node? && fresh(r.node) && r.node.Valid() && r.node.engine == engine
              && r.node.json == sel.value.found.value
              && r.node.cachePaths == cachePaths && r.node.paths.None?)
    {
      var sel := Select(q, false);
      if sel.None? {
        return Failed;
      }
      if sel.value.isFinal {
        return Raw(sel.value.found);
      }
      NonFinalHasValue(engine.context, json, q, false);
      var node := new QueryNode(sel.value.found.value, engine, this);
      return Node(node);
    }

    /** `json.map(buildQueryNode(this))` (lines 527-531, 556): one new node per value, each
        inheriting `cachePaths`. */
    method Wrap(values: seq<Json>) returns (nodes: seq<QueryNode>)
      requires engine.Valid()
      ensures |nodes| == |values|
      ensures forall i :: 0 <= i < |nodes| ==>
        && fresh(nodes[i]) && nodes[i].Valid() && nodes[i].engine == engine
        && nodes[i].json == values[i]
        && nodes[i].cachePaths == cachePaths && nodes[i].paths.None?
    {
      nodes := [];
      var i := 0;
      while i < |values|
        invariant 0 <= i <= |values| && |nodes| == i
        invariant forall j :: 0 <= j < i ==>
          && fresh(nodes[j]) && nodes[j].Valid() && nodes[j].engine == engine
          && nodes[j].json == values[j]
          && nodes[j].cachePaths == cachePaths && nodes[j].paths.None?
      {
        var node := new QueryNode(values[i], engine, this);
        nodes := nodes + [node];
        i := i + 1;
      }
    }

    /** `queryAll(q)` (lines 549-558): a final selection raw, otherwise each
        value in a new node that inherits `cachePaths`. */
    method QueryAll(q: string) returns (r: Answer)
      requires Valid()
      modifies this, engine
      ensures Valid() && cachePaths == old(cachePaths)
      ensures paths == if cachePaths && Compile(engine.context, q).Some? then Some(Snapshots(json)) else old(paths)
      ensures engine.stepCache ==
        if q in old(engine.stepCache) || Compile(engine.context, q).None? then old(engine.stepCache)
        else old(engine.stepCache)[q := Compile(engine.context, q).value]
      ensures var sel := SelectOf(engine.context, json, q, true);
        && (sel.None? ==> r.Failed?)
        && (sel.Some? && sel.value.isFinal ==> r == Raw(sel.value.found))
        && (sel.Some? && !sel.value.isFinal ==>
              && r.Nodes? && |r.nodes| == |sel.value.found.values| > 0
              && forall i :: 0 <= i < |r.nodes| ==>
                   && fresh(r.nodes[i]) && r.nodes[i].Valid() && r.nodes[i].engine == engine
                   && r.nodes[i].json == sel.value.found.values[i]
                   && r.nodes[i].cachePaths == cachePaths && r.nodes[i].paths.None?)
    {
      var sel := Select(q, true);
      if sel.None? {
        return Failed;
      }
      if sel.value.isFinal {
        return Raw(sel.value.found);
      }
      NonFinalHasValue(engine.context, json, q, true);
      var nodes := Wrap(sel.value.found.values);
      return Nodes(nodes);
    }
  }
}
