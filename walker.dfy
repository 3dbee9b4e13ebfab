/** The document walker (src/ld-query.js:104-250, 350-354): an explicit-stack,
    depth-first traversal that keeps the live ancestor chain `path` and hands a
    copy of it to its callback at every object and leaf it reaches. */
module Walker {
  import opened Wrappers
  import opened Json

  /** The `type` of a frame or path entry. Path entries are never `Array`. */
  datatype NodeType = Array | Object | Leaf

  /** A path entry (lines 195-201, 227-234). The entry's `id` and parent
      `context` are not modelled (nothing reads them); the root entry has no
      `index` in the source and `-1` here. */
  datatype PathEntry = PathEntry(nodeType: NodeType, key: string, index: int, value: Json)

  /** A snapshot of `path`: the ancestor chain of one visited node. */
  type Trace = seq<PathEntry>

  /** A stack frame (lines 129-188): `items` are the children still to visit,
      as positions, the next one last. For an object a position stands for
      the key `Object.keys` gives at that position, whose value is the field
      at that position (object keys are distinct). */
  datatype Frame = Frame(nodeType: NodeType, context: Json, key: string, index: int, items: seq<nat>)

  /** `lo .. hi-1` in descending order, so that `pop` yields them ascending. */
  function Desc(lo: nat, hi: nat): (r: seq<nat>)
    decreases hi - lo
    ensures |r| == if lo <= hi then hi - lo else 0
  {
    if lo >= hi then [] else Desc(lo + 1, hi) + [lo]
  }

  lemma {:induction false} DescAt(lo: nat, hi: nat)
    ensures forall i :: 0 <= i < |Desc(lo, hi)| ==> Desc(lo, hi)[i] == hi - 1 - i
    decreases hi - lo
  {
    if lo < hi {
      DescAt(lo + 1, hi);
    }
  }

  /** `arrayRange(arr)` for an array of length `n`: its indices from `n - 1`
      down to `0`. */
  method ArrayRange(n: nat) returns (list: seq<nat>)
    ensures list == Desc(0, n)
    ensures |list| == n
    ensures forall i :: 0 <= i < n ==> list[i] == n - 1 - i
  {
    var len: nat := n;
    list := [];
    while len > 0
      invariant len <= n
      invariant list == Desc(len, n)
    {
      len := len - 1;
      list := list + [len];
    }
    DescAt(0, n);
  }

  /** The children a frame still has to visit, in total. */
  function Count(f: Frame): (r: nat)
    ensures r <= ChildCount(f.context)
  {
    if (f.nodeType == Array && f.context.JArray?) || (f.nodeType == Object && f.context.JObject?)
    then ChildCount(f.context)
    else 0
  }

  /** A frame for `ctx`, reached under the raw key `key` (`isType` says whether
      that raw key is `"@type"`). */
  function NewFrame(ctx: Json, isType: bool, key: string, index: int): (f: Frame)
    ensures f.context == ctx && f.key == key && f.index == index
    ensures f.nodeType == Array <==> ctx.JArray? && !isType
    ensures f.nodeType == Object <==> ctx.JObject?
    ensures f.items == Desc(0, Count(f))
  {
    var t := if ctx.JArray? then (if isType then Leaf else Array)
             else if ctx.JObject? then Object else Leaf;
    Frame(t, ctx, key, index, if t == Leaf then [] else Desc(0, ChildCount(ctx)))
  }

  /** `StackFrame(parent, item, ctx)` for a child of `parent`. An array under the
      key `@type` is one leaf; the elements of an array take over the array's
      key and record their index (the raw key of an element is a number, never
      `"@type"`). */
  function StackFrame(parent: Frame, item: nat, ctx: Json): (f: Frame)
    requires item < Count(parent)
    ensures f.context == ctx
    ensures parent.nodeType == Array ==> f.key == parent.key && f.index == item
    ensures parent.nodeType != Array ==>
      f.key == parent.context.fields[item].key && f.index == -1
    ensures f.nodeType == Array <==>
      ctx.JArray? && (parent.nodeType == Array || f.key != TypeKey)
  {
    if parent.nodeType == Array then NewFrame(ctx, false, parent.key, item)
    else
      var key := parent.context.fields[item].key;
      NewFrame(ctx, key == TypeKey, key, -1)
  }

  /** `StackFrame({}, "#document", doc)`, the bottom of the stack. */
  function RootFrame(doc: Json): Frame
  {
    NewFrame(doc, false, DocumentKey, -1)
  }

  /** The entry that line 195 seeds `path` with: always of type "object". */
  function RootEntry(doc: Json): PathEntry
  {
    PathEntry(Object, DocumentKey, -1, doc)
  }

  function EntryOf(f: Frame): PathEntry
  {
    PathEntry(f.nodeType, f.key, f.index, f.context)
  }

  // ---- the traversal as a recursive definition: pre-order ----

  /** The snapshots produced from the node whose frame is `f`, under the
      ancestor chain `anc`: an array adds no entry and visits its elements;
      an object or a leaf adds its entry and yields a snapshot, and an object
      then visits its keys in order. */
  function Visit(anc: Trace, f: Frame): seq<Trace>
    decreases f.context, 1
  {
    if f.nodeType == Array then Siblings(anc, f, 0)
    else
      var here := anc + [EntryOf(f)];
      [here] + (if f.nodeType == Object then Siblings(here, f, 0) else [])
  }

  /** The snapshots of the children `lo ..` of frame `f`, in order. */
  function Siblings(anc: Trace, f: Frame, lo: nat): seq<Trace>
    decreases f.context, 0, Count(f) - lo
  {
    if lo >= Count(f) then []
    else
      Visit(anc, StackFrame(f, lo, ChildValue(f.context, lo))) + Siblings(anc, f, lo + 1)
  }

  /** Every snapshot that `walk(doc, stepf)` passes to `stepf`, in call order:
      what `collectPaths(doc)` returns. */
  function Snapshots(doc: Json): seq<Trace>
  {
    Siblings([RootEntry(doc)], RootFrame(doc), 0)
  }

  // ---- what the traversal yields ----

  /** A frame as `StackFrame` builds it for a node reached under the key
      `f.key`: all its children still to visit. */
  predicate Fresh(f: Frame)
  {
    f == NewFrame(f.context, f.key == TypeKey, f.key, f.index)
  }

  /** The number of values in `v` that are not arrays, counting an array under
      `@type` (`typed`) as one value and not looking inside it. */
  function Values(v: Json, typed: bool): nat
    decreases v, 1
  {
    match v
    case JArray(_) => if typed then 1 else ValuesFrom(v, 0)
    case JObject(_) => 1 + ValuesFrom(v, 0)
    case _ => 1
  }

  function ValuesFrom(v: Json, lo: nat): nat
    decreases v, 0, ChildCount(v) - lo
  {
    if lo >= ChildCount(v) then 0
    else Values(ChildValue(v, lo), v.JObject? && v.fields[lo].key == TypeKey) + ValuesFrom(v, lo + 1)
  }

  /** The children of a fresh frame are fresh. */
  lemma ChildFresh(f: Frame, lo: nat)
    requires Fresh(f) && lo < Count(f)
    ensures Fresh(StackFrame(f, lo, ChildValue(f.context, lo)))
    ensures f.nodeType == Array ==> StackFrame(f, lo, ChildValue(f.context, lo)).key != TypeKey
  {
  }

  /** Every non-array value below a node yields exactly one snapshot. */
  lemma {:induction false} VisitCount(anc: Trace, f: Frame)
    requires Fresh(f)
    ensures |Visit(anc, f)| == Values(f.context, f.key == TypeKey)
    decreases f.context, 1
  {
    if f.nodeType != Leaf {
      SiblingsCount(if f.nodeType == Array then anc else anc + [EntryOf(f)], f, 0);
    }
  }

  lemma {:induction false} SiblingsCount(anc: Trace, f: Frame, lo: nat)
    requires Fresh(f) && f.nodeType != Leaf
    ensures |Siblings(anc, f, lo)| == ValuesFrom(f.context, lo)
    decreases f.context, 0, Count(f) - lo
  {
    if lo < Count(f) {
      var g := StackFrame(f, lo, ChildValue(f.context, lo));
      ChildFresh(f, lo);
      VisitCount(anc, g);
      SiblingsCount(anc, f, lo + 1);
    }
  }

  /** `walk` calls its callback once per non-array value strictly below the
      root, the root's own entry being seeded rather than visited. */
  lemma SnapshotCount(doc: Json)
    ensures |Snapshots(doc)| == Values(doc, false) - (if doc.JArray? then 0 else 1)
  {
    var f := RootFrame(doc);
    if f.nodeType != Leaf {
      SiblingsCount([RootEntry(doc)], f, 0);
    }
  }

  /** A snapshot as the callback sees it: every entry but the last is an
      object, the last is the node just visited and is never an array, and a
      last entry under `@type` sits under the object that holds that value. */
  predicate Shaped(t: Trace)
  {
    && |t| >= 2
    && (forall i :: 0 <= i < |t| - 1 ==> t[i].nodeType == Object)
    && t[|t| - 1].nodeType != Array
    && (t[|t| - 1].key == TypeKey ==>
          t[|t| - 2].value.JObject? && Field(TypeKey, t[|t| - 1].value) in t[|t| - 2].value.fields)
  }

  /** What a node is visited under: a chain of objects, the last of which holds
      the node's value as its `@type` if the node is reached under `@type`. */
  predicate Under(anc: Trace, f: Frame)
  {
    && |anc| > 0
    && (forall i :: 0 <= i < |anc| ==> anc[i].nodeType == Object)
    && (f.key == TypeKey ==>
          anc[|anc| - 1].value.JObject? && Field(TypeKey, f.context) in anc[|anc| - 1].value.fields)
  }

  /** Every trace in `ts` properly extends `anc` and is shaped. */
  predicate Extend(ts: seq<Trace>, anc: Trace)
  {
    forall t :: t in ts ==> |t| > |anc| && t[..|anc|] == anc && Shaped(t)
  }

  lemma ExtendConcat(a: seq<Trace>, b: seq<Trace>, anc: Trace)
    requires Extend(a, anc) && Extend(b, anc)
    ensures Extend(a + b, anc)
  {
  }

  /** A child of a frame whose value is the last of `anc` is visited under `anc`. */
  lemma ChildUnder(anc: Trace, f: Frame, lo: nat)
    requires Fresh(f) && f.nodeType != Leaf && |anc| > 0 && lo < Count(f)
    requires forall i :: 0 <= i < |anc| ==> anc[i].nodeType == Object
    requires f.nodeType == Object ==> anc[|anc| - 1].value == f.context
    ensures Fresh(StackFrame(f, lo, ChildValue(f.context, lo)))
    ensures Under(anc, StackFrame(f, lo, ChildValue(f.context, lo)))
  {
    var g := StackFrame(f, lo, ChildValue(f.context, lo));
    ChildFresh(f, lo);
    if f.nodeType == Object {
      assert f.context.fields[lo] == Field(g.key, g.context);
    }
  }

  lemma {:induction false} VisitShape(anc: Trace, f: Frame)
    requires Fresh(f) && Under(anc, f)
    ensures Extend(Visit(anc, f), anc)
    decreases f.context, 1
  {
    if f.nodeType == Array {
      SiblingsShape(anc, f, 0);
    } else if f.nodeType == Object {
      var here := anc + [EntryOf(f)];
      assert Shaped(here);
      SiblingsShape(here, f, 0);
      forall t | t in Siblings(here, f, 0)
        ensures t[..|anc|] == anc
      {
        assert t[..|anc|] == t[..|here|][..|anc|];
      }
    } else {
      assert Shaped(anc + [EntryOf(f)]);
    }
  }

  lemma {:induction false} SiblingsShape(anc: Trace, f: Frame, lo: nat)
    requires Fresh(f) && f.nodeType != Leaf && |anc| > 0
    requires forall i :: 0 <= i < |anc| ==> anc[i].nodeType == Object
    requires f.nodeType == Object ==> anc[|anc| - 1].value == f.context
    ensures Extend(Siblings(anc, f, lo), anc)
    decreases f.context, 0, Count(f) - lo
  {
    if lo < Count(f) {
      var g := StackFrame(f, lo, ChildValue(f.context, lo));
      ChildUnder(anc, f, lo);
      VisitShape(anc, g);
      SiblingsShape(anc, f, lo + 1);
      ExtendConcat(Visit(anc, g), Siblings(anc, f, lo + 1), anc);
    }
  }

  /** Every snapshot starts with the `#document` entry and has the shape above
      (lines 195-236). */
  lemma SnapshotShape(doc: Json)
    ensures forall t :: t in Snapshots(doc) ==> Shaped(t) && t[0] == RootEntry(doc)
  {
    var f := RootFrame(doc);
    if f.nodeType != Leaf {
      SiblingsShape([RootEntry(doc)], f, 0);
      forall t | t in Snapshots(doc)
        ensures t[0] == RootEntry(doc)
      {
        assert t[..1] == [RootEntry(doc)];
      }
    }
  }

  // ---- the imperative walk ----

  /** A frame whose `items` are the positions `lo ..` still to visit. */
  predicate FrameOk(f: Frame)
  {
    |f.items| <= Count(f) && f.items == Desc(Count(f) - |f.items|, Count(f))
  }

  /** The position of the next child to visit. */
  function Next(f: Frame): nat
  {
    if |f.items| <= Count(f) then Count(f) - |f.items| else Count(f)
  }

  /** Everything the frames on the stack will still produce, top first. */
  function Pending(stack: seq<Frame>, anc: seq<Trace>): seq<Trace>
    requires |anc| == |stack|
  {
    if stack == [] then []
    else
      var n := |stack| - 1;
      Siblings(anc[n], stack[n], Next(stack[n])) + Pending(stack[..n], anc[..n])
  }

  /** The size of a value: scalars 1, containers 2 plus their children. */
  function Size(v: Json): nat
    decreases v, 1
  {
    if v.JArray? || v.JObject? then 2 + SizeFrom(v, 0) else 1
  }

  function SizeFrom(v: Json, lo: nat): nat
    decreases v, 0, ChildCount(v) - lo
  {
    if lo >= ChildCount(v) then 0 else Size(ChildValue(v, lo)) + SizeFrom(v, lo + 1)
  }

  function FrameSize(f: Frame): nat
  {
    1 + (if Count(f) == 0 then 0 else SizeFrom(f.context, Next(f)))
  }

  function StackSize(stack: seq<Frame>): nat
  {
    if stack == [] then 0 else StackSize(stack[..|stack| - 1]) + FrameSize(stack[|stack| - 1])
  }

  lemma PendingPush(stack: seq<Frame>, anc: seq<Trace>, g: Frame, p: Trace)
    requires |anc| == |stack|
    requires FramesOk(stack)
    requires FrameOk(g)
    ensures FramesOk(stack + [g])
    ensures Pending(stack + [g], anc + [p]) == Siblings(p, g, Next(g)) + Pending(stack, anc)
    ensures StackSize(stack + [g]) == StackSize(stack) + FrameSize(g)
  {
    assert (stack + [g])[..|stack|] == stack;
    assert (anc + [p])[..|stack|] == anc;
  }

  /** What a frame's children produce does not depend on its `items`. */
  lemma {:induction false} SiblingsIgnoreItems(anc: Trace, f: Frame, items: seq<nat>, lo: nat)
    ensures Siblings(anc, f, lo) == Siblings(anc, f.(items := items), lo)
    decreases Count(f) - lo
  {
    if lo < Count(f) {
      SiblingsIgnoreItems(anc, f, items, lo + 1);
      assert StackFrame(f, lo, ChildValue(f.context, lo))
        == StackFrame(f.(items := items), lo, ChildValue(f.context, lo));
    }
  }

  /** Taking the next item off the top frame: the child it names is visited
      first, then the rest of the stack as before. */
  lemma PendingPopItem(stack: seq<Frame>, anc: seq<Trace>)
    requires |anc| == |stack| > 0
    requires FramesOk(stack)
    requires stack[|stack| - 1].items != []
    ensures var f := stack[|stack| - 1];
      var lo := Next(f);
      var f' := f.(items := f.items[..|f.items| - 1]);
      && lo < Count(f) && f.items[|f.items| - 1] == lo
      && FrameOk(f') && Next(f') == lo + 1
      && Pending(stack, anc) ==
           Visit(anc[|stack| - 1], StackFrame(f, lo, ChildValue(f.context, lo)))
           + Pending(stack[|stack| - 1 := f'], anc)
      && StackSize(stack) ==
           StackSize(stack[|stack| - 1 := f']) + Size(ChildValue(f.context, lo))
  {
    var n := |stack| - 1;
    var f := stack[n];
    var lo := Next(f);
    var f' := f.(items := f.items[..|f.items| - 1]);
    assert FrameOk(f);
    assert f.items == Desc(lo + 1, Count(f)) + [lo];
    var s := stack[n := f'];
    assert s[..n] == stack[..n] && s[n] == f';
    assert Pending(stack, anc) ==
      Visit(anc[n], StackFrame(f, lo, ChildValue(f.context, lo))) + Pending(s, anc) by {
      assert Next(f') == lo + 1 && f.(items := f'.items) == f';
      SiblingsUnfold(anc[n], f, lo);
      SiblingsIgnoreItems(anc[n], f, f'.items, lo + 1);
      PendingUnfold(stack, anc);
      PendingUnfold(s, anc);
    }
    assert StackSize(stack) == StackSize(s) + Size(ChildValue(f.context, lo)) by {
      StackSizeUnfold(stack);
      StackSizeUnfold(s);
    }
  }

  lemma StackSizeUnfold(stack: seq<Frame>)
    requires stack != []
    ensures StackSize(stack) == StackSize(stack[..|stack| - 1]) + FrameSize(stack[|stack| - 1])
  {
  }

  lemma FrameSizeOfChild(parent: Frame, item: nat, v: Json)
    requires item < Count(parent)
    requires StackFrame(parent, item, v).nodeType != Leaf
    ensures FrameOk(StackFrame(parent, item, v))
    ensures Next(StackFrame(parent, item, v)) == 0
    ensures FrameSize(StackFrame(parent, item, v)) < Size(v)
  {
  }

  /** Each frame's ancestor chain extends the one below it by the frame's own
      entry, unless the frame is an array. */
  predicate Linked(stack: seq<Frame>, anc: seq<Trace>)
    requires |anc| == |stack|
  {
    forall t :: 0 < t < |stack| ==>
      anc[t] == anc[t - 1] + (if stack[t].nodeType == Array then [] else [EntryOf(stack[t])])
  }

  lemma LinkedReplace(stack: seq<Frame>, anc: seq<Trace>, f': Frame)
    requires |anc| == |stack| > 0 && Linked(stack, anc)
    requires f'.nodeType == stack[|stack| - 1].nodeType && EntryOf(f') == EntryOf(stack[|stack| - 1])
    ensures Linked(stack[|stack| - 1 := f'], anc)
  {
  }

  lemma LinkedPush(stack: seq<Frame>, anc: seq<Trace>, g: Frame, p: Trace)
    requires |anc| == |stack| > 0 && Linked(stack, anc)
    requires p == anc[|stack| - 1] + (if g.nodeType == Array then [] else [EntryOf(g)])
    ensures Linked(stack + [g], anc + [p])
  {
  }

  lemma LinkedPop(stack: seq<Frame>, anc: seq<Trace>)
    requires |anc| == |stack| > 0 && Linked(stack, anc)
    ensures Linked(stack[..|stack| - 1], anc[..|stack| - 1])
  {
  }

  /** The state of `walk` between two iterations of its loop: `anc[t]` is the
      value of `path` while frame `t` is on top, and what was collected so far
      followed by what the stack will still produce is the whole traversal. */
  ghost predicate WalkState(doc: Json, all: seq<Trace>, stack: seq<Frame>, path: Trace, out: seq<Trace>, anc: seq<Trace>)
  {
    && FramesOk(stack)
    && AncestorsOk(doc, stack, path, anc)
    && out + Pending(stack, anc) == all
  }

  predicate FramesOk(stack: seq<Frame>)
  {
    forall t :: 0 <= t < |stack| ==> FrameOk(stack[t])
  }

  /** `anc[t]` is the value of `path` while frame `t` is on top. */
  predicate AncestorsOk(doc: Json, stack: seq<Frame>, path: Trace, anc: seq<Trace>)
  {
    && |anc| == |stack|
    && (|stack| > 0 ==> path == anc[|stack| - 1] && anc[0] == [RootEntry(doc)])
    && Linked(stack, anc)
    && (forall t :: 0 <= t < |anc| ==> anc[t] != [])
  }

  /** Dropping an exhausted frame keeps the walk state. */
  lemma DropFrame(doc: Json, all: seq<Trace>, stack: seq<Frame>, path: Trace, out: seq<Trace>, anc: seq<Trace>)
    requires WalkState(doc, all, stack, path, out, anc) && stack != []
    requires stack[|stack| - 1].items == []
    ensures var top := |stack| - 1;
      WalkState(doc, all, stack[..top],
        if stack[top].nodeType != Array then path[..|path| - 1] else path, out, anc[..top])
    ensures StackSize(stack[..|stack| - 1]) < StackSize(stack)
  {
    PendingPop(stack, anc);
    AncestorsPop(doc, stack, path, anc);
    assert FramesOk(stack[..|stack| - 1]);
  }

  /** An exhausted top frame has nothing pending. */
  lemma PendingPop(stack: seq<Frame>, anc: seq<Trace>)
    requires |anc| == |stack| > 0
    requires stack[|stack| - 1].items == []
    ensures Pending(stack, anc) == Pending(stack[..|stack| - 1], anc[..|stack| - 1])
    ensures StackSize(stack[..|stack| - 1]) < StackSize(stack)
  {
    var top := |stack| - 1;
    NextExhausted(stack[top]);
    SiblingsPast(anc[top], stack[top], Next(stack[top]));
    PendingUnfold(stack, anc);
    StackSizeUnfold(stack);
  }

  lemma PendingUnfold(stack: seq<Frame>, anc: seq<Trace>)
    requires |anc| == |stack| > 0
    ensures var top := |stack| - 1;
      Pending(stack, anc) == Siblings(anc[top], stack[top], Next(stack[top])) + Pending(stack[..top], anc[..top])
  {
  }

  lemma SiblingsUnfold(anc: Trace, f: Frame, lo: nat)
    requires lo < Count(f)
    ensures Siblings(anc, f, lo) == Visit(anc, StackFrame(f, lo, ChildValue(f.context, lo))) + Siblings(anc, f, lo + 1)
  {
  }

  lemma NextExhausted(f: Frame)
    requires f.items == []
    ensures Next(f) == Count(f)
  {
  }

  lemma SiblingsPast(anc: Trace, f: Frame, lo: nat)
    requires lo >= Count(f)
    ensures Siblings(anc, f, lo) == []
  {
  }

  /** Popping a frame takes its own entry, if any, off `path`. */
  lemma AncestorsPop(doc: Json, stack: seq<Frame>, path: Trace, anc: seq<Trace>)
    requires AncestorsOk(doc, stack, path, anc) && stack != []
    ensures var top := |stack| - 1;
      AncestorsOk(doc, stack[..top],
        if stack[top].nodeType != Array then path[..|path| - 1] else path, anc[..top])
  {
    var top := |stack| - 1;
    LinkedPop(stack, anc);
    if top > 0 && stack[top].nodeType != Array {
      assert path == anc[top - 1] + [EntryOf(stack[top])];
      assert path[..|path| - 1] == anc[top - 1];
    }
  }

  /** The top frame after `items.pop()` and the frame of the child popped. */
  function Popped(f: Frame): Frame
    requires f.items != []
  {
    f.(items := f.items[..|f.items| - 1])
  }

  function ChildFrame(f: Frame): Frame
    requires FrameOk(f) && f.items != []
  {
    var item := f.items[|f.items| - 1];
    StackFrame(Popped(f), item, ChildValue(f.context, item))
  }

  /** What taking the next item of the top frame does to the pending
      snapshots and to the measure. */
  lemma TakeItem(doc: Json, all: seq<Trace>, stack: seq<Frame>, path: Trace, out: seq<Trace>, anc: seq<Trace>)
    requires WalkState(doc, all, stack, path, out, anc) && stack != []
    requires stack[|stack| - 1].items != []
    ensures var top := |stack| - 1;
      var s := stack[top := Popped(stack[top])];
      var g := ChildFrame(stack[top]);
      && FrameOk(Popped(stack[top]))
      && FramesOk(s)
      && out + Visit(path, g) + Pending(s, anc) == all
      && StackSize(stack) == StackSize(s) + Size(g.context)
      && (g.nodeType != Leaf ==> FrameOk(g) && Next(g) == 0 && FrameSize(g) < Size(g.context))
  {
    var top := |stack| - 1;
    PendingPopItem(stack, anc);
    var f := Popped(stack[top]);
    var item := stack[top].items[|stack[top].items| - 1];
    var g := ChildFrame(stack[top]);
    if g.nodeType != Leaf {
      FrameSizeOfChild(f, item, ChildValue(f.context, item));
    }
  }

  lemma VisitUnfold(anc: Trace, f: Frame)
    ensures f.nodeType == Array ==> Visit(anc, f) == Siblings(anc, f, 0)
    ensures f.nodeType == Leaf ==> Visit(anc, f) == [anc + [EntryOf(f)]]
    ensures f.nodeType == Object ==>
      Visit(anc, f) == [anc + [EntryOf(f)]] + Siblings(anc + [EntryOf(f)], f, 0)
  {
  }

  /** Replacing the top frame by one with the same entry keeps the ancestor
      chains. */
  lemma AncestorsReplace(doc: Json, stack: seq<Frame>, path: Trace, anc: seq<Trace>, f': Frame)
    requires AncestorsOk(doc, stack, path, anc) && stack != []
    requires f'.nodeType == stack[|stack| - 1].nodeType && EntryOf(f') == EntryOf(stack[|stack| - 1])
    ensures AncestorsOk(doc, stack[|stack| - 1 := f'], path, anc)
  {
    LinkedReplace(stack, anc, f');
  }

  /** Pushing a child frame, with `p` the path while it is on top. */
  lemma StatePush(doc: Json, all: seq<Trace>, s: seq<Frame>, path: Trace, out: seq<Trace>, anc: seq<Trace>, g: Frame, p: Trace)
    requires FramesOk(s) && AncestorsOk(doc, s, path, anc) && s != [] && FrameOk(g)
    requires p == path + (if g.nodeType == Array then [] else [EntryOf(g)])
    requires out + (Siblings(p, g, Next(g)) + Pending(s, anc)) == all
    ensures WalkState(doc, all, s + [g], p, out, anc + [p])
  {
    PendingPush(s, anc, g, p);
    LinkedPush(s, anc, g, p);
  }

  /** Pushing the frame of a container child shrinks the measure. */
  lemma PushSmaller(doc: Json, all: seq<Trace>, stack: seq<Frame>, path: Trace, out: seq<Trace>, anc: seq<Trace>)
    requires WalkState(doc, all, stack, path, out, anc) && stack != []
    requires stack[|stack| - 1].items != []
    requires ChildFrame(stack[|stack| - 1]).nodeType != Leaf
    ensures var top := |stack| - 1;
      StackSize(stack[top := Popped(stack[top])] + [ChildFrame(stack[top])]) < StackSize(stack)
  {
    var top := |stack| - 1;
    TakeItem(doc, all, stack, path, out, anc);
    PendingPush(stack[top := Popped(stack[top])], anc, ChildFrame(stack[top]), path);
  }

  lemma Regroup(a: seq<Trace>, x: Trace, b: seq<Trace>, c: seq<Trace>)
    ensures a + ([x] + b) + c == (a + [x]) + (b + c)
  {
  }

  /** What the pushes of a container child rely on. */
  lemma TakeContainer(doc: Json, all: seq<Trace>, stack: seq<Frame>, path: Trace, out: seq<Trace>, anc: seq<Trace>)
    requires WalkState(doc, all, stack, path, out, anc) && stack != []
    requires stack[|stack| - 1].items != []
    requires ChildFrame(stack[|stack| - 1]).nodeType != Leaf
    ensures var top := |stack| - 1;
      var s := stack[top := Popped(stack[top])];
      var g := ChildFrame(stack[top]);
      && FramesOk(s) && AncestorsOk(doc, s, path, anc) && FrameOk(g)
      && out + Visit(path, g) + Pending(s, anc) == all
  {
    var top := |stack| - 1;
    TakeItem(doc, all, stack, path, out, anc);
    AncestorsReplace(doc, stack, path, anc, Popped(stack[top]));
  }

  /** An array child is pushed as a frame and adds nothing to `path`. */
  lemma TakeArray(doc: Json, all: seq<Trace>, stack: seq<Frame>, path: Trace, out: seq<Trace>, anc: seq<Trace>)
    requires WalkState(doc, all, stack, path, out, anc) && stack != []
    requires stack[|stack| - 1].items != []
    requires ChildFrame(stack[|stack| - 1]).nodeType == Array
    ensures var top := |stack| - 1;
      var s := stack[top := Popped(stack[top])] + [ChildFrame(stack[top])];
      WalkState(doc, all, s, path, out, anc + [path]) && StackSize(s) < StackSize(stack)
  {
    var top := |stack| - 1;
    var g := ChildFrame(stack[top]);
    TakeContainer(doc, all, stack, path, out, anc);
    VisitUnfold(path, g);
    var s := stack[top := Popped(stack[top])];
    Associate(out, Siblings(path, g, Next(g)), Pending(s, anc));
    StatePush(doc, all, s, path, out, anc, g, path);
    PushSmaller(doc, all, stack, path, out, anc);
  }

  /** A leaf child is reported with its entry, which is dropped again. */
  lemma TakeLeaf(doc: Json, all: seq<Trace>, stack: seq<Frame>, path: Trace, out: seq<Trace>, anc: seq<Trace>)
    requires WalkState(doc, all, stack, path, out, anc) && stack != []
    requires stack[|stack| - 1].items != []
    requires ChildFrame(stack[|stack| - 1]).nodeType == Leaf
    ensures var top := |stack| - 1;
      var s := stack[top := Popped(stack[top])];
      WalkState(doc, all, s, path, out + [path + [EntryOf(ChildFrame(stack[top]))]], anc)
      && StackSize(s) < StackSize(stack)
  {
    var top := |stack| - 1;
    TakeItem(doc, all, stack, path, out, anc);
    var f := Popped(stack[top]);
    var g := ChildFrame(stack[top]);
    AncestorsReplace(doc, stack, path, anc, f);
    VisitUnfold(path, g);
  }

  /** An object child is reported, and its frame pushed with its entry left on
      `path`. */
  lemma TakeObject(doc: Json, all: seq<Trace>, stack: seq<Frame>, path: Trace, out: seq<Trace>, anc: seq<Trace>)
    requires WalkState(doc, all, stack, path, out, anc) && stack != []
    requires stack[|stack| - 1].items != []
    requires ChildFrame(stack[|stack| - 1]).nodeType == Object
    ensures var top := |stack| - 1;
      var g := ChildFrame(stack[top]);
      var s := stack[top := Popped(stack[top])] + [g];
      var here := path + [EntryOf(g)];
      WalkState(doc, all, s, here, out + [here], anc + [here]) && StackSize(s) < StackSize(stack)
  {
    var top := |stack| - 1;
    var g := ChildFrame(stack[top]);
    var here := path + [EntryOf(g)];
    TakeContainer(doc, all, stack, path, out, anc);
    VisitUnfold(path, g);
    var s := stack[top := Popped(stack[top])];
    Regroup(out, here, Siblings(here, g, Next(g)), Pending(s, anc));
    StatePush(doc, all, s, path, out + [here], anc, g, here);
    PushSmaller(doc, all, stack, path, out, anc);
  }

  /** The state lines 193-201 set up. */
  lemma WalkStart(doc: Json)
    ensures WalkState(doc, Snapshots(doc), [RootFrame(doc)], [RootEntry(doc)], [], [[RootEntry(doc)]])
  {
    assert Pending([RootFrame(doc)], [[RootEntry(doc)]]) == Siblings([RootEntry(doc)], RootFrame(doc), 0) + [];
  }

  /** `walk(doc, stepf)` with `stepf` collecting copies of `path`
      (`collectPaths`): the result is exactly the pre-order sequence of
      snapshots. */
  method Walk(doc: Json) returns (out: seq<Trace>)
    ensures out == Snapshots(doc)
  {
    var stack := [RootFrame(doc)];
    var path := [RootEntry(doc)];
    out := [];
    ghost var anc := [path];
    ghost var all := Snapshots(doc);
    WalkStart(doc);
    while |stack| > 0
      invariant WalkState(doc, all, stack, path, out, anc)
      decreases StackSize(stack)
    {
      var top := |stack| - 1;
      var frame := stack[top];
      if |frame.items| == 0 {
        DropFrame(doc, all, stack, path, out, anc);
        if frame.nodeType != Array {
          path := path[..|path| - 1];
        }
        stack := stack[..top];
        anc := anc[..top];
      } else {
        ghost var before, pathBefore, outBefore, ancBefore := stack, path, out, anc;
        var item := frame.items[|frame.items| - 1];
        frame := frame.(items := frame.items[..|frame.items| - 1]);
        stack := stack[top := frame];
        var value := ChildValue(frame.context, item);
        var newFrame := StackFrame(frame, item, value);
        assert newFrame == ChildFrame(before[top]);
        if newFrame.nodeType == Array {
          TakeArray(doc, all, before, pathBefore, outBefore, ancBefore);
          stack := stack + [newFrame];
          anc := anc + [path];
        } else {
          path := path + [EntryOf(newFrame)];
          out := out + [path];
          if newFrame.nodeType == Leaf {
            TakeLeaf(doc, all, before, pathBefore, outBefore, ancBefore);
            path := path[..|path| - 1];
          } else {
            TakeObject(doc, all, before, pathBefore, outBefore, ancBefore);
            stack := stack + [newFrame];
            anc := anc + [path];
          }
        }
      }
    }
  }
}
