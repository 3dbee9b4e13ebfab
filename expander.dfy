/** The name expander: the chain of closures that `Object.keys(context).reduce`
    builds, one per context key (src/ld-query.js:71-102). Aliases rewrite a
    leading `alias:`; the `@vocab` key prefixes bare names. Alias names hold no
    regular-expression metacharacters and context values hold no `$`
    replacement tokens. */
module Expander {
  import opened Text

  /** One context key and the string it maps to. */
  datatype ContextEntry = ContextEntry(key: string, value: string)

  /** A context: its entries in `Object.keys` order. */
  type Context = seq<ContextEntry>

  const Vocab := "@vocab"

  /** The test `/@.*\/` of line 51: a name holding `@` anywhere is a keyword. */
  predicate IsKeyword(name: string)
  {
    '@' in name
  }

  /** A bare name (line 38): non-empty and without `:`. */
  predicate IsBare(name: string)
  {
    name != "" && ':' !in name
  }

  /** Whether the rewrite of `e` changes `name`: `@vocab` matches bare names,
      an alias matches names beginning with `alias:`. */
  predicate Fires(e: ContextEntry, name: string)
  {
    if e.key == Vocab then IsBare(name) else StartsWith(name, e.key + ":")
  }

  /** `name.replace(pattern, replacement)` for one context entry (lines 79-98). */
  function Rewrite(e: ContextEntry, name: string): (r: string)
    ensures !Fires(e, name) ==> r == name
    ensures Fires(e, name) && e.key == Vocab ==> r == e.value + name
    ensures Fires(e, name) && e.key != Vocab ==> r == e.value + name[|e.key| + 1..]
  {
    if e.key == Vocab then
      if IsBare(name) then e.value + name else name
    else if StartsWith(name, e.key + ":") then e.value + name[|e.key| + 1..]
    else name
  }

  /** The closure built for the last key of `ctx`: it bails out on keywords,
      otherwise calls the closure of the earlier keys and applies its own
      rewrite. With no keys `expand` is `null` and calling it throws, hence the
      precondition. */
  function Expand(ctx: Context, name: string): (r: string)
    requires |ctx| > 0
    ensures IsKeyword(name) ==> r == name
  {
    if IsKeyword(name) then name
    else
      var prior := if |ctx| == 1 then name else Expand(ctx[..|ctx| - 1], name);
      Rewrite(ctx[|ctx| - 1], prior)
  }

  /** The rewrites of `ctx` applied in key order, with no keyword test. */
  function Fold(ctx: Context, name: string): string
  {
    if ctx == [] then name else Rewrite(ctx[|ctx| - 1], Fold(ctx[..|ctx| - 1], name))
  }

  /** Although every closure repeats the keyword test, all of them test the
      original name, so expansion is one keyword test followed by the rewrites
      of every key in order. */
  lemma {:induction false} ExpandIsFold(ctx: Context, name: string)
    requires |ctx| > 0
    ensures Expand(ctx, name) == if IsKeyword(name) then name else Fold(ctx, name)
  {
    if !IsKeyword(name) && |ctx| > 1 {
      ExpandIsFold(ctx[..|ctx| - 1], name);
    }
  }

  /** A name that no key's rewrite matches is returned unchanged. */
  lemma {:induction false} FoldNoneFire(ctx: Context, name: string)
    requires forall e :: e in ctx ==> !Fires(e, name)
    ensures Fold(ctx, name) == name
  {
    if ctx != [] {
      assert ctx[|ctx| - 1] in ctx;
      FoldNoneFire(ctx[..|ctx| - 1], name);
    }
  }

  /** When exactly one key rewrites the name (no earlier key matches the name,
      no later key matches the rewritten name), expansion is that one rewrite. */
  lemma {:induction false} ExpandOneRewrite(pre: Context, e: ContextEntry, post: Context, name: string)
    requires !IsKeyword(name)
    requires forall x :: x in pre ==> !Fires(x, name)
    requires forall x :: x in post ==> !Fires(x, Rewrite(e, name))
    ensures Expand(pre + [e] + post, name) == Rewrite(e, name)
  {
    ExpandIsFold(pre + [e] + post, name);
    FoldOneRewrite(pre, e, post, name);
  }

  lemma {:induction false} FoldOneRewrite(pre: Context, e: ContextEntry, post: Context, name: string)
    requires forall x :: x in pre ==> !Fires(x, name)
    requires forall x :: x in post ==> !Fires(x, Rewrite(e, name))
    ensures Fold(pre + [e] + post, name) == Rewrite(e, name)
  {
    var ctx := pre + [e] + post;
    if post == [] {
      assert ctx[..|ctx| - 1] == pre;
      FoldNoneFire(pre, name);
    } else {
      var last := post[|post| - 1];
      assert last in post;
      assert ctx[..|ctx| - 1] == pre + [e] + post[..|post| - 1];
      FoldOneRewrite(pre, e, post[..|post| - 1], name);
    }
  }

  /** The empty name is left alone: no alias prefix begins it and it is not
      bare. */
  lemma EmptyNameUnchanged(ctx: Context)
    requires |ctx| > 0
    ensures Expand(ctx, "") == ""
  {
    ExpandIsFold(ctx, "");
    FoldNoneFire(ctx, "");
  }

  /** Three sample expansions: a `@vocab` term, a keyword, and an aliased name. */
  lemma VocabExample()
    ensures Expand([ContextEntry(Vocab, "http://x#")], "name") == "http://x#name"
    ensures Expand([ContextEntry(Vocab, "http://x#")], "@type") == "@type"
    ensures Expand([ContextEntry("ex", "http://x#")], "ex:name") == "http://x#name"
  {
    assert StartsWith("ex:name", "ex" + ":");
  }
}
