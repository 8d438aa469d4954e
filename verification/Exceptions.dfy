/**
 * Flattening of exception graphs, from `sentry_sdk/utils.py`.
 *
 * An exception is known by its identity; a graph maps each identity to the attributes the walks
 * read.  The walks never change an exception, so a graph is a value.  What they do change is the
 * pair `seen_exceptions` / `seen_exception_ids`, shared by every recursive call: class `Seen`.
 */
module Exceptions {
  import opened Options

  type Id = nat

  /**
   * The attributes the walks read.  `truthy` is `bool(exc_value)`: an exception class may define
   * `__bool__` or `__len__`, and `exceptions_from_error` tests it before following any edge.
   * `members` is the `exceptions` attribute of a group, empty for anything else.
   */
  datatype Exc = Exc(truthy: bool, suppress: bool, cause: Option<Id>, context: Option<Id>,
                     members: seq<Id>, isGroup: bool)

  type Graph = map<Id, Exc>

  ghost predicate Closed(g: Graph) {
    forall x <- g ::
      && (g[x].cause.Some? ==> g[x].cause.value in g)
      && (g[x].context.Some? ==> g[x].context.value in g)
      && (forall m <- g[x].members :: m in g)
  }

  /** The exception a traceback would print next: the cause if the context is suppressed, else the context. */
  function Next(e: Exc): Option<Id> {
    if e.suppress then e.cause else e.context
  }

  datatype Source = Root | Cause | Context | Member(index: nat)

  /** One element of the resulting list: the exception and the numbering in its `mechanism`. */
  datatype Entry = Entry(exc: Option<Id>, exceptionId: nat, parentId: Option<nat>, source: Source)

  /** `parent_id` is written for every exception but number 0. */
  function MakeEntry(exc: Option<Id>, exceptionId: nat, parentId: nat, source: Source): Entry {
    Entry(exc, exceptionId, if exceptionId == 0 then None else Some(parentId), source)
  }

  class Seen {
    var exceptions: seq<Id>
    var ids: set<Id>

    ghost predicate Valid()
      reads this
    {
      ids == set x <- exceptions
    }

    constructor ()
      ensures Valid() && ids == {}
    {
      exceptions, ids := [], {};
    }

    method Add(x: Id)
      requires Valid()
      modifies this
      ensures Valid() && exceptions == old(exceptions) + [x] && ids == old(ids) + {x}
    {
      exceptions := exceptions + [x];
      ids := ids + {x};
    }
  }

  // ---------------------------------------------------------------- the walk as a function

  /** An edge to follow, with the parent number its target gets if it is new. */
  datatype Edge = Edge(target: Id, parentId: nat, source: Source)

  function NextEdges(e: Exc): seq<Edge> {
    if e.truthy && Next(e).Some? then
      [Edge(Next(e).value, 0, if e.suppress then Cause else Context)]
    else []
  }

  function MemberEdges(e: Exc, own: nat): (es: seq<Edge>)
    ensures |es| == if e.truthy then |e.members| else 0
    ensures forall i | 0 <= i < |es| :: es[i] == Edge(e.members[i], own, Member(i))
  {
    if e.truthy then seq(|e.members|, i requires 0 <= i < |e.members| => Edge(e.members[i], own, Member(i)))
    else []
  }

  function Edges(e: Exc, own: nat): (es: seq<Edge>) {
    NextEdges(e) + MemberEdges(e, own)
  }

  ghost predicate In(g: Graph, es: seq<Edge>) {
    forall i | 0 <= i < |es| :: es[i].target in g
  }

  ghost function Emitted(entries: seq<Entry>): set<Id> {
    if entries == [] then {}
    else Emitted(entries[..|entries| - 1]) + Named(entries[|entries| - 1])
  }

  ghost function Named(e: Entry): set<Id> {
    if e.exc.Some? then {e.exc.value} else {}
  }

  lemma {:induction false} EmittedConcat(a: seq<Entry>, b: seq<Entry>)
    ensures Emitted(a + b) == Emitted(a) + Emitted(b)
  {
    if b == [] {
      assert a + b == a;
    } else {
      EmittedConcat(a, b[..|b| - 1]);
      assert (a + b)[..|a + b| - 1] == a + b[..|b| - 1];
    }
  }

  lemma EmittedCons(e: Entry, rest: seq<Entry>)
    ensures Emitted([e] + rest) == Named(e) + Emitted(rest)
  {
    EmittedConcat([e], rest);
    assert Emitted([e]) == Named(e);
  }

  /**
   * Depth-first walk with the edges still to follow on a stack: an edge to a seen exception is
   * dropped, any other emits its target and is replaced by the target's own edges.
   */
  ghost function Walk(g: Graph, todo: seq<Edge>, id: nat, seen: set<Id>): (r: seq<Entry>)
    requires Closed(g) && In(g, todo)
    decreases g.Keys - seen, |todo|
  {
    if todo == [] then []
    else if todo[0].target in seen then Walk(g, todo[1..], id, seen)
    else
      var e := todo[0];
      [MakeEntry(Some(e.target), id, e.parentId, e.source)]
      + Walk(g, Edges(g[e.target], id) + todo[1..], id + 1, seen + {e.target})
  }

  /** One unfolding of `Walk`: a new exception is emitted and its edges go on top of the stack. */
  lemma Step(g: Graph, todo: seq<Edge>, id: nat, seen: set<Id>) returns (own: Entry, stack: seq<Edge>)
    requires Closed(g) && In(g, todo) && todo != [] && todo[0].target !in seen
    ensures own == MakeEntry(Some(todo[0].target), id, todo[0].parentId, todo[0].source)
    ensures stack == Edges(g[todo[0].target], id) + todo[1..] && In(g, stack)
    ensures Walk(g, todo, id, seen) == [own] + Walk(g, stack, id + 1, seen + {todo[0].target})
  {
    own := MakeEntry(Some(todo[0].target), id, todo[0].parentId, todo[0].source);
    stack := Edges(g[todo[0].target], id) + todo[1..];
  }

  /** The walk of two stacks, one on top of the other, is two walks in turn. */
  lemma {:induction false} WalkConcat(g: Graph, a: seq<Edge>, b: seq<Edge>, id: nat, seen: set<Id>)
    requires Closed(g) && In(g, a) && In(g, b)
    ensures var first := Walk(g, a, id, seen);
            Walk(g, a + b, id, seen) == first + Walk(g, b, id + |first|, seen + Emitted(first))
    decreases g.Keys - seen, |a|
  {
    if a == [] {
      assert a + b == b;
      assert seen + Emitted([]) == seen;
    } else if a[0].target in seen {
      assert (a + b)[1..] == a[1..] + b;
      WalkConcat(g, a[1..], b, id, seen);
    } else {
      WalkConcatStep(g, a, b, id, seen);
    }
  }

  lemma WalkConcatStep(g: Graph, a: seq<Edge>, b: seq<Edge>, id: nat, seen: set<Id>)
    requires Closed(g) && In(g, a) && In(g, b) && a != [] && a[0].target !in seen
    ensures var first := Walk(g, a, id, seen);
            Walk(g, a + b, id, seen) == first + Walk(g, b, id + |first|, seen + Emitted(first))
    decreases g.Keys - seen, |a|, 0
  {
    hide Walk, Emitted, Edges;
    var seen' := seen + {a[0].target};
    var own, stack := Step(g, a, id, seen);
    var own', stack' := Step(g, a + b, id, seen);
    assert stack' == stack + b by { assert (a + b)[1..] == a[1..] + b; }
    WalkConcat(g, stack, b, id + 1, seen');
    var rest := Walk(g, stack, id + 1, seen');
    EmittedCons(own, rest);
    assert seen' + Emitted(rest) == seen + Emitted([own] + rest);
    var below := Walk(g, b, id + 1 + |rest|, seen' + Emitted(rest));
    assert [own] + (rest + below) == ([own] + rest) + below;
  }

  /** An edge is followed by walking the target's edges, unless its target was seen. */
  lemma WalkEdge(g: Graph, e: Edge, id: nat, seen: set<Id>)
    requires Closed(g) && e.target in g
    ensures In(g, Edges(g[e.target], id))
    ensures Walk(g, [e], id, seen) ==
            if e.target in seen then []
            else [MakeEntry(Some(e.target), id, e.parentId, e.source)]
                 + Walk(g, Edges(g[e.target], id), id + 1, seen + {e.target})
  {
    assert [e][1..] == [];
    assert Edges(g[e.target], id) + [] == Edges(g[e.target], id);
  }

  /** One more edge at the bottom of the stack. */
  lemma WalkSnoc(g: Graph, es: seq<Edge>, e: Edge, id: nat, seen: set<Id>, first: seq<Entry>, last: seq<Entry>)
    requires Closed(g) && In(g, es) && e.target in g
    requires first == Walk(g, es, id, seen)
    requires last == Walk(g, [e], id + |first|, seen + Emitted(first))
    ensures Walk(g, es + [e], id, seen) == first + last
    ensures Emitted(first + last) == Emitted(first) + Emitted(last)
  {
    hide Walk, Emitted, Edges;
    WalkConcat(g, es, [e], id, seen);
    EmittedConcat(first, last);
  }

  // ---------------------------------------------------------------- exceptions_from_error

  /**
   * The recursive walk with the shared `Seen`.  It terminates on every graph, since each call that
   * recurses has recorded one more exception, and computes `Walk`.
   */
  method ExceptionsFromError(g: Graph, exc: Option<Id>, exceptionId: nat, parentId: nat, source: Source, seen: Seen)
    returns (next: nat, entries: seq<Entry>)
    requires Closed(g) && (exc.Some? ==> exc.value in g) && seen.Valid()
    modifies seen
    ensures seen.Valid() && seen.ids == old(seen.ids) + Emitted(entries)
    ensures exc.Some? ==> entries == Walk(g, [Edge(exc.value, parentId, source)], exceptionId, old(seen.ids))
    ensures exc.None? ==> entries == [MakeEntry(None, exceptionId, parentId, source)]
    ensures next == exceptionId + |entries|
    decreases g.Keys - seen.ids
  {
    hide Walk, Emitted, Edges, MakeEntry, Named, MemberEdges;
    if exc.Some? {
      WalkEdge(g, Edge(exc.value, parentId, source), exceptionId, seen.ids);
    }
    EmptyEmits();
    if exc.Some? && exc.value in seen.ids {
      next, entries := exceptionId, [];
      assert seen.ids == seen.ids + Emitted(entries);
      return;
    }
    if exc.Some? {
      seen.Add(exc.value);
    }
    var parent := MakeEntry(exc, exceptionId, parentId, source);
    entries := [parent];
    OwnFirst(exc, exceptionId, parentId, source, []);
    assert [parent] + [] == entries;
    var parentId' := exceptionId;
    next := exceptionId + 1;
    if exc.None? {
      assert seen.ids == seen.ids + Emitted(entries);
      return;
    }
    var e := g[exc.value];
    ghost var start := seen.ids;
    ghost var children: seq<Entry> := [];
    WalkNothing(g, next, start);

    if e.suppress {
      if e.truthy && e.cause.Some? {
        var childEntries;
        next, childEntries := ExceptionsFromError(g, e.cause, next, 0, Cause, seen);
        entries := entries + childEntries;
        children := childEntries;
      }
    } else {
      if e.truthy && e.context.Some? {
        var childEntries;
        next, childEntries := ExceptionsFromError(g, e.context, next, 0, Context, seen);
        entries := entries + childEntries;
        children := childEntries;
      }
    }

    ghost var edges := MemberEdges(e, parentId');
    if e.truthy {
      assert NextEdges(e) + edges[..0] == NextEdges(e);
      for idx := 0 to |e.members|
        invariant seen.Valid() && seen.ids == start + Emitted(children)
        invariant entries == [parent] + children
        invariant next == exceptionId + |entries|
        invariant In(g, NextEdges(e) + edges[..idx])
        invariant children == Walk(g, NextEdges(e) + edges[..idx], exceptionId + 1, start)
      {
        assert edges[idx] == Edge(e.members[idx], parentId', Member(idx));
        var childEntries;
        next, childEntries := ExceptionsFromError(g, Some(e.members[idx]), next, parentId', Member(idx), seen);
        entries := entries + childEntries;
        MemberFollowed(g, e, edges, idx, exceptionId + 1, start, children, childEntries);
        children := children + childEntries;
      }
      assert edges[..|e.members|] == edges;
    } else {
      assert NextEdges(e) + edges == NextEdges(e);
    }
    AllEdges(e, parentId');
    OwnFirst(exc, exceptionId, parentId, source, children);
    assert start + Emitted(children) == old(seen.ids) + Emitted(entries);
  }

  /** One more round of the loop over the members of a group. */
  lemma MemberFollowed(g: Graph, e: Exc, edges: seq<Edge>, idx: nat, id: nat, seen: set<Id>,
                       before: seq<Entry>, last: seq<Entry>)
    requires Closed(g) && idx < |edges| && In(g, NextEdges(e) + edges[..idx]) && edges[idx].target in g
    requires before == Walk(g, NextEdges(e) + edges[..idx], id, seen)
    requires last == Walk(g, [edges[idx]], id + |before|, seen + Emitted(before))
    ensures In(g, NextEdges(e) + edges[..idx + 1])
    ensures before + last == Walk(g, NextEdges(e) + edges[..idx + 1], id, seen)
    ensures Emitted(before + last) == Emitted(before) + Emitted(last)
  {
    hide Walk, Emitted, NextEdges;
    WalkSnoc(g, NextEdges(e) + edges[..idx], edges[idx], id, seen, before, last);
    assert NextEdges(e) + edges[..idx] + [edges[idx]] == NextEdges(e) + edges[..idx + 1];
  }

  /** An exception's own entry emits it, and an entry for no exception emits nothing. */
  lemma OwnFirst(exc: Option<Id>, id: nat, parentId: nat, source: Source, rest: seq<Entry>)
    ensures var own := if exc.Some? then {exc.value} else {};
            Emitted([MakeEntry(exc, id, parentId, source)] + rest) == own + Emitted(rest)
  {
    EmittedCons(MakeEntry(exc, id, parentId, source), rest);
  }

  lemma EmptyEmits()
    ensures Emitted([]) == {}
  {
  }

  lemma WalkNothing(g: Graph, id: nat, seen: set<Id>)
    requires Closed(g)
    ensures Walk(g, [], id, seen) == []
  {
  }

  lemma AllEdges(e: Exc, own: nat)
    ensures Edges(e, own) == NextEdges(e) + MemberEdges(e, own)
  {
  }

  // ---------------------------------------------------------------- walk_exception_chain

  /** The chain of causes and contexts, ended by an exception seen before. */
  function Chain(g: Graph, x: Option<Id>, seen: set<Id>): (c: seq<Id>)
    requires Closed(g) && (x.Some? ==> x.value in g)
    ensures forall i | 0 <= i < |c| :: c[i] in g
    decreases g.Keys - seen
  {
    if x.None? || x.value in seen then []
    else [x.value] + Chain(g, Next(g[x.value]), seen + {x.value})
  }

  method WalkExceptionChain(g: Graph, exc: Option<Id>) returns (yielded: seq<Id>)
    requires Closed(g) && (exc.Some? ==> exc.value in g)
    ensures yielded == Chain(g, exc, {})
  {
    var seen := new Seen();
    var excValue := exc;
    yielded := [];
    while excValue.Some? && excValue.value !in seen.ids
      invariant seen.Valid() && fresh(seen) && (excValue.Some? ==> excValue.value in g)
      invariant Chain(g, exc, {}) == yielded + Chain(g, excValue, seen.ids)
      decreases g.Keys - seen.ids
    {
      ghost var before, rest := yielded, Chain(g, Next(g[excValue.value]), seen.ids + {excValue.value});
      yielded := yielded + [excValue.value];
      assert before + ([excValue.value] + rest) == yielded + rest;
      seen.Add(excValue.value);
      var e := g[excValue.value];
      var cause := if e.suppress then e.cause else e.context;
      if cause.None? {
        assert rest == [];
        break;
      }
      excValue := cause;
    }
  }

  function Reversed<T>(s: seq<T>): seq<T> {
    if s == [] then [] else Reversed(s[1..]) + [s[0]]
  }

  /** An element of the event's list: numbered when it came from a group, plain otherwise. */
  datatype Value = Numbered(entry: Entry) | Plain(exc: Id)

  function Numbereds(es: seq<Entry>): seq<Value> {
    if es == [] then [] else [Numbered(es[0])] + Numbereds(es[1..])
  }

  function Plains(c: seq<Id>): seq<Value> {
    if c == [] then [] else [Plain(c[0])] + Plains(c[1..])
  }

  lemma {:induction false} ReversedAt<T>(s: seq<T>, i: nat)
    requires i < |s|
    ensures |Reversed(s)| == |s| && Reversed(s)[i] == s[|s| - 1 - i]
  {
    if |s| > 1 {
      ReversedAt(s[1..], if i < |s| - 1 then i else 0);
    }
  }

  lemma {:induction false} NumberedsAt(es: seq<Entry>)
    ensures |Numbereds(es)| == |es| && forall i | 0 <= i < |es| :: Numbereds(es)[i] == Numbered(es[i])
  {
    if es != [] {
      NumberedsAt(es[1..]);
    }
  }

  lemma {:induction false} PlainsAt(c: seq<Id>)
    ensures |Plains(c)| == |c| && forall i | 0 <= i < |c| :: Plains(c)[i] == Plain(c[i])
  {
    if c != [] {
      PlainsAt(c[1..]);
    }
  }

  lemma ReversedAll<T>(s: seq<T>)
    ensures |Reversed(s)| == |s| && forall i | 0 <= i < |s| :: Reversed(s)[i] == s[|s| - 1 - i]
  {
    forall i | 0 <= i < |s|
      ensures |Reversed(s)| == |s| && Reversed(s)[i] == s[|s| - 1 - i]
    {
      ReversedAt(s, i);
    }
  }

  /** A chain starts with its exception, and each exception in it is followed by its cause or context. */
  lemma {:induction false} ChainLinks(g: Graph, x: Option<Id>, seen: set<Id>)
    requires Closed(g) && (x.Some? ==> x.value in g)
    ensures var c := Chain(g, x, seen);
            && (c == [] <==> x.None? || x.value in seen)
            && (c != [] ==> c[0] == x.value)
            && (forall i | 0 < i < |c| ::
                  var e := g[c[i - 1]];
                  Some(c[i]) == if e.suppress then e.cause else e.context)
            && (forall i, j | 0 <= i < j < |c| :: c[i] != c[j])
            && (forall i | 0 <= i < |c| :: c[i] !in seen)
    ensures var c := Chain(g, x, seen);
            c != [] ==>
              var last := g[c[|c| - 1]];
              var next := if last.suppress then last.cause else last.context;
              next.None? || next.value in c || next.value in seen
    decreases g.Keys - seen
  {
    if x.Some? && x.value !in seen {
      ChainLinks(g, Next(g[x.value]), seen + {x.value});
      var rest := Chain(g, Next(g[x.value]), seen + {x.value});
      assert Chain(g, x, seen) == [x.value] + rest;
    }
  }

  /** The numbered list of a group, backwards. */
  lemma NumberedBackwards(r: seq<Entry>)
    ensures var list := Reversed(Numbereds(r));
            |list| == |r| && forall i | 0 <= i < |r| :: list[i] == Numbered(r[|r| - 1 - i])
  {
    hide Reversed, Numbereds;
    NumberedsAt(r);
    ReversedAll(Numbereds(r));
  }

  /** The plain list of a chain, backwards. */
  lemma PlainBackwards(g: Graph, exc: Option<Id>)
    requires Closed(g) && (exc.Some? ==> exc.value in g)
    ensures var c := Chain(g, exc, {});
            var list := Reversed(Plains(c));
            && |list| == |c|
            && (forall i | 0 <= i < |c| :: list[i] == Plain(c[|c| - 1 - i]))
            && (exc.Some? ==> c != [] && list[|c| - 1] == Plain(exc.value))
            && (exc.None? ==> c == [])
            && forall i | 0 < i < |c| ::
                 var e := g[list[i].exc];
                 Some(list[i - 1].exc) == if e.suppress then e.cause else e.context
  {
    hide Reversed, Plains, Chain;
    var c := Chain(g, exc, {});
    PlainsAt(c);
    ReversedAll(Plains(c));
    ChainLinks(g, exc, {});
    var list := Reversed(Plains(c));
    forall i | 0 < i < |c|
      ensures var e := g[list[i].exc];
              Some(list[i - 1].exc) == if e.suppress then e.cause else e.context
    {
      assert list[i - 1] == Plain(c[|c| - i]) && list[i] == Plain(c[|c| - i - 1]);
    }
  }

  /**
   * Groups take the numbering walk, anything else the plain chain; either way the list comes out
   * backwards, so that the captured exception is last and what led to an exception comes before it.
   */
  method ExceptionsFromErrorTuple(g: Graph, exc: Option<Id>) returns (exceptions: seq<Value>)
    requires Closed(g) && (exc.Some? ==> exc.value in g)
    ensures exc.Some? && g[exc.value].isGroup ==>
              var r := Walk(g, [Edge(exc.value, 0, Root)], 0, {});
              && |exceptions| == |r|
              && forall i | 0 <= i < |r| :: exceptions[i] == Numbered(r[|r| - 1 - i])
    ensures exc.None? || !g[exc.value].isGroup ==>
              var c := Chain(g, exc, {});
              && |exceptions| == |c|
              && (forall i | 0 <= i < |c| :: exceptions[i] == Plain(c[|c| - 1 - i]))
              && forall i | 0 < i < |exceptions| ::
                   var e := g[exceptions[i].exc];
                   Some(exceptions[i - 1].exc) == if e.suppress then e.cause else e.context
    ensures exc.None? ==> exceptions == []
    ensures exc.Some? ==> exceptions != []
                          && exceptions[|exceptions| - 1] ==
                               if g[exc.value].isGroup then Numbered(Entry(exc, 0, None, Root)) else Plain(exc.value)
  {
    hide Reversed, Numbereds, Plains, Chain, Walk;
    if exc.Some? && g[exc.value].isGroup {
      var seen := new Seen();
      var _, entries := ExceptionsFromError(g, exc, 0, 0, Root, seen);
      NumberedBackwards(entries);
      WalkEdge(g, Edge(exc.value, 0, Root), 0, {});
      exceptions := Reversed(Numbereds(entries));
    } else {
      var yielded := WalkExceptionChain(g, exc);
      PlainBackwards(g, exc);
      exceptions := Reversed(Plains(yielded));
    }
  }
}
