/**
 * What the flattened list of an exception graph is: exactly the reachable exceptions, once each,
 * numbered without gaps, and equal to the plain chain when there are no groups.
 */
module ExceptionTheorems {
  import opened Options
  import opened Exceptions

  // ---------------------------------------------------------------- exactly the reachable exceptions

  /** `y` is followed from `e`: its cause if the context is suppressed, else its context, or a member. */
  ghost predicate Follows(e: Exc, y: Id) {
    e.truthy && (Next(e) == Some(y) || y in e.members)
  }

  ghost predicate IsPath(g: Graph, p: seq<Id>) {
    && p != []
    && (forall x <- p :: x in g)
    && (forall i | 0 < i < |p| :: Follows(g[p[i - 1]], p[i]))
  }

  ghost predicate Reachable(g: Graph, x: Id, y: Id) {
    exists p :: IsPath(g, p) && p[0] == x && p[|p| - 1] == y
  }

  ghost predicate Emits(r: seq<Entry>, x: Id) {
    exists k :: 0 <= k < |r| && r[k].exc == Some(x)
  }

  ghost predicate NoRepeats(r: seq<Entry>) {
    forall j, k | 0 <= j < k < |r| :: r[j].exc != r[k].exc
  }

  lemma {:induction false} EmittedMeansEmits(r: seq<Entry>, x: Id)
    ensures x in Emitted(r) <==> Emits(r, x)
  {
    if r != [] {
      var init, last := r[..|r| - 1], r[|r| - 1];
      EmittedMeansEmits(init, x);
      if Emits(init, x) {
        var k :| 0 <= k < |init| && init[k].exc == Some(x);
        assert r[k].exc == Some(x);
      }
      if Emits(r, x) {
        var k :| 0 <= k < |r| && r[k].exc == Some(x);
        assert k < |init| ==> init[k].exc == Some(x);
      }
    }
  }

  lemma FollowsIsEdge(e: Exc, own: nat, y: Id)
    ensures Follows(e, y) <==> exists i :: 0 <= i < |Edges(e, own)| && Edges(e, own)[i].target == y
  {
    var es, n := Edges(e, own), |NextEdges(e)|;
    if e.truthy && y in e.members {
      var i :| 0 <= i < |e.members| && e.members[i] == y;
      assert es[n + i].target == y;
    }
    if e.truthy && Next(e) == Some(y) {
      assert es[0].target == y;
    }
    forall i | 0 <= i < |es| && es[i].target == y
      ensures Follows(e, y)
    {
      if i >= n {
        assert es[i] == MemberEdges(e, own)[i - n];
      }
    }
  }

  /** The emitted set, together with what was seen, is closed under following and holds every target. */
  lemma {:induction false} WalkIsClosed(g: Graph, todo: seq<Edge>, id: nat, seen: set<Id>)
    requires Closed(g) && In(g, todo)
    ensures var all := seen + Emitted(Walk(g, todo, id, seen));
            && (forall i | 0 <= i < |todo| :: todo[i].target in all)
            && (forall x, y | x in all - seen && x in g && Follows(g[x], y) :: y in all)
            && all - seen == Emitted(Walk(g, todo, id, seen))
            && all <= g.Keys + seen
    decreases g.Keys - seen, |todo|
  {
    if todo == [] {
    } else if todo[0].target in seen {
      WalkIsClosed(g, todo[1..], id, seen);
    } else {
      WalkIsClosedStep(g, todo, id, seen);
    }
  }

  lemma WalkIsClosedStep(g: Graph, todo: seq<Edge>, id: nat, seen: set<Id>)
    requires Closed(g) && In(g, todo) && todo != [] && todo[0].target !in seen
    ensures var all := seen + Emitted(Walk(g, todo, id, seen));
            && (forall i | 0 <= i < |todo| :: todo[i].target in all)
            && (forall x, y | x in all - seen && x in g && Follows(g[x], y) :: y in all)
            && all - seen == Emitted(Walk(g, todo, id, seen))
            && all <= g.Keys + seen
    decreases g.Keys - seen, |todo|, 0
  {
    hide Walk, Emitted, Edges, Follows;
    var x := todo[0].target;
    var own, stack := Step(g, todo, id, seen);
    WalkIsClosed(g, stack, id + 1, seen + {x});
    var rest := Walk(g, stack, id + 1, seen + {x});
    EmittedCons(own, rest);
    var all := seen + {x} + Emitted(rest);
    assert all == seen + Emitted([own] + rest);
    forall i | 0 <= i < |todo|
      ensures todo[i].target in all
    {
      if i > 0 {
        assert stack[|Edges(g[x], id)| + i - 1] == todo[i];
      }
    }
    forall y | Follows(g[x], y)
      ensures y in all
    {
      FollowsIsEdge(g[x], id, y);
      var i :| 0 <= i < |Edges(g[x], id)| && Edges(g[x], id)[i].target == y;
      assert stack[i].target == y;
    }
  }

  lemma {:induction false} PathStaysInside(g: Graph, p: seq<Id>, inside: set<Id>)
    requires IsPath(g, p) && p[0] in inside
    requires forall x, y | x in inside && x in g && Follows(g[x], y) :: y in inside
    ensures p[|p| - 1] in inside
  {
    if |p| > 1 {
      var init := p[..|p| - 1];
      assert forall i | 0 <= i < |init| :: init[i] == p[i];
      PathStaysInside(g, init, inside);
      assert Follows(g[p[|p| - 2]], p[|p| - 1]);
    }
  }

  lemma ReachableStep(g: Graph, x: Id, y: Id, z: Id)
    requires Closed(g) && x in g && Follows(g[x], y) && Reachable(g, y, z)
    ensures Reachable(g, x, z)
  {
    var p :| IsPath(g, p) && p[0] == y && p[|p| - 1] == z;
    var q := [x] + p;
    assert IsPath(g, q) && q[0] == x && q[|q| - 1] == z;
  }

  /** Whatever is emitted is reachable from a target on the stack. */
  lemma {:induction false} WalkIsSound(g: Graph, todo: seq<Edge>, id: nat, seen: set<Id>, z: Id)
    requires Closed(g) && In(g, todo)
    requires z in Emitted(Walk(g, todo, id, seen))
    ensures exists i :: 0 <= i < |todo| && Reachable(g, todo[i].target, z)
    decreases g.Keys - seen, |todo|
  {
    assert todo != [];
    if todo[0].target in seen {
      WalkIsSound(g, todo[1..], id, seen, z);
      var i :| 0 <= i < |todo[1..]| && Reachable(g, todo[1..][i].target, z);
      assert Reachable(g, todo[i + 1].target, z);
    } else {
      WalkIsSoundStep(g, todo, id, seen, z);
    }
  }

  lemma WalkIsSoundStep(g: Graph, todo: seq<Edge>, id: nat, seen: set<Id>, z: Id)
    requires Closed(g) && In(g, todo) && todo != [] && todo[0].target !in seen
    requires z in Emitted(Walk(g, todo, id, seen))
    ensures exists i :: 0 <= i < |todo| && Reachable(g, todo[i].target, z)
    decreases g.Keys - seen, |todo|, 0
  {
    hide Walk, Emitted, Edges, Follows, Reachable;
    var x := todo[0].target;
    var own, stack := Step(g, todo, id, seen);
    var rest := Walk(g, stack, id + 1, seen + {x});
    EmittedCons(own, rest);
    if z == x {
      ReachesItself(g, x);
    } else {
      WalkIsSound(g, stack, id + 1, seen + {x}, z);
      var i :| 0 <= i < |stack| && Reachable(g, stack[i].target, z);
      var n := |Edges(g[x], id)|;
      if i < n {
        assert Edges(g[x], id)[i].target == stack[i].target;
        FollowsIsEdge(g[x], id, stack[i].target);
        ReachableStep(g, x, stack[i].target, z);
      } else {
        assert stack[i] == todo[i - n + 1];
      }
    }
  }

  lemma ReachesItself(g: Graph, x: Id)
    requires x in g
    ensures Reachable(g, x, x)
  {
    assert IsPath(g, [x]);
  }

  lemma {:induction false} WalkHasNoRepeats(g: Graph, todo: seq<Edge>, id: nat, seen: set<Id>)
    requires Closed(g) && In(g, todo)
    ensures NoRepeats(Walk(g, todo, id, seen))
    decreases g.Keys - seen, |todo|
  {
    if todo != [] && todo[0].target in seen {
      WalkHasNoRepeats(g, todo[1..], id, seen);
    } else if todo != [] {
      WalkHasNoRepeatsStep(g, todo, id, seen);
    }
  }

  lemma WalkHasNoRepeatsStep(g: Graph, todo: seq<Edge>, id: nat, seen: set<Id>)
    requires Closed(g) && In(g, todo) && todo != [] && todo[0].target !in seen
    ensures NoRepeats(Walk(g, todo, id, seen))
    decreases g.Keys - seen, |todo|, 0
  {
    hide Walk, Emitted, Edges, Follows;
    var x := todo[0].target;
    var own, stack := Step(g, todo, id, seen);
    WalkHasNoRepeats(g, stack, id + 1, seen + {x});
    WalkIsClosed(g, stack, id + 1, seen + {x});
    EmittedMeansEmits(Walk(g, stack, id + 1, seen + {x}), x);
  }

  /**
   * On any graph, cyclic or not, the list made for an exception holds exactly the exceptions
   * reachable from it through followed edges, each exactly once.
   */
  lemma EmitsExactlyReachable(g: Graph, root: Id)
    requires Closed(g) && root in g
    ensures var r := Walk(g, [Edge(root, 0, Root)], 0, {});
            && NoRepeats(r)
            && forall y :: Emits(r, y) <==> Reachable(g, root, y)
  {
    var todo := [Edge(root, 0, Root)];
    var r := Walk(g, todo, 0, {});
    WalkHasNoRepeats(g, todo, 0, {});
    WalkIsClosed(g, todo, 0, {});
    forall y
      ensures Emits(r, y) <==> Reachable(g, root, y)
    {
      EmittedMeansEmits(r, y);
      if y in Emitted(r) {
        WalkIsSound(g, todo, 0, {}, y);
      }
      if Reachable(g, root, y) {
        var p :| IsPath(g, p) && p[0] == root && p[|p| - 1] == y;
        assert todo[0].target in Emitted(r);
        PathStaysInside(g, p, Emitted(r));
      }
    }
  }

  // ---------------------------------------------------------------- numbering

  /** Ids run from the start without a gap, in list order. */
  lemma {:induction false} IdsAreConsecutive(g: Graph, todo: seq<Edge>, id: nat, seen: set<Id>, k: nat)
    requires Closed(g) && In(g, todo) && k < |Walk(g, todo, id, seen)|
    ensures Walk(g, todo, id, seen)[k].exceptionId == id + k
    decreases g.Keys - seen, |todo|
  {
    if todo[0].target in seen {
      IdsAreConsecutive(g, todo[1..], id, seen, k);
    } else if k > 0 {
      var own, stack := Step(g, todo, id, seen);
      IdsAreConsecutive(g, stack, id + 1, seen + {todo[0].target}, k - 1);
    }
  }

  /** Entry `c` was made for this edge. */
  ghost predicate MadeFor(c: Entry, e: Edge) {
    c == MakeEntry(Some(e.target), c.exceptionId, e.parentId, e.source)
  }

  /** Entry `c` was made for an edge of the exception in entry `owner`. */
  ghost predicate EdgeOf(g: Graph, owner: Entry, c: Entry) {
    && owner.exc.Some? && owner.exc.value in g
    && exists i :: 0 <= i < |Edges(g[owner.exc.value], owner.exceptionId)|
                   && MadeFor(c, Edges(g[owner.exc.value], owner.exceptionId)[i])
  }

  /** Every entry was made for an edge of the initial stack or for an edge of an earlier entry. */
  lemma {:induction false} EntryHasOrigin(g: Graph, todo: seq<Edge>, id: nat, seen: set<Id>, k: nat)
    requires Closed(g) && In(g, todo) && k < |Walk(g, todo, id, seen)|
    ensures var r := Walk(g, todo, id, seen);
            || (exists i :: 0 <= i < |todo| && MadeFor(r[k], todo[i]))
            || (exists j :: 0 <= j < k && EdgeOf(g, r[j], r[k]))
    decreases g.Keys - seen, |todo|
  {
    if todo[0].target in seen {
      EntryHasOrigin(g, todo[1..], id, seen, k);
      if i :| 0 <= i < |todo[1..]| && MadeFor(Walk(g, todo, id, seen)[k], todo[1..][i]) {
        assert MadeFor(Walk(g, todo, id, seen)[k], todo[i + 1]);
      }
    } else {
      EntryHasOriginStep(g, todo, id, seen, k);
    }
  }

  lemma EntryHasOriginStep(g: Graph, todo: seq<Edge>, id: nat, seen: set<Id>, k: nat)
    requires Closed(g) && In(g, todo) && k < |Walk(g, todo, id, seen)|
    requires todo != [] && todo[0].target !in seen
    ensures var r := Walk(g, todo, id, seen);
            || (exists i :: 0 <= i < |todo| && MadeFor(r[k], todo[i]))
            || (exists j :: 0 <= j < k && EdgeOf(g, r[j], r[k]))
    decreases g.Keys - seen, |todo|, 0
  {
    hide Walk, Edges;
    var x := todo[0].target;
    var own, stack := Step(g, todo, id, seen);
    var r, rest := Walk(g, todo, id, seen), Walk(g, stack, id + 1, seen + {x});
    if k == 0 {
      assert MadeFor(r[0], todo[0]);
    } else {
      EntryHasOrigin(g, stack, id + 1, seen + {x}, k - 1);
      var n := |Edges(g[x], id)|;
      if i :| 0 <= i < |stack| && MadeFor(rest[k - 1], stack[i]) {
        if i < n {
          assert MadeFor(r[k], Edges(g[x], id)[i]);
          assert EdgeOf(g, r[0], r[k]);
        } else {
          assert MadeFor(r[k], todo[i - n + 1]);
        }
      } else {
        var j :| 0 <= j < k - 1 && EdgeOf(g, rest[j], rest[k - 1]);
        assert EdgeOf(g, r[j + 1], r[k]);
      }
    }
  }

  ghost predicate OnlyMembers(todo: seq<Edge>) {
    forall i | 0 <= i < |todo| :: todo[i].source.Member?
  }

  /** The exception of entry `c` is the cause or context of the one in entry `owner`. */
  ghost predicate NextOf(g: Graph, owner: Entry, c: Entry) {
    && owner.exc.Some? && owner.exc.value in g && g[owner.exc.value].truthy
    && Next(g[owner.exc.value]) == c.exc
    && c.source == if g[owner.exc.value].suppress then Cause else Context
  }

  /** Pre-order: a cause or context comes right after the exception it belongs to. */
  lemma {:induction false} NextComesRightAfter(g: Graph, todo: seq<Edge>, id: nat, seen: set<Id>, k: nat)
    requires Closed(g) && In(g, todo) && 0 < k < |Walk(g, todo, id, seen)|
    requires todo != [] && OnlyMembers(todo[1..])
    requires !Walk(g, todo, id, seen)[k].source.Member?
    ensures NextOf(g, Walk(g, todo, id, seen)[k - 1], Walk(g, todo, id, seen)[k])
    decreases g.Keys - seen, |todo|
  {
    if todo[0].target in seen {
      assert OnlyMembers(todo[1..][1..]);
      NextComesRightAfter(g, todo[1..], id, seen, k);
    } else {
      var x := todo[0].target;
      var own, stack := Step(g, todo, id, seen);
      var r, rest := Walk(g, todo, id, seen), Walk(g, stack, id + 1, seen + {x});
      StackBelowNext(g[x], id, todo[1..]);
      assert rest[k - 1] == r[k];
      if k > 1 {
        assert rest[k - 2] == r[k - 1];
        NextComesRightAfter(g, stack, id + 1, seen + {x}, k - 1);
      } else {
        FirstEntry(g, stack, id + 1, seen + {x});
      }
    }
  }

  /** Below the edge to a cause or context there are only edges to members. */
  lemma StackBelowNext(e: Exc, id: nat, todo: seq<Edge>)
    requires OnlyMembers(todo)
    ensures var stack := Edges(e, id) + todo;
            && (stack != [] ==> OnlyMembers(stack[1..]))
            && (stack != [] && !stack[0].source.Member? ==> NextEdges(e) == [stack[0]])
  {
    var stack, n := Edges(e, id) + todo, |NextEdges(e)|;
    assert stack[n..] == MemberEdges(e, id) + todo;
    assert OnlyMembers(stack[n..]);
    if n == 0 && stack != [] {
      assert stack[1..] == stack[n..][1..];
    }
  }

  /** The first entry was made for the first edge if that is not for a group member. */
  lemma {:induction false} FirstEntry(g: Graph, todo: seq<Edge>, id: nat, seen: set<Id>)
    requires Closed(g) && In(g, todo) && 0 < |Walk(g, todo, id, seen)|
    requires todo != [] && OnlyMembers(todo[1..])
    ensures Walk(g, todo, id, seen)[0].source.Member? || MadeFor(Walk(g, todo, id, seen)[0], todo[0])
    decreases |todo|
  {
    if todo[0].target in seen {
      assert OnlyMembers(todo[1..][1..]);
      FirstEntry(g, todo[1..], id, seen);
    }
  }

  /**
   * The numbering of a whole list.  Entry k has id k.  The root has no parent; a group member's
   * parent is the id of an earlier entry whose group holds it at that index; a cause or context
   * comes right after its exception and always has parent 0, whatever that exception's id.
   */
  lemma NumberingIsPreOrder(g: Graph, root: Id, k: nat)
    requires Closed(g) && root in g
    requires k < |Walk(g, [Edge(root, 0, Root)], 0, {})|
    ensures var r := Walk(g, [Edge(root, 0, Root)], 0, {});
            && r[k].exceptionId == k
            && (k == 0 ==> r[k] == Entry(Some(root), 0, None, Root))
            && (k > 0 ==> r[k].parentId.Some? && r[k].parentId.value < k)
            && (k > 0 && r[k].source.Member? ==>
                  var owner := r[r[k].parentId.value];
                  && owner.exc.Some? && owner.exc.value in g
                  && r[k].source.index < |g[owner.exc.value].members|
                  && r[k].exc == Some(g[owner.exc.value].members[r[k].source.index]))
            && (k > 0 && !r[k].source.Member? ==> NextOf(g, r[k - 1], r[k]) && r[k].parentId == Some(0))
  {
    var todo := [Edge(root, 0, Root)];
    var r := Walk(g, todo, 0, {});
    IdsAreConsecutive(g, todo, 0, {}, k);
    if k == 0 {
      assert todo[0].target !in {};
    } else {
      var j := OriginOfEntry(g, root, k);
      if !r[k].source.Member? {
        NextComesRightAfter(g, todo, 0, {}, k);
      }
    }
  }

  /** Members of one group are on the stack in their order, and their group has its number already. */
  ghost predicate InOrder(todo: seq<Edge>, id: nat) {
    && (forall i | 0 <= i < |todo| && todo[i].source.Member? :: todo[i].parentId < id)
    && forall i, j | 0 <= i < j < |todo| && Siblings(todo[i], todo[j]) :: todo[i].source.index < todo[j].source.index
  }

  ghost predicate Siblings(a: Edge, b: Edge) {
    a.source.Member? && b.source.Member? && a.parentId == b.parentId
  }

  lemma EdgesStayInOrder(e: Exc, todo: seq<Edge>, id: nat)
    requires todo != [] && InOrder(todo, id)
    ensures InOrder(Edges(e, id) + todo[1..], id + 1)
  {
    var n := |Edges(e, id)|;
    var stack := Edges(e, id) + todo[1..];
    assert forall i | n <= i < |stack| :: stack[i] == todo[1 + i - n];
  }

  /** The members of a group come in their order. */
  lemma {:induction false} MembersComeInOrder(g: Graph, todo: seq<Edge>, id: nat, seen: set<Id>, a: nat, b: nat)
    requires Closed(g) && In(g, todo) && InOrder(todo, id) && a < b < |Walk(g, todo, id, seen)|
    requires var (x, y) := (Walk(g, todo, id, seen)[a], Walk(g, todo, id, seen)[b]);
             x.source.Member? && y.source.Member? && x.parentId == y.parentId
    ensures Walk(g, todo, id, seen)[a].source.index < Walk(g, todo, id, seen)[b].source.index
    decreases g.Keys - seen, |todo|
  {
    hide Edges, InOrder;
    var r := Walk(g, todo, id, seen);
    if todo[0].target in seen {
      assert InOrder(todo[1..], id) by { TailInOrder(todo, id); }
      MembersComeInOrder(g, todo[1..], id, seen, a, b);
    } else {
      var own, stack := Step(g, todo, id, seen);
      EdgesStayInOrder(g[todo[0].target], todo, id);
      var rest := Walk(g, stack, id + 1, seen + {todo[0].target});
      assert r[b] == rest[b - 1];
      if a > 0 {
        assert r[a] == rest[a - 1];
        MembersComeInOrder(g, stack, id + 1, seen + {todo[0].target}, a - 1, b - 1);
      } else {
        FirstMemberComesFirst(g, todo, id, seen, b);
      }
    }
  }

  /** In a whole list, an exception that comes from a group is preceded by the members before it, if at all. */
  lemma GroupsComeInOrder(g: Graph, root: Id, a: nat, b: nat)
    requires Closed(g) && root in g && a < b < |Walk(g, [Edge(root, 0, Root)], 0, {})|
    ensures var r := Walk(g, [Edge(root, 0, Root)], 0, {});
            r[a].source.Member? && r[b].source.Member? && r[a].parentId == r[b].parentId ==>
              r[a].source.index < r[b].source.index
  {
    hide Walk;
    var r := Walk(g, [Edge(root, 0, Root)], 0, {});
    if r[a].source.Member? && r[b].source.Member? && r[a].parentId == r[b].parentId {
      MembersComeInOrder(g, [Edge(root, 0, Root)], 0, {}, a, b);
    }
  }

  lemma TailInOrder(todo: seq<Edge>, id: nat)
    requires todo != [] && InOrder(todo, id)
    ensures InOrder(todo[1..], id)
  {
  }

  lemma FirstMemberComesFirst(g: Graph, todo: seq<Edge>, id: nat, seen: set<Id>, b: nat)
    requires Closed(g) && In(g, todo) && InOrder(todo, id) && todo != [] && todo[0].target !in seen
    requires 0 < b < |Walk(g, todo, id, seen)|
    requires var (x, y) := (Walk(g, todo, id, seen)[0], Walk(g, todo, id, seen)[b]);
             x.source.Member? && y.source.Member? && x.parentId == y.parentId
    ensures Walk(g, todo, id, seen)[0].source.index < Walk(g, todo, id, seen)[b].source.index
  {
    hide Walk, Edges;
    var r := Walk(g, todo, id, seen);
    var own, stack := Step(g, todo, id, seen);
    EntryHasOrigin(g, todo, id, seen, b);
    IdsAreConsecutive(g, todo, id, seen, b);
    WalkHasNoRepeats(g, todo, id, seen);
    if i :| 0 <= i < |todo| && MadeFor(r[b], todo[i]) {
      assert i > 0;
      assert Siblings(todo[0], todo[i]);
    } else {
      var j :| 0 <= j < b && EdgeOf(g, r[j], r[b]);
      IdsAreConsecutive(g, todo, id, seen, j);
      MemberHasOwner(g, r[j], r[b]);
    }
  }

  lemma MemberHasOwner(g: Graph, owner: Entry, c: Entry)
    requires EdgeOf(g, owner, c) && c.source.Member? && c.exceptionId > 0
    ensures c.parentId == Some(owner.exceptionId)
  {
  }

  lemma OriginOfEntry(g: Graph, root: Id, k: nat) returns (j: nat)
    requires Closed(g) && root in g
    requires 0 < k < |Walk(g, [Edge(root, 0, Root)], 0, {})|
    ensures var r := Walk(g, [Edge(root, 0, Root)], 0, {});
            && j < k && r[j].exc.Some? && r[j].exc.value in g
            && var e := g[r[j].exc.value];
               if r[k].source.Member? then
                 && r[k].parentId == Some(j)
                 && r[k].source.index < |e.members| && r[k].exc == Some(e.members[r[k].source.index])
               else
                 r[k].parentId == Some(0)
  {
    hide Walk, Edges, Closed;
    var todo := [Edge(root, 0, Root)];
    var r := Walk(g, todo, 0, {});
    RestIsNotRoot(g, root, k);
    IdsAreConsecutive(g, todo, 0, {}, k);
    EntryHasOrigin(g, todo, 0, {}, k);
    j :| 0 <= j < k && EdgeOf(g, r[j], r[k]);
    IdsAreConsecutive(g, todo, 0, {}, j);
    var e := g[r[j].exc.value];
    var i :| 0 <= i < |Edges(e, j)| && MadeFor(r[k], Edges(e, j)[i]);
    EdgeFacts(e, j, i);
  }

  lemma EdgeFacts(e: Exc, own: nat, i: nat)
    requires i < |Edges(e, own)|
    ensures var edge := Edges(e, own)[i];
            if edge.source.Member? then
              && edge.parentId == own
              && edge.source.index < |e.members| && edge.target == e.members[edge.source.index]
            else
              edge.parentId == 0
  {
    if i >= |NextEdges(e)| {
      assert Edges(e, own)[i] == MemberEdges(e, own)[i - |NextEdges(e)|];
    }
  }

  lemma RestIsNotRoot(g: Graph, root: Id, k: nat)
    requires Closed(g) && root in g
    requires 0 < k < |Walk(g, [Edge(root, 0, Root)], 0, {})|
    ensures var r := Walk(g, [Edge(root, 0, Root)], 0, {});
            r[k].exc != Some(root)
  {
    var todo := [Edge(root, 0, Root)];
    WalkHasNoRepeats(g, todo, 0, {});
    assert Walk(g, todo, 0, {})[0].exc == Some(root);
  }

  // ---------------------------------------------------------------- against the plain chain

  function Excs(r: seq<Entry>): seq<Option<Id>> {
    if r == [] then [] else [r[0].exc] + Excs(r[1..])
  }

  function Somes(c: seq<Id>): seq<Option<Id>> {
    if c == [] then [] else [Some(c[0])] + Somes(c[1..])
  }

  /** Up to and including the first exception whose `bool` is false. */
  function UpToFalsy(g: Graph, c: seq<Id>): seq<Id>
    requires forall x <- c :: x in g
  {
    if c == [] then []
    else if !g[c[0]].truthy then [c[0]]
    else [c[0]] + UpToFalsy(g, c[1..])
  }

  lemma {:induction false} WalkIsChain(g: Graph, todo: seq<Edge>, id: nat, seen: set<Id>)
    requires Closed(g) && In(g, todo) && |todo| <= 1
    requires var c := Chain(g, if todo == [] then None else Some(todo[0].target), seen);
             forall x <- c :: g[x].members == []
    ensures var c := Chain(g, if todo == [] then None else Some(todo[0].target), seen);
            Excs(Walk(g, todo, id, seen)) == Somes(UpToFalsy(g, c))
    decreases g.Keys - seen
  {
    if todo == [] {
    } else if todo[0].target in seen {
      assert todo[1..] == [];
    } else {
      WalkIsChainStep(g, todo[0], id, seen);
      assert todo == [todo[0]];
    }
  }

  lemma ExcsCons(e: Entry, rest: seq<Entry>)
    ensures Excs([e] + rest) == [e.exc] + Excs(rest)
  {
    assert ([e] + rest)[1..] == rest;
  }

  lemma SomesCons(x: Id, rest: seq<Id>)
    ensures Somes([x] + rest) == [Some(x)] + Somes(rest)
  {
    assert ([x] + rest)[1..] == rest;
  }

  lemma ChainCons(g: Graph, x: Id, seen: set<Id>) returns (tail: seq<Id>)
    requires Closed(g) && x in g && x !in seen
    ensures tail == Chain(g, Next(g[x]), seen + {x})
    ensures var c := Chain(g, Some(x), seen);
            && x in c && (forall y <- tail :: y in c)
            && UpToFalsy(g, c) == [x] + if g[x].truthy then UpToFalsy(g, tail) else []
  {
    tail := Chain(g, Next(g[x]), seen + {x});
    var c := Chain(g, Some(x), seen);
    assert c == [x] + tail && c[1..] == tail;
  }

  lemma WalkIsChainStep(g: Graph, e: Edge, id: nat, seen: set<Id>)
    requires Closed(g) && e.target in g && e.target !in seen
    requires forall x <- Chain(g, Some(e.target), seen) :: g[x].members == []
    ensures Excs(Walk(g, [e], id, seen)) == Somes(UpToFalsy(g, Chain(g, Some(e.target), seen)))
    decreases g.Keys - seen, 0
  {
    hide Walk, Excs, Somes, Chain, UpToFalsy;
    var x := e.target;
    var tail := ChainCons(g, x, seen);
    WalkEdge(g, e, id, seen);
    var edges := Edges(g[x], id);
    assert edges == NextEdges(g[x]);
    var rest := Walk(g, edges, id + 1, seen + {x});
    ExcsCons(MakeEntry(Some(x), id, e.parentId, e.source), rest);
    if g[x].truthy {
      WalkIsChain(g, edges, id + 1, seen + {x});
      SomesCons(x, UpToFalsy(g, tail));
    } else {
      WalkNothing(g, id + 1, seen + {x});
      SomesCons(x, []);
      assert [x] + [] == [x];
      NothingIsNothing();
    }
  }

  lemma NothingIsNothing()
    ensures Excs([]) == Somes([]) == []
  {
  }

  lemma {:induction false} UpToFalsyIsAll(g: Graph, c: seq<Id>)
    requires forall x <- c :: x in g
    ensures Somes(UpToFalsy(g, c)) == Somes(c) <==> forall i | 0 <= i < |c| - 1 :: g[c[i]].truthy
    ensures |Somes(c)| == |c|
  {
    if c != [] {
      UpToFalsyIsAll(g, c[1..]);
      assert forall i | 0 < i < |c| :: c[i] == c[1..][i - 1];
      if g[c[0]].truthy {
        assert ([c[0]] + UpToFalsy(g, c[1..]))[1..] == UpToFalsy(g, c[1..]);
        assert Somes(UpToFalsy(g, c)) == [Some(c[0])] + Somes(UpToFalsy(g, c[1..]));
        assert Somes(UpToFalsy(g, c))[1..] == Somes(UpToFalsy(g, c[1..]));
        assert Somes(c)[1..] == Somes(c[1..]);
      } else {
        assert |Somes(UpToFalsy(g, c))| == 1;
      }
    }
  }

  /**
   * Without groups on the chain, the walk yields what `walk_exception_chain` yields if and only if
   * every exception but the last of the chain is truthy: the chain never asks, the walk does.
   */
  lemma WalkMatchesChain(g: Graph, root: Id)
    requires Closed(g) && root in g
    requires forall x <- Chain(g, Some(root), {}) :: g[x].members == []
    ensures var c := Chain(g, Some(root), {});
            Excs(Walk(g, [Edge(root, 0, Root)], 0, {})) == Somes(c)
            <==> forall i | 0 <= i < |c| - 1 :: g[c[i]].truthy
  {
    WalkIsChain(g, [Edge(root, 0, Root)], 0, {});
    UpToFalsyIsAll(g, Chain(g, Some(root), {}));
  }

  /** An exception with a false `bool` hides its cause from the walk but not from the chain. */
  lemma FalsyExceptionHidesItsCause()
    ensures var g: Graph := map[0 := Exc(false, true, Some(1), None, [], false),
                                1 := Exc(true, false, None, None, [], false)];
            && Closed(g)
            && Chain(g, Some(0), {}) == [0, 1]
            && Excs(Walk(g, [Edge(0, 0, Root)], 0, {})) == [Some(0)]
  {
    var g: Graph := map[0 := Exc(false, true, Some(1), None, [], false),
                        1 := Exc(true, false, None, None, [], false)];
    assert Chain(g, None, {0, 1}) == [];
    assert Chain(g, Some(1), {0}) == [1] + Chain(g, None, {0} + {1});
    assert Chain(g, Some(0), {}) == [0] + Chain(g, Some(1), {} + {0});
    assert Closed(g);
    WalkIsChain(g, [Edge(0, 0, Root)], 0, {});
    assert UpToFalsy(g, [0, 1]) == [0];
    assert Somes([0]) == [Some(0)] + Somes([0][1..]);
  }
}
