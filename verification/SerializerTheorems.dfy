/** What the serializer promises about databags: where they are, how they are trimmed, that they end. */
module SerializerTheorems {
  import opened Options
  import opened MetaDict
  import opened SerializerSpec

  // ---------------------------------------------------------------- where databags are

  /** The path starts with `extra`, `request.data` or `breadcrumbs.values.*`. */
  ghost predicate InDatabag(path: seq<Segment>) {
    || [Name("extra")] <= path
    || [Name("request"), Name("data")] <= path
    || (|path| >= 3 && [Name("breadcrumbs"), Name("values")] <= path)
  }

  /** One more segment could still complete one of those prefixes. */
  ghost predicate MaySoonBe(path: seq<Segment>) {
    path <= [Name("request")] || path <= [Name("breadcrumbs"), Name("values")]
  }

  /** The decision made from the whole path. */
  ghost function Decision(c: Config, path: seq<Segment>): Option<bool> {
    if c.isVars || InDatabag(path) then Some(true)
    else if MaySoonBe(path) then None
    else Some(false)
  }

  ghost function BodyDecision(path: seq<Segment>): Option<bool> {
    if [Name("request"), Name("data")] <= path then Some(true)
    else if path <= [Name("request")] then None
    else Some(false)
  }

  /** The parameters reaching the node at `path`: the parent's decisions, and no limits before a databag. */
  ghost predicate Fits(c: Config, path: seq<Segment>, f: Flags) {
    && f.isDatabag == (if path == [] then None else Decision(c, path[..|path| - 1]))
    && f.isRequestBody == (if path == [] then None else BodyDecision(path[..|path| - 1]))
    && LimitsFit(c, f)
  }

  ghost predicate LimitsFit(c: Config, f: Flags) {
    if f.isDatabag != Some(true) then f.depth.Unset? && f.breadth.Unset?
    else if c.keepBodies && f.isRequestBody == Some(true) then f.depth.Infinite? && f.breadth.Infinite?
    else f.depth.Finite? && f.depth.n < MAX_DATABAG_DEPTH && f.breadth == Finite(MAX_DATABAG_BREADTH)
  }

  lemma PrefixOne(a: Segment, path: seq<Segment>)
    ensures [a] <= path <==> |path| >= 1 && path[0] == a
    ensures path <= [a] <==> path == [] || (|path| == 1 && path[0] == a)
  {
  }

  lemma PrefixTwo(a: Segment, b: Segment, path: seq<Segment>)
    ensures [a, b] <= path <==> |path| >= 2 && path[0] == a && path[1] == b
    ensures path <= [a, b] <==> |path| <= 2 && (|path| >= 1 ==> path[0] == a) && (|path| == 2 ==> path[1] == b)
  {
    assert |path| >= 2 ==> path[..2] == [path[0], path[1]];
  }

  lemma IsDatabagIsDecision(c: Config, path: seq<Segment>)
    ensures IsDatabag(c, path) == Decision(c, path)
    ensures IsRequestBody(path) == BodyDecision(path)
  {
    PrefixOne(Name("extra"), path);
    PrefixOne(Name("request"), path);
    PrefixTwo(Name("request"), Name("data"), path);
    PrefixTwo(Name("breadcrumbs"), Name("values"), path);
  }

  lemma DecisionsAreKept(c: Config, path: seq<Segment>, s: Segment)
    ensures Decision(c, path).Some? ==> Decision(c, path + [s]) == Decision(c, path)
    ensures BodyDecision(path).Some? ==> BodyDecision(path + [s]) == BodyDecision(path)
  {
    hide Decision, BodyDecision;
    IsDatabagIsDecision(c, path);
    IsDatabagIsDecision(c, path + [s]);
    assert forall i | 0 <= i < |path| :: (path + [s])[i] == path[i];
  }

  /** A node decides the same by inheritance as by looking at its whole path. */
  lemma InheritedDecisionIsWholePathDecision(c: Config, sh: Shape, path: seq<Segment>, f: Flags)
    requires Fits(c, path, f)
    ensures Resolve(c, sh, path, f).isDatabag == Decision(c, path)
    ensures Resolve(c, sh, path, f).isRequestBody == BodyDecision(path)
  {
    hide Decision, BodyDecision, IsDatabag, IsRequestBody;
    IsDatabagIsDecision(c, path);
    if path != [] {
      var init := path[..|path| - 1];
      assert path == init + [path[|path| - 1]];
      DecisionsAreKept(c, init, path[|path| - 1]);
    }
  }

  /**
   * Every node of a run gets fitting parameters: the root does, and a node that is not trimmed
   * passes them on, whatever segment leads to the child.
   */
  lemma EveryNodeFits(c: Config, sh: Shape, path: seq<Segment>, f: Flags, s: Segment)
    ensures Fits(c, [], NO_FLAGS)
    ensures Fits(c, path, f) && Resolve(c, sh, path, f).depth != Finite(0) ==>
              Fits(c, path + [s], ChildFlags(Resolve(c, sh, path, f)))
  {
    hide Decision, BodyDecision, Resolve, LimitsFit;
    RootLimitsFit(c);
    if Fits(c, path, f) && Resolve(c, sh, path, f).depth != Finite(0) {
      InheritedDecisionIsWholePathDecision(c, sh, path, f);
      assert (path + [s])[..|path|] == path;
      ChildLimitsFit(c, sh, path, f);
    }
  }

  lemma RootLimitsFit(c: Config)
    ensures LimitsFit(c, NO_FLAGS)
  {
  }

  lemma ChildLimitsFit(c: Config, sh: Shape, path: seq<Segment>, f: Flags)
    requires LimitsFit(c, f) && Resolve(c, sh, path, f).depth != Finite(0)
    ensures LimitsFit(c, ChildFlags(Resolve(c, sh, path, f)))
  {
  }

  // ---------------------------------------------------------------- trimming

  /** Parameters of a databag node that is subject to trimming, `d` levels from being cut off. */
  ghost predicate Trimmed(f: Flags, c: Config, d: nat) {
    && f.isDatabag == Some(true) && (c.keepBodies ==> f.isRequestBody == Some(false))
    && f.depth == Finite(d) && f.breadth == Finite(MAX_DATABAG_BREADTH)
  }

  lemma TrimmedStays(c: Config, sh: Shape, path: seq<Segment>, f: Flags, d: nat)
    requires Trimmed(f, c, d)
    ensures Trimmed(Resolve(c, sh, path, f), c, d)
    ensures d > 0 ==> Trimmed(ChildFlags(Resolve(c, sh, path, f)), c, d - 1)
  {
  }

  /** The state in which a node's body is entered: the object recorded, its metadata annotated. */
  function Entered(c: Config, obj: Ref, path: seq<Segment>, s: State): State
    requires obj in c.w.shapes
  {
    Flattening(c.w.shapes[obj], path, s.(ids := s.ids + {obj})).s
  }

  /** Everything a node annotates lies at or below its own path. */
  lemma {:induction false} NotesStayBelow(c: Config, obj: Ref, path: seq<Segment>, f: Flags, stack: nat, s: State)
    requires Closed(c.w) && obj in c.w.shapes
    ensures Below(Node(c, obj, path, f, stack, s).log, path)
    decreases stack, 0, 0
  {
    if stack > 0 && obj !in s.ids {
      var f' := Resolve(c, c.w.shapes[obj], path, f);
      NotesOfBodyStayBelow(c, Flattened(c, obj), path, f', stack - 1, Entered(c, obj, path, s));
    }
  }

  lemma NotesOfBodyStayBelow(c: Config, obj: Ref, path: seq<Segment>, f: Flags, stack: nat, s: State)
    requires Closed(c.w) && obj in c.w.shapes
    ensures Below(Body(c, obj, path, f, stack, s).log, path)
    decreases stack, 1, 1
  {
    hide Loop, Node;
    var sh := c.w.shapes[obj];
    if f.depth != Finite(0) && (sh.Mapping? || sh.Sequence?) {
      NotesOfLoopStayBelow(c, sh.Mapping?, Children(sh), 0, [], path, f, stack, s);
    }
  }

  ghost predicate Below(log: seq<Note>, path: seq<Segment>) {
    forall i | 0 <= i < |log| :: Strs(path) <= log[i].path
  }

  lemma {:induction false} NotesOfLoopStayBelow(c: Config, isMapping: bool, cs: seq<Child>, i: nat, kept: Kept,
                                                path: seq<Segment>, f: Flags, stack: nat, s: State)
    requires Closed(c.w) && Known(c, cs) && i <= |cs|
    ensures Below(Loop(c, isMapping, cs, i, kept, path, f, stack, s).log, path)
    decreases stack, 1, 0, |cs| - i
  {
    hide Node;
    if i < |cs| && !Reached(f.breadth, i) && cs[i].segment.Some? {
      var segment := cs[i].segment.value;
      NotesStayBelow(c, cs[i].ref, path + [segment], ChildFlags(f), stack, s);
      var o := Node(c, cs[i].ref, path + [segment], ChildFlags(f), stack, s);
      if o.res.Done? {
        NotesOfLoopStayBelow(c, isMapping, cs, i + 1, kept + [(segment, o.res.out)], path, f, stack, o.s);
      }
    }
  }

  /** The children kept are the first ones, as many as the breadth allows. */
  ghost predicate KeptPrefix(cs: seq<Child>, breadth: Limit, kept: Kept) {
    && |kept| == (if Reached(breadth, |cs|) then breadth.n else |cs|)
    && forall i | 0 <= i < |kept| :: i < |cs| && cs[i].segment == Some(kept[i].0)
  }

  /** The note left on a container that was cut short. */
  function CutNote(path: seq<Segment>, cs: seq<Child>): Note {
    Note(Strs(path), map["len" := Length(|cs|)])
  }

  ghost predicate NotedAt(log: seq<Note>, path: seq<Segment>) {
    exists i :: 0 <= i < |log| && log[i].path == Strs(path)
  }

  /**
   * A container whose serialization does not raise keeps a prefix of its children, and its length is
   * noted at its own path exactly if that prefix is not everything.
   */
  lemma {:induction false} LoopKeepsPrefix(c: Config, isMapping: bool, cs: seq<Child>, i: nat, kept: Kept,
                                           path: seq<Segment>, f: Flags, stack: nat, s: State) returns (all: Kept)
    requires Closed(c.w) && Known(c, cs) && i <= |cs|
    requires |kept| == i && forall k | 0 <= k < i :: cs[k].segment == Some(kept[k].0)
    requires !Reached(f.breadth, i) || i == f.breadth.n
    requires Loop(c, isMapping, cs, i, kept, path, f, stack, s).res.Done?
    ensures var o := Loop(c, isMapping, cs, i, kept, path, f, stack, s);
            && kept <= all && KeptPrefix(cs, f.breadth, all)
            && o.res == Done(Assemble(isMapping, all))
            && (NotedAt(o.log, path) <==> |all| < |cs|)
            && (|all| < |cs| ==> o.log != [] && o.log[|o.log| - 1] == CutNote(path, cs))
    decreases |cs| - i
  {
    hide Node, Assemble;
    var o := Loop(c, isMapping, cs, i, kept, path, f, stack, s);
    if i == |cs| || Reached(f.breadth, i) {
      all := kept;
      if i < |cs| {
        assert o.log[0].path == Strs(path);
      }
    } else {
      var segment := cs[i].segment.value;
      var first := Node(c, cs[i].ref, path + [segment], ChildFlags(f), stack, s);
      var kept' := kept + [(segment, first.res.out)];
      all := LoopKeepsPrefix(c, isMapping, cs, i + 1, kept', path, f, stack, first.s);
      var rest := Loop(c, isMapping, cs, i + 1, kept', path, f, stack, first.s);
      NotesStayBelow(c, cs[i].ref, path + [segment], ChildFlags(f), stack, s);
      NotedInTail(first.log, rest.log, path, segment);
    }
  }

  lemma NotedInTail(first: seq<Note>, rest: seq<Note>, path: seq<Segment>, segment: Segment)
    requires Below(first, path + [segment])
    ensures NotedAt(first + rest, path) <==> NotedAt(rest, path)
  {
    hide Strs;
    var p := Strs(path);
    forall i | 0 <= i < |first|
      ensures first[i].path != p
    {
      assert |path + [segment]| <= |first[i].path|;
    }
    if i :| 0 <= i < |first + rest| && (first + rest)[i].path == p {
      assert i >= |first|;
      assert rest[i - |first|].path == p;
    }
    if i :| 0 <= i < |rest| && rest[i].path == p {
      assert (first + rest)[|first| + i].path == p;
    }
  }

  // ---------------------------------------------------------------- size

  /** Number of values in a result. */
  function Size(out: Out): nat
    decreases out, 0
  {
    match out
    case Dict(pairs) => 1 + SizeOfPairs(pairs)
    case Lst(outs) => 1 + SizeOfOuts(outs)
    case _ => 1
  }

  function SizeOfPairs(pairs: seq<(string, Out)>): nat
    decreases pairs, 0
  {
    if pairs == [] then 0 else SizeOfPair(pairs[0]) + SizeOfPairs(pairs[1..])
  }

  function SizeOfPair(pair: (string, Out)): nat
    decreases pair, 0
  {
    Size(pair.1)
  }

  function SizeOfOuts(outs: seq<Out>): nat
    decreases outs, 0
  {
    if outs == [] then 0 else Size(outs[0]) + SizeOfOuts(outs[1..])
  }

  /** 1 + 10 + ... + 10^d */
  function Bound(d: nat): nat {
    if d == 0 then 1 else 1 + MAX_DATABAG_BREADTH * Bound(d - 1)
  }

  ghost predicate AllWithin(kept: Kept, b: nat) {
    forall i | 0 <= i < |kept| :: Size(kept[i].1) <= b
  }

  lemma {:induction false} SizeAfterPut(pairs: seq<(string, Out)>, key: string, out: Out)
    ensures SizeOfPairs(Put(pairs, key, out)) <= SizeOfPairs(pairs) + Size(out)
  {
    if pairs != [] {
      var rest := pairs[1..];
      if pairs[0].0 == key {
        assert ([(key, out)] + rest)[1..] == rest;
      } else {
        SizeAfterPut(rest, key, out);
        assert ([pairs[0]] + Put(rest, key, out))[1..] == Put(rest, key, out);
      }
    } else {
      assert SizeOfPairs([(key, out)]) == Size(out) + SizeOfPairs([(key, out)][1..]);
    }
  }

  lemma {:induction false} SizeOfDict(kept: Kept, b: nat)
    requires AllWithin(kept, b)
    ensures SizeOfPairs(DictOf(kept)) <= Times(|kept|, b)
  {
    hide Size, SizeOfPairs;
    if kept == [] {
      NoPairs();
    } else {
      var n := |kept| - 1;
      SizeOfDict(kept[..n], b);
      SizeAfterPut(DictOf(kept[..n]), StrOf(kept[n].0), kept[n].1);
    }
  }

  lemma NoPairs()
    ensures SizeOfPairs([]) == 0
  {
  }

  lemma {:induction false} SizeOfList(kept: Kept, b: nat)
    requires AllWithin(kept, b)
    ensures SizeOfOuts(OutsOf(kept)) <= Times(|kept|, b)
  {
    if kept != [] {
      SizeOfList(kept[1..], b);
      assert OutsOf(kept)[1..] == OutsOf(kept[1..]);
    }
  }

  /** n * b */
  function Times(n: nat, b: nat): nat {
    if n == 0 then 0 else Times(n - 1, b) + b
  }

  lemma {:induction false} TimesMonotone(m: nat, n: nat, b: nat)
    requires m <= n
    ensures Times(m, b) <= Times(n, b)
  {
    if m < n {
      TimesMonotone(m, n - 1, b);
    }
  }

  lemma {:induction false} TimesIsProduct(n: nat, b: nat)
    ensures Times(n, b) == n * b
  {
    if n > 0 {
      TimesIsProduct(n - 1, b);
    }
  }

  lemma SizeOfContainer(isMapping: bool, kept: Kept, b: nat)
    requires AllWithin(kept, b) && |kept| <= MAX_DATABAG_BREADTH
    ensures Size(Assemble(isMapping, kept)) <= 1 + MAX_DATABAG_BREADTH * b
  {
    hide Times, DictOf;
    SizeOfDict(kept, b);
    SizeOfList(kept, b);
    TimesMonotone(|kept|, MAX_DATABAG_BREADTH, b);
    TimesIsProduct(MAX_DATABAG_BREADTH, b);
  }

  lemma {:induction false} TrimmedNodeIsSmall(c: Config, obj: Ref, path: seq<Segment>, f: Flags, stack: nat,
                                              s: State, d: nat)
    requires Closed(c.w) && obj in c.w.shapes && stack > 0 && Trimmed(f, c, d)
    ensures Size(Node(c, obj, path, f, stack, s).res.out) <= Bound(d)
    decreases stack, 0, 0
  {
    if obj !in s.ids {
      TrimmedStays(c, c.w.shapes[obj], path, f, d);
      TrimmedBodyIsSmall(c, Flattened(c, obj), path, Resolve(c, c.w.shapes[obj], path, f), stack - 1,
                         Entered(c, obj, path, s), d);
    }
  }

  lemma TrimmedBodyIsSmall(c: Config, obj: Ref, path: seq<Segment>, f: Flags, stack: nat, s: State, d: nat)
    requires Closed(c.w) && obj in c.w.shapes && Trimmed(f, c, d)
    ensures var r := Body(c, obj, path, f, stack, s).res;
            r.Done? ==> Size(r.out) <= Bound(d)
    decreases stack, 1, 1
  {
    hide Node, Loop;
    var sh := c.w.shapes[obj];
    if d > 0 && (sh.Mapping? || sh.Sequence?) {
      TrimmedLoopIsSmall(c, sh.Mapping?, Children(sh), 0, [], path, f, stack, s, d);
    }
  }

  lemma {:induction false} TrimmedLoopIsSmall(c: Config, isMapping: bool, cs: seq<Child>, i: nat, kept: Kept,
                                              path: seq<Segment>, f: Flags, stack: nat, s: State, d: nat)
    requires Closed(c.w) && Known(c, cs) && i <= |cs| && d > 0 && Trimmed(f, c, d)
    requires |kept| == i <= MAX_DATABAG_BREADTH && AllWithin(kept, Bound(d - 1))
    ensures var r := Loop(c, isMapping, cs, i, kept, path, f, stack, s).res;
            r.Done? ==> Size(r.out) <= Bound(d)
    decreases stack, 1, 0, |cs| - i
  {
    hide Node, Assemble, Size;
    if i == |cs| || Reached(f.breadth, i) {
      SizeOfContainer(isMapping, kept, Bound(d - 1));
    } else if cs[i].segment.Some? && stack > 0 {
      var segment := cs[i].segment.value;
      var first := Node(c, cs[i].ref, path + [segment], ChildFlags(f), stack, s);
      TrimmedNodeIsSmall(c, cs[i].ref, path + [segment], ChildFlags(f), stack, s, d - 1);
      TrimmedLoopIsSmall(c, isMapping, cs, i + 1, kept + [(segment, first.res.out)], path, f, stack, first.s, d);
    } else if cs[i].segment.Some? {
      assert Node(c, cs[i].ref, path + [cs[i].segment.value], ChildFlags(f), stack, s).res.Raised?
        by { NoStackRaises(c, cs[i].ref, path + [cs[i].segment.value], ChildFlags(f), s); }
    }
  }

  lemma NoStackRaises(c: Config, obj: Ref, path: seq<Segment>, f: Flags, s: State)
    requires Closed(c.w) && obj in c.w.shapes
    ensures Node(c, obj, path, f, 0, s) == Outcome(Raised, [], s)
  {
  }

  /** At a node that fits, inside a databag that is trimmed, at most five more levels follow. */
  lemma DatabagLimits(c: Config, sh: Shape, path: seq<Segment>, f: Flags) returns (d: nat)
    requires Fits(c, path, f) && Decision(c, path) == Some(true)
    requires c.keepBodies ==> BodyDecision(path) == Some(false)
    ensures d <= MAX_DATABAG_DEPTH && Trimmed(Resolve(c, sh, path, f), c, d)
    ensures path == [] || Decision(c, path[..|path| - 1]) != Some(true) ==> d == MAX_DATABAG_DEPTH
  {
    hide Decision, BodyDecision, IsDatabag, IsRequestBody;
    InheritedDecisionIsWholePathDecision(c, sh, path, f);
    if path != [] {
      var init, s := path[..|path| - 1], path[|path| - 1];
      assert path == init + [s];
      DecisionsAreKept(c, init, s);
    }
    d := Resolve(c, sh, path, f).depth.n;
  }

  /**
   * A databag comes out with at most 1 + 10 + ... + 10^5 = 111111 values, whatever went in.
   */
  lemma DatabagIsSmall(c: Config, obj: Ref, path: seq<Segment>, f: Flags, stack: nat, s: State)
    requires Closed(c.w) && obj in c.w.shapes && stack > 0
    requires Fits(c, path, f) && Decision(c, path) == Some(true)
    requires c.keepBodies ==> BodyDecision(path) == Some(false)
    ensures Size(Node(c, obj, path, f, stack, s).res.out) <= 111_111
  {
    hide Decision, BodyDecision, Fits, Body, Bound;
    if obj !in s.ids {
      var d := DatabagLimits(c, c.w.shapes[obj], path, f);
      TrimmedBodyIsSmall(c, Flattened(c, obj), path, Resolve(c, c.w.shapes[obj], path, f), stack - 1,
                         Entered(c, obj, path, s), d);
      BoundIsMonotone(d, 5);
      BoundAtFive();
    }
  }

  lemma BoundAtFive()
    ensures Bound(5) == 111_111
  {
    assert Bound(1) == 11 && Bound(2) == 111 && Bound(3) == 1_111;
  }

  lemma {:induction false} BoundIsMonotone(m: nat, n: nat)
    requires m <= n
    ensures Bound(m) <= Bound(n)
  {
    if m < n {
      BoundIsMonotone(m, n - 1);
    }
  }

  /** A container in a databag keeps its first ten children, and its length is noted iff it had more. */
  lemma DatabagContainerKeepsTen(c: Config, obj: Ref, path: seq<Segment>, f: Flags, stack: nat, s: State, d: nat)
    returns (kept: Kept)
    requires Closed(c.w) && obj in c.w.shapes && (c.w.shapes[obj].Mapping? || c.w.shapes[obj].Sequence?)
    requires d > 0 && Trimmed(f, c, d) && Body(c, obj, path, f, stack, s).res.Done?
    ensures var cs, o := Children(c.w.shapes[obj]), Body(c, obj, path, f, stack, s);
            && |kept| == (if |cs| < 10 then |cs| else 10)
            && (forall i | 0 <= i < |kept| :: cs[i].segment == Some(kept[i].0))
            && o.res == Done(Assemble(c.w.shapes[obj].Mapping?, kept))
            && (NotedAt(o.log, path) <==> |cs| > 10)
            && (|cs| > 10 ==> o.log != [] && o.log[|o.log| - 1] == CutNote(path, cs))
  {
    hide Loop;
    var sh := c.w.shapes[obj];
    kept := LoopKeepsPrefix(c, sh.Mapping?, Children(sh), 0, [], path, f, stack, s);
  }

  // ---------------------------------------------------------------- termination

  /** With more frames than levels left, the result does not depend on the number of frames. */
  lemma {:induction false} TrimmedNodeNeverHitsLimit(c: Config, obj: Ref, path: seq<Segment>, f: Flags,
                                                     s1: nat, s2: nat, s: State, d: nat)
    requires Closed(c.w) && obj in c.w.shapes && Trimmed(f, c, d) && s1 > d && s2 > d
    ensures Node(c, obj, path, f, s1, s) == Node(c, obj, path, f, s2, s)
    decreases d, 2, 0
  {
    if obj !in s.ids {
      TrimmedStays(c, c.w.shapes[obj], path, f, d);
      BodyNeverHitsLimit(c, Flattened(c, obj), path, Resolve(c, c.w.shapes[obj], path, f), s1 - 1, s2 - 1,
                         Entered(c, obj, path, s), d);
    }
  }

  lemma BodyNeverHitsLimit(c: Config, obj: Ref, path: seq<Segment>, f: Flags, s1: nat, s2: nat, s: State, d: nat)
    requires Closed(c.w) && obj in c.w.shapes && Trimmed(f, c, d) && s1 >= d && s2 >= d
    ensures Body(c, obj, path, f, s1, s) == Body(c, obj, path, f, s2, s)
    decreases d, 1, 1
  {
    hide Loop;
    var sh := c.w.shapes[obj];
    if d > 0 && (sh.Mapping? || sh.Sequence?) {
      LoopNeverHitsLimit(c, sh.Mapping?, Children(sh), 0, [], path, f, s1, s2, s, d);
    }
  }

  lemma {:induction false} LoopNeverHitsLimit(c: Config, isMapping: bool, cs: seq<Child>, i: nat, kept: Kept,
                                              path: seq<Segment>, f: Flags, s1: nat, s2: nat, s: State, d: nat)
    requires Closed(c.w) && Known(c, cs) && i <= |cs| && d > 0 && Trimmed(f, c, d) && s1 >= d && s2 >= d
    ensures Loop(c, isMapping, cs, i, kept, path, f, s1, s) == Loop(c, isMapping, cs, i, kept, path, f, s2, s)
    decreases d, 1, 0, |cs| - i
  {
    hide Node;
    if i < |cs| && !Reached(f.breadth, i) && cs[i].segment.Some? {
      var segment := cs[i].segment.value;
      TrimmedNodeNeverHitsLimit(c, cs[i].ref, path + [segment], ChildFlags(f), s1, s2, s, d - 1);
      var o := Node(c, cs[i].ref, path + [segment], ChildFlags(f), s1, s);
      if o.res.Done? {
        LoopNeverHitsLimit(c, isMapping, cs, i + 1, kept + [(segment, o.res.out)], path, f, s1, s2, o.s, d);
      }
    }
  }

  /**
   * A databag that is trimmed ends by itself on any graph of objects, from its top as from any node
   * in it: with more than five frames the result does not depend on their number, so none is refused.
   */
  lemma DatabagNeverHitsRecursionLimit(c: Config, obj: Ref, path: seq<Segment>, f: Flags, s1: nat, s2: nat, s: State)
    requires Closed(c.w) && obj in c.w.shapes && s1 > MAX_DATABAG_DEPTH && s2 > MAX_DATABAG_DEPTH
    requires Fits(c, path, f) && Decision(c, path) == Some(true)
    requires c.keepBodies ==> BodyDecision(path) == Some(false)
    ensures Node(c, obj, path, f, s1, s) == Node(c, obj, path, f, s2, s)
  {
    hide Decision, BodyDecision, Fits, Body, Resolve;
    if obj !in s.ids {
      var d := DatabagLimits(c, c.w.shapes[obj], path, f);
      BodyNeverHitsLimit(c, Flattened(c, obj), path, Resolve(c, c.w.shapes[obj], path, f), s1 - 1, s2 - 1,
                         Entered(c, obj, path, s), d);
    }
  }

  /** Children, and what an `AnnotatedValue` wraps, rank below their container. */
  ghost predicate Ranked(w: World, rank: Ref -> nat) {
    forall r <- w.shapes ::
      match w.shapes[r]
      case Mapping(es) => forall i | 0 <= i < |es| :: rank(es[i].1) < rank(r)
      case Sequence(items) => forall i | 0 <= i < |items| :: rank(items[i]) < rank(r)
      case Annotated(v, _) => rank(v) < rank(r)
      case _ => true
  }

  /** On acyclic objects the walk ends by itself everywhere, databag or not. */
  lemma {:induction false} AcyclicNeverHitsRecursionLimit(c: Config, rank: Ref -> nat, obj: Ref, path: seq<Segment>,
                                                          f: Flags, s1: nat, s2: nat, s: State)
    requires Closed(c.w) && obj in c.w.shapes && Ranked(c.w, rank) && s1 > rank(obj) && s2 > rank(obj)
    ensures Node(c, obj, path, f, s1, s) == Node(c, obj, path, f, s2, s)
    decreases rank(obj), 2, 0
  {
    hide Body;
    if obj !in s.ids {
      var obj' := Flattened(c, obj);
      assert rank(obj') <= rank(obj);
      AcyclicBody(c, rank, obj', path, Resolve(c, c.w.shapes[obj], path, f), s1 - 1, s2 - 1, Entered(c, obj, path, s));
    }
  }

  lemma AcyclicBody(c: Config, rank: Ref -> nat, obj: Ref, path: seq<Segment>, f: Flags, s1: nat, s2: nat, s: State)
    requires Closed(c.w) && obj in c.w.shapes && Ranked(c.w, rank) && s1 >= rank(obj) && s2 >= rank(obj)
    ensures Body(c, obj, path, f, s1, s) == Body(c, obj, path, f, s2, s)
    decreases rank(obj), 1, 1
  {
    hide Loop;
    var sh := c.w.shapes[obj];
    if f.depth != Finite(0) && (sh.Mapping? || sh.Sequence?) {
      AcyclicLoop(c, rank, obj, sh.Mapping?, Children(sh), 0, [], path, f, s1, s2, s);
    }
  }

  lemma {:induction false} AcyclicLoop(c: Config, rank: Ref -> nat, obj: Ref, isMapping: bool, cs: seq<Child>, i: nat,
                                       kept: Kept, path: seq<Segment>, f: Flags, s1: nat, s2: nat, s: State)
    requires Closed(c.w) && Ranked(c.w, rank) && Known(c, cs) && i <= |cs| && s1 >= rank(obj) && s2 >= rank(obj)
    requires forall k | 0 <= k < |cs| :: rank(cs[k].ref) < rank(obj)
    ensures Loop(c, isMapping, cs, i, kept, path, f, s1, s) == Loop(c, isMapping, cs, i, kept, path, f, s2, s)
    decreases rank(obj), 1, 0, |cs| - i
  {
    hide Node, Ranked, Closed;
    if i < |cs| && !Reached(f.breadth, i) && cs[i].segment.Some? {
      var segment := cs[i].segment.value;
      AcyclicNeverHitsRecursionLimit(c, rank, cs[i].ref, path + [segment], ChildFlags(f), s1, s2, s);
      var o := Node(c, cs[i].ref, path + [segment], ChildFlags(f), s1, s);
      if o.res.Done? {
        AcyclicLoop(c, rank, obj, isMapping, cs, i + 1, kept + [(segment, o.res.out)], path, f, s1, s2, o.s);
      }
    }
  }

  // ---------------------------------------------------------------- indices as segments

  /** The number that decimal digits stand for. */
  ghost function NumberOf(digits: string): int {
    if digits == "" then 0
    else 10 * NumberOf(digits[..|digits| - 1]) + (digits[|digits| - 1] as int - '0' as int)
  }

  /** An index becomes its decimal numeral, without leading zeros. */
  lemma {:induction false} DecimalIsNumeral(n: nat)
    ensures var d := Decimal(n);
            && d != "" && NumberOf(d) == n
            && (forall i | 0 <= i < |d| :: '0' <= d[i] <= '9')
            && (d[0] == '0' ==> n == 0)
  {
    if n >= 10 {
      DecimalIsNumeral(n / 10);
      var d := Decimal(n);
      assert d[..|d| - 1] == Decimal(n / 10);
    } else {
      assert Decimal(n)[..0] == "";
    }
  }
}
