/**
 * Whole runs of the serializer: every call made on the way, what becomes of its result, and what the
 * `_meta` tree says in the end.
 */
module SerializerRuns {
  import opened Options
  import opened StripString
  import opened Utf8
  import opened MetaDict
  import opened SerializerSpec
  import opened SerializerTheorems

  // ---------------------------------------------------------------- the calls of a run

  /** One call of `_serialize_node`. */
  datatype Call = Call(obj: Ref, path: seq<Segment>, f: Flags, stack: nat, s: State)

  ghost predicate Possible(c: Config, x: Call) {
    Closed(c.w) && x.obj in c.w.shapes
  }

  function Result(c: Config, x: Call): Outcome
    requires Possible(c, x)
  {
    Node(c, x.obj, x.path, x.f, x.stack, x.s)
  }

  /** The call itself and all calls made below it, in order. */
  ghost function Calls(c: Config, x: Call): seq<Call>
    requires Possible(c, x)
    decreases x.stack, 0, 0
  {
    [x] + if x.stack == 0 || x.obj in x.s.ids || !Opens(c, x) then [] else
            CallsOfBody(c, Flattened(c, x.obj), x.path, Inner(c, x), x.stack - 1, Entered(c, x.obj, x.path, x.s))
  }

  /** The metadata of an `AnnotatedValue` can be annotated. */
  ghost predicate Opens(c: Config, x: Call)
    requires Possible(c, x)
  {
    Flattening(c.w.shapes[x.obj], x.path, x.s.(ids := x.s.ids + {x.obj})).res.Done?
  }

  /** The parameters of the call, filled in. */
  function Inner(c: Config, x: Call): Flags
    requires Possible(c, x)
  {
    Resolve(c, c.w.shapes[x.obj], x.path, x.f)
  }

  ghost function CallsOfBody(c: Config, obj: Ref, path: seq<Segment>, f: Flags, stack: nat, s: State): seq<Call>
    requires Closed(c.w) && obj in c.w.shapes
    decreases stack, 1, 1
  {
    var sh := c.w.shapes[obj];
    if f.depth == Finite(0) || !(sh.Mapping? || sh.Sequence?) then []
    else CallsOfLoop(c, Children(sh), 0, path, f, stack, s)
  }

  ghost function CallsOfLoop(c: Config, cs: seq<Child>, i: nat, path: seq<Segment>, f: Flags, stack: nat, s: State)
    : seq<Call>
    requires Closed(c.w) && Known(c, cs) && i <= |cs|
    decreases stack, 1, 0, |cs| - i
  {
    if i == |cs| || Reached(f.breadth, i) || cs[i].segment.None? then []
    else
      var x := Call(cs[i].ref, path + [cs[i].segment.value], ChildFlags(f), stack, s);
      var o := Result(c, x);
      Calls(c, x) + if o.res.Raised? then [] else CallsOfLoop(c, cs, i + 1, path, f, stack, o.s)
  }

  /** The call for a whole event. */
  function Root(event: Ref, stack: nat): Call {
    Call(event, [], NO_FLAGS, stack, START)
  }

  // ---------------------------------------------------------------- parameters

  /** Every call of a run gets fitting parameters. */
  lemma {:induction false} CallsFit(c: Config, x: Call, y: Call)
    requires Possible(c, x) && Fits(c, x.path, x.f) && y in Calls(c, x)
    ensures Possible(c, y) && Fits(c, y.path, y.f)
    decreases x.stack, 0, 0
  {
    hide Fits, CallsOfLoop, Resolve, Flattening;
    if y != x {
      var obj, f := Flattened(c, x.obj), Inner(c, x);
      var sh := c.w.shapes[obj];
      assert y in CallsOfBody(c, obj, x.path, f, x.stack - 1, Entered(c, x.obj, x.path, x.s));
      forall s
        ensures Fits(c, x.path + [s], ChildFlags(f))
      {
        EveryNodeFits(c, c.w.shapes[x.obj], x.path, x.f, s);
      }
      CallsOfLoopFit(c, Children(sh), 0, x.path, f, x.stack - 1, Entered(c, x.obj, x.path, x.s), y);
    }
  }

  lemma {:induction false} CallsOfLoopFit(c: Config, cs: seq<Child>, i: nat, path: seq<Segment>, f: Flags, stack: nat,
                                          s: State, y: Call)
    requires Closed(c.w) && Known(c, cs) && i <= |cs| && y in CallsOfLoop(c, cs, i, path, f, stack, s)
    requires forall s :: Fits(c, path + [s], ChildFlags(f))
    ensures Possible(c, y) && Fits(c, y.path, y.f)
    decreases stack, 1, 0, |cs| - i
  {
    hide Fits, Calls, Node;
    var x := Call(cs[i].ref, path + [cs[i].segment.value], ChildFlags(f), stack, s);
    if y in Calls(c, x) {
      CallsFit(c, x, y);
    } else {
      CallsOfLoopFit(c, cs, i + 1, path, f, stack, Result(c, x).s, y);
    }
  }

  lemma RunFits(c: Config, event: Ref, stack: nat, y: Call)
    requires Possible(c, Root(event, stack)) && y in Calls(c, Root(event, stack))
    ensures Possible(c, y) && Fits(c, y.path, y.f)
  {
    hide Calls, Fits;
    EveryNodeFits(c, c.w.shapes[event], [], NO_FLAGS, Index(0));
    CallsFit(c, Root(event, stack), y);
  }

  // ---------------------------------------------------------------- results

  function Lookup(pairs: seq<(string, Out)>, key: string): Option<Out> {
    if pairs == [] then None
    else if pairs[0].0 == key then Some(pairs[0].1)
    else Lookup(pairs[1..], key)
  }

  /** The part of a result that a path leads to. */
  function SubAt(out: Out, q: seq<Segment>): Option<Out>
    decreases |q|
  {
    if q == [] then Some(out)
    else
      match (out, q[0])
      case (Dict(pairs), Name(key)) =>
        var v := Lookup(pairs, key);
        if v.Some? then SubAt(v.value, q[1..]) else None
      case (Lst(outs), Index(i)) => if i < |outs| then SubAt(outs[i], q[1..]) else None
      case _ => None
  }

  lemma {:induction false} LookupAfterPut(pairs: seq<(string, Out)>, key: string, out: Out, k: string)
    ensures Lookup(Put(pairs, key, out), k) == if k == key then Some(out) else Lookup(pairs, k)
  {
    if pairs == [] || pairs[0].0 == key {
      assert Put(pairs, key, out)[1..] == if pairs == [] then [] else pairs[1..];
    } else {
      LookupAfterPut(pairs[1..], key, out, k);
      assert Put(pairs, key, out)[1..] == Put(pairs[1..], key, out);
    }
  }

  /** What a dictionary holds under a key is the result of some child with that key. */
  lemma {:induction false} LookupInDict(kept: Kept, key: string) returns (j: nat)
    requires Lookup(DictOf(kept), key).Some?
    ensures j < |kept| && StrOf(kept[j].0) == key && Lookup(DictOf(kept), key) == Some(kept[j].1)
  {
    hide StrOf, Put, Lookup;
    var n := |kept| - 1;
    if kept == [] {
      NothingInNothing(key);
    } else {
      LookupAfterPut(DictOf(kept[..n]), StrOf(kept[n].0), kept[n].1, key);
      if StrOf(kept[n].0) == key {
        j := n;
      } else {
        j := LookupInDict(kept[..n], key);
      }
    }
  }

  lemma NothingInNothing(key: string)
    ensures Lookup(DictOf([]), key) == None
  {
  }

  ghost predicate Among(few: seq<Call>, many: seq<Call>) {
    forall x <- few :: x in many
  }

  /** `x` is the call whose result is kept for a child. */
  ghost predicate MadeBy(c: Config, x: Call, path: seq<Segment>, stack: nat, child: (Segment, Out)) {
    Possible(c, x) && x.path == path + [child.0] && x.stack == stack && Result(c, x).res == Done(child.1)
  }

  /** Each child a container keeps is the result of a call of the run. */
  lemma {:induction false} KeptAreCalls(c: Config, isMapping: bool, cs: seq<Child>, i: nat, kept: Kept,
                                        path: seq<Segment>, f: Flags, stack: nat, s: State)
    returns (all: Kept, xs: seq<Call>)
    requires Closed(c.w) && Known(c, cs) && i <= |cs| && |kept| == i
    requires forall k | 0 <= k < i :: cs[k].segment == Some(kept[k].0)
    requires Loop(c, isMapping, cs, i, kept, path, f, stack, s).res.Done?
    ensures Loop(c, isMapping, cs, i, kept, path, f, stack, s).res == Done(Assemble(isMapping, all))
    ensures kept <= all && |all| <= |cs| && (forall k | 0 <= k < |all| :: cs[k].segment == Some(all[k].0))
    ensures |xs| == |all| - i && forall k | 0 <= k < |xs| ::
              && MadeBy(c, xs[k], path, stack, all[i + k])
              && Among(Calls(c, xs[k]), CallsOfLoop(c, cs, i, path, f, stack, s))
    decreases |cs| - i
  {
    hide Node, Assemble, Calls, Annotating;
    if i == |cs| || Reached(f.breadth, i) {
      all, xs := kept, [];
    } else {
      var segment := cs[i].segment.value;
      var x := Call(cs[i].ref, path + [segment], ChildFlags(f), stack, s);
      var o := Result(c, x);
      var rest: seq<Call>;
      all, rest := KeptAreCalls(c, isMapping, cs, i + 1, kept + [(segment, o.res.out)], path, f, stack, o.s);
      xs := [x] + rest;
      assert all[i] == (kept + [(segment, o.res.out)])[i];
      forall k | 0 <= k < |xs|
        ensures MadeBy(c, xs[k], path, stack, all[i + k])
        ensures Among(Calls(c, xs[k]), CallsOfLoop(c, cs, i, path, f, stack, s))
      {
        if k > 0 {
          assert MadeBy(c, rest[k - 1], path, stack, all[i + 1 + (k - 1)]);
        }
      }
    }
  }

  /** The call goes through the children of its object. */
  ghost predicate Loops(c: Config, x: Call)
    requires Possible(c, x)
  {
    && x.stack > 0 && x.obj !in x.s.ids && Opens(c, x) && Inner(c, x).depth != Finite(0)
    && var sh := c.w.shapes[Flattened(c, x.obj)]; sh.Mapping? || sh.Sequence?
  }

  /** Only a call that goes through children has a result with parts. */
  lemma PartsMeanLoops(c: Config, x: Call)
    requires Possible(c, x) && !Loops(c, x)
    ensures var r := Result(c, x).res;
            r.Done? ==> !r.out.Dict? && !r.out.Lst?
  {
    hide Node, Impl, Loop, Resolve, Strip, Annotate, After;
    NodeStep(c, x.obj, x.path, x.f, x.stack, x.s);
    if x.stack > 0 && x.obj !in x.s.ids {
      ImplStep(c, x.obj, x.path, x.f, x.stack - 1, x.s.(ids := x.s.ids + {x.obj}));
    }
  }

  /** The loop of such a call. */
  ghost function LoopOf(c: Config, x: Call): Outcome
    requires Possible(c, x) && Loops(c, x)
  {
    var sh := c.w.shapes[Flattened(c, x.obj)];
    Loop(c, sh.Mapping?, Children(sh), 0, [], x.path, Inner(c, x), x.stack - 1, Entered(c, x.obj, x.path, x.s))
  }

  lemma LoopIsRest(c: Config, x: Call)
    requires Possible(c, x) && Loops(c, x)
    ensures LoopOf(c, x).res.Done? ==> Result(c, x).res == LoopOf(c, x).res
    ensures LoopOf(c, x).res.Raised? ==>
              Result(c, x).res.Done? && !Result(c, x).res.out.Dict? && !Result(c, x).res.out.Lst?
    ensures Result(c, x).log == OwnNotes(c, x) + LoopOf(c, x).log
    ensures Calls(c, x) == [x] + CallsOfLoop(c, Children(c.w.shapes[Flattened(c, x.obj)]), 0, x.path, Inner(c, x),
                                             x.stack - 1, Entered(c, x.obj, x.path, x.s))
  {
    hide Node, Impl, Loop, CallsOfLoop, Annotating, Resolve;
    NodeStep(c, x.obj, x.path, x.f, x.stack, x.s);
    ImplStep(c, x.obj, x.path, x.f, x.stack - 1, x.s.(ids := x.s.ids + {x.obj}));
  }

  /** What a call annotates for an `AnnotatedValue`, before anything else. */
  function OwnNotes(c: Config, x: Call): seq<Note>
    requires Possible(c, x)
  {
    Flattening(c.w.shapes[x.obj], x.path, x.s.(ids := x.s.ids + {x.obj})).log
  }

  /** The call that made the part of a result that a segment leads to. */
  lemma PartIsChild(c: Config, x: Call, segment: Segment) returns (y: Call, part: Out)
    requires Possible(c, x) && Result(c, x).res.Done? && SubAt(Result(c, x).res.out, [segment]).Some?
    ensures MadeBy(c, y, x.path, x.stack - 1, (segment, part)) && Among(Calls(c, y), Calls(c, x)) && x.stack > 0
    ensures forall q | q != [] && q[0] == segment :: SubAt(Result(c, x).res.out, q) == SubAt(part, q[1..])
  {
    hide Node, Calls, CallsOfLoop, Loop, Lookup, DictOf, MadeBy, Loops;
    if !Loops(c, x) {
      PartsMeanLoops(c, x);
    }
    LoopIsRest(c, x);
    var sh, s, all, xs := KeptByCall(c, x);
    var j := KeptAt(sh, all, segment, Result(c, x).res.out);
    y, part := xs[j], all[j].1;
    assert MadeBy(c, xs[j], x.path, x.stack - 1, all[0 + j]);
  }

  lemma KeptByCall(c: Config, x: Call) returns (sh: Shape, s: State, all: Kept, xs: seq<Call>)
    requires Possible(c, x) && Loops(c, x) && LoopOf(c, x).res.Done?
    ensures x.stack > 0 && sh == c.w.shapes[Flattened(c, x.obj)] && (sh.Mapping? || sh.Sequence?)
    ensures LoopOf(c, x).res == Done(Assemble(sh.Mapping?, all))
    ensures |xs| == |all| <= |Children(sh)|
    ensures forall k | 0 <= k < |all| :: Children(sh)[k].segment == Some(all[k].0)
    ensures forall k | 0 <= k < |xs| ::
              MadeBy(c, xs[k], x.path, x.stack - 1, all[0 + k]) && Among(Calls(c, xs[k]), Calls(c, x))
  {
    hide Node, Calls, CallsOfLoop, Loop, Assemble, MadeBy;
    sh := c.w.shapes[Flattened(c, x.obj)];
    s := Entered(c, x.obj, x.path, x.s);
    all, xs := KeptAreCalls(c, sh.Mapping?, Children(sh), 0, [], x.path, Inner(c, x), x.stack - 1, s);
    LoopIsRest(c, x);
  }

  /** Every part of a result is the result of a call made at the path that leads to it. */
  lemma {:induction false} PartIsResult(c: Config, x: Call, q: seq<Segment>) returns (y: Call)
    requires Possible(c, x) && Result(c, x).res.Done? && SubAt(Result(c, x).res.out, q).Some?
    ensures Possible(c, y) && y in Calls(c, x) && y.path == x.path + q
    ensures Result(c, y).res == Done(SubAt(Result(c, x).res.out, q).value)
    decreases x.stack
  {
    hide Result, Calls;
    if q == [] {
      y := x;
      CallsHaveRoot(c, x);
    } else {
      var out := Result(c, x).res.out;
      FirstPart(out, q);
      var z, part := PartIsChild(c, x, q[0]);
      assert SubAt(out, q) == SubAt(part, q[1..]);
      y := PartIsResult(c, z, q[1..]);
      assert x.path + [q[0]] + q[1..] == x.path + q;
    }
  }

  lemma FirstPart(out: Out, q: seq<Segment>)
    requires q != [] && SubAt(out, q).Some?
    ensures SubAt(out, [q[0]]).Some?
  {
  }

  lemma CallsHaveRoot(c: Config, x: Call)
    requires Possible(c, x)
    ensures x in Calls(c, x)
  {
  }

  /** The child that a segment leads to. */
  lemma KeptAt(sh: Shape, all: Kept, segment: Segment, out: Out) returns (j: nat)
    requires sh.Mapping? || sh.Sequence?
    requires |all| <= |Children(sh)| && forall k | 0 <= k < |all| :: Children(sh)[k].segment == Some(all[k].0)
    requires out == Assemble(sh.Mapping?, all) && SubAt(out, [segment]).Some?
    ensures j < |all| && all[j].0 == segment
    ensures forall q | q != [] && q[0] == segment :: SubAt(out, q) == SubAt(all[j].1, q[1..])
  {
    hide Lookup, DictOf;
    if sh.Mapping? {
      j := LookupInDict(all, segment.name);
    } else {
      j := segment.i;
    }
  }

  // ---------------------------------------------------------------- annotations of a call

  /** What a call annotates is part of what the calls above it annotate. */
  lemma {:induction false} LogIsPart(c: Config, x: Call, y: Call) returns (before: seq<Note>, after: seq<Note>)
    requires Possible(c, x) && y in Calls(c, x)
    ensures Possible(c, y) && Result(c, x).log == before + Result(c, y).log + after
    decreases x.stack, 0, 0
  {
    hide CallsOfLoop, Loop, Node, Inner, OwnNotes;
    if y == x {
      before, after := [], [];
      assert [] + Result(c, y).log + [] == Result(c, y).log;
    } else {
      assert Loops(c, x);
      LoopIsRest(c, x);
      var cs := Children(c.w.shapes[Flattened(c, x.obj)]);
      before, after := LoopLogIsPart(c, c.w.shapes[Flattened(c, x.obj)].Mapping?, cs, 0, [], x.path, Inner(c, x),
                                     x.stack - 1, Entered(c, x.obj, x.path, x.s), y);
      var own := OwnNotes(c, x);
      assert own + (before + Result(c, y).log + after) == own + before + Result(c, y).log + after;
      before := own + before;
    }
  }

  lemma {:induction false} LoopLogIsPart(c: Config, isMapping: bool, cs: seq<Child>, i: nat, kept: Kept,
                                         path: seq<Segment>, f: Flags, stack: nat, s: State, y: Call)
    returns (before: seq<Note>, after: seq<Note>)
    requires Closed(c.w) && Known(c, cs) && i <= |cs| && y in CallsOfLoop(c, cs, i, path, f, stack, s)
    ensures Possible(c, y)
    ensures Loop(c, isMapping, cs, i, kept, path, f, stack, s).log == before + Result(c, y).log + after
    decreases stack, 1, 0, |cs| - i
  {
    hide Calls, Node, Loop, Assemble;
    LoopStep(c, isMapping, cs, i, kept, path, f, stack, s);
    var segment := cs[i].segment.value;
    var x := Call(cs[i].ref, path + [segment], ChildFlags(f), stack, s);
    var o := Result(c, x);
    if y in Calls(c, x) {
      before, after := LogIsPart(c, x, y);
      if o.res.Done? {
        var kept' := kept + [(segment, o.res.out)];
        var rest := Loop(c, isMapping, cs, i + 1, kept', path, f, stack, o.s);
        assert before + Result(c, y).log + after + rest.log == before + Result(c, y).log + (after + rest.log);
        after := after + rest.log;
      }
    } else {
      var kept' := kept + [(segment, o.res.out)];
      before, after := LoopLogIsPart(c, isMapping, cs, i + 1, kept', path, f, stack, o.s, y);
      assert o.log + (before + Result(c, y).log + after) == o.log + before + Result(c, y).log + after;
      before := o.log + before;
    }
  }

  // ---------------------------------------------------------------- databags of a run

  /** What a trimmed container looks like: its first ten children, and its length annotated iff it had more. */
  ghost predicate TrimmedContainer(c: Config, y: Call, out: Out) {
    && Possible(c, y)
    && var sh := c.w.shapes[Flattened(c, y.obj)];
    && (sh.Mapping? || sh.Sequence?)
    && |OwnNotes(c, y)| <= |Result(c, y).log|
    && var cs, log := Children(sh), Result(c, y).log[|OwnNotes(c, y)|..];
    && (exists kept: Kept ::
          && |kept| == (if |cs| < 10 then |cs| else 10)
          && (forall i | 0 <= i < |kept| :: cs[i].segment == Some(kept[i].0))
          && out == Assemble(sh.Mapping?, kept))
    && (NotedAt(log, y.path) <==> |cs| > 10)
    && (|cs| > 10 ==> log != [] && log[|log| - 1] == CutNote(y.path, cs))
  }

  /**
   * In the result of serializing any event, at any path inside a databag, kept request bodies aside:
   * the part has at most 111111 values; it is the result of a call of the run, whose annotations are
   * part of the run's; and if it is a container it holds the first ten children of its object, with
   * the length annotated exactly if there were more.
   */
  lemma DatabagsAreTrimmed(c: Config, event: Ref, stack: nat, q: seq<Segment>)
    returns (y: Call, before: seq<Note>, after: seq<Note>)
    requires Possible(c, Root(event, stack)) && stack > 0
    requires SubAt(Result(c, Root(event, stack)).res.out, q).Some?
    requires Decision(c, q) == Some(true) && (c.keepBodies ==> BodyDecision(q) == Some(false))
    ensures var run := Result(c, Root(event, stack));
            var part := SubAt(run.res.out, q).value;
            && Size(part) <= 111_111
            && Possible(c, y) && y in Calls(c, Root(event, stack)) && y.path == q && Result(c, y).res == Done(part)
            && run.log == before + Result(c, y).log + after
            && (part.Dict? || part.Lst? ==> TrimmedContainer(c, y, part))
  {
    hide Calls, Fits, Decision, BodyDecision, Size, TrimmedContainer, SubAt, Node;
    var x := Root(event, stack);
    y := PartIsResult(c, x, q);
    assert [] + q == q;
    RunFits(c, event, stack, y);
    before, after := LogIsPart(c, x, y);
    if y.stack == 0 {
      NoStackRaises(c, y.obj, y.path, y.f, y.s);
    }
    DatabagIsSmall(c, y.obj, y.path, y.f, y.stack, y.s);
    var part := Result(c, y).res.out;
    if part.Dict? || part.Lst? {
      ContainerIsTrimmed(c, y);
    }
  }

  lemma ContainerIsTrimmed(c: Config, y: Call)
    requires Possible(c, y) && Result(c, y).res.Done? && (Result(c, y).res.out.Dict? || Result(c, y).res.out.Lst?)
    requires Fits(c, y.path, y.f) && Decision(c, y.path) == Some(true)
    requires c.keepBodies ==> BodyDecision(y.path) == Some(false)
    ensures TrimmedContainer(c, y, Result(c, y).res.out)
  {
    hide Fits, Decision, BodyDecision, Node, Loop, Calls, CallsOfLoop, Resolve, Flattening, NotedAt;
    if !Loops(c, y) {
      PartsMeanLoops(c, y);
    }
    LoopIsRest(c, y);
    var obj := Flattened(c, y.obj);
    var d := DatabagLimits(c, c.w.shapes[y.obj], y.path, y.f);
    var s := Entered(c, y.obj, y.path, y.s);
    var kept := DatabagContainerKeepsTen(c, obj, y.path, Inner(c, y), y.stack - 1, s, d);
    assert Result(c, y).log[|OwnNotes(c, y)|..] == LoopOf(c, y).log;
    assert Body(c, obj, y.path, Inner(c, y), y.stack - 1, s) == LoopOf(c, y);
  }

  /** Every databag node of a run, its top included, ends by itself: more than five frames are enough. */
  lemma DatabagCallsEndByThemselves(c: Config, event: Ref, stack: nat, y: Call, s1: nat, s2: nat)
    requires Possible(c, Root(event, stack)) && y in Calls(c, Root(event, stack))
    requires Decision(c, y.path) == Some(true) && (c.keepBodies ==> BodyDecision(y.path) == Some(false))
    requires s1 > MAX_DATABAG_DEPTH && s2 > MAX_DATABAG_DEPTH
    ensures Possible(c, y) && Result(c, y.(stack := s1)) == Result(c, y.(stack := s2))
  {
    hide Calls, Fits, Decision, BodyDecision, Node;
    RunFits(c, event, stack, y);
    DatabagNeverHitsRecursionLimit(c, y.obj, y.path, y.f, s1, s2, y.s);
  }
}
