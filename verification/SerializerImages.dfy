/**
 * What comes out of the serializer, value by value: every object has an image that depends only on
 * the objects, its path and whether it is shown by its repr.
 */
module SerializerImages {
  import opened Options
  import opened Utf8
  import opened StripString
  import opened MetaDict
  import opened SerializerSpec
  import opened SerializerTheorems
  import opened SerializerRuns
  import opened MetaRuns

  // ---------------------------------------------------------------- places

  /** The value at `path` is subject to trimming: in a databag, and not in a request body kept whole. */
  ghost predicate Bag(c: Config, path: seq<Segment>) {
    Decision(c, path) == Some(true) && !(c.keepBodies && BodyDecision(path) == Some(true))
  }

  ghost function Parent(path: seq<Segment>): seq<Segment>
    requires path != []
  {
    path[..|path| - 1]
  }

  /** How many containers of its databag a value is in. */
  ghost function BagDepth(c: Config, path: seq<Segment>): nat
    decreases |path|
  {
    if path == [] || !Bag(c, Parent(path)) then 0 else 1 + BagDepth(c, Parent(path))
  }

  /** The value at `path` is cut off for its depth. */
  ghost predicate CutOff(c: Config, path: seq<Segment>) {
    Bag(c, path) && BagDepth(c, path) == 5
  }

  /** The parameters a call gets: those that fit, with one level less for each container of the databag. */
  ghost predicate Placed(c: Config, path: seq<Segment>, f: Flags) {
    && Fits(c, path, f)
    && (path != [] && Bag(c, Parent(path)) ==> f.depth.Finite? && f.depth.n + 1 + BagDepth(c, Parent(path)) == 5)
  }

  /** The same after they are filled in. */
  ghost predicate Inside(c: Config, path: seq<Segment>, f: Flags) {
    && f.isDatabag == Decision(c, path) && f.isRequestBody == BodyDecision(path) && f.reprStrings.Some?
    && (if Bag(c, path) then f.depth.Finite? && f.depth.n + BagDepth(c, path) == 5 && f.breadth == Finite(10)
        else if Decision(c, path) == Some(true) then f.depth.Infinite? && f.breadth.Infinite?
        else f.depth.Unset? && f.breadth.Unset?)
  }

  lemma PlacedIsInside(c: Config, sh: Shape, path: seq<Segment>, f: Flags)
    requires Placed(c, path, f)
    ensures Inside(c, path, Resolve(c, sh, path, f))
  {
    hide Decision, BodyDecision, IsDatabag, IsRequestBody;
    InheritedDecisionIsWholePathDecision(c, sh, path, f);
    if path != [] {
      assert path == Parent(path) + [path[|path| - 1]];
      DecisionsAreKept(c, Parent(path), path[|path| - 1]);
    }
  }

  lemma ChildIsPlaced(c: Config, path: seq<Segment>, f: Flags, s: Segment)
    requires Inside(c, path, f) && f.depth != Finite(0)
    ensures Placed(c, path + [s], ChildFlags(f))
  {
    hide Decision, BodyDecision;
    assert Parent(path + [s]) == path;
  }

  lemma RootIsPlaced(c: Config)
    ensures Placed(c, [], NO_FLAGS)
  {
  }

  // ---------------------------------------------------------------- every call of a run

  /** A property of calls that a call of a run passes on to the calls for its children. */
  ghost predicate PassedOn(c: Config, p: Call -> bool) {
    forall x: Call, y: Call | Possible(c, x) && Loops(c, x) && p(x) && ChildCall(c, x, y) :: p(y)
  }

  /** `y` is made by the loop of `x`. */
  ghost predicate ChildCall(c: Config, x: Call, y: Call)
    requires Possible(c, x)
  {
    && y.obj in c.w.shapes && x.stack > 0 && y.stack == x.stack - 1 && y.f == ChildFlags(Inner(c, x))
    && |y.path| == |x.path| + 1 && Parent(y.path) == x.path
    && Closed(c.w) && Among(Calls(c, y), Calls(c, x))
  }

  lemma {:induction false} CallsHave(c: Config, x: Call, y: Call, p: Call -> bool)
    requires Possible(c, x) && p(x) && PassedOn(c, p) && y in Calls(c, x)
    ensures Possible(c, y) && p(y)
    decreases x.stack, 0, 0
  {
    hide CallsOfLoop, Inner, Resolve, PassedOn;
    if y != x {
      assert Loops(c, x);
      LoopIsRest(c, x);
      CallsOfLoopHave(c, x, Children(c.w.shapes[Flattened(c, x.obj)]), 0, Entered(c, x.obj, x.path, x.s), y, p);
    }
  }

  lemma {:induction false} CallsOfLoopHave(c: Config, x: Call, cs: seq<Child>, i: nat, s: State, y: Call,
                                           p: Call -> bool)
    requires Possible(c, x) && Loops(c, x) && p(x) && PassedOn(c, p) && x.stack > 0 && Known(c, cs) && i <= |cs|
    requires y in CallsOfLoop(c, cs, i, x.path, Inner(c, x), x.stack - 1, s)
    requires Among(CallsOfLoop(c, cs, i, x.path, Inner(c, x), x.stack - 1, s), Calls(c, x))
    ensures Possible(c, y) && p(y)
    decreases x.stack - 1, 1, 0, |cs| - i
  {
    hide Calls, Node, Inner, Loops;
    var z := Call(cs[i].ref, x.path + [cs[i].segment.value], ChildFlags(Inner(c, x)), x.stack - 1, s);
    assert Parent(z.path) == x.path;
    assert ChildCall(c, x, z);
    if y in Calls(c, z) {
      CallsHave(c, z, y, p);
    } else {
      CallsOfLoopHave(c, x, cs, i + 1, SerializerRuns.Result(c, z).s, y, p);
    }
  }

  /** Every call of a run has the parameters of its place. */
  lemma RunIsPlaced(c: Config, event: Ref, stack: nat, y: Call)
    requires Possible(c, Root(event, stack)) && y in Calls(c, Root(event, stack))
    ensures Possible(c, y) && Placed(c, y.path, y.f) && Inside(c, y.path, Inner(c, y))
  {
    hide Calls, Placed, Inside, Resolve;
    var p := (x: Call) => Possible(c, x) && Placed(c, x.path, x.f);
    forall x: Call, z: Call | Possible(c, x) && Loops(c, x) && p(x) && ChildCall(c, x, z)
      ensures p(z)
    {
      assert z.path == x.path + [z.path[|x.path|]];
      PlacedIsInside(c, c.w.shapes[x.obj], x.path, x.f);
      ChildIsPlaced(c, x.path, Inner(c, x), z.path[|x.path|]);
    }
    RootIsPlaced(c);
    CallsHave(c, Root(event, stack), y, p);
    PlacedIsInside(c, c.w.shapes[y.obj], y.path, y.f);
  }

  /** A call for an `AnnotatedValue` among the calls `xs` is `y` or leads to `y`. */
  ghost predicate Wrapped(c: Config, xs: seq<Call>, y: Call)
    requires Closed(c.w) && y.obj in c.w.shapes
  {
    exists x <- xs :: x.obj in c.w.shapes && c.w.shapes[x.obj].Annotated? && Among(Calls(c, y), Calls(c, x))
  }

  lemma BelowAnnotated(c: Config, x: Call, y: Call)
    requires Possible(c, x) && c.w.shapes[x.obj].Annotated? && y in Calls(c, x)
    ensures Possible(c, y) && Inner(c, y).reprStrings == Some(false)
  {
    hide Calls, Loops;
    var p := (z: Call) => Possible(c, z) && Inner(c, z).reprStrings == Some(false);
    CallsHave(c, x, y, p);
  }

  /**
   * Strings and scalars are shown by their repr exactly in the variables of a stack frame, and there
   * exactly outside of every `AnnotatedValue`.
   */
  lemma ShownIffVarsOutsideAnnotated(c: Config, event: Ref, stack: nat, y: Call)
    requires Possible(c, Root(event, stack)) && y in Calls(c, Root(event, stack))
    ensures Possible(c, y) && Inner(c, y).reprStrings ==
              Some(c.isVars && !Wrapped(c, Calls(c, Root(event, stack)), y))
  {
    hide Calls, Loops;
    var root := Root(event, stack);
    var p := (z: Call) =>
      && Possible(c, z) && Among(Calls(c, z), Calls(c, root)) && Inner(c, z).reprStrings.Some?
      && (Inner(c, z).reprStrings == Some(c.isVars) || Wrapped(c, Calls(c, root), z));
    CallsHaveRoot(c, root);
    forall x: Call, z: Call | Possible(c, x) && Loops(c, x) && p(x) && ChildCall(c, x, z)
      ensures p(z)
    {
      CallsHaveRoot(c, x);
      CallsHaveRoot(c, z);
      assert c.w.shapes[z.obj].Annotated? ==> Wrapped(c, Calls(c, root), z);
    }
    CallsHave(c, root, y, p);
    CallsHaveRoot(c, y);
    if Wrapped(c, Calls(c, root), y) {
      var x :| x in Calls(c, root) && x.obj in c.w.shapes && c.w.shapes[x.obj].Annotated?
        && Among(Calls(c, y), Calls(c, x));
      BelowAnnotated(c, x, y);
    }
  }

  /** What a call yields whose object raises: the failure is named only inside a databag. */
  ghost function Lost(c: Config, path: seq<Segment>): Out {
    if path != [] && Decision(c, Parent(path)) == Some(true) then Failed else Null
  }

  /** `_annotate` raises at the place of the call. */
  ghost predicate Blocked(c: Config, x: Call)
    requires Possible(c, x)
  {
    Annotate(Entered(c, x.obj, x.path, x.s).tree, Strs(x.path), map[]).None?
  }

  /** The call yields `text`, stripped; if that takes an annotation, the call may be lost over it. */
  ghost predicate YieldsText(c: Config, x: Call, text: Text)
    requires Possible(c, x)
  {
    var res := SerializerRuns.Result(c, x).res;
    if Blocked(c, x) && (CutOff(c, x.path) || Strip(text, c.maxLength).Cut?) then res == Done(Lost(c, x.path))
    else res == Done(Txt(Strip(text, c.maxLength).value))
  }

  /** What a call yields for an object without children that is not cut off. */
  ghost predicate YieldsLeaf(c: Config, x: Call, shown: bool)
    requires Possible(c, x)
  {
    var v := Flattened(c, x.obj);
    var res, repr := SerializerRuns.Result(c, x).res, c.w.repr(v);
    match c.w.shapes[v]
    case Scalar(literal, special) => res == Done(if shown || special then Txt(repr) else Literal(literal))
    case Date(formatted) => res == Done(Txt(if shown then repr else formatted))
    case Hostile => res == Done(Lost(c, x.path))
    case Str(text) =>
      var t := if shown then repr else text;
      if IsSpanDescription(x.path) then res == Done(Txt(t)) else YieldsText(c, x, t)
    case Annotated(_, _) | Other =>
      if IsSpanDescription(x.path) then res == Done(Txt(repr)) else YieldsText(c, x, repr)
    case _ => true
  }

  lemma AnnotatingRaises(path: seq<Segment>, meta: Meta, s: State)
    ensures Annotating(path, meta, s).res.Raised? <==> Annotate(s.tree, Strs(path), map[]).None?
    ensures Annotating(path, meta, s).res.Raised? ==> Annotating(path, meta, s).s.tree == s.tree
  {
    RaisingIgnoresMeta(s.tree, Strs(path), meta, map[]);
  }

  lemma StrippingResult(c: Config, path: seq<Segment>, text: Text, s: State)
    ensures Stripping(c, path, text, s).res ==
      if Annotate(s.tree, Strs(path), map[]).None? && Strip(text, c.maxLength).Cut? then Raised
      else Done(Txt(Strip(text, c.maxLength).value))
  {
    hide Strip, Annotate, Strs;
    forall meta: Meta
      ensures Annotating(path, meta, s).res.Raised? <==> Annotate(s.tree, Strs(path), map[]).None?
    {
      AnnotatingRaises(path, meta, s);
    }
  }

  /** Where one annotation could be made, another one at the same place can. */
  lemma {:induction false} StaysOpen(d: Tree, path: seq<string>, m: Meta, n: Meta)
    requires Annotate(d, path, m).Some?
    ensures Annotate(Annotate(d, path, m).value, path, n).Some?
    decreases |path|
  {
    if path != [] {
      StaysOpen(SetDefault(d, path[0]), path[1..], m, n);
    }
  }

  lemma {:induction false} LeafOfCall(c: Config, x: Call)
    requires Possible(c, x) && x.stack > 0 && Placed(c, x.path, x.f)
    ensures var res := SerializerRuns.Result(c, x).res;
      if x.obj in x.s.ids then res == Done(Cyclic)
      else if !Opens(c, x) then res == Done(Lost(c, x.path))
      else if CutOff(c, x.path) then YieldsText(c, x, c.w.repr(Flattened(c, x.obj)))
      else YieldsLeaf(c, x, Inner(c, x).reprStrings == Some(true))
  {
    hide Node, Impl, Body, Strip, Resolve, Decision, BodyDecision, Annotate, Annotating, Stripping, Placed, Fits, Strs;
    hide Lost, IsSpanDescription, CutOff, YieldsText, YieldsLeaf;
    NodeStep(c, x.obj, x.path, x.f, x.stack, x.s);
    ParentDecides(c, x.path, x.f);
    if x.obj !in x.s.ids {
      ImplStep(c, x.obj, x.path, x.f, x.stack - 1, x.s.(ids := x.s.ids + {x.obj}));
      if Opens(c, x) {
        PlacedIsInside(c, c.w.shapes[x.obj], x.path, x.f);
        if CutOff(c, x.path) {
          CutOffCall(c, x);
        } else {
          LeafCall(c, x);
        }
      }
    }
  }

  /** The rest of a call, after the flattening. */
  function BodyOf(c: Config, x: Call): Outcome
    requires Possible(c, x) && x.stack > 0
  {
    Body(c, Flattened(c, x.obj), x.path, Inner(c, x), x.stack - 1, Entered(c, x.obj, x.path, x.s))
  }

  /** A call that opens yields what its body yields, or is lost. */
  lemma CallIsBody(c: Config, x: Call)
    requires Possible(c, x) && x.stack > 0 && Placed(c, x.path, x.f) && x.obj !in x.s.ids && Opens(c, x)
    ensures SerializerRuns.Result(c, x).res ==
            if BodyOf(c, x).res.Raised? then Done(Lost(c, x.path)) else BodyOf(c, x).res
  {
    hide Node, Impl, Body, Resolve, Annotating, Placed, Lost;
    NodeStep(c, x.obj, x.path, x.f, x.stack, x.s);
    ParentDecides(c, x.path, x.f);
    ImplStep(c, x.obj, x.path, x.f, x.stack - 1, x.s.(ids := x.s.ids + {x.obj}));
  }

  lemma CutOffCall(c: Config, x: Call)
    requires Possible(c, x) && x.stack > 0 && Placed(c, x.path, x.f) && x.obj !in x.s.ids && Opens(c, x)
    requires CutOff(c, x.path)
    ensures YieldsText(c, x, c.w.repr(Flattened(c, x.obj)))
  {
    hide Node, Resolve, Annotating, Stripping, Placed, Lost, Annotate, Strip, Strs, Decision, BodyDecision, Entered;
    hide Flattened;
    CallIsBody(c, x);
    PlacedIsInside(c, c.w.shapes[x.obj], x.path, x.f);
    var s := Entered(c, x.obj, x.path, x.s);
    var trimmed := Annotating(x.path, map["rem" := Removed], s);
    AnnotatingRaises(x.path, map["rem" := Removed], s);
    TrimmedStaysOpen(x.path, s);
    StrippingResult(c, x.path, c.w.repr(Flattened(c, x.obj)), trimmed.s);
  }

  lemma TrimmedStaysOpen(path: seq<Segment>, s: State)
    ensures var o := Annotating(path, map["rem" := Removed], s);
            o.res.Done? ==> Annotate(o.s.tree, Strs(path), map[]).Some?
  {
    hide Annotate, Strs;
    if Annotating(path, map["rem" := Removed], s).res.Done? {
      StaysOpen(s.tree, Strs(path), map["rem" := Removed], map[]);
    }
  }

  lemma LeafCall(c: Config, x: Call)
    requires Possible(c, x) && x.stack > 0 && Placed(c, x.path, x.f) && x.obj !in x.s.ids && Opens(c, x)
    requires !CutOff(c, x.path)
    ensures YieldsLeaf(c, x, Inner(c, x).reprStrings == Some(true))
  {
    hide Node, Resolve, Annotating, Stripping, Placed, Lost, Annotate, Strip, Strs, Decision, BodyDecision, Entered;
    hide IsSpanDescription, Loop;
    CallIsBody(c, x);
    PlacedIsInside(c, c.w.shapes[x.obj], x.path, x.f);
    var v, s := Flattened(c, x.obj), Entered(c, x.obj, x.path, x.s);
    StrippingResult(c, x.path, c.w.repr(v), s);
    if c.w.shapes[v].Str? {
      StrippingResult(c, x.path, c.w.shapes[v].text, s);
    }
  }

  lemma ParentDecides(c: Config, path: seq<Segment>, f: Flags)
    requires Placed(c, path, f)
    ensures (if f.isDatabag == Some(true) then Failed else Null) == Lost(c, path)
  {
  }

  /**
   * For any event, cyclic or not, every call of the run yields a marker for an object that is being
   * serialized already, the repr for a value cut off, and for everything else without children what
   * its kind and place call for.
   */
  lemma LeafOfEveryCall(c: Config, event: Ref, stack: nat, y: Call)
    requires Possible(c, Root(event, stack)) && y in Calls(c, Root(event, stack)) && y.stack > 0
    ensures Possible(c, y)
    ensures var res := SerializerRuns.Result(c, y).res;
      if y.obj in y.s.ids then res == Done(Cyclic)
      else if !Opens(c, y) then res == Done(Lost(c, y.path))
      else if CutOff(c, y.path) then YieldsText(c, y, c.w.repr(Flattened(c, y.obj)))
      else YieldsLeaf(c, y, c.isVars && !Wrapped(c, Calls(c, Root(event, stack)), y))
  {
    hide Calls, Placed, Inside, Opens, CutOff, YieldsText, YieldsLeaf, Wrapped, Lost, Node, Resolve, Flattened;
    RunIsPlaced(c, event, stack, y);
    ShownIffVarsOutsideAnnotated(c, event, stack, y);
    LeafOfCall(c, y);
  }

  /** What is annotated for a stripped text. */
  ghost function StripNotes(c: Config, path: seq<Segment>, text: Text): seq<Note> {
    match Strip(text, c.maxLength)
    case Whole(_) => []
    case Cut(_, len, limit) => [Note(Strs(path), map["len" := Length(len), "rem" := RemovedFrom(limit - 3, limit)])]
  }

  lemma SpanDescriptionsAre(path: seq<Segment>)
    ensures IsSpanDescription(path) <==> exists s :: path == [Name("spans"), s, Name("description")]
  {
    if IsSpanDescription(path) {
      assert path == [Name("spans"), path[1], Name("description")];
    }
  }

  /** What a call annotates for an object without children, or one that is cut off. */
  ghost function LeafNotes(c: Config, x: Call, shown: bool): seq<Note>
    requires Possible(c, x)
  {
    var v := Flattened(c, x.obj);
    var repr := c.w.repr(v);
    if CutOff(c, x.path) then
      [Note(Strs(x.path), map["rem" := Removed])] + if Blocked(c, x) then [] else StripNotes(c, x.path, repr)
    else if IsSpanDescription(x.path) then []
    else
      match c.w.shapes[v]
      case Str(text) => StripNotes(c, x.path, if shown then repr else text)
      case Annotated(_, _) => StripNotes(c, x.path, repr)
      case Other => StripNotes(c, x.path, repr)
      case _ => []
  }

  lemma CallNotes(c: Config, x: Call)
    requires Possible(c, x) && x.stack > 0 && x.obj !in x.s.ids
    ensures OwnNotes(c, x) ==
            if c.w.shapes[x.obj].Annotated? then [Note(Strs(x.path), c.w.shapes[x.obj].metadata)] else []
    ensures SerializerRuns.Result(c, x).log == OwnNotes(c, x) + if Opens(c, x) then BodyOf(c, x).log else []
  {
    hide Node, Impl, Body, Resolve;
    NodeStep(c, x.obj, x.path, x.f, x.stack, x.s);
    ImplStep(c, x.obj, x.path, x.f, x.stack - 1, x.s.(ids := x.s.ids + {x.obj}));
    assert OwnNotes(c, x) + [] == OwnNotes(c, x);
  }

  lemma StrippingNotes(c: Config, path: seq<Segment>, text: Text, s: State)
    ensures Stripping(c, path, text, s).log == StripNotes(c, path, text)
  {
  }

  lemma NotesOfBody(c: Config, x: Call)
    requires Possible(c, x) && x.stack > 0 && Placed(c, x.path, x.f) && x.obj !in x.s.ids && Opens(c, x)
    requires CutOff(c, x.path) || (var sh := c.w.shapes[Flattened(c, x.obj)]; !sh.Mapping? && !sh.Sequence?)
    ensures BodyOf(c, x).log == LeafNotes(c, x, Inner(c, x).reprStrings == Some(true))
  {
    hide Node, Resolve, Stripping, Placed, Annotate, Strip, Strs, Decision, BodyDecision, Entered, StripNotes;
    hide IsSpanDescription, Loop, Annotating;
    PlacedIsInside(c, c.w.shapes[x.obj], x.path, x.f);
    var v, s := Flattened(c, x.obj), Entered(c, x.obj, x.path, x.s);
    AnnotatingRaises(x.path, map["rem" := Removed], s);
    StrippingNotes(c, x.path, c.w.repr(v), s);
    StrippingNotes(c, x.path, c.w.repr(v), Annotating(x.path, map["rem" := Removed], s).s);
    if c.w.shapes[v].Str? {
      StrippingNotes(c, x.path, c.w.shapes[v].text, s);
    }
    var notes := Annotating(x.path, map["rem" := Removed], s).log;
    assert notes == [Note(Strs(x.path), map["rem" := Removed])];
    assert notes + [] == notes;
  }

  /**
   * For any event, every call of the run annotates first the metadata of an `AnnotatedValue`; then,
   * for a value cut off or without children, that it was cut off and how its text was stripped, and
   * nothing else.  A call for an object being serialized annotates nothing.
   */
  lemma NotesOfEveryCall(c: Config, event: Ref, stack: nat, y: Call)
    requires Possible(c, Root(event, stack)) && y in Calls(c, Root(event, stack)) && y.stack > 0
    ensures Possible(c, y)
    ensures var log, sh := SerializerRuns.Result(c, y).log, c.w.shapes[Flattened(c, y.obj)];
            var own := if c.w.shapes[y.obj].Annotated? then [Note(Strs(y.path), c.w.shapes[y.obj].metadata)] else [];
            if y.obj in y.s.ids then log == []
            else
              && own <= log && (!Opens(c, y) ==> log == own)
              && (Opens(c, y) && (CutOff(c, y.path) || (!sh.Mapping? && !sh.Sequence?)) ==>
                    log == own + LeafNotes(c, y, c.isVars && !Wrapped(c, Calls(c, Root(event, stack)), y)))
  {
    hide Calls, Placed, Inside, Opens, CutOff, Wrapped, Node, Resolve, Flattened, LeafNotes, BodyOf, OwnNotes;
    RunIsPlaced(c, event, stack, y);
    ShownIffVarsOutsideAnnotated(c, event, stack, y);
    NodeStep(c, y.obj, y.path, y.f, y.stack, y.s);
    if y.obj !in y.s.ids {
      CallNotes(c, y);
      if Opens(c, y) && (CutOff(c, y.path) || !c.w.shapes[Flattened(c, y.obj)].Mapping?) {
        var sh := c.w.shapes[Flattened(c, y.obj)];
        if CutOff(c, y.path) || !sh.Sequence? {
          NotesOfBody(c, y);
        }
      }
    }
  }

  /**
   * After a call nothing is recorded as being serialized that was not before, and its own object is
   * not: even if it was, so a second visit makes the walk forget the first.
   */
  lemma {:induction false} NothingStaysRecorded(c: Config, obj: Ref, path: seq<Segment>, f: Flags, stack: nat, s: State)
    requires Closed(c.w) && obj in c.w.shapes
    ensures var o := Node(c, obj, path, f, stack, s);
            && o.s.ids <= s.ids
            && (stack > 0 ==> obj !in o.s.ids)
            && (obj in s.ids && stack > 0 ==> o.s.ids == s.ids - {obj})
    decreases stack, 0, 0
  {
    hide Impl, Body, Resolve, Annotating;
    NodeStep(c, obj, path, f, stack, s);
    if stack > 0 && obj !in s.ids {
      var s' := s.(ids := s.ids + {obj});
      ImplStep(c, obj, path, f, stack - 1, s');
      var first := Flattening(c.w.shapes[obj], path, s');
      var f' := Resolve(c, c.w.shapes[obj], path, f);
      NothingStaysRecordedByBody(c, Flattened(c, obj), path, f', stack - 1, first.s);
    }
  }

  lemma NothingStaysRecordedByBody(c: Config, obj: Ref, path: seq<Segment>, f: Flags, stack: nat, s: State)
    requires Closed(c.w) && obj in c.w.shapes
    ensures Body(c, obj, path, f, stack, s).s.ids <= s.ids
    decreases stack, 1, 1
  {
    hide Loop, Strip, Annotating, After;
    var sh := c.w.shapes[obj];
    if f.depth != Finite(0) && (sh.Mapping? || sh.Sequence?) {
      NothingStaysRecordedByLoop(c, sh.Mapping?, Children(sh), 0, [], path, f, stack, s);
    }
  }

  lemma {:induction false} NothingStaysRecordedByLoop(c: Config, isMapping: bool, cs: seq<Child>, i: nat, kept: Kept,
                                                      path: seq<Segment>, f: Flags, stack: nat, s: State)
    requires Closed(c.w) && Known(c, cs) && i <= |cs|
    ensures Loop(c, isMapping, cs, i, kept, path, f, stack, s).s.ids <= s.ids
    decreases stack, 1, 0, |cs| - i
  {
    hide Node, Annotating, Assemble;
    if i < |cs| && !Reached(f.breadth, i) && cs[i].segment.Some? {
      var segment := cs[i].segment.value;
      NothingStaysRecorded(c, cs[i].ref, path + [segment], ChildFlags(f), stack, s);
      var o := Node(c, cs[i].ref, path + [segment], ChildFlags(f), stack, s);
      if o.res.Done? {
        NothingStaysRecordedByLoop(c, isMapping, cs, i + 1, kept + [(segment, o.res.out)], path, f, stack, o.s);
      }
    }
  }

  // ---------------------------------------------------------------- images

  /** How many of its children a container keeps. */
  ghost function KeptCount(c: Config, path: seq<Segment>, n: nat): (k: nat)
    ensures k <= n
  {
    if Bag(c, path) && n > 10 then 10 else n
  }

  /** What a value without empty keys and cycles comes out as: None if its serialization raises. */
  ghost function Content(c: Config, rank: Ref -> nat, obj: Ref, path: seq<Segment>, shown: bool): Option<Out>
    requires Closed(c.w) && Ranked(c.w, rank) && obj in c.w.shapes
    decreases rank(obj), 0
  {
    var repr := c.w.repr(obj);
    if CutOff(c, path) then Some(Txt(Strip(repr, c.maxLength).value))
    else
      match c.w.shapes[obj]
      case Scalar(literal, special) => Some(if shown || special then Txt(repr) else Literal(literal))
      case Str(text) => Some(Txt(Shortened(c, path, if shown then repr else text)))
      case Date(formatted) => Some(Txt(if shown then repr else formatted))
      case Annotated(_, _) => Some(Txt(Shortened(c, path, repr)))
      case Other => Some(Txt(Shortened(c, path, repr)))
      case Hostile => None
      case Mapping(es) =>
        var n := KeptCount(c, path, |es|);
        if exists i | 0 <= i < n :: es[i].0.BadKey? then None
        else Some(Dict(DictOf(seq(n, i requires 0 <= i < n =>
          (Name(es[i].0.name), Image(c, rank, es[i].1, path + [Name(es[i].0.name)], shown))))))
      case Sequence(items) =>
        Some(Lst(seq(KeptCount(c, path, |items|), i requires 0 <= i < KeptCount(c, path, |items|) =>
          Image(c, rank, items[i], path + [Index(i)], shown))))
  }

  ghost function Image(c: Config, rank: Ref -> nat, obj: Ref, path: seq<Segment>, shown: bool): Out
    requires Closed(c.w) && Ranked(c.w, rank) && obj in c.w.shapes
    decreases rank(obj), 1
  {
    var sh := c.w.shapes[obj];
    var content := if sh.Annotated? then Content(c, rank, sh.value, path, false)
                   else Content(c, rank, obj, path, shown);
    if content.Some? then content.value else Lost(c, path)
  }

  ghost function Shortened(c: Config, path: seq<Segment>, text: Text): Text {
    if IsSpanDescription(path) then text else Strip(text, c.maxLength).value
  }

  ghost function ShownBy(c: Config, f: Flags): bool {
    if f.reprStrings.Some? then f.reprStrings.value else c.isVars
  }

  /** None of the objects being serialized ranks below `n`. */
  ghost predicate AtLeast(rank: Ref -> nat, ids: set<Ref>, n: nat) {
    forall r <- ids :: rank(r) >= n
  }

  /** The tree can take any annotation at a plain path, and stays like that. */
  ghost predicate Orderly(o: Outcome, s: State) {
    o.s.ids == s.ids && Clean(o.s.tree)
  }

  lemma AnnotatingIsOrderly(path: seq<Segment>, meta: Meta, s: State)
    requires PlainPath(path) && Clean(s.tree)
    ensures Annotating(path, meta, s).res == Done(Null) && Orderly(Annotating(path, meta, s), s)
  {
    hide Clean, Plain, PlainPath, Annotate;
    PlainPathIsPlain(path);
    AnnotateClean(s.tree, Strs(path), meta, []);
  }

  lemma StrippingIsOrderly(c: Config, path: seq<Segment>, text: Text, s: State)
    requires PlainPath(path) && Clean(s.tree)
    ensures Stripping(c, path, text, s).res == Done(Txt(Strip(text, c.maxLength).value))
    ensures Orderly(Stripping(c, path, text, s), s)
  {
    hide Clean, PlainPath, Annotating, Strip;
    forall meta: Meta
      ensures Annotating(path, meta, s).res == Done(Null) && Orderly(Annotating(path, meta, s), s)
    {
      AnnotatingIsOrderly(path, meta, s);
    }
  }

  lemma {:induction false} NodeImage(c: Config, rank: Ref -> nat, obj: Ref, path: seq<Segment>, f: Flags, stack: nat,
                                     s: State)
    requires Closed(c.w) && obj in c.w.shapes && Ranked(c.w, rank) && PlainKeys(c.w)
    requires PlainPath(path) && Clean(s.tree) && Placed(c, path, f)
    requires stack > rank(obj) && AtLeast(rank, s.ids, rank(obj) + 1)
    ensures var o := Node(c, obj, path, f, stack, s);
            o.res == Done(Image(c, rank, obj, path, ShownBy(c, f))) && Orderly(o, s)
    decreases rank(obj), 2, 0
  {
    hide Impl, Body, PlainKeys, PlainPath, Clean, Placed, Content, Inside, Annotating, Closed, Lost;
    NodeStep(c, obj, path, f, stack, s);
    var s', sh, v := s.(ids := s.ids + {obj}), c.w.shapes[obj], Flattened(c, obj);
    ImplStep(c, obj, path, f, stack - 1, s');
    if sh.Annotated? {
      AnnotatingIsOrderly(path, sh.metadata, s');
    }
    PlacedIsInside(c, sh, path, f);
    ParentDecides(c, path, f);
    var first := Flattening(sh, path, s');
    var shown := if sh.Annotated? then false else ShownBy(c, f);
    BodyImage(c, rank, v, path, Resolve(c, sh, path, f), stack - 1, first.s, shown);
    assert s'.ids - {obj} == s.ids;
  }

  lemma BodyImage(c: Config, rank: Ref -> nat, obj: Ref, path: seq<Segment>, f: Flags, stack: nat, s: State,
                  shown: bool)
    requires Closed(c.w) && obj in c.w.shapes && Ranked(c.w, rank) && PlainKeys(c.w)
    requires PlainPath(path) && Clean(s.tree) && Inside(c, path, f) && f.reprStrings == Some(shown)
    requires stack >= rank(obj) && AtLeast(rank, s.ids, rank(obj))
    ensures var o, content := Body(c, obj, path, f, stack, s), Content(c, rank, obj, path, shown);
            o.res == (if content.Some? then Done(content.value) else Raised) && Orderly(o, s)
    decreases rank(obj), 1, 1
  {
    hide Loop, PlainKeys, PlainPath, Clean, Annotating, Stripping, Ranked, Image, Decision, IsSpanDescription;
    var sh := c.w.shapes[obj];
    AnnotatingIsOrderly(path, map["rem" := Removed], s);
    var trimmed := Annotating(path, map["rem" := Removed], s);
    StrippingIsOrderly(c, path, c.w.repr(obj), trimmed.s);
    StrippingIsOrderly(c, path, c.w.repr(obj), s);
    if sh.Str? {
      StrippingIsOrderly(c, path, sh.text, s);
    }
    if !CutOff(c, path) && (sh.Mapping? || sh.Sequence?) {
      ContainerImage(c, rank, obj, path, f, stack, s, shown);
    }
  }

  /** The children of an object, and their images. */
  ghost predicate ChildrenOf(c: Config, rank: Ref -> nat, obj: Ref, cs: seq<Child>) {
    forall i | 0 <= i < |cs| :: cs[i].ref in c.w.shapes && rank(cs[i].ref) < rank(obj)
  }

  ghost function Images(c: Config, rank: Ref -> nat, cs: seq<Child>, n: nat, path: seq<Segment>, shown: bool): Kept
    requires Closed(c.w) && Ranked(c.w, rank) && n <= |cs|
    requires forall i | 0 <= i < |cs| :: cs[i].ref in c.w.shapes
    requires forall i | 0 <= i < n :: cs[i].segment.Some?
  {
    seq(n, i requires 0 <= i < n =>
      (cs[i].segment.value, Image(c, rank, cs[i].ref, path + [cs[i].segment.value], shown)))
  }

  lemma ContainerImage(c: Config, rank: Ref -> nat, obj: Ref, path: seq<Segment>, f: Flags, stack: nat, s: State,
                       shown: bool)
    requires Closed(c.w) && obj in c.w.shapes && Ranked(c.w, rank) && PlainKeys(c.w)
    requires c.w.shapes[obj].Mapping? || c.w.shapes[obj].Sequence?
    requires PlainPath(path) && Clean(s.tree) && Inside(c, path, f) && f.reprStrings == Some(shown)
    requires !CutOff(c, path) && stack >= rank(obj) && AtLeast(rank, s.ids, rank(obj))
    ensures var sh := c.w.shapes[obj];
            var o := Loop(c, sh.Mapping?, Children(sh), 0, [], path, f, stack, s);
            var content := Content(c, rank, obj, path, shown);
            o.res == (if content.Some? then Done(content.value) else Raised) && Orderly(o, s)
    decreases rank(obj), 1, 0
  {
    hide Loop, PlainKeys, PlainPath, Clean, Image, Inside, DictOf, AtLeast;
    var sh := c.w.shapes[obj];
    var cs := Children(sh);
    var n := KeptCount(c, path, |cs|);
    ChildrenArePlain(c.w, obj);
    LoopImage(c, rank, obj, sh.Mapping?, cs, 0, [], path, f, stack, s, shown);
    if sh.Mapping? {
      if i :| 0 <= i < n && sh.entries[i].0.BadKey? {
        assert cs[i].segment.None?;
      } else {
        assert forall i | 0 <= i < n :: cs[i].segment == Some(Name(sh.entries[i].0.name));
        assert Images(c, rank, cs, n, path, shown) == seq(n, i requires 0 <= i < n =>
          (Name(sh.entries[i].0.name), Image(c, rank, sh.entries[i].1, path + [Name(sh.entries[i].0.name)], shown)));
      }
    } else {
      assert forall i | 0 <= i < n :: cs[i].segment == Some(Index(i)) && cs[i].ref == sh.items[i];
      var outs := Content(c, rank, obj, path, shown).value.outs;
      assert OutsOf(Images(c, rank, cs, n, path, shown)) == outs;
    }
  }

  lemma {:induction false} LoopImage(c: Config, rank: Ref -> nat, obj: Ref, isMapping: bool, cs: seq<Child>, i: nat,
                                     kept: Kept, path: seq<Segment>, f: Flags, stack: nat, s: State, shown: bool)
    requires Closed(c.w) && Ranked(c.w, rank) && PlainKeys(c.w) && ChildrenOf(c, rank, obj, cs) && PlainChildren(cs)
    requires PlainPath(path) && Clean(s.tree) && Inside(c, path, f) && f.reprStrings == Some(shown)
    requires !CutOff(c, path) && stack >= rank(obj) && AtLeast(rank, s.ids, rank(obj))
    requires i <= KeptCount(c, path, |cs|) && (forall k | 0 <= k < i :: cs[k].segment.Some?)
    requires kept == Images(c, rank, cs, i, path, shown)
    ensures var n, o := KeptCount(c, path, |cs|), Loop(c, isMapping, cs, i, kept, path, f, stack, s);
            && Orderly(o, s)
            && (if exists k | 0 <= k < n :: cs[k].segment.None? then o.res.Raised?
                else o.res == Done(Assemble(isMapping, Images(c, rank, cs, n, path, shown))))
    decreases rank(obj), 0, |cs| - i
  {
    hide Node, Loop, PlainKeys, Clean, Image, AtLeast, Ranked, Closed, Assemble, Annotating, Decision;
    LoopStep(c, isMapping, cs, i, kept, path, f, stack, s);
    if i == KeptCount(c, path, |cs|) {
      AnnotatingIsOrderly(path, map["len" := Length(|cs|)], s);
    } else if cs[i].segment.Some? {
      var segment := cs[i].segment.value;
      ChildIsPlaced(c, path, f, segment);
      MoreAtLeast(rank, s.ids, rank(cs[i].ref) + 1, rank(obj));
      NodeImage(c, rank, cs[i].ref, path + [segment], ChildFlags(f), stack, s);
      var o := Node(c, cs[i].ref, path + [segment], ChildFlags(f), stack, s);
      var kept' := kept + [(segment, o.res.out)];
      assert kept' == Images(c, rank, cs, i + 1, path, shown);
      LoopImage(c, rank, obj, isMapping, cs, i + 1, kept', path, f, stack, o.s, shown);
    }
  }

  lemma MoreAtLeast(rank: Ref -> nat, ids: set<Ref>, m: nat, n: nat)
    requires AtLeast(rank, ids, n) && m <= n
    ensures AtLeast(rank, ids, m)
  {
  }

  /** A call whose result is the image of its object. */
  ghost predicate Imaged(c: Config, rank: Ref -> nat, x: Call) {
    && Possible(c, x) && PlainPath(x.path) && Clean(x.s.tree) && Placed(c, x.path, x.f)
    && x.stack > rank(x.obj) && AtLeast(rank, x.s.ids, rank(x.obj) + 1)
  }

  lemma {:induction false} CallsAreImaged(c: Config, rank: Ref -> nat, x: Call, y: Call)
    requires Possible(c, x) && Ranked(c.w, rank) && PlainKeys(c.w) && Imaged(c, rank, x) && y in Calls(c, x)
    ensures Imaged(c, rank, y)
    decreases x.stack, 0, 0
  {
    hide CallsOfLoop, Inner, Resolve, Placed, Inside, PlainPath, Clean, PlainKeys, Annotating;
    if y != x {
      assert Loops(c, x);
      LoopIsRest(c, x);
      var sh, v, s := c.w.shapes[x.obj], Flattened(c, x.obj), x.s.(ids := x.s.ids + {x.obj});
      if sh.Annotated? {
        AnnotatingIsOrderly(x.path, sh.metadata, s);
      }
      InnerIsInside(c, x);
      var cs := Children(c.w.shapes[v]);
      ChildrenArePlain(c.w, v);
      CallsOfLoopAreImaged(c, rank, x, v, cs, 0, Entered(c, x.obj, x.path, x.s), y);
    }
  }

  lemma InnerIsInside(c: Config, x: Call)
    requires Possible(c, x) && Placed(c, x.path, x.f)
    ensures Inside(c, x.path, Inner(c, x))
  {
    PlacedIsInside(c, c.w.shapes[x.obj], x.path, x.f);
  }

  lemma {:induction false} CallsOfLoopAreImaged(c: Config, rank: Ref -> nat, x: Call, v: Ref, cs: seq<Child>, i: nat,
                                                s: State, y: Call)
    requires Possible(c, x) && x.stack > rank(v) && Inside(c, x.path, Inner(c, x)) && Inner(c, x).depth != Finite(0)
    requires Ranked(c.w, rank) && PlainKeys(c.w) && ChildrenOf(c, rank, v, cs) && PlainChildren(cs) && i <= |cs|
    requires PlainPath(x.path) && Clean(s.tree) && AtLeast(rank, s.ids, rank(v))
    requires y in CallsOfLoop(c, cs, i, x.path, Inner(c, x), x.stack - 1, s)
    ensures Imaged(c, rank, y)
    decreases x.stack - 1, 1, 0, |cs| - i
  {
    hide Calls, Node, Inner, Placed, Inside, Clean, PlainKeys, Image, Ranked, Closed, AtLeast;
    var segment := cs[i].segment.value;
    var z := Call(cs[i].ref, x.path + [segment], ChildFlags(Inner(c, x)), x.stack - 1, s);
    ChildIsPlaced(c, x.path, Inner(c, x), segment);
    MoreAtLeast(rank, s.ids, rank(z.obj) + 1, rank(v));
    if y in Calls(c, z) {
      CallsAreImaged(c, rank, z, y);
    } else {
      NodeImage(c, rank, z.obj, z.path, z.f, z.stack, s);
      CallsOfLoopAreImaged(c, rank, x, v, cs, i + 1, SerializerRuns.Result(c, z).s, y);
    }
  }

  /**
   * For every event without cycles and empty keys, every call of the run yields the image of its
   * object: no state, no history and no number of frames has a part in it.
   */
  lemma EveryCallHasImage(c: Config, rank: Ref -> nat, event: Ref, stack: nat, y: Call)
    requires Possible(c, Root(event, stack)) && Ranked(c.w, rank) && PlainKeys(c.w) && stack > rank(event)
    requires y in Calls(c, Root(event, stack))
    ensures Possible(c, y)
    ensures SerializerRuns.Result(c, y).res ==
            Done(Image(c, rank, y.obj, y.path, c.isVars && !Wrapped(c, Calls(c, Root(event, stack)), y)))
  {
    hide Calls, Clean, Placed, Node, Content, Wrapped, PlainKeys, PlainPath, AtLeast;
    var root := Root(event, stack);
    RootIsOrderly(c, rank, event);
    CallsAreImaged(c, rank, root, y);
    NodeImage(c, rank, y.obj, y.path, y.f, y.stack, y.s);
    ShownIffVarsOutsideAnnotated(c, event, stack, y);
  }

  lemma RootIsOrderly(c: Config, rank: Ref -> nat, event: Ref)
    ensures PlainPath([]) && Clean(START.tree) && Placed(c, [], NO_FLAGS) && AtLeast(rank, START.ids, rank(event) + 1)
  {
    RootIsPlaced(c);
  }

  lemma EventHasImage(c: Config, rank: Ref -> nat, event: Ref, stack: nat)
    requires Closed(c.w) && event in c.w.shapes && Ranked(c.w, rank) && PlainKeys(c.w) && stack > rank(event)
    ensures Run(c, event, stack).res == Done(Image(c, rank, event, [], c.isVars))
  {
    hide Clean, Placed, Node, Image, PlainKeys, PlainPath, AtLeast;
    RootIsOrderly(c, rank, event);
    NodeImage(c, rank, event, [], NO_FLAGS, stack, START);
  }

  // ---------------------------------------------------------------- events that come back as they are

  /** The keys of a mapping can be read and are pairwise different. */
  ghost predicate GoodKeys(es: seq<(Key, Ref)>) {
    && (forall i | 0 <= i < |es| :: es[i].0.Key?)
    && (forall i, j | 0 <= i < j < |es| :: es[i].0 != es[j].0)
  }

  /** The text is within the limit. */
  ghost predicate Short(c: Config, text: Text) {
    || c.maxLength.None?
    || text == []
    || (|text| <= c.maxLength.value && (Encodable(text) ==> |Encode(text)| <= c.maxLength.value))
  }

  /** Everything below `obj` is JSON, within the limits that hold at its place. */
  ghost predicate Tame(c: Config, rank: Ref -> nat, obj: Ref, path: seq<Segment>)
    requires Closed(c.w) && Ranked(c.w, rank) && obj in c.w.shapes
    decreases rank(obj)
  {
    && !CutOff(c, path)
    && match c.w.shapes[obj]
       case Scalar(_, special) => !special
       case Str(text) => Short(c, text) || IsSpanDescription(path)
       case Mapping(es) =>
         && GoodKeys(es) && (Bag(c, path) ==> |es| <= 10)
         && forall i | 0 <= i < |es| :: Tame(c, rank, es[i].1, path + [Name(es[i].0.name)])
       case Sequence(items) =>
         && (Bag(c, path) ==> |items| <= 10)
         && forall i | 0 <= i < |items| :: Tame(c, rank, items[i], path + [Index(i)])
       case _ => false
  }

  /** The JSON an object stands for. */
  ghost function Own(w: World, rank: Ref -> nat, obj: Ref): Out
    requires Closed(w) && Ranked(w, rank) && obj in w.shapes
    decreases rank(obj)
  {
    match w.shapes[obj]
    case Scalar(literal, _) => Literal(literal)
    case Str(text) => Txt(text)
    case Mapping(es) =>
      Dict(seq(|es|, i requires 0 <= i < |es| =>
        (if es[i].0.Key? then es[i].0.name else "", Own(w, rank, es[i].1))))
    case Sequence(items) => Lst(seq(|items|, i requires 0 <= i < |items| => Own(w, rank, items[i])))
    case _ => Null
  }

  /** Keys that are all different stay in order. */
  lemma {:induction false} PutNew(d: seq<(string, Out)>, key: string, out: Out)
    requires forall i | 0 <= i < |d| :: d[i].0 != key
    ensures Put(d, key, out) == d + [(key, out)]
  {
    if d != [] {
      PutNew(d[1..], key, out);
      assert [d[0]] + (d[1..] + [(key, out)]) == d + [(key, out)];
    }
  }

  lemma {:induction false} DictOfDistinct(kept: Kept)
    requires forall i, j | 0 <= i < j < |kept| :: StrOf(kept[i].0) != StrOf(kept[j].0)
    ensures |DictOf(kept)| == |kept|
    ensures forall i | 0 <= i < |kept| :: DictOf(kept)[i] == (StrOf(kept[i].0), kept[i].1)
  {
    hide StrOf, Put;
    if kept != [] {
      var n := |kept| - 1;
      DictOfDistinct(kept[..n]);
      PutNew(DictOf(kept[..n]), StrOf(kept[n].0), kept[n].1);
    }
  }

  lemma ShortIsWhole(c: Config, text: Text)
    requires Short(c, text)
    ensures Strip(text, c.maxLength) == Whole(text)
  {
  }

  lemma {:induction false} NodeIsOwn(c: Config, rank: Ref -> nat, obj: Ref, path: seq<Segment>, f: Flags, stack: nat,
                                     s: State)
    requires Closed(c.w) && obj in c.w.shapes && Ranked(c.w, rank) && Tame(c, rank, obj, path)
    requires Placed(c, path, f) && !ShownBy(c, f) && stack > rank(obj) && AtLeast(rank, s.ids, rank(obj) + 1)
    ensures Node(c, obj, path, f, stack, s) == Outcome(Done(Own(c.w, rank, obj)), [], s)
    decreases rank(obj), 2, 0
  {
    hide Impl, Body, Tame, Placed, Inside, Closed, Own;
    NodeStep(c, obj, path, f, stack, s);
    var s', sh := s.(ids := s.ids + {obj}), c.w.shapes[obj];
    ImplStep(c, obj, path, f, stack - 1, s');
    PlacedIsInside(c, sh, path, f);
    TameIsNotAnnotated(c, rank, obj, path);
    BodyIsOwn(c, rank, obj, path, Resolve(c, sh, path, f), stack - 1, s');
    assert s'.ids - {obj} == s.ids;
  }

  lemma TameIsNotAnnotated(c: Config, rank: Ref -> nat, obj: Ref, path: seq<Segment>)
    requires Closed(c.w) && obj in c.w.shapes && Ranked(c.w, rank) && Tame(c, rank, obj, path)
    ensures !c.w.shapes[obj].Annotated?
  {
  }

  lemma BodyIsOwn(c: Config, rank: Ref -> nat, obj: Ref, path: seq<Segment>, f: Flags, stack: nat, s: State)
    requires Closed(c.w) && obj in c.w.shapes && Ranked(c.w, rank) && Tame(c, rank, obj, path)
    requires Inside(c, path, f) && f.reprStrings == Some(false)
    requires stack >= rank(obj) && AtLeast(rank, s.ids, rank(obj))
    ensures Body(c, obj, path, f, stack, s) == Outcome(Done(Own(c.w, rank, obj)), [], s)
    decreases rank(obj), 1, 1
  {
    hide Loop, Ranked, Decision, IsSpanDescription, Strip, DictOf, BagDepth;
    var sh := c.w.shapes[obj];
    if sh.Str? && Short(c, sh.text) {
      ShortIsWhole(c, sh.text);
    } else if sh.Mapping? || sh.Sequence? {
      ContainerIsOwn(c, rank, obj, path, f, stack, s);
    }
  }

  ghost function Owns(c: Config, rank: Ref -> nat, cs: seq<Child>, n: nat): Kept
    requires Closed(c.w) && Ranked(c.w, rank) && n <= |cs|
    requires forall i | 0 <= i < |cs| :: cs[i].ref in c.w.shapes && cs[i].segment.Some?
  {
    seq(n, i requires 0 <= i < n => (cs[i].segment.value, Own(c.w, rank, cs[i].ref)))
  }

  ghost predicate TameChildren(c: Config, rank: Ref -> nat, cs: seq<Child>, path: seq<Segment>)
    requires Closed(c.w) && Ranked(c.w, rank)
  {
    forall i | 0 <= i < |cs| ::
      cs[i].ref in c.w.shapes && cs[i].segment.Some? && Tame(c, rank, cs[i].ref, path + [cs[i].segment.value])
  }

  lemma ContainerIsOwn(c: Config, rank: Ref -> nat, obj: Ref, path: seq<Segment>, f: Flags, stack: nat, s: State)
    requires Closed(c.w) && obj in c.w.shapes && Ranked(c.w, rank) && Tame(c, rank, obj, path)
    requires c.w.shapes[obj].Mapping? || c.w.shapes[obj].Sequence?
    requires Inside(c, path, f) && f.reprStrings == Some(false)
    requires stack >= rank(obj) && AtLeast(rank, s.ids, rank(obj))
    ensures var sh := c.w.shapes[obj];
            Loop(c, sh.Mapping?, Children(sh), 0, [], path, f, stack, s) ==
            Outcome(Done(Own(c.w, rank, obj)), [], s)
    decreases rank(obj), 1, 0
  {
    hide Loop, Inside, DictOf, AtLeast, BagDepth, Decision;
    var sh := c.w.shapes[obj];
    var cs := Children(sh);
    assert TameChildren(c, rank, cs, path);
    LoopIsOwn(c, rank, obj, sh.Mapping?, cs, 0, [], path, f, stack, s);
    var own := Owns(c, rank, cs, |cs|);
    if sh.Mapping? {
      DictOfDistinct(own);
      assert DictOf(own) == Own(c.w, rank, obj).pairs;
    } else {
      assert OutsOf(own) == Own(c.w, rank, obj).outs;
    }
  }

  lemma {:induction false} LoopIsOwn(c: Config, rank: Ref -> nat, obj: Ref, isMapping: bool, cs: seq<Child>, i: nat,
                                     kept: Kept, path: seq<Segment>, f: Flags, stack: nat, s: State)
    requires Closed(c.w) && Ranked(c.w, rank) && ChildrenOf(c, rank, obj, cs) && TameChildren(c, rank, cs, path)
    requires Inside(c, path, f) && f.reprStrings == Some(false) && !CutOff(c, path) && (Bag(c, path) ==> |cs| <= 10)
    requires stack >= rank(obj) && AtLeast(rank, s.ids, rank(obj)) && i <= |cs| && kept == Owns(c, rank, cs, i)
    ensures Loop(c, isMapping, cs, i, kept, path, f, stack, s) ==
            Outcome(Done(Assemble(isMapping, Owns(c, rank, cs, |cs|))), [], s)
    decreases rank(obj), 0, |cs| - i
  {
    hide Node, Loop, AtLeast, Ranked, Closed, Assemble, Annotating, Decision, Tame, Own;
    LoopStep(c, isMapping, cs, i, kept, path, f, stack, s);
    if i < |cs| {
      var segment := cs[i].segment.value;
      ChildIsPlaced(c, path, f, segment);
      MoreAtLeast(rank, s.ids, rank(cs[i].ref) + 1, rank(obj));
      NodeIsOwn(c, rank, cs[i].ref, path + [segment], ChildFlags(f), stack, s);
      var o := Node(c, cs[i].ref, path + [segment], ChildFlags(f), stack, s);
      var kept' := kept + [(segment, o.res.out)];
      assert kept' == Owns(c, rank, cs, i + 1);
      LoopIsOwn(c, rank, obj, isMapping, cs, i + 1, kept', path, f, stack, s);
    }
  }

  /**
   * Outside of stack variables, an event of plain JSON within its limits comes out as itself, with
   * nothing annotated.
   */
  lemma PlainEventIsKept(c: Config, rank: Ref -> nat, event: Ref, stack: nat)
    requires Closed(c.w) && event in c.w.shapes && Ranked(c.w, rank) && stack > rank(event)
    requires !c.isVars && Tame(c, rank, event, [])
    ensures Run(c, event, stack) == Outcome(Done(Own(c.w, rank, event)), [], START)
  {
    hide Tame, Placed, Node, Own;
    RootIsPlaced(c);
    NodeIsOwn(c, rank, event, [], NO_FLAGS, stack, START);
  }

  /** `{"n": literal}` comes out as `{"n": literal}`. */
  lemma NumberIsKept(literal: Text, repr: Ref -> Text, stack: nat)
    requires stack > 1
    ensures var w := World(map[0 := Mapping([(Key("n"), 1)]), 1 := Scalar(literal, false)], repr);
            Run(Config(w, false, None, false), 0, stack).res == Done(Dict([("n", Literal(literal))]))
  {
    hide Node;
    var w := World(map[0 := Mapping([(Key("n"), 1)]), 1 := Scalar(literal, false)], repr);
    var c := Config(w, false, None, false);
    var rank: Ref -> nat := r => if r == 0 then 1 else 0;
    assert Ranked(w, rank) && Closed(w);
    assert [] + [Name("n")] == [Name("n")];
    assert Tame(c, rank, 1, [Name("n")]);
    assert Tame(c, rank, 0, []);
    PlainEventIsKept(c, rank, 0, stack);
    assert Own(w, rank, 1) == Literal(literal);
    assert Own(w, rank, 0).pairs == [("n", Literal(literal))];
  }
}
