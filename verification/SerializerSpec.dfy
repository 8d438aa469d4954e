/**
 * What `sentry_sdk/serializer.py` computes, as a function.
 *
 * The objects being serialized form a heap that is only read, possibly cyclic: a `World` maps each
 * identity to what the serializer can see of the object.  A call yields its result, the calls of
 * `_annotate` it makes in order, and the memo and the `_meta` tree it leaves.
 */
module SerializerSpec {
  import opened Options
  import opened Utf8
  import opened StripString
  import opened MetaDict

  type Ref = nat

  /** The decimal digits of `str(n)`. */
  function Decimal(n: nat): string {
    if n < 10 then [('0' as int + n) as char]
    else Decimal(n / 10) + [('0' as int + n % 10) as char]
  }

  // ---------------------------------------------------------------- objects and results

  /** A mapping key after `str(k)`; computing it may raise. */
  datatype Key = Key(name: string) | BadKey

  datatype Shape =
    | Scalar(literal: Text, special: bool)           // None, bool, int, float; special: inf or nan
    | Str(text: Text)                                // strings, and bytes as decoded
    | Mapping(entries: seq<(Key, Ref)>)
    | Sequence(items: seq<Ref>)
    | Annotated(value: Ref, metadata: Meta)          // AnnotatedValue
    | Date(formatted: Text)
    | Other                                          // anything else: shown by its repr
    | Hostile                                        // raises as soon as it is examined

  /** `repr` stands for `safe_repr`, which never raises. */
  datatype World = World(shapes: map<Ref, Shape>, repr: Ref -> Text)

  ghost predicate Closed(w: World) {
    forall r <- w.shapes ::
      match w.shapes[r]
      case Mapping(es) => forall i | 0 <= i < |es| :: es[i].1 in w.shapes
      case Sequence(items) => forall i | 0 <= i < |items| :: items[i] in w.shapes
      case Annotated(v, _) => v in w.shapes
      case _ => true
  }

  datatype Segment = Name(name: string) | Index(i: nat)

  /** `str(segment)` */
  function StrOf(s: Segment): string {
    match s
    case Name(n) => n
    case Index(i) => Decimal(i)
  }

  function Strs(path: seq<Segment>): (q: seq<string>)
    ensures |q| == |path| && forall i | 0 <= i < |q| :: q[i] == StrOf(path[i])
  {
    seq(|path|, i requires 0 <= i < |path| => StrOf(path[i]))
  }

  datatype Out =
    | Null
    | Failed                                         // "<failed to serialize, ...>"
    | Cyclic                                         // "<cyclic>"
    | Literal(literal: Text)
    | Txt(text: Text)
    | Dict(pairs: seq<(string, Out)>)
    | Lst(outs: seq<Out>)

  datatype Result = Done(out: Out) | Raised

  /** What a serialization changes: the objects being serialized, and the `_meta` tree. */
  datatype State = State(ids: set<Ref>, tree: Tree)

  const START := State({}, EMPTY)

  datatype Outcome = Outcome(res: Result, log: seq<Note>, s: State)

  // ---------------------------------------------------------------- parameters

  datatype Config = Config(w: World, keepBodies: bool, maxLength: Option<int>, isVars: bool)

  datatype Limit = Unset | Finite(n: nat) | Infinite

  function Minus1(l: Limit): Limit {
    if l.Finite? && l.n > 0 then Finite(l.n - 1) else l
  }

  predicate Reached(l: Limit, i: nat) {
    l.Finite? && i >= l.n
  }

  /** The inherited parameters of `_serialize_node`. */
  datatype Flags = Flags(isDatabag: Option<bool>, isRequestBody: Option<bool>, reprStrings: Option<bool>,
                         depth: Limit, breadth: Limit)

  const NO_FLAGS := Flags(None, None, None, Unset, Unset)

  const MAX_DATABAG_DEPTH: nat := 5
  const MAX_DATABAG_BREADTH: nat := 10

  /** `_is_request_body`: None when the path is too short to tell. */
  function IsRequestBody(path: seq<Segment>): Option<bool> {
    if |path| == 0 then None
    else if path[0] != Name("request") then Some(false)
    else if |path| == 1 then None
    else Some(path[1] == Name("data"))
  }

  /** `_is_databag` */
  function IsDatabag(c: Config, path: seq<Segment>): Option<bool> {
    if c.isVars then Some(true)
    else if IsRequestBody(path) != Some(false) then IsRequestBody(path)
    else if path[0] == Name("breadcrumbs") && |path| == 1 then None
    else if path[0] == Name("breadcrumbs") && path[1] == Name("values") then
      (if |path| == 2 then None else Some(true))
    else Some(path[0] == Name("extra"))
  }

  /** The parameters after `_serialize_node_impl` has filled them in. */
  function Resolve(c: Config, sh: Shape, path: seq<Segment>, f: Flags): Flags {
    var repr := if sh.Annotated? then Some(false) else f.reprStrings;
    var reprStrings := if repr.None? then Some(c.isVars) else repr;
    var isDatabag := if f.isDatabag.None? then IsDatabag(c, path) else f.isDatabag;
    var isRequestBody := if f.isRequestBody.None? then IsRequestBody(path) else f.isRequestBody;
    if isDatabag == Some(true) then
      if isRequestBody == Some(true) && c.keepBodies then
        Flags(isDatabag, isRequestBody, reprStrings, Infinite, Infinite)
      else
        Flags(isDatabag, isRequestBody, reprStrings,
              if f.depth.Unset? then Finite(MAX_DATABAG_DEPTH) else f.depth,
              if f.breadth.Unset? then Finite(MAX_DATABAG_BREADTH) else f.breadth)
    else
      Flags(isDatabag, isRequestBody, reprStrings, f.depth, f.breadth)
  }

  function ChildFlags(f: Flags): Flags {
    f.(depth := Minus1(f.depth))
  }

  // ---------------------------------------------------------------- the recursive walk

  /** `_annotate`: it raises, and changes nothing, where its way is blocked by a value. */
  function Annotating(path: seq<Segment>, meta: Meta, s: State): (o: Outcome)
    ensures o.log == [Note(Strs(path), meta)] && o.s == State(s.ids, After(s.tree, Strs(path), meta))
  {
    Outcome(if Annotate(s.tree, Strs(path), meta).Some? then Done(Null) else Raised,
            [Note(Strs(path), meta)], s.(tree := After(s.tree, Strs(path), meta)))
  }

  /** A result, unless what had to be annotated for it raised. */
  function Yielding(o: Outcome, out: Out): Outcome {
    o.(res := if o.res.Done? then Done(out) else Raised)
  }

  /** `strip_string`, flattened: a cut text is annotated first. */
  function Stripping(c: Config, path: seq<Segment>, text: Text, s: State): Outcome {
    match Strip(text, c.maxLength)
    case Whole(t) => Outcome(Done(Txt(t)), [], s)
    case Cut(t, len, limit) =>
      Yielding(Annotating(path, map["len" := Length(len), "rem" := RemovedFrom(limit - 3, limit)], s), Txt(t))
  }

  /** `next`, after what was done so far. */
  function Following(log: seq<Note>, next: Outcome): Outcome {
    next.(log := log + next.log)
  }

  predicate IsSpanDescription(path: seq<Segment>) {
    |path| == 3 && path[0] == Name("spans") && path[2] == Name("description")
  }

  /** A child still to serialize; None if its key could not be turned into a string. */
  datatype Child = Child(segment: Option<Segment>, ref: Ref)

  function Children(sh: Shape): (cs: seq<Child>)
    requires sh.Mapping? || sh.Sequence?
    ensures |cs| == if sh.Mapping? then |sh.entries| else |sh.items|
  {
    match sh
    case Mapping(es) => seq(|es|, i requires 0 <= i < |es| =>
        Child(if es[i].0.Key? then Some(Name(es[i].0.name)) else None, es[i].1))
    case Sequence(items) => seq(|items|, i requires 0 <= i < |items| => Child(Some(Index(i)), items[i]))
  }

  /** `rv[key] = value`: an existing key keeps its place. */
  function Put(d: seq<(string, Out)>, key: string, value: Out): seq<(string, Out)> {
    if d == [] then [(key, value)]
    else if d[0].0 == key then [(key, value)] + d[1..]
    else [d[0]] + Put(d[1..], key, value)
  }

  /** The children serialized so far, each with the segment it was reached by. */
  type Kept = seq<(Segment, Out)>

  function DictOf(kept: Kept): seq<(string, Out)> {
    if kept == [] then []
    else Put(DictOf(kept[..|kept| - 1]), StrOf(kept[|kept| - 1].0), kept[|kept| - 1].1)
  }

  function OutsOf(kept: Kept): (outs: seq<Out>)
    ensures |outs| == |kept| && forall i | 0 <= i < |kept| :: outs[i] == kept[i].1
  {
    seq(|kept|, i requires 0 <= i < |kept| => kept[i].1)
  }

  function Assemble(isMapping: bool, kept: Kept): Out {
    if isMapping then Dict(DictOf(kept)) else Lst(OutsOf(kept))
  }

  ghost predicate Known(c: Config, cs: seq<Child>) {
    forall i | 0 <= i < |cs| :: cs[i].ref in c.w.shapes
  }

  /**
   * `_serialize_node`, with `stack` frames left before the interpreter raises RecursionError.
   * A second visit to an object being serialized is cut short, and forgets the object.
   */
  function Node(c: Config, obj: Ref, path: seq<Segment>, f: Flags, stack: nat, s: State): (o: Outcome)
    requires Closed(c.w) && obj in c.w.shapes
    ensures stack > 0 ==> o.res.Done?
    decreases stack, 0, 0
  {
    if stack == 0 then Outcome(Raised, [], s)
    else if obj in s.ids then Outcome(Done(Cyclic), [], s.(ids := s.ids - {obj}))
    else
      var o := Impl(c, obj, path, f, stack - 1, s.(ids := s.ids + {obj}));
      Outcome(if o.res.Done? then o.res else Done(if f.isDatabag == Some(true) then Failed else Null),
              o.log, o.s.(ids := o.s.ids - {obj}))
  }

  /** The metadata of an `AnnotatedValue` is annotated first. */
  function Flattening(sh: Shape, path: seq<Segment>, s: State): Outcome {
    if sh.Annotated? then Annotating(path, sh.metadata, s) else Outcome(Done(Null), [], s)
  }

  function Flattened(c: Config, obj: Ref): (r: Ref)
    requires Closed(c.w) && obj in c.w.shapes
    ensures r in c.w.shapes
  {
    if c.w.shapes[obj].Annotated? then c.w.shapes[obj].value else obj
  }

  /** `_serialize_node_impl` */
  function Impl(c: Config, obj: Ref, path: seq<Segment>, f: Flags, stack: nat, s: State): (o: Outcome)
    requires Closed(c.w) && obj in c.w.shapes
    decreases stack, 2, 0
  {
    var first := Flattening(c.w.shapes[obj], path, s);
    if first.res.Raised? then first
    else Following(first.log, Body(c, Flattened(c, obj), path, Resolve(c, c.w.shapes[obj], path, f), stack, first.s))
  }

  /** What follows the flattening, with the parameters filled in. */
  function Body(c: Config, obj: Ref, path: seq<Segment>, f: Flags, stack: nat, s: State): (o: Outcome)
    requires Closed(c.w) && obj in c.w.shapes
    decreases stack, 1, 1
  {
    var sh := c.w.shapes[obj];
    if f.depth == Finite(0) then TooDeep(c, obj, path, f, s)
    else if sh.Mapping? || sh.Sequence? then
      Loop(c, sh.Mapping?, Children(sh), 0, [], path, f, stack, s)
    else Childless(c, obj, path, f, s)
  }

  /** A value cut off by its depth: inside a databag its repr is kept. */
  function TooDeep(c: Config, obj: Ref, path: seq<Segment>, f: Flags, s: State): Outcome {
    var trimmed := Annotating(path, map["rem" := Removed], s);
    if trimmed.res.Raised? then trimmed
    else if f.isDatabag == Some(true) then
      Following(trimmed.log, Stripping(c, path, c.w.repr(obj), trimmed.s))
    else trimmed
  }

  /** Everything that has no children. */
  function Childless(c: Config, obj: Ref, path: seq<Segment>, f: Flags, s: State): Outcome
    requires obj in c.w.shapes
  {
    var sh := c.w.shapes[obj];
    var shown := f.reprStrings == Some(true);
    if sh.Hostile? then Outcome(Raised, [], s)
    else if sh.Scalar? then
      Outcome(Done(if shown || sh.special then Txt(c.w.repr(obj)) else Literal(sh.literal)), [], s)
    else if sh.Date? then Outcome(Done(Txt(if shown then c.w.repr(obj) else sh.formatted)), [], s)
    else
      var text := if shown || !sh.Str? then c.w.repr(obj) else sh.text;
      if IsSpanDescription(path) then Outcome(Done(Txt(text)), [], s)
      else Stripping(c, path, text, s)
  }

  /** The loop over the children `cs` of a container, the first `i` of them done. */
  function Loop(c: Config, isMapping: bool, cs: seq<Child>, i: nat, kept: Kept, path: seq<Segment>, f: Flags,
                stack: nat, s: State): (o: Outcome)
    requires Closed(c.w) && Known(c, cs) && i <= |cs|
    decreases stack, 1, 0, |cs| - i
  {
    if i == |cs| then Outcome(Done(Assemble(isMapping, kept)), [], s)
    else if Reached(f.breadth, i) then
      Yielding(Annotating(path, map["len" := Length(|cs|)], s), Assemble(isMapping, kept))
    else if cs[i].segment.None? then Outcome(Raised, [], s)
    else
      var segment := cs[i].segment.value;
      var o := Node(c, cs[i].ref, path + [segment], ChildFlags(f), stack, s);
      if o.res.Raised? then o
      else
        Following(o.log, Loop(c, isMapping, cs, i + 1, kept + [(segment, o.res.out)], path, f, stack, o.s))
  }

  // ---------------------------------------------------------------- unfoldings

  /** One unfolding of `Node`. */
  lemma NodeStep(c: Config, obj: Ref, path: seq<Segment>, f: Flags, stack: nat, s: State)
    requires Closed(c.w) && obj in c.w.shapes
    ensures Node(c, obj, path, f, stack, s) ==
      if stack == 0 then Outcome(Raised, [], s)
      else if obj in s.ids then Outcome(Done(Cyclic), [], s.(ids := s.ids - {obj}))
      else
        var o := Impl(c, obj, path, f, stack - 1, s.(ids := s.ids + {obj}));
        Outcome(if o.res.Done? then o.res else Done(if f.isDatabag == Some(true) then Failed else Null),
                o.log, o.s.(ids := o.s.ids - {obj}))
  {
  }

  /** One unfolding of `Loop`. */
  lemma LoopStep(c: Config, isMapping: bool, cs: seq<Child>, i: nat, kept: Kept, path: seq<Segment>, f: Flags,
                 stack: nat, s: State)
    requires Closed(c.w) && Known(c, cs) && i <= |cs|
    ensures Loop(c, isMapping, cs, i, kept, path, f, stack, s) ==
      if i == |cs| then Outcome(Done(Assemble(isMapping, kept)), [], s)
      else if Reached(f.breadth, i) then
        Yielding(Annotating(path, map["len" := Length(|cs|)], s), Assemble(isMapping, kept))
      else if cs[i].segment.None? then Outcome(Raised, [], s)
      else
        var segment := cs[i].segment.value;
        var o := Node(c, cs[i].ref, path + [segment], ChildFlags(f), stack, s);
        if o.res.Raised? then o
        else
          Following(o.log, Loop(c, isMapping, cs, i + 1, kept + [(segment, o.res.out)], path, f, stack, o.s))
  {
  }

  /** One unfolding of `Impl`. */
  lemma ImplStep(c: Config, obj: Ref, path: seq<Segment>, f: Flags, stack: nat, s: State)
    requires Closed(c.w) && obj in c.w.shapes
    ensures Impl(c, obj, path, f, stack, s) ==
      var first := Flattening(c.w.shapes[obj], path, s);
      if first.res.Raised? then first
      else
        Following(first.log, Body(c, Flattened(c, obj), path, Resolve(c, c.w.shapes[obj], path, f), stack, first.s))
  {
  }
}
