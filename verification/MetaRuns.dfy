/** The `_meta` tree of a whole serialization: when it says what was annotated, and how it can fail to. */
module MetaRuns {
  import opened Options
  import opened Utf8
  import opened StripString
  import opened MetaDict
  import opened SerializerSpec

  // ---------------------------------------------------------------- the tree is the log

  /** An outcome's tree is what its annotations, applied in order, make of the tree it started from. */
  ghost predicate Logged(o: Outcome, tree: Tree) {
    o.s.tree == Applied(tree, o.log)
  }

  lemma AnnotatingIsLogged(path: seq<Segment>, meta: Meta, s: State)
    ensures Logged(Annotating(path, meta, s), s.tree)
  {
    var note := Note(Strs(path), meta);
    assert [note][..0] == [];
  }

  lemma FollowingIsLogged(log: seq<Note>, middle: Tree, next: Outcome, tree: Tree)
    requires middle == Applied(tree, log) && Logged(next, middle)
    ensures Logged(Following(log, next), tree)
  {
    AppliedConcat(tree, log, next.log);
  }

  lemma {:induction false} NodeIsLogged(c: Config, obj: Ref, path: seq<Segment>, f: Flags, stack: nat, s: State)
    requires Closed(c.w) && obj in c.w.shapes
    ensures Logged(Node(c, obj, path, f, stack, s), s.tree)
    decreases stack, 0, 0
  {
    hide Node, Impl, Body, Annotating;
    NodeStep(c, obj, path, f, stack, s);
    if stack > 0 && obj !in s.ids {
      var s' := s.(ids := s.ids + {obj});
      ImplStep(c, obj, path, f, stack - 1, s');
      var first := Flattening(c.w.shapes[obj], path, s');
      if c.w.shapes[obj].Annotated? {
        AnnotatingIsLogged(path, c.w.shapes[obj].metadata, s');
      }
      if first.res.Done? {
        var f' := Resolve(c, c.w.shapes[obj], path, f);
        BodyIsLogged(c, Flattened(c, obj), path, f', stack - 1, first.s);
        FollowingIsLogged(first.log, first.s.tree, Body(c, Flattened(c, obj), path, f', stack - 1, first.s), s.tree);
      }
    }
  }

  lemma BodyIsLogged(c: Config, obj: Ref, path: seq<Segment>, f: Flags, stack: nat, s: State)
    requires Closed(c.w) && obj in c.w.shapes
    ensures Logged(Body(c, obj, path, f, stack, s), s.tree)
    decreases stack, 1, 1
  {
    hide Loop, Stripping, Annotating;
    var sh := c.w.shapes[obj];
    if f.depth == Finite(0) {
      var trimmed := Annotating(path, map["rem" := Removed], s);
      AnnotatingIsLogged(path, map["rem" := Removed], s);
      StrippingIsLogged(c, path, c.w.repr(obj), trimmed.s);
      FollowingIsLogged(trimmed.log, trimmed.s.tree, Stripping(c, path, c.w.repr(obj), trimmed.s), s.tree);
    } else if sh.Mapping? || sh.Sequence? {
      LoopIsLogged(c, sh.Mapping?, Children(sh), 0, [], path, f, stack, s);
    } else if sh.Str? {
      StrippingIsLogged(c, path, sh.text, s);
      StrippingIsLogged(c, path, c.w.repr(obj), s);
    } else {
      StrippingIsLogged(c, path, c.w.repr(obj), s);
    }
  }

  lemma StrippingIsLogged(c: Config, path: seq<Segment>, text: Text, s: State)
    ensures Logged(Stripping(c, path, text, s), s.tree)
  {
    hide Strip, Annotating;
    match Strip(text, c.maxLength)
    case Whole(_) =>
    case Cut(_, len, limit) =>
      AnnotatingIsLogged(path, map["len" := Length(len), "rem" := RemovedFrom(limit - 3, limit)], s);
  }

  lemma {:induction false} LoopIsLogged(c: Config, isMapping: bool, cs: seq<Child>, i: nat, kept: Kept,
                                        path: seq<Segment>, f: Flags, stack: nat, s: State)
    requires Closed(c.w) && Known(c, cs) && i <= |cs|
    ensures Logged(Loop(c, isMapping, cs, i, kept, path, f, stack, s), s.tree)
    decreases stack, 1, 0, |cs| - i
  {
    hide Node, Loop, Annotating;
    LoopStep(c, isMapping, cs, i, kept, path, f, stack, s);
    if i < |cs| {
      if Reached(f.breadth, i) {
        AnnotatingIsLogged(path, map["len" := Length(|cs|)], s);
      } else if cs[i].segment.Some? {
        var segment := cs[i].segment.value;
        NodeIsLogged(c, cs[i].ref, path + [segment], ChildFlags(f), stack, s);
        var o := Node(c, cs[i].ref, path + [segment], ChildFlags(f), stack, s);
        if o.res.Done? {
          var kept' := kept + [(segment, o.res.out)];
          LoopIsLogged(c, isMapping, cs, i + 1, kept', path, f, stack, o.s);
          FollowingIsLogged(o.log, o.s.tree, Loop(c, isMapping, cs, i + 1, kept', path, f, stack, o.s), s.tree);
        }
      }
    }
  }

  // ---------------------------------------------------------------- plain keys

  /** No mapping has the empty string as a key. */
  ghost predicate PlainKeys(w: World) {
    forall r <- w.shapes | w.shapes[r].Mapping? ::
      forall i | 0 <= i < |w.shapes[r].entries| :: w.shapes[r].entries[i].0 != Key("")
  }

  ghost predicate AllPlain(log: seq<Note>) {
    forall i | 0 <= i < |log| :: Plain(log[i].path)
  }

  ghost predicate PlainPath(path: seq<Segment>) {
    forall i | 0 <= i < |path| :: path[i] != Name("")
  }

  lemma PlainPathIsPlain(path: seq<Segment>)
    requires PlainPath(path)
    ensures Plain(Strs(path))
  {
    forall i | 0 <= i < |path|
      ensures Strs(path)[i] != ""
    {
      assert path[i].Index? ==> |Decimal(path[i].i)| > 0;
    }
  }

  lemma {:induction false} NodeIsPlain(c: Config, obj: Ref, path: seq<Segment>, f: Flags, stack: nat, s: State)
    requires Closed(c.w) && obj in c.w.shapes && PlainKeys(c.w) && PlainPath(path)
    ensures AllPlain(Node(c, obj, path, f, stack, s).log)
    decreases stack, 0, 0
  {
    hide Node, Impl, Body, PlainKeys, Plain, PlainPath;
    NodeStep(c, obj, path, f, stack, s);
    PlainPathIsPlain(path);
    if stack > 0 && obj !in s.ids {
      var s' := s.(ids := s.ids + {obj});
      ImplStep(c, obj, path, f, stack - 1, s');
      var first := Flattening(c.w.shapes[obj], path, s');
      BodyIsPlain(c, Flattened(c, obj), path, Resolve(c, c.w.shapes[obj], path, f), stack - 1, first.s);
    }
  }

  lemma BodyIsPlain(c: Config, obj: Ref, path: seq<Segment>, f: Flags, stack: nat, s: State)
    requires Closed(c.w) && obj in c.w.shapes && PlainKeys(c.w) && PlainPath(path)
    ensures AllPlain(Body(c, obj, path, f, stack, s).log)
    decreases stack, 1, 1
  {
    hide Loop, PlainKeys, Plain, PlainPath, Strip;
    var sh := c.w.shapes[obj];
    PlainPathIsPlain(path);
    if f.depth != Finite(0) && (sh.Mapping? || sh.Sequence?) {
      ChildrenArePlain(c.w, obj);
      LoopIsPlain(c, sh.Mapping?, Children(sh), 0, [], path, f, stack, s);
    }
  }

  ghost predicate PlainChildren(cs: seq<Child>) {
    forall i | 0 <= i < |cs| :: cs[i].segment != Some(Name(""))
  }

  lemma ChildrenArePlain(w: World, obj: Ref)
    requires PlainKeys(w) && obj in w.shapes && (w.shapes[obj].Mapping? || w.shapes[obj].Sequence?)
    ensures PlainChildren(Children(w.shapes[obj]))
  {
  }

  lemma {:induction false} LoopIsPlain(c: Config, isMapping: bool, cs: seq<Child>, i: nat, kept: Kept,
                                       path: seq<Segment>, f: Flags, stack: nat, s: State)
    requires Closed(c.w) && Known(c, cs) && i <= |cs| && PlainKeys(c.w) && PlainPath(path) && PlainChildren(cs)
    ensures AllPlain(Loop(c, isMapping, cs, i, kept, path, f, stack, s).log)
    decreases stack, 1, 0, |cs| - i
  {
    hide Node, Loop, PlainKeys, Plain;
    LoopStep(c, isMapping, cs, i, kept, path, f, stack, s);
    PlainPathIsPlain(path);
    if i < |cs| && !Reached(f.breadth, i) && cs[i].segment.Some? {
      var segment := cs[i].segment.value;
      NodeIsPlain(c, cs[i].ref, path + [segment], ChildFlags(f), stack, s);
      var o := Node(c, cs[i].ref, path + [segment], ChildFlags(f), stack, s);
      if o.res.Done? {
        LoopIsPlain(c, isMapping, cs, i + 1, kept + [(segment, o.res.out)], path, f, stack, o.s);
      }
    }
  }

  // ---------------------------------------------------------------- whole events

  function Run(c: Config, event: Ref, stack: nat): Outcome
    requires Closed(c.w) && event in c.w.shapes
  {
    Node(c, event, [], NO_FLAGS, stack, START)
  }

  /** A reader of `_meta` finds at every address what was to be annotated there, and nothing else. */
  ghost predicate MetaIsExact(o: Outcome) {
    forall q :: AnnotationAt(o.s.tree, q) == Expected(o.log, q)
  }

  /**
   * For every event: `_meta` is exact if and only if no annotated path has an empty segment.
   */
  lemma MetaIsExactIffNoEmptyKey(c: Config, event: Ref, stack: nat)
    requires Closed(c.w) && event in c.w.shapes
    ensures var o := Run(c, event, stack);
            && o.s.tree == MetaOf(o.log)
            && (MetaIsExact(o) <==> AllPlain(o.log))
  {
    hide Node, Plain, Expected, AnnotationAt;
    var o := Run(c, event, stack);
    NodeIsLogged(c, event, [], NO_FLAGS, stack, START);
    ExactIffNoEmptyKey(o.log);
    assert MetaIsExact(o) <==> Exact(o.log);
  }

  /** Without empty keys among its objects, the `_meta` of any event is exact. */
  lemma PlainKeysMakeMetaExact(c: Config, event: Ref, stack: nat)
    requires Closed(c.w) && event in c.w.shapes && PlainKeys(c.w)
    ensures MetaIsExact(Run(c, event, stack))
  {
    hide Node, MetaIsExact;
    NodeIsPlain(c, event, [], NO_FLAGS, stack, START);
    MetaIsExactIffNoEmptyKey(c, event, stack);
  }

  // ---------------------------------------------------------------- two events

  /** A mapping with one entry: its child's annotations, and its child's result under that key. */
  lemma OneChild(c: Config, obj: Ref, key: string, child: Ref, path: seq<Segment>, f: Flags, stack: nat, s: State)
    requires Closed(c.w) && obj in c.w.shapes && c.w.shapes[obj] == Mapping([(Key(key), child)])
    requires stack > 1 && obj !in s.ids
    requires var f' := Resolve(c, c.w.shapes[obj], path, f); f'.depth != Finite(0) && !Reached(f'.breadth, 0)
    ensures child in c.w.shapes
    ensures var f' := Resolve(c, c.w.shapes[obj], path, f);
            var o := Node(c, child, path + [Name(key)], ChildFlags(f'), stack - 1, s.(ids := s.ids + {obj}));
            && Node(c, obj, path, f, stack, s).log == o.log
            && Node(c, obj, path, f, stack, s).res == Done(Dict([(key, o.res.out)]))
            && Node(c, obj, path, f, stack, s).s == o.s.(ids := o.s.ids - {obj})
  {
    hide Node, Impl, Loop, Resolve;
    var s' := s.(ids := s.ids + {obj});
    var f' := Resolve(c, c.w.shapes[obj], path, f);
    NodeStep(c, obj, path, f, stack, s);
    ImplStep(c, obj, path, f, stack - 1, s');
    var cs := Children(c.w.shapes[obj]);
    assert cs == [Child(Some(Name(key)), child)];
    assert c.w.shapes[obj].entries[0].1 == child;
    LoopStep(c, true, cs, 0, [], path, f', stack - 1, s');
    var o := Node(c, child, path + [Name(key)], ChildFlags(f'), stack - 1, s');
    var kept := [(Name(key), o.res.out)];
    assert [] + kept == kept;
    LoopStep(c, true, cs, 1, kept, path, f', stack - 1, o.s);
    assert kept[..0] == [];
    assert DictOf(kept) == Put([], key, o.res.out);
    assert [] + (o.log + []) == o.log;
  }

  /** The event `{"extra": {key: text}}`. */
  function ExtraText(key: string, text: Text, repr: Ref -> Text): World {
    World(map[0 := Mapping([(Key("extra"), 1)]), 1 := Mapping([(Key(key), 2)]), 2 := Str(text)], repr)
  }

  /**
   * The `_meta` of `{"extra": {key: text}}` under a limit is exact if and only if the key is not
   * empty or the text fits.
   */
  lemma ExtraTextIsExactIff(key: string, text: Text, repr: Ref -> Text, max: Option<int>, stack: nat)
    requires stack > 3
    ensures var c := Config(ExtraText(key, text, repr), false, max, false);
            MetaIsExact(Run(c, 0, stack)) <==> key != "" || Strip(text, max).Whole?
  {
    hide Node, Strip, MetaIsExact, Annotating;
    var c := Config(ExtraText(key, text, repr), false, max, false);
    var p1, p2 := [Name("extra")], [Name("extra"), Name(key)];
    OneChild(c, 0, "extra", 1, [], NO_FLAGS, stack, START);
    var f1 := ChildFlags(Resolve(c, c.w.shapes[0], [], NO_FLAGS));
    var s1 := START.(ids := START.ids + {0});
    assert [] + [Name("extra")] == p1;
    OneChild(c, 1, key, 2, p1, f1, stack - 1, s1);
    var f2 := ChildFlags(Resolve(c, c.w.shapes[1], p1, f1));
    var s2 := s1.(ids := s1.ids + {1});
    assert p1 + [Name(key)] == p2;
    TextLeaf(c, 2, p2, f2, stack - 2, s2);
    MetaIsExactIffNoEmptyKey(c, 0, stack);
    assert Plain(Strs(p2)) <==> key != "" by {
      assert Strs(p2)[0] == "extra" && Strs(p2)[1] == key;
    }
  }

  /** A string that is not trimmed away is stripped, and annotated exactly if it is cut. */
  lemma TextLeaf(c: Config, obj: Ref, path: seq<Segment>, f: Flags, stack: nat, s: State)
    requires Closed(c.w) && obj in c.w.shapes && c.w.shapes[obj].Str?
    requires stack > 0 && obj !in s.ids && !IsSpanDescription(path)
    requires var f' := Resolve(c, c.w.shapes[obj], path, f); f'.depth != Finite(0) && f'.reprStrings != Some(true)
    ensures var o := Node(c, obj, path, f, stack, s);
            var stripped := Strip(c.w.shapes[obj].text, c.maxLength);
            && (stripped.Whole? ==> o.log == [] && o.res == Done(Txt(stripped.value)))
            && (stripped.Cut? ==> |o.log| == 1 && o.log[0].path == Strs(path))
            && (stripped.Cut? && Annotate(s.tree, Strs(path), map[]).Some? ==> o.res == Done(Txt(stripped.value)))
            && (stripped.Cut? && Annotate(s.tree, Strs(path), map[]).None? ==>
                  o.res == Done(if f.isDatabag == Some(true) then Failed else Null))
  {
    hide Node, Impl, Strip, Resolve;
    NodeStep(c, obj, path, f, stack, s);
    ImplStep(c, obj, path, f, stack - 1, s.(ids := s.ids + {obj}));
    forall meta: Meta
      ensures Annotate(s.tree, Strs(path), meta).Some? <==> Annotate(s.tree, Strs(path), map[]).Some?
    {
      RaisingIgnoresMeta(s.tree, Strs(path), meta, map[]);
    }
  }

  /** Whether `_annotate` raises does not depend on what is to be annotated. */
  lemma {:induction false} RaisingIgnoresMeta(d: Tree, path: seq<string>, m: Meta, n: Meta)
    ensures Annotate(d, path, m).Some? <==> Annotate(d, path, n).Some?
    decreases |path|
  {
    if path != [] && d.Tree? {
      RaisingIgnoresMeta(SetDefault(d, path[0]), path[1..], m, n);
    }
  }

  /**
   * `{"extra": AnnotatedValue({"": {"len": text}}, {"len": 5})}`: the annotation of `extra` already
   * holds a number where the text's annotation has to go.
   */
  function BlockedText(text: Text, repr: Ref -> Text): World {
    World(map[0 := Mapping([(Key("extra"), 1)]),
              1 := Annotated(2, map["len" := Length(5)]),
              2 := Mapping([(Key(""), 3)]),
              3 := Mapping([(Key("len"), 4)]),
              4 := Str(text)], repr)
  }

  /** There an empty key even costs the event a value: annotating a text that was cut raises. */
  lemma EmptyKeyLosesText(text: Text, repr: Ref -> Text, max: Option<int>, stack: nat)
    requires stack > 5 && Strip(text, max).Cut?
    ensures var c := Config(BlockedText(text, repr), false, max, false);
            Run(c, 0, stack).res == Done(Dict([("extra", Dict([("", Dict([("len", Failed)]))]))]))
  {
    hide Node, Strip, Annotating, Annotate;
    var c := Config(BlockedText(text, repr), false, max, false);
    var p1, p2, p3 := [Name("extra")], [Name("extra"), Name("")], [Name("extra"), Name(""), Name("len")];
    OneChild(c, 0, "extra", 1, [], NO_FLAGS, stack, START);
    var f1 := ChildFlags(Resolve(c, c.w.shapes[0], [], NO_FLAGS));
    var s1 := START.(ids := START.ids + {0});
    assert [] + [Name("extra")] == p1;
    var tree := Tree(map["extra" := Tree(map["" := Tree(map["len" := Tree.Leaf(Length(5))])])]);
    AnnotateExtra(map["len" := Length(5)]);
    assert Leaves(map["len" := Length(5)]) == map["len" := Tree.Leaf(Length(5))];
    AnnotatedChild(c, f1, stack - 1, s1, tree);
    var f2 := Resolve(c, c.w.shapes[1], p1, f1);
    assert p1 + [Name("")] == p2 && p2 + [Name("len")] == p3;
    var s2 := State(s1.ids + {1}, tree);
    OneChild(c, 3, "len", 4, p2, ChildFlags(f2), stack - 2, s2);
    var f3 := Resolve(c, c.w.shapes[3], p2, ChildFlags(f2));
    var s3 := State(s2.ids + {3}, tree);
    TextLeaf(c, 4, p3, ChildFlags(f3), stack - 3, s3);
    BlockedByLength(p3);
  }

  lemma AnnotateExtra(meta: Meta)
    ensures Annotate(EMPTY, Strs([Name("extra")]), meta) ==
            Some(Tree(map["extra" := Tree(map["" := Tree(Leaves(meta))])]))
  {
    assert Strs([Name("extra")]) == ["extra"] && ["extra"][1..] == [];
    assert EMPTY.entries + Leaves(meta) == Leaves(meta);
    assert Annotate(EMPTY, [], meta) == Some(Tree(map["" := Tree(Leaves(meta))]));
  }

  lemma BlockedByLength(p: seq<Segment>)
    requires p == [Name("extra"), Name(""), Name("len")]
    ensures var tree := Tree(map["extra" := Tree(map["" := Tree(map["len" := Tree.Leaf(Length(5))])])]);
            Annotate(tree, Strs(p), map[]) == None
  {
    var tree := Tree(map["extra" := Tree(map["" := Tree(map["len" := Tree.Leaf(Length(5))])])]);
    var q := ["extra", "", "len"];
    assert Strs(p) == q;
    assert q[1..] == ["", "len"] && q[1..][1..] == ["len"] && q[1..][1..][1..] == [];
    assert At(tree, q) == Some(Tree.Leaf(Length(5)));
    AnnotateStuck(tree, q, q, map[]);
  }

  /** The annotated mapping of `BlockedText`: its metadata is annotated, then its one child is serialized. */
  lemma AnnotatedChild(c: Config, f: Flags, stack: nat, s: State, tree: Tree)
    requires Closed(c.w) && {1, 2, 3} <= c.w.shapes.Keys
    requires c.w.shapes[1] == Annotated(2, map["len" := Length(5)]) && c.w.shapes[2] == Mapping([(Key(""), 3)])
    requires stack > 1 && 1 !in s.ids && s.tree == EMPTY
    requires Annotate(EMPTY, Strs([Name("extra")]), map["len" := Length(5)]) == Some(tree)
    requires var f' := Resolve(c, c.w.shapes[1], [Name("extra")], f); f'.depth != Finite(0) && !Reached(f'.breadth, 0)
    ensures var f' := Resolve(c, c.w.shapes[1], [Name("extra")], f);
            var o := Node(c, 3, [Name("extra")] + [Name("")], ChildFlags(f'), stack - 1, State(s.ids + {1}, tree));
            Node(c, 1, [Name("extra")], f, stack, s).res == Done(Dict([("", o.res.out)]))
  {
    hide Node, Impl, Loop, Resolve, Annotate;
    var path := [Name("extra")];
    var s' := s.(ids := s.ids + {1});
    var f' := Resolve(c, c.w.shapes[1], path, f);
    NodeStep(c, 1, path, f, stack, s);
    ImplStep(c, 1, path, f, stack - 1, s');
    var first := Flattening(c.w.shapes[1], path, s');
    assert first.s == State(s.ids + {1}, tree) && first.res.Done?;
    var cs := Children(c.w.shapes[2]);
    assert cs == [Child(Some(Name("")), 3)];
    LoopStep(c, true, cs, 0, [], path, f', stack - 1, first.s);
    var o := Node(c, 3, path + [Name("")], ChildFlags(f'), stack - 1, first.s);
    var kept := [(Name(""), o.res.out)];
    assert [] + kept == kept;
    LoopStep(c, true, cs, 1, kept, path, f', stack - 1, o.s);
    assert kept[..0] == [];
    assert DictOf(kept) == Put([], "", o.res.out);
  }
}
