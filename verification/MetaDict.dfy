/**
 * The `_meta` tree as the plain nested dictionary it is, where the annotation of a value and the
 * children of that value share one dictionary: the annotation sits under the empty key.
 */
module MetaDict {
  import opened Options

  datatype MetaValue = Length(n: nat) | Removed | RemovedFrom(start: int, stop: int) | Custom(value: int)
  type Meta = map<string, MetaValue>

  datatype Tree = Tree(entries: map<string, Tree>) | Leaf(value: MetaValue)

  const EMPTY: Tree := Tree(map[])

  /** One call of `_annotate`, whether it succeeds or raises. */
  datatype Note = Note(path: seq<string>, meta: Meta)

  function Leaves(meta: Meta): map<string, Tree> {
    map k | k in meta :: Leaf(meta[k])
  }

  function SetDefault(d: Tree, key: string): Tree
    requires d.Tree?
  {
    if key in d.entries then d.entries[key] else EMPTY
  }

  /** `_annotate` at `path` below `d`; None if it meets a value that is not a dictionary and raises. */
  function Annotate(d: Tree, path: seq<string>, meta: Meta): Option<Tree>
    decreases |path|
  {
    if d.Leaf? then None
    else if path == [] then
      var slot := SetDefault(d, "");
      if slot.Leaf? then None else Some(Tree(d.entries["" := Tree(slot.entries + Leaves(meta))]))
    else
      var child := Annotate(SetDefault(d, path[0]), path[1..], meta);
      if child.None? then None else Some(Tree(d.entries[path[0] := child.value]))
  }

  /** The tree after a call, which changes nothing if it raises. */
  function After(d: Tree, path: seq<string>, meta: Meta): Tree {
    var r := Annotate(d, path, meta);
    if r.Some? then r.value else d
  }

  /** The tree after some calls in a row. */
  function Applied(d: Tree, log: seq<Note>): Tree {
    if log == [] then d
    else After(Applied(d, log[..|log| - 1]), log[|log| - 1].path, log[|log| - 1].meta)
  }

  /** The tree after all the calls of a serialization. */
  function MetaOf(log: seq<Note>): Tree {
    Applied(EMPTY, log)
  }

  lemma {:induction false} AppliedConcat(d: Tree, a: seq<Note>, b: seq<Note>)
    ensures Applied(d, a + b) == Applied(Applied(d, a), b)
  {
    if b == [] {
      assert a + b == a;
    } else {
      assert (a + b)[..|a + b| - 1] == a + b[..|b| - 1];
      AppliedConcat(d, a, b[..|b| - 1]);
    }
  }

  /** What a reader finds annotated at `q`: the entries under the empty key of the dictionary there. */
  function AnnotationAt(d: Tree, q: seq<string>): Option<map<string, Tree>> {
    if d.Leaf? then None
    else if q == [] then
      if "" in d.entries && d.entries[""].Tree? then Some(d.entries[""].entries) else None
    else if q[0] in d.entries then AnnotationAt(d.entries[q[0]], q[1..])
    else None
  }

  /** What was to be annotated at `q`, later calls overriding earlier ones. */
  function Expected(log: seq<Note>, q: seq<string>): Option<map<string, Tree>> {
    if log == [] then None
    else
      var before, last := Expected(log[..|log| - 1], q), log[|log| - 1];
      if last.path == q then Some((if before.Some? then before.value else map[]) + Leaves(last.meta)) else before
  }

  ghost predicate Exact(log: seq<Note>) {
    forall q :: AnnotationAt(MetaOf(log), q) == Expected(log, q)
  }

  ghost predicate Plain(path: seq<string>) {
    forall i | 0 <= i < |path| :: path[i] != ""
  }

  // ---------------------------------------------------------------- plain paths

  /** Dictionaries hold dictionaries, except under the empty key, which holds only leaves. */
  ghost predicate Clean(d: Tree) {
    && d.Tree?
    && (forall k | k in d.entries && k != "" :: Clean(d.entries[k]))
    && ("" in d.entries ==> d.entries[""].Tree? && forall k <- d.entries[""].entries :: d.entries[""].entries[k].Leaf?)
  }

  lemma AnnotateHere(d: Tree, meta: Meta, q: seq<string>)
    requires Clean(d)
    ensures Annotate(d, [], meta).Some? && Clean(Annotate(d, [], meta).value)
    ensures Plain(q) ==>
      AnnotationAt(Annotate(d, [], meta).value, q) ==
        if q == [] then
          Some((if AnnotationAt(d, q).Some? then AnnotationAt(d, q).value else map[]) + Leaves(meta))
        else AnnotationAt(d, q)
  {
    hide Leaves;
    var slot := SetDefault(d, "");
    var d' := Tree(d.entries["" := Tree(slot.entries + Leaves(meta))]);
    AllLeaves(meta);
    assert Annotate(d, [], meta) == Some(d');
    assert forall k <- d'.entries[""].entries :: d'.entries[""].entries[k].Leaf?;
    assert forall k | k in d'.entries && k != "" :: d'.entries[k] == d.entries[k];
    if Plain(q) && q != [] {
      assert q[0] != "";
    }
  }

  lemma AllLeaves(meta: Meta)
    ensures Leaves(meta).Keys == meta.Keys && forall k <- Leaves(meta) :: Leaves(meta)[k] == Leaf(meta[k])
  {
  }

  lemma {:induction false} AnnotateClean(d: Tree, path: seq<string>, meta: Meta, q: seq<string>)
    requires Clean(d) && Plain(path)
    ensures Annotate(d, path, meta).Some? && Clean(Annotate(d, path, meta).value)
    ensures Plain(q) ==>
      AnnotationAt(Annotate(d, path, meta).value, q) ==
        if q == path then
          Some((if AnnotationAt(d, q).Some? then AnnotationAt(d, q).value else map[]) + Leaves(meta))
        else AnnotationAt(d, q)
    decreases |path|
  {
    if path == [] {
      AnnotateHere(d, meta, q);
    } else {
      var sub := SetDefault(d, path[0]);
      assert Clean(sub);
      AnnotateClean(sub, path[1..], meta, if q == [] then [] else q[1..]);
      var sub' := Annotate(sub, path[1..], meta).value;
      var d' := Tree(d.entries[path[0] := sub']);
      assert Annotate(d, path, meta) == Some(d');
      assert path[0] != "" && d'.entries[path[0]] == sub' && Clean(sub');
      assert forall k | k in d'.entries && k != path[0] :: d'.entries[k] == d.entries[k];
      if q != [] && q[0] == path[0] {
        assert q == path <==> q[1..] == path[1..] by {
          assert q == [q[0]] + q[1..] && path == [path[0]] + path[1..];
        }
        assert path[0] !in d.entries ==> AnnotationAt(sub, q[1..]) == None;
      }
    }
  }

  /** An address with an empty key in it reads from inside an annotation, where there are only leaves. */
  lemma {:induction false} NothingBelowAnnotations(d: Tree, q: seq<string>)
    requires Clean(d) && !Plain(q)
    ensures AnnotationAt(d, q) == None
    decreases |q|
  {
    if q[0] == "" {
      if "" in d.entries {
        var slot, rest := d.entries[""], q[1..];
        assert AnnotationAt(d, q) == AnnotationAt(slot, rest);
        if rest == [] {
          assert "" in slot.entries ==> slot.entries[""].Leaf?;
        } else if rest[0] in slot.entries {
          assert slot.entries[rest[0]].Leaf?;
          assert AnnotationAt(slot.entries[rest[0]], rest[1..]) == None;
        }
      }
    } else if q[0] in d.entries {
      var i :| 0 <= i < |q| && q[i] == "";
      assert q[1..][i - 1] == "";
      NothingBelowAnnotations(d.entries[q[0]], q[1..]);
    }
  }

  lemma {:induction false} PlainLogIsExact(log: seq<Note>)
    requires forall i | 0 <= i < |log| :: Plain(log[i].path)
    ensures Exact(log) && Clean(MetaOf(log))
  {
    if log != [] {
      var init, last := log[..|log| - 1], log[|log| - 1];
      PlainLogIsExact(init);
      var d := MetaOf(init);
      AnnotateClean(d, last.path, last.meta, []);
      forall q
        ensures AnnotationAt(MetaOf(log), q) == Expected(log, q)
      {
        AnnotateClean(d, last.path, last.meta, q);
        assert AnnotationAt(d, q) == Expected(init, q);
        if !Plain(q) {
          NothingBelowAnnotations(d, q);
          NothingBelowAnnotations(MetaOf(log), q);
        }
      }
    }
  }

  // ---------------------------------------------------------------- paths with an empty key

  lemma {:induction false} ExpectedIsLeaves(log: seq<Note>, q: seq<string>)
    ensures Expected(log, q).Some? <==> exists i :: 0 <= i < |log| && log[i].path == q
    ensures Expected(log, q).Some? ==> forall k <- Expected(log, q).value :: Expected(log, q).value[k].Leaf?
  {
    if log != [] {
      ExpectedIsLeaves(log[..|log| - 1], q);
      if i :| 0 <= i < |log| && log[i].path == q {
        assert i < |log| - 1 ==> log[..|log| - 1][i].path == q;
      }
    }
  }

  /** A value annotated below an empty key makes the annotation it goes through hold a dictionary. */
  lemma {:induction false} EmptyKeyPollutes(d: Tree, path: seq<string>, i: nat)
    requires i < |path| && path[i] == "" && AnnotationAt(d, path).Some?
    ensures AnnotationAt(d, path[..i]).Some?
    ensures exists k :: k in AnnotationAt(d, path[..i]).value && AnnotationAt(d, path[..i]).value[k].Tree?
    decreases i
  {
    if i > 0 {
      EmptyKeyPollutes(d.entries[path[0]], path[1..], i - 1);
      assert path[..i][1..] == path[1..][..i - 1];
    } else {
      var slot := d.entries[""];
      var rest := path[1..];
      var k := if rest == [] then "" else rest[0];
      assert AnnotationAt(d, path) == AnnotationAt(slot, rest);
      assert path[..0] == [];
      assert AnnotationAt(d, []) == Some(slot.entries);
      assert k in slot.entries && slot.entries[k].Tree?;
    }
  }

  /**
   * `_meta` holds exactly what was annotated, where it was annotated, if and only if no annotated
   * path goes through an empty key.
   */
  lemma ExactIffNoEmptyKey(log: seq<Note>)
    ensures Exact(log) <==> forall i | 0 <= i < |log| :: Plain(log[i].path)
  {
    if forall i | 0 <= i < |log| :: Plain(log[i].path) {
      PlainLogIsExact(log);
    } else if Exact(log) {
      var i :| 0 <= i < |log| && !Plain(log[i].path);
      var p := log[i].path;
      var j :| 0 <= j < |p| && p[j] == "";
      var d := MetaOf(log);
      ExpectedIsLeaves(log, p);
      assert AnnotationAt(d, p) == Expected(log, p);
      EmptyKeyPollutes(d, p, j);
      assert AnnotationAt(d, p[..j]) == Expected(log, p[..j]);
      ExpectedIsLeaves(log, p[..j]);
      assert false;
    }
  }

  // ---------------------------------------------------------------- trees address by address

  function At(d: Tree, q: seq<string>): Option<Tree> {
    if q == [] then Some(d)
    else if d.Tree? && q[0] in d.entries then At(d.entries[q[0]], q[1..])
    else None
  }

  /** What can be seen of a value without looking into the dictionaries it holds: those are None. */
  datatype Face = Value(value: MetaValue) | Dictionary(entries: map<string, Option<MetaValue>>)

  function EntryFace(d: Tree): Option<MetaValue> {
    if d.Leaf? then Some(d.value) else None
  }

  function FaceOf(d: Tree): Face {
    if d.Leaf? then Value(d.value) else Dictionary(map k | k in d.entries :: EntryFace(d.entries[k]))
  }

  function FaceAt(d: Tree, q: seq<string>): Option<Face> {
    var t := At(d, q);
    if t.Some? then Some(FaceOf(t.value)) else None
  }

  /** The dictionary at `q` gets other entries. */
  function SetAt(d: Tree, q: seq<string>, entries: map<string, Tree>): Tree
    requires At(d, q).Some? && At(d, q).value.Tree?
  {
    if q == [] then Tree(entries) else Tree(d.entries[q[0] := SetAt(d.entries[q[0]], q[1..], entries)])
  }

  lemma {:induction false} AtConcat(d: Tree, q: seq<string>, r: seq<string>)
    ensures At(d, q + r) == if At(d, q).Some? then At(At(d, q).value, r) else None
  {
    if q == [] {
      assert q + r == r;
    } else {
      assert (q + r)[1..] == q[1..] + r;
      if d.Tree? && q[0] in d.entries {
        AtConcat(d.entries[q[0]], q[1..], r);
      }
    }
  }

  lemma DictionaryOnTheWay(d: Tree, q: seq<string>, entries: map<string, Tree>)
    requires At(d, q).Some? && At(d, q).value.Tree?
    ensures d.Tree? && SetAt(d, q, entries).Tree?
  {
  }

  /** Changing the dictionary at `q` changes what is seen at `q` and below, and nothing else. */
  lemma {:induction false} FaceAfterSet(d: Tree, q: seq<string>, entries: map<string, Tree>, r: seq<string>)
    requires At(d, q).Some? && At(d, q).value.Tree?
    ensures FaceAt(SetAt(d, q, entries), r) ==
            if q <= r then FaceAt(Tree(entries), r[|q|..]) else FaceAt(d, r)
  {
    if q != [] {
      var child := d.entries[q[0]];
      var d' := SetAt(d, q, entries);
      if r != [] && r[0] == q[0] {
        FaceAfterSet(child, q[1..], entries, r[1..]);
        assert q <= r <==> q[1..] <= r[1..] by {
          assert q == [q[0]] + q[1..] && r == [r[0]] + r[1..];
        }
        assert q <= r ==> r[1..][|q| - 1..] == r[|q|..];
      } else if r == [] {
        DictionaryOnTheWay(child, q[1..], entries);
        assert FaceOf(d').entries == FaceOf(d).entries;
      }
    }
  }

  /** A dictionary made on the way changes nothing in the outcome, and the way is open from there on. */
  lemma {:induction false} AnnotateGrown(d: Tree, q: seq<string>, k: string, path: seq<string>, meta: Meta)
    requires At(d, q).Some? && At(d, q).value.Tree? && k !in At(d, q).value.entries
    requires q + [k] <= path + [""]
    ensures var e := At(d, q).value.entries;
            Annotate(SetAt(d, q, e[k := EMPTY]), path, meta) == Annotate(d, path, meta)
    ensures Annotate(d, path, meta).Some?
    decreases |q|
  {
    var e := At(d, q).value.entries;
    if q == [] {
      assert k == (path + [""])[0] by { assert (q + [k])[0] == k; }
      if path == [] {
        assert EMPTY.entries + Leaves(meta) == Leaves(meta);
        assert d.entries[k := EMPTY][k := Tree(Leaves(meta))] == d.entries[k := Tree(Leaves(meta))];
      } else {
        assert k == path[0];
        EmptyIsOpen(path[1..], meta);
        var child := Annotate(EMPTY, path[1..], meta).value;
        assert d.entries[k := EMPTY][k := child] == d.entries[k := child];
      }
    } else {
      assert path != [] by {
        assert |q + [k]| <= |path + [""]|;
      }
      assert q[0] == path[0] by {
        assert (q + [k])[0] == (path + [""])[0];
      }
      assert (q + [k])[1..] == q[1..] + [k] && (path + [""])[1..] == path[1..] + [""];
      AnnotateGrown(d.entries[q[0]], q[1..], k, path[1..], meta);
      var child := Annotate(d.entries[q[0]], path[1..], meta).value;
      var grown := SetAt(d.entries[q[0]], q[1..], e[k := EMPTY]);
      assert d.entries[q[0] := grown][q[0] := child] == d.entries[q[0] := child];
    }
  }

  lemma {:induction false} EmptyIsOpen(path: seq<string>, meta: Meta)
    ensures Annotate(EMPTY, path, meta).Some?
  {
    if path != [] {
      EmptyIsOpen(path[1..], meta);
    }
  }

  /** A call that meets a value on its way raises. */
  lemma {:induction false} AnnotateStuck(d: Tree, q: seq<string>, path: seq<string>, meta: Meta)
    requires At(d, q).Some? && At(d, q).value.Leaf? && q <= path + [""]
    ensures Annotate(d, path, meta) == None
    decreases |q|
  {
    if q != [] {
      assert q[0] == (path + [""])[0];
      if path != [] {
        assert (path + [""])[1..] == path[1..] + [""];
        AnnotateStuck(d.entries[q[0]], q[1..], path[1..], meta);
      } else {
        assert |q| == 1;
      }
    }
  }

  /** With all dictionaries in place, a call updates the one under the empty key. */
  lemma {:induction false} AnnotateInPlace(d: Tree, path: seq<string>, meta: Meta)
    requires At(d, path + [""]).Some? && At(d, path + [""]).value.Tree?
    ensures var e := At(d, path + [""]).value.entries;
            Annotate(d, path, meta) == Some(SetAt(d, path + [""], e + Leaves(meta)))
    decreases |path|
  {
    if path == [] {
      assert path + [""] == [""] && [""][1..] == [];
    } else {
      assert (path + [""])[0] == path[0] && (path + [""])[1..] == path[1..] + [""];
      AnnotateInPlace(d.entries[path[0]], path[1..], meta);
    }
  }

  lemma FaceOfEntries(entries: map<string, Tree>, r: seq<string>)
    requires r != []
    ensures FaceAt(Tree(entries), r) == if r[0] in entries then FaceAt(entries[r[0]], r[1..]) else None
  {
  }

  /** A new empty dictionary is seen where it was made, and the dictionary that holds it has one more entry. */
  lemma GrownFaces(d: Tree, a: seq<string>, k: string, r: seq<string>)
    requires At(d, a).Some? && At(d, a).value.Tree? && k !in At(d, a).value.entries
    ensures var e := At(d, a).value.entries;
            FaceAt(SetAt(d, a, e[k := EMPTY]), r) ==
              if r == a then Some(Dictionary(FaceOf(Tree(e)).entries[k := None]))
              else if r == a + [k] then Some(Dictionary(map[]))
              else FaceAt(d, r)
  {
    hide At, SetAt, FaceOf, FaceAt;
    var e := At(d, a).value.entries;
    FaceAfterSet(d, a, e[k := EMPTY], r);
    if a <= r {
      var s := r[|a|..];
      assert r == a + s;
      FaceAtConcat(d, a, s);
      if s == [] {
        FaceOfGrown(e, k);
      } else {
        FaceOfEntries(e, s);
        FaceOfEntries(e[k := EMPTY], s);
        FacesOfEmpty(s[1..]);
        assert s == [s[0]] + s[1..];
        assert r == a + [k] <==> s == [k];
      }
    }
  }

  lemma FaceAtConcat(d: Tree, a: seq<string>, s: seq<string>)
    requires At(d, a).Some?
    ensures FaceAt(d, a + s) == FaceAt(At(d, a).value, s)
  {
    AtConcat(d, a, s);
  }

  lemma FaceOfGrown(e: map<string, Tree>, k: string)
    requires k !in e
    ensures FaceAt(Tree(e[k := EMPTY]), []) == Some(Dictionary(FaceOf(Tree(e)).entries[k := None]))
  {
    assert FaceOf(Tree(e[k := EMPTY])).entries == FaceOf(Tree(e)).entries[k := None];
  }

  lemma FacesOfEmpty(r: seq<string>)
    ensures FaceAt(EMPTY, r) == if r == [] then Some(Dictionary(map[])) else None
  {
    assert FaceOf(EMPTY).entries == map[];
  }

  function Somes(meta: Meta): map<string, Option<MetaValue>> {
    map k | k in meta :: Some(meta[k])
  }

  /** Updated entries are seen as values; whatever dictionaries were there are gone. */
  lemma UpdatedFaces(d: Tree, a: seq<string>, meta: Meta, r: seq<string>)
    requires At(d, a).Some? && At(d, a).value.Tree?
    ensures var e := At(d, a).value.entries;
            FaceAt(SetAt(d, a, e + Leaves(meta)), r) ==
              if r == a then Some(Dictionary(FaceOf(Tree(e)).entries + Somes(meta)))
              else if a < r && r[|a|] in meta then
                (if |r| == |a| + 1 then Some(Value(meta[r[|a|]])) else None)
              else FaceAt(d, r)
  {
    hide At, SetAt, FaceOf, FaceAt;
    var e := At(d, a).value.entries;
    FaceAfterSet(d, a, e + Leaves(meta), r);
    if a <= r {
      var s := r[|a|..];
      assert r == a + s;
      FaceAtConcat(d, a, s);
      if s == [] {
        FaceOfUpdated(e, meta);
      } else {
        FaceOfEntries(e, s);
        FaceOfEntries(e + Leaves(meta), s);
        assert s[0] == r[|a|];
        if s[0] in meta {
          FacesOfLeaf(meta[s[0]], s[1..]);
        }
      }
    }
  }

  lemma FaceOfUpdated(e: map<string, Tree>, meta: Meta)
    ensures FaceAt(Tree(e + Leaves(meta)), []) == Some(Dictionary(FaceOf(Tree(e)).entries + Somes(meta)))
  {
    assert FaceOf(Tree(e + Leaves(meta))).entries == FaceOf(Tree(e)).entries + Somes(meta);
  }

  lemma FacesOfLeaf(v: MetaValue, r: seq<string>)
    ensures FaceAt(Leaf(v), r) == if r == [] then Some(Value(v)) else None
  {
  }

  /** What is seen at all addresses determines a tree. */
  lemma {:induction false} FacesDetermineTree(a: Tree, b: Tree)
    requires forall q :: FaceAt(a, q) == FaceAt(b, q)
    ensures a == b
    decreases a
  {
    assert FaceAt(a, []) == FaceAt(b, []);
    if a.Tree? {
      assert FaceOf(a).entries.Keys == a.entries.Keys && FaceOf(b).entries.Keys == b.entries.Keys;
      forall k | k in a.entries
        ensures a.entries[k] == b.entries[k]
      {
        forall q
          ensures FaceAt(a.entries[k], q) == FaceAt(b.entries[k], q)
        {
          assert FaceAt(a, [k] + q) == FaceAt(b, [k] + q);
          assert ([k] + q)[1..] == q;
        }
        FacesDetermineTree(a.entries[k], b.entries[k]);
      }
    }
  }
}
