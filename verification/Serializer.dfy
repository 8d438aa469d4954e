/**
 * The serializer of `sentry_sdk/serializer.py` with its mutable state: the current path, the stack
 * of `_meta` nodes that alias the tree being built, and the memo.
 */
module Serializer {
  import opened Options
  import opened Utf8
  import opened StripString
  import opened MetaDict
  import opened SerializerSpec

  class Memo {
    var ids: set<Ref>
    var objs: seq<Ref>

    constructor ()
      ensures ids == {} && objs == []
    {
      ids, objs := {}, [];
    }

    method Memoize(obj: Ref)
      modifies this
      ensures objs == old(objs) + [obj] && ids == old(ids)
    {
      objs := objs + [obj];
    }

    method Enter() returns (hit: bool)
      requires objs != []
      modifies this
      ensures objs == old(objs) && ids == old(ids) + {objs[|objs| - 1]}
      ensures hit == (objs[|objs| - 1] in old(ids))
    {
      var obj := objs[|objs| - 1];
      hit := obj in ids;
      if !hit {
        ids := ids + {obj};
      }
      assert hit ==> ids == ids + {obj};
    }

    /** Forgets the object even if `Enter` was a hit. */
    method Exit()
      requires objs != []
      modifies this
      ensures objs == old(objs)[..|old(objs)| - 1] && ids == old(ids) - {old(objs)[|old(objs)| - 1]}
    {
      ids := ids - {objs[|objs| - 1]};
      objs := objs[..|objs| - 1];
    }
  }

  /** What a key of a `_meta` dictionary holds: another dictionary, or part of an annotation. */
  datatype Entry = Sub(node: MetaNode) | Val(value: MetaValue)

  /**
   * A dictionary of the `_meta` tree.  Children and annotations share it: the annotation of a value
   * is the dictionary under the empty key, and so is its child with an empty key.
   */
  class MetaNode {
    var entries: map<string, Entry>
    ghost const address: seq<string>

    constructor (ghost address: seq<string>)
      ensures entries == map[] && this.address == address
    {
      entries := map[];
      this.address := address;
    }
  }

  function EntryOf(e: Entry): Option<MetaValue> {
    if e.Val? then Some(e.value) else None
  }

  function Faces(entries: map<string, Entry>): map<string, Option<MetaValue>> {
    map k | k in entries :: EntryOf(entries[k])
  }

  function Vals(meta: Meta): map<string, Entry> {
    map k | k in meta :: Val(meta[k])
  }

  // ---------------------------------------------------------------- the heap of dictionaries

  /** The dictionaries `nodes` are those of `tree`, each once, each holding what is seen at its address. */
  ghost predicate TreeOk(nodes: set<MetaNode>, tree: Tree)
    reads nodes
  {
    NodesOk(nodes, tree) && ChildrenOk(nodes) && Unique(nodes)
  }

  ghost predicate NodesOk(nodes: set<MetaNode>, tree: Tree)
    reads nodes
  {
    forall n <- nodes :: FaceAt(tree, n.address) == Some(Dictionary(Faces(n.entries)))
  }

  ghost predicate ChildrenOk(nodes: set<MetaNode>)
    reads nodes
  {
    forall n, k | n in nodes && k in n.entries && n.entries[k].Sub? :: ChildOk(nodes, n, k, n.entries[k].node)
  }

  ghost predicate ChildOk(nodes: set<MetaNode>, n: MetaNode, k: string, child: MetaNode) {
    child in nodes && child.address == n.address + [k]
  }

  ghost predicate Unique(nodes: set<MetaNode>) {
    forall n, m | n in nodes && m in nodes && n.address == m.address :: n == m
  }

  /** `e` is what following `address` leads to: that very dictionary, or the value there. */
  ghost predicate LeadsTo(nodes: set<MetaNode>, tree: Tree, address: seq<string>, e: Entry) {
    match e
    case Sub(n) => n in nodes && n.address == address
    case Val(v) => FaceAt(tree, address) == Some(Value(v))
  }

  /** Entry k of the stack is what the first k segments of the path lead to. */
  ghost predicate StackOk(nodes: set<MetaNode>, tree: Tree, metaStack: seq<Entry>, path: seq<Segment>) {
    && |metaStack| <= |path| + 1 && tree.Tree?
    && (metaStack == [] ==> nodes == {} && tree == EMPTY)
    && forall k | 0 <= k < |metaStack| :: LeadsTo(nodes, tree, Strs(path)[..k], metaStack[k])
  }

  lemma NodeIsDictionary(nodes: set<MetaNode>, tree: Tree, n: MetaNode)
    requires NodesOk(nodes, tree) && n in nodes
    ensures At(tree, n.address).Some? && At(tree, n.address).value.Tree?
    ensures At(tree, n.address).value.entries.Keys == n.entries.Keys
    ensures FaceOf(At(tree, n.address).value) == Dictionary(Faces(n.entries))
  {
    assert Faces(n.entries).Keys == n.entries.Keys;
    assert FaceAt(tree, n.address) == Some(Dictionary(Faces(n.entries)));
    var t := At(tree, n.address).value;
    assert t.Tree?;
    assert FaceOf(t).entries.Keys == t.entries.Keys;
  }

  /** What an entry leads to is what is seen at its address. */
  lemma EntryLeads(nodes: set<MetaNode>, tree: Tree, n: MetaNode, k: string)
    requires NodesOk(nodes, tree) && ChildrenOk(nodes) && n in nodes && k in n.entries
    ensures LeadsTo(nodes, tree, n.address + [k], n.entries[k])
  {
    hide Faces, At, FaceOf;
    NodeIsDictionary(nodes, tree, n);
    match n.entries[k]
    case Sub(child) =>
      assert ChildOk(nodes, n, k, child);
    case Val(v) =>
      EntrySeen(tree, n.address, n.entries, k);
  }

  lemma EntrySeen(tree: Tree, a: seq<string>, entries: map<string, Entry>, k: string)
    requires At(tree, a).Some? && FaceOf(At(tree, a).value) == Dictionary(Faces(entries))
    requires k in entries && entries[k].Val?
    ensures FaceAt(tree, a + [k]) == Some(Value(entries[k].value))
  {
    var t := At(tree, a).value;
    AtConcat(tree, a, [k]);
    assert [k][1..] == [];
    assert k in Faces(entries) && Faces(entries)[k] == Some(entries[k].value);
    assert k in FaceOf(t).entries;
  }

  /** What is seen after `key` was set to a new, empty dictionary at `a`. */
  ghost predicate GrownTree(tree: Tree, a: seq<string>, entries: map<string, Entry>, key: string, tree': Tree) {
    && FaceAt(tree, a + [key]) == None
    && forall r :: FaceAt(tree', r) ==
         if r == a then Some(Dictionary(Faces(entries)[key := None]))
         else if r == a + [key] then Some(Dictionary(map[]))
         else FaceAt(tree, r)
  }

  ghost predicate Overwritten(a: seq<string>, meta: Meta, r: seq<string>) {
    a < r && r[|a|] in meta
  }

  ghost predicate SeenAfterUpdate(tree: Tree, a: seq<string>, entries: map<string, Entry>, meta: Meta, tree': Tree,
                                  r: seq<string>) {
    FaceAt(tree', r) ==
      if r == a then Some(Dictionary(Faces(entries) + Somes(meta)))
      else if Overwritten(a, meta, r) then (if |r| == |a| + 1 then Some(Value(meta[r[|a|]])) else None)
      else FaceAt(tree, r)
  }

  /** What is seen after the dictionary at `a` was updated with `meta`. */
  ghost predicate UpdatedTree(tree: Tree, a: seq<string>, entries: map<string, Entry>, meta: Meta, tree': Tree) {
    forall r :: SeenAfterUpdate(tree, a, entries, meta, tree', r)
  }

  lemma OverwrittenChild(a: seq<string>, meta: Meta, q: seq<string>, k: string)
    requires Overwritten(a, meta, q + [k]) && !Overwritten(a, meta, q)
    ensures q == a && k in meta
  {
    var r := q + [k];
    assert q == r[..|q|] && a <= q;
    assert forall i | 0 <= i < |q| :: r[i] == q[i];
  }

  lemma FaceHere(tree: Tree, a: seq<string>)
    requires At(tree, a).Some?
    ensures FaceAt(tree, a) == Some(FaceOf(At(tree, a).value))
  {
  }

  lemma FacesBelowNothing(tree: Tree, a: seq<string>, key: string)
    requires At(tree, a).Some? && At(tree, a).value.Tree? && key !in At(tree, a).value.entries
    ensures FaceAt(tree, a + [key]) == None
  {
    AtConcat(tree, a, [key]);
  }

  /** Between the first step of `_annotate` and its last, the outcome stays open, or stays what it was. */
  ghost predicate OnTheWay(before: Tree, now: Tree, path: seq<string>, meta: Meta) {
    && Annotate(now, path, meta) == Annotate(before, path, meta)
    && (now == before || Annotate(before, path, meta).Some?)
  }

  /** `setdefault` for a key of the way. */
  lemma GrownOnTheWay(before: Tree, a: seq<string>, key: string, now: Tree, path: seq<string>, meta: Meta)
    requires At(before, a).Some? && At(before, a).value.Tree? && a + [key] <= path + [""]
    requires var e := At(before, a).value.entries;
             now == if key in e then before else SetAt(before, a, e[key := EMPTY])
    ensures OnTheWay(before, now, path, meta)
  {
    hide At, SetAt, Annotate;
    if key !in At(before, a).value.entries {
      AnnotateGrown(before, a, key, path, meta);
    }
  }

  lemma Blocked(tree: Tree, q: seq<string>, v: MetaValue, path: seq<string>, meta: Meta)
    requires FaceAt(tree, q) == Some(Value(v)) && q <= path + [""]
    ensures Annotate(tree, path, meta) == None
  {
    AnnotateStuck(tree, q, path, meta);
  }

  class Serializer {
    const c: Config
    const memo: Memo
    var path: seq<Segment>
    var metaStack: seq<Entry>
    ghost var nodes: set<MetaNode>
    ghost var tree: Tree
    ghost var log: seq<Note>

    ghost predicate Valid()
      reads this, nodes
    {
      TreeOk(nodes, tree) && StackOk(nodes, tree, metaStack, path)
    }

    ghost function Now(): State
      reads this, memo
    {
      State(memo.ids, tree)
    }

    constructor (c: Config)
      ensures Valid() && this.c == c && fresh(memo) && memo.objs == []
      ensures path == [] && metaStack == [] && Now() == START && log == [] && nodes == {}
    {
      this.c := c;
      memo := new Memo();
      path, metaStack, nodes, tree, log := [], [], {}, EMPTY, [];
    }

    // ------------------------------------------------------------ _annotate

    /** `last.setdefault(key, {})` */
    method SetDefault(last: MetaNode, key: string) returns (e: Entry)
      requires Valid() && last in nodes
      modifies this`nodes, this`tree, last
      ensures Valid() && fresh(nodes - old(nodes))
      ensures last in nodes && LeadsTo(nodes, tree, last.address + [key], e)
      ensures At(old(tree), last.address).Some? && At(old(tree), last.address).value.Tree?
      ensures var before := At(old(tree), last.address).value.entries;
              tree == if key in before then old(tree) else SetAt(old(tree), last.address, before[key := EMPTY])
    {
      hide NodesOk, ChildrenOk, Unique, StackOk, LeadsTo, At, SetAt;
      NodeIsDictionary(nodes, tree, last);
      if key in last.entries {
        e := last.entries[key];
        EntryLeads(nodes, tree, last, key);
      } else {
        e := Attach(last, key);
      }
    }

    method Attach(last: MetaNode, key: string) returns (e: Entry)
      requires Valid() && last in nodes && key !in last.entries
      modifies this`nodes, this`tree, last
      ensures Valid() && fresh(nodes - old(nodes)) && last in nodes
      ensures LeadsTo(nodes, tree, last.address + [key], e)
      ensures At(old(tree), last.address).Some? && At(old(tree), last.address).value.Tree?
      ensures var before := At(old(tree), last.address).value.entries;
              key !in before && tree == SetAt(old(tree), last.address, before[key := EMPTY])
    {
      hide NodesOk, ChildrenOk, Unique, StackOk, At, SetAt, Grown, GrownTree;
      NodeIsDictionary(nodes, tree, last);
      var node := new MetaNode(last.address + [key]);
      last.entries := last.entries[key := Sub(node)];
      ghost var before := At(tree, last.address).value.entries;
      ghost var tree' := SetAt(tree, last.address, before[key := EMPTY]);
      DictionaryOnTheWay(tree, last.address, before[key := EMPTY]);
      GrownMeans(last, node, key, tree');
      AttachKeepsNodes(last, node, key, tree');
      AttachKeepsChildren(last, node, key, tree');
      AttachKeepsUnique(last, node, key, tree');
      AttachKeepsStack(last, node, key, tree');
      nodes, tree := nodes + {node}, tree';
      e := Sub(node);
    }

    /** `node` is the new, empty child of `last` under `key`, and `tree'` is the tree with it. */
    twostate predicate Grown(last: MetaNode, new node: MetaNode, new key: string, new tree': Tree)
      reads this, nodes, node
    {
      && nodes == old(nodes) && tree == old(tree) && last in nodes && node !in nodes && key !in old(last.entries)
      && node.entries == map[] && node.address == last.address + [key]
      && last.entries == old(last.entries)[key := Sub(node)]
      && (forall n <- nodes :: n == last || n.entries == old(n.entries))
      && GrownTree(tree, last.address, old(last.entries), key, tree')
    }

    twostate lemma GrownMeans(last: MetaNode, new node: MetaNode, new key: string, new tree': Tree)
      requires nodes == old(nodes) && tree == old(tree) && last in nodes && node !in nodes && key !in old(last.entries)
      requires node.entries == map[] && node.address == last.address + [key]
      requires last.entries == old(last.entries)[key := Sub(node)]
      requires forall n <- nodes :: n == last || n.entries == old(n.entries)
      requires old(NodesOk(nodes, tree)) && At(tree, last.address).Some? && At(tree, last.address).value.Tree?
      requires var e := At(tree, last.address).value.entries;
               key !in e && tree' == SetAt(tree, last.address, e[key := EMPTY])
      ensures Grown(last, node, key, tree')
    {
      hide At, SetAt, FaceAt;
      var e := At(tree, last.address).value.entries;
      assert FaceAt(tree, last.address) == Some(Dictionary(Faces(old(last.entries))));
      assert FaceOf(Tree(e)) == Dictionary(Faces(old(last.entries))) by {
        FaceHere(tree, last.address);
      }
      forall r
        ensures FaceAt(tree', r) ==
                  if r == last.address then Some(Dictionary(Faces(old(last.entries))[key := None]))
                  else if r == last.address + [key] then Some(Dictionary(map[]))
                  else FaceAt(tree, r)
      {
        GrownFaces(tree, last.address, key, r);
      }
      FacesBelowNothing(tree, last.address, key);
    }

    twostate lemma AttachKeepsNodes(last: MetaNode, new node: MetaNode, new key: string, new tree': Tree)
      requires old(NodesOk(nodes, tree)) && Unique(old(nodes)) && Grown(last, node, key, tree')
      ensures NodesOk(nodes + {node}, tree')
    {
      hide FaceAt;
      forall n | n in nodes + {node}
        ensures FaceAt(tree', n.address) == Some(Dictionary(Faces(n.entries)))
      {
        if n == node {
          assert Faces(map[]) == map[];
        } else if n == last {
          assert Faces(n.entries) == Faces(old(n.entries))[key := None];
        } else {
          assert FaceAt(tree, n.address) == Some(Dictionary(Faces(n.entries)));
          assert n.address != last.address && n.address != last.address + [key];
        }
      }
    }

    twostate lemma AttachKeepsChildren(last: MetaNode, new node: MetaNode, new key: string, new tree': Tree)
      requires old(ChildrenOk(nodes)) && Grown(last, node, key, tree')
      ensures ChildrenOk(nodes + {node})
    {
      hide GrownTree;
      var all := nodes + {node};
      forall n, k | n in all && k in n.entries && n.entries[k].Sub?
        ensures ChildOk(all, n, k, n.entries[k].node)
      {
        if !(n == last && k == key) {
          assert old(k in n.entries && n.entries[k].Sub?);
          assert ChildOk(nodes, n, k, old(n.entries[k].node));
        }
      }
    }

    twostate lemma AttachKeepsUnique(last: MetaNode, new node: MetaNode, new key: string, new tree': Tree)
      requires old(NodesOk(nodes, tree)) && Unique(nodes) && Grown(last, node, key, tree')
      ensures Unique(nodes + {node})
    {
      hide FaceAt;
      forall n <- nodes
        ensures n.address != node.address
      {
        assert FaceAt(tree, n.address) == Some(Dictionary(Faces(old(n.entries))));
      }
    }

    twostate lemma AttachKeepsStack(last: MetaNode, new node: MetaNode, new key: string, new tree': Tree)
      requires old(NodesOk(nodes, tree)) && StackOk(nodes, tree, metaStack, path) && Grown(last, node, key, tree')
      requires tree'.Tree?
      ensures StackOk(nodes + {node}, tree', metaStack, path)
    {
      hide FaceAt, Strs;
      assert FaceAt(tree, last.address) == Some(Dictionary(Faces(old(last.entries))));
      forall k | 0 <= k < |metaStack|
        ensures LeadsTo(nodes + {node}, tree', Strs(path)[..k], metaStack[k])
      {
        assert LeadsTo(nodes, tree, Strs(path)[..k], metaStack[k]);
      }
    }

    /** `node.update(meta)`; dictionaries that are overwritten leave the tree. */
    method Update(node: MetaNode, meta: Meta)
      requires Valid() && node in nodes && |metaStack| == |path| + 1 && node.address == Strs(path) + [""]
      modifies this`nodes, this`tree, node
      ensures Valid() && nodes <= old(nodes)
      ensures At(old(tree), node.address).Some? && At(old(tree), node.address).value.Tree?
      ensures tree == SetAt(old(tree), node.address, At(old(tree), node.address).value.entries + Leaves(meta))
    {
      hide NodesOk, ChildrenOk, Unique, StackOk, At, SetAt, Updated, UpdatedTree, Overwritten;
      NodeIsDictionary(nodes, tree, node);
      node.entries := node.entries + Vals(meta);
      ghost var tree' := SetAt(tree, node.address, At(tree, node.address).value.entries + Leaves(meta));
      ghost var left := set n <- nodes | !Overwritten(node.address, meta, n.address);
      DictionaryOnTheWay(tree, node.address, At(tree, node.address).value.entries + Leaves(meta));
      UpdatedMeans(node, meta, tree', left);
      UpdateKeepsNodes(node, meta, tree', left);
      UpdateKeepsChildren(node, meta, tree', left);
      UpdateKeepsUnique(left);
      UpdateKeepsStack(node, meta, tree', left);
      nodes, tree := left, tree';
    }

    twostate predicate Updated(node: MetaNode, new meta: Meta, new tree': Tree, new left: set<MetaNode>)
      reads this, nodes
    {
      && nodes == old(nodes) && tree == old(tree) && node in nodes
      && node.entries == old(node.entries) + Vals(meta)
      && (forall n <- nodes :: n == node || n.entries == old(n.entries))
      && left == (set n <- nodes | !Overwritten(node.address, meta, n.address))
      && UpdatedTree(tree, node.address, old(node.entries), meta, tree')
    }

    twostate lemma UpdatedMeans(node: MetaNode, new meta: Meta, new tree': Tree, new left: set<MetaNode>)
      requires nodes == old(nodes) && tree == old(tree) && node in nodes
      requires node.entries == old(node.entries) + Vals(meta)
      requires forall n <- nodes :: n == node || n.entries == old(n.entries)
      requires left == (set n <- nodes | !Overwritten(node.address, meta, n.address))
      requires old(NodesOk(nodes, tree)) && At(tree, node.address).Some? && At(tree, node.address).value.Tree?
      requires tree' == SetAt(tree, node.address, At(tree, node.address).value.entries + Leaves(meta))
      ensures Updated(node, meta, tree', left)
    {
      hide At, SetAt, FaceAt;
      var e := At(tree, node.address).value.entries;
      assert FaceAt(tree, node.address) == Some(Dictionary(Faces(old(node.entries))));
      assert FaceOf(Tree(e)) == Dictionary(Faces(old(node.entries))) by {
        FaceHere(tree, node.address);
      }
      forall r
        ensures SeenAfterUpdate(tree, node.address, old(node.entries), meta, tree', r)
      {
        UpdatedFaces(tree, node.address, meta, r);
      }
    }

    twostate lemma UpdateKeepsNodes(node: MetaNode, new meta: Meta, new tree': Tree, new left: set<MetaNode>)
      requires old(NodesOk(nodes, tree)) && Unique(nodes) && Updated(node, meta, tree', left)
      ensures NodesOk(left, tree')
    {
      hide FaceAt;
      forall n | n in left
        ensures FaceAt(tree', n.address) == Some(Dictionary(Faces(n.entries)))
      {
        assert SeenAfterUpdate(tree, node.address, old(node.entries), meta, tree', n.address);
        if n == node {
          assert Faces(n.entries) == Faces(old(n.entries)) + Somes(meta);
        } else {
          assert n.address != node.address;
          assert FaceAt(tree, n.address) == Some(Dictionary(Faces(n.entries)));
        }
      }
    }

    twostate lemma UpdateKeepsChildren(node: MetaNode, new meta: Meta, new tree': Tree, new left: set<MetaNode>)
      requires old(ChildrenOk(nodes)) && Unique(nodes) && Updated(node, meta, tree', left)
      ensures ChildrenOk(left)
    {
      hide UpdatedTree;
      forall n, k | n in left && k in n.entries && n.entries[k].Sub?
        ensures ChildOk(left, n, k, n.entries[k].node)
      {
        assert old(k in n.entries && n.entries[k].Sub?) && n.entries[k] == old(n.entries[k]);
        var child := n.entries[k].node;
        assert ChildOk(nodes, n, k, child);
        if Overwritten(node.address, meta, child.address) {
          OverwrittenChild(node.address, meta, n.address, k);
          assert false;
        }
      }
    }

    lemma UpdateKeepsUnique(left: set<MetaNode>)
      requires Unique(nodes) && left <= nodes
      ensures Unique(left)
    {
    }

    twostate lemma UpdateKeepsStack(node: MetaNode, new meta: Meta, new tree': Tree, new left: set<MetaNode>)
      requires StackOk(nodes, tree, metaStack, path) && Updated(node, meta, tree', left)
      requires |metaStack| == |path| + 1 && node.address == Strs(path) + [""] && tree'.Tree?
      ensures StackOk(left, tree', metaStack, path)
    {
      hide FaceAt, Strs;
      forall k | 0 <= k < |metaStack|
        ensures LeadsTo(left, tree', Strs(path)[..k], metaStack[k])
      {
        var r := Strs(path)[..k];
        assert LeadsTo(nodes, tree, r, metaStack[k]);
        assert |r| < |node.address| && !Overwritten(node.address, meta, r);
        assert SeenAfterUpdate(tree, node.address, old(node.entries), meta, tree', r);
      }
    }

    /** One round of the loop in `_annotate`: the next entry along the path, made if it is missing. */
    method PushNode(ghost meta: Meta) returns (blocked: bool)
      requires Valid() && |metaStack| <= |path|
      modifies this`metaStack, this`nodes, this`tree, nodes
      ensures Valid() && fresh(nodes - old(nodes))
      ensures OnTheWay(old(tree), tree, Strs(path), meta)
      ensures blocked ==> tree == old(tree) && MetaDict.Annotate(tree, Strs(path), meta) == None
      ensures !blocked ==> |metaStack| == |old(metaStack)| + 1
    {
      hide NodesOk, ChildrenOk, Unique, OnTheWay, At, SetAt, FaceAt, MetaDict.Annotate;
      if metaStack == [] {
        PushRoot();
        StillOnTheWay(tree, Strs(path), meta);
        return false;
      }
      ghost var n, p := |metaStack|, Strs(path);
      var last := metaStack[|metaStack| - 1];
      assert LeadsTo(nodes, tree, p[..n - 1], last);
      if last.Val? {
        assert p[..n - 1] <= p + [""];
        Blocked(tree, p[..n - 1], last.value, p, meta);
        StillOnTheWay(tree, p, meta);
        return true;
      }
      var key := StrOf(path[|metaStack| - 1]);
      assert p[..n - 1] + [key] == p[..n];
      assert p[..n] <= p + [""];
      ghost var before := tree;
      var e := SetDefault(last.node, key);
      GrownOnTheWay(before, last.node.address, key, tree, p, meta);
      metaStack := metaStack + [e];
      return false;
    }

    lemma StillOnTheWay(t: Tree, p: seq<string>, meta: Meta)
      ensures OnTheWay(t, t, p, meta)
    {
    }

    /** The first entry, made when the stack is empty. */
    method PushRoot()
      requires Valid() && metaStack == []
      modifies this`metaStack, this`nodes
      ensures Valid() && fresh(nodes - old(nodes)) && |metaStack| == 1
    {
      var node := new MetaNode([]);
      FacesOfEmpty([]);
      assert Faces(map[]) == map[];
      assert Strs(path)[..0] == [];
      nodes := {node};
      metaStack := [Sub(node)];
    }

    /** `_annotate`: it raises where its way is blocked by part of an annotation, and then changes nothing. */
    method Annotate(meta: Meta) returns (raised: bool)
      requires Valid()
      modifies this`metaStack, this`nodes, this`tree, this`log, nodes
      ensures Valid() && fresh(nodes - old(nodes))
      ensures log == old(log) + [Note(Strs(path), meta)]
      ensures raised <==> MetaDict.Annotate(old(tree), Strs(path), meta) == None
      ensures tree == After(old(tree), Strs(path), meta)
    {
      hide NodesOk, ChildrenOk, Unique, At, SetAt, FaceAt, MetaDict.Annotate;
      ghost var p := Strs(path);
      log := log + [Note(p, meta)];
      while |metaStack| <= |path|
        invariant Valid() && fresh(nodes - old(nodes)) && log == old(log) + [Note(p, meta)]
        invariant OnTheWay(old(tree), tree, p, meta)
        decreases |path| + 1 - |metaStack|
      {
        var blocked := PushNode(meta);
        if blocked {
          return true;
        }
      }
      raised := Merge(meta);
    }

    /** `self.meta_stack[-1].setdefault("", {}).update(meta)` */
    method Merge(meta: Meta) returns (raised: bool)
      requires Valid() && |metaStack| == |path| + 1
      modifies this`nodes, this`tree, nodes
      ensures Valid() && fresh(nodes - old(nodes))
      ensures raised <==> MetaDict.Annotate(old(tree), Strs(path), meta) == None
      ensures tree == After(old(tree), Strs(path), meta)
    {
      hide NodesOk, ChildrenOk, Unique, At, SetAt, FaceAt, MetaDict.Annotate;
      ghost var p := Strs(path);
      var top := metaStack[|path|];
      assert LeadsTo(nodes, tree, p[..|path|], top);
      assert p[..|path|] == p;
      if top.Val? {
        assert p <= p + [""];
        Blocked(tree, p, top.value, p, meta);
        return true;
      }
      ghost var before := tree;
      var slot := SetDefault(top.node, "");
      assert p + [""] <= p + [""];
      GrownOnTheWay(before, top.node.address, "", tree, p, meta);
      if slot.Val? {
        Blocked(tree, p + [""], slot.value, p, meta);
        return true;
      }
      ghost var grown := tree;
      Update(slot.node, meta);
      AnnotateInPlace(grown, p, meta);
      return false;
    }

    /** `_flatten_annotated` of what `strip_string` returns. */
    method FlattenStripped(stripped: Stripped) returns (res: Result)
      requires Valid()
      modifies this`metaStack, this`nodes, this`tree, this`log, nodes
      ensures Valid() && fresh(nodes - old(nodes))
      ensures stripped.Whole? ==> res == Done(Txt(stripped.value)) && log == old(log) && tree == old(tree)
      ensures stripped.Cut? ==>
                var meta := map["len" := Length(stripped.len),
                                "rem" := RemovedFrom(stripped.limit - 3, stripped.limit)];
                && log == old(log) + [Note(Strs(path), meta)]
                && tree == After(old(tree), Strs(path), meta)
                && res == (if MetaDict.Annotate(old(tree), Strs(path), meta).Some? then Done(Txt(stripped.value))
                           else Raised)
    {
      hide TreeOk, StackOk, After, MetaDict.Annotate;
      if stripped.Cut? {
        var raised := Annotate(map["len" := Length(stripped.len),
                                   "rem" := RemovedFrom(stripped.limit - 3, stripped.limit)]);
        if raised {
          return Raised;
        }
      }
      res := Done(Txt(stripped.value));
    }

    // ------------------------------------------------------------ _serialize_node

    /** `self.path.append(segment)` */
    method EnterSegment(segment: Option<Segment>)
      requires Valid()
      modifies this`path
      ensures Valid() && path == if segment.Some? then old(path) + [segment.value] else old(path)
    {
      hide TreeOk, LeadsTo;
      if segment.Some? {
        path := path + [segment.value];
        assert forall k | 0 <= k < |metaStack| :: Strs(path)[..k] == Strs(old(path))[..k];
      }
    }

    /** The `finally` of `_serialize_node`: the stack never keeps more than the path's entry. */
    method LeaveSegment(segment: Option<Segment>)
      requires Valid() && (segment.Some? ==> path != [])
      modifies this`path, this`metaStack
      ensures Valid() && path == if segment.Some? then old(path)[..|old(path)| - 1] else old(path)
    {
      hide TreeOk, LeadsTo;
      if segment.Some? {
        path := path[..|path| - 1];
        if |path| + 1 < |metaStack| {
          metaStack := metaStack[..|path| + 1];
        }
        assert forall k | 0 <= k < |metaStack| :: Strs(path)[..k] == Strs(old(path))[..k];
      }
    }

    method SerializeNode(obj: Ref, f: Flags, segment: Option<Segment>, stack: nat) returns (res: Result)
      requires Valid() && SerializerSpec.Closed(c.w) && obj in c.w.shapes
      modifies this, memo, nodes
      ensures Valid() && fresh(nodes - old(nodes))
      ensures path == old(path) && memo.objs == old(memo.objs)
      ensures var at := if segment.Some? then old(path) + [segment.value] else old(path);
              var o := Node(c, obj, at, f, stack, old(Now()));
              res == o.res && log == old(log) + o.log && Now() == o.s
      decreases stack, 0, 0
    {
      hide TreeOk, StackOk, Impl, Closed, Node;
      ghost var at := if segment.Some? then path + [segment.value] else path;
      NodeStep(c, obj, at, f, stack, Now());
      if stack == 0 {
        return Raised;
      }
      EnterSegment(segment);
      memo.Memoize(obj);
      var hit := memo.Enter();
      if hit {
        res := Done(Cyclic);
      } else {
        res := SerializeNodeImpl(obj, f, stack - 1);
      }
      memo.Exit();
      if res.Raised? {
        res := Done(if f.isDatabag == Some(true) then Failed else Null);
      }
      LeaveSegment(segment);
    }

    method SerializeNodeImpl(obj: Ref, f: Flags, stack: nat) returns (res: Result)
      requires Valid() && SerializerSpec.Closed(c.w) && obj in c.w.shapes
      modifies this, memo, nodes
      ensures Valid() && fresh(nodes - old(nodes))
      ensures path == old(path) && memo.objs == old(memo.objs)
      ensures var o := Impl(c, obj, path, f, stack, old(Now()));
              res == o.res && log == old(log) + o.log && Now() == o.s
      decreases stack, 2, 0
    {
      hide TreeOk, StackOk, Body, Closed, After, MetaDict.Annotate, Strs;
      var sh := c.w.shapes[obj];
      var f' := Resolve(c, sh, path, f);
      // obj = self._flatten_annotated(obj)
      var obj' := Flattened(c, obj);
      if sh.Annotated? {
        var raised := Annotate(sh.metadata);
        if raised {
          return Raised;
        }
      }
      ghost var first := log;
      res := SerializeBody(obj', f', stack);
      assert first == old(log) + Flattening(sh, path, old(Now())).log;
    }

    /** The rest of `_serialize_node_impl`, after the flattening. */
    method SerializeBody(obj: Ref, f: Flags, stack: nat) returns (res: Result)
      requires Valid() && SerializerSpec.Closed(c.w) && obj in c.w.shapes
      modifies this, memo, nodes
      ensures Valid() && fresh(nodes - old(nodes))
      ensures path == old(path) && memo.objs == old(memo.objs)
      ensures var o := Body(c, obj, path, f, stack, old(Now()));
              res == o.res && log == old(log) + o.log && Now() == o.s
      decreases stack, 1, 1
    {
      hide TreeOk, StackOk, Loop, Closed, Stripping, Childless, After, MetaDict.Annotate, Strs, Children;
      if f.depth == Finite(0) {
        var raised := Annotate(map["rem" := Removed]);
        if raised {
          return Raised;
        }
        if f.isDatabag == Some(true) {
          ghost var first := log;
          res := StripAndFlatten(c.w.repr(obj));
          return;
        }
        return Done(Null);
      } else if c.w.shapes[obj].Mapping? {
        res := SerializeMapping(obj, f, stack);
      } else if c.w.shapes[obj].Sequence? {
        res := SerializeSequence(obj, f, stack);
      } else {
        res := SerializeLeaf(obj, f);
      }
    }

    method StripAndFlatten(text: Text) returns (res: Result)
      requires Valid()
      modifies this`metaStack, this`nodes, this`tree, this`log, nodes
      ensures Valid() && fresh(nodes - old(nodes))
      ensures var o := Stripping(c, path, text, old(Now()));
              res == o.res && log == old(log) + o.log && Now() == o.s
    {
      hide TreeOk, StackOk, Strip, After, MetaDict.Annotate, Strs;
      res := FlattenStripped(Strip(text, c.maxLength));
    }

    method SerializeLeaf(obj: Ref, f: Flags) returns (res: Result)
      requires Valid() && obj in c.w.shapes && !c.w.shapes[obj].Mapping? && !c.w.shapes[obj].Sequence?
      modifies this`metaStack, this`nodes, this`tree, this`log, nodes
      ensures Valid() && fresh(nodes - old(nodes))
      ensures var o := Childless(c, obj, path, f, old(Now()));
              res == o.res && log == old(log) + o.log && Now() == o.s
    {
      hide TreeOk, StackOk, Stripping;
      var sh := c.w.shapes[obj];
      var shown := f.reprStrings == Some(true);
      if sh.Hostile? {
        return Raised;
      }
      if sh.Scalar? {
        return Done(if shown || sh.special then Txt(c.w.repr(obj)) else Literal(sh.literal));
      }
      if sh.Date? {
        return Done(Txt(if !shown then sh.formatted else c.w.repr(obj)));
      }
      var text;
      if shown {
        text := c.w.repr(obj);
      } else {
        text := if sh.Str? then sh.text else c.w.repr(obj);
      }
      if IsSpanDescription(path) {
        return Done(Txt(text));
      }
      res := StripAndFlatten(text);
    }

    /** One child of a container: what the rest of the loop `o` still has to do shrinks by it. */
    method SerializeChild(ghost isMapping: bool, ghost cs: seq<Child>, ghost i: nat, ghost kept: Kept,
                          segment: Segment, ref: Ref, f: Flags, stack: nat,
                          ghost o: Outcome, ghost start: seq<Note>, ghost done: seq<Note>)
      returns (res: Result, ghost done': seq<Note>)
      requires Valid() && SerializerSpec.Closed(c.w) && Known(c, cs)
      requires i < |cs| && cs[i] == Child(Some(segment), ref) && !Reached(f.breadth, i)
      requires log == start + done && Rest(o, done, Loop(c, isMapping, cs, i, kept, path, f, stack, Now()))
      modifies this, memo, nodes
      ensures Valid() && fresh(nodes - old(nodes))
      ensures path == old(path) && memo.objs == old(memo.objs)
      ensures res.Raised? ==> o.res.Raised? && log == start + o.log && Now() == o.s
      ensures res.Done? ==> log == start + done'
      ensures res.Done? ==>
                Rest(o, done', Loop(c, isMapping, cs, i + 1, kept + [(segment, res.out)], path, f, stack, Now()))
      decreases stack, 1, 0, 0
    {
      hide TreeOk, StackOk, Closed, Node, Loop, StrOf;
      LoopStep(c, isMapping, cs, i, kept, path, f, stack, Now());
      ghost var step := Node(c, ref, path + [segment], ChildFlags(f), stack, Now());
      res := SerializeNode(ref, ChildFlags(f), Some(segment), stack);
      done' := done + step.log;
      assert log == start + (done + step.log);
      if res.Done? {
        RestStep(o, done, step.log, Loop(c, isMapping, cs, i + 1, kept + [(segment, res.out)], path, f, stack, Now()));
      }
    }

    /** `self._annotate(len=...)` and the end of a loop that was cut short. */
    method CutShort(ghost isMapping: bool, ghost cs: seq<Child>, ghost i: nat, ghost kept: Kept, length: nat,
                    ghost f: Flags, ghost stack: nat, ghost o: Outcome, ghost start: seq<Note>, ghost done: seq<Note>)
      returns (raised: bool)
      requires Valid() && SerializerSpec.Closed(c.w) && Known(c, cs) && i < |cs| == length && Reached(f.breadth, i)
      requires log == start + done && Rest(o, done, Loop(c, isMapping, cs, i, kept, path, f, stack, Now()))
      modifies this`metaStack, this`nodes, this`tree, this`log, nodes
      ensures Valid() && fresh(nodes - old(nodes))
      ensures log == start + o.log && Now() == o.s
      ensures o.res == if raised then Raised else Done(Assemble(isMapping, kept))
    {
      hide TreeOk, StackOk, Closed, Node, Loop, After, MetaDict.Annotate, Strs;
      LoopStep(c, isMapping, cs, i, kept, path, f, stack, Now());
      raised := Annotate(map["len" := Length(length)]);
      assert log == start + (done + [Note(Strs(path), map["len" := Length(length)])]);
    }

    method SerializeMapping(obj: Ref, f: Flags, stack: nat) returns (res: Result)
      requires Valid() && SerializerSpec.Closed(c.w) && obj in c.w.shapes && c.w.shapes[obj].Mapping?
      modifies this, memo, nodes
      ensures Valid() && fresh(nodes - old(nodes))
      ensures path == old(path) && memo.objs == old(memo.objs)
      ensures var o := Loop(c, true, Children(c.w.shapes[obj]), 0, [], path, f, stack, old(Now()));
              res == o.res && log == old(log) + o.log && Now() == o.s
      decreases stack, 1, 0, 1
    {
      hide TreeOk, StackOk, Closed, Node, Loop, DictOf, Rest;
      var entries := c.w.shapes[obj].entries;
      var objLen := |entries|;
      // Only as many pairs as might be kept, and one more to see that there is one.
      var pairs := if f.breadth.Finite? && f.breadth.n + 1 < objLen then entries[..f.breadth.n + 1] else entries;
      ghost var cs, kept: Kept, start := Children(c.w.shapes[obj]), [], log;
      ChildrenKnown(c, obj);
      ghost var o := Loop(c, true, cs, 0, [], path, f, stack, Now());
      ghost var done: seq<Note> := [];
      var rvDict: seq<(string, Out)> := [];
      DictOfNothing();
      RestStart(o);
      for i := 0 to |pairs|
        invariant Valid() && fresh(nodes - old(nodes))
        invariant path == old(path) && memo.objs == old(memo.objs)
        invariant rvDict == DictOf(kept)
        invariant !(f.breadth.Finite? && f.breadth.n < i)
        invariant log == start + done
        invariant Rest(o, done, Loop(c, true, cs, i, kept, path, f, stack, Now()))
      {
        if f.breadth.Finite? && i >= f.breadth.n {
          var raised := CutShort(true, cs, i, kept, objLen, f, stack, o, start, done);
          return if raised then Raised else Done(Dict(rvDict));
        }
        var (k, v) := pairs[i];
        if k.BadKey? {
          LoopStep(c, true, cs, i, kept, path, f, stack, Now());
          RestEnd(o, done, Outcome(Raised, [], Now()));
          return Raised;
        }
        var r;
        r, done := SerializeChild(true, cs, i, kept, Name(k.name), v, f, stack, o, start, done);
        if r.Raised? {
          return Raised;
        }
        rvDict := Put(rvDict, k.name, r.out);
        DictOfSnoc(kept, Name(k.name), r.out);
        kept := kept + [(Name(k.name), r.out)];
      }
      LoopStep(c, true, cs, |pairs|, kept, path, f, stack, Now());
      RestEnd(o, done, Outcome(Done(Dict(rvDict)), [], Now()));
      res := Done(Dict(rvDict));
    }

    method SerializeSequence(obj: Ref, f: Flags, stack: nat) returns (res: Result)
      requires Valid() && SerializerSpec.Closed(c.w) && obj in c.w.shapes && c.w.shapes[obj].Sequence?
      modifies this, memo, nodes
      ensures Valid() && fresh(nodes - old(nodes))
      ensures path == old(path) && memo.objs == old(memo.objs)
      ensures var o := Loop(c, false, Children(c.w.shapes[obj]), 0, [], path, f, stack, old(Now()));
              res == o.res && log == old(log) + o.log && Now() == o.s
      decreases stack, 1, 0, 1
    {
      hide TreeOk, StackOk, Closed, Node, Loop, Rest, StrOf;
      var items := c.w.shapes[obj].items;
      ghost var cs, kept: Kept, start := Children(c.w.shapes[obj]), [], log;
      ChildrenKnown(c, obj);
      ghost var o := Loop(c, false, cs, 0, [], path, f, stack, Now());
      ghost var done: seq<Note> := [];
      var rvList: seq<Out> := [];
      RestStart(o);
      for i := 0 to |items|
        invariant Valid() && fresh(nodes - old(nodes))
        invariant path == old(path) && memo.objs == old(memo.objs)
        invariant rvList == OutsOf(kept)
        invariant log == start + done
        invariant Rest(o, done, Loop(c, false, cs, i, kept, path, f, stack, Now()))
      {
        if f.breadth.Finite? && i >= f.breadth.n {
          var raised := CutShort(false, cs, i, kept, |items|, f, stack, o, start, done);
          return if raised then Raised else Done(Lst(rvList));
        }
        var r;
        r, done := SerializeChild(false, cs, i, kept, Index(i), items[i], f, stack, o, start, done);
        if r.Raised? {
          return Raised;
        }
        rvList := rvList + [r.out];
        kept := kept + [(Index(i), r.out)];
        assert rvList == OutsOf(kept);
      }
      LoopStep(c, false, cs, |items|, kept, path, f, stack, Now());
      RestEnd(o, done, Outcome(Done(Lst(rvList)), [], Now()));
      res := Done(Lst(rvList));
    }
  }

  lemma ChildrenKnown(c: Config, obj: Ref)
    requires Closed(c.w) && obj in c.w.shapes && (c.w.shapes[obj].Mapping? || c.w.shapes[obj].Sequence?)
    ensures Known(c, Children(c.w.shapes[obj]))
  {
  }

  // ---------------------------------------------------------------- reading the result

  /** The entry reached from `e` by following keys, as a reader of `_meta` finds it. */
  ghost function Follow(nodes: set<MetaNode>, e: Entry, q: seq<string>): Option<Entry>
    requires ChildrenOk(nodes) && (e.Sub? ==> e.node in nodes)
    reads nodes
    decreases |q|
  {
    if q == [] then Some(e)
    else if e.Val? || q[0] !in e.node.entries then None
    else
      var next := e.node.entries[q[0]];
      assert next.Sub? ==> ChildOk(nodes, e.node, q[0], next.node);
      Follow(nodes, next, q[1..])
  }

  /** What a reader sees there. */
  ghost function Seen(nodes: set<MetaNode>, e: Entry, q: seq<string>): Option<Face>
    requires ChildrenOk(nodes) && (e.Sub? ==> e.node in nodes)
    reads nodes
  {
    match Follow(nodes, e, q)
    case None => None
    case Some(Val(v)) => Some(Value(v))
    case Some(Sub(n)) => if n in nodes then Some(Dictionary(Faces(n.entries))) else None
  }

  /** A reader of the heap sees the tree. */
  lemma {:induction false} SeenIsTree(nodes: set<MetaNode>, tree: Tree, a: seq<string>, e: Entry, q: seq<string>)
    requires TreeOk(nodes, tree) && LeadsTo(nodes, tree, a, e)
    ensures Seen(nodes, e, q) == FaceAt(tree, a + q)
    decreases |q|
  {
    hide Faces, FaceAt;
    if q == [] {
      assert a + q == a;
    } else if e.Val? {
      NothingBelowValue(tree, a, e.value, q);
    } else {
      assert a + q == (a + [q[0]]) + q[1..];
      if q[0] in e.node.entries {
        EntryLeads(nodes, tree, e.node, q[0]);
        SeenIsTree(nodes, tree, a + [q[0]], e.node.entries[q[0]], q[1..]);
      } else {
        NodeIsDictionary(nodes, tree, e.node);
        FacesBelowNothing(tree, a, q[0]);
        NothingFurther(tree, a + [q[0]], q[1..]);
      }
    }
  }

  /** A reader of what hangs under `e` sees `tree`. */
  ghost predicate Shows(nodes: set<MetaNode>, e: Entry, tree: Tree)
    requires ChildrenOk(nodes) && (e.Sub? ==> e.node in nodes)
    reads nodes
  {
    forall q :: Seen(nodes, e, q) == FaceAt(tree, q)
  }

  /** There is only one tree to see. */
  lemma ShowsOneTree(nodes: set<MetaNode>, e: Entry, a: Tree, b: Tree)
    requires ChildrenOk(nodes) && (e.Sub? ==> e.node in nodes)
    requires Shows(nodes, e, a) && Shows(nodes, e, b)
    ensures a == b
  {
    hide Seen, FaceAt;
    forall q
      ensures FaceAt(a, q) == FaceAt(b, q)
    {
      assert Seen(nodes, e, q) == FaceAt(a, q);
    }
    FacesDetermineTree(a, b);
  }

  lemma NothingBelowValue(tree: Tree, a: seq<string>, v: MetaValue, q: seq<string>)
    requires FaceAt(tree, a) == Some(Value(v)) && q != []
    ensures FaceAt(tree, a + q) == None
  {
    AtConcat(tree, a, q);
  }

  lemma NothingFurther(tree: Tree, a: seq<string>, q: seq<string>)
    requires FaceAt(tree, a) == None
    ensures FaceAt(tree, a + q) == None
  {
    AtConcat(tree, a, q);
  }

  /**
   * `serialize`: the event and its `_meta`, which is attached only to a dictionary.  Whatever was
   * raised and caught on the way, a reader of `_meta` sees exactly the tree specified.
   */
  method Serialize(c: Config, event: Ref, stack: nat)
    returns (out: Out, meta: Option<Entry>, ghost nodes: set<MetaNode>)
    requires Closed(c.w) && event in c.w.shapes && stack > 0
    ensures var o := Node(c, event, [], NO_FLAGS, stack, START);
            && o.res == Done(out)
            && ChildrenOk(nodes)
            && (meta.Some? ==> out.Dict? && !c.isVars && meta.value.Sub? && meta.value.node in nodes
                               && Shows(nodes, meta.value, o.s.tree))
            && (meta.None? && out.Dict? && !c.isVars ==> o.s.tree == EMPTY)
  {
    hide Node, Seen, FaceAt;
    var s := new Serializer(c);
    var res := s.SerializeNode(event, NO_FLAGS, None, stack);
    out := res.out;
    nodes := s.nodes;
    meta := None;
    if !c.isVars && s.metaStack != [] && out.Dict? {
      meta := Some(s.metaStack[0]);
      assert LeadsTo(nodes, s.tree, Strs(s.path)[..0], meta.value);
      assert Strs(s.path)[..0] == [];
      RootIsDictionary(nodes, s.tree, meta.value);
      forall q
        ensures Seen(nodes, meta.value, q) == FaceAt(s.tree, q)
      {
        SeenIsTree(nodes, s.tree, [], meta.value, q);
        assert [] + q == q;
      }
    }
  }

  lemma RootIsDictionary(nodes: set<MetaNode>, tree: Tree, e: Entry)
    requires LeadsTo(nodes, tree, [], e) && tree.Tree?
    ensures e.Sub?
  {
  }

  // ---------------------------------------------------------------- loops and their specification

  /** The whole loop `o` is what was logged so far followed by what the rest of the loop does. */
  ghost predicate Rest(o: Outcome, done: seq<Note>, rest: Outcome) {
    o == Following(done, rest)
  }

  lemma RestStart(o: Outcome)
    ensures Rest(o, [], o)
  {
    assert [] + o.log == o.log;
  }

  lemma RestEnd(o: Outcome, done: seq<Note>, rest: Outcome)
    requires Rest(o, done, rest)
    ensures o.res == rest.res && o.log == done + rest.log && o.s == rest.s
    ensures rest.log == [] ==> o.log == done
  {
  }

  lemma RestStep(o: Outcome, done: seq<Note>, step: seq<Note>, rest: Outcome)
    requires Rest(o, done, Following(step, rest))
    ensures Rest(o, done + step, rest)
  {
    assert done + (step + rest.log) == done + step + rest.log;
  }

  lemma DictOfNothing()
    ensures DictOf([]) == []
  {
  }

  lemma DictOfSnoc(kept: Kept, segment: Segment, out: Out)
    ensures DictOf(kept + [(segment, out)]) == Put(DictOf(kept), StrOf(segment), out)
  {
    assert (kept + [(segment, out)])[..|kept|] == kept;
  }
}
