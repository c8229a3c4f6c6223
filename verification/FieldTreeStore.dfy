/**
 * The linked `FieldTree` objects: a snapshot of their contents as a store, and what writing one
 * entry of one object does to every path read from the root.
 */
module FieldTreeStore {
  import opened Values
  import opened FieldTrees

  /** `FieldTree`: `children` with its insertion order, as a JavaScript map keeps it. */
  class FieldTree {
    var names: seq<string>
    var children: map<string, Child>

    constructor ()
      ensures names == [] && children == map[]
    {
      names, children := [], map[];
    }

    /** `children.set(name, child)`, seen in the snapshot of a set of objects. */
    method PutChild(name: string, child: Child, ghost nodes: set<FieldTree>) returns (ghost nodes': set<FieldTree>)
      requires this in nodes
      requires child.TreeChild? ==> child.tree !in nodes && child.tree.names == [] && child.tree.children == map[]
      modifies this
      ensures nodes' == if child.TreeChild? then nodes + {child.tree} else nodes
      ensures Snapshot(nodes') == Write(old(Snapshot(nodes)), this, name, child)
    {
      if name !in names { names := names + [name]; }
      children := children[name := child];
      nodes' := if child.TreeChild? then nodes + {child.tree} else nodes;
    }

    /** `get`, on a tree whose objects `nodes` mirror the value `n`. */
    method Get(path: Path, ghost nodes: set<FieldTree>, ghost n: Node) returns (r: Reading)
      requires Mirrors(Snapshot(nodes), this, n)
      ensures r == Read(n, path)
    {
      ghost var h := Snapshot(nodes);
      var current := TreeChild(this);
      var i := 0;
      while i < |path|
        invariant 0 <= i <= |path|
        invariant current.TreeChild? ==> Walk(h, this, path[..i]) == Some(current.tree)
        invariant current.LeafChild? ==> LookAt(n, path[..i]) == Leafy(current.leaf)
      {
        assert path[..i] + path[i..] == path;
        if current.LeafChild? {
          LookReads(n, path[..i]);
          ReadBelowLeaf(n, path[..i], path);
          return Absent;
        }
        LookFromWalk(h, this, path[..i], path[i..]);
        LookReads(n, path);
        if path[i] !in current.tree.children {
          return Absent;
        }
        assert path[..i + 1] == path[..i] + [path[i]];
        LookFromWalk(h, this, path[..i], [path[i]]);
        WalkSnoc(h, this, path[..i], path[i]);
        current, i := current.tree.children[path[i]], i + 1;
      }
      assert path[..i] == path;
      LookReads(n, path);
      if current.LeafChild? { return Evidence(current.leaf); }
      LookFromWalk(h, this, path, []);
      assert path + [] == path;
      return Inner;
    }

    /** One turn of the loop of `set`: into the tree at the next name, made if there is none. */
    static method Enter(ghost root: FieldTree, ghost n: Node, path: Path, i: nat, ghost grown: nat, branch: FieldTree,
                        replaceNulls: bool, ghost nodes: set<FieldTree>, ghost leaf: Leaf)
      returns (next: Option<FieldTree>, ghost grown': nat, ghost nodes': set<FieldTree>)
      requires i < |path| - 1 && branch in nodes
      requires Descending(Snapshot(nodes), root, n, path, i, grown, branch, replaceNulls)
      modifies branch
      ensures nodes <= nodes' && fresh(nodes' - nodes)
      ensures grown' == 0 ==> grown == 0 && nodes' == nodes && Snapshot(nodes') == old(Snapshot(nodes))
      ensures next.Some? ==> Descending(Snapshot(nodes'), root, n, path, i + 1, grown', next.value, replaceNulls)
      ensures next.None? ==> grown' == 0 && FieldTrees.Set(n, path, leaf, replaceNulls).None?
    {
      ghost var h := Snapshot(nodes);
      var part := path[i];
      grown', nodes' := grown, nodes;
      if part !in branch.children || (branch.children[part].LeafChild? && replaceNulls &&
        OnlyNulls(branch.children[part].leaf)) {
        var made := new FieldTree();
        OpenStep(h, root, n, path, i, grown, branch, replaceNulls, made);
        nodes' := branch.PutChild(part, TreeChild(made), nodes);
        return Some(made), if grown == 0 then i + 1 else grown, nodes';
      } else if branch.children[part].TreeChild? {
        DescendStep(h, root, n, path, i, grown, branch, replaceNulls);
        return Some(branch.children[part].tree), 0, nodes;
      } else {
        BlockStep(h, root, n, path, i, grown, branch, leaf, replaceNulls);
        return None, 0, nodes;
      }
    }

    /**
     * `set`, in place. On a conflict no object has changed; otherwise the objects mirror the
     * tree with the new leaf.
     */
    method Set(path: Path, leaf: Leaf, replaceNulls: bool, ghost nodes: set<FieldTree>, ghost n: Node)
      returns (ok: bool, ghost nodes': set<FieldTree>)
      requires path != [] && Mirrors(Snapshot(nodes), this, n)
      modifies nodes
      ensures ok <==> FieldTrees.Set(n, path, leaf, replaceNulls).Some?
      ensures !ok ==> nodes' == nodes && Snapshot(nodes) == old(Snapshot(nodes))
      ensures ok ==> Mirrors(Snapshot(nodes'), this, FieldTrees.Set(n, path, leaf, replaceNulls).value)
      ensures nodes <= nodes' && fresh(nodes' - nodes)
    {
      ghost var grown := 0;
      nodes' := nodes;
      var branch := this;
      var i := 0;
      while i < |path| - 1
        invariant 0 <= i < |path| && nodes <= nodes' && fresh(nodes' - nodes)
        invariant grown == 0 ==> nodes' == nodes && Snapshot(nodes') == old(Snapshot(nodes))
        invariant Descending(Snapshot(nodes'), this, n, path, i, grown, branch, replaceNulls)
      {
        var next;
        next, grown, nodes' := Enter(this, n, path, i, grown, branch, replaceNulls, nodes', leaf);
        if next.None? {
          return false, nodes';
        }
        branch, i := next.value, i + 1;
      }
      var name := path[i];
      FinishStep(Snapshot(nodes'), this, n, path, grown, branch, leaf, replaceNulls);
      if name in branch.children && branch.children[name].TreeChild? {
        return false, nodes';
      }
      nodes' := branch.PutChild(name, LeafChild(leaf), nodes');
      return true, nodes';
    }
  }

  datatype Child = LeafChild(leaf: Leaf) | TreeChild(tree: FieldTree)

  datatype Content = Content(names: seq<string>, children: map<string, Child>)

  type Store = map<FieldTree, Content>

  ghost function Snapshot(nodes: set<FieldTree>): Store
    reads nodes
  {
    map t | t in nodes :: Content(t.names, t.children)
  }

  /** The child tree of a tree. */
  ghost function Step(h: Store, t: FieldTree, name: string): Option<FieldTree>
    requires t in h
  {
    if name in h[t].children && h[t].children[name].TreeChild? then Some(h[t].children[name].tree) else None
  }

  /** Subtrees stay inside the store. */
  ghost predicate Closed(h: Store) {
    forall t, name | t in h && Step(h, t, name).Some? :: Step(h, t, name).value in h
  }

  ghost predicate OneParent(h: Store) {
    forall t, name, u, other | t in h && u in h && Step(h, t, name).Some? && Step(h, t, name) == Step(h, u, other) ::
      t == u && name == other
  }

  ghost predicate InStep(c: Content) {
    forall name :: name in c.names <==> name in c.children
  }

  /** Subtrees stay inside the store, the root is nobody's child, and no tree has two parents. */
  ghost predicate Valid(h: Store, root: FieldTree) {
    && root in h
    && Closed(h)
    && (forall t, name | t in h :: Step(h, t, name) != Some(root))
    && OneParent(h)
    && (forall t | t in h :: InStep(h[t]))
  }

  /** The tree at a path, if there is one. */
  ghost function Walk(h: Store, t: FieldTree, path: Path): (r: Option<FieldTree>)
    requires Closed(h) && t in h
    ensures r.Some? ==> r.value in h
    decreases |path|
  {
    if path == [] then Some(t)
    else
      var s := Step(h, t, path[0]);
      if s.None? then None else Walk(h, s.value, path[1..])
  }

  /** What is at a path. */
  ghost function StoreLook(h: Store, t: FieldTree, path: Path): Look
    requires Closed(h) && t in h
    decreases |path|
  {
    if path == [] then Tree(h[t].names)
    else if path[0] !in h[t].children then Nothing
    else match h[t].children[path[0]]
      case LeafChild(leaf) => if |path| == 1 then Leafy(leaf) else Nothing
      case TreeChild(sub) => assert Step(h, t, path[0]).Some?; StoreLook(h, sub, path[1..])
  }

  lemma {:induction false} WalkSnoc(h: Store, t: FieldTree, path: Path, name: string)
    requires Closed(h) && t in h
    ensures Walk(h, t, path + [name]) ==
            if Walk(h, t, path).None? then None else Step(h, Walk(h, t, path).value, name)
    decreases |path|
  {
    var longer := path + [name];
    if path == [] {
      assert longer[1..] == [];
    } else {
      assert longer[0] == path[0] && longer[1..] == path[1..] + [name];
      var s := Step(h, t, path[0]);
      if s.Some? { WalkSnoc(h, s.value, path[1..], name); }
    }
  }

  /** Only one path leads to a tree. */
  lemma {:induction false} WalkUnique(h: Store, root: FieldTree, p: Path, q: Path)
    requires Valid(h, root)
    requires Walk(h, root, p).Some? && Walk(h, root, p) == Walk(h, root, q)
    ensures p == q
    decreases |p|
  {
    if p != [] { assert p == p[..|p| - 1] + [p[|p| - 1]]; WalkSnoc(h, root, p[..|p| - 1], p[|p| - 1]); }
    if q != [] { assert q == q[..|q| - 1] + [q[|q| - 1]]; WalkSnoc(h, root, q[..|q| - 1], q[|q| - 1]); }
    if p != [] && q != [] { WalkUnique(h, root, p[..|p| - 1], q[..|q| - 1]); }
  }

  /** Looking on from a tree reached by a path. */
  lemma {:induction false} LookFromWalk(h: Store, t: FieldTree, path: Path, rest: Path)
    requires Closed(h) && t in h && Walk(h, t, path).Some?
    ensures StoreLook(h, Walk(h, t, path).value, rest) == StoreLook(h, t, path + rest)
    decreases |path|
  {
    if path == [] {
      assert path + rest == rest;
    } else {
      assert (path + rest)[0] == path[0] && (path + rest)[1..] == path[1..] + rest;
      LookFromWalk(h, Step(h, t, path[0]).value, path[1..], rest);
    }
  }

  /** The store after `branch.children.set(name, child)`, where `child` may be a new empty tree. */
  ghost function Write(h: Store, branch: FieldTree, name: string, child: Child): Store
    requires branch in h
  {
    var c := h[branch];
    var put := Content(AddName(c.names, name), c.children[name := child]);
    var h' := h[branch := put];
    if child.TreeChild? then h'[child.tree := Content([], map[])] else h'
  }

  ghost predicate Fresh(h: Store, child: Child) {
    child.TreeChild? ==> child.tree !in h
  }

  /** Looking at a written child: a leaf, or a tree without children. */
  ghost function ChildLook(child: Child, rest: Path): Look {
    if rest != [] then Nothing else if child.LeafChild? then Leafy(child.leaf) else Tree([])
  }

  /** The links after a write. */
  lemma WriteStep(h: Store, branch: FieldTree, name: string, child: Child, t: FieldTree, x: string)
    requires branch in h && Fresh(h, child) && t in Write(h, branch, name, child)
    ensures Step(Write(h, branch, name, child), t, x) ==
            if t == branch && x == name then (if child.TreeChild? then Some(child.tree) else None)
            else if t in h then Step(h, t, x)
            else None
  {
  }

  lemma WriteValid(h: Store, root: FieldTree, branch: FieldTree, name: string, child: Child)
    requires Valid(h, root) && branch in h && Fresh(h, child)
    ensures Valid(Write(h, branch, name, child), root)
  {
    var h' := Write(h, branch, name, child);
    forall t, x | t in h'
      ensures Step(h', t, x) != Some(root) && (Step(h', t, x).Some? ==> Step(h', t, x).value in h')
    {
      WriteStep(h, branch, name, child, t, x);
    }
    forall t, x, u, y | t in h' && u in h' && Step(h', t, x).Some? && Step(h', t, x) == Step(h', u, y)
      ensures t == u && x == y
    {
      WriteStep(h, branch, name, child, t, x);
      WriteStep(h, branch, name, child, u, y);
    }
    forall t | t in h' ensures InStep(h'[t]) {
      if t in h { assert InStep(h[t]); }
    }
  }

  /** What every path shows after a write at `at + [name]`. */
  ghost function LookWritten(l: Look, at: Path, name: string, child: Child, q: Path): Look {
    if at + [name] <= q then ChildLook(child, q[|at| + 1..])
    else if q == at && l.Tree? then Tree(AddName(l.names, name))
    else l
  }

  ghost predicate Unreached(h: Store, t: FieldTree, branch: FieldTree)
    requires Closed(h) && t in h
  {
    forall p :: Walk(h, t, p) != Some(branch)
  }

  ghost predicate OnlyVia(h: Store, t: FieldTree, at: Path, branch: FieldTree)
    requires Closed(h) && t in h
  {
    forall p :: Walk(h, t, p) == Some(branch) <==> p == at
  }

  lemma WalkChild(h: Store, t: FieldTree, x: string)
    requires Closed(h) && t in h && Step(h, t, x).Some?
    ensures forall p :: Walk(h, Step(h, t, x).value, p) == Walk(h, t, [x] + p)
  {
    forall p ensures Walk(h, Step(h, t, x).value, p) == Walk(h, t, [x] + p) {
      assert ([x] + p)[1..] == p;
    }
  }

  /** A subtree that does not reach the written tree shows what it did before. */
  lemma {:induction false} WriteElsewhere(
    h: Store, root: FieldTree, branch: FieldTree, name: string, child: Child, t: FieldTree, s: Path)
    requires Valid(h, root) && branch in h && t in h && Fresh(h, child)
    requires Unreached(h, t, branch)
    requires Valid(Write(h, branch, name, child), root)
    ensures StoreLook(Write(h, branch, name, child), t, s) == StoreLook(h, t, s)
    decreases |s|
  {
    assert Walk(h, t, []) == Some(t);
    if s != [] && Step(h, t, s[0]).Some? {
      WalkChild(h, t, s[0]);
      WriteElsewhere(h, root, branch, name, child, Step(h, t, s[0]).value, s[1..]);
    }
  }

  lemma {:induction false} WriteBelow(
    h: Store, root: FieldTree, at: Path, branch: FieldTree, name: string, child: Child, t: FieldTree, s: Path)
    requires Valid(h, root) && branch in h && t in h && Fresh(h, child)
    requires OnlyVia(h, t, at, branch)
    requires Valid(Write(h, branch, name, child), root)
    ensures StoreLook(Write(h, branch, name, child), t, s) == LookWritten(StoreLook(h, t, s), at, name, child, s)
    decreases |s|
  {
    var h' := Write(h, branch, name, child);
    assert Walk(h, t, []) == Some(t);
    assert at != [] ==> t != branch;
    if s != [] {
      var x, rest := s[0], s[1..];
      assert s == [x] + rest;
      if at == [] && x == name {
        assert t == branch;
        assert at + [name] <= s && s[|at| + 1..] == rest;
        assert StoreLook(h', t, s) == ChildLook(child, rest);
      } else if at != [] && x == at[0] {
        OnlyViaChild(h, t, at, branch);
        WriteBelow(h, root, at[1..], branch, name, child, Step(h, t, x).value, rest);
        LookWrittenBelow(StoreLook(h, t, s), at, name, child, s);
      } else {
        assert !(at + [name] <= s) && s != at by { assert (at + [name])[0] != s[0]; }
        assert x in h'[t].children <==> x in h[t].children;
        if Step(h, t, x).Some? {
          UnreachedChild(h, t, at, branch, x);
          WriteElsewhere(h, root, branch, name, child, Step(h, t, x).value, rest);
        }
      }
    }
  }

  lemma LookWrittenBelow(l: Look, at: Path, name: string, child: Child, s: Path)
    requires at != [] && s != [] && s[0] == at[0]
    ensures LookWritten(l, at, name, child, s) == LookWritten(l, at[1..], name, child, s[1..])
  {
    assert at == [at[0]] + at[1..] && s == [s[0]] + s[1..];
    assert at + [name] == [at[0]] + (at[1..] + [name]);
    assert at + [name] <= s <==> at[1..] + [name] <= s[1..];
    assert at + [name] <= s ==> s[|at| + 1..] == s[1..][|at[1..]| + 1..];
  }

  lemma OnlyViaChild(h: Store, t: FieldTree, at: Path, branch: FieldTree)
    requires Closed(h) && t in h && at != [] && OnlyVia(h, t, at, branch)
    ensures Step(h, t, at[0]).Some? && OnlyVia(h, Step(h, t, at[0]).value, at[1..], branch)
  {
    assert Walk(h, t, at) == Some(branch);
    WalkChild(h, t, at[0]);
    var sub := Step(h, t, at[0]).value;
    forall p ensures Walk(h, sub, p) == Some(branch) <==> p == at[1..] {
      assert Walk(h, sub, p) == Walk(h, t, [at[0]] + p);
      assert [at[0]] + p == at <==> p == at[1..];
    }
  }

  lemma UnreachedChild(h: Store, t: FieldTree, at: Path, branch: FieldTree, x: string)
    requires Closed(h) && t in h && OnlyVia(h, t, at, branch) && Step(h, t, x).Some?
    requires at == [] || at[0] != x
    ensures Unreached(h, Step(h, t, x).value, branch)
  {
    WalkChild(h, t, x);
    forall p ensures Walk(h, Step(h, t, x).value, p) != Some(branch) {
      assert Walk(h, Step(h, t, x).value, p) == Walk(h, t, [x] + p);
      assert ([x] + p)[0] == x;
    }
  }

  /** Writing one entry changes exactly the looks at it and below, and the names of its tree. */
  lemma WriteLooks(
    h: Store, root: FieldTree, at: Path, branch: FieldTree, name: string, child: Child, q: Path)
    requires Valid(h, root) && Walk(h, root, at) == Some(branch) && Fresh(h, child)
    ensures Valid(Write(h, branch, name, child), root)
    ensures StoreLook(Write(h, branch, name, child), root, q) == LookWritten(StoreLook(h, root, q), at, name, child, q)
  {
    WriteValid(h, root, branch, name, child);
    forall p ensures Walk(h, root, p) == Some(branch) <==> p == at {
      if Walk(h, root, p) == Some(branch) { WalkUnique(h, root, p, at); }
    }
    WriteBelow(h, root, at, branch, name, child, root, q);
  }

  /** The written tree is still where it was. */
  lemma {:induction false} WalkWritten(
    h: Store, root: FieldTree, at: Path, branch: FieldTree, name: string, child: Child, t: FieldTree)
    requires Valid(h, root) && branch in h && t in h && Fresh(h, child)
    requires OnlyVia(h, t, at, branch)
    requires Valid(Write(h, branch, name, child), root)
    ensures Walk(Write(h, branch, name, child), t, at) == Some(branch)
    decreases |at|
  {
    assert Walk(h, t, []) == Some(t);
    assert Walk(h, t, at) == Some(branch);
    if at != [] {
      OnlyViaChild(h, t, at, branch);
      WalkWritten(h, root, at[1..], branch, name, child, Step(h, t, at[0]).value);
      WriteStep(h, branch, name, child, t, at[0]);
    }
  }

  lemma WriteWalk(h: Store, root: FieldTree, at: Path, branch: FieldTree, name: string, child: Child)
    requires Valid(h, root) && Walk(h, root, at) == Some(branch) && Fresh(h, child) && child.TreeChild?
    ensures Valid(Write(h, branch, name, child), root)
    ensures Walk(Write(h, branch, name, child), root, at + [name]) == Some(child.tree)
  {
    var h' := Write(h, branch, name, child);
    WriteValid(h, root, branch, name, child);
    forall p ensures Walk(h, root, p) == Some(branch) <==> p == at {
      if Walk(h, root, p) == Some(branch) { WalkUnique(h, root, p, at); }
    }
    WalkWritten(h, root, at, branch, name, child, root);
    WalkSnoc(h', root, at, name);
    WriteStep(h, branch, name, child, branch, name);
  }

  // ---------------------------------------------------------------- refinement

  /** The objects of a store show, at every path, what a tree value shows. */
  ghost predicate Mirrors(h: Store, root: FieldTree, n: Node) {
    Valid(h, root) && n.Branch? && WellFormed(n) && forall q :: StoreLook(h, root, q) == LookAt(n, q)
  }

  /** The tree with branches opened along the first `i` names of a path and `end` put there. */
  function Planned(n: Node, path: Path, i: nat, end: Look, q: Path): Look
    requires i <= |path|
  {
    if q == path[..i] then end
    else if q < path[..i] then
      var l := LookAt(n, q);
      Tree(AddName(if l.Tree? then l.names else [], path[|q|]))
    else if path[..i] < q then Nothing
    else LookAt(n, q)
  }

  function Progress(n: Node, path: Path, i: nat, grown: nat, q: Path): Look
    requires i <= |path|
  {
    if grown == 0 then LookAt(n, q) else Planned(n, path, i, Tree([]), q)
  }

  /** Below a path without a tree there is nothing. */
  lemma NothingBelowPlan(n: Node, path: Path, c: nat, k: nat)
    requires c < k <= |path| && !LookAt(n, path[..c]).Tree?
    ensures Read(n, path[..k]).Absent? && LookAt(n, path[..k]).Nothing?
  {
    LookReads(n, path[..c]);
    LookReads(n, path[..k]);
    ReadBelowLeaf(n, path[..c], path[..k]);
  }

  /** A tree that shows something at a path lists the names on the way. */
  lemma {:induction false} NamesOnTheWay(n: Node, p: Path, x: string)
    requires WellFormed(n) && !LookAt(n, p + [x]).Nothing?
    ensures LookAt(n, p).Tree? && x in LookAt(n, p).names
    decreases |p|
  {
    if p == [] {
      assert p + [x] == [x];
    } else {
      assert (p + [x])[1..] == p[1..] + [x];
      NamesOnTheWay(n.children[p[0]], p[1..], x);
    }
  }

  /** Writing the next name of the path takes the plan one step further. */
  lemma PlanGrows(n: Node, path: Path, i: nat, grown: nat, child: Child, q: Path)
    requires n.Branch? && WellFormed(n) && i < |path|
    requires grown == 0 ==> LookAt(n, path[..i]).Tree?
    requires grown > 0 ==> grown <= i && !LookAt(n, path[..grown]).Tree?
    ensures LookWritten(Progress(n, path, i, grown, q), path[..i], path[i], child, q) ==
            Planned(n, path, i + 1, ChildLook(child, []), q)
  {
    assert path[..i + 1] == path[..i] + [path[i]];
    if path[..i + 1] <= q {
      assert q == path[..i + 1] <==> q[i + 1..] == [];
    } else if q == path[..i] {
      if grown > 0 && grown < i { NothingBelowPlan(n, path, grown, i); }
    } else if q < path[..i] {
      assert q == path[..|q|];
      if grown == 0 {
        assert path[..|q| + 1] == q + [path[|q|]];
        TreesOnTheWay(n, path, i, |q| + 1);
        NamesOnTheWay(n, q, path[|q|]);
      }
    } else if path[..i] < q {
      assert !(q < path[..i + 1]);
      if grown > 0 {
        assert path[..grown] < q;
        LookReads(n, path[..grown]);
        LookReads(n, q);
        ReadBelowLeaf(n, path[..grown], q);
      }
    } else {
      PrefixOfSnoc(q, path[..i], path[i]);
    }
  }

  lemma PrefixOfSnoc(q: Path, p: Path, name: string)
    ensures q < p + [name] <==> q <= p
  {
    if |q| <= |p| { assert (p + [name])[..|q|] == p[..|q|]; }
  }

  lemma TreesOnTheWay(n: Node, path: Path, i: nat, k: nat)
    requires WellFormed(n) && k <= i <= |path| && LookAt(n, path[..i]).Tree?
    ensures LookAt(n, path[..k]).Tree?
    decreases i - k
  {
    if k < i {
      assert path[..i] == path[..i - 1] + [path[i - 1]];
      NamesOnTheWay(n, path[..i - 1], path[i - 1]);
      TreesOnTheWay(n, path, i - 1, k);
    }
  }

  // ---------------------------------------------------------------- the steps of `set`

  /**
   * Where the loop of `set` stands: `branch` is the tree at the first `i` names, nothing so far
   * blocks, and trees are new from `grown` on (zero: none is, and nothing has changed).
   */
  ghost predicate Descending(
    h: Store, root: FieldTree, n: Node, path: Path, i: nat, grown: nat, branch: FieldTree, replaceNulls: bool)
    requires i <= |path|
  {
    && Valid(h, root) && n.Branch? && WellFormed(n)
    && Walk(h, root, path[..i]) == Some(branch)
    && (grown > 0 ==> grown <= i && !LookAt(n, path[..grown]).Tree? && h[branch] == Content([], map[]))
    && (forall q :: StoreLook(h, root, q) == Progress(n, path, i, grown, q))
    && (forall k | 0 < k <= i :: !Blocks(Read(n, path[..k]), replaceNulls))
  }

  /** What the next name shows, in the objects and in the value. */
  lemma NextLook(
    h: Store, root: FieldTree, n: Node, path: Path, i: nat, grown: nat, branch: FieldTree, replaceNulls: bool)
    requires i < |path| && Descending(h, root, n, path, i, grown, branch, replaceNulls)
    ensures StoreLook(h, branch, [path[i]]) == if grown == 0 then LookAt(n, path[..i + 1]) else Nothing
    ensures grown > 0 ==> LookAt(n, path[..i + 1]).Nothing?
    ensures grown == 0 ==> LookAt(n, path[..i]).Tree?
    ensures Project(LookAt(n, path[..i + 1])) == Read(n, path[..i + 1])
  {
    assert path[..i + 1] == path[..i] + [path[i]];
    LookFromWalk(h, root, path[..i], [path[i]]);
    LookFromWalk(h, root, path[..i], []);
    assert path[..i] + [] == path[..i];
    LookReads(n, path[..i + 1]);
    if grown > 0 { NothingBelowPlan(n, path, grown, i + 1); }
  }

  /** What a path shows after writing the next name. */
  lemma GrownLook(h: Store, root: FieldTree, n: Node, path: Path, i: nat, grown: nat, branch: FieldTree,
                  replaceNulls: bool, child: Child, q: Path)
    requires i < |path| && Descending(h, root, n, path, i, grown, branch, replaceNulls)
    requires Fresh(h, child)
    ensures Valid(Write(h, branch, path[i], child), root)
    ensures StoreLook(Write(h, branch, path[i], child), root, q) == Planned(n, path, i + 1, ChildLook(child, []), q)
  {
    NextLook(h, root, n, path, i, grown, branch, replaceNulls);
    WriteLooks(h, root, path[..i], branch, path[i], child, q);
    PlanGrows(n, path, i, grown, child, q);
  }

  lemma OpenStep(h: Store, root: FieldTree, n: Node, path: Path, i: nat, grown: nat, branch: FieldTree,
                 replaceNulls: bool, next: FieldTree)
    requires i < |path| && Descending(h, root, n, path, i, grown, branch, replaceNulls)
    requires next !in h
    requires path[i] !in h[branch].children ||
             (h[branch].children[path[i]].LeafChild? && replaceNulls && OnlyNulls(h[branch].children[path[i]].leaf))
    ensures Descending(Write(h, branch, path[i], TreeChild(next)), root, n, path, i + 1,
                       if grown == 0 then i + 1 else grown, next, replaceNulls)
  {
    var child := TreeChild(next);
    var h' := Write(h, branch, path[i], child);
    WriteWalk(h, root, path[..i], branch, path[i], child);
    assert path[..i + 1] == path[..i] + [path[i]];
    forall q ensures StoreLook(h', root, q) == Planned(n, path, i + 1, Tree([]), q) {
      GrownLook(h, root, n, path, i, grown, branch, replaceNulls, child, q);
    }
    OpenedIsClear(h, root, n, path, i, grown, branch, replaceNulls);
  }

  /** A name that `set` may open neither blocks nor leads to a tree in the value. */
  lemma OpenedIsClear(
    h: Store, root: FieldTree, n: Node, path: Path, i: nat, grown: nat, branch: FieldTree, replaceNulls: bool)
    requires i < |path| && Descending(h, root, n, path, i, grown, branch, replaceNulls)
    requires path[i] !in h[branch].children ||
             (h[branch].children[path[i]].LeafChild? && replaceNulls && OnlyNulls(h[branch].children[path[i]].leaf))
    ensures !LookAt(n, path[..i + 1]).Tree?
    ensures forall k | 0 < k <= i + 1 :: !Blocks(Read(n, path[..k]), replaceNulls)
  {
    NextLook(h, root, n, path, i, grown, branch, replaceNulls);
    forall k | 0 < k <= i + 1 ensures !Blocks(Read(n, path[..k]), replaceNulls) {}
  }

  lemma DescendStep(
    h: Store, root: FieldTree, n: Node, path: Path, i: nat, grown: nat, branch: FieldTree, replaceNulls: bool)
    requires i < |path| && Descending(h, root, n, path, i, grown, branch, replaceNulls)
    requires path[i] in h[branch].children && h[branch].children[path[i]].TreeChild?
    ensures grown == 0
    ensures Descending(h, root, n, path, i + 1, 0, h[branch].children[path[i]].tree, replaceNulls)
  {
    NextLook(h, root, n, path, i, grown, branch, replaceNulls);
    assert path[..i + 1] == path[..i] + [path[i]];
    WalkSnoc(h, root, path[..i], path[i]);
    LookFromWalk(h, root, path[..i + 1], []);
    assert path[..i + 1] + [] == path[..i + 1];
  }

  lemma BlockStep(h: Store, root: FieldTree, n: Node, path: Path, i: nat, grown: nat, branch: FieldTree,
                  leaf: Leaf, replaceNulls: bool)
    requires i < |path| - 1 && Descending(h, root, n, path, i, grown, branch, replaceNulls)
    requires path[i] in h[branch].children && h[branch].children[path[i]].LeafChild?
    requires !(replaceNulls && OnlyNulls(h[branch].children[path[i]].leaf))
    ensures grown == 0 && FieldTrees.Set(n, path, leaf, replaceNulls).None?
  {
    NextLook(h, root, n, path, i, grown, branch, replaceNulls);
    assert Blocks(Read(n, path[..i + 1]), replaceNulls);
    SetConflicts(n, path, leaf, replaceNulls);
  }

  lemma FinishStep(
    h: Store, root: FieldTree, n: Node, path: Path, grown: nat, branch: FieldTree, leaf: Leaf, replaceNulls: bool)
    requires path != [] && Descending(h, root, n, path, |path| - 1, grown, branch, replaceNulls)
    ensures
      var name := path[|path| - 1];
      if name in h[branch].children && h[branch].children[name].TreeChild? then
        grown == 0 && FieldTrees.Set(n, path, leaf, replaceNulls).None?
      else
        && FieldTrees.Set(n, path, leaf, replaceNulls).Some?
        && Mirrors(Write(h, branch, name, LeafChild(leaf)), root, FieldTrees.Set(n, path, leaf, replaceNulls).value)
  {
    var i := |path| - 1;
    var name := path[i];
    assert path[..i + 1] == path;
    NextLook(h, root, n, path, i, grown, branch, replaceNulls);
    SetConflicts(n, path, leaf, replaceNulls);
    if name in h[branch].children && h[branch].children[name].TreeChild? {
      assert StoreLook(h, branch, [name]).Tree?;
    } else {
      var h' := Write(h, branch, name, LeafChild(leaf));
      WriteValid(h, root, branch, name, LeafChild(leaf));
      SetWellFormed(n, path, leaf, replaceNulls);
      forall q ensures StoreLook(h', root, q) == LookAt(FieldTrees.Set(n, path, leaf, replaceNulls).value, q) {
        GrownLook(h, root, n, path, i, grown, branch, replaceNulls, LeafChild(leaf), q);
        SetLooks(n, path, leaf, replaceNulls, q);
      }
    }
  }
}
