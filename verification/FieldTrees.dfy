/**
 * The evidence tree of schema inference as a value: what `get` reads at every path, and how
 * `set` changes those readings. `FieldTreeStore` proves the mutable tree against this one.
 */
module FieldTrees {
  import opened Values
  import opened ArrowTypes

  /** A decided type, or values that do not decide one (`DeferredTypeEvidence`). */
  datatype Leaf = Typed(typ: DataType) | Deferred(values: seq<Value>)

  /** `isOnlyNulls` of deferred evidence. */
  predicate OnlyNulls(leaf: Leaf) {
    leaf.Deferred? && forall v | v in leaf.values :: IsNullish(v)
  }

  /** `names` is the insertion order of the children. */
  datatype Node = LeafNode(leaf: Leaf) | Branch(names: seq<string>, children: map<string, Node>)

  const EMPTY := Branch([], map[])

  ghost predicate WellFormed(n: Node) {
    n.Branch? ==>
      && (forall i, j | 0 <= i < j < |n.names| :: n.names[i] != n.names[j])
      && (forall name :: name in n.names <==> name in n.children)
      && (forall name | name in n.children :: WellFormed(n.children[name]))
  }

  /** What `get(path)` finds, without the contents of a branch. */
  datatype Reading = Absent | Inner | Evidence(leaf: Leaf)

  function Read(n: Node, path: Path): Reading
    decreases |path|
  {
    if path == [] then
      if n.Branch? then Inner else Evidence(n.leaf)
    else if n.Branch? && path[0] in n.children then
      Read(n.children[path[0]], path[1..])
    else
      Absent
  }

  /** `children.set(name, child)`: a new name goes to the end, a known one keeps its place. */
  function Put(n: Node, name: string, child: Node): Node
    requires n.Branch?
  {
    Branch(if name in n.children then n.names else n.names + [name], n.children[name := child])
  }

  /** Whether `set` may turn this child of a branch into a new branch. */
  predicate Opens(n: Node, name: string, replaceNulls: bool)
    requires n.Branch?
  {
    name !in n.children ||
    (n.children[name].LeafNode? && replaceNulls && OnlyNulls(n.children[name].leaf))
  }

  /** `FieldTree.set`; `None` is a conflict. */
  function Set(n: Node, path: Path, leaf: Leaf, replaceNulls: bool): Option<Node>
    requires n.Branch? && path != []
    decreases |path|
  {
    var name := path[0];
    if |path| == 1 then
      if name in n.children && n.children[name].Branch? then None
      else Some(Put(n, name, LeafNode(leaf)))
    else
      var sub := if Opens(n, name, replaceNulls) then EMPTY else n.children[name];
      if sub.LeafNode? then None
      else match Set(sub, path[1..], leaf, replaceNulls)
        case None => None
        case Some(s) => Some(Put(n, name, s))
  }

  /** A leaf that blocks the way of a longer path. */
  predicate Blocks(r: Reading, replaceNulls: bool) {
    r.Evidence? && !(replaceNulls && OnlyNulls(r.leaf))
  }

  /** `set` conflicts exactly when a leaf above blocks it or the path itself is a branch. */
  ghost predicate Conflicts(n: Node, path: Path, replaceNulls: bool)
    requires path != []
  {
    Read(n, path).Inner? || exists k | 0 < k < |path| :: Blocks(Read(n, path[..k]), replaceNulls)
  }

  /** What every path reads after a successful `set`. */
  function ReadAfter(n: Node, path: Path, leaf: Leaf, q: Path): Reading {
    if q == path then Evidence(leaf)
    else if q < path then Inner
    else if path < q then Absent
    else Read(n, q)
  }

  lemma {:induction false} ReadBelowLeaf(n: Node, p: Path, q: Path)
    requires Read(n, p).Evidence? || Read(n, p).Absent?
    requires p < q
    ensures Read(n, q).Absent?
    decreases |p|
  {
    if p != [] && n.Branch? && p[0] in n.children {
      assert q[0] == p[0] && p[1..] < q[1..];
      ReadBelowLeaf(n.children[p[0]], p[1..], q[1..]);
    }
  }

  /** The path law of `set`: exactly when it conflicts, and what every path reads otherwise. */
  lemma {:induction false} SetReads(n: Node, path: Path, leaf: Leaf, replaceNulls: bool)
    requires n.Branch? && path != []
    ensures Set(n, path, leaf, replaceNulls).None? <==> Conflicts(n, path, replaceNulls)
    ensures Set(n, path, leaf, replaceNulls).Some? ==>
              && Set(n, path, leaf, replaceNulls).value.Branch?
              && forall q :: Read(Set(n, path, leaf, replaceNulls).value, q) == ReadAfter(n, path, leaf, q)
    decreases |path|
  {
    SetConflicts(n, path, leaf, replaceNulls);
    if Set(n, path, leaf, replaceNulls).Some? {
      forall q ensures Read(Set(n, path, leaf, replaceNulls).value, q) == ReadAfter(n, path, leaf, q) {
        SetReadsAt(n, path, leaf, replaceNulls, q);
      }
    }
  }

  lemma {:induction false} SetConflicts(n: Node, path: Path, leaf: Leaf, replaceNulls: bool)
    requires n.Branch? && path != []
    ensures Set(n, path, leaf, replaceNulls).None? <==> Conflicts(n, path, replaceNulls)
    decreases |path|
  {
    var name := path[0];
    if |path| == 1 {
      assert path[1..] == [];
      assert name in n.children ==> Read(n, path) == Read(n.children[name], []);
    } else {
      var open := Opens(n, name, replaceNulls);
      var sub := if open then EMPTY else n.children[name];
      assert path[..1] == [name];
      assert Read(n, path[..1]) == if name in n.children then Read(n.children[name], []) else Absent;
      if sub.Branch? {
        SetConflicts(sub, path[1..], leaf, replaceNulls);
        forall k | 0 < k < |path| - 1
          ensures !open ==> Read(n, path[..k + 1]) == Read(sub, path[1..][..k])
          ensures open && k > 0 ==> Read(n, path[..k + 1]).Absent? && Read(sub, path[1..][..k]).Absent?
        {
          assert path[..k + 1][1..] == path[1..][..k];
          if open { ReadBelowLeaf(n, path[..1], path[..k + 1]); }
        }
        if open { ReadBelowLeaf(n, path[..1], path); }
        if Conflicts(n, path, replaceNulls) && !Read(n, path).Inner? {
          var k :| 0 < k < |path| && Blocks(Read(n, path[..k]), replaceNulls);
          assert k != 1;
          assert path[..k - 1 + 1] == path[..k];
          assert Blocks(Read(sub, path[1..][..k - 1]), replaceNulls);
        }
        if Conflicts(sub, path[1..], replaceNulls) && !Read(sub, path[1..]).Inner? {
          var k :| 0 < k < |path| - 1 && Blocks(Read(sub, path[1..][..k]), replaceNulls);
          assert Blocks(Read(n, path[..k + 1]), replaceNulls);
        }
      } else {
        assert Blocks(Read(n, path[..1]), replaceNulls);
      }
    }
  }

  lemma {:induction false} SetReadsAt(n: Node, path: Path, leaf: Leaf, replaceNulls: bool, q: Path)
    requires n.Branch? && path != []
    requires Set(n, path, leaf, replaceNulls).Some?
    ensures Read(Set(n, path, leaf, replaceNulls).value, q) == ReadAfter(n, path, leaf, q)
    decreases |path|
  {
    var name := path[0];
    if q == [] || q[0] != name {
    } else if |path| == 1 {
      assert path == [name];
    } else {
      var sub := if Opens(n, name, replaceNulls) then EMPTY else n.children[name];
      SetReadsAt(sub, path[1..], leaf, replaceNulls, q[1..]);
      assert q == [name] + q[1..] && path == [name] + path[1..];
      if Opens(n, name, replaceNulls) && q != [name] {
        assert Read(n, [name]).Evidence? || Read(n, [name]).Absent?;
        assert [name] < q;
        ReadBelowLeaf(n, [name], q);
      }
      assert q == path <==> q[1..] == path[1..];
      assert q < path <==> q[1..] < path[1..];
      assert path < q <==> path[1..] < q[1..];
    }
  }

  /** `set` keeps names and children in step. */
  lemma {:induction false} SetWellFormed(n: Node, path: Path, leaf: Leaf, replaceNulls: bool)
    requires n.Branch? && path != [] && WellFormed(n)
    requires Set(n, path, leaf, replaceNulls).Some?
    ensures Set(n, path, leaf, replaceNulls).value.Branch?
    ensures WellFormed(Set(n, path, leaf, replaceNulls).value)
    decreases |path|
  {
    if |path| > 1 {
      var name := path[0];
      var sub := if Opens(n, name, replaceNulls) then EMPTY else n.children[name];
      SetWellFormed(sub, path[1..], leaf, replaceNulls);
    }
  }

  /** No branch below the root is empty: every one has evidence under it. */
  ghost predicate NoEmptyBranch(n: Node) {
    n.Branch? ==> forall name | name in n.children ::
      && (n.children[name].Branch? ==> n.children[name].children != map[])
      && NoEmptyBranch(n.children[name])
  }

  lemma {:induction false} SetLeavesNoEmptyBranch(n: Node, path: Path, leaf: Leaf, replaceNulls: bool)
    requires n.Branch? && path != [] && NoEmptyBranch(n)
    requires Set(n, path, leaf, replaceNulls).Some?
    ensures Set(n, path, leaf, replaceNulls).value.Branch?
    ensures path[0] in Set(n, path, leaf, replaceNulls).value.children
    ensures NoEmptyBranch(Set(n, path, leaf, replaceNulls).value)
    decreases |path|
  {
    if |path| > 1 {
      var name := path[0];
      var sub := if Opens(n, name, replaceNulls) then EMPTY else n.children[name];
      SetLeavesNoEmptyBranch(sub, path[1..], leaf, replaceNulls);
    }
  }

  /** A reading together with the child names of a branch, in order. */
  datatype Look = Nothing | Tree(names: seq<string>) | Leafy(leaf: Leaf)

  function Project(l: Look): Reading {
    match l
    case Nothing => Absent
    case Tree(_) => Inner
    case Leafy(leaf) => Evidence(leaf)
  }

  function LookAt(n: Node, path: Path): Look
    decreases |path|
  {
    if path == [] then
      if n.Branch? then Tree(n.names) else Leafy(n.leaf)
    else if n.Branch? && path[0] in n.children then
      LookAt(n.children[path[0]], path[1..])
    else
      Nothing
  }

  function AddName(names: seq<string>, name: string): seq<string> {
    if name in names then names else names + [name]
  }

  /** What every path shows after a successful `set`, the order of names included. */
  function LookAfter(n: Node, path: Path, leaf: Leaf, q: Path): Look {
    if q == path then Leafy(leaf)
    else if q < path then
      var l := LookAt(n, q);
      Tree(AddName(if l.Tree? then l.names else [], path[|q|]))
    else if path < q then Nothing
    else LookAt(n, q)
  }

  lemma {:induction false} LookReads(n: Node, path: Path)
    ensures Project(LookAt(n, path)) == Read(n, path)
    decreases |path|
  {
    if path != [] && n.Branch? && path[0] in n.children { LookReads(n.children[path[0]], path[1..]); }
  }

  lemma NothingBelowOpened(n: Node, name: string, replaceNulls: bool, q: Path)
    requires n.Branch? && Opens(n, name, replaceNulls) && [name] < q
    ensures LookAt(n, q).Nothing?
  {
    LookReads(n, [name]);
    LookReads(n, q);
    ReadBelowLeaf(n, [name], q);
  }

  lemma {:induction false} SetLooks(n: Node, path: Path, leaf: Leaf, replaceNulls: bool, q: Path)
    requires n.Branch? && WellFormed(n) && path != []
    requires Set(n, path, leaf, replaceNulls).Some?
    ensures LookAt(Set(n, path, leaf, replaceNulls).value, q) == LookAfter(n, path, leaf, q)
    decreases |path|
  {
    var name := path[0];
    if q == [] || q[0] != name {
    } else if |path| == 1 {
      assert path == [name];
    } else {
      SetLooksDeeper(n, path, leaf, replaceNulls, q);
    }
  }

  /** Paths with the same first name compare as what follows it. */
  lemma SameFirst(path: Path, q: Path)
    requires path != [] && q != [] && path[0] == q[0]
    ensures q == path <==> q[1..] == path[1..]
    ensures q < path <==> q[1..] < path[1..]
    ensures path < q <==> path[1..] < q[1..]
  {
    assert q == [path[0]] + q[1..] && path == [path[0]] + path[1..];
  }

  lemma {:induction false} SetLooksDeeper(n: Node, path: Path, leaf: Leaf, replaceNulls: bool, q: Path)
    requires n.Branch? && WellFormed(n) && |path| > 1 && q != [] && q[0] == path[0]
    requires Set(n, path, leaf, replaceNulls).Some?
    ensures LookAt(Set(n, path, leaf, replaceNulls).value, q) == LookAfter(n, path, leaf, q)
    decreases |path|, 0
  {
    var name, rest, below := path[0], path[1..], q[1..];
    var sub := if Opens(n, name, replaceNulls) then EMPTY else n.children[name];
    SetLooks(sub, rest, leaf, replaceNulls, below);
    assert LookAt(Set(n, path, leaf, replaceNulls).value, q) == LookAfter(sub, rest, leaf, below);
    SameFirst(path, q);
    if Opens(n, name, replaceNulls) {
      if below == [] {
        assert q == [name];
        assert !LookAt(n, q).Tree? by {
          LookReads(n, q);
          assert name in n.children ==> Read(n, q) == Read(n.children[name], []);
        }
      } else {
        NothingBelowOpened(n, name, replaceNulls, q);
        assert LookAt(EMPTY, below).Nothing?;
      }
    } else {
      assert LookAt(n, q) == LookAt(sub, below);
    }
  }
}
