/**
 * `sanitizeTable` and the functions under it: a graph of objects from another copy of the Arrow
 * library is rebuilt with this copy's classes. Three caches keyed by identity make the rebuild
 * visit each type, dictionary vector and data node once.
 */
module Sanitize {
  import opened Values

  /** What an object is. A type given by its name is an object of its own. */
  datatype Kind = TypeNode | NameNode | FieldNode | VectorNode | DataNode | SchemaNode | BatchNode | TableNode

  /** Kinds with a cache in the sanitization context. */
  predicate IsCached(k: Kind) {
    k.TypeNode? || k.VectorNode? || k.DataNode?
  }

  /** Kinds that are handed back as they are when they come from this copy of the library. */
  predicate IsOwnable(k: Kind) {
    k.FieldNode? || k.DataNode? || k.SchemaNode? || k.BatchNode? || k.TableNode?
  }

  /**
   * A foreign object: `payload` is everything it holds but other objects, `children` are those in
   * the order they are visited. `valid` says that the checks on its own properties pass.
   */
  datatype Node = Node(kind: Kind, own: bool, valid: bool, payload: nat, children: seq<nat>)

  /** Objects named by their identity. */
  type Graph = map<nat, Node>

  predicate Passes(n: Node) {
    n.own && IsOwnable(n.kind)
  }

  /** References stay inside the graph and never form a cycle: ranks go down along them. */
  ghost predicate Acyclic(g: Graph, rank: nat -> nat) {
    forall id, k {:trigger g[id].children[k]} | id in g && 0 <= k < |g[id].children| ::
      g[id].children[k] in g && rank(g[id].children[k]) < rank(id)
  }

  // ---------------------------------------------------------------- the plain rebuild

  /** An object as a tree, with sharing forgotten. */
  datatype Tree = Kept(id: nat) | Built(payload: nat, children: seq<Tree>)

  /** The rebuild without caches. */
  function Plain(g: Graph, rank: nat -> nat, id: nat): Result<Tree>
    requires Acyclic(g, rank) && id in g
    decreases rank(id), 1, 0
  {
    if Passes(g[id]) then Ok(Kept(id))
    else if !g[id].valid then Err
    else match PlainAll(g, rank, id, |g[id].children|)
      case Err => Err
      case Ok(children) => Ok(Built(g[id].payload, children))
  }

  /** The first `n` children of an object. */
  function PlainAll(g: Graph, rank: nat -> nat, id: nat, n: nat): (r: Result<seq<Tree>>)
    requires Acyclic(g, rank) && id in g && n <= |g[id].children|
    ensures r.Ok? ==> |r.value| == n
    decreases rank(id), 0, n
  {
    if n == 0 then Ok([])
    else
      var c := g[id].children[n - 1];
      match (PlainAll(g, rank, id, n - 1), Plain(g, rank, c))
      case (Ok(front), Ok(last)) => Ok(front + [last])
      case _ => Err
  }

  lemma {:induction false} PlainFails(g: Graph, rank: nat -> nat, id: nat, n: nat, m: nat)
    requires Acyclic(g, rank) && id in g && n <= m <= |g[id].children| && PlainAll(g, rank, id, n).Err?
    ensures PlainAll(g, rank, id, m).Err?
    decreases m
  {
    if n < m { PlainFails(g, rank, id, n, m - 1); }
  }

  /** An object that has to be rebuilt, at or under this one, fails its checks. */
  ghost predicate MeetsBad(g: Graph, rank: nat -> nat, id: nat)
    requires Acyclic(g, rank) && id in g
    decreases rank(id)
  {
    !(g[id].own && !g[id].kind.TypeNode? && !g[id].kind.NameNode? && !g[id].kind.VectorNode?) &&
    (!g[id].valid || exists k | 0 <= k < |g[id].children| :: MeetsBad(g, rank, g[id].children[k]))
  }

  /** The rebuild throws exactly when it meets such an object. */
  lemma {:induction false} PlainFailsExactly(g: Graph, rank: nat -> nat, id: nat)
    requires Acyclic(g, rank) && id in g
    ensures Plain(g, rank, id).Err? <==> MeetsBad(g, rank, id)
    decreases rank(id), 1, 0
  {
    PlainAllFailsExactly(g, rank, id, |g[id].children|);
  }

  lemma {:induction false} PlainAllFailsExactly(g: Graph, rank: nat -> nat, id: nat, n: nat)
    requires Acyclic(g, rank) && id in g && n <= |g[id].children|
    ensures PlainAll(g, rank, id, n).Err? <==> exists k | 0 <= k < n :: MeetsBad(g, rank, g[id].children[k])
    decreases rank(id), 0, n
  {
    if n > 0 {
      PlainAllFailsExactly(g, rank, id, n - 1);
      PlainFailsExactly(g, rank, g[id].children[n - 1]);
    }
  }

  // ---------------------------------------------------------------- the rebuilt objects

  datatype Ref = OwnRef(id: nat) | MadeRef(index: nat)

  datatype Object = Object(payload: nat, children: seq<Ref>)

  /** The objects made so far, the foreign object each was made for, and the caches together. */
  datatype Store = Store(objects: seq<Object>, origin: seq<nat>, cache: map<nat, nat>)

  /** `ref` stands for the foreign object `c`; what was made is older than `bound`. */
  ghost predicate StandsFor(g: Graph, s: Store, c: nat, ref: Ref, bound: nat)
    requires c in g
  {
    if Passes(g[c]) then ref == OwnRef(c)
    else
      && ref.MadeRef? && ref.index < bound && ref.index < |s.origin| && s.origin[ref.index] == c
      && (IsCached(g[c].kind) ==> c in s.cache && s.cache[c] == ref.index)
  }

  ghost predicate MadeWell(g: Graph, s: Store, t: nat)
    requires t < |s.objects| == |s.origin|
  {
    var id, o := s.origin[t], s.objects[t];
    && id in g && !Passes(g[id]) && g[id].valid && o.payload == g[id].payload
    && |o.children| == |g[id].children|
    && (forall k | 0 <= k < |o.children| ::
      g[id].children[k] in g && StandsFor(g, s, g[id].children[k], o.children[k], t))
    && (IsCached(g[id].kind) ==> id in s.cache && s.cache[id] == t)
  }

  /** Every object was made from its origin, and the caches are one-to-one with what they made. */
  ghost predicate Inv(g: Graph, s: Store) {
    && |s.objects| == |s.origin|
    && (forall t | 0 <= t < |s.objects| :: MadeWell(g, s, t))
    && (forall c | c in s.cache ::
      c in g && IsCached(g[c].kind) && s.cache[c] < |s.origin| && s.origin[s.cache[c]] == c)
  }

  /** Nothing made or cached earlier is lost or changed. */
  ghost predicate Grows(s: Store, s': Store) {
    && s.objects <= s'.objects && s.origin <= s'.origin
    && forall c | c in s.cache :: c in s'.cache && s'.cache[c] == s.cache[c]
  }

  lemma GrowsTransitive(s: Store, s': Store, s'': Store)
    requires Grows(s, s') && Grows(s', s'')
    ensures Grows(s, s'')
  {
  }

  lemma StandsForGrows(g: Graph, s: Store, s': Store, c: nat, ref: Ref, bound: nat, bound': nat)
    requires c in g && StandsFor(g, s, c, ref, bound) && Grows(s, s') && bound <= bound'
    ensures StandsFor(g, s', c, ref, bound')
  {
  }

  /** The references stand for the first children of an object. */
  ghost predicate RefsStand(g: Graph, s: Store, id: nat, refs: seq<Ref>)
    requires id in g
  {
    && |refs| <= |g[id].children|
    && forall k | 0 <= k < |refs| :: g[id].children[k] in g && StandsFor(g, s, g[id].children[k], refs[k], |s.objects|)
  }

  /** One more reference, made while the store grew. */
  lemma RefsStandMore(g: Graph, s: Store, s': Store, id: nat, refs: seq<Ref>, ref: Ref)
    requires id in g && RefsStand(g, s, id, refs) && Grows(s, s') && |refs| < |g[id].children|
    requires g[id].children[|refs|] in g && StandsFor(g, s', g[id].children[|refs|], ref, |s'.objects|)
    ensures RefsStand(g, s', id, refs + [ref])
  {
    forall k | 0 <= k < |refs| ensures StandsFor(g, s', g[id].children[k], refs[k], |s'.objects|) {
      StandsForGrows(g, s, s', g[id].children[k], refs[k], |s.objects|, |s'.objects|);
    }
  }

  /** A rebuilt object as a tree. */
  function Unfold(g: Graph, s: Store, t: nat): Tree
    requires Inv(g, s) && t < |s.objects|
    decreases t, |s.objects[t].children| + 1
  {
    assert MadeWell(g, s, t);
    Built(s.objects[t].payload, UnfoldAll(g, s, t, |s.objects[t].children|))
  }

  function UnfoldAll(g: Graph, s: Store, t: nat, n: nat): (r: seq<Tree>)
    requires Inv(g, s) && t < |s.objects| && n <= |s.objects[t].children|
    ensures |r| == n
    decreases t, n
  {
    if n == 0 then []
    else
      assert MadeWell(g, s, t);
      var ref := s.objects[t].children[n - 1];
      UnfoldAll(g, s, t, n - 1) + [if ref.OwnRef? then Kept(ref.id) else Unfold(g, s, ref.index)]
  }

  /** Whatever was made is what the plain rebuild of its origin gives. */
  lemma {:induction false} UnfoldIsPlain(g: Graph, rank: nat -> nat, s: Store, t: nat)
    requires Acyclic(g, rank) && Inv(g, s) && t < |s.objects|
    ensures s.origin[t] in g && Plain(g, rank, s.origin[t]) == Ok(Unfold(g, s, t))
    decreases t, |s.objects[t].children| + 1
  {
    assert MadeWell(g, s, t);
    UnfoldAllIsPlain(g, rank, s, t, |s.objects[t].children|);
  }

  lemma {:induction false} UnfoldAllIsPlain(g: Graph, rank: nat -> nat, s: Store, t: nat, n: nat)
    requires Acyclic(g, rank) && Inv(g, s) && t < |s.objects| && n <= |s.objects[t].children|
    ensures s.origin[t] in g && n <= |g[s.origin[t]].children|
    ensures PlainAll(g, rank, s.origin[t], n) == Ok(UnfoldAll(g, s, t, n))
    decreases t, n
  {
    assert MadeWell(g, s, t);
    if n > 0 {
      UnfoldAllIsPlain(g, rank, s, t, n - 1);
      var id := s.origin[t];
      var c, ref := g[id].children[n - 1], s.objects[t].children[n - 1];
      assert StandsFor(g, s, c, ref, t);
      if ref.MadeRef? { UnfoldIsPlain(g, rank, s, ref.index); }
    }
  }

  /** What a reference stands for, as a tree. */
  function Meaning(g: Graph, s: Store, ref: Ref): Tree
    requires Inv(g, s) && (ref.MadeRef? ==> ref.index < |s.objects|)
  {
    if ref.OwnRef? then Kept(ref.id) else Unfold(g, s, ref.index)
  }

  lemma MeaningIsPlain(g: Graph, rank: nat -> nat, s: Store, c: nat, ref: Ref)
    requires Acyclic(g, rank) && Inv(g, s) && c in g && StandsFor(g, s, c, ref, |s.objects|)
    ensures Plain(g, rank, c) == Ok(Meaning(g, s, ref))
  {
    if ref.MadeRef? { UnfoldIsPlain(g, rank, s, ref.index); }
  }

  /** The store with one more object, cached if its kind is. */
  function Made(g: Graph, s: Store, id: nat, refs: seq<Ref>): Store
    requires id in g
  {
    Store(s.objects + [Object(g[id].payload, refs)], s.origin + [id],
          if IsCached(g[id].kind) then s.cache[id := |s.objects|] else s.cache)
  }

  lemma MadeKeepsInv(g: Graph, s: Store, id: nat, refs: seq<Ref>)
    requires Inv(g, s) && id in g && !Passes(g[id]) && g[id].valid && id !in s.cache
    requires |refs| == |g[id].children| && RefsStand(g, s, id, refs)
    ensures Inv(g, Made(g, s, id, refs)) && Grows(s, Made(g, s, id, refs))
    ensures StandsFor(g, Made(g, s, id, refs), id, MadeRef(|s.objects|), |s.objects| + 1)
  {
    var s' := Made(g, s, id, refs);
    assert Grows(s, s');
    forall t | 0 <= t < |s'.objects| ensures MadeWell(g, s', t) {
      if t < |s.objects| {
        assert MadeWell(g, s, t);
        forall k | 0 <= k < |s.objects[t].children|
          ensures StandsFor(g, s', g[s.origin[t]].children[k], s'.objects[t].children[k], t)
        {
          StandsForGrows(g, s, s', g[s.origin[t]].children[k], s.objects[t].children[k], t, t);
        }
      } else {
        forall k | 0 <= k < |refs| ensures StandsFor(g, s', g[id].children[k], refs[k], t) {
          StandsForGrows(g, s, s', g[id].children[k], refs[k], |s.objects|, t);
        }
      }
    }
  }

  // ---------------------------------------------------------------- sharing

  /** Each distinct type, dictionary vector and data node is rebuilt once. */
  lemma RebuiltOnce(g: Graph, s: Store, t: nat, u: nat)
    requires Inv(g, s) && t < |s.objects| && u < |s.objects|
    requires s.origin[t] == s.origin[u] && s.origin[t] in g
    requires var kind := g[s.origin[t]].kind; kind.TypeNode? || kind.VectorNode? || kind.DataNode?
    ensures t == u
  {
    assert MadeWell(g, s, t) && MadeWell(g, s, u);
  }

  /**
   * Two places of the result, in whatever objects. If they refer to one object, so do the places
   * they come from: distinct foreign objects stay distinct, whatever their kind. The other way
   * round holds for types, data nodes, dictionary vectors and objects that are passed through.
   */
  lemma SharingIsKept(g: Graph, s: Store, t: nat, j: nat, u: nat, k: nat)
    requires Inv(g, s) && t < |s.objects| && u < |s.objects|
    requires j < |s.objects[t].children| && k < |s.objects[u].children|
    ensures s.origin[t] in g && s.origin[u] in g && j < |g[s.origin[t]].children| && k < |g[s.origin[u]].children|
    ensures
      var a, b := g[s.origin[t]].children[j], g[s.origin[u]].children[k];
      && a in g && b in g
      && (s.objects[t].children[j] == s.objects[u].children[k] ==> a == b)
      && (var kind := g[a].kind;
          kind.TypeNode? || kind.VectorNode? || kind.DataNode? || (g[a].own && !kind.NameNode?) ==>
            (a == b ==> s.objects[t].children[j] == s.objects[u].children[k]))
  {
    assert MadeWell(g, s, t) && MadeWell(g, s, u);
    assert StandsFor(g, s, g[s.origin[t]].children[j], s.objects[t].children[j], t);
    assert StandsFor(g, s, g[s.origin[u]].children[k], s.objects[u].children[k], u);
  }

  /** Objects of this copy of the library are handed back, except types and vectors; all others are rebuilt. */
  lemma OwnIsHandedBack(g: Graph, s: Store, t: nat, j: nat)
    requires Inv(g, s) && t < |s.objects| && j < |s.objects[t].children|
    ensures s.origin[t] in g && j < |g[s.origin[t]].children| && g[s.origin[t]].children[j] in g
    ensures
      var a, ref := g[s.origin[t]].children[j], s.objects[t].children[j];
      if g[a].own && !g[a].kind.TypeNode? && !g[a].kind.NameNode? && !g[a].kind.VectorNode? then ref == OwnRef(a)
      else ref.MadeRef? && ref.index < t && s.origin[ref.index] == a
  {
    assert MadeWell(g, s, t);
    assert StandsFor(g, s, g[s.origin[t]].children[j], s.objects[t].children[j], t);
  }

  /** Data nodes that share a dictionary vector refer to one rebuilt vector. */
  ghost predicate DictionariesAreShared(g: Graph, s: Store) {
    forall t, j, u, k {:trigger s.objects[t].children[j], s.objects[u].children[k]} |
      && 0 <= t < |s.objects| && 0 <= u < |s.objects|
      && 0 <= j < |s.objects[t].children| && 0 <= k < |s.objects[u].children| ::
      SharedDictionary(g, s, t, j, u, k) ==> s.objects[t].children[j] == s.objects[u].children[k]
  }

  /** Two data nodes were made for foreign ones that have one dictionary vector, at these places. */
  ghost predicate SharedDictionary(g: Graph, s: Store, t: nat, j: nat, u: nat, k: nat) {
    && t < |s.origin| && u < |s.origin| && s.origin[t] in g && s.origin[u] in g
    && g[s.origin[t]].kind.DataNode? && g[s.origin[u]].kind.DataNode?
    && j < |g[s.origin[t]].children| && k < |g[s.origin[u]].children|
    && g[s.origin[t]].children[j] == g[s.origin[u]].children[k]
    && g[s.origin[t]].children[j] in g && g[g[s.origin[t]].children[j]].kind.VectorNode?
  }

  lemma DictionariesStayShared(g: Graph, s: Store)
    requires Inv(g, s)
    ensures DictionariesAreShared(g, s)
  {
    forall t, j, u, k |
      && 0 <= t < |s.objects| && 0 <= u < |s.objects|
      && 0 <= j < |s.objects[t].children| && 0 <= k < |s.objects[u].children|
      ensures SharedDictionary(g, s, t, j, u, k) ==> s.objects[t].children[j] == s.objects[u].children[k]
    {
      SharingIsKept(g, s, t, j, u, k);
    }
  }

  /** The three caches as one. */
  ghost function Join(types: map<nat, nat>, vectors: map<nat, nat>, data: map<nat, nat>): map<nat, nat> {
    types + vectors + data
  }

  lemma JoinUpdate(
    types: map<nat, nat>, vectors: map<nat, nat>, data: map<nat, nat>, id: nat, index: nat)
    requires id !in types && id !in vectors && id !in data
    ensures Join(types[id := index], vectors, data) == Join(types, vectors, data)[id := index]
    ensures Join(types, vectors[id := index], data) == Join(types, vectors, data)[id := index]
    ensures Join(types, vectors, data[id := index]) == Join(types, vectors, data)[id := index]
  {
    UnionUpdate(types, vectors, id, index);
    UnionUpdate(types + vectors, data, id, index);
  }

  lemma UnionUpdate(a: map<nat, nat>, b: map<nat, nat>, id: nat, index: nat)
    requires id !in b
    ensures a[id := index] + b == (a + b)[id := index]
    ensures a + b[id := index] == (a + b)[id := index]
  {
  }

  // ---------------------------------------------------------------- the memoised rebuild

  /** Everything cached since a moment has a rank below a bound. */
  ghost predicate NewBelow(rank: nat -> nat, s: Store, s': Store, bound: nat) {
    forall c | c in s'.cache && c !in s.cache :: rank(c) < bound
  }

  lemma NewBelowTransitive(rank: nat -> nat, s: Store, s': Store, s'': Store, near: nat, far: nat)
    requires NewBelow(rank, s, s', far) && NewBelow(rank, s', s'', near) && near <= far
    ensures NewBelow(rank, s, s'', far)
  {
  }

  /** The sanitization context and the objects made in it. */
  class Sanitizer {
    const graph: Graph
    ghost const rank: nat -> nat
    var types: map<nat, nat>
    var vectors: map<nat, nat>
    var data: map<nat, nat>
    var objects: seq<Object>
    ghost var origin: seq<nat>

    ghost function View(): Store
      reads this
    {
      Store(objects, origin, Join(types, vectors, data))
    }

    /** Each cache holds objects of its own kind. */
    ghost predicate Valid()
      reads this
    {
      && Acyclic(graph, rank) && Inv(graph, View())
      && (forall c | c in types :: c in graph && graph[c].kind.TypeNode?)
      && (forall c | c in vectors :: c in graph && graph[c].kind.VectorNode?)
      && (forall c | c in data :: c in graph && graph[c].kind.DataNode?)
    }

    constructor (graph: Graph, ghost rank: nat -> nat)
      requires Acyclic(graph, rank)
      ensures Valid() && this.graph == graph && this.rank == rank && View() == Store([], [], map[])
    {
      this.graph, this.rank := graph, rank;
      types, vectors, data, objects, origin := map[], map[], map[], [], [];
    }

    /** The cache of a kind: `types`, `vectors` or `data`. */
    function CacheOf(kind: Kind): map<nat, nat>
      reads this
    {
      match kind
      case TypeNode => types
      case VectorNode => vectors
      case DataNode => data
      case _ => map[]
    }

    /** Looking in the cache of an object's own kind is looking in all of them. */
    lemma CacheView(id: nat)
      requires Valid() && id in graph
      ensures id in CacheOf(graph[id].kind) <==> id in View().cache
      ensures id in View().cache ==> CacheOf(graph[id].kind)[id] == View().cache[id]
    {
    }

    /** A new object, put in the cache of its kind if there is one. */
    method Make(id: nat, refs: seq<Ref>) returns (index: nat)
      requires Valid() && id in graph && !Passes(graph[id]) && graph[id].valid && id !in View().cache
      requires |refs| == |graph[id].children| && RefsStand(graph, View(), id, refs)
      modifies this
      ensures Valid() && index == |old(objects)| && View() == Made(graph, old(View()), id, refs)
      ensures Grows(old(View()), View()) && StandsFor(graph, View(), id, MadeRef(index), |objects|)
    {
      MadeKeepsInv(graph, View(), id, refs);
      CacheView(id);
      index := |objects|;
      JoinUpdate(types, vectors, data, id, index);
      objects, origin := objects + [Object(graph[id].payload, refs)], origin + [id];
      match graph[id].kind {
        case TypeNode => types := types[id := index];
        case VectorNode => vectors := vectors[id := index];
        case DataNode => data := data[id := index];
        case _ =>
      }
    }

    /**
     * The memoised rebuild of one object, dispatching as the `*WithContext` functions,
     * `sanitizeData`, `sanitizeRecordBatch` and `sanitizeTable` do. It succeeds exactly when the plain
     * rebuild does, and its result stands for the object.
     */
    method Rebuild(id: nat) returns (r: Result<Ref>)
      requires Valid() && id in graph
      modifies this
      ensures Valid() && Grows(old(View()), View())
      ensures r.Ok? <==> Plain(graph, rank, id).Ok?
      ensures r.Ok? ==> StandsFor(graph, View(), id, r.value, |objects|)
      ensures NewBelow(rank, old(View()), View(), rank(id) + 1)
      decreases rank(id), 1
    {
      if Passes(graph[id]) {
        return Ok(OwnRef(id));
      }
      CacheView(id);
      if id in CacheOf(graph[id].kind) {
        r := Ok(MadeRef(CacheOf(graph[id].kind)[id]));
        MeaningIsPlain(graph, rank, View(), id, r.value);
        return;
      }
      if !graph[id].valid {
        return Err;
      }
      var refs := RebuildChildren(id);
      if refs.Err? {
        return Err;
      }
      ghost var before := View();
      var index := Make(id, refs.value);
      GrowsTransitive(old(View()), before, View());
      r := Ok(MadeRef(index));
    }

    /** The children of an object, in order. An object never becomes cached while they are rebuilt. */
    method RebuildChildren(id: nat) returns (r: Result<seq<Ref>>)
      requires Valid() && id in graph
      modifies this
      ensures Valid() && Grows(old(View()), View())
      ensures r.Ok? <==> PlainAll(graph, rank, id, |graph[id].children|).Ok?
      ensures r.Ok? ==> |r.value| == |graph[id].children| && RefsStand(graph, View(), id, r.value)
      ensures NewBelow(rank, old(View()), View(), rank(id))
      decreases rank(id), 0
    {
      var refs := [];
      var i := 0;
      while i < |graph[id].children|
        invariant 0 <= i == |refs| <= |graph[id].children|
        invariant Valid() && Grows(old(View()), View()) && NewBelow(rank, old(View()), View(), rank(id))
        invariant PlainAll(graph, rank, id, i).Ok? && RefsStand(graph, View(), id, refs)
      {
        ghost var before := View();
        var child := Rebuild(graph[id].children[i]);
        GrowsTransitive(old(View()), before, View());
        NewBelowTransitive(rank, old(View()), before, View(), rank(graph[id].children[i]) + 1, rank(id));
        if child.Err? {
          PlainFails(graph, rank, id, i + 1, |graph[id].children|);
          return Err;
        }
        RefsStandMore(graph, before, View(), id, refs, child.value);
        refs := refs + [child.value];
        i := i + 1;
      }
      r := Ok(refs);
    }
  }

  /** `sanitizeTable`: the result unfolds to what the plain rebuild gives. */
  method SanitizeTable(graph: Graph, ghost rank: nat -> nat, table: nat) returns (r: Result<Ref>, ghost s: Store)
    requires Acyclic(graph, rank) && table in graph
    ensures Inv(graph, s)
    ensures r.Ok? <==> Plain(graph, rank, table).Ok?
    ensures r.Ok? ==>
            (r.value.MadeRef? ==> r.value.index < |s.objects|) &&
            Plain(graph, rank, table) == Ok(Meaning(graph, s, r.value))
    ensures r.Ok? <==> !MeetsBad(graph, rank, table)
    ensures r.Ok? ==> (r.value == OwnRef(table) <==> Plain(graph, rank, table) == Ok(Kept(table)))
    ensures DictionariesAreShared(graph, s)
  {
    var context := new Sanitizer(graph, rank);
    r := context.Rebuild(table);
    s := context.View();
    DictionariesStayShared(graph, s);
    PlainFailsExactly(graph, rank, table);
    if r.Ok? { MeaningIsPlain(graph, rank, s, table, r.value); }
  }
}
