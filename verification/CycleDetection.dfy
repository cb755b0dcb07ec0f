/** The three-colour depth-first cycle finder of contracts/workflow.ts. */
module CycleDetection {
  import opened Wrappers
  import opened Ordering
  import opened Digraphs

  datatype DependencyNode = DependencyNode(id: Id, dependsOn: seq<Id>)

  datatype Color = White | Gray | Black

  type Dependencies = map<Id, seq<Id>>

  /** `new Map(nodes.map((n) => [n.id, n.dependsOn]))`: the last node of an id wins. */
  function DependencyMap(nodes: seq<DependencyNode>): (deps: Dependencies)
    ensures forall x :: x in deps <==> exists i :: 0 <= i < |nodes| && nodes[i].id == x
  {
    if nodes == [] then map[] else
      var last := |nodes| - 1;
      var rest := DependencyMap(nodes[..last]);
      assert nodes == nodes[..last] + [nodes[last]];
      rest[nodes[last].id := nodes[last].dependsOn]
  }

  /** The edges the search can follow: from a node to each of its dependencies that is itself a node. */
  function DependencyEdges(deps: Dependencies): Relation
  {
    set n, d | n in deps && d in deps[n] && d in deps :: (n, d)
  }

  /** The known ids of a list are in a set. */
  ghost predicate Finished(deps: Dependencies, ids: seq<Id>, black: set<Id>)
  {
    forall d :: d in ids && d in deps ==> d in black
  }

  ghost predicate DependenciesIn(deps: Dependencies, id: Id, earlier: set<Id>)
  {
    id in deps && forall d :: d in deps[id] && d in deps ==> d in earlier
  }

  /** Each node once, after all of its known dependencies. */
  ghost predicate DependenciesFirst(deps: Dependencies, order: seq<Id>)
  {
    order == [] ||
    var last := |order| - 1;
    && order[last] !in order[..last]
    && DependenciesIn(deps, order[last], Elements(order[..last]))
    && DependenciesFirst(deps, order[..last])
  }

  lemma {:induction false} DependenciesFirstAt(deps: Dependencies, order: seq<Id>, i: nat)
    requires DependenciesFirst(deps, order) && i < |order|
    ensures order[i] !in order[..i] && DependenciesIn(deps, order[i], Elements(order[..i]))
  {
    var last := |order| - 1;
    if i < last {
      assert order[..last][..i] == order[..i];
      DependenciesFirstAt(deps, order[..last], i);
    }
  }

  lemma DependenciesFirstDistinct(deps: Dependencies, order: seq<Id>)
    requires DependenciesFirst(deps, order)
    ensures NoDuplicates(order)
  {
    forall i, j | 0 <= i < j < |order| ensures order[i] != order[j] {
      DependenciesFirstAt(deps, order, j);
      assert order[i] == order[..j][i];
    }
  }

  lemma DependencyComesFirst(deps: Dependencies, order: seq<Id>, id: Id, d: Id)
    requires DependenciesFirst(deps, order) && id in order && (id, d) in DependencyEdges(deps)
    ensures d in order && IndexOf(order, d) < IndexOf(order, id)
  {
    DependenciesFirstAt(deps, order, IndexOf(order, id));
    DependenciesFirstDistinct(deps, order);
    assert d in Elements(order[..IndexOf(order, id)]);
    var j :| 0 <= j < IndexOf(order, id) && order[j] == d;
  }

  lemma DependenciesFirstAcyclic(deps: Dependencies, order: seq<Id>)
    requires DependenciesFirst(deps, order) && forall x :: x in deps ==> x in order
    ensures Acyclic(DependencyEdges(deps))
  {
    var edges := DependencyEdges(deps);
    var backwards := ReverseSeq(order);
    DependenciesFirstDistinct(deps, order);
    forall e | e in edges
      ensures e.0 in backwards && e.1 in backwards && IndexOf(backwards, e.0) < IndexOf(backwards, e.1)
    {
      DependencyComesFirst(deps, order, e.0, e.1);
      ReversedIndex(order, e.0);
      ReversedIndex(order, e.1);
    }
    ForwardAcyclic(edges, backwards);
  }

  lemma CloseCycle(deps: Dependencies, path: seq<Id>, dep: Id)
    requires IsWalk(DependencyEdges(deps), path) && NoDuplicates(path) && dep in path
    requires (path[|path| - 1], dep) in DependencyEdges(deps)
    ensures var cycle := path[IndexOf(path, dep)..] + [dep];
            IsCycle(DependencyEdges(deps), cycle) && NoDuplicates(cycle[..|cycle| - 1])
  {
    var tail := path[IndexOf(path, dep)..];
    SliceWalk(DependencyEdges(deps), path, IndexOf(path, dep), |path|);
    assert (tail + [dep])[..|tail|] == tail;
  }

  lemma EdgeToDependency(deps: Dependencies, id: Id, k: nat)
    requires id in deps && k < |deps[id]|
    ensures deps[id][k] in deps ==> (id, deps[id][k]) in DependencyEdges(deps)
  {
    assert deps[id][k] in deps[id];
  }

  function ColoredNodes(color: map<Id, Color>, c: Color): set<Id>
  {
    set x | x in color && color[x] == c
  }

  /** What holds between any two steps of the search; `finished` lists the black nodes as they were painted. */
  ghost predicate SearchConsistent(deps: Dependencies, color: map<Id, Color>, path: seq<Id>, finished: seq<Id>)
  {
    && color.Keys == deps.Keys
    && NoDuplicates(path)
    && Elements(path) == ColoredNodes(color, Gray)
    && (path != [] ==> IsWalk(DependencyEdges(deps), path))
    && Elements(finished) == ColoredNodes(color, Black)
    && DependenciesFirst(deps, finished)
  }

  lemma EnterConsistent(deps: Dependencies, color: map<Id, Color>, path: seq<Id>, finished: seq<Id>, id: Id)
    requires SearchConsistent(deps, color, path, finished) && id in ColoredNodes(color, White)
    requires path != [] ==> (path[|path| - 1], id) in DependencyEdges(deps)
    ensures SearchConsistent(deps, color[id := Gray], path + [id], finished)
    ensures ColoredNodes(color[id := Gray], White) == ColoredNodes(color, White) - {id}
  {
    assert id !in Elements(path);
    ElementsAppend(path, id);
    assert ColoredNodes(color[id := Gray], Gray) == ColoredNodes(color, Gray) + {id};
    assert ColoredNodes(color[id := Gray], Black) == ColoredNodes(color, Black);
  }

  lemma PaintBlack(color: map<Id, Color>, id: Id)
    requires id in ColoredNodes(color, Gray)
    ensures ColoredNodes(color[id := Black], Gray) == ColoredNodes(color, Gray) - {id}
    ensures ColoredNodes(color[id := Black], Black) == ColoredNodes(color, Black) + {id}
    ensures ColoredNodes(color[id := Black], White) == ColoredNodes(color, White)
  {
  }

  lemma FinishOne(deps: Dependencies, finished: seq<Id>, id: Id)
    requires DependenciesFirst(deps, finished) && DependenciesIn(deps, id, Elements(finished)) && id !in finished
    ensures DependenciesFirst(deps, finished + [id])
  {
    assert (finished + [id])[..|finished|] == finished;
  }

  lemma LeaveConsistent(deps: Dependencies, color: map<Id, Color>, path: seq<Id>, finished: seq<Id>)
    requires SearchConsistent(deps, color, path, finished) && path != []
    requires DependenciesIn(deps, path[|path| - 1], Elements(finished))
    ensures var id := path[|path| - 1];
            && SearchConsistent(deps, color[id := Black], path[..|path| - 1], finished + [id])
            && ColoredNodes(color[id := Black], White) == ColoredNodes(color, White)
  {
    var id := path[|path| - 1];
    assert id in Elements(path) && id !in Elements(finished);
    FinishOne(deps, finished, id);
    ElementsDropLast(path);
    ElementsAppend(finished, id);
    PaintBlack(color, id);
    if |path| > 1 {
      ShorterWalk(DependencyEdges(deps), path);
    }
  }

  class CycleFinder {
    const deps: Dependencies
    var color: map<Id, Color>
    var path: seq<Id>
    ghost var finished: seq<Id>

    ghost predicate Valid()
      reads this
    {
      SearchConsistent(deps, color, path, finished)
    }

    ghost function WhiteNodes(): set<Id>
      reads this
    {
      ColoredNodes(color, White)
    }

    ghost function BlackNodes(): set<Id>
      reads this
    {
      ColoredNodes(color, Black)
    }

    constructor (nodes: seq<DependencyNode>)
      ensures Valid() && deps == DependencyMap(nodes)
      ensures path == [] && WhiteNodes() == deps.Keys
    {
      deps := DependencyMap(nodes);
      color := map x | x in DependencyMap(nodes) :: White;
      path := [];
      finished := [];
    }

    /** Paints a white node gray and puts it on top of the path. */
    method Enter(id: Id)
      requires Valid() && id in WhiteNodes()
      requires path != [] ==> (path[|path| - 1], id) in DependencyEdges(deps)
      modifies this
      ensures Valid() && path == old(path) + [id]
      ensures WhiteNodes() == old(WhiteNodes()) - {id} && BlackNodes() == old(BlackNodes())
    {
      EnterConsistent(deps, color, path, finished, id);
      assert BlackNodes() == Elements(finished);
      color := color[id := Gray];
      path := path + [id];
      assert BlackNodes() == Elements(finished);
    }

    /** Takes the top node, whose known dependencies are all finished, off the path and paints it black. */
    method Leave()
      requires Valid() && path != []
      requires DependenciesIn(deps, path[|path| - 1], BlackNodes())
      modifies this
      ensures Valid() && path == old(path)[..|old(path)| - 1]
      ensures WhiteNodes() == old(WhiteNodes()) && BlackNodes() == old(BlackNodes()) + {old(path)[|old(path)| - 1]}
    {
      var id := path[|path| - 1];
      assert id in Elements(path) && BlackNodes() == Elements(finished);
      LeaveConsistent(deps, color, path, finished);
      path := path[..|path| - 1];
      color := color[id := Black];
      finished := finished + [id];
    }

    /** The part of the path from `dep` on, closed by `dep` itself. */
    method ClosedPath(dep: Id) returns (cycle: seq<Id>)
      requires Valid() && dep in path && (path[|path| - 1], dep) in DependencyEdges(deps)
      ensures IsCycle(DependencyEdges(deps), cycle) && NoDuplicates(cycle[..|cycle| - 1])
    {
      CloseCycle(deps, path, dep);
      cycle := path[IndexOf(path, dep)..] + [dep];
    }

    /** Explores everything below `id`; a cycle found is a closed walk that repeats no node but its first. */
    method Visit(id: Id) returns (found: Option<seq<Id>>)
      requires Valid() && id in WhiteNodes()
      requires path != [] ==> (path[|path| - 1], id) in DependencyEdges(deps)
      modifies this
      ensures found.Some? ==> IsCycle(DependencyEdges(deps), found.value)
                              && NoDuplicates(found.value[..|found.value| - 1])
      ensures found.None? ==> Valid() && path == old(path) && WhiteNodes() < old(WhiteNodes())
      ensures found.None? ==> old(BlackNodes()) + {id} <= BlackNodes()
      decreases WhiteNodes(), 0
    {
      Enter(id);
      var next := deps[id];
      for k := 0 to |next|
        invariant Valid() && path == old(path) + [id]
        invariant WhiteNodes() < old(WhiteNodes()) && old(BlackNodes()) <= BlackNodes()
        invariant Finished(deps, next[..k], BlackNodes())
      {
        EdgeToDependency(deps, id, k);
        found := Follow(next[k]);
        if found.Some? {
          return;
        }
        assert next[..k + 1] == next[..k] + [next[k]];
      }
      assert next[..|next|] == next;
      Leave();
      found := None;
    }

    /** The body of the loop: a gray dependency closes a cycle, a white one is explored, others are passed over. */
    method Follow(dep: Id) returns (found: Option<seq<Id>>)
      requires Valid() && path != [] && (dep in deps ==> (path[|path| - 1], dep) in DependencyEdges(deps))
      modifies this
      ensures found.Some? ==> IsCycle(DependencyEdges(deps), found.value)
                              && NoDuplicates(found.value[..|found.value| - 1])
      ensures found.None? ==> Valid() && path == old(path) && WhiteNodes() <= old(WhiteNodes())
      ensures found.None? ==> old(BlackNodes()) <= BlackNodes() && (dep in deps ==> dep in BlackNodes())
      decreases WhiteNodes(), 1
    {
      if dep in color {
        if color[dep] == Gray {
          assert dep in Elements(path);
          var cycle := ClosedPath(dep);
          return Some(cycle);
        }
        if color[dep] == White {
          found := Visit(dep);
          return;
        }
      }
      found := None;
    }

    /** The outer loop: a node that is not white any more has been explored already. */
    method VisitAll(nodes: seq<DependencyNode>) returns (found: Option<seq<Id>>)
      requires Valid() && path == [] && forall k :: 0 <= k < |nodes| ==> nodes[k].id in deps
      modifies this
      ensures found.Some? ==> IsCycle(DependencyEdges(deps), found.value)
                              && NoDuplicates(found.value[..|found.value| - 1])
      ensures found.None? ==> Valid() && path == [] && Explored(nodes, |nodes|, BlackNodes())
    {
      for k := 0 to |nodes|
        invariant Valid() && path == [] && Explored(nodes, k, BlackNodes())
      {
        if color[nodes[k].id] == White {
          found := Visit(nodes[k].id);
          if found.Some? {
            return;
          }
        } else {
          assert nodes[k].id !in ColoredNodes(color, Gray);
        }
      }
      found := None;
    }
  }

  ghost predicate Explored(nodes: seq<DependencyNode>, k: nat, black: set<Id>)
    requires k <= |nodes|
  {
    forall j :: 0 <= j < k ==> nodes[j].id in black
  }

  /** When every node is black, painting them black has put each after its dependencies. */
  lemma AllBlackAcyclic(nodes: seq<DependencyNode>, color: map<Id, Color>, path: seq<Id>, finished: seq<Id>)
    requires SearchConsistent(DependencyMap(nodes), color, path, finished)
    requires Explored(nodes, |nodes|, ColoredNodes(color, Black))
    ensures Acyclic(DependencyEdges(DependencyMap(nodes)))
  {
    forall x | x in DependencyMap(nodes) ensures x in Elements(finished) {
      var i :| 0 <= i < |nodes| && nodes[i].id == x;
      assert nodes[i].id in ColoredNodes(color, Black);
    }
    DependenciesFirstAcyclic(DependencyMap(nodes), finished);
  }

  /**
   * A cycle is reported exactly when one exists, and what is reported is a simple cycle. Dependencies that name
   * no node are ignored.
   */
  method FindCycle(nodes: seq<DependencyNode>) returns (found: Option<seq<Id>>)
    ensures found.Some? ==> IsCycle(DependencyEdges(DependencyMap(nodes)), found.value)
                            && NoDuplicates(found.value[..|found.value| - 1])
    ensures found.None? <==> Acyclic(DependencyEdges(DependencyMap(nodes)))
  {
    var finder := new CycleFinder(nodes);
    found := finder.VisitAll(nodes);
    if found.None? {
      AllBlackAcyclic(nodes, finder.color, finder.path, finder.finished);
    }
  }
}
