/**
 * What an export of one package yields, proved about the functional
 * specification: the graph is well formed, the package node comes last and
 * lists the first diagram's elements in placement order, and the export
 * fails only on, and always succeeds without, a connector end that does not
 * resolve.
 */
module ExportProperties {
  import opened Fixture
  import opened Graph
  import opened Traversal
  import opened TraversalProofs

  // ---------------------------------------------------------------------
  // Placement order
  // ---------------------------------------------------------------------

  /**
   * `n` is the node made for placement `o`: an element node for the placed
   * element, positioned by the placement, for an element that resolves and
   * had not been visited before the diagram was expanded.
   */
  ghost predicate Placed(repo: Repository, before: set<ElementId>, n: Node, o: DiagramObject)
  {
    && n.ElementNode? && n.id == o.elementId && n.position == Some(o.geometry)
    && o.elementId in repo.elements && o.elementId !in before
  }

  /** The nodes `ns` are made for the placements at the strictly increasing positions `idx` of `objs`. */
  ghost predicate PlacedAt(repo: Repository, before: set<ElementId>, ns: seq<Node>, objs: seq<DiagramObject>, idx: seq<int>)
  {
    && |idx| == |ns|
    && (forall u :: 0 <= u < |idx| ==> 0 <= idx[u] < |objs| && Placed(repo, before, ns[u], objs[idx[u]]))
    && (forall u, v :: 0 <= u < v < |idx| ==> idx[u] < idx[v])
  }

  lemma PlacedAtSnoc(repo: Repository, before: set<ElementId>, ns: seq<Node>, objs: seq<DiagramObject>, idx: seq<int>,
                     n: Node, i: nat)
    requires PlacedAt(repo, before, ns, objs, idx) && forall u :: 0 <= u < |idx| ==> idx[u] < i
    requires i < |objs| && Placed(repo, before, n, objs[i])
    ensures PlacedAt(repo, before, ns + [n], objs, idx + [i])
  {
    var ns', idx' := ns + [n], idx + [i];
    forall u | 0 <= u < |idx'|
      ensures 0 <= idx'[u] < |objs| && Placed(repo, before, ns'[u], objs[idx'[u]])
    {
      if u < |idx| {
        assert idx'[u] == idx[u] && ns'[u] == ns[u];
      }
    }
  }

  /** The placement loop's result when it reaches placement `k`: the loop run on the placements before `k`. */
  function ReachedPlacement(repo: Repository, c: Ctx, objs: seq<DiagramObject>, i: nat, acc: seq<Node>, k: nat)
    : Result<(Ctx, seq<Node>)>
    requires i <= k <= |objs|
  {
    ExpandPlacements(repo, c, objs[..k], i, acc)
  }

  /**
   * From placement `i` on, placement `k` is listed, at a position of `idx`,
   * exactly when its element resolves and had not been visited when the loop
   * reached it.
   */
  ghost predicate ListsExactly(repo: Repository, c: Ctx, objs: seq<DiagramObject>, i: nat, acc: seq<Node>, idx: seq<int>)
    requires i <= |objs|
  {
    forall k :: i <= k < |objs| ==>
      && ReachedPlacement(repo, c, objs, i, acc, k).Success?
      && (k in idx <==> objs[k].elementId in repo.elements
                        && objs[k].elementId !in ReachedPlacement(repo, c, objs, i, acc, k).value.0.visitedElements)
  }

  /**
   * The loop over a diagram's objects lists, in placement order, a node for
   * exactly the placements whose element resolves and is not yet visited when
   * the loop reaches them, and leaves every resolvable placed element visited.
   */
  lemma {:induction false} ExpandPlacementsOrder(repo: Repository, c: Ctx, objs: seq<DiagramObject>, i: nat, acc: seq<Node>,
                                                 before: set<ElementId>, idx0: seq<int>)
    returns (idx: seq<int>)
    requires i <= |objs| && before <= c.visitedElements
    requires PlacedAt(repo, before, acc, objs, idx0) && forall u :: 0 <= u < |idx0| ==> idx0[u] < i
    requires ExpandPlacements(repo, c, objs, i, acc).Success?
    ensures var (c', acc') := ExpandPlacements(repo, c, objs, i, acc).value;
            && PlacedAt(repo, before, acc', objs, idx)
            && forall k :: i <= k < |objs| && objs[k].elementId in repo.elements ==> objs[k].elementId in c'.visitedElements
    ensures idx0 <= idx && forall u :: |idx0| <= u < |idx| ==> i <= idx[u]
    ensures ListsExactly(repo, c, objs, i, acc, idx)
    decreases |objs| - i, 1
  {
    if i == |objs| {
      idx := idx0;
    } else if objs[i].elementId in repo.elements && objs[i].elementId !in c.visitedElements {
      idx := PlacementListStep(repo, c, objs, i, acc, before, idx0);
    } else {
      idx := PlacementSkipStep(repo, c, objs, i, acc, before, idx0);
    }
  }

  /** Placement `i` does not resolve or its element was visited before: it is skipped. */
  lemma {:induction false} PlacementSkipStep(repo: Repository, c: Ctx, objs: seq<DiagramObject>, i: nat, acc: seq<Node>,
                                             before: set<ElementId>, idx0: seq<int>)
    returns (idx: seq<int>)
    requires i < |objs| && before <= c.visitedElements
    requires PlacedAt(repo, before, acc, objs, idx0) && forall u :: 0 <= u < |idx0| ==> idx0[u] < i
    requires !(objs[i].elementId in repo.elements && objs[i].elementId !in c.visitedElements)
    requires ExpandPlacements(repo, c, objs, i, acc).Success?
    ensures var (c', acc') := ExpandPlacements(repo, c, objs, i, acc).value;
            && PlacedAt(repo, before, acc', objs, idx)
            && forall k :: i <= k < |objs| && objs[k].elementId in repo.elements ==> objs[k].elementId in c'.visitedElements
    ensures idx0 <= idx && forall u :: |idx0| <= u < |idx| ==> i <= idx[u]
    ensures ListsExactly(repo, c, objs, i, acc, idx)
    decreases |objs| - i, 0
  {
    idx := ExpandPlacementsOrder(repo, c, objs, i + 1, acc, before, idx0);
    forall k | i <= k < |objs|
      ensures ReachedPlacement(repo, c, objs, i, acc, k).Success?
      ensures k in idx <==> objs[k].elementId in repo.elements
                            && objs[k].elementId !in ReachedPlacement(repo, c, objs, i, acc, k).value.0.visitedElements
    {
      if k == i {
        assert ReachedPlacement(repo, c, objs, i, acc, k) == Success((c, acc));
        forall u | 0 <= u < |idx|
          ensures idx[u] != i
        {
          if u < |idx0| {
            assert idx[u] == idx0[u];
          }
        }
      } else {
        assert objs[..k][i] == objs[i];
        assert ReachedPlacement(repo, c, objs, i, acc, k) == ReachedPlacement(repo, c, objs, i + 1, acc, k);
      }
    }
  }

  /** Placement `i` resolves to an element not yet visited: the element is processed and its node listed. */
  lemma {:induction false} PlacementListStep(repo: Repository, c: Ctx, objs: seq<DiagramObject>, i: nat, acc: seq<Node>,
                                             before: set<ElementId>, idx0: seq<int>)
    returns (idx: seq<int>)
    requires i < |objs| && before <= c.visitedElements
    requires PlacedAt(repo, before, acc, objs, idx0) && forall u :: 0 <= u < |idx0| ==> idx0[u] < i
    requires objs[i].elementId in repo.elements && objs[i].elementId !in c.visitedElements
    requires ExpandPlacements(repo, c, objs, i, acc).Success?
    ensures var (c', acc') := ExpandPlacements(repo, c, objs, i, acc).value;
            && PlacedAt(repo, before, acc', objs, idx)
            && forall k :: i <= k < |objs| && objs[k].elementId in repo.elements ==> objs[k].elementId in c'.visitedElements
    ensures idx0 <= idx && forall u :: |idx0| <= u < |idx| ==> i <= idx[u]
    ensures ListsExactly(repo, c, objs, i, acc, idx)
    decreases |objs| - i, 0
  {
    var obj := objs[i];
    var r := ProcessElement(repo, c, obj.elementId, Some(obj.geometry));
    ProcessElementShape(repo, c, obj.elementId, Some(obj.geometry));
    var c', node := r.value.0, r.value.1;
    PlacedAtSnoc(repo, before, acc, objs, idx0, node.value, i);
    idx := ExpandPlacementsOrder(repo, c', objs, i + 1, acc + [node.value], before, idx0 + [i]);
    assert idx[|idx0|] == i;
    assert idx0 <= idx by {
      assert idx[..|idx0|] == (idx0 + [i])[..|idx0|];
    }
    forall k | i <= k < |objs|
      ensures ReachedPlacement(repo, c, objs, i, acc, k).Success?
      ensures k in idx <==> objs[k].elementId in repo.elements
                            && objs[k].elementId !in ReachedPlacement(repo, c, objs, i, acc, k).value.0.visitedElements
    {
      if k == i {
        assert ReachedPlacement(repo, c, objs, i, acc, k) == Success((c, acc));
      } else {
        assert objs[..k][i] == objs[i];
        assert ReachedPlacement(repo, c, objs, i, acc, k) == ReachedPlacement(repo, c', objs, i + 1, acc + [node.value], k);
      }
    }
  }

  // ---------------------------------------------------------------------
  // When the export succeeds
  // ---------------------------------------------------------------------

  /** Both ends of every connector of every element resolve. */
  ghost predicate ConnectorsResolve(repo: Repository)
  {
    forall id, j :: id in repo.elements && 0 <= j < |repo.elements[id].connectors| ==>
      repo.elements[id].connectors[j].clientId in repo.elements && repo.elements[id].connectors[j].supplierId in repo.elements
  }

  /**
   * Without a connector end that fails to resolve, the export always yields a
   * graph: by the failure contracts of the traversal functions, every failure
   * names such an end.
   */
  lemma GenerateGraphSucceeds(repo: Repository, pkg: Package)
    ensures ConnectorsResolve(repo) ==> GenerateGraph(repo, pkg).Success?
  {
  }

  // ---------------------------------------------------------------------
  // The exported graph
  // ---------------------------------------------------------------------

  /**
   * The graph of a finished export: every element has at most one node and
   * every diagram at most one record; no two edges share a key; the elements
   * of every diagram record are nodes listed before the node holding it;
   * every edge is the edge of a connector of an element with a full node,
   * and both its ends resolve; every node is a snapshot of its element, and
   * the classifier of every element node is itself a node.
   */
  ghost predicate WellFormedGraph(repo: Repository, g: Graph)
  {
    && Distinct(NodeIds(g.nodes))
    && Distinct(DiagramIds(g.nodes))
    && Distinct(EdgeKeys(g.edges))
    && ChildrenBefore(g.nodes)
    && EdgesFrom(repo, g.edges, Elems(FullIds(g.nodes)))
    && EndsResolve(repo, g.edges)
    && EdgesComplete(repo, g.edges, Elems(FullIds(g.nodes)))
    && AllFaithful(repo, g.nodes, Elems(NodeIds(g.nodes)))
  }

  /**
   * The package node is the last node and the only one; it holds exactly one
   * diagram record, for the package's first diagram, whose elements are, in
   * placement order, nodes for exactly the placements whose element resolves
   * and is not yet visited when the loop over the diagram reaches them; every
   * resolvable placed element has a node.
   */
  ghost predicate MainDiagramShape(repo: Repository, pkg: Package, g: Graph)
    requires |pkg.diagrams| > 0
  {
    var d := pkg.diagrams[0];
    && |g.nodes| > 0
    && (forall k :: 0 <= k < |g.nodes| - 1 ==> !g.nodes[k].PackageNode?)
    && var last := g.nodes[|g.nodes| - 1];
    && last.PackageNode? && last.name == pkg.name && |last.diagrams| == 1
    && last.diagrams[0].id == d.diagramId && last.diagrams[0].name == d.name
    && (exists idx :: && PlacedAt(repo, {}, last.diagrams[0].elements, d.objects, idx)
                      && ListsExactly(repo, MainStart(d.diagramId), d.objects, 0, [], idx))
    && (forall k :: 0 <= k < |d.objects| && d.objects[k].elementId in repo.elements ==> d.objects[k].elementId in NodeIds(g.nodes))
  }

  /** The state in which the main diagram is expanded. */
  function MainStart(d: DiagramId): Ctx
  {
    EmptyCtx.(visitedDiagrams := EmptyCtx.visitedDiagrams + {d})
  }

  lemma StartInv(repo: Repository, d: DiagramId)
    ensures Inv(repo, MainStart(d), {}, {d})
  {
    assert Elems(NodeIds([])) == {} && Elems(DiagramIds([])) == {} && Texts(EdgeKeys([])) == {} && Elems(FullIds([])) == {};
  }

  /** The element IDs on the finished graph: nothing is pending, so they are exactly the visited ones. */
  lemma FinishNodeIds(ns: seq<Node>, visited: set<ElementId>, pk: Node)
    requires NodesInv(ns, {}, visited) && pk.PackageNode?
    ensures Distinct(NodeIds(ns + [pk])) && Elems(NodeIds(ns + [pk])) == visited
    ensures FullIds(ns + [pk]) == FullIds(ns)
  {
    AppendNode(ns, pk);
  }

  /** The diagram IDs on the finished graph: the main diagram is recorded once. */
  lemma FinishDiagramIds(ns: seq<Node>, visitedDiagrams: set<DiagramId>, d: DiagramId, pk: Node)
    requires DiagramsInv(ns, {d}, visitedDiagrams)
    requires pk.PackageNode? && |pk.diagrams| == 1 && pk.diagrams[0].id == d
    ensures Distinct(DiagramIds(ns + [pk]))
  {
    AppendNode(ns, pk);
    assert DiagramNodeIds(pk.diagrams) == [d] by {
      assert pk.diagrams[..0] == [];
    }
    assert d !in Elems(DiagramIds(ns));
    DistinctAppend(DiagramIds(ns), [d]);
  }

  /** Appending the package node to a state with nothing pending finishes a well-formed graph. */
  lemma FinishGraph(repo: Repository, c: Ctx, d: DiagramId, pk: Node)
    requires Inv(repo, c, {}, {d})
    requires pk.PackageNode? && |pk.diagrams| == 1 && pk.diagrams[0].id == d && ElementsIn(pk.diagrams[0].elements, c.nodes)
    ensures WellFormedGraph(repo, Graph(c.nodes + [pk], c.edges))
    ensures Elems(NodeIds(c.nodes + [pk])) == c.visitedElements
  {
    FinishNodeIds(c.nodes, c.visitedElements, pk);
    FinishDiagramIds(c.nodes, c.visitedDiagrams, d, pk);
    assert Elems(FullIds(c.nodes)) + {} == Elems(FullIds(c.nodes + [pk]));
    ChildrenBeforeAppend(c.nodes, pk);
    AllFaithfulAppend(repo, c.nodes, pk, c.visitedElements);
  }

  /** The main result about one export: the empty case, well-formedness and the package node. */
  lemma GenerateGraphProperties(repo: Repository, pkg: Package)
    ensures |pkg.diagrams| == 0 ==> GenerateGraph(repo, pkg) == Success(Graph([], []))
    ensures GenerateGraph(repo, pkg).Success? ==> WellFormedGraph(repo, GenerateGraph(repo, pkg).value)
    ensures |pkg.diagrams| > 0 && GenerateGraph(repo, pkg).Success? ==> MainDiagramShape(repo, pkg, GenerateGraph(repo, pkg).value)
  {
    if |pkg.diagrams| > 0 && GenerateGraph(repo, pkg).Success? {
      var d := pkg.diagrams[0];
      var c1 := MainStart(d.diagramId);
      StartInv(repo, d.diagramId);
      var r := ExpandPlacements(repo, c1, d.objects, 0, []);
      ExpandPlacementsInv(repo, c1, d.objects, 0, [], {}, {d.diagramId});
      var idx := ExpandPlacementsOrder(repo, c1, d.objects, 0, [], {}, []);
      var c2, elements := r.value.0, r.value.1;
      var pk := PackageNode(pkg.name, [DiagramNode(d.diagramId, d.name, elements)]);
      FinishGraph(repo, c2, d.diagramId, pk);
      var g := GenerateGraph(repo, pkg).value;
      assert g == Graph(c2.nodes + [pk], c2.edges);
      assert g.nodes[|g.nodes| - 1] == pk;
      forall k | 0 <= k < |d.objects| && d.objects[k].elementId in repo.elements
        ensures d.objects[k].elementId in NodeIds(g.nodes)
      {
        assert d.objects[k].elementId in Elems(NodeIds(g.nodes));
      }
      forall k | 0 <= k < |g.nodes| - 1
        ensures !g.nodes[k].PackageNode?
      {
        assert g.nodes[k] == c2.nodes[k];
      }
    }
  }
}
