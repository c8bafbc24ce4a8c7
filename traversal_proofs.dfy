/**
 * What the graph builder guarantees, proved about the functional
 * specification in module Traversal.
 *
 * The central invariant, `Inv`, is stated relative to the elements and
 * diagrams that are "pending": marked visited but not yet in any node, because
 * the element or diagram is still under construction further up the
 * recursion. Every visited element ID is then either the ID of exactly one
 * node or pending, and likewise for diagrams. When the export finishes nothing
 * is pending, so every visited ID is on exactly one node.
 */
module TraversalProofs {
  import opened Fixture
  import opened Graph
  import opened Traversal

  // ---------------------------------------------------------------------
  // Views of the output
  // ---------------------------------------------------------------------

  ghost predicate Distinct<T>(s: seq<T>)
  {
    forall i, j :: 0 <= i < j < |s| ==> s[i] != s[j]
  }

  ghost function Elems<T>(s: seq<T>): set<T>
  {
    set x | x in s
  }

  /** The element ID a node carries, if any (package nodes carry none). */
  function IdsOf(n: Node): seq<ElementId>
  {
    match n
    case PackageNode(_, _) => []
    case ElementNode(id, _, _, _, _, _) => [id]
    case ExternalNode(id, _, _, _, _) => [id]
  }

  /** The element IDs on `ns`, element and external classifier nodes alike. */
  function NodeIds(ns: seq<Node>): seq<ElementId>
  {
    if ns == [] then [] else NodeIds(ns[..|ns| - 1]) + IdsOf(ns[|ns| - 1])
  }

  /** The IDs of the fully processed elements on `ns`. */
  function FullIds(ns: seq<Node>): seq<ElementId>
  {
    if ns == [] then []
    else FullIds(ns[..|ns| - 1]) + (if ns[|ns| - 1].ElementNode? then [ns[|ns| - 1].id] else [])
  }

  /** The diagram records a node owns: a package's main diagram, an element's linked diagrams. */
  function DiagramsOf(n: Node): seq<DiagramNode>
  {
    match n
    case PackageNode(_, ds) => ds
    case ElementNode(_, _, _, _, ds, _) => ds
    case ExternalNode(_, _, _, _, _) => []
  }

  function DiagramNodeIds(ds: seq<DiagramNode>): seq<DiagramId>
  {
    if ds == [] then [] else DiagramNodeIds(ds[..|ds| - 1]) + [ds[|ds| - 1].id]
  }

  /** The IDs of all diagram records owned by the nodes of `ns`, that is, of all expansions. */
  function DiagramIds(ns: seq<Node>): seq<DiagramId>
  {
    if ns == [] then [] else DiagramIds(ns[..|ns| - 1]) + DiagramNodeIds(DiagramsOf(ns[|ns| - 1]))
  }

  function EdgeKeys(es: seq<Edge>): (r: seq<EdgeKey>)
    ensures |r| == |es| && forall i :: 0 <= i < |es| ==> r[i] == KeyOf(es[i])
  {
    if es == [] then [] else EdgeKeys(es[..|es| - 1]) + [KeyOf(es[|es| - 1])]
  }

  // ---------------------------------------------------------------------
  // The invariant
  // ---------------------------------------------------------------------

  /** Every visited element is on exactly one node or pending, never both. */
  ghost predicate NodesInv(ns: seq<Node>, pending: set<ElementId>, visited: set<ElementId>)
  {
    && Distinct(NodeIds(ns))
    && Elems(NodeIds(ns)) !! pending
    && Elems(NodeIds(ns)) + pending == visited
  }

  /** Every visited diagram is owned by exactly one node or pending, never both. */
  ghost predicate DiagramsInv(ns: seq<Node>, pendingDiagrams: set<DiagramId>, visitedDiagrams: set<DiagramId>)
  {
    && Distinct(DiagramIds(ns))
    && Elems(DiagramIds(ns)) !! pendingDiagrams
    && Elems(DiagramIds(ns)) + pendingDiagrams == visitedDiagrams
  }

  /** The textual edge IDs of the keys `ks`. */
  ghost function Texts(ks: seq<EdgeKey>): set<string>
  {
    set k | k in ks :: EdgeIdText(k)
  }

  /** The edge keys are pairwise different, and their textual IDs are exactly the recorded ones. */
  ghost predicate EdgesInv(es: seq<Edge>, edgeSet: set<string>)
  {
    Distinct(EdgeKeys(es)) && Texts(EdgeKeys(es)) == edgeSet
  }

  ghost predicate NoPackageNode(ns: seq<Node>)
  {
    forall k :: 0 <= k < |ns| ==> !ns[k].PackageNode?
  }

  /** Every node listed in `es` is an element node found in `pool`. */
  ghost predicate ElementsIn(es: seq<Node>, pool: seq<Node>)
  {
    forall u :: 0 <= u < |es| ==> es[u].ElementNode? && es[u] in pool
  }

  ghost predicate ListedIn(ds: seq<DiagramNode>, pool: seq<Node>)
  {
    forall t :: 0 <= t < |ds| ==> ElementsIn(ds[t].elements, pool)
  }

  /** The elements on every diagram a node owns are entries of `nodes` placed before that node. */
  ghost predicate ChildrenBefore(ns: seq<Node>)
  {
    forall k :: 0 <= k < |ns| ==> ListedIn(DiagramsOf(ns[k]), ns[..k])
  }

  /** `e` is the edge of a connector owned by one of `owners`. */
  ghost predicate FromConnector(repo: Repository, e: Edge, owners: set<ElementId>)
  {
    exists owner, j :: owner in owners && owner in repo.elements && 0 <= j < |repo.elements[owner].connectors|
                       && ConnectorEdge(repo.elements[owner].connectors[j]) == e
  }

  ghost predicate EdgesFrom(repo: Repository, es: seq<Edge>, owners: set<ElementId>)
  {
    forall k :: 0 <= k < |es| ==> FromConnector(repo, es[k], owners)
  }

  /** Every connector of every element of `owners` has an edge with its key. */
  ghost predicate EdgesComplete(repo: Repository, es: seq<Edge>, owners: set<ElementId>)
  {
    forall owner, j :: owner in owners && owner in repo.elements && 0 <= j < |repo.elements[owner].connectors| ==>
      KeyOf(ConnectorEdge(repo.elements[owner].connectors[j])) in EdgeKeys(es)
  }

  /** Both ends of every edge are elements of the repository. */
  ghost predicate EndsResolve(repo: Repository, es: seq<Edge>)
  {
    forall k :: 0 <= k < |es| ==> es[k].from in repo.elements && es[k].to in repo.elements
  }

  /**
   * The records `rs` are for the diagrams of `ds` at the strictly increasing
   * positions `idx`, each with that diagram's ID and name.
   */
  ghost predicate RecordedAt(rs: seq<DiagramNode>, ds: seq<Diagram>, idx: seq<int>)
  {
    && |idx| == |rs|
    && (forall u :: 0 <= u < |idx| ==> 0 <= idx[u] < |ds| && rs[u].id == ds[idx[u]].diagramId && rs[u].name == ds[idx[u]].name)
    && (forall u, v :: 0 <= u < v < |idx| ==> idx[u] < idx[v])
  }

  /** The records `rs` are for an ordered selection of the diagrams `ds`. */
  ghost predicate SubRecords(rs: seq<DiagramNode>, ds: seq<Diagram>)
  {
    exists idx :: RecordedAt(rs, ds, idx)
  }

  /**
   * A node is a faithful snapshot of its element: for an element node, its
   * linked diagram records are for an ordered selection of the element's
   * diagrams, and the element's classifier, when it has one that resolves,
   * has been visited.
   */
  ghost predicate Faithful(repo: Repository, n: Node, visited: set<ElementId>)
  {
    match n
    case PackageNode(_, _) => true
    case ElementNode(id, name, typ, attributes, linked, _) =>
      && id in repo.elements
      && name == repo.elements[id].name
      && typ == repo.elements[id].typ
      && attributes == AttributeRecords(repo.elements[id].attributes)
      && SubRecords(linked, repo.elements[id].diagrams)
      && (repo.elements[id].classifierId != 0 && repo.elements[id].classifierId in repo.elements
          ==> repo.elements[id].classifierId in visited)
    case ExternalNode(id, name, typ, package, attributes) =>
      && id in repo.elements
      && name == repo.elements[id].name
      && typ == repo.elements[id].typ
      && package == PackageName(repo, repo.elements[id].packageId)
      && attributes == AttributeRecords(repo.elements[id].attributes)
  }

  ghost predicate AllFaithful(repo: Repository, ns: seq<Node>, visited: set<ElementId>)
  {
    forall k :: 0 <= k < |ns| ==> Faithful(repo, ns[k], visited)
  }

  /**
   * The invariant of the traversal state, given the elements and diagrams
   * under construction. Edges may come from pending elements too, because an
   * element adds its edges before its node is appended.
   */
  ghost predicate Inv(repo: Repository, c: Ctx, pending: set<ElementId>, pendingDiagrams: set<DiagramId>)
  {
    && c.visitedElements <= repo.elements.Keys
    && NodesInv(c.nodes, pending, c.visitedElements)
    && DiagramsInv(c.nodes, pendingDiagrams, c.visitedDiagrams)
    && EdgesInv(c.edges, c.edgeSet)
    && NoPackageNode(c.nodes)
    && ChildrenBefore(c.nodes)
    && EdgesFrom(repo, c.edges, Elems(FullIds(c.nodes)) + pending)
    && EndsResolve(repo, c.edges)
    && EdgesComplete(repo, c.edges, Elems(FullIds(c.nodes)))
    && AllFaithful(repo, c.nodes, c.visitedElements)
  }

  // ---------------------------------------------------------------------
  // Helper facts about the views
  // ---------------------------------------------------------------------

  lemma ElemsAppend<T>(a: seq<T>, b: seq<T>)
    ensures Elems(a + b) == Elems(a) + Elems(b)
  {
    assert forall x :: x in a + b <==> x in a || x in b;
  }

  lemma DistinctAppend<T>(a: seq<T>, b: seq<T>)
    requires Distinct(a) && Distinct(b) && Elems(a) !! Elems(b)
    ensures Distinct(a + b)
  {
    forall i, j | 0 <= i < j < |a + b|
      ensures (a + b)[i] != (a + b)[j]
    {
      if j >= |a| && i < |a| {
        assert (a + b)[i] in Elems(a);
        assert (a + b)[j] == b[j - |a|] && b[j - |a|] in Elems(b);
      }
    }
  }

  lemma AppendNode(ns: seq<Node>, n: Node)
    ensures NodeIds(ns + [n]) == NodeIds(ns) + IdsOf(n)
    ensures FullIds(ns + [n]) == FullIds(ns) + (if n.ElementNode? then [n.id] else [])
    ensures DiagramIds(ns + [n]) == DiagramIds(ns) + DiagramNodeIds(DiagramsOf(n))
  {
    assert (ns + [n])[..|ns|] == ns;
  }

  lemma AppendDiagramNode(ds: seq<DiagramNode>, d: DiagramNode)
    ensures DiagramNodeIds(ds + [d]) == DiagramNodeIds(ds) + [d.id]
  {
    assert (ds + [d])[..|ds|] == ds;
  }

  lemma AppendEdge(es: seq<Edge>, e: Edge)
    ensures EdgeKeys(es + [e]) == EdgeKeys(es) + [KeyOf(e)]
  {
    assert (es + [e])[..|es|] == es;
  }

  /** A key whose textual ID is among those of `ks` is itself in `ks`. */
  lemma TextMember(ks: seq<EdgeKey>, k: EdgeKey)
    requires EdgeIdText(k) in Texts(ks)
    ensures k in ks
  {
    var k' :| k' in ks && EdgeIdText(k') == EdgeIdText(k);
    EdgeIdTextInjective(k, k');
  }

  lemma KeysGrow(es: seq<Edge>, es': seq<Edge>, k: EdgeKey)
    requires es <= es' && k in EdgeKeys(es)
    ensures k in EdgeKeys(es')
  {
    var i :| 0 <= i < |es| && EdgeKeys(es)[i] == k;
    assert EdgeKeys(es')[i] == KeyOf(es'[i]) == KeyOf(es[i]);
  }

  lemma EdgesCompleteGrow(repo: Repository, es: seq<Edge>, es': seq<Edge>, owners: set<ElementId>)
    requires es <= es' && EdgesComplete(repo, es, owners)
    ensures EdgesComplete(repo, es', owners)
  {
    forall owner, j | owner in owners && owner in repo.elements && 0 <= j < |repo.elements[owner].connectors|
      ensures KeyOf(ConnectorEdge(repo.elements[owner].connectors[j])) in EdgeKeys(es')
    {
      KeysGrow(es, es', KeyOf(ConnectorEdge(repo.elements[owner].connectors[j])));
    }
  }

  lemma EdgesFromMono(repo: Repository, es: seq<Edge>, owners: set<ElementId>, owners': set<ElementId>)
    requires owners <= owners' && EdgesFrom(repo, es, owners)
    ensures EdgesFrom(repo, es, owners')
  {
    forall k | 0 <= k < |es|
      ensures FromConnector(repo, es[k], owners')
    {
      assert FromConnector(repo, es[k], owners);
      var owner, j :| owner in owners && owner in repo.elements && 0 <= j < |repo.elements[owner].connectors|
                      && ConnectorEdge(repo.elements[owner].connectors[j]) == es[k];
    }
  }

  lemma AllFaithfulMono(repo: Repository, ns: seq<Node>, visited: set<ElementId>, visited': set<ElementId>)
    requires visited <= visited' && AllFaithful(repo, ns, visited)
    ensures AllFaithful(repo, ns, visited')
  {
    forall k | 0 <= k < |ns|
      ensures Faithful(repo, ns[k], visited')
    {
      assert Faithful(repo, ns[k], visited);
    }
  }

  lemma ElementsInGrow(es: seq<Node>, pool: seq<Node>, pool': seq<Node>)
    requires ElementsIn(es, pool) && pool <= pool'
    ensures ElementsIn(es, pool')
  {
    forall u | 0 <= u < |es|
      ensures es[u] in pool'
    {
      var v :| 0 <= v < |pool| && pool[v] == es[u];
      assert pool'[v] == es[u];
    }
  }

  lemma ElementsInSnoc(es: seq<Node>, n: Node, pool: seq<Node>)
    requires ElementsIn(es, pool) && n.ElementNode? && |pool| > 0 && pool[|pool| - 1] == n
    ensures ElementsIn(es + [n], pool)
  {
    forall u | 0 <= u < |es + [n]|
      ensures (es + [n])[u].ElementNode? && (es + [n])[u] in pool
    {
      if u < |es| {
        assert (es + [n])[u] == es[u];
      }
    }
  }

  lemma ListedInGrow(ds: seq<DiagramNode>, pool: seq<Node>, pool': seq<Node>)
    requires ListedIn(ds, pool) && pool <= pool'
    ensures ListedIn(ds, pool')
  {
    forall t | 0 <= t < |ds|
      ensures ElementsIn(ds[t].elements, pool')
    {
      ElementsInGrow(ds[t].elements, pool, pool');
    }
  }

  /** Appending a node whose diagrams list only earlier nodes keeps children before parents. */
  lemma ChildrenBeforeAppend(ns: seq<Node>, n: Node)
    requires ChildrenBefore(ns) && ListedIn(DiagramsOf(n), ns)
    ensures ChildrenBefore(ns + [n])
  {
    var ns' := ns + [n];
    forall k | 0 <= k < |ns'|
      ensures ListedIn(DiagramsOf(ns'[k]), ns'[..k])
    {
      if k < |ns| {
        assert ns'[..k] == ns[..k] && ns'[k] == ns[k];
      } else {
        assert ns'[..k] == ns;
      }
    }
  }

  lemma AllFaithfulAppend(repo: Repository, ns: seq<Node>, n: Node, visited: set<ElementId>)
    requires AllFaithful(repo, ns, visited) && Faithful(repo, n, visited)
    ensures AllFaithful(repo, ns + [n], visited)
  {
    forall k | 0 <= k < |ns + [n]|
      ensures Faithful(repo, (ns + [n])[k], visited)
    {
      if k < |ns| {
        assert (ns + [n])[k] == ns[k];
      }
    }
  }

  // ---------------------------------------------------------------------
  // Single steps preserve the invariant
  // ---------------------------------------------------------------------

  /** Marking an element visited (line 97) makes it pending. */
  lemma MarkElementInv(repo: Repository, c: Ctx, id: ElementId, pending: set<ElementId>, pendingDiagrams: set<DiagramId>)
    requires Inv(repo, c, pending, pendingDiagrams)
    requires id in repo.elements && id !in c.visitedElements
    ensures Inv(repo, c.(visitedElements := c.visitedElements + {id}), pending + {id}, pendingDiagrams)
  {
    var c' := c.(visitedElements := c.visitedElements + {id});
    EdgesFromMono(repo, c.edges, Elems(FullIds(c.nodes)) + pending, Elems(FullIds(c.nodes)) + (pending + {id}));
    AllFaithfulMono(repo, c.nodes, c.visitedElements, c'.visitedElements);
  }

  /** Marking a diagram visited (lines 71, 162) makes it pending. */
  lemma MarkDiagramInv(repo: Repository, c: Ctx, d: DiagramId, pending: set<ElementId>, pendingDiagrams: set<DiagramId>)
    requires Inv(repo, c, pending, pendingDiagrams)
    requires d !in c.visitedDiagrams
    ensures Inv(repo, c.(visitedDiagrams := c.visitedDiagrams + {d}), pending, pendingDiagrams + {d})
  {
  }

  lemma ExternalClassifierInv(repo: Repository, c: Ctx, classifierId: ElementId,
                              pending: set<ElementId>, pendingDiagrams: set<DiagramId>)
    requires Inv(repo, c, pending, pendingDiagrams)
    ensures Inv(repo, ExternalClassifier(repo, c, classifierId), pending, pendingDiagrams)
  {
    if classifierId in repo.elements && classifierId !in c.visitedElements {
      var c' := ExternalClassifier(repo, c, classifierId);
      var node := c'.nodes[|c'.nodes| - 1];
      assert c'.nodes == c.nodes + [node];
      AppendNode(c.nodes, node);
      assert classifierId !in Elems(NodeIds(c.nodes));
      DistinctAppend(NodeIds(c.nodes), [classifierId]);
      ElemsAppend(NodeIds(c.nodes), [classifierId]);
      assert DiagramIds(c'.nodes) == DiagramIds(c.nodes) by {
        assert DiagramNodeIds([]) == [];
      }
      ChildrenBeforeAppend(c.nodes, node);
      AllFaithfulMono(repo, c.nodes, c.visitedElements, c'.visitedElements);
      AllFaithfulAppend(repo, c.nodes, node, c'.visitedElements);
    }
  }

  /**
   * The conjuncts of the invariant about the edges, for edges owned by
   * `owners` and with every connector of `complete` present.
   */
  ghost predicate EdgesPart(repo: Repository, es: seq<Edge>, edgeSet: set<string>, owners: set<ElementId>, complete: set<ElementId>)
  {
    && EdgesInv(es, edgeSet)
    && EdgesFrom(repo, es, owners)
    && EndsResolve(repo, es)
    && EdgesComplete(repo, es, complete)
  }

  /** Changing only the edges keeps the invariant when the edge conjuncts still hold. */
  lemma EdgesOnlyInv(repo: Repository, c: Ctx, c': Ctx, pending: set<ElementId>, pendingDiagrams: set<DiagramId>)
    requires Inv(repo, c, pending, pendingDiagrams)
    requires c'.nodes == c.nodes && c'.visitedElements == c.visitedElements && c'.visitedDiagrams == c.visitedDiagrams
    requires EdgesPart(repo, c'.edges, c'.edgeSet, Elems(FullIds(c.nodes)) + pending, Elems(FullIds(c.nodes)))
    ensures Inv(repo, c', pending, pendingDiagrams)
  {
  }

  /** Appending the edge of connector `j` of `owner` (lines 184-192) keeps the edge conjuncts. */
  lemma AddEdgeInv(repo: Repository, c: Ctx, owner: ElementId, j: nat, owners: set<ElementId>, complete: set<ElementId>)
    requires owner in owners && owner in repo.elements && j < |repo.elements[owner].connectors|
    requires EdgesPart(repo, c.edges, c.edgeSet, owners, complete)
    requires EdgeIdText(KeyOf(ConnectorEdge(repo.elements[owner].connectors[j]))) !in c.edgeSet
    requires var conn := repo.elements[owner].connectors[j];
             conn.clientId in repo.elements && conn.supplierId in repo.elements
    ensures var edge := ConnectorEdge(repo.elements[owner].connectors[j]);
            EdgesPart(repo, c.edges + [edge], c.edgeSet + {EdgeIdText(KeyOf(edge))}, owners, complete)
  {
    var edge := ConnectorEdge(repo.elements[owner].connectors[j]);
    var key := KeyOf(edge);
    var es' := c.edges + [edge];
    AppendEdge(c.edges, edge);
    assert key !in Elems(EdgeKeys(c.edges));
    DistinctAppend(EdgeKeys(c.edges), [key]);
    assert Texts(EdgeKeys(es')) == Texts(EdgeKeys(c.edges)) + {EdgeIdText(key)};
    EdgesCompleteGrow(repo, c.edges, es', complete);
    assert FromConnector(repo, edge, owners);
    forall k | 0 <= k < |es'|
      ensures FromConnector(repo, es'[k], owners)
      ensures es'[k].from in repo.elements && es'[k].to in repo.elements
    {
      if k < |c.edges| {
        assert es'[k] == c.edges[k];
      }
    }
  }

  /** The keys of the first `j + 1` connectors are present once connector `j`'s key is. */
  lemma ConnectorKeysExtend(es: seq<Edge>, es': seq<Edge>, conns: seq<Connector>, j: nat)
    requires j < |conns| && es <= es'
    requires forall k :: 0 <= k < j ==> KeyOf(ConnectorEdge(conns[k])) in EdgeKeys(es)
    requires KeyOf(ConnectorEdge(conns[j])) in EdgeKeys(es')
    ensures forall k :: 0 <= k < j + 1 ==> KeyOf(ConnectorEdge(conns[k])) in EdgeKeys(es')
  {
    forall k | 0 <= k < j
      ensures KeyOf(ConnectorEdge(conns[k])) in EdgeKeys(es')
    {
      KeysGrow(es, es', KeyOf(ConnectorEdge(conns[k])));
    }
  }

  /** The state after connector `conn` has been handled, when both of its ends resolve. */
  function EdgeStep(c: Ctx, conn: Connector): Ctx
  {
    var key := EdgeIdText((conn.clientId, conn.supplierId, conn.typ));
    if key !in c.edgeSet then
      c.(edges := c.edges + [Edge(conn.clientId, conn.supplierId, conn.typ, conn.name)], edgeSet := c.edgeSet + {key})
    else
      c
  }

  /** Handling connector `j`, whose ends resolve, keeps the edge conjuncts. */
  lemma EdgeStepInv(repo: Repository, c: Ctx, owner: ElementId, conns: seq<Connector>, j: nat,
                    owners: set<ElementId>, complete: set<ElementId>)
    requires owner in owners && owner in repo.elements && conns == repo.elements[owner].connectors && j < |conns|
    requires conns[j].clientId in repo.elements && conns[j].supplierId in repo.elements
    requires EdgesPart(repo, c.edges, c.edgeSet, owners, complete)
    ensures var c' := EdgeStep(c, conns[j]);
            EdgesPart(repo, c'.edges, c'.edgeSet, owners, complete)
  {
    var conn := conns[j];
    assert (conn.clientId, conn.supplierId, conn.typ) == KeyOf(ConnectorEdge(conn));
    if EdgeIdText(KeyOf(ConnectorEdge(conn))) !in c.edgeSet {
      AddEdgeInv(repo, c, owner, j, owners, complete);
    }
  }

  /**
   * Handling connector `j` keeps the edge keys distinct and in step with the
   * edge IDs, and makes connector `j`'s key present.
   */
  lemma EdgeStepKeys(c: Ctx, conns: seq<Connector>, j: nat)
    requires j < |conns| && EdgesInv(c.edges, c.edgeSet)
    requires forall k :: 0 <= k < j ==> KeyOf(ConnectorEdge(conns[k])) in EdgeKeys(c.edges)
    ensures var c' := EdgeStep(c, conns[j]);
            && EdgesInv(c'.edges, c'.edgeSet)
            && forall k :: 0 <= k < j + 1 ==> KeyOf(ConnectorEdge(conns[k])) in EdgeKeys(c'.edges)
  {
    var edge := ConnectorEdge(conns[j]);
    var key := KeyOf(edge);
    assert (conns[j].clientId, conns[j].supplierId, conns[j].typ) == key;
    if EdgeIdText(key) !in c.edgeSet {
      AppendEdge(c.edges, edge);
      assert key !in Elems(EdgeKeys(c.edges));
      DistinctAppend(EdgeKeys(c.edges), [key]);
      assert Texts(EdgeKeys(c.edges + [edge])) == Texts(EdgeKeys(c.edges)) + {EdgeIdText(key)};
      ConnectorKeysExtend(c.edges, c.edges + [edge], conns, j);
    } else {
      TextMember(EdgeKeys(c.edges), key);
      ConnectorKeysExtend(c.edges, c.edges, conns, j);
    }
  }

  /** `add_edges_from_element` keeps the edge conjuncts of the invariant. */
  lemma {:induction false} AddEdgesInv(repo: Repository, c: Ctx, owner: ElementId, conns: seq<Connector>, j: nat, c': Ctx,
                                       owners: set<ElementId>, complete: set<ElementId>)
    requires j <= |conns| && AddEdges(repo, c, owner, conns, j) == Success(c')
    requires owner in owners && owner in repo.elements && conns == repo.elements[owner].connectors
    requires EdgesPart(repo, c.edges, c.edgeSet, owners, complete)
    ensures EdgesPart(repo, c'.edges, c'.edgeSet, owners, complete)
    decreases |conns| - j
  {
    if j < |conns| {
      AddEdgesUnfold(repo, c, owner, conns, j, c');
      EdgeStepInv(repo, c, owner, conns, j, owners, complete);
      AddEdgesInv(repo, EdgeStep(c, conns[j]), owner, conns, j + 1, c', owners, complete);
    } else {
      assert c' == c;
    }
  }

  /**
   * `add_edges_from_element` leaves an edge with the key of every connector:
   * a connector is skipped only when an edge with the same textual ID, hence
   * the same key, is already present.
   */
  lemma {:induction false} AddEdgesKeys(repo: Repository, c: Ctx, owner: ElementId, conns: seq<Connector>, j: nat, c': Ctx)
    requires j <= |conns| && AddEdges(repo, c, owner, conns, j) == Success(c')
    requires EdgesInv(c.edges, c.edgeSet)
    requires forall k :: 0 <= k < j ==> KeyOf(ConnectorEdge(conns[k])) in EdgeKeys(c.edges)
    ensures forall k :: 0 <= k < |conns| ==> KeyOf(ConnectorEdge(conns[k])) in EdgeKeys(c'.edges)
    decreases |conns| - j
  {
    if j < |conns| {
      AddEdgesUnfold(repo, c, owner, conns, j, c');
      EdgeStepKeys(c, conns, j);
      AddEdgesKeys(repo, EdgeStep(c, conns[j]), owner, conns, j + 1, c');
    }
  }

  /** One step of `add_edges_from_element` that does not stop the export. */
  lemma AddEdgesUnfold(repo: Repository, c: Ctx, owner: ElementId, conns: seq<Connector>, j: nat, c': Ctx)
    requires j < |conns| && AddEdges(repo, c, owner, conns, j) == Success(c')
    ensures conns[j].clientId in repo.elements && conns[j].supplierId in repo.elements
    ensures AddEdges(repo, EdgeStep(c, conns[j]), owner, conns, j + 1) == Success(c')
  {
  }

  /**
   * Appending a finished element node (line 128): its ID stops being
   * pending, and so do the diagrams it lists.
   */
  lemma AppendElementInv(repo: Repository, c: Ctx, node: Node, pool: seq<Node>, pending: set<ElementId>, pendingDiagrams: set<DiagramId>)
    requires node.ElementNode? && node.id !in pending
    requires Inv(repo, c, pending + {node.id}, pendingDiagrams + Elems(DiagramNodeIds(node.linkedDiagrams)))
    requires Distinct(DiagramNodeIds(node.linkedDiagrams))
    requires Elems(DiagramNodeIds(node.linkedDiagrams)) !! pendingDiagrams
    requires ListedIn(node.linkedDiagrams, pool) && pool <= c.nodes
    requires Faithful(repo, node, c.visitedElements)
    requires forall k :: 0 <= k < |repo.elements[node.id].connectors| ==>
               KeyOf(ConnectorEdge(repo.elements[node.id].connectors[k])) in EdgeKeys(c.edges)
    ensures Inv(repo, c.(nodes := c.nodes + [node], processed := c.processed[node.id := node]), pending, pendingDiagrams)
  {
    AppendElementIds(c.nodes, node, pending, c.visitedElements);
    AppendElementComplete(repo, c.nodes, c.edges, node);
    AppendElementDiagrams(c.nodes, node, pendingDiagrams, c.visitedDiagrams);
    AppendElementEdges(repo, c.nodes, c.edges, node, pending);
    ListedInGrow(node.linkedDiagrams, pool, c.nodes);
    ChildrenBeforeAppend(c.nodes, node);
    AllFaithfulAppend(repo, c.nodes, node, c.visitedElements);
  }

  lemma AppendElementComplete(repo: Repository, ns: seq<Node>, es: seq<Edge>, node: Node)
    requires node.ElementNode? && node.id in repo.elements
    requires EdgesComplete(repo, es, Elems(FullIds(ns)))
    requires forall k :: 0 <= k < |repo.elements[node.id].connectors| ==>
               KeyOf(ConnectorEdge(repo.elements[node.id].connectors[k])) in EdgeKeys(es)
    ensures EdgesComplete(repo, es, Elems(FullIds(ns + [node])))
  {
    AppendNode(ns, node);
    ElemsAppend(FullIds(ns), [node.id]);
  }

  lemma AppendElementIds(ns: seq<Node>, node: Node, pending: set<ElementId>, visited: set<ElementId>)
    requires node.ElementNode? && node.id !in pending
    requires NodesInv(ns, pending + {node.id}, visited)
    ensures NodesInv(ns + [node], pending, visited)
  {
    AppendNode(ns, node);
    DistinctAppend(NodeIds(ns), [node.id]);
    ElemsAppend(NodeIds(ns), [node.id]);
  }

  lemma AppendElementDiagrams(ns: seq<Node>, node: Node, pendingDiagrams: set<DiagramId>, visitedDiagrams: set<DiagramId>)
    requires node.ElementNode?
    requires DiagramsInv(ns, pendingDiagrams + Elems(DiagramNodeIds(node.linkedDiagrams)), visitedDiagrams)
    requires Distinct(DiagramNodeIds(node.linkedDiagrams))
    requires Elems(DiagramNodeIds(node.linkedDiagrams)) !! pendingDiagrams
    ensures DiagramsInv(ns + [node], pendingDiagrams, visitedDiagrams)
  {
    var linkedIds := DiagramNodeIds(node.linkedDiagrams);
    AppendNode(ns, node);
    DistinctAppend(DiagramIds(ns), linkedIds);
    ElemsAppend(DiagramIds(ns), linkedIds);
  }

  lemma AppendElementEdges(repo: Repository, ns: seq<Node>, es: seq<Edge>, node: Node, pending: set<ElementId>)
    requires node.ElementNode?
    requires EdgesFrom(repo, es, Elems(FullIds(ns)) + (pending + {node.id}))
    ensures EdgesFrom(repo, es, Elems(FullIds(ns + [node])) + pending)
  {
    AppendNode(ns, node);
    ElemsAppend(FullIds(ns), [node.id]);
    assert Elems(FullIds(ns + [node])) + pending == Elems(FullIds(ns)) + (pending + {node.id});
  }

  // ---------------------------------------------------------------------
  // The traversal preserves the invariant
  // ---------------------------------------------------------------------

  /** The shape of a freshly processed element's node and where it lands in `nodes`. */
  lemma ProcessElementShape(repo: Repository, c: Ctx, id: ElementId, pos: Option<Position>)
    requires id in repo.elements && id !in c.visitedElements
    requires ProcessElement(repo, c, id, pos).Success?
    ensures var (c', n) := ProcessElement(repo, c, id, pos).value;
            var element := repo.elements[id];
            && n.Some? && n.value.ElementNode?
            && n.value.id == id && n.value.name == element.name && n.value.typ == element.typ
            && n.value.attributes == AttributeRecords(element.attributes)
            && n.value.position == pos
            && |c'.nodes| > |c.nodes| && c'.nodes[|c'.nodes| - 1] == n.value
            && id in c'.visitedElements && id in c'.processed && c'.processed[id] == n.value
            && (element.classifierId != 0 && element.classifierId in repo.elements
                && element.classifierId !in c.visitedElements + {id}
                ==> c'.nodes[|c.nodes|].ExternalNode? && c'.nodes[|c.nodes|].id == element.classifierId)
  {
    var element := repo.elements[id];
    var c1 := c.(visitedElements := c.visitedElements + {id});
    var c2 := if element.classifierId != 0 then ExternalClassifier(repo, c1, element.classifierId) else c1;
    var c3 := LinkedDiagrams(repo, c2, element.diagrams, 0, []).value.0;
    var c4 := AddEdges(repo, c3, id, element.connectors, 0).value;
    if element.classifierId != 0 && element.classifierId in repo.elements && element.classifierId !in c1.visitedElements {
      assert c2.nodes[|c.nodes|].ExternalNode? && c2.nodes[|c.nodes|].id == element.classifierId;
      assert c2.nodes <= c4.nodes;
    }
  }

  /** Marking an element and adding its classifier (lines 97-110) keep the invariant, with the element pending. */
  lemma ElementPrefixInv(repo: Repository, c: Ctx, id: ElementId, pending: set<ElementId>, pendingDiagrams: set<DiagramId>)
    requires id in repo.elements && id !in c.visitedElements
    requires Inv(repo, c, pending, pendingDiagrams)
    ensures var element := repo.elements[id];
            var c1 := c.(visitedElements := c.visitedElements + {id});
            var c2 := if element.classifierId != 0 then ExternalClassifier(repo, c1, element.classifierId) else c1;
            && Inv(repo, c2, pending + {id}, pendingDiagrams)
            && (element.classifierId != 0 && element.classifierId in repo.elements ==> element.classifierId in c2.visitedElements)
  {
    var element := repo.elements[id];
    var c1 := c.(visitedElements := c.visitedElements + {id});
    MarkElementInv(repo, c, id, pending, pendingDiagrams);
    if element.classifierId != 0 {
      ExternalClassifierInv(repo, c1, element.classifierId, pending + {id}, pendingDiagrams);
    }
  }

  lemma {:induction false} ProcessElementInv(repo: Repository, c: Ctx, id: ElementId, pos: Option<Position>,
                                             pending: set<ElementId>, pendingDiagrams: set<DiagramId>)
    requires id in repo.elements
    requires Inv(repo, c, pending, pendingDiagrams)
    requires ProcessElement(repo, c, id, pos).Success?
    ensures Inv(repo, ProcessElement(repo, c, id, pos).value.0, pending, pendingDiagrams)
    decreases repo.elements.Keys - c.visitedElements, 0, 1
  {
    if id !in c.visitedElements {
      ElementPrefixInv(repo, c, id, pending, pendingDiagrams);
      ElementRestInv(repo, c, id, pos, pending, pendingDiagrams);
    }
  }

  /** What follows the classifier (lines 157-196 and 120-130) keeps the invariant and clears the pending element. */
  lemma {:induction false} ElementRestInv(repo: Repository, c: Ctx, id: ElementId, pos: Option<Position>,
                                          pending: set<ElementId>, pendingDiagrams: set<DiagramId>)
    requires id in repo.elements && id !in c.visitedElements && id !in pending
    requires var element := repo.elements[id];
             var c1 := c.(visitedElements := c.visitedElements + {id});
             var c2 := if element.classifierId != 0 then ExternalClassifier(repo, c1, element.classifierId) else c1;
             && Inv(repo, c2, pending + {id}, pendingDiagrams)
             && (element.classifierId != 0 && element.classifierId in repo.elements ==> element.classifierId in c2.visitedElements)
    requires ProcessElement(repo, c, id, pos).Success?
    ensures Inv(repo, ProcessElement(repo, c, id, pos).value.0, pending, pendingDiagrams)
    decreases repo.elements.Keys - c.visitedElements, 0, 0
  {
    var element := repo.elements[id];
    var c1 := c.(visitedElements := c.visitedElements + {id});
    var c2 := if element.classifierId != 0 then ExternalClassifier(repo, c1, element.classifierId) else c1;
    assert id in repo.elements.Keys - c.visitedElements;
    var r3 := LinkedDiagrams(repo, c2, element.diagrams, 0, []);
    assert Elems(DiagramNodeIds([])) == {};
    LinkedDiagramsInv(repo, c2, element.diagrams, 0, [], pending + {id}, pendingDiagrams);
    LinkedRecords(repo, c2, element.diagrams);
    FinishElementInv(repo, r3.value.0, id, r3.value.1, pos, pending, pendingDiagrams);
  }

  /** Adding an element's edges and then its node (lines 120-130) keeps the invariant. */
  lemma FinishElementInv(repo: Repository, c: Ctx, id: ElementId, linked: seq<DiagramNode>, pos: Option<Position>,
                         pending: set<ElementId>, pendingDiagrams: set<DiagramId>)
    requires id in repo.elements && id !in pending
    requires Inv(repo, c, pending + {id}, pendingDiagrams + Elems(DiagramNodeIds(linked)))
    requires Distinct(DiagramNodeIds(linked)) && Elems(DiagramNodeIds(linked)) !! pendingDiagrams
    requires ListedIn(linked, c.nodes) && SubRecords(linked, repo.elements[id].diagrams)
    requires var classifierId := repo.elements[id].classifierId;
             classifierId != 0 && classifierId in repo.elements ==> classifierId in c.visitedElements
    requires AddEdges(repo, c, id, repo.elements[id].connectors, 0).Success?
    ensures var element := repo.elements[id];
            var c' := AddEdges(repo, c, id, element.connectors, 0).value;
            var node := ElementNode(id, element.name, element.typ, AttributeRecords(element.attributes), linked, pos);
            Inv(repo, c'.(nodes := c'.nodes + [node], processed := c'.processed[id := node]), pending, pendingDiagrams)
  {
    var element := repo.elements[id];
    var c' := AddEdges(repo, c, id, element.connectors, 0).value;
    var full := Elems(FullIds(c.nodes));
    AddEdgesInv(repo, c, id, element.connectors, 0, c', full + (pending + {id}), full);
    EdgesOnlyInv(repo, c, c', pending + {id}, pendingDiagrams + Elems(DiagramNodeIds(linked)));
    AddEdgesKeys(repo, c, id, element.connectors, 0, c');
    var node := ElementNode(id, element.name, element.typ, AttributeRecords(element.attributes), linked, pos);
    AppendElementInv(repo, c', node, c.nodes, pending, pendingDiagrams);
  }

  /** Processing a fresh placed element keeps the invariant and adds an element node of `nodes` to `acc`. */
  lemma {:induction false} PlacementInv(repo: Repository, c: Ctx, id: ElementId, pos: Option<Position>, acc: seq<Node>,
                                        pending: set<ElementId>, pendingDiagrams: set<DiagramId>)
    requires id in repo.elements && id !in c.visitedElements
    requires Inv(repo, c, pending, pendingDiagrams) && ElementsIn(acc, c.nodes)
    requires ProcessElement(repo, c, id, pos).Success?
    ensures var (c', n) := ProcessElement(repo, c, id, pos).value;
            && n.Some?
            && Inv(repo, c', pending, pendingDiagrams)
            && ElementsIn(acc + [n.value], c'.nodes)
    decreases repo.elements.Keys - c.visitedElements, 0, 2
  {
    var r := ProcessElement(repo, c, id, pos);
    ProcessElementInv(repo, c, id, pos, pending, pendingDiagrams);
    ProcessElementShape(repo, c, id, pos);
    var c', node := r.value.0, r.value.1;
    ElementsInGrow(acc, c.nodes, c'.nodes);
    ElementsInSnoc(acc, node.value, c'.nodes);
  }

  lemma {:induction false} ExpandPlacementsInv(repo: Repository, c: Ctx, objs: seq<DiagramObject>, i: nat, acc: seq<Node>,
                                               pending: set<ElementId>, pendingDiagrams: set<DiagramId>)
    requires i <= |objs|
    requires Inv(repo, c, pending, pendingDiagrams) && ElementsIn(acc, c.nodes)
    requires ExpandPlacements(repo, c, objs, i, acc).Success?
    ensures var (c', acc') := ExpandPlacements(repo, c, objs, i, acc).value;
            Inv(repo, c', pending, pendingDiagrams) && ElementsIn(acc', c'.nodes)
    decreases repo.elements.Keys - c.visitedElements, 1, |objs| - i
  {
    if i < |objs| {
      var obj := objs[i];
      if obj.elementId in repo.elements && obj.elementId !in c.visitedElements {
        var r := ProcessElement(repo, c, obj.elementId, Some(obj.geometry));
        PlacementInv(repo, c, obj.elementId, Some(obj.geometry), acc, pending, pendingDiagrams);
        ExpandPlacementsInv(repo, r.value.0, objs, i + 1, acc + [r.value.1.value], pending, pendingDiagrams);
      } else {
        ExpandPlacementsInv(repo, c, objs, i + 1, acc, pending, pendingDiagrams);
      }
    }
  }

  /**
   * Recording an expanded diagram `dn` among an element's linked diagrams
   * (line 174): `c` is the state before the diagram was marked, `c'` the
   * state after its placements were expanded.
   */
  lemma RecordDiagramInv(repo: Repository, c: Ctx, c': Ctx, acc: seq<DiagramNode>, dn: DiagramNode,
                         pending: set<ElementId>, pendingDiagrams: set<DiagramId>)
    requires Inv(repo, c, pending, pendingDiagrams + Elems(DiagramNodeIds(acc)))
    requires Distinct(DiagramNodeIds(acc)) && Elems(DiagramNodeIds(acc)) !! pendingDiagrams
    requires dn.id !in c.visitedDiagrams
    requires ListedIn(acc, c.nodes) && c.nodes <= c'.nodes
    requires Inv(repo, c', pending, pendingDiagrams + Elems(DiagramNodeIds(acc)) + {dn.id})
    requires ElementsIn(dn.elements, c'.nodes)
    ensures Inv(repo, c', pending, pendingDiagrams + Elems(DiagramNodeIds(acc + [dn])))
    ensures Distinct(DiagramNodeIds(acc + [dn])) && Elems(DiagramNodeIds(acc + [dn])) !! pendingDiagrams
    ensures ListedIn(acc + [dn], c'.nodes)
  {
    var accIds := DiagramNodeIds(acc);
    AppendDiagramNode(acc, dn);
    DistinctAppend(accIds, [dn.id]);
    ElemsAppend(accIds, [dn.id]);
    assert pendingDiagrams + Elems(accIds) + {dn.id} == pendingDiagrams + Elems(DiagramNodeIds(acc + [dn]));
    ListedInGrow(acc, c.nodes, c'.nodes);
    forall t | 0 <= t < |acc + [dn]|
      ensures ElementsIn((acc + [dn])[t].elements, c'.nodes)
    {
      if t < |acc| {
        assert (acc + [dn])[t] == acc[t];
      }
    }
  }

  lemma {:induction false} LinkedDiagramsInv(repo: Repository, c: Ctx, ds: seq<Diagram>, j: nat, acc: seq<DiagramNode>,
                                             pending: set<ElementId>, pendingDiagrams: set<DiagramId>)
    requires j <= |ds|
    requires Inv(repo, c, pending, pendingDiagrams + Elems(DiagramNodeIds(acc)))
    requires Distinct(DiagramNodeIds(acc)) && Elems(DiagramNodeIds(acc)) !! pendingDiagrams
    requires ListedIn(acc, c.nodes)
    requires LinkedDiagrams(repo, c, ds, j, acc).Success?
    ensures var (c', acc') := LinkedDiagrams(repo, c, ds, j, acc).value;
            && Inv(repo, c', pending, pendingDiagrams + Elems(DiagramNodeIds(acc')))
            && Distinct(DiagramNodeIds(acc')) && Elems(DiagramNodeIds(acc')) !! pendingDiagrams
            && ListedIn(acc', c'.nodes)
    decreases repo.elements.Keys - c.visitedElements, 2, |ds| - j
  {
    if j < |ds| {
      var d := ds[j];
      if d.diagramId in c.visitedDiagrams {
        LinkedDiagramsInv(repo, c, ds, j + 1, acc, pending, pendingDiagrams);
      } else {
        var accIds := DiagramNodeIds(acc);
        var c1 := c.(visitedDiagrams := c.visitedDiagrams + {d.diagramId});
        MarkDiagramInv(repo, c, d.diagramId, pending, pendingDiagrams + Elems(accIds));
        var r := ExpandPlacements(repo, c1, d.objects, 0, []);
        ExpandPlacementsInv(repo, c1, d.objects, 0, [], pending, pendingDiagrams + Elems(accIds) + {d.diagramId});
        var c2, elements := r.value.0, r.value.1;
        var dn := DiagramNode(d.diagramId, d.name, elements);
        RecordDiagramInv(repo, c, c2, acc, dn, pending, pendingDiagrams);
        LinkedDiagramsInv(repo, c2, ds, j + 1, acc + [dn], pending, pendingDiagrams);
      }
    }
  }

  // ---------------------------------------------------------------------
  // Which linked diagrams are recorded
  // ---------------------------------------------------------------------

  /** The linked-diagram loop's result when it reaches diagram `k`: the loop run on the diagrams before `k`. */
  function ReachedDiagram(repo: Repository, c: Ctx, ds: seq<Diagram>, j: nat, acc: seq<DiagramNode>, k: nat)
    : Result<(Ctx, seq<DiagramNode>)>
    requires j <= k <= |ds|
  {
    LinkedDiagrams(repo, c, ds[..k], j, acc)
  }

  /**
   * From diagram `j` on, diagram `k` is recorded, at a position of `idx`,
   * exactly when it had not been visited when the loop reached it.
   */
  ghost predicate RecordsExactly(repo: Repository, c: Ctx, ds: seq<Diagram>, j: nat, acc: seq<DiagramNode>, idx: seq<int>)
    requires j <= |ds|
  {
    forall k :: j <= k < |ds| ==>
      && ReachedDiagram(repo, c, ds, j, acc, k).Success?
      && (k in idx <==> ds[k].diagramId !in ReachedDiagram(repo, c, ds, j, acc, k).value.0.visitedDiagrams)
  }

  lemma RecordedAtSnoc(rs: seq<DiagramNode>, ds: seq<Diagram>, idx: seq<int>, r: DiagramNode, j: nat)
    requires RecordedAt(rs, ds, idx) && forall u :: 0 <= u < |idx| ==> idx[u] < j
    requires j < |ds| && r.id == ds[j].diagramId && r.name == ds[j].name
    ensures RecordedAt(rs + [r], ds, idx + [j])
  {
    var rs', idx' := rs + [r], idx + [j];
    forall u | 0 <= u < |idx'|
      ensures 0 <= idx'[u] < |ds| && rs'[u].id == ds[idx'[u]].diagramId && rs'[u].name == ds[idx'[u]].name
    {
      if u < |idx| {
        assert idx'[u] == idx[u] && rs'[u] == rs[u];
      }
    }
  }

  /**
   * `process_linked_diagrams` records, in order, exactly the diagrams of the
   * element that are not yet visited when the loop reaches them, each with
   * its ID and name.
   */
  lemma {:induction false} LinkedDiagramsOrder(repo: Repository, c: Ctx, ds: seq<Diagram>, j: nat, acc: seq<DiagramNode>,
                                               idx0: seq<int>)
    returns (idx: seq<int>)
    requires j <= |ds| && RecordedAt(acc, ds, idx0) && forall u :: 0 <= u < |idx0| ==> idx0[u] < j
    requires LinkedDiagrams(repo, c, ds, j, acc).Success?
    ensures RecordedAt(LinkedDiagrams(repo, c, ds, j, acc).value.1, ds, idx)
    ensures idx0 <= idx && forall u :: |idx0| <= u < |idx| ==> j <= idx[u]
    ensures RecordsExactly(repo, c, ds, j, acc, idx)
    decreases |ds| - j, 1
  {
    if j == |ds| {
      idx := idx0;
    } else if ds[j].diagramId in c.visitedDiagrams {
      idx := LinkedSkipStep(repo, c, ds, j, acc, idx0);
    } else {
      idx := LinkedRecordStep(repo, c, ds, j, acc, idx0);
    }
  }

  /** Diagram `j` was visited before: it is skipped and not recorded. */
  lemma {:induction false} LinkedSkipStep(repo: Repository, c: Ctx, ds: seq<Diagram>, j: nat, acc: seq<DiagramNode>,
                                          idx0: seq<int>)
    returns (idx: seq<int>)
    requires j < |ds| && RecordedAt(acc, ds, idx0) && forall u :: 0 <= u < |idx0| ==> idx0[u] < j
    requires ds[j].diagramId in c.visitedDiagrams
    requires LinkedDiagrams(repo, c, ds, j, acc).Success?
    ensures RecordedAt(LinkedDiagrams(repo, c, ds, j, acc).value.1, ds, idx)
    ensures idx0 <= idx && forall u :: |idx0| <= u < |idx| ==> j <= idx[u]
    ensures RecordsExactly(repo, c, ds, j, acc, idx)
    decreases |ds| - j, 0
  {
    idx := LinkedDiagramsOrder(repo, c, ds, j + 1, acc, idx0);
    forall k | j <= k < |ds|
      ensures ReachedDiagram(repo, c, ds, j, acc, k).Success?
      ensures k in idx <==> ds[k].diagramId !in ReachedDiagram(repo, c, ds, j, acc, k).value.0.visitedDiagrams
    {
      if k == j {
        assert ReachedDiagram(repo, c, ds, j, acc, k) == Success((c, acc));
        forall u | 0 <= u < |idx|
          ensures idx[u] != j
        {
          if u < |idx0| {
            assert idx[u] == idx0[u];
          }
        }
      } else {
        assert ds[..k][j] == ds[j];
        assert ReachedDiagram(repo, c, ds, j, acc, k) == ReachedDiagram(repo, c, ds, j + 1, acc, k);
      }
    }
  }

  /** Diagram `j` is new: it is marked, expanded and recorded. */
  lemma {:induction false} LinkedRecordStep(repo: Repository, c: Ctx, ds: seq<Diagram>, j: nat, acc: seq<DiagramNode>,
                                            idx0: seq<int>)
    returns (idx: seq<int>)
    requires j < |ds| && RecordedAt(acc, ds, idx0) && forall u :: 0 <= u < |idx0| ==> idx0[u] < j
    requires ds[j].diagramId !in c.visitedDiagrams
    requires LinkedDiagrams(repo, c, ds, j, acc).Success?
    ensures RecordedAt(LinkedDiagrams(repo, c, ds, j, acc).value.1, ds, idx)
    ensures idx0 <= idx && forall u :: |idx0| <= u < |idx| ==> j <= idx[u]
    ensures RecordsExactly(repo, c, ds, j, acc, idx)
    decreases |ds| - j, 0
  {
    var d := ds[j];
    var c1 := c.(visitedDiagrams := c.visitedDiagrams + {d.diagramId});
    var r := ExpandPlacements(repo, c1, d.objects, 0, []);
    var dn := DiagramNode(d.diagramId, d.name, r.value.1);
    RecordedAtSnoc(acc, ds, idx0, dn, j);
    idx := LinkedDiagramsOrder(repo, r.value.0, ds, j + 1, acc + [dn], idx0 + [j]);
    assert idx[|idx0|] == j;
    assert idx0 <= idx by {
      assert idx[..|idx0|] == (idx0 + [j])[..|idx0|];
    }
    forall k | j <= k < |ds|
      ensures ReachedDiagram(repo, c, ds, j, acc, k).Success?
      ensures k in idx <==> ds[k].diagramId !in ReachedDiagram(repo, c, ds, j, acc, k).value.0.visitedDiagrams
    {
      if k == j {
        assert ReachedDiagram(repo, c, ds, j, acc, k) == Success((c, acc));
      } else {
        assert ds[..k][j] == ds[j];
        assert ReachedDiagram(repo, c, ds, j, acc, k) == ReachedDiagram(repo, r.value.0, ds, j + 1, acc + [dn], k);
      }
    }
  }

  /** The linked diagram records an element node gets are for an ordered selection of its diagrams. */
  lemma LinkedRecords(repo: Repository, c: Ctx, ds: seq<Diagram>)
    requires LinkedDiagrams(repo, c, ds, 0, []).Success?
    ensures SubRecords(LinkedDiagrams(repo, c, ds, 0, []).value.1, ds)
  {
    var idx := LinkedDiagramsOrder(repo, c, ds, 0, [], []);
  }
}
