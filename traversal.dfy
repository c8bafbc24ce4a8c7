/**
 * The functional specification of `generate_graph_from_package`.
 *
 * The state its nested functions share (the three visited sets, the map of
 * processed elements and the two output lists) is threaded through as a value
 * of type `Ctx`. Every loop over a `Count` becomes a function with the loop
 * index (and, where the loop collects a list, that list) as parameters, so
 * that a loop's remaining work from any state is a call of that function.
 *
 * The mutual recursion ProcessElement -> LinkedDiagrams -> ExpandPlacements
 * -> ProcessElement terminates because ProcessElement marks a fresh element
 * ID visited before it recurses: the set of unvisited element IDs shrinks.
 */
module Traversal {
  import opened Fixture
  import opened Graph

  datatype Ctx = Ctx(
    visitedElements: set<ElementId>,
    visitedDiagrams: set<DiagramId>,
    edgeSet: set<string>,
    processed: map<ElementId, Node>,
    nodes: seq<Node>,
    edges: seq<Edge>)

  /**
   * `c'` extends `c`: the traversal only ever adds to the visited sets and
   * the edge IDs, and only ever appends to `nodes` and `edges`.
   */
  ghost predicate Grows(c: Ctx, c': Ctx)
  {
    && c.visitedElements <= c'.visitedElements
    && c.visitedDiagrams <= c'.visitedDiagrams
    && c.edgeSet <= c'.edgeSet
    && c.nodes <= c'.nodes
    && c.edges <= c'.edges
  }

  /** The state at the start of an export: `{"nodes": [], "edges": []}` and empty sets. */
  const EmptyCtx := Ctx({}, {}, {}, map[], [], [])

  /** `e` names a connector of element `e.owner` with an end that does not resolve. */
  ghost predicate Unresolved(repo: Repository, e: ExportError)
  {
    && e.owner in repo.elements
    && e.connector in repo.elements[e.owner].connectors
    && (e.connector.clientId !in repo.elements || e.connector.supplierId !in repo.elements)
  }

  /**
   * `process_external_classifier`: a classifier that resolves and is not yet
   * visited becomes a shallow node, appended at once and marked visited.
   */
  function ExternalClassifier(repo: Repository, c: Ctx, classifierId: ElementId): (r: Ctx)
    ensures Grows(c, r) && r.edges == c.edges && r.visitedDiagrams == c.visitedDiagrams
    ensures classifierId in repo.elements ==> classifierId in r.visitedElements
  {
    if classifierId in repo.elements && classifierId !in c.visitedElements then
      var classifier := repo.elements[classifierId];
      var node := ExternalNode(classifierId, classifier.name, classifier.typ,
                               PackageName(repo, classifier.packageId),
                               AttributeRecords(classifier.attributes));
      c.(nodes := c.nodes + [node],
         visitedElements := c.visitedElements + {classifierId},
         processed := c.processed[classifierId := node])
    else
      c
  }

  /**
   * `add_edges_from_element`, from connector `j` of `owner` on: an edge is
   * appended when its key is new; an end that does not resolve stops the export.
   */
  function AddEdges(repo: Repository, c: Ctx, owner: ElementId, conns: seq<Connector>, j: nat): (r: Result<Ctx>)
    requires j <= |conns|
    decreases |conns| - j
    ensures r.Success? ==> Grows(c, r.value) && r.value.nodes == c.nodes
    ensures r.Success? ==> r.value.visitedElements == c.visitedElements && r.value.visitedDiagrams == c.visitedDiagrams
    ensures r.Success? ==> r.value.processed == c.processed
    ensures r.Failure? ==> && r.error.owner == owner && r.error.connector in conns[j..]
                           && (r.error.connector.clientId !in repo.elements || r.error.connector.supplierId !in repo.elements)
  {
    if j == |conns| then
      Success(c)
    else
      var conn := conns[j];
      if conn.clientId !in repo.elements || conn.supplierId !in repo.elements then
        Failure(UnresolvedConnectorEnd(owner, conn))
      else
        var key := EdgeIdText((conn.clientId, conn.supplierId, conn.typ));
        if key !in c.edgeSet then
          var edge := Edge(conn.clientId, conn.supplierId, conn.typ, conn.name);
          AddEdges(repo, c.(edges := c.edges + [edge], edgeSet := c.edgeSet + {key}), owner, conns, j + 1)
        else
          AddEdges(repo, c, owner, conns, j + 1)
  }

  /**
   * `process_element`. An element seen before yields what was recorded for
   * it. Otherwise it is marked visited, its attributes are copied, its
   * classifier, linked diagrams and connectors are processed, and only then
   * is its node appended and recorded.
   */
  function ProcessElement(repo: Repository, c: Ctx, id: ElementId, pos: Option<Position>): (r: Result<(Ctx, Option<Node>)>)
    requires id in repo.elements
    decreases repo.elements.Keys - c.visitedElements, 0, 0
    ensures r.Success? ==> Grows(c, r.value.0)
    ensures r.Failure? ==> Unresolved(repo, r.error)
  {
    if id in c.visitedElements then
      Success((c, if id in c.processed then Some(c.processed[id]) else None))
    else
      var element := repo.elements[id];
      var c1 := c.(visitedElements := c.visitedElements + {id});
      var attributes := AttributeRecords(element.attributes);
      var c2 := if element.classifierId != 0 then ExternalClassifier(repo, c1, element.classifierId) else c1;
      assert id in repo.elements.Keys - c.visitedElements;
      match LinkedDiagrams(repo, c2, element.diagrams, 0, [])
      case Failure(e) => Failure(e)
      case Success((c3, linked)) =>
        match AddEdges(repo, c3, id, element.connectors, 0)
        case Failure(e) => Failure(e)
        case Success(c4) =>
          var node := ElementNode(id, element.name, element.typ, attributes, linked, pos);
          Success((c4.(nodes := c4.nodes + [node], processed := c4.processed[id := node]), Some(node)))
  }

  /**
   * The loop over a diagram's objects, from object `i` on, shared by
   * `process_main_diagram` and `process_linked_diagrams`: an object whose
   * element resolves and is not yet visited is processed, and the node it
   * yields is added to `acc`; every other object is skipped.
   */
  function ExpandPlacements(repo: Repository, c: Ctx, objs: seq<DiagramObject>, i: nat, acc: seq<Node>)
    : (r: Result<(Ctx, seq<Node>)>)
    requires i <= |objs|
    decreases repo.elements.Keys - c.visitedElements, 1, |objs| - i
    ensures r.Success? ==> Grows(c, r.value.0)
    ensures r.Failure? ==> Unresolved(repo, r.error)
  {
    if i == |objs| then
      Success((c, acc))
    else
      var obj := objs[i];
      if obj.elementId in repo.elements && obj.elementId !in c.visitedElements then
        match ProcessElement(repo, c, obj.elementId, Some(obj.geometry))
        case Failure(e) => Failure(e)
        case Success((c', node)) =>
          ExpandPlacements(repo, c', objs, i + 1, if node.Some? then acc + [node.value] else acc)
      else
        ExpandPlacements(repo, c, objs, i + 1, acc)
  }

  /**
   * `process_linked_diagrams`, from diagram `j` of an element on: a diagram
   * not yet visited is marked, its objects are expanded and its record is
   * added to `acc`; a visited one is skipped entirely.
   */
  function LinkedDiagrams(repo: Repository, c: Ctx, ds: seq<Diagram>, j: nat, acc: seq<DiagramNode>)
    : (r: Result<(Ctx, seq<DiagramNode>)>)
    requires j <= |ds|
    decreases repo.elements.Keys - c.visitedElements, 2, |ds| - j
    ensures r.Success? ==> Grows(c, r.value.0)
    ensures r.Failure? ==> Unresolved(repo, r.error)
  {
    if j == |ds| then
      Success((c, acc))
    else
      var d := ds[j];
      if d.diagramId in c.visitedDiagrams then
        LinkedDiagrams(repo, c, ds, j + 1, acc)
      else
        var c1 := c.(visitedDiagrams := c.visitedDiagrams + {d.diagramId});
        match ExpandPlacements(repo, c1, d.objects, 0, [])
        case Failure(e) => Failure(e)
        case Success((c2, elements)) =>
          LinkedDiagrams(repo, c2, ds, j + 1, acc + [DiagramNode(d.diagramId, d.name, elements)])
  }

  /**
   * `process_main_diagram`: only the package's first diagram is expanded,
   * and the package node holding it is appended after everything it reaches.
   */
  function MainDiagram(repo: Repository, c: Ctx, pkg: Package): (r: Result<Ctx>)
    ensures r.Failure? ==> Unresolved(repo, r.error)
    ensures |pkg.diagrams| == 0 ==> r == Success(c)
  {
    if |pkg.diagrams| > 0 then
      var d := pkg.diagrams[0];
      var c1 := c.(visitedDiagrams := c.visitedDiagrams + {d.diagramId});
      match ExpandPlacements(repo, c1, d.objects, 0, [])
      case Failure(e) => Failure(e)
      case Success((c2, elements)) =>
        Success(c2.(nodes := c2.nodes + [PackageNode(pkg.name, [DiagramNode(d.diagramId, d.name, elements)])]))
    else
      Success(c)
  }

  /** `generate_graph_from_package`: the graph built from fresh state. */
  function GenerateGraph(repo: Repository, pkg: Package): (r: Result<Graph>)
    ensures r.Failure? ==> Unresolved(repo, r.error)
  {
    match MainDiagram(repo, EmptyCtx, pkg)
    case Failure(e) => Failure(e)
    case Success(c) => Success(Graph(c.nodes, c.edges))
  }
}
