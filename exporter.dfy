/**
 * `generate_graph_from_package` as the program runs it: the nested functions
 * become methods of a builder object whose fields are the shared mutable
 * state, and each index loop over a `Count` is a loop. Every method is proved
 * to leave the builder in the state the functional specification (module
 * Traversal) computes from the state it started in.
 */
module Exporter {
  import opened Fixture
  import opened Graph
  import opened Traversal
  import opened ExportProperties

  /** An outcome reports a specification result: completion exactly on success, the same error otherwise. */
  ghost predicate Reports<T>(outcome: Outcome, r: Result<T>)
  {
    (outcome.Completed? <==> r.Success?) && (r.Failure? ==> outcome == Raised(r.error))
  }

  class GraphBuilder {
    const repo: Repository
    var visitedElements: set<ElementId>
    var visitedDiagrams: set<DiagramId>
    var edgeSet: set<string>
    var processed: map<ElementId, Node>
    var nodes: seq<Node>
    var edges: seq<Edge>

    /** The builder's state as a specification value. */
    function Context(): Ctx
      reads this
    {
      Ctx(visitedElements, visitedDiagrams, edgeSet, processed, nodes, edges)
    }

    /** The locals that `generate_graph_from_package` starts from. */
    constructor (repo: Repository)
      ensures this.repo == repo && Context() == EmptyCtx
    {
      this.repo := repo;
      visitedElements, visitedDiagrams, edgeSet := {}, {}, {};
      processed := map[];
      nodes, edges := [], [];
    }

    method ProcessExternalClassifier(classifierId: ElementId)
      modifies this
      ensures Context() == ExternalClassifier(repo, old(Context()), classifierId)
    {
      if classifierId in repo.elements && classifierId !in visitedElements {
        var classifier := repo.elements[classifierId];
        var package: Option<string> := None;
        if classifier.packageId in repo.packages {
          package := Some(repo.packages[classifier.packageId].name);
        }
        var attributes := CopyAttributes(classifier.attributes);
        var externalNode := ExternalNode(classifierId, classifier.name, classifier.typ, package, attributes);
        nodes := nodes + [externalNode];
        visitedElements := visitedElements + {classifierId};
        processed := processed[classifierId := externalNode];
      }
    }

    method AddEdgesFromElement(owner: ElementId, connectors: seq<Connector>) returns (outcome: Outcome)
      modifies this
      ensures var r := AddEdges(repo, old(Context()), owner, connectors, 0);
              Reports(outcome, r) && (r.Success? ==> Context() == r.value)
    {
      for j := 0 to |connectors|
        invariant AddEdges(repo, old(Context()), owner, connectors, 0) == AddEdges(repo, Context(), owner, connectors, j)
      {
        var connector := connectors[j];
        if connector.clientId !in repo.elements || connector.supplierId !in repo.elements {
          outcome := Raised(UnresolvedConnectorEnd(owner, connector));
          return;
        }
        var edgeId := EdgeIdText((connector.clientId, connector.supplierId, connector.typ));
        if edgeId !in edgeSet {
          edges := edges + [Edge(connector.clientId, connector.supplierId, connector.typ, connector.name)];
          edgeSet := edgeSet + {edgeId};
        }
      }
      outcome := Completed;
    }

    method ProcessElement(id: ElementId, pos: Option<Position>) returns (outcome: Outcome, node: Option<Node>)
      requires id in repo.elements
      modifies this
      decreases repo.elements.Keys - visitedElements, 0
      ensures var r := Traversal.ProcessElement(repo, old(Context()), id, pos);
              Reports(outcome, r) && (r.Success? ==> Context() == r.value.0 && node == r.value.1)
    {
      if id in visitedElements {
        outcome := Completed;
        node := if id in processed then Some(processed[id]) else None;
        return;
      }
      ghost var c0 := Context();
      node := None;
      visitedElements := visitedElements + {id};
      var element := repo.elements[id];
      var attributes := CopyAttributes(element.attributes);
      if element.classifierId != 0 {
        ProcessExternalClassifier(element.classifierId);
      }
      assert id in repo.elements.Keys - c0.visitedElements;
      var linked;
      outcome, linked := ProcessLinkedDiagrams(element.diagrams);
      if outcome.Raised? {
        return;
      }
      outcome := AddEdgesFromElement(id, element.connectors);
      if outcome.Raised? {
        return;
      }
      var elementNode := ElementNode(id, element.name, element.typ, attributes, linked, pos);
      nodes := nodes + [elementNode];
      processed := processed[id := elementNode];
      node := Some(elementNode);
    }

    /** The loop over a diagram's objects (both copies of it in the source). */
    method ExpandPlacements(objs: seq<DiagramObject>) returns (outcome: Outcome, elements: seq<Node>)
      modifies this
      decreases repo.elements.Keys - visitedElements, 1
      ensures var r := Traversal.ExpandPlacements(repo, old(Context()), objs, 0, []);
              Reports(outcome, r) && (r.Success? ==> Context() == r.value.0 && elements == r.value.1)
    {
      elements := [];
      var e := 0;
      while e < |objs|
        invariant 0 <= e <= |objs|
        invariant old(visitedElements) <= visitedElements
        invariant Traversal.ExpandPlacements(repo, old(Context()), objs, 0, [])
               == Traversal.ExpandPlacements(repo, Context(), objs, e, elements)
      {
        var diagObject := objs[e];
        if diagObject.elementId in repo.elements && diagObject.elementId !in visitedElements {
          var processedElement;
          outcome, processedElement := ProcessElement(diagObject.elementId, Some(diagObject.geometry));
          if outcome.Raised? {
            return;
          }
          if processedElement.Some? {
            elements := elements + [processedElement.value];
          }
        }
        e := e + 1;
      }
      outcome := Completed;
    }

    method ProcessLinkedDiagrams(diagrams: seq<Diagram>) returns (outcome: Outcome, linked: seq<DiagramNode>)
      modifies this
      decreases repo.elements.Keys - visitedElements, 2
      ensures var r := LinkedDiagrams(repo, old(Context()), diagrams, 0, []);
              Reports(outcome, r) && (r.Success? ==> Context() == r.value.0 && linked == r.value.1)
    {
      linked := [];
      var d := 0;
      while d < |diagrams|
        invariant 0 <= d <= |diagrams|
        invariant old(visitedElements) <= visitedElements
        invariant LinkedDiagrams(repo, old(Context()), diagrams, 0, [])
               == LinkedDiagrams(repo, Context(), diagrams, d, linked)
      {
        var diagram := diagrams[d];
        if diagram.diagramId !in visitedDiagrams {
          visitedDiagrams := visitedDiagrams + {diagram.diagramId};
          var elementsInDiagram;
          outcome, elementsInDiagram := ExpandPlacements(diagram.objects);
          if outcome.Raised? {
            return;
          }
          linked := linked + [DiagramNode(diagram.diagramId, diagram.name, elementsInDiagram)];
        }
        d := d + 1;
      }
      outcome := Completed;
    }

    method ProcessMainDiagram(pkg: Package) returns (outcome: Outcome)
      modifies this
      ensures var r := MainDiagram(repo, old(Context()), pkg);
              Reports(outcome, r) && (r.Success? ==> Context() == r.value)
    {
      outcome := Completed;
      if |pkg.diagrams| > 0 {
        var mainDiagram := pkg.diagrams[0];
        visitedDiagrams := visitedDiagrams + {mainDiagram.diagramId};
        var elements;
        outcome, elements := ExpandPlacements(mainDiagram.objects);
        if outcome.Raised? {
          return;
        }
        nodes := nodes + [PackageNode(pkg.name, [DiagramNode(mainDiagram.diagramId, mainDiagram.name, elements)])];
      }
    }
  }

  /**
   * `generate_graph_from_package`: the graph for `pkg`, or the error that
   * stopped the traversal.
   */
  method GenerateGraphFromPackage(repo: Repository, pkg: Package) returns (r: Result<Graph>)
    ensures r == GenerateGraph(repo, pkg)
    ensures |pkg.diagrams| == 0 ==> r == Success(Graph([], []))
    ensures r.Success? ==> WellFormedGraph(repo, r.value)
    ensures |pkg.diagrams| > 0 && r.Success? ==> MainDiagramShape(repo, pkg, r.value)
    ensures r.Failure? ==> Unresolved(repo, r.error)
    ensures ConnectorsResolve(repo) ==> r.Success?
  {
    GenerateGraphProperties(repo, pkg);
    GenerateGraphSucceeds(repo, pkg);
    var builder := new GraphBuilder(repo);
    var outcome := builder.ProcessMainDiagram(pkg);
    if outcome.Raised? {
      r := Failure(outcome.error);
    } else {
      r := Success(Graph(builder.nodes, builder.edges));
    }
  }
}
