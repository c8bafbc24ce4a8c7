/**
 * Exports of small fixed repositories, worked out in full.
 */
module Scenarios {
  import opened Fixture
  import opened Graph
  import opened Traversal

  const Geometry := Position(Some(10), Some(110), Some(20), Some(70))

  /**
   * Package P (ID 1) whose one diagram D (ID 10) places A (ID 1), an element
   * ID that does not resolve (42), and B (ID 2); B owns a connector from A
   * to B of type "Association" named "uses".
   */
  const ElementA := Element("A", "Class", [], 0, 1, [], [])
  const ElementB := Element("B", "Class", [], 0, 1, [], [Connector(1, 2, "Association", "uses")])
  const DiagramD := Diagram(10, "D", [DiagramObject(1, Geometry), DiagramObject(42, Geometry), DiagramObject(2, Geometry)])
  const PackageP := Package(1, "P", 0, [DiagramD], [])
  const TwoElements := Repository([PackageP], map[1 := ElementA, 2 := ElementB], map[1 := PackageP])

  const NodeA := ElementNode(1, "A", "Class", [], [], Some(Geometry))
  const NodeB := ElementNode(2, "B", "Class", [], [], Some(Geometry))

  /** The elements come first, in placement order, the unresolvable placement is skipped, and the package node comes last. */
  lemma TwoElementExport()
    ensures GenerateGraph(TwoElements, PackageP)
         == Success(Graph([NodeA, NodeB, PackageNode("P", [DiagramNode(10, "D", [NodeA, NodeB])])],
                          [Edge(1, 2, "Association", "uses")]))
  {
    var repo, objs := TwoElements, DiagramD.objects;
    var c1 := EmptyCtx.(visitedDiagrams := EmptyCtx.visitedDiagrams + {10});
    var cA0 := c1.(visitedElements := c1.visitedElements + {1});
    assert LinkedDiagrams(repo, cA0, [], 0, []) == Success((cA0, []));
    assert AddEdges(repo, cA0, 1, [], 0) == Success(cA0);
    var cA := cA0.(nodes := cA0.nodes + [NodeA], processed := cA0.processed[1 := NodeA]);
    assert ProcessElement(repo, c1, 1, Some(Geometry)) == Success((cA, Some(NodeA)));
    var cB0 := cA.(visitedElements := cA.visitedElements + {2});
    assert LinkedDiagrams(repo, cB0, [], 0, []) == Success((cB0, []));
    var uses := Connector(1, 2, "Association", "uses");
    var cE := cB0.(edges := cB0.edges + [Edge(1, 2, "Association", "uses")],
                   edgeSet := cB0.edgeSet + {EdgeIdText((1, 2, "Association"))});
    assert AddEdges(repo, cE, 2, [uses], 1) == Success(cE);
    assert AddEdges(repo, cB0, 2, [uses], 0) == Success(cE);
    var cB := cE.(nodes := cE.nodes + [NodeB], processed := cE.processed[2 := NodeB]);
    assert ProcessElement(repo, cA, 2, Some(Geometry)) == Success((cB, Some(NodeB)));
    assert ExpandPlacements(repo, cB, objs, 3, [NodeA, NodeB]) == Success((cB, [NodeA, NodeB]));
    assert [NodeA] + [NodeB] == [NodeA, NodeB];
    assert 2 !in cA.visitedElements && 42 !in repo.elements;
    assert ExpandPlacements(repo, cA, objs, 2, [NodeA]) == Success((cB, [NodeA, NodeB]));
    assert ExpandPlacements(repo, cA, objs, 1, [NodeA]) == Success((cB, [NodeA, NodeB]));
    assert [] + [NodeA] == [NodeA];
    assert 1 in repo.elements && 1 !in c1.visitedElements;
    assert ExpandPlacements(repo, c1, objs, 0, []) == Success((cB, [NodeA, NodeB]));
    assert cB.nodes + [PackageNode("P", [DiagramNode(10, "D", [NodeA, NodeB])])]
        == [NodeA, NodeB, PackageNode("P", [DiagramNode(10, "D", [NodeA, NodeB])])];
    assert cB.edges == [Edge(1, 2, "Association", "uses")];
  }

  /** Package S (ID 1) whose one diagram H (ID 13) places A (ID 1) twice. */
  const PackageS := Package(1, "S", 0, [Diagram(13, "H", [DiagramObject(1, Geometry), DiagramObject(1, Geometry)])], [])
  const PlacedTwice := Repository([PackageS], map[1 := ElementA], map[1 := PackageS])

  /** The second placement finds A visited, so A is listed once. */
  lemma RepeatedPlacementExport()
    ensures GenerateGraph(PlacedTwice, PackageS)
         == Success(Graph([NodeA, PackageNode("S", [DiagramNode(13, "H", [NodeA])])], []))
  {
    var repo, objs := PlacedTwice, PackageS.diagrams[0].objects;
    var c1 := EmptyCtx.(visitedDiagrams := EmptyCtx.visitedDiagrams + {13});
    var cA0 := c1.(visitedElements := c1.visitedElements + {1});
    assert LinkedDiagrams(repo, cA0, [], 0, []) == Success((cA0, []));
    assert AddEdges(repo, cA0, 1, [], 0) == Success(cA0);
    var cA := cA0.(nodes := cA0.nodes + [NodeA], processed := cA0.processed[1 := NodeA]);
    assert ProcessElement(repo, c1, 1, Some(Geometry)) == Success((cA, Some(NodeA)));
    assert ExpandPlacements(repo, cA, objs, 1, [NodeA]) == Success((cA, [NodeA]));
    assert [] + [NodeA] == [NodeA];
    assert ExpandPlacements(repo, c1, objs, 0, []) == Success((cA, [NodeA]));
    assert cA.nodes + [PackageNode("S", [DiagramNode(13, "H", [NodeA])])]
        == [NodeA, PackageNode("S", [DiagramNode(13, "H", [NodeA])])];
  }

  /**
   * Package Q (ID 1) whose one diagram E (ID 11) places C (ID 3); C's
   * classifier is X (ID 9), an enumeration in Q with one attribute, a
   * connector and a diagram of its own.
   */
  const ElementC := Element("C", "Class", [], 9, 1, [], [])
  const ElementX := Element("X", "Enumeration", [Attribute(5, "RED", "int", "0")], 0, 1,
                            [Diagram(20, "XD", [DiagramObject(3, Geometry)])], [Connector(9, 3, "Dependency", "")])
  const PackageQ := Package(1, "Q", 0, [Diagram(11, "E", [DiagramObject(3, Geometry)])], [])
  const WithClassifier := Repository([PackageQ], map[3 := ElementC, 9 := ElementX], map[1 := PackageQ])

  const NodeX := ExternalNode(9, "X", "Enumeration", Some("Q"), [AttrRecord(5, "RED", "int", "0")])
  const NodeC := ElementNode(3, "C", "Class", [], [], Some(Geometry))

  /** The classifier becomes an external node ahead of C, and neither its connector nor its diagram is followed. */
  lemma ClassifierExport()
    ensures GenerateGraph(WithClassifier, PackageQ)
         == Success(Graph([NodeX, NodeC, PackageNode("Q", [DiagramNode(11, "E", [NodeC])])], []))
  {
    var repo, objs := WithClassifier, PackageQ.diagrams[0].objects;
    var c1 := EmptyCtx.(visitedDiagrams := EmptyCtx.visitedDiagrams + {11});
    var cC0 := c1.(visitedElements := c1.visitedElements + {3});
    assert AttributeRecords(ElementX.attributes) == [AttrRecord(5, "RED", "int", "0")] by {
      assert ElementX.attributes[..0] == [];
    }
    var cX := cC0.(nodes := cC0.nodes + [NodeX], visitedElements := cC0.visitedElements + {9},
                   processed := cC0.processed[9 := NodeX]);
    assert ExternalClassifier(repo, cC0, 9) == cX;
    assert LinkedDiagrams(repo, cX, [], 0, []) == Success((cX, []));
    assert AddEdges(repo, cX, 3, [], 0) == Success(cX);
    var cC := cX.(nodes := cX.nodes + [NodeC], processed := cX.processed[3 := NodeC]);
    assert ProcessElement(repo, c1, 3, Some(Geometry)) == Success((cC, Some(NodeC)));
    assert [] + [NodeC] == [NodeC];
    assert ExpandPlacements(repo, c1, objs, 0, []) == Success((cC, [NodeC]));
    assert cC.nodes + [PackageNode("Q", [DiagramNode(11, "E", [NodeC])])]
        == [NodeX, NodeC, PackageNode("Q", [DiagramNode(11, "E", [NodeC])])];
  }

  /** Package R (ID 1) places F (ID 4), whose connector points at an element ID that does not resolve. */
  const Dangling := Connector(4, 99, "Association", "")
  const PackageR := Package(1, "R", 0, [Diagram(12, "G", [DiagramObject(4, Geometry)])], [])
  const WithDangling := Repository([PackageR], map[4 := Element("F", "Class", [], 0, 1, [], [Dangling])], map[1 := PackageR])

  /** Reading the end of the dangling connector stops the whole export. */
  lemma DanglingConnectorExport()
    ensures GenerateGraph(WithDangling, PackageR) == Failure(UnresolvedConnectorEnd(4, Dangling))
  {
    var repo := WithDangling;
    var c1 := EmptyCtx.(visitedDiagrams := EmptyCtx.visitedDiagrams + {12});
    var cF0 := c1.(visitedElements := c1.visitedElements + {4});
    assert LinkedDiagrams(repo, cF0, [], 0, []) == Success((cF0, []));
    assert AddEdges(repo, cF0, 4, [Dangling], 0) == Failure(UnresolvedConnectorEnd(4, Dangling));
    assert ProcessElement(repo, c1, 4, Some(Geometry)) == Failure(UnresolvedConnectorEnd(4, Dangling));
  }
}
