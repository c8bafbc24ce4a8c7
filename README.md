# jsonExporter graph generation, modelled in Dafny

The jsonExporter program reads an Enterprise Architect (EA) repository. It
turns one package into a JSON graph of `nodes` and `edges`:

- It starts from the package's first ("main") diagram.
- It follows every element placed there, and for each element:
  - its classifier;
  - its own linked diagrams;
  - its connectors.
- Visited sets mean each element and diagram is expanded at most once.
- An edge-ID set removes duplicate edges.
- Separately, it lists every package of the project in pre-order, model by
  model.

This project models that core and proves properties of it.

- `fixture.dfy` (module `Fixture`) holds the repository as values:
  - packages, with their sub-packages and diagrams;
  - diagrams, with their placements (diagram objects with a geometry);
  - elements, with their attributes, classifier, linked diagrams and
    connectors.

  Elements are kept in a map from element ID. A lookup that the source makes
  with `GetElementByID` is a map membership test, and a failed lookup is the
  source's `None`.
- `packages.dfy` (module `PackageEnumerator`) holds `recursive_collect_packages` and
  `get_all_packages`. Each is written as the source's loop, and each is proved
  equal to a pre-order listing function. Lemmas about that function state:
  - the listing's length;
  - its membership;
  - that it splits model by model.
- `graph.dfy` (module `Graph`) holds the output records:
  - the package, element and external-classifier nodes;
  - diagram records, attribute records and edges;
  - the error that stops an export.

  It also holds the loop that copies attributes, and the textual edge ID
  `"{from}-{to}-{type}"`. That edge ID is proved injective: two connectors
  have the same ID exactly when they agree on from, to and type.
- `traversal.dfy` (module `Traversal`) is the functional specification of
  `generate_graph_from_package`:
  - the shared mutable state (the visited sets, the edge-ID set, the map of
    processed elements and the two output lists) is a `Ctx` value;
  - every nested function is a function from state to result;
  - every index loop takes its index as a parameter.
- `exporter.dfy` (module `Exporter`) is the program as it runs:
  - the shared state is the set of fields of a `GraphBuilder` object;
  - each nested function is a method that modifies that object;
  - the loops are `for` and `while` loops;
  - every method is proved to leave the object in the state the
    specification computes, and to raise exactly when the specification
    fails.
- `traversal_proofs.dfy` (module `TraversalProofs`) proves the invariant of the
  traversal. The invariant is stated relative to the elements and diagrams still
  under construction further up the recursion ("pending"). Every visited
  element and diagram is either on exactly one node or pending. Further
  conjuncts:
  - edge keys are distinct and match the edge-ID set;
  - the elements a diagram record lists are nodes that come earlier in `nodes`;
  - every edge comes from a connector of a processed or pending element, and
    both of its ends resolve;
  - for every connector of an element with a full node, an edge with the
    connector's ends and type is present (its name may come from an earlier
    connector with the same ends and type, which the deduplication kept);
  - every node is a faithful snapshot of its element, and an element node's
    linked diagram records are for an ordered selection of the element's own
    diagrams.
- `export_properties.dfy` (module `ExportProperties`) states what one export
  yields:
  - the graph is well formed;
  - the package node comes last;
  - the main diagram lists, in placement order, a node for exactly those
    placements whose element resolves and is not yet visited when the loop
    reaches them; likewise an element records exactly those of its diagrams
    not yet visited when the loop reaches them;
  - an export fails only on a connector end that does not resolve, and always
    succeeds when every end resolves.
- `scenarios.dfy` works out three small exports in full.

Three behaviours of the code worth knowing, all modelled as the code has them:

- **Node order.** The package node is appended LAST (JSONExporter.py:88),
  after every element node that the main diagram reaches. It does not come
  first.
- **Reused elements.** An element that was already visited is not listed
  again in a later diagram record. Both diagram loops call `process_element`
  only for unvisited elements (JSONExporter.py:83, 167). So the branch of
  `process_element` that returns the recorded node (JSONExporter.py:95-96)
  is never taken from the diagrams; the model keeps that branch.
- **Dangling connectors.** A connector end that does not resolve is not
  skipped. Reading `ElementID` from the `None` returned by the lookup raises
  (JSONExporter.py:181-183), and that stops the whole export. The model
  returns `Failure(UnresolvedConnectorEnd(owner, connector))`. The exporter
  method reports it as `Raised`.

## Model

| member | source | states |
|---|---|---|
| PackageEnumerator.RecursiveCollectPackages | JSONExporter.py:26-36 | the loop returns the pre-order listing of the package's subtree: the package itself, then each sub-package's listing in order |
| PackageEnumerator.GetAllPackages | JSONExporter.py:39-49 | the loop returns the models' pre-order listings concatenated in model order |
| PackageEnumerator.PreOrder | JSONExporter.py:31 | a listing is never empty and starts with the package it was called on |
| PackageEnumerator.PreOrderLength | JSONExporter.py:26-36 | a listing has exactly one entry per package of the subtree |
| PackageEnumerator.PreOrderAllLength | JSONExporter.py:33-35 | the concatenated listings of sub-packages have one entry per package of their subtrees |
| PackageEnumerator.PreOrderMembers | JSONExporter.py:26-36 | a package is listed exactly when it is the root or lies below one of its sub-packages |
| PackageEnumerator.PreOrderAllMembers | JSONExporter.py:33-35 | a package is in the concatenated listings exactly when it lies in one of the subtrees |
| PackageEnumerator.PreOrderAllAppend | JSONExporter.py:33-35 | listing a sequence of packages in two parts and concatenating gives the listing of the whole |
| PackageEnumerator.AllPackagesMembers | JSONExporter.py:39-49 | the project listing holds exactly the packages lying below some model |
| PackageEnumerator.AllPackagesByModel | JSONExporter.py:46-48 | the project listing is the earlier models' listings, then model k's, then the later ones' |
| Graph.AttributeRecords | JSONExporter.py:112-119 | one attribute record per attribute, in order, each copying the attribute's id, name, type and default |
| Graph.CopyAttributes | JSONExporter.py:145-152 | the attribute loop yields exactly those records |
| Graph.NatText | JSONExporter.py:183 | the decimal text of a natural number is non-empty, all digits, and one character long exactly below ten |
| Graph.IntText | JSONExporter.py:183 | the text of an integer starts with a minus sign exactly when the integer is negative, and has no other minus sign |
| Graph.NatTextInjective | JSONExporter.py:183 | distinct natural numbers have distinct decimal texts |
| Graph.IntTextInjective | JSONExporter.py:183 | distinct integers have distinct texts |
| Graph.SplitAtDash | JSONExporter.py:183 | an integer's text followed by "-" and a rest determines both the integer and the rest |
| Graph.EdgeIdTextInjective | JSONExporter.py:183-184 | two edge IDs are equal exactly when the edges agree on from, to and type, so the edge-ID set deduplicates by that key and nothing else |
| Traversal.ExternalClassifier | JSONExporter.py:132-155 | the state only grows; no edge or diagram changes; a classifier that resolves is visited afterwards |
| Traversal.AddEdges | JSONExporter.py:178-192 | on success the edges and edge IDs only grow, and the nodes, visited sets and processed map are unchanged; a failure names the owner and one of its connectors with an end that does not resolve |
| Traversal.ProcessElement | JSONExporter.py:94-130 | on success the state only grows; a failure names a connector whose end does not resolve |
| Traversal.ExpandPlacements | JSONExporter.py:78-86 | on success the state only grows; a failure names a connector whose end does not resolve |
| Traversal.LinkedDiagrams | JSONExporter.py:157-176 | on success the state only grows; a failure names a connector whose end does not resolve |
| Traversal.MainDiagram | JSONExporter.py:68-92 | a package without diagrams leaves the state unchanged; a failure names a connector whose end does not resolve |
| Traversal.GenerateGraph | JSONExporter.py:56-66 | a failed export names a connector of an element with an end that does not resolve |
| TraversalProofs.ExternalClassifierInv | JSONExporter.py:132-155 | adding an external classifier node keeps the invariant |
| TraversalProofs.AddEdgeInv | JSONExporter.py:184-192 | appending a new edge keeps the keys distinct and in step with the edge-ID set; the new edge comes from a connector of its owner, and its ends resolve |
| TraversalProofs.EdgeStepKeys | JSONExporter.py:183-192 | after a connector is handled an edge with its ends and type is present, whether it was appended or skipped as a duplicate |
| TraversalProofs.AddEdgesInv | JSONExporter.py:178-192 | the connector loop keeps the invariant's conjuncts about edges |
| TraversalProofs.AddEdgesKeys | JSONExporter.py:178-192 | after the connector loop, every connector of the element has an edge with its ends and type present |
| TraversalProofs.MarkElementInv | JSONExporter.py:97 | marking an element visited keeps the invariant, with the element pending |
| TraversalProofs.MarkDiagramInv | JSONExporter.py:162 | marking a diagram visited keeps the invariant, with the diagram pending |
| TraversalProofs.ProcessElementShape | JSONExporter.py:94-130 | a fresh element yields an element node with its ID, name, type, attributes and position; that node is the last one appended and is recorded as processed; a fresh resolvable classifier becomes the first node appended |
| TraversalProofs.ProcessElementInv | JSONExporter.py:94-130 | processing an element keeps the invariant |
| TraversalProofs.FinishElementInv | JSONExporter.py:126-129 | adding an element's edges and then its node keeps the invariant and clears the element from pending |
| TraversalProofs.PlacementInv | JSONExporter.py:83-86 | processing a fresh placed element keeps the invariant and yields an element node that is in the nodes |
| TraversalProofs.ExpandPlacementsInv | JSONExporter.py:78-86 | the placement loop keeps the invariant, and every element it lists is an element node already in the nodes |
| TraversalProofs.RecordDiagramInv | JSONExporter.py:171-176 | recording an expanded diagram clears it from pending, and its record lists only nodes already present |
| TraversalProofs.LinkedDiagramsInv | JSONExporter.py:157-176 | the linked-diagram loop keeps the invariant; the records it collects have distinct IDs and list nodes already present |
| TraversalProofs.LinkedDiagramsOrder | JSONExporter.py:157-176 | the records hold, in order and with each diagram's ID and name, exactly the element's diagrams not visited when the loop reaches them (the loop run on the diagrams before) |
| TraversalProofs.LinkedSkipStep | JSONExporter.py:160-161 | a diagram already visited is not recorded |
| TraversalProofs.LinkedRecordStep | JSONExporter.py:162-176 | a new diagram is recorded, at its position in the element's diagram order |
| TraversalProofs.LinkedRecords | JSONExporter.py:124 | the linked diagram records of an element node are for an ordered selection of the element's diagrams |
| ExportProperties.ExpandPlacementsOrder | JSONExporter.py:78-86 | the diagram's element list holds, in placement order, one element node carrying the placement's position for exactly the placements whose element resolves and is not visited when the loop reaches them (the loop run on the placements before); every resolvable placed element is visited afterwards |
| ExportProperties.PlacementSkipStep | JSONExporter.py:80-83 | a placement whose element does not resolve or is already visited is not listed |
| ExportProperties.PlacementListStep | JSONExporter.py:83-86 | a placement whose element resolves and is new is listed, at its position in placement order |
| ExportProperties.GenerateGraphSucceeds | JSONExporter.py:56-196 | when every connector end resolves, the export yields a graph: nothing else in the traversal raises |
| ExportProperties.FinishGraph | JSONExporter.py:88-92 | appending the package node when nothing is pending gives a well-formed graph whose element IDs are exactly the visited ones |
| ExportProperties.GenerateGraphProperties | JSONExporter.py:56-196 | a package without diagrams gives the empty graph; a successful export is well formed (one node per element, one record per diagram, distinct edge keys, children listed before their parents, every edge from a connector of a noded element with resolving ends, an edge with the ends and type of every such connector, faithful nodes whose linked records are an ordered selection of their element's diagrams); the package node is last and alone, holding only the first diagram, whose elements are nodes for exactly the placements whose element resolves and is unvisited when reached, in placement order |
| Exporter.GraphBuilder.constructor | JSONExporter.py:62-66 | the builder starts with empty nodes, edges, visited sets, edge-ID set and processed map |
| Exporter.GraphBuilder.ProcessExternalClassifier | JSONExporter.py:132-155 | the builder's new state is the specification's |
| Exporter.GraphBuilder.AddEdgesFromElement | JSONExporter.py:178-192 | the method raises exactly when the specification fails, with the same error, and otherwise leaves the specification's state |
| Exporter.GraphBuilder.ProcessElement | JSONExporter.py:94-130 | the method raises exactly when the specification fails, and otherwise leaves the specification's state and returns its node |
| Exporter.GraphBuilder.ExpandPlacements | JSONExporter.py:78-86 | the method raises exactly when the specification fails, and otherwise leaves the specification's state and the same element list |
| Exporter.GraphBuilder.ProcessLinkedDiagrams | JSONExporter.py:157-176 | the method raises exactly when the specification fails, and otherwise leaves the specification's state and the same diagram records |
| Exporter.GraphBuilder.ProcessMainDiagram | JSONExporter.py:68-92 | the method raises exactly when the specification fails, and otherwise leaves the specification's state |
| Exporter.GenerateGraphFromPackage | JSONExporter.py:56-196 | the result is the specification's; it is the empty graph for a package without diagrams, well formed on success, with the package node last listing exactly the placements whose element resolves and is unvisited when reached; a failure names an unresolved connector end, and there is none when every end resolves |
| Scenarios.TwoElementExport | JSONExporter.py:78-92 | two placed elements and an unresolvable placement: the element nodes come in placement order, the package node comes last, and the one connector's edge is exported |
| Scenarios.ClassifierExport | JSONExporter.py:132-155 | a classifier becomes an external node with its package name and attributes, ahead of its element; its own connectors and diagrams are not followed |
| Scenarios.RepeatedPlacementExport | JSONExporter.py:83-86 | an element placed twice on the main diagram is processed and listed once |
| Scenarios.DanglingConnectorExport | JSONExporter.py:181-183 | a connector whose supplier does not resolve stops the export with that connector as the error |

## Left out

- The COM connection to a running EA instance (JSONExporter.py:11-23) is not modelled. The repository is a parameter.
- The Streamlit user interface (JSONExporter.py:199-238) is not modelled. That includes:
  - filtering out packages with `ParentID == 0`;
  - sorting by name;
  - the name-to-package dictionary;
  - the selection box;
  - rendering the JSON and the download button.

  These are user interaction, not graph generation.
- Serialisation with `json.dumps` is not modelled. The graph is kept as values, not as text.
- The JSON type tags ("Package", "Diagram") and the `"D"` prefix on diagram IDs are constants of serialisation. Diagram records keep the numeric diagram ID, and the node kind is a datatype constructor.
- The position values, attribute types and attribute defaults are copied opaquely. `getattr(..., None)` on a placement's geometry is an optional field, one per side.
- The model does not represent identity of the dictionaries the source shares. A recorded node and the nodes listed in diagram records are copies, not one mutable object. The source never mutates a node after it is recorded, so no observable difference follows.
- `GetElementByID` or `GetPackageByID` raising for an unknown ID is not modelled. A failed lookup gives `None`, as the source's checks assume.
- Integers are unbounded. EA's IDs are machine integers, but the source never does arithmetic on them.

