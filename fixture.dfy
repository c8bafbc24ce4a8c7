/**
 * The repository of the modelling tool, frozen for the duration of one export.
 *
 * The live automation object (its `Models`, `GetElementByID`, `GetPackageByID`
 * and the `Count`/`GetAt` collections) becomes an immutable value: maps from
 * element IDs to element records and from package IDs to packages, and ordered
 * sequences wherever the tool hands out a collection.
 */
module Fixture {

  datatype Option<+T> = None | Some(value: T)

  type ElementId = int
  type DiagramId = int
  type PackageId = int

  /** An attribute of an element: `AttributeID`, `Name`, `Type`, `Default`. */
  datatype Attribute = Attribute(attributeId: int, name: string, typ: string, default: string)

  /**
   * The geometry of a diagram object. Each side is read with a fallback to
   * `None`, so each one is optional; the values are carried through unread.
   */
  datatype Position = Position(left: Option<int>, right: Option<int>, top: Option<int>, bottom: Option<int>)

  /** A placement of an element on a diagram (a diagram object). */
  datatype DiagramObject = DiagramObject(elementId: ElementId, geometry: Position)

  /** A diagram: `DiagramID`, `Name` and its diagram objects in order. */
  datatype Diagram = Diagram(diagramId: DiagramId, name: string, objects: seq<DiagramObject>)

  /** A connector owned by an element, from its client to its supplier. */
  datatype Connector = Connector(clientId: ElementId, supplierId: ElementId, typ: string, name: string)

  /**
   * An element. Its `ElementID` is the key it is stored under in the
   * repository. `classifierId == 0` means "no classifier".
   */
  datatype Element = Element(
    name: string,
    typ: string,
    attributes: seq<Attribute>,
    classifierId: ElementId,
    packageId: PackageId,
    diagrams: seq<Diagram>,
    connectors: seq<Connector>)

  /** A package with its diagrams and its sub-packages, in collection order. */
  datatype Package = Package(
    packageId: PackageId,
    name: string,
    parentId: PackageId,
    diagrams: seq<Diagram>,
    packages: seq<Package>)

  /** The whole repository: the top-level models and the two ID lookups. */
  datatype Repository = Repository(
    models: seq<Package>,
    elements: map<ElementId, Element>,
    packages: map<PackageId, Package>)

  /** The name of the package `GetPackageByID` finds, if it finds one. */
  function PackageName(repo: Repository, id: PackageId): Option<string>
  {
    if id in repo.packages then Some(repo.packages[id].name) else None
  }
}
