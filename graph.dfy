/**
 * The graph the exporter produces, as values: the records that
 * `generate_graph_from_package` builds as dictionaries before they are
 * serialised to JSON.
 */
module Graph {
  import opened Fixture

  /** One entry of a node's `attributes` list. */
  datatype AttrRecord = AttrRecord(id: int, name: string, typ: string, default: string)

  /**
   * The entries of `nodes`. A package node (type tag "Package") carries its
   * main diagram; an element node carries its linked diagrams and position
   * (`None` stands for JSON null); an external classifier node carries the
   * name of its package instead, and nothing else.
   */
  datatype Node =
    | PackageNode(name: string, diagrams: seq<DiagramNode>)
    | ElementNode(id: ElementId, name: string, typ: string, attributes: seq<AttrRecord>,
                  linkedDiagrams: seq<DiagramNode>, position: Option<Position>)
    | ExternalNode(id: ElementId, name: string, typ: string, package: Option<string>,
                   attributes: seq<AttrRecord>)

  /** A diagram record (type tag "Diagram"); its JSON id is "D" followed by `id`. */
  datatype DiagramNode = DiagramNode(id: DiagramId, name: string, elements: seq<Node>)

  /** One entry of `edges`. */
  datatype Edge = Edge(from: ElementId, to: ElementId, typ: string, name: string)

  /** The identity of an edge: its ends and its type. */
  type EdgeKey = (ElementId, ElementId, string)

  datatype Graph = Graph(nodes: seq<Node>, edges: seq<Edge>)

  /**
   * Why an export stops without a graph: a connector whose client or supplier
   * does not resolve, so that reading its `ElementID` raises.
   */
  datatype ExportError = UnresolvedConnectorEnd(owner: ElementId, connector: Connector)

  datatype Result<+T> = Success(value: T) | Failure(error: ExportError)

  /** How a step of the exporter ended: normally, or by raising `error`. */
  datatype Outcome = Completed | Raised(error: ExportError)

  function ToRecord(a: Attribute): AttrRecord
  {
    AttrRecord(a.attributeId, a.name, a.typ, a.default)
  }

  /** The attribute records of an element: one per attribute, in source order. */
  function AttributeRecords(attrs: seq<Attribute>): (r: seq<AttrRecord>)
    ensures |r| == |attrs|
    ensures forall k :: 0 <= k < |attrs| ==> r[k] == ToRecord(attrs[k])
  {
    if attrs == [] then [] else AttributeRecords(attrs[..|attrs| - 1]) + [ToRecord(attrs[|attrs| - 1])]
  }

  /** The loop that fills a node's `attributes` list. */
  method CopyAttributes(attrs: seq<Attribute>) returns (records: seq<AttrRecord>)
    ensures records == AttributeRecords(attrs)
  {
    records := [];
    for a := 0 to |attrs|
      invariant records == AttributeRecords(attrs[..a])
    {
      assert attrs[..a + 1][..a] == attrs[..a];
      records := records + [ToRecord(attrs[a])];
    }
    assert attrs[..|attrs|] == attrs;
  }

  /** The edge a connector yields when both of its ends resolve. */
  function ConnectorEdge(c: Connector): Edge
  {
    Edge(c.clientId, c.supplierId, c.typ, c.name)
  }

  function KeyOf(e: Edge): EdgeKey
  {
    (e.from, e.to, e.typ)
  }

  /** The character of decimal digit `d`. */
  function Digit(d: nat): (r: char)
    requires d < 10
    ensures '0' <= r <= '9'
  {
    (('0' as int) + d) as char
  }

  /** The decimal text of `n`, with no leading zeros. */
  function NatText(n: nat): (r: string)
    ensures |r| > 0 && forall k :: 0 <= k < |r| ==> '0' <= r[k] <= '9'
    ensures |r| == 1 <==> n < 10
  {
    if n < 10 then [Digit(n)] else NatText(n / 10) + [Digit(n % 10)]
  }

  /** The text `str` gives an integer: a minus sign for a negative one, then its digits. */
  function IntText(n: int): (r: string)
    ensures |r| > 0 && (r[0] == '-' <==> n < 0)
    ensures forall k :: 0 < k < |r| ==> r[k] != '-'
  {
    if n < 0 then "-" + NatText(-n) else NatText(n)
  }

  /** The text the exporter deduplicates edges by: `"{from}-{to}-{type}"`. */
  function EdgeIdText(k: EdgeKey): string
  {
    IntText(k.0) + "-" + IntText(k.1) + "-" + k.2
  }

  /** The index of the first minus sign in `s` at or after `k`, or `|s|` if there is none. */
  function DashFrom(s: string, k: nat): nat
    requires k <= |s|
    decreases |s| - k
  {
    if k == |s| then |s| else if s[k] == '-' then k else DashFrom(s, k + 1)
  }

  lemma {:induction false} DashFromFinds(s: string, k: nat, n: nat)
    requires k <= n < |s| && s[n] == '-' && forall i :: k <= i < n ==> s[i] != '-'
    ensures DashFrom(s, k) == n
    decreases n - k
  {
    if k < n {
      DashFromFinds(s, k + 1, n);
    }
  }

  lemma {:induction false} NatTextInjective(n: nat, m: nat)
    requires NatText(n) == NatText(m)
    ensures n == m
    decreases n
  {
    if n >= 10 {
      var t, u := NatText(n), NatText(m);
      assert Digit(n % 10) == t[|t| - 1] == u[|u| - 1] == Digit(m % 10);
      assert NatText(n / 10) == t[..|t| - 1] == u[..|u| - 1] == NatText(m / 10);
      NatTextInjective(n / 10, m / 10);
    }
  }

  lemma IntTextInjective(a: int, b: int)
    requires IntText(a) == IntText(b)
    ensures a == b
  {
    if a < 0 {
      assert NatText(-a) == IntText(a)[1..] == IntText(b)[1..] == NatText(-b);
      NatTextInjective(-a, -b);
    } else {
      NatTextInjective(a, b);
    }
  }

  /** The part of `IntText(a) + "-" + r` before its first minus sign after the start is `IntText(a)`. */
  lemma SplitAtDash(a: int, r: string, a': int, r': string)
    requires IntText(a) + "-" + r == IntText(a') + "-" + r'
    ensures a == a' && r == r'
  {
    var x, x' := IntText(a), IntText(a');
    var s := x + "-" + r;
    DashFromFinds(s, 1, |x|);
    DashFromFinds(s, 1, |x'|);
    assert x == s[..|x|] && x' == s[..|x'|];
    assert r == s[|x| + 1..] && r' == s[|x'| + 1..];
    IntTextInjective(a, a');
  }

  /** Two edges have the same textual edge ID exactly when they have the same key. */
  lemma EdgeIdTextInjective(k: EdgeKey, k': EdgeKey)
    ensures EdgeIdText(k) == EdgeIdText(k') <==> k == k'
  {
    if EdgeIdText(k) == EdgeIdText(k') {
      assert EdgeIdText(k) == IntText(k.0) + "-" + (IntText(k.1) + "-" + k.2);
      assert EdgeIdText(k') == IntText(k'.0) + "-" + (IntText(k'.1) + "-" + k'.2);
      SplitAtDash(k.0, IntText(k.1) + "-" + k.2, k'.0, IntText(k'.1) + "-" + k'.2);
      SplitAtDash(k.1, k.2, k'.1, k'.2);
    }
  }
}
