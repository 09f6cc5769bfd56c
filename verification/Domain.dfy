/**
  The entities of the playbook design domain (internal/domain/playbook/playbook.go).

  A UUID is the number spelled by its 32 hexadecimal digits: the canonical lower-case
  text form has fixed width, so comparing two ids as strings is comparing them as
  numbers, and the nil UUID is 0.
*/
module Domain {

  type Uuid = nat
  const NIL: Uuid := 0

  type Time = int

  datatype Option<+T> = None | Some(value: T) {
    function GetOr(default: T): T {
      if Some? then value else default
    }
  }

  /** A JSONB value in canonical form; only whether it is an object matters here. */
  datatype Json = Object(text: string) | Other(text: string)

  datatype VersionStatus = Draft | Published | Archived

  /** The Go type is an open string type; the database column is the two-value enum. */
  datatype Kind = Decision | Terminal | Unknown(name: string)

  datatype Node = Node(
    id: Uuid,
    kind: Kind,
    title: string,
    description: string,
    resolution: Option<string>,
    metadata: Option<Json>)

  datatype Edge = Edge(
    id: Uuid,
    from: Uuid,
    to: Uuid,
    caption: string,  // the column "label", a Dafny keyword
    description: Option<string>,
    sortOrder: int)

  datatype Graph = Graph(root: Option<Uuid>, nodes: seq<Node>, edges: seq<Edge>)

  datatype Version = Version(
    id: Uuid,
    playbookId: Uuid,
    number: int,
    status: VersionStatus,
    root: Option<Uuid>,
    publishedAt: Option<Time>)

  function NodeIds(nodes: seq<Node>): set<Uuid> {
    set n | n in nodes :: n.id
  }

  function EdgeIds(edges: seq<Edge>): set<Uuid> {
    set e | e in edges :: e.id
  }

  ghost predicate NoDuplicates<T>(s: seq<T>) {
    forall i, j :: 0 <= i < j < |s| ==> s[i] != s[j]
  }

  ghost predicate UniqueNodeIds(nodes: seq<Node>) {
    forall i, j :: 0 <= i < j < |nodes| ==> nodes[i].id != nodes[j].id
  }

  ghost predicate UniqueEdgeIds(edges: seq<Edge>) {
    forall i, j :: 0 <= i < j < |edges| ==> edges[i].id != edges[j].id
  }

  /** No two choices at one node share a label: UNIQUE (from_node_id, label). */
  ghost predicate UniqueLabels(edges: seq<Edge>) {
    forall i, j :: 0 <= i < j < |edges| ==> !(edges[i].from == edges[j].from && edges[i].caption == edges[j].caption)
  }

  /** The enum column admits no third kind. */
  ghost predicate KindsKnown(nodes: seq<Node>) {
    forall n :: n in nodes ==> n.kind == Decision || n.kind == Terminal
  }

  /** An edge both of whose endpoints are nodes of the graph. */
  predicate Resolves(ids: set<Uuid>, e: Edge) {
    e.from in ids && e.to in ids
  }

  /** The same graph up to the order of nodes and edges. */
  ghost predicate SameGraph(g: Graph, h: Graph) {
    g.root == h.root && multiset(g.nodes) == multiset(h.nodes) && multiset(g.edges) == multiset(h.edges)
  }

  /** The links of a graph: the endpoint pairs of its resolving edges. */
  ghost function Links(g: Graph): set<(Uuid, Uuid)> {
    set e | e in g.edges && Resolves(NodeIds(g.nodes), e) :: (e.from, e.to)
  }
}
