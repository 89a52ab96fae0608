/**
  The topology graph as a value: every registered entity's link map and the
  schema's link registry. The class layer (Schemas, Scenes) is proved against
  the functions of this module, and the properties of the cascade delete are
  proved here once.
 */
module Topology {

  /** The three kinds of entity that can terminate a link. */
  datatype Kind = MachineKind | SwitchKind | SchemaKind

  /** An endpoint is named by its registry and its key in that registry. */
  datatype Endpoint = Endpoint(kind: Kind, id: nat)

  /** A link: its id and the pair of endpoints it was created with. */
  datatype Link = Link(id: nat, begin: Endpoint, end: Endpoint)

  /** The `connected_links` map of one entity: link id to link. */
  type LinkMap = map<nat, Link>

  /** The abstract state of a schema: the link map of every registered entity
      (keyed by endpoint) and the registry of links. */
  datatype Graph = Graph(nodes: map<Endpoint, LinkMap>, links: map<nat, Link>)

  predicate Incident(l: Link, e: Endpoint) {
    l.begin == e || l.end == e
  }

  /** The endpoint of `l` that is not `e` (`begin == self ? end : begin`). */
  function Other(l: Link, e: Endpoint): (o: Endpoint)
    ensures Incident(l, e) ==> Incident(l, o) && (o == e <==> l.begin == l.end)
    ensures Incident(l, e) && l.begin != l.end ==> {e, o} == {l.begin, l.end}
  {
    if l.begin == e then l.end else l.begin
  }

  /** Link `lid` of the registry joins two distinct registered endpoints,
      both of which list it in their link maps. */
  ghost predicate LinkOk(g: Graph, lid: nat)
    requires lid in g.links
  {
    var l := g.links[lid];
    && l.id == lid
    && l.begin != l.end
    && l.begin in g.nodes && l.end in g.nodes
    && lid in g.nodes[l.begin] && lid in g.nodes[l.end]
  }

  /** Well-formedness: a link appears in the registry and in exactly the link
      maps of its two endpoints, under its own id. */
  ghost predicate Wf(g: Graph) {
    && (forall lid :: lid in g.links ==> LinkOk(g, lid))
    && (forall e, lid :: e in g.nodes && lid in g.nodes[e] ==>
          lid in g.links && g.nodes[e][lid] == g.links[lid] && Incident(g.links[lid], e))
  }

  /** The links of the registry that touch an endpoint of `d`. */
  function Dead(g: Graph, d: set<Endpoint>): set<nat> {
    set lid | lid in g.links && (g.links[lid].begin in d || g.links[lid].end in d)
  }

  /** Cascade delete of the entities `d`: they leave the registries, and every
      link touching one of them leaves the link registry and every surviving
      link map. */
  function Cascade(g: Graph, d: set<Endpoint>): Graph {
    var dead := Dead(g, d);
    Graph(map e | e in g.nodes && e !in d :: g.nodes[e] - dead, g.links - dead)
  }

  /** The state in the middle of detaching entity `e`: the links `done` have been
      removed from the other endpoints' maps and from the registry, while `e`'s
      own map is still as it was. */
  function Detached(g: Graph, e: Endpoint, done: set<nat>): Graph {
    Graph(map x | x in g.nodes :: if x == e then g.nodes[x] else g.nodes[x] - done, g.links - done)
  }

  /** One step of the detach loop: link `lid` leaves the map of endpoint `o`
      (`removeConnectedLink`) and the link registry (`deleteLink`). */
  function DropLink(g: Graph, o: Endpoint, lid: nat): (r: Graph)
    requires o in g.nodes
    // every entity stays registered, `o` no longer lists the link and the registry no longer holds it
    ensures r.nodes.Keys == g.nodes.Keys && lid !in r.nodes[o] && r.links == g.links - {lid}
    // every other link of `o`, and every other entity's map, is as it was
    ensures forall k :: k in g.nodes[o] && k != lid ==> k in r.nodes[o] && r.nodes[o][k] == g.nodes[o][k]
    ensures forall x :: x in g.nodes && x != o ==> r.nodes[x] == g.nodes[x]
  {
    Graph(g.nodes[o := g.nodes[o] - {lid}], g.links - {lid})
  }

  /** Erasing an entity from its registry, with no cascade (`deleteMachine`,
      `deleteSwitch`, `deleteSchema`). */
  function Erase(g: Graph, e: Endpoint): Graph {
    Graph(g.nodes - {e}, g.links)
  }

  /** One pass of the deletion loop on entity `e`: detach every link of its
      map, then erase `e` itself. */
  function DeleteEntity(g: Graph, e: Endpoint): (r: Graph)
    // `e` leaves the registries and nothing else does
    ensures r.nodes.Keys == g.nodes.Keys - {e}
    // every link `e` listed leaves the registry; the other links stay
    ensures e in g.nodes ==> forall lid :: lid in g.links ==> (lid in r.links <==> lid !in g.nodes[e])
    ensures e !in g.nodes ==> r.links == g.links
  {
    var own := if e in g.nodes then g.nodes[e].Keys else {};
    Erase(Detached(g, e, own), e)
  }

  /** Registering a new link in the registry and in both endpoints' maps. */
  function Connect(g: Graph, l: Link): Graph
    requires l.begin in g.nodes && l.end in g.nodes
  {
    var atBegin: LinkMap := g.nodes[l.begin][l.id := l];
    var n := g.nodes[l.begin := atBegin];
    var atEnd: LinkMap := n[l.end][l.id := l];
    Graph(n[l.end := atEnd], g.links[l.id := l])
  }
}
