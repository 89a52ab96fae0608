/**
  The schema: the id-keyed registries of machines, switches and nested
  schemas, and the registry of links. Its erasers, its link factory and its
  registration of a new entity are the minimal operations the scene and the
  table call; their bodies are not part of the modelled source, so each does
  only what its name promises.
 */
module Schemas {
  import opened Wrappers
  import opened Topology
  import opened Connections
  import CascadeDelete

  class Schema {
    var machines: map<nat, Connection>
    var switches: map<nat, Connection>
    var schemas: map<nat, Connection>
    var links: map<nat, Link>
    /** The id the next link will receive: ids are assigned monotonically. */
    var nextLinkId: nat
    /** The three registries seen as one map from endpoint name to entity. */
    ghost var objects: map<Endpoint, Connection>

    constructor ()
      ensures machines == map[] && switches == map[] && schemas == map[]
      ensures links == map[] && nextLinkId == 0
      ensures Valid()
    {
      machines, switches, schemas := map[], map[], map[];
      links := map[];
      nextLinkId := 0;
      objects := map[];
    }

    /** Of three registries, the one that holds entities of `kind`. */
    static function RegistryOf(ms: map<nat, Connection>, ws: map<nat, Connection>,
                               cs: map<nat, Connection>, kind: Kind): map<nat, Connection>
    {
      match kind
      case MachineKind => ms
      case SwitchKind => ws
      case SchemaKind => cs
    }

    /** The registry that holds entities of `kind`. */
    function Registry(kind: Kind): map<nat, Connection>
      reads this`machines, this`switches, this`schemas
    {
      RegistryOf(machines, switches, schemas, kind)
    }

    /** Resolving an endpoint name through its registry. */
    function Lookup(e: Endpoint): Option<Connection>
      reads this`machines, this`switches, this`schemas
    {
      var reg := Registry(e.kind);
      if e.id in reg then Some(reg[e.id]) else None
    }

    /** Every registered entity. */
    ghost function Nodes(): set<Connection>
      reads this`objects
    {
      objects.Values
    }

    /** `objs` lists exactly the entities of three registries, each under
        its own kind and id. */
    static ghost predicate IndexedBy(ms: map<nat, Connection>, ws: map<nat, Connection>,
                                     cs: map<nat, Connection>, objs: map<Endpoint, Connection>)
    {
      && (forall k :: k in ms ==> Endpoint(MachineKind, k) in objs && objs[Endpoint(MachineKind, k)] == ms[k])
      && (forall k :: k in ws ==> Endpoint(SwitchKind, k) in objs && objs[Endpoint(SwitchKind, k)] == ws[k])
      && (forall k :: k in cs ==> Endpoint(SchemaKind, k) in objs && objs[Endpoint(SchemaKind, k)] == cs[k])
      && (forall e :: e in objs ==> e.id in RegistryOf(ms, ws, cs, e.kind) && objs[e].Ep() == e)
    }

    /** Erasing a machine id from its registry and its name from the index
        keeps the index exact; likewise for a switch and a nested schema. */
    static lemma IndexedEraseMachine(ms: map<nat, Connection>, ws: map<nat, Connection>,
                                     cs: map<nat, Connection>, objs: map<Endpoint, Connection>, id: nat)
      requires IndexedBy(ms, ws, cs, objs)
      ensures IndexedBy(ms - {id}, ws, cs, objs - {Endpoint(MachineKind, id)})
    {
    }

    static lemma IndexedEraseSwitch(ms: map<nat, Connection>, ws: map<nat, Connection>,
                                    cs: map<nat, Connection>, objs: map<Endpoint, Connection>, id: nat)
      requires IndexedBy(ms, ws, cs, objs)
      ensures IndexedBy(ms, ws - {id}, cs, objs - {Endpoint(SwitchKind, id)})
    {
    }

    static lemma IndexedEraseSchema(ms: map<nat, Connection>, ws: map<nat, Connection>,
                                    cs: map<nat, Connection>, objs: map<Endpoint, Connection>, id: nat)
      requires IndexedBy(ms, ws, cs, objs)
      ensures IndexedBy(ms, ws, cs - {id}, objs - {Endpoint(SchemaKind, id)})
    {
    }

    /** Registering a machine under its id, and its name in the index, keeps
        the index exact; likewise for a switch and a nested schema. */
    static lemma IndexedInsertMachine(ms: map<nat, Connection>, ws: map<nat, Connection>,
                                      cs: map<nat, Connection>, objs: map<Endpoint, Connection>, c: Connection)
      requires IndexedBy(ms, ws, cs, objs) && c.kind == MachineKind
      ensures IndexedBy(ms[c.id := c], ws, cs, objs[c.Ep() := c])
    {
    }

    static lemma IndexedInsertSwitch(ms: map<nat, Connection>, ws: map<nat, Connection>,
                                     cs: map<nat, Connection>, objs: map<Endpoint, Connection>, c: Connection)
      requires IndexedBy(ms, ws, cs, objs) && c.kind == SwitchKind
      ensures IndexedBy(ms, ws[c.id := c], cs, objs[c.Ep() := c])
    {
    }

    static lemma IndexedInsertSchema(ms: map<nat, Connection>, ws: map<nat, Connection>,
                                     cs: map<nat, Connection>, objs: map<Endpoint, Connection>, c: Connection)
      requires IndexedBy(ms, ws, cs, objs) && c.kind == SchemaKind
      ensures IndexedBy(ms, ws, cs[c.id := c], objs[c.Ep() := c])
    {
    }

    /** `objects` lists exactly the registered entities, each under its own
        kind and id. */
    ghost predicate Indexed()
      reads this`machines, this`switches, this`schemas, this`objects
    {
      IndexedBy(machines, switches, schemas, objects)
    }

    /** The abstract topology: every registered entity's link map, and the
        link registry. */
    ghost function View(): Graph
      reads this`objects, this`links, Nodes()
    {
      Graph(map e | e in objects :: objects[e].connectedLinks, links)
    }

    /** The schema invariant: the registries are indexed, the topology is well
        formed, and no link id at or above `nextLinkId` is in use. */
    ghost predicate Valid()
      reads this, Nodes()
    {
      && Indexed()
      && Wf(View())
      && (forall lid :: lid in links ==> lid < nextLinkId)
    }

    /** Resolving a name finds the indexed entity. */
    lemma LookupIs(e: Endpoint)
      requires Indexed()
      ensures Lookup(e).Some? <==> e in objects
      ensures e in objects ==> Lookup(e).value == objects[e]
    {
    }

    /** A graph that lists exactly the registered entities with their maps,
        and the link registry, is the view. */
    lemma ViewIs(g: Graph)
      requires objects.Keys == g.nodes.Keys
      requires forall x :: x in g.nodes ==> g.nodes[x] == objects[x].connectedLinks
      requires links == g.links
      ensures View() == g
    {
      assert View().nodes == g.nodes;
    }

    /** Records `l` in the link map of the registered entity `c`. */
    method AttachTo(c: Connection, l: Link)
      requires Indexed() && c.Ep() in objects && objects[c.Ep()] == c
      modifies c
      ensures View() == Graph(old(View()).nodes[c.Ep() := old(c.connectedLinks)[l.id := l]], links)
    {
      ghost var g0 := View();
      ghost var g1 := Graph(g0.nodes[c.Ep() := c.connectedLinks[l.id := l]], links);
      c.AddConnectedLink(l);
      forall x | x in objects
        ensures g1.nodes[x] == objects[x].connectedLinks
      {
        if x != c.Ep() {
          assert objects[x].Ep() == x;
        }
      }
      ViewIs(g1);
    }

    /** Drops link `l` from the link map of the registered entity `c`
        (`removeConnectedLink`); the registry is not touched. */
    method DetachFrom(c: Connection, l: Link)
      requires Indexed() && c.Ep() in objects && objects[c.Ep()] == c
      modifies c
      ensures View() == Graph(old(View()).nodes[c.Ep() := old(View()).nodes[c.Ep()] - {l.id}], old(View()).links)
    {
      ghost var g0 := View();
      ghost var g1 := Graph(g0.nodes[c.Ep() := c.connectedLinks - {l.id}], links);
      c.RemoveConnectedLink(l);
      forall x | x in objects
        ensures g1.nodes[x] == objects[x].connectedLinks
      {
        if x != c.Ep() {
          assert objects[x].Ep() == x;
        }
      }
      ViewIs(g1);
    }

    /** Records `l` in the registry and in the link maps of its two
        endpoints, `b` and `e`, and moves the id counter past it. */
    method Attach(b: Connection, e: Connection, l: Link)
      requires l.begin in objects && objects[l.begin] == b
      requires l.end in objects && objects[l.end] == e
      requires Indexed() && l.begin != l.end
      modifies this`links, this`nextLinkId, b, e
      ensures nextLinkId == l.id + 1
      ensures View() == Connect(old(View()), l)
    {
      AttachTo(b, l);
      AttachTo(e, l);
      links := links[l.id := l];
      nextLinkId := l.id + 1;
      ViewIs(Connect(old(View()), l));
    }

    /** `addLink({begin, end})`: a link under a fresh id between two distinct
        registered entities is put in the registry and in both entities' link
        maps. A pair that is not of that kind (a self-link, or an entity that is
        no longer registered) is rejected and nothing changes. */
    method AddLink(b: Connection, e: Connection) returns (r: Option<Link>)
      requires Valid()
      modifies this`links, this`nextLinkId, Nodes()
      ensures Valid()
      ensures r.Some? <==> b != e && old(Lookup(b.Ep())) == Some(b) && old(Lookup(e.Ep())) == Some(e)
      ensures r.Some? ==> && r.value == Link(old(nextLinkId), b.Ep(), e.Ep())
                          && r.value.begin in old(View()).nodes && r.value.end in old(View()).nodes
                          && View() == Connect(old(View()), r.value)
      ensures r.None? ==> View() == old(View()) && nextLinkId == old(nextLinkId)
    {
      if b == e || Lookup(b.Ep()) != Some(b) || Lookup(e.Ep()) != Some(e) {
        return None;
      }
      var l := Link(nextLinkId, b.Ep(), e.Ep());
      ghost var g0 := View();
      LookupIs(l.begin);
      LookupIs(l.end);
      CascadeDelete.ConnectKeepsWf(g0, l);
      Attach(b, e, l);
      r := Some(l);
    }

    /** Registering a new machine, as the table's `addMachine` factory does: it
        is stored in `machines` under its id, with no links yet. */
    method RegisterMachine(c: Connection)
      requires Indexed()
      requires c.kind == MachineKind && c.id !in machines && c.connectedLinks == map[]
      modifies this`machines, this`objects
      ensures Indexed()
      ensures machines == old(machines)[c.id := c]
      ensures View() == Graph(old(View()).nodes[c.Ep() := map[]], old(View()).links)
      ensures old(Valid()) ==> Valid()
    {
      ghost var g0 := View();
      ghost var valid := Valid();
      assert c.Ep() !in g0.nodes;
      IndexedInsertMachine(machines, switches, schemas, objects, c);
      machines := machines[c.id := c];
      objects := objects[c.Ep() := c];
      ViewIs(Graph(g0.nodes[c.Ep() := map[]], g0.links));
      if valid {
        CascadeDelete.AddIsolatedKeepsWf(g0, c.Ep());
        assert Wf(View()) && links == old(links) && nextLinkId == old(nextLinkId);
      }
    }

    /** Registering a new switch, as the table's `addSwitch` factory does: it
        is stored in `switches` under its id, with no links yet. */
    method RegisterSwitch(c: Connection)
      requires Indexed()
      requires c.kind == SwitchKind && c.id !in switches && c.connectedLinks == map[]
      modifies this`switches, this`objects
      ensures Indexed()
      ensures switches == old(switches)[c.id := c]
      ensures View() == Graph(old(View()).nodes[c.Ep() := map[]], old(View()).links)
      ensures old(Valid()) ==> Valid()
    {
      ghost var g0 := View();
      ghost var valid := Valid();
      assert c.Ep() !in g0.nodes;
      IndexedInsertSwitch(machines, switches, schemas, objects, c);
      switches := switches[c.id := c];
      objects := objects[c.Ep() := c];
      ViewIs(Graph(g0.nodes[c.Ep() := map[]], g0.links));
      if valid {
        CascadeDelete.AddIsolatedKeepsWf(g0, c.Ep());
        assert Wf(View()) && links == old(links) && nextLinkId == old(nextLinkId);
      }
    }

    /** Registering a new nested schema, as the table's `addSchema` factory does: it
        is stored in `schemas` under its id, with no links yet. */
    method RegisterSchema(c: Connection)
      requires Indexed()
      requires c.kind == SchemaKind && c.id !in schemas && c.connectedLinks == map[]
      modifies this`schemas, this`objects
      ensures Indexed()
      ensures schemas == old(schemas)[c.id := c]
      ensures View() == Graph(old(View()).nodes[c.Ep() := map[]], old(View()).links)
      ensures old(Valid()) ==> Valid()
    {
      ghost var g0 := View();
      ghost var valid := Valid();
      assert c.Ep() !in g0.nodes;
      IndexedInsertSchema(machines, switches, schemas, objects, c);
      schemas := schemas[c.id := c];
      objects := objects[c.Ep() := c];
      ViewIs(Graph(g0.nodes[c.Ep() := map[]], g0.links));
      if valid {
        CascadeDelete.AddIsolatedKeepsWf(g0, c.Ep());
        assert Wf(View()) && links == old(links) && nextLinkId == old(nextLinkId);
      }
    }

    /** `deleteLink(id)`: the link leaves the registry; absent ids are a
        no-op. No link map is touched. */
    method DeleteLink(id: nat)
      modifies this`links
      ensures links == old(links) - {id}
      ensures View() == Graph(old(View()).nodes, old(View()).links - {id})
    {
      ghost var g := Graph(View().nodes, View().links - {id});
      links := links - {id};
      ViewIs(g);
    }

    /** `deleteMachine(id)`: the machine leaves its registry; absent ids are a
        no-op. No link map is touched. */
    method DeleteMachine(id: nat)
      requires Indexed()
      modifies this`machines, this`objects
      ensures Indexed()
      ensures machines == old(machines) - {id}
      ensures objects == old(objects) - {Endpoint(MachineKind, id)}
      ensures View() == Erase(old(View()), Endpoint(MachineKind, id))
    {
      ghost var g := Erase(View(), Endpoint(MachineKind, id));
      IndexedEraseMachine(machines, switches, schemas, objects, id);
      machines := machines - {id};
      objects := objects - {Endpoint(MachineKind, id)};
      ViewIs(g);
    }

    /** `deleteSwitch(id)`: the switch leaves its registry; absent ids are a
        no-op. No link map is touched. */
    method DeleteSwitch(id: nat)
      requires Indexed()
      modifies this`switches, this`objects
      ensures Indexed()
      ensures switches == old(switches) - {id}
      ensures objects == old(objects) - {Endpoint(SwitchKind, id)}
      ensures View() == Erase(old(View()), Endpoint(SwitchKind, id))
    {
      ghost var g := Erase(View(), Endpoint(SwitchKind, id));
      IndexedEraseSwitch(machines, switches, schemas, objects, id);
      switches := switches - {id};
      objects := objects - {Endpoint(SwitchKind, id)};
      ViewIs(g);
    }

    /** `deleteSchema(id)`: the nested schema leaves its registry; absent ids
        are a no-op. No link map is touched. */
    method DeleteSchema(id: nat)
      requires Indexed()
      modifies this`schemas, this`objects
      ensures Indexed()
      ensures schemas == old(schemas) - {id}
      ensures objects == old(objects) - {Endpoint(SchemaKind, id)}
      ensures View() == Erase(old(View()), Endpoint(SchemaKind, id))
    {
      ghost var g := Erase(View(), Endpoint(SchemaKind, id));
      IndexedEraseSchema(machines, switches, schemas, objects, id);
      schemas := schemas - {id};
      objects := objects - {Endpoint(SchemaKind, id)};
      ViewIs(g);
    }
  }
}
