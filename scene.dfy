/**
  The drawing scene: the state of the LINK tool (`lBegin`, `lEnd`), the
  hit-test that finds the entity under the mouse, the cascade delete of the
  selected entities, and the two single-item removers. The scene owns no
  topology of its own: every change goes to its schema.
 */
module Scenes {
  import opened Wrappers
  import opened Topology
  import opened Connections
  import opened Schemas
  import LinkTool
  import CascadeDelete

  /** The tool selected in the toolbar (`pickOp`). */
  datatype PickOp = NONE | PC | SCHEMA | LINK | SWITCH

  /** A least element of a non-empty set of ids. */
  lemma {:induction false} LeastOf(s: set<nat>) returns (m: nat)
    requires s != {}
    ensures m in s && forall j :: j in s ==> m <= j
    decreases s
  {
    var x :| x in s;
    if s == {x} {
      m := x;
    } else {
      var y := LeastOf(s - {x});
      m := if x < y then x else y;
      forall j | j in s
        ensures m <= j
      {
        if j != x {
          assert j in s - {x};
        }
      }
    }
  }

  /** A non-empty set of ids has a least element. */
  lemma MinExists(s: set<nat>)
    requires s != {}
    ensures exists m :: m in s && forall j :: j in s ==> m <= j
  {
    var m := LeastOf(s);
  }

  /** The least id of a non-empty set: `std::map` visits its keys in
      ascending order. */
  function Min(s: set<nat>): (m: nat)
    requires s != {}
    ensures m in s && forall j :: j in s ==> m <= j
  {
    MinExists(s);
    var m :| m in s && forall j :: j in s ==> m <= j;
    m
  }

  /** The first id, in ascending order, whose entity is hit. */
  function FirstHit(ids: set<nat>, hit: nat -> bool): (r: Option<nat>)
    ensures r.Some? ==> r.value in ids && hit(r.value)
    ensures r.Some? ==> forall j :: j in ids && j < r.value ==> !hit(j)
    ensures r.None? <==> forall j :: j in ids ==> !hit(j)
    decreases ids
  {
    if ids == {} then None
    else
      var m := Min(ids);
      if hit(m) then Some(m) else FirstHit(ids - {m}, hit)
  }

  /** `whichConnection` on endpoint names: the first machine hit, else the
      first nested schema hit, else the first switch hit, else nothing. */
  function FirstMatch(machines: set<nat>, schemas: set<nat>, switches: set<nat>,
                      hit: Endpoint -> bool): (r: Option<Endpoint>)
    ensures r.None? <==>
      && (forall k :: k in machines ==> !hit(Endpoint(MachineKind, k)))
      && (forall k :: k in schemas ==> !hit(Endpoint(SchemaKind, k)))
      && (forall k :: k in switches ==> !hit(Endpoint(SwitchKind, k)))
    ensures r.Some? ==> hit(r.value)
    ensures r.Some? && r.value.kind == MachineKind ==>
      && r.value.id in machines
      && (forall k :: k in machines && k < r.value.id ==> !hit(Endpoint(MachineKind, k)))
    ensures r.Some? && r.value.kind == SchemaKind ==>
      && r.value.id in schemas
      && (forall k :: k in machines ==> !hit(Endpoint(MachineKind, k)))
      && (forall k :: k in schemas && k < r.value.id ==> !hit(Endpoint(SchemaKind, k)))
    ensures r.Some? && r.value.kind == SwitchKind ==>
      && r.value.id in switches
      && (forall k :: k in machines ==> !hit(Endpoint(MachineKind, k)))
      && (forall k :: k in schemas ==> !hit(Endpoint(SchemaKind, k)))
      && (forall k :: k in switches && k < r.value.id ==> !hit(Endpoint(SwitchKind, k)))
  {
    match FirstHit(machines, (k: nat) => hit(Endpoint(MachineKind, k)))
    case Some(k) => Some(Endpoint(MachineKind, k))
    case None =>
      match FirstHit(schemas, (k: nat) => hit(Endpoint(SchemaKind, k)))
      case Some(k) => Some(Endpoint(SchemaKind, k))
      case None =>
        match FirstHit(switches, (k: nat) => hit(Endpoint(SwitchKind, k)))
        case Some(k) => Some(Endpoint(SwitchKind, k))
        case None => None
  }

  /** The selected entities of one kind that are present in `g`. */
  function Picked(g: Graph, kind: Kind, selection: set<Endpoint>): set<Endpoint>
  {
    set e | e in selection && e in g.nodes && e.kind == kind
  }

  /** The selected names of one kind among the ids `ids`. */
  function Selected(ids: set<nat>, kind: Kind, selection: set<Endpoint>): set<Endpoint>
  {
    set k | k in ids && Endpoint(kind, k) in selection :: Endpoint(kind, k)
  }

  /** The three passes of `deleteItems` (machines, then switches, then nested
      schemas, each deleting its selected entities) together delete exactly
      the selection, with the cascade of every link touching it. */
  lemma ThreePassesCascade(g: Graph, selection: set<Endpoint>)
    requires Wf(g)
    ensures var g1 := Cascade(g, Picked(g, MachineKind, selection));
            var g2 := Cascade(g1, Picked(g1, SwitchKind, selection));
            Cascade(g2, Picked(g2, SchemaKind, selection)) == Cascade(g, selection)
  {
    var a := Picked(g, MachineKind, selection);
    var g1 := Cascade(g, a);
    var b := Picked(g1, SwitchKind, selection);
    assert b == Picked(g, SwitchKind, selection);
    CascadeDelete.CascadeCompose(g, a, b);
    var g2 := Cascade(g1, b);
    var c := Picked(g2, SchemaKind, selection);
    assert c == Picked(g, SchemaKind, selection);
    CascadeDelete.CascadeCompose(g, a + b, c);
    assert a + b + c == selection * g.nodes.Keys;
    CascadeDelete.CascadeOfPresent(g, selection);
  }

  /** Dropping links keeps every remaining id below the id counter. */
  lemma IdsStayBelow(before: map<nat, Link>, after: map<nat, Link>, next: nat)
    requires after.Keys <= before.Keys
    requires forall lid :: lid in before ==> lid < next
    ensures forall lid :: lid in after ==> lid < next
  {
  }

  /** The ids already handled by a loop over a snapshot grow by one per step. */
  lemma DoneGrows(all: set<nat>, pending: set<nat>, lid: nat)
    requires lid in pending && pending <= all
    ensures (all - pending) + {lid} == all - (pending - {lid})
  {
  }

  /** Removing the names `gone` and then `x` removes `gone + x`. */
  lemma RemoveInTurn<V>(m: map<Endpoint, V>, gone: set<Endpoint>, x: set<Endpoint>)
    ensures (m - gone) - x == m - (gone + x)
  {
    assert ((m - gone) - x).Keys == (m - (gone + x)).Keys;
  }

  /** The three passes of `deleteItems` unregister exactly the selected
      entities: each pass removes the selected names of its kind still
      registered, and every name has one of the three kinds. */
  lemma PassesRemoveSelection<V>(g0: Graph, g1: Graph, g2: Graph, o0: map<Endpoint, V>, o1: map<Endpoint, V>,
                                 o2: map<Endpoint, V>, o3: map<Endpoint, V>, selection: set<Endpoint>)
    requires g0.nodes.Keys == o0.Keys && g1.nodes.Keys == o1.Keys && g2.nodes.Keys == o2.Keys
    requires o1 == o0 - Picked(g0, MachineKind, selection)
    requires o2 == o1 - Picked(g1, SwitchKind, selection)
    requires o3 == o2 - Picked(g2, SchemaKind, selection)
    ensures o3 == o0 - selection
  {
    forall x
      ensures x in o3 <==> x in o0 && x !in selection
    {
      match x.kind {
        case MachineKind =>
        case SwitchKind =>
        case SchemaKind =>
      }
    }
    assert o3.Keys == (o0 - selection).Keys;
  }

  /** Handling id `k` moves its name, when selected, from the names still
      to visit to the names already deleted. */
  lemma SelectedStep(p: set<Endpoint>, gone: set<Endpoint>, ids: set<nat>, k: nat, kind: Kind,
                     selection: set<Endpoint>)
    requires k in ids && p == gone + Selected(ids, kind, selection)
    ensures p == gone + (if Endpoint(kind, k) in selection then {Endpoint(kind, k)} else {})
                 + Selected(ids - {k}, kind, selection)
  {
    var rhs := gone + (if Endpoint(kind, k) in selection then {Endpoint(kind, k)} else {})
               + Selected(ids - {k}, kind, selection);
    forall x
      ensures x in p <==> x in rhs
    {
    }
  }

  class Scene {
    const schema: Schema
    var lBegin: Option<Connection>
    var lEnd: Option<Connection>
    var pickOp: PickOp

    /** A new scene over the table's schema, with no link started and no tool
        picked. */
    constructor (schema: Schema)
      ensures this.schema == schema
      ensures lBegin == None && lEnd == None && pickOp == NONE
      ensures Valid()
    {
      this.schema := schema;
      lBegin := None;
      lEnd := None;
      pickOp := NONE;
    }

    /** The scene invariant: `lEnd` is unset between events. */
    predicate Valid()
      reads this
    {
      lEnd.None?
    }

    /** The state of the LINK tool. */
    function State(): LinkTool.LinkState<Connection>
      reads this
    {
      LinkTool.LinkState(lBegin, lEnd)
    }

    /** `whichConnection(pos)`: the registered entity under the mouse, `hit`
        being the geometric test of each entity's icon. */
    function WhichConnection(hit: Endpoint -> bool): (r: Option<Connection>)
      reads schema`machines, schema`switches, schema`schemas
      ensures var m := FirstMatch(schema.machines.Keys, schema.schemas.Keys, schema.switches.Keys, hit);
        && (r.Some? <==> m.Some?)
        && (r.Some? ==> r.value == schema.Registry(m.value.kind)[m.value.id])
    {
      var m := FirstMatch(schema.machines.Keys, schema.schemas.Keys, schema.switches.Keys, hit);
      if m.None? then None else schema.Lookup(m.value)
    }

    /** What the hit-test finds is a registered entity whose icon is hit, and
        it finds one exactly when some registered entity is hit. */
    lemma WhichConnectionHits(hit: Endpoint -> bool)
      requires schema.Indexed()
      ensures var r := WhichConnection(hit);
        && (r.None? <==> forall x :: x in schema.objects ==> !hit(x))
        && (r.Some? ==> && r.value.Ep() in schema.objects
                        && schema.objects[r.value.Ep()] == r.value
                        && hit(r.value.Ep()))
    {
      var r := WhichConnection(hit);
      forall x | x in schema.objects && hit(x)
        ensures r.Some?
      {
        schema.LookupIs(x);
      }
      if r.Some? {
        var m := FirstMatch(schema.machines.Keys, schema.schemas.Keys, schema.switches.Keys, hit);
        schema.LookupIs(m.value);
      }
    }

    /** The LINK case of `mousePressEvent`: a click whose hit-test finds
        nothing is ignored; the first hit is remembered in `lBegin`; a second
        hit on `lBegin` is ignored; a second hit on another entity sets `lEnd`,
        asks the table for the link `{lBegin, lEnd}` and forgets both. The
        state follows `LinkTool.Step`, and the link created is the one it
        asks for. */
    method LinkClick(hit: Endpoint -> bool) returns (created: Option<Link>)
      requires Valid() && schema.Valid()
      modifies this`lBegin, this`lEnd, schema`links, schema`nextLinkId, schema.Nodes()
      ensures Valid() && schema.Valid()
      ensures var o := LinkTool.Step(old(State()), old(WhichConnection(hit)));
        && State() == o.state
        && (created.Some? ==> o.request.Some?)
        && (o.request.Some? ==>
              (created.Some? <==> && old(schema.Lookup(o.request.value.0.Ep())) == Some(o.request.value.0)
                                  && old(schema.Lookup(o.request.value.1.Ep())) == Some(o.request.value.1)))
        && (created.Some? ==> created.value == Link(old(schema.nextLinkId), o.request.value.0.Ep(),
                                                    o.request.value.1.Ep()))
      ensures created.Some? ==> created.value.begin in old(schema.View()).nodes
                                && created.value.end in old(schema.View()).nodes
      ensures created.Some? ==> schema.View() == Connect(old(schema.View()), created.value)
      ensures created.None? ==> schema.View() == old(schema.View()) && schema.nextLinkId == old(schema.nextLinkId)
    {
      var connection := WhichConnection(hit);
      created := None;
      if connection.None? {
        return;
      }
      if lBegin.None? {
        lBegin := connection;
      } else if lEnd.None? {
        if WhichConnection(hit) == lBegin {
          return;
        }
        ghost var g0 := schema.View();
        lEnd := connection;
        assert schema.View() == g0;
        created := Complete();
      }
    }

    /** The end of a second hit of the LINK tool, once `lEnd` is set: the
        table is asked for the link `{lBegin, lEnd}`, and both are forgotten. */
    method Complete() returns (created: Option<Link>)
      requires schema.Valid() && lBegin.Some? && lEnd.Some?
      modifies this`lBegin, this`lEnd, schema`links, schema`nextLinkId, schema.Nodes()
      ensures schema.Valid()
      ensures lBegin == None && lEnd == None
      ensures created.Some? <==> old(&& lBegin.value != lEnd.value
                                    && schema.Lookup(lBegin.value.Ep()) == lBegin
                                    && schema.Lookup(lEnd.value.Ep()) == lEnd)
      ensures created.Some? ==> && created.value == Link(old(schema.nextLinkId), old(lBegin.value.Ep()), old(lEnd.value.Ep()))
                                && created.value.begin in old(schema.View()).nodes
                                && created.value.end in old(schema.View()).nodes
                                && schema.View() == Connect(old(schema.View()), created.value)
      ensures created.None? ==> schema.View() == old(schema.View()) && schema.nextLinkId == old(schema.nextLinkId)
    {
      var b, e := lBegin.value, lEnd.value;
      ghost var g0 := schema.View();
      lBegin := None;
      lEnd := None;
      assert schema.View() == g0 && schema.Valid();
      created := schema.AddLink(b, e);
    }

    /** Erasing a registered entity from its own registry, with no cascade. */
    method EraseEntity(c: Connection)
      requires schema.Indexed()
      modifies schema`machines, schema`switches, schema`schemas, schema`objects
      ensures schema.Indexed()
      ensures schema.objects == old(schema.objects) - {c.Ep()}
      ensures schema.View() == Topology.Erase(old(schema.View()), c.Ep())
    {
      match c.kind {
        case MachineKind => schema.DeleteMachine(c.id);
        case SwitchKind => schema.DeleteSwitch(c.id);
        case SchemaKind => schema.DeleteSchema(c.id);
      }
    }

    /** The inner loop of one pass of `deleteItems` for a registered entity
        `c`: every link of its map is removed from the other endpoint's map
        (`otherIcon->removeConnectedLink(link)`) and from the registry
        (`schema->deleteLink(linkId)`); `c`'s own map is left as it was. */
    method DetachAll(c: Connection)
      requires schema.Indexed() && Wf(schema.View())
      requires c.Ep() in schema.objects && schema.objects[c.Ep()] == c
      modifies schema`links, schema.Nodes()
      ensures schema.View() == Detached(old(schema.View()), c.Ep(), old(schema.View()).nodes[c.Ep()].Keys)
      ensures schema.nextLinkId == old(schema.nextLinkId)
    {
      var e := c.Ep();
      ghost var g0 := schema.View();
      ghost var own := g0.nodes[e].Keys;
      var pending := c.connectedLinks;
      CascadeDelete.DetachedNothing(g0, e);
      assert own - pending.Keys == {};
      while pending != map[]
        invariant forall lid :: lid in pending ==> lid in g0.nodes[e] && pending[lid] == g0.nodes[e][lid]
        invariant schema.View() == Detached(g0, e, own - pending.Keys)
        invariant schema.nextLinkId == old(schema.nextLinkId)
        decreases pending.Keys
      {
        var lid := Min(pending.Keys);
        var link := pending[lid];
        ghost var done := own - pending.Keys;
        CascadeDelete.DetachStep(g0, e, done, lid);
        var o := Other(link, e);
        schema.LookupIs(o);
        var other := schema.Lookup(o).value;
        ghost var v := schema.View();
        assert other.Ep() == o;
        schema.DetachFrom(other, link);
        ghost var v1 := schema.View();
        assert v1 == Graph(v.nodes[o := v.nodes[o] - {lid}], v.links);
        schema.DeleteLink(lid);
        assert schema.View() == Graph(v1.nodes, v1.links - {lid});
        assert schema.View() == DropLink(v, o, lid);
        DoneGrows(own, pending.Keys, lid);
        pending := pending - {lid};
      }
      assert own - pending.Keys == own;
    }

    /** One pass of `deleteItems` on a selected entity `c`: its links are
        detached, then `c` is erased from its registry. Its effect is the
        cascade delete of `c`. */
    method DeleteEntity(c: Connection)
      requires schema.Valid()
      requires c.Ep() in schema.objects && schema.objects[c.Ep()] == c
      modifies schema`machines, schema`switches, schema`schemas, schema`objects, schema`links, schema.Nodes()
      ensures schema.Valid()
      ensures schema.objects == old(schema.objects) - {c.Ep()}
      ensures schema.View() == Cascade(old(schema.View()), {c.Ep()})
    {
      ghost var g0 := schema.View();
      ghost var n0 := schema.nextLinkId;
      DetachAll(c);
      EraseEntity(c);
      CascadeDelete.DeleteEntityIsCascade(g0, c.Ep());
      CascadeDelete.CascadeKeepsWf(g0, {c.Ep()});
      ghost var r := Cascade(g0, {c.Ep()});
      assert schema.View() == r;
      assert schema.links == r.links && r.links.Keys <= g0.links.Keys;
      IdsStayBelow(g0.links, schema.links, n0);
      assert schema.Indexed() && Wf(schema.View()) && schema.nextLinkId == n0;
    }

    /** One pass of `deleteItems` over the registry of `kind`: its entities
        are visited in ascending id order, and each selected one is deleted
        with its links. */
    method DeletePass(kind: Kind, selection: set<Endpoint>)
      requires schema.Valid()
      modifies schema`machines, schema`switches, schema`schemas, schema`objects, schema`links, schema.Nodes()
      ensures schema.Valid()
      ensures schema.Nodes() <= old(schema.Nodes())
      ensures schema.View() == Cascade(old(schema.View()), Picked(old(schema.View()), kind, selection))
      ensures schema.objects == old(schema.objects) - Picked(old(schema.View()), kind, selection)
    {
      ghost var g0 := schema.View();
      ghost var o0 := schema.objects;
      var ids := schema.Registry(kind).Keys;
      ghost var gone: set<Endpoint> := {};
      PickedAreSelected(kind, selection);
      CascadeDelete.CascadeNothing(g0);
      while ids != {}
        invariant schema.Valid()
        invariant schema.Nodes() <= old(schema.Nodes())
        invariant forall k :: k in ids ==> Endpoint(kind, k) in schema.objects
        invariant Picked(g0, kind, selection) == gone + Selected(ids, kind, selection)
        invariant schema.View() == Cascade(g0, gone)
        invariant schema.objects == o0 - gone
        decreases ids
      {
        var k := Min(ids);
        SelectedStep(Picked(g0, kind, selection), gone, ids, k, kind, selection);
        RemoveInTurn(o0, gone, if Endpoint(kind, k) in selection then {Endpoint(kind, k)} else {});
        gone := Visit(Endpoint(kind, k), selection, g0, gone);
        ids := ids - {k};
      }
      assert Selected(ids, kind, selection) == {};
    }

    /** The names of the selected entities of `kind` in the view are the
        selected names among that kind's registered ids. */
    lemma PickedAreSelected(kind: Kind, selection: set<Endpoint>)
      requires schema.Indexed()
      ensures Picked(schema.View(), kind, selection) == Selected(schema.Registry(kind).Keys, kind, selection)
      ensures forall k :: k in schema.Registry(kind) ==> Endpoint(kind, k) in schema.objects
    {
      forall x
        ensures x in Picked(schema.View(), kind, selection) <==> x in Selected(schema.Registry(kind).Keys, kind, selection)
      {
        schema.LookupIs(x);
      }
      forall k | k in schema.Registry(kind)
        ensures Endpoint(kind, k) in schema.objects
      {
        schema.LookupIs(Endpoint(kind, k));
      }
    }

    /** One step of a pass: the registered entity `e` is deleted, with its
        links, when it is selected, and `gone` grows by it. */
    method Visit(e: Endpoint, selection: set<Endpoint>, ghost g0: Graph, ghost gone: set<Endpoint>)
      returns (ghost gone': set<Endpoint>)
      requires schema.Valid() && e in schema.objects
      requires schema.View() == Cascade(g0, gone)
      modifies schema`machines, schema`switches, schema`schemas, schema`objects, schema`links, schema.Nodes()
      ensures schema.Valid()
      ensures schema.Nodes() <= old(schema.Nodes())
      ensures schema.objects == old(schema.objects) - (if e in selection then {e} else {})
      ensures gone' == gone + (if e in selection then {e} else {})
      ensures schema.View() == Cascade(g0, gone')
    {
      gone' := gone;
      if e in selection {
        schema.LookupIs(e);
        var c := schema.Lookup(e).value;
        DeleteEntity(c);
        CascadeDelete.CascadeCompose(g0, gone, {e});
        gone' := gone + {e};
      }
    }

    /** `deleteItems()`: the selected machines, then the selected switches
        (with `deleteSwitch`), then the selected nested schemas are deleted,
        each with every link touching it. The result is the cascade delete of
        the selection, and the schema stays consistent. */
    method DeleteItems(selection: set<Endpoint>)
      requires schema.Valid()
      modifies schema`machines, schema`switches, schema`schemas, schema`objects, schema`links, schema.Nodes()
      ensures schema.Valid()
      ensures schema.View() == Cascade(old(schema.View()), selection)
      ensures schema.objects == old(schema.objects) - selection
    {
      ghost var g0 := schema.View();
      ghost var o0 := schema.objects;
      DeletePass(MachineKind, selection);
      ghost var g1, o1 := schema.View(), schema.objects;
      DeletePass(SwitchKind, selection);
      ghost var g2, o2 := schema.View(), schema.objects;
      DeletePass(SchemaKind, selection);
      ThreePassesCascade(g0, selection);
      PassesRemoveSelection(g0, g1, g2, o0, o1, o2, schema.objects, selection);
    }

    /** `removeMachine(machine)`: the machine leaves its registry and nothing
        else changes, so its links stay in the registry and in the other
        endpoints' maps. The schema stays consistent exactly when the machine
        had no link. */
    method RemoveMachine(machine: Connection)
      requires schema.Indexed() && machine.kind == MachineKind
      modifies schema`machines, schema`objects
      ensures schema.Indexed()
      ensures schema.objects == old(schema.objects) - {machine.Ep()}
      ensures schema.View() == Topology.Erase(old(schema.View()), machine.Ep())
      ensures old(schema.Valid()) ==>
        (schema.Valid() <==> machine.Ep() !in old(schema.View()).nodes
                             || old(schema.View()).nodes[machine.Ep()] == map[])
    {
      ghost var g0 := schema.View();
      ghost var wasValid := schema.Valid();
      schema.DeleteMachine(machine.id);
      if wasValid {
        CascadeDelete.EraseKeepsWfIffIsolated(g0, machine.Ep());
      }
    }

    /** `removeLink(link)`: the link leaves the registry and nothing else
        changes, so both endpoints still list it. The schema stays consistent
        exactly when the link was not registered to begin with. */
    method RemoveLink(link: Link)
      modifies schema`links
      ensures schema.View() == Graph(old(schema.View()).nodes, old(schema.View()).links - {link.id})
      ensures old(schema.Valid()) ==> (schema.Valid() <==> link.id !in old(schema.links))
    {
      ghost var g0 := schema.View();
      ghost var wasValid := schema.Valid();
      schema.DeleteLink(link.id);
      if wasValid {
        CascadeDelete.UnregisterKeepsWfIffAbsent(g0, link.id);
      }
    }
  }
}
