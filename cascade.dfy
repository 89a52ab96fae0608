/**
  Properties of the cascade delete performed by `Scene::deleteItems`, stated on
  the value model: what is removed, what survives unchanged, that the
  well-formedness of the topology is kept, and that the per-entity loop of the
  source computes the closed form `Cascade`.
 */
module CascadeDelete {
  import opened Topology

  /** Deleting a set of entities keeps the topology well formed: no surviving
      endpoint lists a link that is gone, and no surviving link has an endpoint
      that is gone. */
  lemma CascadeKeepsWf(g: Graph, d: set<Endpoint>)
    requires Wf(g)
    ensures Wf(Cascade(g, d))
  {
    var r := Cascade(g, d);
    var dead := Dead(g, d);
    forall lid | lid in r.links
      ensures LinkOk(r, lid)
    {
      var l := g.links[lid];
      assert LinkOk(g, lid);
      assert lid !in dead;
      assert l.begin !in d && l.end !in d;
    }
  }

  /** After the cascade, no registered entity is one of the deleted ones, no
      surviving link touches a deleted entity, and no surviving link map holds
      such a link. */
  lemma CascadeLeavesNoDangling(g: Graph, d: set<Endpoint>)
    requires Wf(g)
    ensures var r := Cascade(g, d);
      && r.nodes.Keys !! d
      && (forall lid :: lid in r.links ==> r.links[lid].begin !in d && r.links[lid].end !in d)
      && (forall e, lid :: e in r.nodes && lid in r.nodes[e] ==>
            r.nodes[e][lid].begin !in d && r.nodes[e][lid].end !in d)
  {
    var r := Cascade(g, d);
    forall e, lid | e in r.nodes && lid in r.nodes[e]
      ensures r.nodes[e][lid].begin !in d && r.nodes[e][lid].end !in d
    {
      assert lid in g.nodes[e] && lid !in Dead(g, d);
    }
  }

  /** Every link listed by a deleted entity is gone: from the link registry and
      from every surviving link map (in particular from the other endpoint's). */
  lemma CascadeRemovesIncidentLinks(g: Graph, d: set<Endpoint>)
    requires Wf(g)
    ensures var r := Cascade(g, d);
      forall e, lid :: e in d && e in g.nodes && lid in g.nodes[e] ==>
        lid !in r.links && forall x :: x in r.nodes ==> lid !in r.nodes[x]
  {
    var r := Cascade(g, d);
    forall e, lid | e in d && e in g.nodes && lid in g.nodes[e]
      ensures lid !in r.links && forall x :: x in r.nodes ==> lid !in r.nodes[x]
    {
      assert lid in Dead(g, d);
    }
  }

  /** Nothing else changes: an entity that is not deleted survives, with its map
      unchanged when none of its links touches a deleted entity; a link that
      touches no deleted entity survives unchanged; and only links touching a
      deleted entity leave the registry. */
  lemma CascadeFrame(g: Graph, d: set<Endpoint>)
    requires Wf(g)
    ensures var r := Cascade(g, d);
      && (forall e :: e in g.nodes && e !in d ==> e in r.nodes && r.nodes[e].Keys <= g.nodes[e].Keys)
      && (forall e, lid :: e in r.nodes && lid in r.nodes[e] ==> r.nodes[e][lid] == g.nodes[e][lid])
      && (forall e :: e in g.nodes && e !in d ==>
            (forall lid :: lid in g.nodes[e] ==> Other(g.nodes[e][lid], e) !in d) ==>
              r.nodes[e] == g.nodes[e])
      && (forall lid :: lid in g.links && g.links[lid].begin !in d && g.links[lid].end !in d ==>
            lid in r.links && r.links[lid] == g.links[lid])
      && (forall lid :: lid in g.links && lid !in r.links ==>
            g.links[lid].begin in d || g.links[lid].end in d)
  {
    var r := Cascade(g, d);
    forall e | e in g.nodes && e !in d &&
        (forall lid :: lid in g.nodes[e] ==> Other(g.nodes[e][lid], e) !in d)
      ensures r.nodes[e] == g.nodes[e]
    {
      forall lid | lid in g.nodes[e]
        ensures lid !in Dead(g, d)
      {
        var l := g.links[lid];
        assert Incident(l, e) && Other(l, e) !in d;
      }
    }
  }

  /** Deleting `a` and then `b` is deleting `a + b`: the passes over machines,
      switches and schemas may be taken in any order, and a link shared by two
      deleted entities is removed once. */
  lemma CascadeCompose(g: Graph, a: set<Endpoint>, b: set<Endpoint>)
    ensures Cascade(Cascade(g, a), b) == Cascade(g, a + b)
  {
    var ga := Cascade(g, a);
    var deadA := Dead(g, a);
    var deadB := Dead(ga, b);
    var deadAB := Dead(g, a + b);
    assert deadAB == deadA + deadB;
    var lhs := Cascade(ga, b);
    var rhs := Cascade(g, a + b);
    assert lhs.links == rhs.links;
    assert lhs.nodes.Keys == rhs.nodes.Keys;
    forall e | e in lhs.nodes
      ensures lhs.nodes[e] == rhs.nodes[e]
    {
      assert lhs.nodes[e] == (g.nodes[e] - deadA) - deadB;
      assert rhs.nodes[e] == g.nodes[e] - deadAB;
    }
  }

  /** Deletion is idempotent: deleting the same entities a second time is a
      no-op. */
  lemma CascadeIdempotent(g: Graph, d: set<Endpoint>)
    ensures Cascade(Cascade(g, d), d) == Cascade(g, d)
  {
    CascadeCompose(g, d, d);
    assert d + d == d;
  }

  /** Selected ids that name no registered entity play no part: the cascade of a
      selection is the cascade of its registered members. */
  lemma CascadeOfPresent(g: Graph, d: set<Endpoint>)
    requires Wf(g)
    ensures Cascade(g, d) == Cascade(g, d * g.nodes.Keys)
  {
    var p := d * g.nodes.Keys;
    forall lid | lid in g.links
      ensures lid in Dead(g, d) <==> lid in Dead(g, p)
    {
      assert LinkOk(g, lid);
    }
    assert Dead(g, d) == Dead(g, p);
    var lhs := Cascade(g, d);
    var rhs := Cascade(g, p);
    assert lhs.nodes.Keys == rhs.nodes.Keys;
  }

  /** The loop of `deleteItems` on one entity (remove each of its links from the
      other endpoint's map and from the registry, then erase the entity)
      computes the cascade delete of that entity alone. */
  lemma DeleteEntityIsCascade(g: Graph, e: Endpoint)
    requires Wf(g)
    ensures DeleteEntity(g, e) == Cascade(g, {e})
  {
    var dead := Dead(g, {e});
    var own := if e in g.nodes then g.nodes[e].Keys else {};
    forall lid
      ensures lid in own <==> lid in dead
    {
      if lid in own {
        assert Incident(g.links[lid], e);
      }
      if lid in dead {
        assert LinkOk(g, lid);
      }
    }
    assert own == dead;
    var lhs := DeleteEntity(g, e);
    var rhs := Cascade(g, {e});
    assert lhs.nodes.Keys == rhs.nodes.Keys;
  }

  /** Before the detach loop has removed any link, nothing has changed. */
  lemma DetachedNothing(g: Graph, e: Endpoint)
    ensures Detached(g, e, {}) == g
  {
    var d := Detached(g, e, {});
    forall x | x in g.nodes
      ensures d.nodes[x] == g.nodes[x]
    {
      assert g.nodes[x] - {} == g.nodes[x];
    }
    assert d.links == g.links;
  }

  /** Deleting nothing changes nothing. */
  lemma CascadeNothing(g: Graph)
    ensures Cascade(g, {}) == g
  {
    var r := Cascade(g, {});
    assert Dead(g, {}) == {};
    forall x | x in g.nodes
      ensures r.nodes[x] == g.nodes[x]
    {
      assert g.nodes[x] - {} == g.nodes[x];
    }
    assert r.links == g.links;
  }

  /** One step of the detach loop: removing link `lid` of `e`'s map from the
      other endpoint's map alone (as `otherIcon->removeConnectedLink(link)`
      does) and then from the registry extends the set of detached links by
      `lid`. */
  lemma DetachStep(g: Graph, e: Endpoint, done: set<nat>, lid: nat)
    requires Wf(g) && e in g.nodes && lid in g.nodes[e]
    ensures g.nodes[e][lid].id == lid
    ensures Other(g.nodes[e][lid], e) != e
    ensures Other(g.nodes[e][lid], e) in Detached(g, e, done).nodes
    ensures DropLink(Detached(g, e, done), Other(g.nodes[e][lid], e), lid)
         == Detached(g, e, done + {lid})
  {
    var l := g.nodes[e][lid];
    assert l == g.links[lid] && Incident(l, e);
    assert LinkOk(g, lid);
    var o := Other(l, e);
    forall x | x in g.nodes && x != e && x != o
      ensures lid !in g.nodes[x]
    {
      NotListedByThird(g, lid, x);
    }
    DropFromDetached(g, e, o, done, lid);
  }

  /** The map algebra of `DetachStep`, once it is known which entities list
      `lid`. */
  lemma DropFromDetached(g: Graph, e: Endpoint, o: Endpoint, done: set<nat>, lid: nat)
    requires e in g.nodes && o in g.nodes && o != e
    requires forall x :: x in g.nodes && x != e && x != o ==> lid !in g.nodes[x]
    ensures DropLink(Detached(g, e, done), o, lid) == Detached(g, e, done + {lid})
  {
    var lhs := DropLink(Detached(g, e, done), o, lid);
    var rhs := Detached(g, e, done + {lid});
    assert lhs.nodes.Keys == rhs.nodes.Keys;
    forall x | x in g.nodes
      ensures lhs.nodes[x] == rhs.nodes[x]
    {
      if x != e && x != o {
        assert lid !in g.nodes[x];
      }
    }
    assert lhs.nodes == rhs.nodes;
  }

  /** Under well-formedness a link is listed by its two endpoints only. */
  lemma NotListedByThird(g: Graph, lid: nat, x: Endpoint)
    requires Wf(g) && lid in g.links && x in g.nodes
    requires x != g.links[lid].begin && x != g.links[lid].end
    ensures lid !in g.nodes[x]
  {
  }

  /** A new link between two distinct registered entities, under a fresh id,
      keeps the topology well formed and is listed by both endpoints. */
  lemma ConnectKeepsWf(g: Graph, l: Link)
    requires Wf(g)
    requires l.begin != l.end && l.begin in g.nodes && l.end in g.nodes && l.id !in g.links
    ensures var r := Connect(g, l);
      && Wf(r)
      && r.nodes.Keys == g.nodes.Keys
      && l.id in r.nodes[l.begin] && l.id in r.nodes[l.end] && r.links[l.id] == l
  {
    var r := Connect(g, l);
    forall lid | lid in r.links
      ensures LinkOk(r, lid)
    {
      if lid != l.id {
        assert LinkOk(g, lid);
      }
    }
    forall e, lid | e in r.nodes && lid in r.nodes[e]
      ensures lid in r.links && r.nodes[e][lid] == r.links[lid] && Incident(r.links[lid], e)
    {
      if lid != l.id {
        assert lid in g.nodes[e];
      }
    }
  }

  /** A new entity with an empty link map keeps the topology well formed. */
  lemma AddIsolatedKeepsWf(g: Graph, e: Endpoint)
    requires Wf(g) && e !in g.nodes
    ensures Wf(Graph(g.nodes[e := map[]], g.links))
  {
    var r := Graph(g.nodes[e := map[]], g.links);
    forall lid | lid in r.links
      ensures LinkOk(r, lid)
    {
      assert LinkOk(g, lid);
    }
  }

  /** Erasing an entity from its registry without detaching its links (as
      `removeMachine` does) keeps the topology well formed exactly when the
      entity lists no link. */
  lemma {:induction false} EraseKeepsWfIffIsolated(g: Graph, e: Endpoint)
    requires Wf(g)
    ensures Wf(Erase(g, e)) <==> e !in g.nodes || g.nodes[e] == map[]
  {
    var r := Erase(g, e);
    if e in g.nodes && g.nodes[e] != map[] {
      var lid :| lid in g.nodes[e];
      assert Incident(g.links[lid], e);
      assert !LinkOk(r, lid);
    } else {
      forall lid | lid in r.links
        ensures LinkOk(r, lid)
      {
        assert LinkOk(g, lid);
        if e in g.nodes {
          assert lid !in g.nodes[e];
        }
      }
    }
  }

  /** Removing a link from the registry alone (as `removeLink` does) keeps the
      topology well formed exactly when the registry did not hold it. */
  lemma {:induction false} UnregisterKeepsWfIffAbsent(g: Graph, lid: nat)
    requires Wf(g)
    ensures Wf(Graph(g.nodes, g.links - {lid})) <==> lid !in g.links
  {
    if lid in g.links {
      assert LinkOk(g, lid);
      var b := g.links[lid].begin;
      assert lid in g.nodes[b];
    } else {
      assert g.links - {lid} == g.links;
    }
  }

  /** The switch pass of `deleteItems` as written: the switch's links are
      detached, but the eraser called is `deleteSchema(switchId)`, so the
      switch stays registered and a schema that happens to carry the same id
      is erased instead, without any cascade of its own links. */
  function SwitchDeleteAsWritten(g: Graph, w: nat): (r: Graph)
    // the switch stays registered, with its link map untouched
    ensures Endpoint(SwitchKind, w) in g.nodes ==>
              Endpoint(SwitchKind, w) in r.nodes && r.nodes[Endpoint(SwitchKind, w)] == g.nodes[Endpoint(SwitchKind, w)]
    // while the nested schema with the same id is gone
    ensures Endpoint(SchemaKind, w) !in r.nodes
  {
    var s := Endpoint(SwitchKind, w);
    var own := if s in g.nodes then g.nodes[s].Keys else {};
    Erase(Detached(g, s, own), Endpoint(SchemaKind, w))
  }

  /** A machine and a switch, both with id 1, joined by link 1. */
  function MachineSwitchPair(): Graph {
    var m := Endpoint(MachineKind, 1);
    var s := Endpoint(SwitchKind, 1);
    var l := Link(1, m, s);
    Graph(map[m := map[1 := l], s := map[1 := l]], map[1 := l])
  }

  /** Deleting the selected switch 1 of `MachineSwitchPair` as written: the
      topology was well formed, the switch is still registered afterwards and
      still lists link 1, which the registry no longer holds. */
  lemma SwitchDeleteAsWrittenLeavesStaleLink()
    ensures Wf(MachineSwitchPair())
    ensures var r := SwitchDeleteAsWritten(MachineSwitchPair(), 1);
      && Endpoint(SwitchKind, 1) in r.nodes
      && 1 in r.nodes[Endpoint(SwitchKind, 1)]
      && 1 !in r.links
      && !Wf(r)
  {
    var g := MachineSwitchPair();
    var s := Endpoint(SwitchKind, 1);
    var r := SwitchDeleteAsWritten(g, 1);
    assert g.nodes[s].Keys == {1};
    assert r.nodes[s] == g.nodes[s];
  }

  /** The switch pass with `deleteSwitch(switchId)`: it is the cascade delete of
      the switch, so the result is well formed and the switch is gone. */
  lemma SwitchDeleteCorrected(g: Graph, w: nat)
    requires Wf(g)
    ensures DeleteEntity(g, Endpoint(SwitchKind, w)) == Cascade(g, {Endpoint(SwitchKind, w)})
    ensures Wf(DeleteEntity(g, Endpoint(SwitchKind, w)))
    ensures Endpoint(SwitchKind, w) !in DeleteEntity(g, Endpoint(SwitchKind, w)).nodes
  {
    DeleteEntityIsCascade(g, Endpoint(SwitchKind, w));
    CascadeKeepsWf(g, {Endpoint(SwitchKind, w)});
  }
}
