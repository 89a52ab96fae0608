/**
  A link endpoint (`Machine : Connection`, and likewise Switch and a nested
  Schema): an entity of one kind and id that owns the map of the links
  touching it. The map is changed in place by its methods.
 */
module Connections {
  import opened Topology

  class Connection {
    /** Which registry the entity belongs to; fixed at creation. */
    const kind: Kind
    /** The entity's id, its key in that registry; fixed at creation. */
    const id: nat
    /** `connected_links`: link id to link, for every link touching this entity. */
    var connectedLinks: LinkMap

    constructor (kind: Kind, id: nat)
      ensures this.kind == kind && this.id == id
      ensures connectedLinks == map[]
    {
      this.kind := kind;
      this.id := id;
      connectedLinks := map[];
    }

    /** The endpoint name of this entity, as links record it. */
    function Ep(): Endpoint
    {
      Endpoint(kind, id)
    }

    /** `setConnectedLinks(m)`: the whole link map is replaced by `m`. */
    method SetConnectedLinks(m: LinkMap)
      modifies this
      ensures connectedLinks == m
    {
      connectedLinks := m;
    }

    /** `addConnectedLink(l)`: `l` is listed under its own id; every other
        entry is kept. */
    method AddConnectedLink(l: Link)
      modifies this
      ensures connectedLinks == old(connectedLinks)[l.id := l]
      ensures l.id in connectedLinks
    {
      connectedLinks := connectedLinks[l.id := l];
    }

    /** `removeConnectedLink(l)`: `l`'s id is no longer listed; every other
        entry is kept. Only this entity's own map changes: neither the other
        endpoint nor the schema's registry is touched. */
    method RemoveConnectedLink(l: Link)
      modifies this
      ensures connectedLinks == old(connectedLinks) - {l.id}
      ensures l.id !in connectedLinks
    {
      connectedLinks := connectedLinks - {l.id};
    }
  }
}
