/** One streaming call of the notification service, from its memberships to its removal. */
module Sessions {
  import opened Clients
  import opened Common
  import M = Memberships
  import R = Registry
  import opened Relation

  lemma OneMoreGallery(rel: Relation, conn: UUID, user: UUID, galleries: set<UUID>, gallery: UUID)
    ensures Subscribed(rel[conn := Entry(user, galleries)], conn, gallery) == rel[conn := Entry(user, galleries + {gallery})]
  {
  }

  lemma AllGalleries(rel: Relation, conn: UUID, user: UUID, galleries: set<UUID>)
    ensures var row := Created(rel, conn, user)[conn];
            Created(rel, conn, user)[conn := Entry(row.user, row.galleries + galleries)]
            == rel[conn := Entry(user, galleries)]
  {
    assert {} + galleries == galleries;
  }

  class Server<Message> {
    const registry: R.Registry<Message>

    constructor (registry: R.Registry<Message>)
      ensures this.registry == registry
    {
      this.registry := registry;
    }

    /** Up to the wait for the client to go away. The new connection is registered for the
        galleries resolved and no others; when they cannot be resolved there is none. */
    method Subscribe(userID: UUID, weather: M.Weather, connectionID: UUID, stream: Stream<Message>)
      returns (r: Result<seq<UUID>, Code>, queries: nat)
      requires registry.Valid() && connectionID !in registry.connections
      requires forall k: nat :: weather(k).Some? ==> M.WellFormed(weather(k).value)
      modifies registry, registry.objects
      ensures registry.Valid()
      ensures userID == NIL ==> r == Err(Unauthenticated)
      ensures r.Err? && userID != NIL ==> r == Err(Internal) && queries > 0 && weather(queries - 1) == None
      ensures r.Err? ==> registry.contents == old(registry.contents)
      ensures r.Ok? ==>
                && M.ResolvedBy(weather, userID, queries, r.value)
                && registry.contents == old(registry.contents)[connectionID := Entry(userID, Elements(r.value))]
                && connectionID in registry.connections && registry.connections[connectionID].stream == stream
    {
      if userID == NIL {
        return Err(Unauthenticated), 0;
      }
      r, queries := M.ResolveMemberships(userID, weather);
      if r.Err? {
        return;
      }
      Open(userID, connectionID, stream, r.value);
    }

    /** The deferred removal, once the client is gone: this connection leaves the registry and
        nothing else does, whatever has happened meanwhile. */
    method Disconnect(connectionID: UUID)
      requires registry.Valid()
      modifies registry
      ensures registry.Valid()
      ensures registry.contents == Removed(old(registry.contents), connectionID)
      ensures registry.connections == old(registry.connections) - {connectionID}
    {
      registry.RemoveClient(connectionID);
    }

    method Open(userID: UUID, connectionID: UUID, stream: Stream<Message>, ids: seq<UUID>)
      requires registry.Valid() && connectionID !in registry.connections
      modifies registry, registry.objects
      ensures registry.Valid()
      ensures registry.contents == old(registry.contents)[connectionID := Entry(userID, Elements(ids))]
      ensures connectionID in registry.connections && registry.connections[connectionID].stream == stream
    {
      registry.CreateClient(connectionID, userID, stream);
      AllGalleries(old(registry.contents), connectionID, userID, Elements(ids));
      SubscribeAll(connectionID, ids);
    }

    method SubscribeAll(connectionID: UUID, ids: seq<UUID>)
      requires registry.Valid() && connectionID in registry.contents
      modifies registry, registry.objects
      ensures registry.Valid() && registry.connections == old(registry.connections)
      ensures var row := old(registry.contents)[connectionID];
              registry.contents == old(registry.contents)[connectionID := Entry(row.user, row.galleries + Elements(ids))]
    {
      ghost var rel, row := registry.contents, registry.contents[connectionID];
      NoGalleries(rel, connectionID);
      for i := 0 to |ids|
        invariant registry.Valid()
        invariant registry.connections == old(registry.connections) && registry.objects == old(registry.objects)
        invariant registry.contents == rel[connectionID := Entry(row.user, row.galleries + Elements(ids[..i]))]
      {
        OneMoreGallery(rel, connectionID, row.user, row.galleries + Elements(ids[..i]), ids[i]);
        assert ids[..i + 1] == ids[..i] + [ids[i]];
        Extend(ids[..i], ids[i]);
        assert (row.galleries + Elements(ids[..i])) + {ids[i]} == row.galleries + Elements(ids[..i + 1]);
        registry.Subscribe(connectionID, ids[i]);
      }
      assert ids[..|ids|] == ids;
    }

    lemma NoGalleries(rel: Relation, conn: UUID)
      requires conn in rel
      ensures rel == rel[conn := Entry(rel[conn].user, rel[conn].galleries + Elements([]))]
    {
      assert rel[conn].galleries + Elements([]) == rel[conn].galleries;
    }
  }
}
