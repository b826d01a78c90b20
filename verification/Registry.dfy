/** Two-level indexes, as the registry keeps them: an outer key, then a connection. */
module Index {
  import opened Common
  import opened Relation

  type Index<V> = map<UUID, map<UUID, V>>

  predicate Has<V>(ix: Index<V>, key: UUID, conn: UUID) {
    key in ix && conn in ix[key]
  }

  function At<V>(ix: Index<V>, key: UUID, conn: UUID): V
    requires Has(ix, key, conn)
  {
    ix[key][conn]
  }

  /** No inner map is empty. */
  predicate Compact<V>(ix: Index<V>) {
    forall key <- ix :: ix[key] != map[]
  }

  /** Adds one entry, making the inner map when the key is new. */
  function Put<V>(ix: Index<V>, key: UUID, conn: UUID, v: V): Index<V> {
    ix[key := (if key in ix then ix[key] else map[])[conn := v]]
  }

  /** Removes one entry, and the inner map with its last entry. */
  function Drop<V>(ix: Index<V>, key: UUID, conn: UUID): Index<V> {
    if key !in ix then ix
    else if ix[key].Keys <= {conn} then ix - {key}
    else ix[key := ix[key] - {conn}]
  }

  lemma PutEntries<V>(ix: Index<V>, key: UUID, conn: UUID, v: V)
    ensures var r := Put(ix, key, conn, v);
            && (forall k, c :: Has(r, k, c) <==> Has(ix, k, c) || (k == key && c == conn))
            && (forall k, c :: Has(r, k, c) ==> At(r, k, c) == if k == key && c == conn then v else At(ix, k, c))
            && (Compact(ix) ==> Compact(r))
  {
    assert conn in Put(ix, key, conn, v)[key];
  }

  lemma DropEntries<V>(ix: Index<V>, key: UUID, conn: UUID)
    ensures var r := Drop(ix, key, conn);
            && (forall k, c :: Has(r, k, c) <==> Has(ix, k, c) && !(k == key && c == conn))
            && (forall k, c :: Has(r, k, c) ==> At(r, k, c) == At(ix, k, c))
            && (Compact(ix) ==> Compact(r))
  {
    if key in ix && ix[key].Keys <= {conn} {
      assert forall c :: c in ix[key] ==> c in {conn};
    } else if key in ix {
      var c :| c in ix[key] && c != conn;
      assert c in Drop(ix, key, conn)[key];
    }
  }

  /** The index lists every connection under exactly the keys it has, and holds the very
      object the connection table holds. */
  ghost predicate Indexes<V>(ix: Index<V>, conns: map<UUID, V>, keys: map<UUID, set<UUID>>) {
    && Compact(ix)
    && conns.Keys == keys.Keys
    && (forall k, c {:trigger Has(ix, k, c)} :: Has(ix, k, c) <==> c in keys && k in keys[c])
    && (forall k, c {:trigger At(ix, k, c)} :: Has(ix, k, c) ==> c in conns && At(ix, k, c) == conns[c])
  }

  lemma PutKeeps<V>(ix: Index<V>, conns: map<UUID, V>, keys: map<UUID, set<UUID>>, key: UUID, conn: UUID)
    requires Indexes(ix, conns, keys) && conn in conns
    ensures Indexes(Put(ix, key, conn, conns[conn]), conns, keys[conn := keys[conn] + {key}])
  {
    PutEntries(ix, key, conn, conns[conn]);
  }

  lemma DropKeeps<V>(ix: Index<V>, conns: map<UUID, V>, keys: map<UUID, set<UUID>>, key: UUID, conn: UUID)
    requires Indexes(ix, conns, keys) && conn in conns
    ensures Indexes(Drop(ix, key, conn), conns, keys[conn := keys[conn] - {key}])
  {
    DropEntries(ix, key, conn);
  }

  lemma AddKeeps<V>(ix: Index<V>, conns: map<UUID, V>, keys: map<UUID, set<UUID>>, conn: UUID, v: V)
    requires Indexes(ix, conns, keys) && conn !in conns
    ensures Indexes(ix, conns[conn := v], keys[conn := {}])
  {
  }

  lemma ForgetKeeps<V>(ix: Index<V>, conns: map<UUID, V>, keys: map<UUID, set<UUID>>, conn: UUID)
    requires Indexes(ix, conns, keys) && conn in conns && keys[conn] == {}
    ensures Indexes(ix, conns - {conn}, keys - {conn})
  {
  }

  /** The inner map of a key holds the connections that have the key; it exists when there
      are any. */
  lemma InnerMap<V>(ix: Index<V>, conns: map<UUID, V>, keys: map<UUID, set<UUID>>, key: UUID)
    requires Indexes(ix, conns, keys)
    ensures key in ix <==> exists c :: c in keys && key in keys[c]
    ensures key in ix ==> ix[key] == map c | c in conns && key in keys[c] :: conns[c]
  {
    if key in ix {
      assert ix[key].Keys != {};
      var c :| c in ix[key].Keys;
      assert Has(ix, key, c);
      forall d ensures d in ix[key] <==> d in conns && key in keys[d] {
        assert d in ix[key] <==> Has(ix, key, d);
      }
      forall d | d in ix[key] ensures ix[key][d] == conns[d] {
        assert At(ix, key, d) == conns[d];
      }
    } else {
      forall c | c in keys ensures key !in keys[c] {
        assert !Has(ix, key, c);
      }
    }
  }

  /** Both indexes agree with the relation. */
  ghost predicate Agree<V>(users: Index<V>, galleries: Index<V>, conns: map<UUID, V>, rel: Relation) {
    && Indexes(users, conns, UserKeys(rel))
    && Indexes(galleries, conns, GalleryKeys(rel))
  }

  lemma AgreeAfterCreate<V>(users: Index<V>, galleries: Index<V>, conns: map<UUID, V>, rel: Relation,
          conn: UUID, user: UUID, v: V)
    requires Agree(users, galleries, conns, rel) && conn !in conns
    ensures Agree(Put(users, user, conn, v), galleries, conns[conn := v], Created(rel, conn, user))
  {
    KeysAfterCreate(rel, conn, user);
    AddKeeps(users, conns, UserKeys(rel), conn, v);
    AddKeeps(galleries, conns, GalleryKeys(rel), conn, v);
    PutKeeps(users, conns[conn := v], UserKeys(rel)[conn := {}], user, conn);
    assert UserKeys(rel)[conn := {}][conn] + {user} == {user};
    assert UserKeys(rel)[conn := {}][conn := {user}] == UserKeys(rel)[conn := {user}];
  }

  lemma AgreeAfterSubscribe<V>(users: Index<V>, galleries: Index<V>, conns: map<UUID, V>, rel: Relation,
          conn: UUID, gallery: UUID)
    requires Agree(users, galleries, conns, rel) && conn in conns
    ensures conn in rel
    ensures Agree(users, Put(galleries, gallery, conn, conns[conn]), conns, Subscribed(rel, conn, gallery))
  {
    KeysAfterSubscribe(rel, conn, gallery);
    PutKeeps(galleries, conns, GalleryKeys(rel), gallery, conn);
  }

  lemma AgreeAfterLeave<V>(users: Index<V>, galleries: Index<V>, conns: map<UUID, V>, rel: Relation,
          conn: UUID, gallery: UUID)
    requires Agree(users, galleries, conns, rel) && conn in conns
    ensures conn in rel
    ensures Agree(users, Drop(galleries, gallery, conn), conns, LeftOne(rel, conn, gallery))
  {
    KeysAfterLeave(rel, conn, gallery);
    DropKeeps(galleries, conns, GalleryKeys(rel), gallery, conn);
  }

  /** `cleared` is the gallery index once the connection is out of all its galleries. */
  lemma AgreeAfterRemove<V>(users: Index<V>, galleries: Index<V>, cleared: Index<V>, conns: map<UUID, V>,
          rel: Relation, conn: UUID)
    requires Agree(users, galleries, conns, rel) && conn in conns
    requires Indexes(cleared, conns, GalleryKeys(rel)[conn := {}])
    ensures conn in rel
    ensures Agree(Drop(users, rel[conn].user, conn), cleared, conns - {conn}, Removed(rel, conn))
  {
    KeysAfterRemove(rel, conn);
    var keys := UserKeys(rel);
    DropKeeps(users, conns, keys, rel[conn].user, conn);
    ForgetKeeps(Drop(users, rel[conn].user, conn), conns, keys[conn := keys[conn] - {rel[conn].user}], conn);
    assert keys[conn := keys[conn] - {rel[conn].user}] - {conn} == keys - {conn};
    ForgetKeeps(cleared, conns, GalleryKeys(rel)[conn := {}], conn);
    assert GalleryKeys(rel)[conn := {}] - {conn} == GalleryKeys(rel) - {conn};
  }
}

/** The objects a registry shares between its indexes. */
module Clients {
  import opened Common
  import opened Relation

  /** The server side of one streaming call; `handed` is what was given to it to send. */
  class Stream<Message> {
    var handed: seq<Message>

    constructor ()
      ensures handed == []
    {
      handed := [];
    }
  }

  /** One connection of one user. */
  class Client<Message> {
    const id: UUID
    const userID: UUID
    const stream: Stream<Message>
    var galleries: set<UUID>

    constructor (id: UUID, userID: UUID, stream: Stream<Message>)
      ensures this.id == id && this.userID == userID && this.stream == stream
      ensures galleries == {}
    {
      this.id, this.userID, this.stream := id, userID, stream;
      galleries := {};
    }
  }

  function ClientIds<Message>(clients: seq<Client<Message>>): (ids: seq<UUID>)
    ensures |ids| == |clients| && forall i :: 0 <= i < |clients| ==> ids[i] == clients[i].id
  {
    seq(|clients|, i requires 0 <= i < |clients| => clients[i].id)
  }

  /** No two clients share a stream. */
  ghost predicate Separate<Message>(clients: map<UUID, Client<Message>>) {
    forall c <- clients, d <- clients :: c != d ==> clients[c].stream != clients[d].stream
  }

  /** What each client has been handed since `before`: the message, if it is one of `sent`. */
  ghost predicate Handed<Message>(clients: map<UUID, Client<Message>>, before: map<UUID, seq<Message>>,
          sent: set<UUID>, n: Message)
    requires before.Keys == clients.Keys
    reads set c <- clients :: clients[c].stream
  {
    forall c <- clients :: clients[c].stream.handed == before[c] + (if c in sent then [n] else [])
  }

  /** Connections are filed under their own identifiers, and each client object carries
      its row of the relation. */
  ghost predicate Carries<Message>(connections: map<UUID, Client<Message>>, rel: Relation, objects: set<Client<Message>>)
    reads objects
  {
    && rel.Keys == connections.Keys
    && (forall c <- connections :: connections[c] in objects && connections[c].id == c
                                   && rel[c] == Entry(connections[c].userID, connections[c].galleries))
  }

  lemma CarriesOneMore<Message>(connections: map<UUID, Client<Message>>, rel: Relation,
          objects: set<Client<Message>>, client: Client<Message>)
    requires Carries(connections, rel, objects) && client.galleries == {}
    ensures Carries(connections[client.id := client], Created(rel, client.id, client.userID), objects + {client})
  {
  }
}

/** The connection registry of one notification replica: three indexes over shared
    `Client` objects, kept in step with one flat relation. */
module Registry {
  import opened Clients
  import opened Common
  import opened Index
  import opened Relation

  class Registry<Message> {
    var galleries: Index<Client<Message>>
    var clients: Index<Client<Message>>
    var connections: map<UUID, Client<Message>>

    /** The relation the three indexes stand for. */
    ghost var contents: Relation

    /** The client objects the registry may hold. */
    ghost var objects: set<Client<Message>>

    ghost predicate Identified()
      reads `connections, `contents, `objects, objects
    {
      Carries(connections, contents, objects)
    }

    /** Each connection has a stream of its own. */
    ghost predicate SeparateStreams()
      reads this
    {
      Separate(connections)
    }

    ghost function Streams(): set<Stream<Message>>
      reads this
    {
      set c <- connections :: connections[c].stream
    }

    ghost predicate Valid()
      reads this, objects
    {
      Identified() && Agree(clients, galleries, connections, contents)
    }

    constructor ()
      ensures Valid() && contents == map[] && connections == map[]
    {
      galleries, clients, connections, contents := map[], map[], map[], map[];
      objects := {};
    }

    /** `connectionID` stands for the freshly drawn random identifier. */
    method CreateClient(connectionID: UUID, userID: UUID, stream: Stream<Message>)
      requires Valid()
      requires connectionID !in connections
      modifies this
      ensures Valid()
      ensures contents == Created(old(contents), connectionID, userID)
      ensures connectionID in connections && connections == old(connections)[connectionID := connections[connectionID]]
      ensures connections[connectionID].stream == stream
      ensures fresh(objects - old(objects))
    {
      var client := new Client(connectionID, userID, stream);
      Register(client);
    }

    method Register(client: Client<Message>)
      requires Valid()
      requires client.id !in connections && client.galleries == {}
      modifies this
      ensures Valid()
      ensures contents == Created(old(contents), client.id, client.userID)
      ensures connections == old(connections)[client.id := client]
      ensures objects == old(objects) + {client}
    {
      AgreeAfterCreate(clients, galleries, connections, contents, client.id, client.userID, client);
      CarriesOneMore(connections, contents, objects, client);
      Install(connections[client.id := client], Put(clients, client.userID, client.id, client),
              Created(contents, client.id, client.userID), objects + {client});
    }

    /** Puts new connection and user maps in place. */
    method Install(conns: map<UUID, Client<Message>>, users: Index<Client<Message>>,
            ghost rel: Relation, ghost objs: set<Client<Message>>)
      requires Carries(conns, rel, objs) && Agree(users, galleries, conns, rel)
      modifies `connections, `clients, `contents, `objects
      ensures Valid()
      ensures connections == conns && clients == users && contents == rel && objects == objs
    {
      connections, clients := conns, users;
      contents, objects := rel, objs;
    }

    method Subscribe(connectionID: UUID, galleryID: UUID)
      requires Valid()
      modifies this, objects
      ensures Valid() && connections == old(connections) && objects == old(objects)
      ensures contents == Subscribed(old(contents), connectionID, galleryID)
    {
      if connectionID !in connections {
        return;
      }
      var client := connections[connectionID];
      if galleryID in client.galleries {
        assert client.galleries + {galleryID} == client.galleries;
        return;
      }
      Enrol(galleryID, client);
    }

    /** Notes the galleries of one client, in its object and in the relation. */
    method Mark(client: Client<Message>, galleryIDs: set<UUID>)
      requires Identified()
      requires client.id in connections && connections[client.id] == client
      modifies `contents, client
      ensures Identified()
      ensures contents == old(contents)[client.id := Entry(client.userID, galleryIDs)]
    {
      client.galleries := galleryIDs;
      contents := contents[client.id := Entry(client.userID, galleryIDs)];
    }

    /** Notes a gallery on a client and lists the client in the gallery's index. */
    method Enrol(galleryID: UUID, client: Client<Message>)
      requires Valid()
      requires client.id in connections && connections[client.id] == client
      modifies `galleries, `contents, client
      ensures Valid()
      ensures contents == Subscribed(old(contents), client.id, galleryID)
    {
      AgreeAfterSubscribe(clients, galleries, connections, contents, client.id, galleryID);
      galleries := Put(galleries, galleryID, client.id, client);
      Mark(client, client.galleries + {galleryID});
    }

    /** Takes a gallery off a client and the client out of the gallery's index. */
    method Withdraw(galleryID: UUID, client: Client<Message>)
      requires Valid()
      requires client.id in connections && connections[client.id] == client
      modifies `galleries, `contents, client
      ensures Valid()
      ensures contents == LeftOne(old(contents), client.id, galleryID)
    {
      AgreeAfterLeave(clients, galleries, connections, contents, client.id, galleryID);
      galleries := Drop(galleries, galleryID, client.id);
      Mark(client, client.galleries - {galleryID});
    }

    lemma OwnConnections(userID: UUID)
      requires Valid()
      ensures userID !in clients ==> Owned(contents, userID) == {}
      ensures userID in clients ==> clients[userID].Keys == Owned(contents, userID)
      ensures userID in clients ==> forall c <- clients[userID] :: c in connections && clients[userID][c] == connections[c]
    {
      InnerMap(clients, connections, UserKeys(contents), userID);
    }

    /** Registers all of a user's connections for a gallery. */
    method AddGalleryForClient(galleryID: UUID, userID: UUID)
      requires Valid()
      modifies this, objects
      ensures Valid() && connections == old(connections) && objects == old(objects)
      ensures contents == Joined(old(contents), galleryID, userID)
    {
      OwnConnections(userID);
      if userID !in clients {
        return;
      }
      EnrolAll(galleryID, clients[userID]);
    }

    method EnrolAll(galleryID: UUID, own: map<UUID, Client<Message>>)
      requires Valid()
      requires forall c <- own :: c in connections && own[c] == connections[c]
      modifies `galleries, `contents, objects
      ensures Valid()
      ensures contents == JoinedBy(old(contents), galleryID, own.Keys)
    {
      var todo := own.Keys;
      ghost var done: set<UUID> := {};
      while todo != {}
        invariant todo + done == own.Keys && todo !! done
        invariant Valid() && contents == JoinedBy(old(contents), galleryID, done)
      {
        var c :| c in todo;
        JoinOneMore(old(contents), galleryID, done, c);
        todo, done := todo - {c}, done + {c};
        assert todo + done == own.Keys && todo !! done;
        Enrol(galleryID, own[c]);
      }
      assert done == own.Keys;
    }

    /** Removes all of a user's connections from a gallery. */
    method Unsubscribe(galleryID: UUID, userID: UUID)
      requires Valid()
      modifies this, objects
      ensures Valid() && connections == old(connections) && objects == old(objects)
      ensures contents == Left(old(contents), galleryID, userID)
    {
      OwnConnections(userID);
      if userID !in clients {
        return;
      }
      WithdrawAll(galleryID, clients[userID]);
    }

    method WithdrawAll(galleryID: UUID, own: map<UUID, Client<Message>>)
      requires Valid()
      requires forall c <- own :: c in connections && own[c] == connections[c]
      modifies `galleries, `contents, objects
      ensures Valid()
      ensures contents == LeftBy(old(contents), galleryID, own.Keys)
    {
      var todo := own.Keys;
      ghost var done: set<UUID> := {};
      while todo != {}
        invariant todo + done == own.Keys && todo !! done
        invariant Valid() && contents == LeftBy(old(contents), galleryID, done)
      {
        var c :| c in todo;
        LeaveOneMore(old(contents), galleryID, done, c);
        todo, done := todo - {c}, done + {c};
        assert todo + done == own.Keys && todo !! done;
        if galleryID !in own[c].galleries {
          continue;
        }
        Withdraw(galleryID, own[c]);
      }
      assert done == own.Keys;
    }

    /** Removes one connection from every index. */
    method RemoveClient(connectionID: UUID)
      requires Valid()
      modifies this
      ensures Valid()
      ensures connections == old(connections) - {connectionID}
      ensures objects == old(objects)
      ensures contents == Removed(old(contents), connectionID)
    {
      if connectionID !in connections {
        return;
      }
      var client := connections[connectionID];
      DropFromGalleries(client);
      AgreeAfterRemove(clients, old(galleries), galleries, connections, contents, connectionID);
      clients := Drop(clients, client.userID, connectionID);
      connections := connections - {connectionID};
      contents := Removed(contents, connectionID);
    }

    /** The loop of `RemoveClient`: takes a client out of the index of each of its galleries. */
    method DropFromGalleries(client: Client<Message>)
      requires Agree(clients, galleries, connections, contents)
      requires client.id in contents && contents[client.id].galleries == client.galleries
      modifies this`galleries
      ensures Indexes(galleries, connections, GalleryKeys(contents)[client.id := {}])
    {
      var todo := client.galleries;
      ghost var keys := GalleryKeys(contents);
      assert keys == GalleryKeys(contents)[client.id := todo];
      while todo != {}
        invariant keys == GalleryKeys(contents)[client.id := todo]
        invariant Indexes(galleries, connections, keys)
      {
        var g :| g in todo;
        DropKeeps(galleries, connections, keys, g, client.id);
        galleries := Drop(galleries, g, client.id);
        todo := todo - {g};
        keys := keys[client.id := todo];
      }
    }

    /** The part of `Notify` that holds the read lock: the gallery's clients, in the
        unspecified order of a map iteration. */
    method Snapshot(galleryID: UUID) returns (snapshot: seq<Client<Message>>)
      requires Valid()
      ensures forall client <- snapshot :: client.id in connections && connections[client.id] == client
      ensures Distinct(ClientIds(snapshot))
      ensures Elements(ClientIds(snapshot)) == Subscribers(contents, galleryID)
    {
      snapshot := [];
      ghost var ids: seq<UUID> := [];
      InnerMap(galleries, connections, GalleryKeys(contents), galleryID);
      if galleryID !in galleries {
        return;
      }
      var inner := galleries[galleryID];
      ghost var subs := Subscribers(contents, galleryID);
      assert inner.Keys == subs && forall c <- inner :: c in connections && inner[c] == connections[c];
      var todo := inner.Keys;
      while todo != {}
        invariant todo <= subs
        invariant |ids| == |snapshot| && Distinct(ids)
        invariant forall i :: 0 <= i < |snapshot| ==> ids[i] in inner && snapshot[i] == inner[ids[i]]
        invariant Elements(ids) == subs - todo
      {
        var c :| c in todo;
        Extend(ids, c);
        snapshot, ids := snapshot + [inner[c]], ids + [c];
        todo := todo - {c};
      }
      assert ClientIds(snapshot) == ids;
    }

    /** Sends to one client of a snapshot; a connection whose stream refuses is removed. */
    method Deliver(client: Client<Message>, n: Message, refused: bool)
      requires Valid()
      modifies this, client.stream
      ensures Valid() && objects == old(objects)
      ensures client.stream.handed == old(client.stream.handed) + [n]
      ensures connections == if refused then old(connections) - {client.id} else old(connections)
      ensures contents == if refused then Removed(old(contents), client.id) else old(contents)
    {
      client.stream.handed := client.stream.handed + [n];
      if refused {
        RemoveClient(client.id);
      }
    }

    /** `refusing` is the set of connections whose stream answers with an error. */
    method Notify(galleryID: UUID, n: Message, refusing: set<UUID>)
      requires Valid() && SeparateStreams()
      modifies this, Streams()
      ensures Valid() && objects == old(objects)
      ensures var subs := Subscribers(old(contents), galleryID);
              && connections == old(connections) - (refusing * subs)
              && contents == old(contents) - (refusing * subs)
              && forall c <- old(connections) ::
                   old(connections)[c].stream.handed
                   == old(connections[c].stream.handed) + (if c in subs then [n] else [])
    {
      var snapshot := Snapshot(galleryID);
      SendAll(snapshot, ClientIds(snapshot), n, refusing, Streams());
    }

    /** The registry and the streams when the message has gone to some of the connections. */
    ghost predicate Midway(all: map<UUID, Client<Message>>, rel: Relation, before: map<UUID, seq<Message>>,
            refusing: set<UUID>, sent: set<UUID>, n: Message)
      requires before.Keys == all.Keys
      reads this, objects, set c <- all :: all[c].stream
    {
      && Valid()
      && WithoutRefusing(connections, all, refusing, sent)
      && WithoutRefusing(contents, rel, refusing, sent)
      && Handed(all, before, sent, n)
    }

    /** One turn of the loop of `Notify`. */
    method SendNext(client: Client<Message>, n: Message, refusing: set<UUID>, ghost all: map<UUID, Client<Message>>,
            ghost rel: Relation, ghost before: map<UUID, seq<Message>>, ghost sent: set<UUID>)
      requires before.Keys == all.Keys == rel.Keys && Separate(all)
      requires client.id in all && all[client.id] == client && client.id !in sent
      requires Midway(all, rel, before, refusing, sent, n)
      modifies this, client.stream
      ensures Midway(all, rel, before, refusing, sent + {client.id}, n) && objects == old(objects)
    {
      SendOneMore(connections, all, refusing, sent, client.id);
      SendOneMore(contents, rel, refusing, sent, client.id);
      Deliver(client, n, client.id in refusing);
    }

    /** The loop of `Notify` over its snapshot. */
    method SendAll(snapshot: seq<Client<Message>>, ghost ids: seq<UUID>, n: Message, refusing: set<UUID>,
            ghost streams: set<Stream<Message>>)
      requires Valid() && SeparateStreams()
      requires forall c <- connections :: connections[c].stream in streams
      requires |ids| == |snapshot| && Distinct(ids)
      requires forall i :: 0 <= i < |ids| ==> ids[i] in connections && snapshot[i] == connections[ids[i]]
      modifies this, streams
      ensures Valid() && objects == old(objects)
      ensures connections == old(connections) - (refusing * Elements(ids))
      ensures contents == old(contents) - (refusing * Elements(ids))
      ensures forall c <- old(connections) ::
                old(connections)[c].stream.handed
                == old(connections[c].stream.handed) + (if c in Elements(ids) then [n] else [])
    {
      ghost var all, rel := connections, contents;
      ghost var before := map c <- all :: all[c].stream.handed;
      NothingSent(all, refusing);
      NothingSent(rel, refusing);
      ElementsOfEnds(ids);
      for i := 0 to |snapshot|
        invariant objects == old(objects)
        invariant Midway(all, rel, before, refusing, Elements(ids[..i]), n)
      {
        ElementsOneMore(ids, i);
        assert snapshot[i] == all[ids[i]] && snapshot[i].id == ids[i];
        SendNext(snapshot[i], n, refusing, all, rel, before, Elements(ids[..i]));
      }
    }
  }
}
