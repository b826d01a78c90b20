/** The one flat relation behind a registry: which connections exist, whose they are, and
    which galleries each of them is registered for. */
module Relation {
  import opened Common

  datatype Entry = Entry(user: UUID, galleries: set<UUID>)

  type Relation = map<UUID, Entry>

  function Created(rel: Relation, conn: UUID, user: UUID): Relation {
    rel[conn := Entry(user, {})]
  }

  function Subscribed(rel: Relation, conn: UUID, gallery: UUID): Relation {
    if conn in rel
    then rel[conn := rel[conn].(galleries := rel[conn].galleries + {gallery})]
    else rel
  }

  function JoinedBy(rel: Relation, gallery: UUID, conns: set<UUID>): Relation {
    map c | c in rel ::
      if c in conns then Entry(rel[c].user, rel[c].galleries + {gallery}) else rel[c]
  }

  function LeftBy(rel: Relation, gallery: UUID, conns: set<UUID>): Relation {
    map c | c in rel ::
      if c in conns then Entry(rel[c].user, rel[c].galleries - {gallery}) else rel[c]
  }

  /** All of a user's connections are registered for a gallery. */
  function Joined(rel: Relation, gallery: UUID, user: UUID): Relation {
    JoinedBy(rel, gallery, Owned(rel, user))
  }

  /** None of a user's connections is registered for a gallery any more. */
  function Left(rel: Relation, gallery: UUID, user: UUID): Relation {
    LeftBy(rel, gallery, Owned(rel, user))
  }

  function Removed(rel: Relation, conn: UUID): Relation {
    rel - {conn}
  }

  function Subscribers(rel: Relation, gallery: UUID): set<UUID> {
    set c | c in rel && gallery in rel[c].galleries
  }

  function Owned(rel: Relation, user: UUID): set<UUID> {
    set c | c in rel && rel[c].user == user
  }

  /** The keys each connection has in an index by gallery. */
  function GalleryKeys(rel: Relation): map<UUID, set<UUID>> {
    map c | c in rel :: rel[c].galleries
  }

  /** The key each connection has in an index by user. */
  function UserKeys(rel: Relation): map<UUID, set<UUID>> {
    map c | c in rel :: {rel[c].user}
  }

  function LeftOne(rel: Relation, conn: UUID, gallery: UUID): Relation {
    if conn in rel
    then rel[conn := rel[conn].(galleries := rel[conn].galleries - {gallery})]
    else rel
  }

  lemma KeysAfterCreate(rel: Relation, conn: UUID, user: UUID)
    ensures GalleryKeys(Created(rel, conn, user)) == GalleryKeys(rel)[conn := {}]
    ensures UserKeys(Created(rel, conn, user)) == UserKeys(rel)[conn := {user}]
  {
  }

  lemma KeysAfterSubscribe(rel: Relation, conn: UUID, gallery: UUID)
    requires conn in rel
    ensures GalleryKeys(Subscribed(rel, conn, gallery)) == GalleryKeys(rel)[conn := GalleryKeys(rel)[conn] + {gallery}]
    ensures UserKeys(Subscribed(rel, conn, gallery)) == UserKeys(rel)
  {
  }

  lemma KeysAfterLeave(rel: Relation, conn: UUID, gallery: UUID)
    requires conn in rel
    ensures GalleryKeys(LeftOne(rel, conn, gallery)) == GalleryKeys(rel)[conn := GalleryKeys(rel)[conn] - {gallery}]
    ensures UserKeys(LeftOne(rel, conn, gallery)) == UserKeys(rel)
  {
  }

  lemma KeysAfterRemove(rel: Relation, conn: UUID)
    ensures GalleryKeys(Removed(rel, conn)) == GalleryKeys(rel) - {conn}
    ensures UserKeys(Removed(rel, conn)) == UserKeys(rel) - {conn}
  {
  }

  /** A set of connections can be registered one at a time. */
  lemma JoinOneMore(rel: Relation, gallery: UUID, conns: set<UUID>, conn: UUID)
    requires conn in rel && conn !in conns
    ensures Subscribed(JoinedBy(rel, gallery, conns), conn, gallery) == JoinedBy(rel, gallery, conns + {conn})
  {
  }

  lemma LeaveOneMore(rel: Relation, gallery: UUID, conns: set<UUID>, conn: UUID)
    requires conn in rel && conn !in conns
    ensures LeftOne(LeftBy(rel, gallery, conns), conn, gallery) == LeftBy(rel, gallery, conns + {conn})
    ensures gallery !in rel[conn].galleries ==> LeftBy(rel, gallery, conns + {conn}) == LeftBy(rel, gallery, conns)
  {
    if gallery !in rel[conn].galleries {
      assert rel[conn].galleries - {gallery} == rel[conn].galleries;
    }
  }

  predicate SameRow(a: Relation, b: Relation, c: UUID) {
    (c in a <==> c in b) && (c in a ==> a[c] == b[c])
  }

  lemma SameRows(a: Relation, b: Relation)
    requires forall c :: SameRow(a, b, c)
    ensures a == b
  {
    assert forall c :: c in a ==> SameRow(a, b, c);
    assert forall c :: c in b ==> SameRow(a, b, c);
  }

  /** What is left of a map when the refusing ones among those sent to are gone. */
  ghost predicate WithoutRefusing<V>(m: map<UUID, V>, all: map<UUID, V>, refusing: set<UUID>, sent: set<UUID>) {
    m == all - (refusing * sent)
  }

  lemma NothingSent<V>(all: map<UUID, V>, refusing: set<UUID>)
    ensures WithoutRefusing(all, all, refusing, {})
  {
    assert all - (refusing * {}) == all;
  }

  lemma SendOneMore<V>(m: map<UUID, V>, all: map<UUID, V>, refusing: set<UUID>, sent: set<UUID>, conn: UUID)
    requires conn in all && conn !in sent && WithoutRefusing(m, all, refusing, sent)
    ensures WithoutRefusing(if conn in refusing then m - {conn} else m, all, refusing, sent + {conn})
  {
  }

  /** Joining and leaving act on all of a user's connections and on nobody else's. */
  lemma JoinThenLeave(rel: Relation, gallery: UUID, user: UUID)
    ensures Subscribers(Joined(rel, gallery, user), gallery)
            == Subscribers(rel, gallery) + Owned(rel, user)
    ensures Subscribers(Left(rel, gallery, user), gallery)
            == Subscribers(rel, gallery) - Owned(rel, user)
    ensures (Left(Joined(rel, gallery, user), gallery, user) == rel)
            <==> Subscribers(rel, gallery) !! Owned(rel, user)
  {
    var back := Left(Joined(rel, gallery, user), gallery, user);
    if Subscribers(rel, gallery) !! Owned(rel, user) {
      forall c | c in rel ensures back[c] == rel[c] {
        if rel[c].user == user {
          assert c in Owned(rel, user) && c !in Subscribers(rel, gallery);
        }
      }
    } else {
      var c :| c in Subscribers(rel, gallery) && c in Owned(rel, user);
      assert gallery !in back[c].galleries;
    }
  }
}
