/** One replica's end of the broadcast channel: every payload is applied to its registry. */
module Broadcast {
  import opened Clients
  import opened Common
  import opened Relation
  import C = Consumer
  import R = Registry

  /** A payload as the replica decodes it. */
  datatype Payload =
    | NotAnEnvelope
    | OtherKind(kind: string)
    | BadNotification
    | BadGallery
    | Notify(n: C.Notification)

  function SubscribersOf(rel: Relation, p: Payload): set<UUID> {
    if p.Notify? then Subscribers(rel, p.n.gallery) else {}
  }

  /** The registry after one payload: the connections that were sent it and refused are gone. */
  function RelationAfter(rel: Relation, p: Payload, refusing: set<UUID>): Relation {
    rel - (refusing * SubscribersOf(rel, p))
  }

  function RelationAfterAll(rel: Relation, ps: seq<Payload>, refusals: seq<set<UUID>>): Relation
    requires |ps| == |refusals|
    decreases |ps|
  {
    if ps == [] then rel
    else
      var before := RelationAfterAll(rel, ps[..|ps| - 1], refusals[..|ps| - 1]);
      RelationAfter(before, ps[|ps| - 1], refusals[|ps| - 1])
  }

  function HandedOne(rel: Relation, p: Payload, conn: UUID): seq<C.Notification> {
    if conn in SubscribersOf(rel, p) then [p.n] else []
  }

  /** What one connection is handed. */
  function HandedAll(rel: Relation, ps: seq<Payload>, refusals: seq<set<UUID>>, conn: UUID): seq<C.Notification>
    requires |ps| == |refusals|
    decreases |ps|
  {
    if ps == [] then []
    else
      var rest, last := |ps| - 1, ps[|ps| - 1];
      HandedAll(rel, ps[..rest], refusals[..rest], conn)
      + HandedOne(RelationAfterAll(rel, ps[..rest], refusals[..rest]), last, conn)
  }

  lemma OneMorePayload(rel: Relation, ps: seq<Payload>, refusals: seq<set<UUID>>, i: nat)
    requires i < |ps| == |refusals|
    ensures var before := RelationAfterAll(rel, ps[..i], refusals[..i]);
            && RelationAfterAll(rel, ps[..i + 1], refusals[..i + 1]) == RelationAfter(before, ps[i], refusals[i])
            && forall c {:trigger HandedAll(rel, ps[..i], refusals[..i], c)} ::
                 HandedAll(rel, ps[..i + 1], refusals[..i + 1], c)
                 == HandedAll(rel, ps[..i], refusals[..i], c) + HandedOne(before, ps[i], c)
  {
    assert ps[..i + 1][..i] == ps[..i] && refusals[..i + 1][..i] == refusals[..i];
  }

  lemma Chain<T>(a: seq<T>, b: seq<T>, c: seq<T>)
    ensures (a + b) + c == a + (b + c)
  {
  }

  ghost predicate Among<V>(some: map<UUID, V>, all: map<UUID, V>) {
    forall c <- some :: c in all && some[c] == all[c]
  }

  class Broadcaster {
    const registry: R.Registry<C.Notification>

    constructor (registry: R.Registry<C.Notification>)
      ensures this.registry == registry
    {
      this.registry := registry;
    }

    method Apply(p: Payload, refusing: set<UUID>)
      requires registry.Valid() && registry.SeparateStreams()
      modifies registry, registry.Streams()
      ensures registry.Valid() && registry.objects == old(registry.objects)
      ensures var subs := SubscribersOf(old(registry.contents), p);
              && registry.connections == old(registry.connections) - (refusing * subs)
              && registry.contents == RelationAfter(old(registry.contents), p, refusing)
              && forall c <- old(registry.connections) ::
                   old(registry.connections)[c].stream.handed
                   == old(registry.connections[c].stream.handed) + (if c in subs then [p.n] else [])
    {
      match p {
        case Notify(n) => registry.Notify(n.gallery, n, refusing);
        case _ =>
          assert refusing * {} == {};
      }
    }

    /** The same told of all the connections there once were. */
    method ApplyNext(p: Payload, refusing: set<UUID>, ghost all: map<UUID, Client<C.Notification>>)
      requires registry.Valid() && registry.SeparateStreams()
      requires Among(registry.connections, all) && Separate(all)
      modifies registry, registry.Streams()
      ensures registry.Valid() && registry.SeparateStreams() && registry.Streams() <= old(registry.Streams())
      ensures Among(registry.connections, all)
      ensures registry.contents == RelationAfter(old(registry.contents), p, refusing)
      ensures forall c <- all :: all[c].stream.handed
                                 == old(all[c].stream.handed) + HandedOne(old(registry.contents), p, c)
    {
      ghost var own := registry.connections;
      assert own.Keys == registry.contents.Keys;
      assert forall c <- all :: c !in own ==> all[c].stream !in registry.Streams();
      Apply(p, refusing);
      assert forall c <- own :: all[c] == own[c];
    }

    /** The event loop: each payload is applied once, in the order of the channel. */
    method Run(ps: seq<Payload>, refusals: seq<set<UUID>>)
      requires |ps| == |refusals|
      requires registry.Valid() && registry.SeparateStreams()
      modifies registry, registry.Streams()
      ensures registry.Valid()
      ensures registry.contents == RelationAfterAll(old(registry.contents), ps, refusals)
      ensures forall c <- old(registry.connections) ::
                old(registry.connections)[c].stream.handed
                == old(registry.connections[c].stream.handed) + HandedAll(old(registry.contents), ps, refusals, c)
    {
      ghost var all, rel := registry.connections, registry.contents;
      for i := 0 to |ps|
        invariant registry.Valid() && registry.SeparateStreams() && registry.Streams() <= old(registry.Streams())
        invariant Among(registry.connections, all)
        invariant registry.contents == RelationAfterAll(rel, ps[..i], refusals[..i])
        invariant forall c <- all :: all[c].stream.handed
                                     == old(all[c].stream.handed) + HandedAll(rel, ps[..i], refusals[..i], c)
      {
        OneMorePayload(rel, ps, refusals, i);
        ghost var before := registry.contents;
        ApplyNext(ps[i], refusals[i], all);
        forall c | c in all
          ensures all[c].stream.handed == old(all[c].stream.handed) + HandedAll(rel, ps[..i + 1], refusals[..i + 1], c)
        {
          Chain(old(all[c].stream.handed), HandedAll(rel, ps[..i], refusals[..i], c), HandedOne(before, ps[i], c));
        }
      }
      assert ps[..|ps|] == ps && refusals[..|ps|] == refusals;
    }
  }

  // ---- What a connection is handed over a whole run ----

  predicate Wanted(galleries: set<UUID>, p: Payload) {
    p.Notify? && p.n.gallery in galleries
  }

  /** The notifications for some galleries, in order. */
  function WantedOf(galleries: set<UUID>, ps: seq<Payload>): seq<C.Notification> {
    if ps == [] then []
    else
      var last := ps[|ps| - 1];
      WantedOf(galleries, ps[..|ps| - 1]) + (if Wanted(galleries, last) then [last.n] else [])
  }

  /** The first notification sent to a connection that its stream refused is the k-th payload. */
  predicate FirstRefusal(galleries: set<UUID>, ps: seq<Payload>, refusals: seq<set<UUID>>, conn: UUID, k: nat)
    requires |ps| == |refusals|
  {
    && k < |ps|
    && Wanted(galleries, ps[k]) && conn in refusals[k]
    && forall j :: 0 <= j < k ==> !(Wanted(galleries, ps[j]) && conn in refusals[j])
  }

  predicate NeverRefuses(galleries: set<UUID>, ps: seq<Payload>, refusals: seq<set<UUID>>, conn: UUID)
    requires |ps| == |refusals|
  {
    forall j :: 0 <= j < |ps| ==> !(Wanted(galleries, ps[j]) && conn in refusals[j])
  }

  lemma {:induction false} HandedWhileItTakesThem(rel: Relation, ps: seq<Payload>, refusals: seq<set<UUID>>, conn: UUID)
    requires |ps| == |refusals| && conn in rel && NeverRefuses(rel[conn].galleries, ps, refusals, conn)
    ensures conn in RelationAfterAll(rel, ps, refusals) && RelationAfterAll(rel, ps, refusals)[conn] == rel[conn]
    ensures HandedAll(rel, ps, refusals, conn) == WantedOf(rel[conn].galleries, ps)
    decreases |ps|
  {
    if ps != [] {
      var rest := |ps| - 1;
      HandedWhileItTakesThem(rel, ps[..rest], refusals[..rest], conn);
      assert !(Wanted(rel[conn].galleries, ps[rest]) && conn in refusals[rest]);
    }
  }

  lemma {:induction false} GoneIsHandedNothing(rel: Relation, ps: seq<Payload>, refusals: seq<set<UUID>>,
          conn: UUID, k: nat)
    requires |ps| == |refusals| && k <= |ps|
    requires conn !in RelationAfterAll(rel, ps[..k], refusals[..k])
    ensures conn !in RelationAfterAll(rel, ps, refusals)
    ensures HandedAll(rel, ps, refusals, conn) == HandedAll(rel, ps[..k], refusals[..k], conn)
    decreases |ps|
  {
    if k == |ps| {
      assert ps[..k] == ps && refusals[..k] == refusals;
    } else {
      var rest := |ps| - 1;
      assert ps[..rest][..k] == ps[..k] && refusals[..rest][..k] == refusals[..k];
      GoneIsHandedNothing(rel, ps[..rest], refusals[..rest], conn, k);
    }
  }

  /** A connection is handed, in the order of the channel, every notification for its
      galleries, once each, up to and including the first one its stream refuses; with that
      one it leaves the registry, and otherwise stays as it was. */
  lemma HandedUntilRefusal(rel: Relation, ps: seq<Payload>, refusals: seq<set<UUID>>, conn: UUID)
    requires |ps| == |refusals| && conn in rel
    ensures var galleries := rel[conn].galleries;
            && (conn in RelationAfterAll(rel, ps, refusals) <==> NeverRefuses(galleries, ps, refusals, conn))
            && (NeverRefuses(galleries, ps, refusals, conn) ==>
                  HandedAll(rel, ps, refusals, conn) == WantedOf(galleries, ps))
            && forall k: nat :: FirstRefusal(galleries, ps, refusals, conn, k) ==>
                 HandedAll(rel, ps, refusals, conn) == WantedOf(galleries, ps[..k + 1])
  {
    var galleries := rel[conn].galleries;
    if NeverRefuses(galleries, ps, refusals, conn) {
      HandedWhileItTakesThem(rel, ps, refusals, conn);
    } else {
      var k := EarliestRefusal(galleries, ps, refusals, conn);
      RefusedAt(rel, ps, refusals, conn, k);
    }
  }

  lemma RefusedAt(rel: Relation, ps: seq<Payload>, refusals: seq<set<UUID>>, conn: UUID, k: nat)
    requires |ps| == |refusals| && conn in rel && FirstRefusal(rel[conn].galleries, ps, refusals, conn, k)
    ensures conn !in RelationAfterAll(rel, ps, refusals)
    ensures HandedAll(rel, ps, refusals, conn) == WantedOf(rel[conn].galleries, ps[..k + 1])
  {
    HandedWhileItTakesThem(rel, ps[..k], refusals[..k], conn);
    OneMorePayload(rel, ps, refusals, k);
    assert ps[..k + 1][..k] == ps[..k];
    GoneIsHandedNothing(rel, ps, refusals, conn, k + 1);
  }

  lemma EarliestRefusal(galleries: set<UUID>, ps: seq<Payload>, refusals: seq<set<UUID>>, conn: UUID) returns (k: nat)
    requires |ps| == |refusals| && !NeverRefuses(galleries, ps, refusals, conn)
    ensures FirstRefusal(galleries, ps, refusals, conn, k)
  {
    k := 0;
    while !(Wanted(galleries, ps[k]) && conn in refusals[k])
      invariant k < |ps|
      invariant forall j :: 0 <= j < k ==> !(Wanted(galleries, ps[j]) && conn in refusals[j])
      decreases |ps| - k
    {
      k := k + 1;
    }
  }
}
