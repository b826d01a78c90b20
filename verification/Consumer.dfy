/** The queue consumer of one notification replica: it turns each delivered event into at
    most one broadcast notification and settles the delivery. */
module Consumer {
  import opened Common

  datatype Kind = PhotoUploaded | ModeratorAlert | GalleryClosed

  datatype Notification = Notification(
    id: UUID,
    kind: Kind,
    gallery: UUID,
    galleryName: string,
    photoId: string,
    uploader: UUID,
    photoUrl: string,
    message: string,
    occurredAt: int)

  /** The payload of an event as its own type reads it; absent fields are empty or nil. */
  datatype Payload =
    | Unreadable
    | Fields(photoId: string, gallery: UUID, uploader: UUID, galleryName: string, photoUrl: string, message: string)

  /** The event types the consumer knows, by name, and all other names. */
  datatype EventType = Known(kind: Kind) | Unrecognized(name: string)

  datatype Body =
    | Malformed
    | Envelope(eventType: EventType, timestamp: int, payload: Payload)

  const PHOTO_TEXT := "A new photo was uploaded "
  const CLOSED_TEXT := "This gallery has been closed by its moderator."

  /** What the rest of the system answers while one delivery is handled: the gallery
      service's answers to name queries, the next random identifier, and whether the
      broadcast channel takes the publication. */
  datatype World = World(name: UUID -> Option<string>, id: UUID, accepts: bool)

  type Names = map<UUID, string>

  // ---- What the consumer computes ----

  /** `ask` is the gallery service. */
  function LookUp(cache: Names, gallery: UUID, ask: UUID -> Option<string>): (string, Names) {
    if gallery in cache then (cache[gallery], cache)
    else if ask(gallery) == None then ("", cache)
    else (ask(gallery).value, cache[gallery := ask(gallery).value])
  }

  datatype Built = Dropped | Ignored | Ready(n: Notification)

  function Build(cache: Names, eventType: EventType, at: int, p: Payload, w: World): (Built, Names) {
    match eventType
    case Unrecognized(_) => (Ignored, cache)
    case Known(kind) =>
      if p.Unreadable? || p.gallery == NIL then (Dropped, cache)
      else
        var (name, cache') := if kind == GalleryClosed && p.galleryName != "" then (p.galleryName, cache)
                              else LookUp(cache, p.gallery, w.name);
        (Ready(match kind
               case PhotoUploaded =>
                 Notification(w.id, kind, p.gallery, name, p.photoId, p.uploader, p.photoUrl, PHOTO_TEXT, at)
               case ModeratorAlert =>
                 Notification(w.id, kind, p.gallery, name, "", NIL, "", p.message, at)
               case GalleryClosed =>
                 Notification(w.id, kind, p.gallery, name, "", NIL, "", CLOSED_TEXT, at)),
         cache')
  }

  /** The notification a delivery puts on the broadcast channel, if any. */
  function Publication(cache: Names, body: Body, w: World): Option<Notification> {
    if body.Malformed? then None
    else
      match Build(cache, body.eventType, body.timestamp, body.payload, w).0
      case Ready(n) => if w.accepts then Some(n) else None
      case _ => None
  }

  /** Whether a delivery gets a notification onto the channel: it is an event of a known type
      about some gallery, and the channel takes it. */
  predicate Publishes(body: Body, w: World) {
    && body.Envelope? && body.eventType.Known?
    && body.payload.Fields? && body.payload.gallery != NIL
    && w.accepts
  }

  predicate IsIgnored(body: Body) {
    body.Envelope? && body.eventType.Unrecognized?
  }

  function CacheAfter(cache: Names, body: Body, w: World): Names {
    if body.Malformed? then cache
    else Build(cache, body.eventType, body.timestamp, body.payload, w).1
  }

  /** The same as a list of at most one. */
  function Emitted(cache: Names, body: Body, w: World): seq<Notification> {
    match Publication(cache, body, w)
    case Some(n) => [n]
    case None => []
  }

  function Publications(cache: Names, bodies: seq<Body>, ws: seq<World>): seq<Notification>
    requires |bodies| == |ws|
    decreases |bodies|
  {
    if bodies == [] then []
    else Emitted(cache, bodies[0], ws[0]) + Publications(CacheAfter(cache, bodies[0], ws[0]), bodies[1..], ws[1..])
  }

  lemma PublicationsFrom(log: seq<Notification>, cache: Names, bodies: seq<Body>, ws: seq<World>, i: nat)
    requires |bodies| == |ws| && i < |ws|
    ensures log + Publications(cache, bodies[i..], ws[i..])
            == (log + Emitted(cache, bodies[i], ws[i]))
               + Publications(CacheAfter(cache, bodies[i], ws[i]), bodies[i + 1..], ws[i + 1..])
  {
    assert bodies[i..][1..] == bodies[i + 1..] && ws[i..][1..] == ws[i + 1..];
  }

  // ---- What a publication says ----

  /** The notification says what the event said: its gallery, its kind, its time and, by kind,
      the photo with its uploader and address, the moderator's message, or the closing. */
  predicate Tells(n: Notification, body: Body, w: World) {
    && body.Envelope? && body.eventType.Known? && body.payload.Fields?
    && n.id == w.id
    && n.kind == body.eventType.kind
    && n.gallery == body.payload.gallery
    && n.occurredAt == body.timestamp
    && (n.kind == PhotoUploaded ==>
          && n.photoId == body.payload.photoId
          && n.uploader == body.payload.uploader
          && n.photoUrl == body.payload.photoUrl
          && n.message == "A new photo was uploaded ")
    && (n.kind != PhotoUploaded ==> n.photoId == "" && n.uploader == NIL && n.photoUrl == "")
    && (n.kind == ModeratorAlert ==> n.message == body.payload.message)
    && (n.kind == GalleryClosed ==> n.message == "This gallery has been closed by its moderator.")
  }

  /** The name comes from the event of a closing if it has one, else from the cache, else from
      the gallery service, else there is none. */
  predicate Named(n: Notification, cache: Names, body: Body, w: World)
    requires body.Envelope? && body.payload.Fields?
  {
    var p := body.payload;
    && (n.kind == GalleryClosed && p.galleryName != "" ==> n.galleryName == p.galleryName)
    && (!(n.kind == GalleryClosed && p.galleryName != "") ==>
          && (p.gallery in cache ==> n.galleryName == cache[p.gallery])
          && (p.gallery !in cache && w.name(p.gallery).Some? ==> n.galleryName == w.name(p.gallery).value)
          && (p.gallery !in cache && w.name(p.gallery) == None ==> n.galleryName == ""))
  }

  /** There is a publication exactly for an event of a known type about some gallery that the
      channel takes, and it says what the event said. */
  lemma PublicationTells(cache: Names, body: Body, w: World)
    ensures Publication(cache, body, w).Some? <==> Publishes(body, w)
    ensures Publication(cache, body, w).Some? ==>
              && Tells(Publication(cache, body, w).value, body, w)
              && Named(Publication(cache, body, w).value, cache, body, w)
  {
  }

  /** The delivery needs a name that its event does not give. */
  predicate NeedsName(body: Body) {
    && body.Envelope? && body.eventType.Known?
    && body.payload.Fields? && body.payload.gallery != NIL
    && !(body.eventType.kind == GalleryClosed && body.payload.galleryName != "")
  }

  /** A cache keeps what it has, and learns exactly the name it had to ask for. */
  lemma CacheLearns(cache: Names, body: Body, w: World)
    ensures var after := CacheAfter(cache, body, w);
            && (forall g <- cache :: g in after && after[g] == cache[g])
            && (forall g :: g in after && g !in cache <==>
                  g !in cache && NeedsName(body) && g == body.payload.gallery && w.name(g).Some?)
            && (forall g <- after :: g !in cache ==> after[g] == w.name(g).value)
  {
  }

  /** The notifications are those of the deliveries that publish, one each and in order. */
  predicate Correspond(ns: seq<Notification>, bodies: seq<Body>, ws: seq<World>)
    requires |bodies| == |ws|
    decreases |bodies|
  {
    if bodies == [] then ns == []
    else if Publishes(bodies[0], ws[0])
    then ns != [] && Tells(ns[0], bodies[0], ws[0]) && Correspond(ns[1..], bodies[1..], ws[1..])
    else Correspond(ns, bodies[1..], ws[1..])
  }

  lemma {:induction false} CorrespondMore(cache: Names, body: Body, w: World, ns: seq<Notification>,
          bodies: seq<Body>, ws: seq<World>)
    requires bodies != [] && |bodies| == |ws| && body == bodies[0] && w == ws[0] && Correspond(ns, bodies[1..], ws[1..])
    ensures Correspond(Emitted(cache, body, w) + ns, bodies, ws)
  {
    PublicationTells(cache, body, w);
    var all := Emitted(cache, body, w) + ns;
    if Publishes(body, w) {
      assert all[1..] == ns;
    } else {
      assert all == ns;
    }
  }

  lemma {:induction false} PublicationsCorrespond(cache: Names, bodies: seq<Body>, ws: seq<World>)
    requires |bodies| == |ws|
    ensures Correspond(Publications(cache, bodies, ws), bodies, ws)
    decreases |bodies|
  {
    if bodies != [] {
      var after := CacheAfter(cache, bodies[0], ws[0]);
      PublicationsCorrespond(after, bodies[1..], ws[1..]);
      CorrespondMore(cache, bodies[0], ws[0], Publications(after, bodies[1..], ws[1..]), bodies, ws);
    }
  }

  // ---- The consumer ----

  /** One message of the queue, with the acknowledgements it has received. */
  class Delivery {
    const body: Body
    var acks: nat
    var nacks: nat

    constructor (body: Body)
      ensures this.body == body && acks == nacks == 0
    {
      this.body, acks, nacks := body, 0, 0;
    }
  }

  /** Settled once: acknowledged if it was ignored or published, refused otherwise. */
  predicate Settled(d: Delivery, w: World)
    reads d
  {
    && d.acks + d.nacks == 1
    && (d.acks == 1 <==> IsIgnored(d.body) || Publishes(d.body, w))
  }

  /** The broadcast channel all replicas share. */
  class Channel {
    var log: seq<Notification>

    constructor ()
      ensures log == []
    {
      log := [];
    }
  }

  class Consumer {
    const channel: Channel
    var galleryNames: Names

    constructor (channel: Channel)
      ensures this.channel == channel && galleryNames == map[]
    {
      this.channel, galleryNames := channel, map[];
    }

    method GalleryName(gallery: UUID, ask: UUID -> Option<string>) returns (name: string)
      modifies this
      ensures (name, galleryNames) == LookUp(old(galleryNames), gallery, ask)
    {
      if gallery in galleryNames {
        return galleryNames[gallery];
      }
      var answer := ask(gallery);
      if answer == None {
        return "";
      }
      galleryNames := galleryNames[gallery := answer.value];
      return answer.value;
    }

    method BuildNotification(eventType: EventType, at: int, p: Payload, w: World) returns (built: Built)
      modifies this
      ensures (built, galleryNames) == Build(old(galleryNames), eventType, at, p, w)
    {
      if eventType.Unrecognized? {
        return Ignored;
      }
      if p.Unreadable? || p.gallery == NIL {
        return Dropped;
      }
      var name;
      match eventType.kind {
        case PhotoUploaded =>
          name := GalleryName(p.gallery, w.name);
          built := Ready(Notification(w.id, PhotoUploaded, p.gallery, name, p.photoId, p.uploader, p.photoUrl,
                                      PHOTO_TEXT, at));
        case ModeratorAlert =>
          name := GalleryName(p.gallery, w.name);
          built := Ready(Notification(w.id, ModeratorAlert, p.gallery, name, "", NIL, "", p.message, at));
        case GalleryClosed =>
          name := p.galleryName;
          if name == "" {
            name := GalleryName(p.gallery, w.name);
          }
          built := Ready(Notification(w.id, GalleryClosed, p.gallery, name, "", NIL, "", CLOSED_TEXT, at));
      }
    }

    /** Settles the delivery once, with an acknowledgement only if the event was ignored or
        its notification is on the channel. */
    method Handle(d: Delivery, w: World)
      modifies this, channel, d
      ensures d.acks + d.nacks == old(d.acks) + old(d.nacks) + 1
      ensures d.acks == old(d.acks) + 1 <==> IsIgnored(d.body) || Publishes(d.body, w)
      ensures Publishes(d.body, w) <==> Publication(old(galleryNames), d.body, w).Some?
      ensures channel.log == old(channel.log) + Emitted(old(galleryNames), d.body, w)
      ensures galleryNames == CacheAfter(old(galleryNames), d.body, w)
    {
      if d.body.Malformed? {
        d.nacks := d.nacks + 1;
        return;
      }
      var built := BuildNotification(d.body.eventType, d.body.timestamp, d.body.payload, w);
      match built {
        case Dropped => d.nacks := d.nacks + 1;
        case Ignored => d.acks := d.acks + 1;
        case Ready(n) =>
          if !w.accepts {
            d.nacks := d.nacks + 1;
            return;
          }
          channel.log := channel.log + [n];
          d.acks := d.acks + 1;
      }
    }

    ghost function Bodies(ds: seq<Delivery>): seq<Body> {
      seq(|ds|, i requires 0 <= i < |ds| => ds[i].body)
    }

    /** Where the loop stands before delivery `i`, if the channel is to end as `log`. */
    ghost predicate Midway(ds: seq<Delivery>, ws: seq<World>, i: nat, log: seq<Notification>)
      requires i <= |ds| == |ws|
      reads this, channel, ds
    {
      && (forall k :: 0 <= k < i ==> Settled(ds[k], ws[k]))
      && (forall k :: i <= k < |ds| ==> ds[k].acks == ds[k].nacks == 0)
      && channel.log + Publications(galleryNames, Bodies(ds)[i..], ws[i..]) == log
    }

    method HandleNext(ds: seq<Delivery>, ws: seq<World>, i: nat, ghost log: seq<Notification>)
      requires i < |ds| == |ws| && Midway(ds, ws, i, log)
      requires forall k, l :: 0 <= k < l < |ds| ==> ds[k] != ds[l]
      modifies this, channel, ds[i]
      ensures Midway(ds, ws, i + 1, log)
    {
      PublicationsFrom(channel.log, galleryNames, Bodies(ds), ws, i);
      assert forall k :: 0 <= k < |ds| && k != i ==> ds[k] != ds[i];
      Handle(ds[i], ws[i]);
    }

    /** The consumer's loop: every delivery is settled exactly once, with an acknowledgement if
        it was ignored or published and a refusal otherwise. */
    method Consume(ds: seq<Delivery>, ws: seq<World>)
      requires |ds| == |ws|
      requires forall i, j :: 0 <= i < j < |ds| ==> ds[i] != ds[j]
      requires forall d <- ds :: d.acks == d.nacks == 0
      modifies this, channel, ds
      ensures forall i :: 0 <= i < |ds| ==> Settled(ds[i], ws[i])
      ensures channel.log == old(channel.log) + Publications(old(galleryNames), Bodies(ds), ws)
      ensures Correspond(channel.log[|old(channel.log)|..], Bodies(ds), ws)
    {
      PublicationsCorrespond(galleryNames, Bodies(ds), ws);
      ghost var log := channel.log + Publications(galleryNames, Bodies(ds), ws);
      assert Bodies(ds)[0..] == Bodies(ds) && ws[0..] == ws;
      for i := 0 to |ds|
        invariant Midway(ds, ws, i, log)
      {
        HandleNext(ds, ws, i, log);
      }
    }
  }

  // ---- Which replica consumes a delivery does not matter ----

  ghost predicate Truthful(cache: Names, names: Names) {
    forall g <- cache :: g in names && cache[g] == names[g]
  }

  /** What the gallery service says of a gallery's name: nothing, or the truth. */
  ghost predicate Honest(names: Names, w: World) {
    forall g :: w.name(g).Some? ==> g in names && w.name(g).value == names[g]
  }

  /** The name of a delivery's gallery is in the cache, or else the gallery service answers. */
  predicate Resolves(cache: Names, body: Body, w: World) {
    body.Envelope? && body.payload.Fields? ==> body.payload.gallery in cache || w.name(body.payload.gallery).Some?
  }

  /** Caches only ever learn the truth, and a name that is not the event's own is the true
      one or, when it cannot be resolved, empty. */
  lemma NamesAreTrue(names: Names, cache: Names, body: Body, w: World)
    requires Truthful(cache, names) && Honest(names, w)
    ensures Truthful(CacheAfter(cache, body, w), names)
    ensures var p := Publication(cache, body, w);
            p.Some? && (body.payload.galleryName == "" || p.value.kind != GalleryClosed) ==>
              p.value.galleryName == if Resolves(cache, body, w) then names[p.value.gallery] else ""
  {
  }

  /** Whether there is a publication, and all of it but the name, does not depend on the cache. */
  lemma OnlyTheNameVaries(c1: Names, c2: Names, body: Body, w1: World, w2: World)
    requires w1.accepts == w2.accepts
    ensures var p1, p2 := Publication(c1, body, w1), Publication(c2, body, w2);
            && (p1.Some? <==> p2.Some?)
            && (p1.Some? ==> p1.value.(id := w2.id, galleryName := p2.value.galleryName) == p2.value)
  {
  }

  /** Two replicas would publish for the same deliveries and to the same galleries; the
      notifications agree in everything but the random identifier, and in the gallery's name
      as well whenever both can resolve it. */
  lemma AnyReplicaPublishesTheSame(names: Names, c1: Names, c2: Names, body: Body, w1: World, w2: World)
    requires Truthful(c1, names) && Truthful(c2, names)
    requires Honest(names, w1) && Honest(names, w2) && w1.accepts == w2.accepts
    ensures var p1, p2 := Publication(c1, body, w1), Publication(c2, body, w2);
            && (p1.Some? <==> p2.Some?)
            && (p1.Some? ==> p1.value.(id := w2.id, galleryName := p2.value.galleryName) == p2.value)
            && (p1.Some? && Resolves(c1, body, w1) && Resolves(c2, body, w2) ==> p1.value.(id := w2.id) == p2.value)
  {
    OnlyTheNameVaries(c1, c2, body, w1, w2);
    NamesAreTrue(names, c1, body, w1);
    NamesAreTrue(names, c2, body, w2);
    var p1, p2 := Publication(c1, body, w1), Publication(c2, body, w2);
    if p1.Some? && Resolves(c1, body, w1) && Resolves(c2, body, w2) {
      assert p1.value.galleryName == p2.value.galleryName;
    }
  }

  // ---- A queue shared by replicas ----

  /** All of a notification but its random identifier and the gallery's name. */
  function Essence(n: Notification): Notification {
    n.(id := NIL, galleryName := "")
  }

  function Essences(ns: seq<Notification>): seq<Notification> {
    seq(|ns|, i requires 0 <= i < |ns| => Essence(ns[i]))
  }

  /** A delivery of the queue, the replica that handles it, and what that is answered. */
  datatype Handling = Handling(replica: nat, body: Body, w: World)

  predicate Staffed(hs: seq<Handling>, replicas: nat) {
    forall i :: 0 <= i < |hs| ==> hs[i].replica < replicas
  }

  /** The channel after the deliveries, each replica with a cache of its own. */
  function SharedPublications(caches: seq<Names>, hs: seq<Handling>): seq<Notification>
    requires Staffed(hs, |caches|)
    decreases |hs|
  {
    if hs == [] then []
    else
      var h, cache := hs[0], caches[hs[0].replica];
      Emitted(cache, h.body, h.w) + SharedPublications(caches[h.replica := CacheAfter(cache, h.body, h.w)], hs[1..])
  }

  lemma SharedStep(log: seq<Notification>, caches: seq<Names>, h: Handling, hs: seq<Handling>)
    requires h.replica < |caches| && Staffed(hs, |caches|)
    ensures var cache := caches[h.replica];
            var after := caches[h.replica := CacheAfter(cache, h.body, h.w)];
            && Staffed([h] + hs, |caches|)
            && log + SharedPublications(caches, [h] + hs)
               == (log + Emitted(cache, h.body, h.w)) + SharedPublications(after, hs)
  {
    assert ([h] + hs)[1..] == hs;
  }

  function BodiesOf(hs: seq<Handling>): seq<Body> {
    seq(|hs|, i requires 0 <= i < |hs| => hs[i].body)
  }

  function WorldsOf(hs: seq<Handling>): seq<World> {
    seq(|hs|, i requires 0 <= i < |hs| => hs[i].w)
  }

  /** Whoever handles them, the channel has one notification for each delivery that publishes,
      in order, and each says what its own event said. */
  lemma {:induction false} SharedPublicationsCorrespond(caches: seq<Names>, hs: seq<Handling>)
    requires Staffed(hs, |caches|)
    ensures Correspond(SharedPublications(caches, hs), BodiesOf(hs), WorldsOf(hs))
    decreases |hs|
  {
    if hs != [] {
      var h, cache := hs[0], caches[hs[0].replica];
      var rest := caches[h.replica := CacheAfter(cache, h.body, h.w)];
      SharedPublicationsCorrespond(rest, hs[1..]);
      assert BodiesOf(hs)[1..] == BodiesOf(hs[1..]) && WorldsOf(hs)[1..] == WorldsOf(hs[1..]);
      CorrespondMore(cache, h.body, h.w, SharedPublications(rest, hs[1..]), BodiesOf(hs), WorldsOf(hs));
    }
  }

  /** The same deliveries with the same fate at the channel. */
  ghost predicate SameDeliveries(hs: seq<Handling>, ks: seq<Handling>) {
    |hs| == |ks| && forall i :: 0 <= i < |hs| ==> hs[i].body == ks[i].body && hs[i].w.accepts == ks[i].w.accepts
  }

  /** However the deliveries are shared out among any number of replicas, and whatever these
      have cached and are answered, the channel is the same but for identifiers and names. */
  lemma {:induction false} LogIsIndependentOfConsumers(caches1: seq<Names>, hs: seq<Handling>,
          caches2: seq<Names>, ks: seq<Handling>)
    requires Staffed(hs, |caches1|) && Staffed(ks, |caches2|) && SameDeliveries(hs, ks)
    ensures Essences(SharedPublications(caches1, hs)) == Essences(SharedPublications(caches2, ks))
    decreases |hs|
  {
    if hs != [] {
      var h, k, c1, c2 := hs[0], ks[0], caches1[hs[0].replica], caches2[ks[0].replica];
      var rest1 := caches1[h.replica := CacheAfter(c1, h.body, h.w)];
      var rest2 := caches2[k.replica := CacheAfter(c2, k.body, k.w)];
      SameEssence(c1, c2, h.body, h.w, k.w);
      LogIsIndependentOfConsumers(rest1, hs[1..], rest2, ks[1..]);
      EssencesJoin(Emitted(c1, h.body, h.w), SharedPublications(rest1, hs[1..]));
      EssencesJoin(Emitted(c2, k.body, k.w), SharedPublications(rest2, ks[1..]));
    }
  }

  lemma SameEssence(c1: Names, c2: Names, body: Body, w1: World, w2: World)
    requires w1.accepts == w2.accepts
    ensures Essences(Emitted(c1, body, w1)) == Essences(Emitted(c2, body, w2))
  {
    OnlyTheNameVaries(c1, c2, body, w1, w2);
    var p1, p2 := Publication(c1, body, w1), Publication(c2, body, w2);
    assert p1.Some? ==> Essence(p1.value) == Essence(p2.value);
  }

  lemma EssencesJoin(a: seq<Notification>, b: seq<Notification>)
    ensures Essences(a + b) == Essences(a) + Essences(b)
  {
  }
}
