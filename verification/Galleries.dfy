/** The gallery store, the commands that change it and the queries that read it. */
module Galleries {
  import opened Common

  datatype Status = GalleryOpen | GalleryClosed

  datatype Gallery = Gallery(id: UUID, name: string, description: string, status: Status, moderator: UUID)

  /** Galleries by identifier and (gallery, user) memberships. */
  datatype Store = Store(galleries: map<UUID, Gallery>, members: set<(UUID, UUID)>)

  const EMPTY := Store(map[], {})

  // ---- What the repository does to the store ----

  function Inserted(s: Store, g: Gallery): Store {
    s.(galleries := s.galleries[g.id := g])
  }

  /** Writing a whole row back. On a row that has been deleted meanwhile the write either
      misses or inserts the row again; `upsert` says which. */
  function Saved(s: Store, g: Gallery, upsert: bool): Store {
    if g.id in s.galleries || upsert then Inserted(s, g) else s
  }

  /** Deleting a gallery takes its memberships along. */
  function Deleted(s: Store, id: UUID): Store {
    Store(s.galleries - {id}, set m | m in s.members && m.0 != id)
  }

  /** Adding a member twice changes nothing; adding one to a gallery that is gone fails. */
  function WithMember(s: Store, id: UUID, user: UUID): Store {
    if id in s.galleries then s.(members := s.members + {(id, user)}) else s
  }

  function WithoutMember(s: Store, id: UUID, user: UUID): Store {
    s.(members := s.members - {(id, user)})
  }

  class Repository {
    var galleries: map<UUID, Gallery>
    var members: set<(UUID, UUID)>

    ghost function Contents(): Store
      reads this
    {
      Store(galleries, members)
    }

    constructor ()
      ensures Contents() == EMPTY
    {
      galleries, members := map[], {};
    }

    method CreateGallery(g: Gallery)
      modifies this
      ensures Contents() == Inserted(old(Contents()), g)
    {
      galleries := galleries[g.id := g];
    }

    method GetGallery(id: UUID) returns (g: Option<Gallery>)
      ensures g == if id in galleries then Some(galleries[id]) else None
    {
      g := if id in galleries then Some(galleries[id]) else None;
    }

    method UpdateGallery(g: Gallery, upsert: bool)
      modifies this
      ensures Contents() == Saved(old(Contents()), g, upsert)
    {
      if g.id in galleries || upsert {
        galleries := galleries[g.id := g];
      }
    }

    method DeleteGallery(id: UUID)
      modifies this
      ensures Contents() == Deleted(old(Contents()), id)
    {
      galleries := galleries - {id};
      members := set m | m in members && m.0 != id;
    }

    method JoinGallery(id: UUID, user: UUID) returns (ok: bool)
      modifies this
      ensures Contents() == WithMember(old(Contents()), id, user)
      ensures ok <==> id in galleries
    {
      ok := id in galleries;
      if ok {
        members := members + {(id, user)};
      }
    }

    method LeaveGallery(id: UUID, user: UUID)
      modifies this
      ensures Contents() == WithoutMember(old(Contents()), id, user)
    {
      members := members - {(id, user)};
    }
  }

  // ---- The commands, each as a read half and a write half ----

  /** The row a close will write, or why it is refused. */
  function CloseRead(s: Store, id: UUID, caller: UUID): Result<Gallery, Code> {
    if id !in s.galleries then Err(NotFound)
    else if s.galleries[id].moderator != caller then Err(PermissionDenied)
    else if s.galleries[id].status == GalleryClosed then Err(FailedPrecondition)
    else Ok(s.galleries[id].(status := GalleryClosed))
  }

  function DeleteRead(s: Store, id: UUID, caller: UUID): Result<UUID, Code> {
    if id !in s.galleries then Err(NotFound)
    else if s.galleries[id].moderator != caller then Err(PermissionDenied)
    else Ok(s.galleries[id].id)
  }

  function JoinRead(s: Store, id: UUID): Result<(), Code> {
    if id !in s.galleries then Err(NotFound)
    else if s.galleries[id].status == GalleryClosed then Err(FailedPrecondition)
    else Ok(())
  }

  function CreateRow(name: string, description: string, moderator: UUID, id: UUID): Result<Gallery, Code> {
    if name == "" then Err(InvalidArgument)
    else if moderator == NIL then Err(Unauthenticated)
    else Ok(Gallery(id, name, description, GalleryOpen, moderator))
  }

  class CommandService {
    const repo: Repository

    constructor (repo: Repository)
      ensures this.repo == repo
    {
      this.repo := repo;
    }

    /** `id` is the freshly drawn identifier. */
    method CreateGallery(name: string, description: string, moderator: UUID, id: UUID)
      returns (r: Result<Gallery, Code>)
      modifies repo
      ensures r == CreateRow(name, description, moderator, id)
      ensures r.Ok? <==> name != "" && moderator != NIL
      ensures r == Err(InvalidArgument) <==> name == ""
      ensures r == Err(Unauthenticated) <==> name != "" && moderator == NIL
      ensures r.Ok? ==>
                && r.value.id == id && r.value.name == name && r.value.description == description
                && r.value.moderator == moderator && r.value.status == GalleryOpen
                && repo.galleries == old(repo.galleries)[id := r.value] && repo.members == old(repo.members)
      ensures repo.Contents() == if r.Ok? then Inserted(old(repo.Contents()), r.value) else old(repo.Contents())
    {
      if name == "" {
        return Err(InvalidArgument);
      }
      if moderator == NIL {
        return Err(Unauthenticated);
      }
      var g := Gallery(id, name, description, GalleryOpen, moderator);
      repo.CreateGallery(g);
      return Ok(g);
    }

    method BeginClose(id: UUID, caller: UUID) returns (r: Result<Gallery, Code>)
      ensures r == CloseRead(repo.Contents(), id, caller)
    {
      var found := repo.GetGallery(id);
      if found == None {
        return Err(NotFound);
      }
      var g := found.value;
      if g.moderator != caller {
        return Err(PermissionDenied);
      }
      if g.status == GalleryClosed {
        return Err(FailedPrecondition);
      }
      return Ok(g.(status := GalleryClosed));
    }

    /** A whole close that nothing interleaves with: it closes an open gallery for its moderator
        and for nobody else, and changes nothing but the status. */
    method CloseGallery(id: UUID, caller: UUID, upsert: bool) returns (r: Result<Gallery, Code>)
      modifies repo
      ensures r == CloseRead(old(repo.Contents()), id, caller)
      ensures r == Err(NotFound) <==> id !in old(repo.galleries)
      ensures r == Err(PermissionDenied) <==> id in old(repo.galleries) && old(repo.galleries)[id].moderator != caller
      ensures r == Err(FailedPrecondition) <==>
                && id in old(repo.galleries) && old(repo.galleries)[id].moderator == caller
                && old(repo.galleries)[id].status == GalleryClosed
      ensures r.Ok? <==>
                && id in old(repo.galleries) && old(repo.galleries)[id].moderator == caller
                && old(repo.galleries)[id].status == GalleryOpen
      ensures r.Ok? && old(repo.galleries)[id].id == id ==>
                && repo.galleries == old(repo.galleries)[id := old(repo.galleries)[id].(status := GalleryClosed)]
                && repo.members == old(repo.members)
      ensures repo.Contents() == if r.Ok? then Saved(old(repo.Contents()), r.value, upsert) else old(repo.Contents())
    {
      r := BeginClose(id, caller);
      if r.Ok? {
        repo.UpdateGallery(r.value, upsert);
      }
    }

    /** Removes a gallery with its memberships if and only if it exists and the caller is its
        moderator. */
    method DeleteGallery(id: UUID, caller: UUID) returns (r: Result<UUID, Code>)
      modifies repo
      ensures r == DeleteRead(old(repo.Contents()), id, caller)
      ensures r == Err(NotFound) <==> id !in old(repo.galleries)
      ensures r == Err(PermissionDenied) <==> id in old(repo.galleries) && old(repo.galleries)[id].moderator != caller
      ensures r.Ok? <==> id in old(repo.galleries) && old(repo.galleries)[id].moderator == caller
      ensures r.Err? ==> repo.galleries == old(repo.galleries) && repo.members == old(repo.members)
      ensures r.Ok? && old(repo.galleries)[id].id == id ==>
                && r.value == id && repo.galleries == old(repo.galleries) - {id}
                && repo.members == set m | m in old(repo.members) && m.0 != id
      ensures repo.Contents() == if r.Ok? then Deleted(old(repo.Contents()), r.value) else old(repo.Contents())
    {
      var found := repo.GetGallery(id);
      if found == None {
        return Err(NotFound);
      }
      if found.value.moderator != caller {
        return Err(PermissionDenied);
      }
      repo.DeleteGallery(found.value.id);
      return Ok(found.value.id);
    }

    method JoinGallery(id: UUID, user: UUID) returns (r: Result<(), Code>)
      modifies repo
      ensures r == JoinRead(old(repo.Contents()), id)
      ensures r == Err(NotFound) <==> id !in old(repo.galleries)
      ensures r == Err(FailedPrecondition) <==>
                id in old(repo.galleries) && old(repo.galleries)[id].status == GalleryClosed
      ensures r.Ok? <==> id in old(repo.galleries) && old(repo.galleries)[id].status == GalleryOpen
      ensures repo.galleries == old(repo.galleries)
      ensures repo.members == if r.Ok? then old(repo.members) + {(id, user)} else old(repo.members)
      ensures repo.Contents() == if r.Ok? then WithMember(old(repo.Contents()), id, user) else old(repo.Contents())
    {
      var found := repo.GetGallery(id);
      if found == None {
        return Err(NotFound);
      }
      if found.value.status == GalleryClosed {
        return Err(FailedPrecondition);
      }
      var ok := repo.JoinGallery(id, user);
      return if ok then Ok(()) else Err(Internal);
    }

    method LeaveGallery(id: UUID, user: UUID)
      modifies repo
      ensures repo.galleries == old(repo.galleries) && repo.members == old(repo.members) - {(id, user)}
      ensures repo.Contents() == WithoutMember(old(repo.Contents()), id, user)
    {
      repo.LeaveGallery(id, user);
    }
  }
}

/** Runs of commands whose halves interleave in any way, watched by replicas that cache
    gallery names. */
module GalleryRuns {
  import opened Common
  import opened Galleries

  /** A command between its read half and its write half. */
  datatype Pending =
    | Closing(row: Gallery)
    | Deleting(id: UUID)
    | Joining(id: UUID, user: UUID)

  /** A name on its way from the gallery service into a replica's cache. */
  datatype Fill = Fill(replica: nat, gallery: UUID, name: string)

  /** `born` keeps every gallery as it was created. */
  datatype World = World(
    store: Store,
    born: map<UUID, Gallery>,
    pending: map<nat, Pending>,
    caches: map<nat, map<UUID, string>>,
    fills: map<nat, Fill>)

  datatype Event =
    | Create(id: UUID, name: string, description: string, moderator: UUID)
    | ReadClose(op: nat, id: UUID, caller: UUID)
    | ReadDelete(op: nat, id: UUID, caller: UUID)
    | ReadJoin(op: nat, id: UUID, user: UUID)
    | Leave(id: UUID, user: UUID)
    | Write(op: nat, upsert: bool)
    | AskName(op: nat, replica: nat, gallery: UUID)
    | KeepName(op: nat)

  const START := World(EMPTY, map[], map[], map[], map[])

  predicate Enabled(w: World, e: Event) {
    match e
    case Create(id, name, description, moderator) => id !in w.born && CreateRow(name, description, moderator, id).Ok?
    case Leave(_, _) => true
    case Write(op, _) => op in w.pending
    case AskName(op, _, _) => op !in w.fills
    case KeepName(op) => op in w.fills
    case _ => e.op !in w.pending
  }

  function Cache(w: World, replica: nat): map<UUID, string> {
    if replica in w.caches then w.caches[replica] else map[]
  }

  function Written(s: Store, p: Pending, upsert: bool): Store {
    match p
    case Closing(row) => Saved(s, row, upsert)
    case Deleting(id) => Deleted(s, id)
    case Joining(id, user) => WithMember(s, id, user)
  }

  function Step(w: World, e: Event): World
    requires Enabled(w, e)
  {
    match e
    case Create(id, name, description, moderator) =>
      var g := CreateRow(name, description, moderator, id).value;
      w.(store := Inserted(w.store, g), born := w.born[id := g])
    case ReadClose(op, id, caller) =>
      var r := CloseRead(w.store, id, caller);
      if r.Ok? then w.(pending := w.pending[op := Closing(r.value)]) else w
    case ReadDelete(op, id, caller) =>
      var r := DeleteRead(w.store, id, caller);
      if r.Ok? then w.(pending := w.pending[op := Deleting(r.value)]) else w
    case ReadJoin(op, id, user) =>
      if JoinRead(w.store, id).Ok? then w.(pending := w.pending[op := Joining(id, user)]) else w
    case Leave(id, user) => w.(store := WithoutMember(w.store, id, user))
    case Write(op, upsert) =>
      w.(store := Written(w.store, w.pending[op], upsert), pending := w.pending - {op})
    case AskName(op, replica, gallery) =>
      if gallery !in Cache(w, replica) && gallery in w.store.galleries
      then w.(fills := w.fills[op := Fill(replica, gallery, w.store.galleries[gallery].name)])
      else w
    case KeepName(op) =>
      var f := w.fills[op];
      w.(caches := w.caches[f.replica := Cache(w, f.replica)[f.gallery := f.name]], fills := w.fills - {op})
  }

  predicate Legal(w: World, es: seq<Event>)
    decreases |es|
  {
    es == [] || (Enabled(w, es[0]) && Legal(Step(w, es[0]), es[1..]))
  }

  function Exec(w: World, es: seq<Event>): World
    requires Legal(w, es)
    decreases |es|
  {
    if es == [] then w else Exec(Step(w, es[0]), es[1..])
  }

  // ---- Names, moderators and closing ----

  /** A row that differs from the gallery as created at most in being closed. */
  predicate Grown(w: World, g: Gallery) {
    g.id in w.born && (g == w.born[g.id] || g == w.born[g.id].(status := GalleryClosed))
  }

  ghost predicate RowsCoherent(w: World) {
    && (forall id <- w.born :: w.born[id].id == id && w.born[id].status == GalleryOpen)
    && (forall id <- w.store.galleries :: w.store.galleries[id].id == id && Grown(w, w.store.galleries[id]))
    && (forall m <- w.store.members :: m.0 in w.store.galleries)
  }

  ghost predicate ClosesCoherent(w: World) {
    && (forall op <- w.pending :: w.pending[op].Closing? ==>
          Grown(w, w.pending[op].row) && w.pending[op].row.status == GalleryClosed)
    && (forall op <- w.pending :: w.pending[op].Deleting? ==> w.pending[op].id in w.born)
  }

  ghost predicate NamesCoherent(w: World) {
    && (forall r <- w.caches, g <- w.caches[r] :: g in w.born && w.caches[r][g] == w.born[g].name)
    && (forall op <- w.fills :: w.fills[op].gallery in w.born && w.fills[op].name == w.born[w.fills[op].gallery].name)
  }

  ghost predicate Coherent(w: World) {
    RowsCoherent(w) && ClosesCoherent(w) && NamesCoherent(w)
  }

  lemma CreateRows(w: World, e: Event)
    requires RowsCoherent(w) && Enabled(w, e) && e.Create?
    ensures RowsCoherent(Step(w, e))
  {
    var w1 := Step(w, e);
    assert forall id <- w.store.galleries :: Grown(w1, w.store.galleries[id]);
  }

  lemma WriteRows(w: World, e: Event)
    requires RowsCoherent(w) && ClosesCoherent(w) && Enabled(w, e) && e.Write?
    ensures RowsCoherent(Step(w, e))
  {
    var w1 := Step(w, e);
    match w.pending[e.op] {
      case Closing(row) =>
        assert Grown(w1, row);
        assert w1.store == w.store || w1.store == Inserted(w.store, row);
      case Deleting(_) =>
      case Joining(_, _) =>
    }
  }

  lemma StepRows(w: World, e: Event)
    requires RowsCoherent(w) && ClosesCoherent(w) && Enabled(w, e)
    ensures RowsCoherent(Step(w, e))
  {
    match e
    case Create(_, _, _, _) => CreateRows(w, e);
    case Write(_, _) => WriteRows(w, e);
    case Leave(_, _) =>
    case _ => assert Step(w, e).store == w.store && Step(w, e).born == w.born;
  }

  lemma StepCloses(w: World, e: Event)
    requires RowsCoherent(w) && ClosesCoherent(w) && Enabled(w, e)
    ensures ClosesCoherent(Step(w, e))
  {
  }

  lemma KeepNames(w: World, e: Event)
    requires Coherent(w) && Enabled(w, e) && (e.AskName? || e.KeepName?)
    ensures NamesCoherent(Step(w, e))
  {
  }

  lemma StepNames(w: World, e: Event)
    requires Coherent(w) && Enabled(w, e)
    ensures NamesCoherent(Step(w, e))
  {
    if e.AskName? || e.KeepName? {
      KeepNames(w, e);
    } else {
      assert Step(w, e).caches == w.caches && Step(w, e).fills == w.fills;
      assert forall id <- w.born :: id in Step(w, e).born && Step(w, e).born[id] == w.born[id];
    }
  }

  lemma StepCoherent(w: World, e: Event)
    requires Coherent(w) && Enabled(w, e)
    ensures Coherent(Step(w, e))
  {
    StepRows(w, e);
    StepCloses(w, e);
    StepNames(w, e);
  }

  lemma {:induction false} RunCoherent(w: World, es: seq<Event>)
    requires Coherent(w) && Legal(w, es)
    ensures Coherent(Exec(w, es))
    decreases |es|
  {
    if es != [] {
      StepCoherent(w, es[0]);
      RunCoherent(Step(w, es[0]), es[1..]);
    }
  }

  predicate IsClosed(w: World, id: UUID) {
    id in w.store.galleries && w.store.galleries[id].status == GalleryClosed
  }

  predicate IsOpen(w: World, id: UUID) {
    id in w.store.galleries && w.store.galleries[id].status == GalleryOpen
  }

  /** What is born keeps the same first row for ever. */
  lemma {:induction false} BornForEver(w: World, es: seq<Event>, id: UUID)
    requires Legal(w, es) && id in w.born
    ensures id in Exec(w, es).born && Exec(w, es).born[id] == w.born[id]
    decreases |es|
  {
    if es != [] {
      BornForEver(Step(w, es[0]), es[1..], id);
    }
  }

  /** The gallery a creating event makes. */
  function Made(e: Event): Gallery
    requires e.Create?
  {
    Gallery(e.id, e.name, e.description, GalleryOpen, e.moderator)
  }

  lemma {:induction false} BornAsMade(w: World, es: seq<Event>, k: nat)
    requires Legal(w, es) && k < |es| && es[k].Create?
    ensures es[k].id in Exec(w, es).born && Exec(w, es).born[es[k].id] == Made(es[k])
    decreases |es|
  {
    if k == 0 {
      BornForEver(Step(w, es[0]), es[1..], es[0].id);
    } else {
      BornAsMade(Step(w, es[0]), es[1..], k - 1);
    }
  }

  /** Through every interleaving, whatever has happened since an event created a gallery: as
      long as it exists it keeps the name, description and moderator of that event, and every
      cached name of it is the one given there. */
  lemma CachedNamesAreTheGivenNames(es: seq<Event>, k: nat, replica: nat)
    requires Legal(START, es) && k < |es| && es[k].Create?
    ensures var w, made := Exec(START, es), Made(es[k]);
            && (made.id in w.store.galleries ==> w.store.galleries[made.id].(status := GalleryOpen) == made)
            && (made.id in Cache(w, replica) ==> Cache(w, replica)[made.id] == made.name)
  {
    RunCoherent(START, es);
    BornAsMade(START, es, k);
  }

  lemma {:induction false} BornOfAnEvent(w: World, es: seq<Event>, id: UUID)
    requires Legal(w, es) && id in Exec(w, es).born
    ensures id in w.born || exists k :: 0 <= k < |es| && es[k].Create? && es[k].id == id
    decreases |es|
  {
    if es != [] {
      BornOfAnEvent(Step(w, es[0]), es[1..], id);
      if exists k :: 0 <= k < |es[1..]| && es[1..][k].Create? && es[1..][k].id == id {
        var k :| 0 <= k < |es[1..]| && es[1..][k].Create? && es[1..][k].id == id;
        assert es[k + 1].id == id;
      } else if id !in w.born {
        assert es[0].Create? && es[0].id == id;
      }
    }
  }

  /** Nothing is stored, cached or joined that no event created. */
  lemma NothingFromNowhere(es: seq<Event>, replica: nat, id: UUID)
    requires Legal(START, es)
    ensures var w := Exec(START, es);
            && (id in w.store.galleries || id in Cache(w, replica) ==>
                  exists k :: 0 <= k < |es| && es[k].Create? && es[k].id == id)
            && (forall m <- w.store.members :: m.0 in w.store.galleries)
  {
    RunCoherent(START, es);
    if id in Exec(START, es).born {
      BornOfAnEvent(START, es, id);
    }
  }

  /** A gallery that has been closed or deleted is never open again, not even when an
      overtaken close inserts a deleted row anew. */
  lemma {:induction false} ClosedNeverReopens(w: World, es: seq<Event>, id: UUID)
    requires Coherent(w) && Legal(w, es)
    requires id in w.born && !IsOpen(w, id)
    ensures !IsOpen(Exec(w, es), id)
    decreases |es|
  {
    if es != [] {
      StepCoherent(w, es[0]);
      ClosedNeverReopens(Step(w, es[0]), es[1..], id);
    }
  }

  // ---- Who may close and delete ----

  /** A delete, or a close, of the gallery has been read and not yet written. */
  predicate DeletePending(w: World, id: UUID) {
    exists op :: op in w.pending && w.pending[op] == Deleting(id)
  }

  predicate ClosePending(w: World, id: UUID) {
    exists op :: op in w.pending && w.pending[op].Closing? && w.pending[op].row.id == id
  }

  predicate AsksDelete(e: Event, id: UUID, caller: UUID) {
    e.ReadDelete? && e.id == id && e.caller == caller
  }

  predicate AsksClose(e: Event, id: UUID, caller: UUID) {
    e.ReadClose? && e.id == id && e.caller == caller
  }

  /** Only the moderator's request makes a delete or a close pending. */
  lemma PendingIsAsked(w: World, e: Event, id: UUID)
    requires Coherent(w) && Enabled(w, e) && id in w.born
    ensures DeletePending(Step(w, e), id) ==> DeletePending(w, id) || AsksDelete(e, id, w.born[id].moderator)
    ensures ClosePending(Step(w, e), id) ==> ClosePending(w, id) || AsksClose(e, id, w.born[id].moderator)
  {
  }

  /** Only a pending delete removes a gallery and only a pending close closes it. */
  lemma EffectIsPending(w: World, e: Event, id: UUID)
    requires Coherent(w) && Enabled(w, e) && id in w.born
    ensures Step(w, e).born[id] == w.born[id]
    ensures id in w.store.galleries && id !in Step(w, e).store.galleries ==> DeletePending(w, id)
    ensures !IsClosed(w, id) && IsClosed(Step(w, e), id) ==> ClosePending(w, id)
  {
  }

  lemma AuthorityStep(w: World, e: Event, id: UUID)
    requires Coherent(w) && Enabled(w, e) && id in w.born
    ensures Step(w, e).born[id] == w.born[id]
    ensures DeletePending(Step(w, e), id) ==> DeletePending(w, id) || AsksDelete(e, id, w.born[id].moderator)
    ensures ClosePending(Step(w, e), id) ==> ClosePending(w, id) || AsksClose(e, id, w.born[id].moderator)
    ensures id in w.store.galleries && id !in Step(w, e).store.galleries ==> DeletePending(w, id)
    ensures !IsClosed(w, id) && IsClosed(Step(w, e), id) ==> ClosePending(w, id)
  {
    PendingIsAsked(w, e, id);
    EffectIsPending(w, e, id);
  }

  lemma {:induction false} GoneWasAsked(w: World, es: seq<Event>, id: UUID)
    requires Coherent(w) && Legal(w, es) && id in w.born
    requires id in w.store.galleries && id !in Exec(w, es).store.galleries
    ensures DeletePending(w, id) || exists j :: 0 <= j < |es| && AsksDelete(es[j], id, w.born[id].moderator)
    decreases |es|
  {
    if es != [] {
      var w1 := Step(w, es[0]);
      AuthorityStep(w, es[0], id);
      StepCoherent(w, es[0]);
      if id in w1.store.galleries {
        GoneWasAsked(w1, es[1..], id);
        if exists j :: 0 <= j < |es[1..]| && AsksDelete(es[1..][j], id, w.born[id].moderator) {
          var j :| 0 <= j < |es[1..]| && AsksDelete(es[1..][j], id, w.born[id].moderator);
          assert AsksDelete(es[j + 1], id, w.born[id].moderator);
        } else if !DeletePending(w, id) {
          assert AsksDelete(es[0], id, w.born[id].moderator);
        }
      }
    }
  }

  lemma {:induction false} ClosedWasAsked(w: World, es: seq<Event>, id: UUID)
    requires Coherent(w) && Legal(w, es) && id in w.born
    requires !IsClosed(w, id) && IsClosed(Exec(w, es), id)
    ensures ClosePending(w, id) || exists j :: 0 <= j < |es| && AsksClose(es[j], id, w.born[id].moderator)
    decreases |es|
  {
    if es != [] {
      var w1 := Step(w, es[0]);
      AuthorityStep(w, es[0], id);
      StepCoherent(w, es[0]);
      if !IsClosed(w1, id) {
        ClosedWasAsked(w1, es[1..], id);
        if exists j :: 0 <= j < |es[1..]| && AsksClose(es[1..][j], id, w.born[id].moderator) {
          var j :| 0 <= j < |es[1..]| && AsksClose(es[1..][j], id, w.born[id].moderator);
          assert AsksClose(es[j + 1], id, w.born[id].moderator);
        } else if !ClosePending(w, id) {
          assert AsksClose(es[0], id, w.born[id].moderator);
        }
      }
    }
  }

  lemma {:induction false} Rest(w: World, es: seq<Event>, k: nat)
    requires Legal(w, es) && k <= |es|
    ensures Legal(w, es[..k]) && Legal(Exec(w, es[..k]), es[k..])
    ensures Exec(w, es) == Exec(Exec(w, es[..k]), es[k..])
    decreases |es|
  {
    if k == 0 {
      assert es[..0] == [] && es[0..] == es;
    } else {
      Rest(Step(w, es[0]), es[1..], k - 1);
      assert es[..k][1..] == es[1..][..k - 1] && es[..k][0] == es[0] && es[1..][k - 1..] == es[k..];
    }
  }

  /** Through every interleaving: a gallery that some event created is gone later only if its
      moderator asked for its deletion since, and closed only if its moderator asked for that. */
  lemma OnlyTheModeratorMay(es: seq<Event>, k: nat)
    requires Legal(START, es) && k < |es| && es[k].Create?
    ensures var w, id, moderator := Exec(START, es), es[k].id, es[k].moderator;
            && (id !in w.store.galleries ==> exists j :: k < j < |es| && AsksDelete(es[j], id, moderator))
            && (IsClosed(w, id) ==> exists j :: k < j < |es| && AsksClose(es[j], id, moderator))
  {
    var id, moderator := es[k].id, es[k].moderator;
    Rest(START, es, k);
    var w, rest := Exec(START, es[..k]), es[k..];
    RunCoherent(START, es[..k]);
    assert rest[0] == es[k] && rest[1..] == es[k + 1..];
    var w1, later := Step(w, es[k]), es[k + 1..];
    StepCoherent(w, es[k]);
    assert w1.born[id].moderator == moderator && id in w1.store.galleries && !IsClosed(w1, id);
    assert !DeletePending(w1, id) && !ClosePending(w1, id);
    if id !in Exec(START, es).store.galleries {
      GoneWasAsked(w1, later, id);
      var j :| 0 <= j < |later| && AsksDelete(later[j], id, moderator);
      assert AsksDelete(es[k + 1 + j], id, moderator);
    }
    if IsClosed(Exec(START, es), id) {
      ClosedWasAsked(w1, later, id);
      var j :| 0 <= j < |later| && AsksClose(later[j], id, moderator);
      assert AsksClose(es[k + 1 + j], id, moderator);
    }
  }

  // ---- Who gets in, and how often a command writes ----

  predicate JoinPending(w: World, id: UUID, user: UUID) {
    exists op :: op in w.pending && w.pending[op] == Joining(id, user)
  }

  /** The event is this user's request to join the gallery while it is open. */
  predicate LetsIn(w: World, e: Event, id: UUID, user: UUID) {
    e.ReadJoin? && e.id == id && e.user == user && IsOpen(w, id)
  }

  lemma JoinStep(w: World, e: Event, id: UUID, user: UUID)
    requires Enabled(w, e)
    ensures JoinPending(Step(w, e), id, user) ==> JoinPending(w, id, user) || LetsIn(w, e, id, user)
    ensures (id, user) !in w.store.members && (id, user) in Step(w, e).store.members ==> JoinPending(w, id, user)
  {
  }

  predicate LetInAt(w: World, es: seq<Event>, k: int, id: UUID, user: UUID) {
    0 <= k < |es| && Legal(w, es[..k]) && LetsIn(Exec(w, es[..k]), es[k], id, user)
  }

  lemma LetInLater(w: World, es: seq<Event>, k: int, id: UUID, user: UUID)
    requires Legal(w, es) && es != [] && LetInAt(Step(w, es[0]), es[1..], k, id, user)
    ensures LetInAt(w, es, k + 1, id, user)
  {
    assert es[..k + 1][1..] == es[1..][..k] && es[..k + 1][0] == es[0];
  }

  lemma {:induction false} MemberWasLetIn(w: World, es: seq<Event>, id: UUID, user: UUID)
    requires Legal(w, es) && !JoinPending(w, id, user)
    requires JoinPending(Exec(w, es), id, user)
             || ((id, user) !in w.store.members && (id, user) in Exec(w, es).store.members)
    ensures exists k :: LetInAt(w, es, k, id, user)
    decreases |es|
  {
    assert es != [];
    var w1 := Step(w, es[0]);
    JoinStep(w, es[0], id, user);
    if JoinPending(w1, id, user) {
      assert es[..0] == [];
      assert LetInAt(w, es, 0, id, user);
    } else {
      MemberWasLetIn(w1, es[1..], id, user);
      var k :| LetInAt(w1, es[1..], k, id, user);
      LetInLater(w, es, k, id, user);
    }
  }

  /** Through every interleaving: whoever is a member of a gallery asked to join it at a moment
      when it was open. */
  lemma EveryMemberWasLetIn(es: seq<Event>, id: UUID, user: UUID)
    requires Legal(START, es) && (id, user) in Exec(START, es).store.members
    ensures exists k :: LetInAt(START, es, k, id, user)
  {
    MemberWasLetIn(START, es, id, user);
  }

  predicate Reads(e: Event, op: nat) {
    (e.ReadClose? || e.ReadDelete? || e.ReadJoin?) && e.op == op
  }

  lemma {:induction false} PendingWasRead(w: World, es: seq<Event>, op: nat)
    requires Legal(w, es) && op !in w.pending && op in Exec(w, es).pending
    ensures exists k :: 0 <= k < |es| && Reads(es[k], op)
    decreases |es|
  {
    if !Reads(es[0], op) {
      PendingWasRead(Step(w, es[0]), es[1..], op);
      var k :| 0 <= k < |es[1..]| && Reads(es[1..][k], op);
      assert Reads(es[k + 1], op);
    }
  }

  /** A command writes once: between two writes under the same operation there is another read. */
  lemma WritesOnce(es: seq<Event>, i: nat, j: nat, op: nat)
    requires Legal(START, es) && i < j < |es|
    requires es[i].Write? && es[i].op == op && es[j].Write? && es[j].op == op
    ensures exists k :: i < k < j && Reads(es[k], op)
  {
    var later, n := es[i + 1..], j - i - 1;
    Rest(START, es, i);
    assert es[i..][0] == es[i] && es[i..][1..] == later;
    var w1 := Step(Exec(START, es[..i]), es[i]);
    Rest(w1, later, n);
    assert later[n..][0] == later[n] == es[i + 1 + n];
    PendingWasRead(w1, later[..n], op);
    var k :| 0 <= k < n && Reads(later[..n][k], op);
    assert Reads(es[i + 1 + k], op);
  }

  // ---- What commands do in the end ----

  /** The moderator's delete, however much happens between its halves, removes the gallery with
      all its memberships. */
  lemma DeleteTakes(w: World, op: nat, id: UUID, caller: UUID, es: seq<Event>, upsert: bool)
    requires Coherent(w) && Enabled(w, ReadDelete(op, id, caller))
    requires id in w.store.galleries && w.store.galleries[id].moderator == caller
    requires Legal(Step(w, ReadDelete(op, id, caller)), es) && OthersOnly(es, op)
    ensures var now := Exec(Step(w, ReadDelete(op, id, caller)), es);
            && Enabled(now, Write(op, upsert))
            && var end := Step(now, Write(op, upsert));
               id !in end.store.galleries && forall user :: (id, user) !in end.store.members
  {
    PendingStays(Step(w, ReadDelete(op, id, caller)), es, op);
  }

  /** The moderator's close leaves the gallery closed, or gone if it was deleted meanwhile. */
  lemma CloseTakes(w: World, op: nat, id: UUID, caller: UUID, es: seq<Event>, upsert: bool)
    requires Coherent(w) && Enabled(w, ReadClose(op, id, caller))
    requires IsOpen(w, id) && w.store.galleries[id].moderator == caller
    requires Legal(Step(w, ReadClose(op, id, caller)), es) && OthersOnly(es, op)
    ensures var now := Exec(Step(w, ReadClose(op, id, caller)), es);
            && Enabled(now, Write(op, upsert))
            && var end := Step(now, Write(op, upsert));
               && (id in now.store.galleries || upsert ==> IsClosed(end, id))
               && (id !in now.store.galleries && !upsert ==> id !in end.store.galleries)
  {
    PendingStays(Step(w, ReadClose(op, id, caller)), es, op);
  }

  /** A join that read an open gallery makes the user a member of it unless it is gone. */
  lemma JoinTakes(w: World, op: nat, id: UUID, user: UUID, es: seq<Event>, upsert: bool)
    requires Coherent(w) && Enabled(w, ReadJoin(op, id, user)) && IsOpen(w, id)
    requires Legal(Step(w, ReadJoin(op, id, user)), es) && OthersOnly(es, op)
    ensures var now := Exec(Step(w, ReadJoin(op, id, user)), es);
            && Enabled(now, Write(op, upsert))
            && ((id, user) in Step(now, Write(op, upsert)).store.members
                <==> id in now.store.galleries || (id, user) in now.store.members)
  {
    PendingStays(Step(w, ReadJoin(op, id, user)), es, op);
  }

  /** The gallery an event can change in the store, if any. */
  function Touched(w: World, e: Event): Option<UUID>
    requires Enabled(w, e)
  {
    match e
    case Create(id, _, _, _) => Some(id)
    case Leave(id, _) => Some(id)
    case Write(op, _) =>
      Some(match w.pending[op]
           case Closing(row) => row.id
           case Deleting(id) => id
           case Joining(id, _) => id)
    case _ => None
  }

  /** A leave ends just this membership; nothing changes any other gallery or its members, and
      nothing but a join or a leave of a user changes whether they are a member of a gallery
      that stays. */
  lemma EverythingElseStays(w: World, e: Event, id: UUID, user: UUID)
    requires Coherent(w) && Enabled(w, e)
    ensures var s, t := w.store, Step(w, e).store;
            && (e == Leave(id, user) ==> (id, user) !in t.members)
            && (Touched(w, e) != Some(id) ==>
                  && (id in t.galleries <==> id in s.galleries)
                  && (id in s.galleries ==> t.galleries[id] == s.galleries[id])
                  && ((id, user) in t.members <==> (id, user) in s.members))
            && (id in s.galleries && id in t.galleries && ((id, user) in s.members) != ((id, user) in t.members) ==>
                  e == Leave(id, user) || (e.Write? && w.pending[e.op] == Joining(id, user)))
  {
  }

  /** A name that a replica asks for, of a gallery that exists and it has not cached, ends up in
      its cache, and one it has cached stays. */
  lemma NamesAreKept(w: World, op: nat, replica: nat, id: UUID)
    requires Coherent(w) && Enabled(w, AskName(op, replica, id))
    requires id in w.store.galleries && id !in Cache(w, replica)
    ensures var asked := Step(w, AskName(op, replica, id));
            && Enabled(asked, KeepName(op))
            && id in Cache(Step(asked, KeepName(op)), replica)
            && Cache(Step(asked, KeepName(op)), replica)[id] == w.store.galleries[id].name
  {
  }

  // ---- Joining against closing ----

  /** The event writes the closed row of gallery `id`. */
  predicate WritesClose(w: World, e: Event, id: UUID)
    requires Enabled(w, e)
  {
    && e.Write? && w.pending[e.op].Closing? && w.pending[e.op].row.id == id
    && (id in w.store.galleries || e.upsert)
  }

  predicate CloseWritten(w: World, es: seq<Event>, id: UUID)
    requires Legal(w, es)
    decreases |es|
  {
    es != [] && (WritesClose(w, es[0], id) || CloseWritten(Step(w, es[0]), es[1..], id))
  }

  /** Before any close of it has been written, an event leaves a gallery open or gone. */
  lemma OnlyCloseWritesClose(w: World, e: Event, id: UUID)
    requires Coherent(w) && Enabled(w, e) && id in w.born && !IsClosed(w, id)
    ensures id in Step(w, e).born && Step(w, e).born[id] == w.born[id]
    ensures IsClosed(Step(w, e), id) <==> WritesClose(w, e, id)
  {
  }

  /** From a state in which a gallery is not closed to one in which it exists, it becomes
      closed exactly when a close has written in between. */
  lemma {:induction false} ClosedIffWritten(w: World, es: seq<Event>, id: UUID)
    requires Coherent(w) && Legal(w, es) && id in w.born
    requires !IsClosed(w, id)
    requires id in Exec(w, es).store.galleries
    ensures IsClosed(Exec(w, es), id) <==> CloseWritten(w, es, id)
    decreases |es|
  {
    if es != [] {
      var w1 := Step(w, es[0]);
      StepCoherent(w, es[0]);
      OnlyCloseWritesClose(w, es[0], id);
      if WritesClose(w, es[0], id) {
        ClosedNeverReopens(w1, es[1..], id);
      } else {
        ClosedIffWritten(w1, es[1..], id);
      }
    }
  }

  /** None of the events is the write half of operation `op`. */
  predicate OthersOnly(es: seq<Event>, op: nat) {
    forall e <- es :: e.Write? ==> e.op != op
  }

  lemma {:induction false} PendingStays(w: World, es: seq<Event>, op: nat)
    requires Legal(w, es) && op in w.pending && OthersOnly(es, op)
    ensures op in Exec(w, es).pending && Exec(w, es).pending[op] == w.pending[op]
    decreases |es|
  {
    if es != [] {
      assert es[0] in es;
      PendingStays(Step(w, es[0]), es[1..], op);
    }
  }

  /** A join reads an open gallery, anything else happens, and the join writes: it adds a
      member to a closed gallery if and only if the gallery still exists, the user is not
      already a member, and a close has written in between. */
  lemma JoinMeetsClosedIff(w: World, op: nat, id: UUID, user: UUID, es: seq<Event>, upsert: bool)
    requires Coherent(w) && Enabled(w, ReadJoin(op, id, user)) && JoinRead(w.store, id).Ok?
    requires Legal(Step(w, ReadJoin(op, id, user)), es) && OthersOnly(es, op)
    ensures var read := Step(w, ReadJoin(op, id, user));
            var now := Exec(read, es);
            && Enabled(now, Write(op, upsert))
            && (AddsMember(now, Write(op, upsert), id, user) && IsClosed(now, id) <==>
                && id in now.store.galleries
                && (id, user) !in now.store.members
                && CloseWritten(read, es, id))
  {
    var read := Step(w, ReadJoin(op, id, user));
    StepCoherent(w, ReadJoin(op, id, user));
    PendingStays(read, es, op);
    if id in Exec(read, es).store.galleries {
      ClosedIffWritten(read, es, id);
    }
  }

  lemma {:induction false} OneMoreEvent(w: World, es: seq<Event>, e: Event)
    requires Legal(w, es) && Enabled(Exec(w, es), e)
    ensures Legal(w, es + [e]) && Exec(w, es + [e]) == Step(Exec(w, es), e)
    decreases |es|
  {
    if es == [] {
      assert (es + [e])[1..] == [];
    } else {
      OneMoreEvent(Step(w, es[0]), es[1..], e);
      assert (es + [e])[1..] == es[1..] + [e];
    }
  }

  /** So a member can be added to a gallery that is already closed. */
  lemma JoinAfterClose()
    ensures exists es: seq<Event>, e: Event, id: UUID, user: UUID ::
              && Legal(START, es)
              && Enabled(Exec(START, es), e)
              && IsClosed(Exec(START, es), id)
              && AddsMember(Exec(START, es), e, id, user)
  {
    OneMoreEvent(START, [], Create(1, "n", "", 7));
    var created := [] + [Create(1, "n", "", 7)];
    OneMoreEvent(START, created, ReadJoin(0, 1, 9));
    var reading := created + [ReadJoin(0, 1, 9)];
    OneMoreEvent(START, reading, ReadClose(1, 1, 7));
    var closing := reading + [ReadClose(1, 1, 7)];
    OneMoreEvent(START, closing, Write(1, false));
    var closed := closing + [Write(1, false)];
    assert AddsMember(Exec(START, closed), Write(0, false), 1, 9);
  }

  predicate AddsMember(w: World, e: Event, id: UUID, user: UUID)
    requires Enabled(w, e)
  {
    (id, user) !in w.store.members && (id, user) in Step(w, e).store.members
  }
}
