/** The browser's two gallery lists: the store that keeps them and the actions that feed it. */
module GalleryLists {
  import opened Common
  import opened Galleries
  import opened Memberships
  import opened Paging

  const MY_PAGE_SIZE := 50
  const AVAILABLE_PAGE_SIZE := 12

  datatype GalleryState = GalleryState(
    my: seq<Gallery>,
    available: seq<Gallery>,
    myNext: Option<UUID>,
    availableNext: Option<UUID>,
    loadingMoreMy: bool,
    loadingMoreAvailable: bool,
    loading: bool,
    error: Option<string>)

  const NOTHING := GalleryState([], [], None, None, false, false, false, None)

  datatype Action =
    | CreateStart
    | CreateFailure(message: string)
    | CloseFailure(message: string)
    | LoadStart
    | LoadSuccess(my: seq<Gallery>, available: seq<Gallery>, myNext: Option<UUID>, availableNext: Option<UUID>)
    | LoadFailure(message: string)
    | MoreMyStart
    | MoreMySuccess(galleries: seq<Gallery>, next: Option<UUID>)
    | MoreMyFailure(message: string)
    | MoreAvailableStart
    | MoreAvailableSuccess(galleries: seq<Gallery>, next: Option<UUID>)
    | MoreAvailableFailure(message: string)
    | Joined(gallery: Gallery)
    | Left(gallery: Gallery)
    | JoinFailure(message: string)
    | LeaveFailure(message: string)
    | Deleted(id: UUID)
    | DeleteFailure(message: string)

  function IdSet(galleries: seq<Gallery>): set<UUID> {
    set g <- galleries :: g.id
  }

  function Without(galleries: seq<Gallery>, ids: set<UUID>): (kept: seq<Gallery>)
    ensures forall g :: g in kept <==> g in galleries && g.id !in ids
    decreases galleries
  {
    if galleries == [] then []
    else (if galleries[0].id in ids then [] else [galleries[0]]) + Without(galleries[1..], ids)
  }

  // ---- The store ----

  /** The state after an action. */
  function Next(s: GalleryState, action: Action): GalleryState {
    match action
    case CreateStart => s.(loading := true, error := None)
    case CreateFailure(m) => s.(loading := false, error := Some(m))
    case CloseFailure(m) => s.(error := Some(m))
    case LoadStart => s.(loading := true, error := None)
    case LoadSuccess(my, available, myNext, availableNext) =>
      GalleryState(my, available, myNext, availableNext, false, false, false, None)
    case LoadFailure(m) => s.(loading := false, error := Some(m))
    case MoreMyStart => s.(loadingMoreMy := true, error := None)
    case MoreMySuccess(galleries, next) =>
      s.(my := s.my + galleries, available := Without(s.available, IdSet(galleries)), myNext := next, loadingMoreMy := false)
    case MoreMyFailure(m) => s.(loadingMoreMy := false, error := Some(m))
    case MoreAvailableStart => s.(loadingMoreAvailable := true, error := None)
    case MoreAvailableSuccess(galleries, next) =>
      s.(available := s.available + Without(galleries, IdSet(s.my)), availableNext := next, loadingMoreAvailable := false)
    case MoreAvailableFailure(m) => s.(loadingMoreAvailable := false, error := Some(m))
    case Joined(g) => s.(available := Without(s.available, {g.id}), my := s.my + [g], error := None)
    case Left(g) => s.(my := Without(s.my, {g.id}), available := s.available + [g], error := None)
    case JoinFailure(m) => s.(error := Some(m))
    case LeaveFailure(m) => s.(error := Some(m))
    case Deleted(id) => s.(my := Without(s.my, {id}), available := Without(s.available, {id}), error := None)
    case DeleteFailure(m) => s.(loading := false, error := Some(m))
  }

  ghost predicate Disjoint(my: seq<Gallery>, available: seq<Gallery>) {
    IdSet(my) !! IdSet(available)
  }

  /** No gallery is in both lists after an action, if none was before and none is in both lists
      of a load. */
  lemma StaysDisjoint(s: GalleryState, action: Action)
    requires Disjoint(s.my, s.available)
    requires action.LoadSuccess? ==> Disjoint(action.my, action.available)
    ensures Disjoint(Next(s, action).my, Next(s, action).available)
  {
    var t := Next(s, action);
    forall g, h | g in t.my && h in t.available ensures g.id != h.id {
      assert g in s.my ==> g.id in IdSet(s.my);
      assert h in s.available ==> h.id in IdSet(s.available);
      match action {
        case LoadSuccess(my, available, _, _) =>
          assert g.id in IdSet(my) && h.id in IdSet(available);
        case MoreMySuccess(galleries, _) =>
          assert g in galleries ==> g.id in IdSet(galleries);
        case _ =>
      }
    }
  }

  class GalleryStore {
    var state: GalleryState

    constructor ()
      ensures state == NOTHING
    {
      state := NOTHING;
    }

    method HandleAction(action: Action)
      modifies this
      ensures state == Next(old(state), action)
      ensures Disjoint(old(state.my), old(state.available))
              && (action.LoadSuccess? ==> Disjoint(action.my, action.available))
              ==> Disjoint(state.my, state.available)
    {
      if Disjoint(state.my, state.available) && (action.LoadSuccess? ==> Disjoint(action.my, action.available)) {
        StaysDisjoint(state, action);
      }
      match action {
        case CreateStart => state := state.(loading := true, error := None);
        case CreateFailure(m) => state := state.(loading := false, error := Some(m));
        case CloseFailure(m) => state := state.(error := Some(m));
        case LoadStart => state := state.(loading := true, error := None);
        case LoadSuccess(my, available, myNext, availableNext) =>
          state := GalleryState(my, available, myNext, availableNext, false, false, false, None);
        case LoadFailure(m) => state := state.(loading := false, error := Some(m));
        case MoreMyStart => state := state.(loadingMoreMy := true, error := None);
        case MoreMySuccess(galleries, next) =>
          var newIds := IdSet(galleries);
          state := state.(my := state.my + galleries, available := Without(state.available, newIds),
                          myNext := next, loadingMoreMy := false);
        case MoreMyFailure(m) => state := state.(loadingMoreMy := false, error := Some(m));
        case MoreAvailableStart => state := state.(loadingMoreAvailable := true, error := None);
        case MoreAvailableSuccess(galleries, next) =>
          var newAvailable := Without(galleries, IdSet(state.my));
          state := state.(available := state.available + newAvailable, availableNext := next,
                          loadingMoreAvailable := false);
        case MoreAvailableFailure(m) => state := state.(loadingMoreAvailable := false, error := Some(m));
        case Joined(g) =>
          state := state.(available := Without(state.available, {g.id}), my := state.my + [g], error := None);
        case Left(g) =>
          state := state.(my := Without(state.my, {g.id}), available := state.available + [g], error := None);
        case JoinFailure(m) => state := state.(error := Some(m));
        case LeaveFailure(m) => state := state.(error := Some(m));
        case Deleted(id) =>
          state := state.(my := Without(state.my, {id}), available := Without(state.available, {id}), error := None);
        case DeleteFailure(m) => state := state.(loading := false, error := Some(m));
      }
    }
  }

  // ---- The actions ----

  function Token(token: IdText): Option<UUID> {
    if token.IdOf? then Some(token.id) else None
  }

  /** What a load dispatches when both of its requests are answered. */
  function Loaded(mine: Answer, all: Answer): (action: Action)
    ensures action.LoadSuccess? && Disjoint(action.my, action.available)
  {
    var available := Without(all.galleries, IdSet(mine.galleries));
    LoadSuccess(mine.galleries, available, Token(mine.nextPageToken), Token(all.nextPageToken))
  }

  function LoadedMoreMy(page: Answer): Action {
    MoreMySuccess(page.galleries, Token(page.nextPageToken))
  }

  function LoadedMoreAvailable(page: Answer): Action {
    MoreAvailableSuccess(page.galleries, Token(page.nextPageToken))
  }

  // ---- Sessions against an unchanging server ----

  datatype Server = Server(store: Store, user: UUID)

  function PageSize(mine: bool): int {
    if mine then MY_PAGE_SIZE else AVAILABLE_PAGE_SIZE
  }

  function Asked(server: Server, mine: bool, token: IdText): Answer
    requires server.user != NIL && !token.BadId?
  {
    ListGalleries(Some(server.store), mine, server.user, PageSize(mine), token).value
  }

  /** The answers to requests for my galleries (true) or all galleries (false). */
  type Ask = (bool, IdText) -> Answer

  /** The answers come from one unchanging store. */
  ghost predicate Serving(server: Server, ask: Ask) {
    && server.user != NIL
    && WellFormed(server.store)
    && forall mine: bool, token: IdText {:trigger Asked(server, mine, token)} ::
         !token.BadId? ==> ask(mine, token) == Asked(server, mine, token)
  }

  /** The store's state and the tokens of the load-more requests in flight. */
  datatype Session = Session(state: GalleryState, my: seq<UUID>, available: seq<UUID>)

  datatype Event =
    | StartLoad
    | Load
    | FailLoad(message: string)
    | StartMy
    | AnswerMy(request: nat)
    | FailMy(request: nat, message: string)
    | StartAvailable
    | AnswerAvailable(request: nat)
    | FailAvailable(request: nat, message: string)

  /** A list can be asked for more when it has a token and no request is known to be in
      flight: otherwise its button is absent or disabled. */
  predicate Enabled(x: Session, e: Event) {
    match e
    case StartMy => x.state.myNext.Some? && !x.state.loadingMoreMy
    case StartAvailable => x.state.availableNext.Some? && !x.state.loadingMoreAvailable
    case AnswerMy(i) => i < |x.my|
    case FailMy(i, _) => i < |x.my|
    case AnswerAvailable(i) => i < |x.available|
    case FailAvailable(i, _) => i < |x.available|
    case _ => true
  }

  function Dropped(requests: seq<UUID>, i: nat): seq<UUID>
    requires i < |requests|
  {
    requests[..i] + requests[i + 1..]
  }

  function Step(ask: Ask, x: Session, e: Event): Session
    requires Enabled(x, e)
  {
    match e
    case StartLoad => x.(state := Next(x.state, LoadStart))
    case Load =>
      var mine := ask(true, NoId);
      var all := ask(false, NoId);
      x.(state := Next(x.state, Loaded(mine, all)))
    case FailLoad(m) => x.(state := Next(x.state, LoadFailure(m)))
    case StartMy => x.(state := Next(x.state, MoreMyStart), my := x.my + [x.state.myNext.value])
    case AnswerMy(i) =>
      var page := ask(true, IdOf(x.my[i]));
      x.(state := Next(x.state, LoadedMoreMy(page)), my := Dropped(x.my, i))
    case FailMy(i, m) => x.(state := Next(x.state, MoreMyFailure(m)), my := Dropped(x.my, i))
    case StartAvailable =>
      x.(state := Next(x.state, MoreAvailableStart), available := x.available + [x.state.availableNext.value])
    case AnswerAvailable(i) =>
      var page := ask(false, IdOf(x.available[i]));
      x.(state := Next(x.state, LoadedMoreAvailable(page)), available := Dropped(x.available, i))
    case FailAvailable(i, m) =>
      x.(state := Next(x.state, MoreAvailableFailure(m)), available := Dropped(x.available, i))
  }

  predicate Legal(ask: Ask, x: Session, es: seq<Event>)
    decreases |es|
  {
    es == [] || (Enabled(x, es[0]) && Legal(ask, Step(ask, x, es[0]), es[1..]))
  }

  function Exec(ask: Ask, x: Session, es: seq<Event>): Session
    requires Legal(ask, x, es)
    decreases |es|
  {
    if es == [] then x else Exec(ask, Step(ask, x, es[0]), es[1..])
  }

  /** No load is answered while a load-more request is in flight. */
  predicate Undisturbed(ask: Ask, x: Session, es: seq<Event>)
    requires Legal(ask, x, es)
    decreases |es|
  {
    es == [] || ((es[0].Load? ==> x.my == [] && x.available == []) && Undisturbed(ask, Step(ask, x, es[0]), es[1..]))
  }

  // ---- What the lists hold ----

  function Mine(server: Server): set<UUID> {
    MemberOf(server.store, server.user)
  }

  function All(server: Server): set<UUID> {
    server.store.galleries.Keys
  }

  /** The identifiers a walk has passed. */
  function Passed(s: set<UUID>, next: Option<UUID>): set<UUID> {
    if next.None? then s else UpTo(s, next.value)
  }

  /** A list holds just these galleries, in order and as the server has them. */
  ghost predicate Holds(server: Server, list: seq<Gallery>, ids: set<UUID>) {
    && Ascending(Ids(list))
    && Lists(Ids(list), ids)
    && forall g <- list :: g.id in server.store.galleries && server.store.galleries[g.id] == g
  }

  /** My list holds the memberships passed so far, the other list all the other galleries
      passed so far. */
  ghost predicate Walked(server: Server, s: GalleryState) {
    && Holds(server, s.my, Passed(Mine(server), s.myNext))
    && Holds(server, s.available, Passed(All(server), s.availableNext) - Passed(Mine(server), s.myNext))
  }

  /** Tokens come from answers, so each is the identifier of a gallery that was listed. */
  ghost predicate TokensServed(server: Server, x: Session) {
    && (x.state.myNext.Some? ==> x.state.myNext.value in Mine(server))
    && (x.state.availableNext.Some? ==> x.state.availableNext.value in All(server))
    && (forall t <- x.my :: t in Mine(server))
    && (forall t <- x.available :: t in All(server))
  }

  // ---- Listings ----

  lemma IdsAreIds(galleries: seq<Gallery>)
    ensures forall x :: x in Ids(galleries) <==> x in IdSet(galleries)
    ensures forall g <- galleries :: g.id in IdSet(galleries)
  {
    forall x | x in IdSet(galleries) ensures x in Ids(galleries) {
      var i :| 0 <= i < |galleries| && galleries[i].id == x;
      assert Ids(galleries)[i] == x;
    }
  }

  /** A sorted list is one whose head is below the rest, and whose rest is sorted. */
  lemma HeadIsLeast(list: seq<Gallery>)
    requires list != []
    ensures Ascending(Ids(list)) <==> Ascending(Ids(list[1..])) && forall g <- list[1..] :: list[0].id < g.id
  {
    var ids, tail := Ids(list), list[1..];
    assert Ids(tail) == ids[1..];
    if Ascending(ids) {
      forall g | g in tail ensures list[0].id < g.id {
        var j :| 0 <= j < |tail| && tail[j] == g;
        assert ids[0] < ids[j + 1];
      }
    } else if forall g <- tail :: list[0].id < g.id {
      var i, j :| 0 <= i < j < |ids| && ids[i] >= ids[j];
      assert tail[j - 1] in tail;
      assert ids[1..][j - 1] == ids[j];
      assert i > 0 && ids[1..][i - 1] == ids[i];
    }
  }

  lemma {:induction false} WithoutAscends(list: seq<Gallery>, ids: set<UUID>)
    requires Ascending(Ids(list))
    ensures Ascending(Ids(Without(list, ids)))
    decreases |list|
  {
    if list != [] {
      HeadIsLeast(list);
      var kept := Without(list[1..], ids);
      WithoutAscends(list[1..], ids);
      if list[0].id !in ids {
        assert Without(list, ids) == [list[0]] + kept;
        assert ([list[0]] + kept)[1..] == kept;
        HeadIsLeast([list[0]] + kept);
      } else {
        assert Without(list, ids) == kept;
      }
    }
  }

  lemma HoldsWithout(server: Server, list: seq<Gallery>, ids: set<UUID>, gone: set<UUID>)
    requires Holds(server, list, ids)
    ensures Holds(server, Without(list, gone), ids - gone)
  {
    WithoutAscends(list, gone);
    var kept := Without(list, gone);
    forall x ensures x in Ids(kept) <==> x in ids - gone {
      if x in Ids(kept) {
        var i :| 0 <= i < |kept| && kept[i].id == x;
        assert kept[i] in list;
        IdsAreIds(list);
      }
      if x in ids - gone {
        assert x in Ids(list);
        var i :| 0 <= i < |list| && list[i].id == x;
        assert list[i] in kept;
        IdsAreIds(kept);
      }
    }
  }

  lemma HoldsMore(server: Server, low: seq<Gallery>, s: set<UUID>, high: seq<Gallery>, t: set<UUID>)
    requires Holds(server, low, s) && Holds(server, high, t)
    requires forall x <- s, y <- t :: x < y
    ensures Holds(server, low + high, s + t)
  {
    Glue(Ids(low), s, Ids(high), t);
    assert Ids(low + high) == Ids(low) + Ids(high);
  }

  /** An answer's token stands for what its page passed. */
  lemma PassedByPage(s: set<UUID>, page: seq<UUID>, after: UUID)
    requires NIL !in s
    requires page == [] <==> Above(s, after) == {}
    requires page != [] ==> Lists(page, UpTo(Above(s, after), page[|page| - 1])) && after < page[|page| - 1]
    ensures var passed := Passed(s, if page == [] then None else Some(page[|page| - 1]));
            && Lists(page, Above(passed, after))
            && passed == (if after == NIL then {} else UpTo(s, after)) + Above(passed, after)
            && (page != [] ==> page[|page| - 1] in Above(s, after))
  {
    assert page != [] ==> page[|page| - 1] in page;
  }

  lemma RowsAreServed(server: Server, ids: seq<UUID>)
    requires WellFormed(server.store) && forall id <- ids :: id in server.store.galleries
    ensures forall g <- Rows(server.store.galleries, ids) ::
              g.id in server.store.galleries && server.store.galleries[g.id] == g
  {
    assert forall i :: 0 <= i < |ids| ==> ids[i] in ids;
  }

  function Listed(server: Server, mine: bool): set<UUID> {
    if mine then Mine(server) else All(server)
  }

  lemma AnswerAsServed(server: Server, ask: Ask, mine: bool, token: IdText)
    requires Serving(server, ask) && !token.BadId?
    ensures var answer := ask(mine, token);
            var ids := Ids(answer.galleries);
            && ids == Page(Listed(server, mine), PageSize(mine), Cursor(token))
            && Token(answer.nextPageToken) == (if ids == [] then None else Some(ids[|ids| - 1]))
            && forall g <- answer.galleries :: g.id in server.store.galleries && server.store.galleries[g.id] == g
  {
    var ids := Page(Listed(server, mine), PageSize(mine), Cursor(token));
    assert ask(mine, token) == Asked(server, mine, token);
    PageIsEligible(Listed(server, mine), PageSize(mine), Cursor(token));
    RowIds(server.store, ids);
    RowsAreServed(server, ids);
  }

  /** What an answer holds, and that its token passes just that and what came before. */
  lemma AnswerHolds(server: Server, ask: Ask, mine: bool, token: IdText)
    requires Serving(server, ask) && !token.BadId? && token != IdOf(NIL)
    ensures var s, answer := Listed(server, mine), ask(mine, token);
            var passed := Passed(s, Token(answer.nextPageToken));
            && Holds(server, answer.galleries, Above(passed, Cursor(token)))
            && passed == (if token == NoId then {} else UpTo(s, token.id)) + Above(passed, Cursor(token))
            && (answer.nextPageToken.IdOf? ==> answer.nextPageToken.id in Above(s, Cursor(token)))
            && (answer.galleries == [] <==> Above(s, Cursor(token)) == {})
  {
    AnswerAsServed(server, ask, mine, token);
    var s := Listed(server, mine);
    PageIsInterval(s, PageSize(mine), Cursor(token));
    PassedByPage(s, Page(s, PageSize(mine), Cursor(token)), Cursor(token));
    assert |Ids(ask(mine, token).galleries)| == |ask(mine, token).galleries|;
  }

  lemma IdSetOf(server: Server, list: seq<Gallery>, ids: set<UUID>)
    requires Holds(server, list, ids)
    ensures IdSet(list) == ids
  {
    IdsAreIds(list);
  }

  lemma FirstPage(server: Server, ask: Ask, mine: bool)
    requires Serving(server, ask)
    ensures var page := ask(mine, NoId);
            && Holds(server, page.galleries, Passed(Listed(server, mine), Token(page.nextPageToken)))
            && (Token(page.nextPageToken).Some? ==> Token(page.nextPageToken).value in Listed(server, mine))
  {
    AnswerHolds(server, ask, mine, NoId);
    var page := ask(mine, NoId);
    var passed := Passed(Listed(server, mine), Token(page.nextPageToken));
    assert Above(passed, Cursor(NoId)) == passed;
  }

  lemma LoadedWalks(server: Server, s: GalleryState, mine: Answer, all: Answer)
    requires Holds(server, mine.galleries, Passed(Mine(server), Token(mine.nextPageToken)))
    requires Holds(server, all.galleries, Passed(All(server), Token(all.nextPageToken)))
    ensures Walked(server, Next(s, Loaded(mine, all)))
  {
    var passed := Passed(Mine(server), Token(mine.nextPageToken));
    IdSetOf(server, mine.galleries, passed);
    HoldsWithout(server, all.galleries, Passed(All(server), Token(all.nextPageToken)), passed);
  }

  // ---- When an answer leaves the lists right ----

  lemma HalvesDiffer(a: seq<UUID>, b: seq<UUID>, s: set<UUID>, t: set<UUID>)
    requires Ascending(a + b) && Lists(a, s) && Lists(b, t)
    ensures s !! t
  {
    var ids := a + b;
    forall i, j | 0 <= i < |a| && 0 <= j < |b| ensures a[i] != b[j] {
      assert ids[i] < ids[|a| + j];
    }
    forall x | x in s ensures x !in t {
      assert x in a;
    }
  }

  /** A list with a page added holds what it should only if it held what came before. */
  lemma HoldsSplit(server: Server, low: seq<Gallery>, s: set<UUID>, high: seq<Gallery>, t: set<UUID>, before: set<UUID>)
    requires Holds(server, low, s) && Holds(server, high, t) && before !! t
    requires Holds(server, low + high, before + t)
    ensures s == before
  {
    var a, b := Ids(low), Ids(high);
    assert Ids(low + high) == a + b;
    HalvesDiffer(a, b, s, t);
    forall x ensures x in s <==> x in before {
      assert x in s <==> x in a;
      assert x in t <==> x in b;
      assert x in a + b <==> x in before + t;
    }
  }

  /** My list stands where the request was made, or is complete and the answer empty. */
  predicate MyInPlace(s: GalleryState, t: UUID, page: Answer) {
    s.myNext == Some(t) || (s.myNext == None && page.galleries == [])
  }

  lemma InPlaceIff(s: set<UUID>, next: Option<UUID>, t: UUID)
    requires t in s && (next.Some? ==> next.value in s)
    ensures Passed(s, next) == UpTo(s, t) <==> next == Some(t) || (next == None && Above(s, t) == {})
  {
    match next {
      case None =>
        assert Above(s, t) == s - UpTo(s, t);
        if s == UpTo(s, t) {
          assert Above(s, t) == {};
        }
        if Above(s, t) == {} {
          forall x | x in s ensures x in UpTo(s, t) {
            assert x !in Above(s, t);
          }
        }
      case Some(at) =>
        if UpTo(s, at) == UpTo(s, t) {
          assert t in UpTo(s, t) && at in UpTo(s, at);
        }
    }
  }

  lemma MoreMyKeeps(server: Server, s: GalleryState, page: Answer, before: set<UUID>, more: set<UUID>)
    requires Walked(server, s) && Holds(server, page.galleries, more)
    requires forall x <- before, y <- more :: x < y
    requires Passed(Mine(server), Token(page.nextPageToken)) == before + more
    ensures Walked(server, Next(s, LoadedMoreMy(page))) <==> Passed(Mine(server), s.myNext) == before
  {
    var mine, others := Passed(Mine(server), s.myNext), Passed(All(server), s.availableNext);
    if mine == before {
      HoldsMore(server, s.my, before, page.galleries, more);
      IdSetOf(server, page.galleries, more);
      HoldsWithout(server, s.available, others - before, more);
      assert (others - before) - more == others - (before + more);
    }
    if Walked(server, Next(s, LoadedMoreMy(page))) {
      HoldsSplit(server, s.my, mine, page.galleries, more, before);
    }
  }

  /** An answer with more of my galleries leaves both lists right if and only if my list
      stands where the request was made, or is complete and the answer empty. */
  lemma MoreMyWalksIff(server: Server, ask: Ask, s: GalleryState, t: UUID)
    requires Serving(server, ask) && Walked(server, s)
    requires t in Mine(server) && (s.myNext.Some? ==> s.myNext.value in Mine(server))
    ensures var page := ask(true, IdOf(t));
            Walked(server, Next(s, LoadedMoreMy(page))) <==> MyInPlace(s, t, page)
  {
    var page := ask(true, IdOf(t));
    AnswerHolds(server, ask, true, IdOf(t));
    var passed := Passed(Mine(server), Token(page.nextPageToken));
    MoreMyKeeps(server, s, page, UpTo(Mine(server), t), Above(passed, t));
    InPlaceIff(Mine(server), s.myNext, t);
  }

  /** Between where the other list stands and where the request was made there are only
      galleries that my list has. */
  predicate AvailableInPlace(server: Server, s: GalleryState, t: UUID) {
    forall id <- All(server) ::
      (id in Passed(All(server), s.availableNext)) != (id <= t) ==> id in Passed(Mine(server), s.myNext)
  }

  lemma MoreAvailableKeeps(server: Server, s: GalleryState, page: Answer, before: set<UUID>, more: set<UUID>)
    requires Walked(server, s) && Holds(server, page.galleries, more)
    requires forall x <- before, y <- more :: x < y
    requires Passed(All(server), Token(page.nextPageToken)) == before + more
    ensures var mine := Passed(Mine(server), s.myNext);
            Walked(server, Next(s, LoadedMoreAvailable(page)))
            <==> Passed(All(server), s.availableNext) - mine == before - mine
  {
    var mine, others := Passed(Mine(server), s.myNext), Passed(All(server), s.availableNext);
    IdSetOf(server, s.my, mine);
    HoldsWithout(server, page.galleries, more, mine);
    var kept := Without(page.galleries, mine);
    assert (before - mine) + (more - mine) == (before + more) - mine;
    if others - mine == before - mine {
      HoldsMore(server, s.available, before - mine, kept, more - mine);
    }
    if Walked(server, Next(s, LoadedMoreAvailable(page))) {
      HoldsSplit(server, s.available, others - mine, kept, more - mine, before - mine);
    }
  }

  /** An answer with more of all galleries leaves both lists right if and only if only
      galleries of my list lie between the other list's place and the request's. */
  lemma MoreAvailableWalksIff(server: Server, ask: Ask, s: GalleryState, t: UUID)
    requires Serving(server, ask) && Walked(server, s) && t in All(server)
    ensures Walked(server, Next(s, LoadedMoreAvailable(ask(false, IdOf(t))))) <==> AvailableInPlace(server, s, t)
  {
    var page := ask(false, IdOf(t));
    AnswerHolds(server, ask, false, IdOf(t));
    var passed := Passed(All(server), Token(page.nextPageToken));
    MoreAvailableKeeps(server, s, page, UpTo(All(server), t), Above(passed, t));
    BetweenIff(server, s, t);
  }

  lemma BetweenIff(server: Server, s: GalleryState, t: UUID)
    ensures var mine := Passed(Mine(server), s.myNext);
            Passed(All(server), s.availableNext) - mine == UpTo(All(server), t) - mine <==> AvailableInPlace(server, s, t)
  {
    var mine, others, before := Passed(Mine(server), s.myNext), Passed(All(server), s.availableNext), UpTo(All(server), t);
    if others - mine == before - mine {
      forall id | id in All(server) && (id in others) != (id <= t) ensures id in mine {
        assert id in others - mine <==> id in before - mine;
      }
    }
    if AvailableInPlace(server, s, t) {
      assert forall id :: id in others - mine <==> id in before - mine;
    }
  }

  // ---- Whole runs ----

  /** An answer arrives where its list stands; nothing else can spoil the lists. */
  predicate InPlace(server: Server, ask: Ask, x: Session, e: Event)
    requires Enabled(x, e)
  {
    match e
    case AnswerMy(i) => MyInPlace(x.state, x.my[i], ask(true, IdOf(x.my[i])))
    case AnswerAvailable(i) => AvailableInPlace(server, x.state, x.available[i])
    case _ => true
  }

  predicate AllInPlace(server: Server, ask: Ask, x: Session, es: seq<Event>)
    requires Legal(ask, x, es)
    decreases |es|
  {
    es == [] || (InPlace(server, ask, x, es[0]) && AllInPlace(server, ask, Step(ask, x, es[0]), es[1..]))
  }

  /** The lists are right in every state of the run. */
  ghost predicate AlwaysWalked(server: Server, ask: Ask, x: Session, es: seq<Event>)
    requires Legal(ask, x, es)
    decreases |es|
  {
    Walked(server, x.state) && (es == [] || AlwaysWalked(server, ask, Step(ask, x, es[0]), es[1..]))
  }

  lemma LoadWalks(server: Server, ask: Ask, x: Session)
    requires Serving(server, ask)
    ensures Walked(server, Step(ask, x, Load).state)
    ensures var s := Step(ask, x, Load).state;
            && (s.myNext.Some? ==> s.myNext.value in Mine(server))
            && (s.availableNext.Some? ==> s.availableNext.value in All(server))
  {
    FirstPage(server, ask, true);
    FirstPage(server, ask, false);
    var mine, all := ask(true, NoId), ask(false, NoId);
    assert Listed(server, true) == Mine(server) && Listed(server, false) == All(server);
    LoadedWalks(server, x.state, mine, all);
    assert Step(ask, x, Load).state == Next(x.state, Loaded(mine, all));
  }

  lemma DroppedStay(requests: seq<UUID>, i: nat)
    requires i < |requests|
    ensures forall t <- Dropped(requests, i) :: t in requests
  {
  }

  lemma AnswerMyTokens(server: Server, ask: Ask, x: Session, i: nat)
    requires Serving(server, ask) && TokensServed(server, x) && i < |x.my|
    ensures TokensServed(server, Step(ask, x, AnswerMy(i)))
  {
    assert x.my[i] in x.my && NIL !in Mine(server);
    AnswerHolds(server, ask, true, IdOf(x.my[i]));
    DroppedStay(x.my, i);
  }

  lemma AnswerAvailableTokens(server: Server, ask: Ask, x: Session, i: nat)
    requires Serving(server, ask) && TokensServed(server, x) && i < |x.available|
    ensures TokensServed(server, Step(ask, x, AnswerAvailable(i)))
  {
    assert x.available[i] in x.available && NIL !in All(server);
    AnswerHolds(server, ask, false, IdOf(x.available[i]));
    DroppedStay(x.available, i);
  }

  lemma StepTokens(server: Server, ask: Ask, x: Session, e: Event)
    requires Serving(server, ask) && TokensServed(server, x) && Enabled(x, e)
    ensures TokensServed(server, Step(ask, x, e))
  {
    match e {
      case Load => LoadWalks(server, ask, x);
      case AnswerMy(i) => AnswerMyTokens(server, ask, x, i);
      case AnswerAvailable(i) => AnswerAvailableTokens(server, ask, x, i);
      case FailMy(i, _) => DroppedStay(x.my, i);
      case FailAvailable(i, _) => DroppedStay(x.available, i);
      case _ =>
    }
  }

  /** From right lists an event leads to right lists if and only if it is in place. */
  lemma StepWalksIff(server: Server, ask: Ask, x: Session, e: Event)
    requires Serving(server, ask) && TokensServed(server, x) && Walked(server, x.state) && Enabled(x, e)
    ensures Walked(server, Step(ask, x, e).state) <==> InPlace(server, ask, x, e)
  {
    match e {
      case Load => LoadWalks(server, ask, x);
      case AnswerMy(i) => MoreMyWalksIff(server, ask, x.state, x.my[i]);
      case AnswerAvailable(i) => MoreAvailableWalksIff(server, ask, x.state, x.available[i]);
      case _ =>
    }
  }

  /** Whatever loads, requests, answers and failures interleave, the lists are right all along
      if and only if every answer arrives where its list stands. */
  lemma {:induction false} AlwaysWalkedIff(server: Server, ask: Ask, x: Session, es: seq<Event>)
    requires Serving(server, ask) && TokensServed(server, x) && Walked(server, x.state) && Legal(ask, x, es)
    ensures AlwaysWalked(server, ask, x, es) <==> AllInPlace(server, ask, x, es)
    ensures AllInPlace(server, ask, x, es) ==> Walked(server, Exec(ask, x, es).state)
    decreases |es|
  {
    if es != [] {
      StepTokens(server, ask, x, es[0]);
      StepWalksIff(server, ask, x, es[0]);
      if InPlace(server, ask, x, es[0]) {
        AlwaysWalkedIff(server, ask, Step(ask, x, es[0]), es[1..]);
      }
    }
  }

  lemma OneList(server: Server, list: seq<Gallery>, ids: set<UUID>)
    requires Holds(server, list, ids) && ids <= All(server)
    ensures list == Rows(server.store.galleries, Sorted(ids))
  {
    OneListing(Ids(list), Sorted(ids), ids);
    assert forall i :: 0 <= i < |list| ==> list[i] in list;
  }

  const FIRST := Session(NOTHING, [], [])

  ghost predicate IsComplete(server: Server, s: GalleryState) {
    && s.my == Rows(server.store.galleries, Sorted(Mine(server)))
    && s.available == Rows(server.store.galleries, Sorted(All(server) - Mine(server)))
  }

  /** After a first load, any interleaving of the two load-more walks, of failures and of
      further loads whose answers all arrive in place, once run to the end, leaves exactly the
      memberships in one list and all remaining galleries in the other, both in order. */
  lemma ListsAreComplete(server: Server, ask: Ask, es: seq<Event>)
    requires Serving(server, ask) && Legal(ask, FIRST, [Load] + es)
    requires Legal(ask, Step(ask, FIRST, Load), es) && AllInPlace(server, ask, Step(ask, FIRST, Load), es)
    ensures var s := Exec(ask, FIRST, [Load] + es).state;
            s.myNext == None && s.availableNext == None ==> IsComplete(server, s)
  {
    LoadWalks(server, ask, FIRST);
    OneMoreEvent(ask, FIRST, Load, es);
    AlwaysWalkedIff(server, ask, Step(ask, FIRST, Load), es);
    var s := Exec(ask, FIRST, [Load] + es).state;
    if s.myNext == None && s.availableNext == None {
      OneList(server, s.my, Mine(server));
      OneList(server, s.available, All(server) - Mine(server));
    }
  }

  // ---- When nothing gets out of place ----

  /** At most one request is in flight for a list, made where the list stands. */
  ghost predicate OneInFlight(requests: seq<UUID>, next: Option<UUID>, loading: bool) {
    if loading then next.Some? && requests == [next.value] else requests == []
  }

  ghost predicate OneEach(x: Session) {
    && OneInFlight(x.my, x.state.myNext, x.state.loadingMoreMy)
    && OneInFlight(x.available, x.state.availableNext, x.state.loadingMoreAvailable)
  }

  ghost predicate Orderly(server: Server, x: Session) {
    TokensServed(server, x) && Walked(server, x.state) && OneEach(x)
  }

  lemma InFlight(requests: seq<UUID>, next: Option<UUID>, loading: bool, i: nat)
    requires OneInFlight(requests, next, loading) && i < |requests|
    ensures Dropped(requests, i) == []
  {
  }

  lemma FirstAsked(requests: seq<UUID>, token: UUID)
    requires requests == []
    ensures requests + [token] == [token]
  {
  }

  lemma MineUntouched(ask: Ask, x: Session, e: Event)
    requires Enabled(x, e) && !e.Load? && !e.StartMy? && !e.AnswerMy? && !e.FailMy?
    ensures var y := Step(ask, x, e);
            && y.my == x.my
            && y.state.myNext == x.state.myNext && y.state.loadingMoreMy == x.state.loadingMoreMy
  {
  }

  lemma MineAnswered(ask: Ask, x: Session, e: Event)
    requires Enabled(x, e) && (e.AnswerMy? || e.FailMy?)
    ensures Step(ask, x, e).my == Dropped(x.my, e.request) && !Step(ask, x, e).state.loadingMoreMy
  {
  }

  lemma StepOneOfMine(ask: Ask, x: Session, e: Event)
    requires OneInFlight(x.my, x.state.myNext, x.state.loadingMoreMy) && Enabled(x, e)
    requires e.Load? ==> x.my == []
    ensures var y := Step(ask, x, e); OneInFlight(y.my, y.state.myNext, y.state.loadingMoreMy)
  {
    if e.AnswerMy? || e.FailMy? {
      MineAnswered(ask, x, e);
      InFlight(x.my, x.state.myNext, x.state.loadingMoreMy, e.request);
    } else if e.StartMy? {
      FirstAsked(x.my, x.state.myNext.value);
    } else if !e.Load? {
      MineUntouched(ask, x, e);
    }
  }

  lemma OthersUntouched(ask: Ask, x: Session, e: Event)
    requires Enabled(x, e) && !e.Load? && !e.StartAvailable? && !e.AnswerAvailable? && !e.FailAvailable?
    ensures var y := Step(ask, x, e);
            && y.available == x.available
            && y.state.availableNext == x.state.availableNext
            && y.state.loadingMoreAvailable == x.state.loadingMoreAvailable
  {
  }

  lemma OthersAnswered(ask: Ask, x: Session, e: Event)
    requires Enabled(x, e) && (e.AnswerAvailable? || e.FailAvailable?)
    ensures Step(ask, x, e).available == Dropped(x.available, e.request) && !Step(ask, x, e).state.loadingMoreAvailable
  {
  }

  lemma StepOneOfOthers(ask: Ask, x: Session, e: Event)
    requires OneInFlight(x.available, x.state.availableNext, x.state.loadingMoreAvailable) && Enabled(x, e)
    requires e.Load? ==> x.available == []
    ensures var y := Step(ask, x, e); OneInFlight(y.available, y.state.availableNext, y.state.loadingMoreAvailable)
  {
    if e.AnswerAvailable? || e.FailAvailable? {
      OthersAnswered(ask, x, e);
      InFlight(x.available, x.state.availableNext, x.state.loadingMoreAvailable, e.request);
    } else if e.StartAvailable? {
      FirstAsked(x.available, x.state.availableNext.value);
    } else if !e.Load? {
      OthersUntouched(ask, x, e);
    }
  }

  lemma StepOneEach(ask: Ask, x: Session, e: Event)
    requires OneEach(x) && Enabled(x, e)
    requires e.Load? ==> x.my == [] && x.available == []
    ensures OneEach(Step(ask, x, e))
  {
    StepOneOfMine(ask, x, e);
    StepOneOfOthers(ask, x, e);
  }

  lemma OrderlyInPlace(server: Server, ask: Ask, x: Session, e: Event)
    requires OneEach(x) && Enabled(x, e)
    ensures InPlace(server, ask, x, e)
  {
  }

  lemma StepOrderly(server: Server, ask: Ask, x: Session, e: Event)
    requires Serving(server, ask) && Orderly(server, x) && Enabled(x, e)
    requires e.Load? ==> x.my == [] && x.available == []
    ensures Orderly(server, Step(ask, x, e))
  {
    OrderlyInPlace(server, ask, x, e);
    StepOneEach(ask, x, e);
    StepTokens(server, ask, x, e);
    StepWalksIff(server, ask, x, e);
  }

  /** Answers are always in place unless a load is answered while a request for more is in
      flight; in particular they are when only the two walks go on. */
  lemma {:induction false} UndisturbedIsInPlace(server: Server, ask: Ask, x: Session, es: seq<Event>)
    requires Serving(server, ask) && Orderly(server, x) && Legal(ask, x, es) && Undisturbed(ask, x, es)
    ensures AllInPlace(server, ask, x, es)
    decreases |es|
  {
    if es != [] {
      OrderlyInPlace(server, ask, x, es[0]);
      StepOrderly(server, ask, x, es[0]);
      UndisturbedIsInPlace(server, ask, Step(ask, x, es[0]), es[1..]);
    }
  }

  /** So with no load answered in between, any interleaving of the two walks run to the end
      leaves the lists complete. */
  lemma UndisturbedListsAreComplete(server: Server, ask: Ask, es: seq<Event>)
    requires Serving(server, ask) && Legal(ask, FIRST, [Load] + es)
    requires Legal(ask, Step(ask, FIRST, Load), es) && Undisturbed(ask, Step(ask, FIRST, Load), es)
    ensures var s := Exec(ask, FIRST, [Load] + es).state;
            s.myNext == None && s.availableNext == None ==> IsComplete(server, s)
  {
    LoadWalks(server, ask, FIRST);
    UndisturbedIsInPlace(server, ask, Step(ask, FIRST, Load), es);
    ListsAreComplete(server, ask, es);
  }

  // ---- A race ----

  lemma OneMoreEvent(ask: Ask, x: Session, e: Event, es: seq<Event>)
    requires Enabled(x, e) && Legal(ask, Step(ask, x, e), es)
    ensures Legal(ask, x, [e] + es) && Exec(ask, x, [e] + es) == Exec(ask, Step(ask, x, e), es)
  {
    assert ([e] + es)[1..] == es;
  }

  /** A load answered while a request for more is in flight enables the button again. */
  const RACE := LOAD_AND_ASK + (LOAD_AND_ASK + TWO_ANSWERS)
  const LOAD_AND_ASK := [Load, StartMy]
  const TWO_ANSWERS := [AnswerMy(0), AnswerMy(0)]

  lemma TwoAnswers(ask: Ask, x: Session, t: UUID)
    requires x.my == [t, t]
    ensures var page := ask(true, IdOf(t)).galleries;
            Legal(ask, x, TWO_ANSWERS) && Exec(ask, x, TWO_ANSWERS).state.my == x.state.my + page + page
  {
    var y := Step(ask, x, AnswerMy(0));
    assert y.my == [t];
    OneMoreEvent(ask, y, AnswerMy(0), []);
    OneMoreEvent(ask, x, AnswerMy(0), [AnswerMy(0)]);
    assert [AnswerMy(0)] + [] == [AnswerMy(0)] && [AnswerMy(0)] + [AnswerMy(0)] == TWO_ANSWERS;
  }

  lemma LoadOffersMore(ask: Ask, x: Session, t: UUID)
    requires ask(true, NoId).nextPageToken == IdOf(t)
    ensures var y := Step(ask, x, Load);
            && y.my == x.my && y.state.my == ask(true, NoId).galleries
            && y.state.myNext == Some(t) && !y.state.loadingMoreMy
  {
    var mine := ask(true, NoId);
    assert Token(mine.nextPageToken) == Some(t);
    var all := ask(false, NoId);
    assert Step(ask, x, Load) == x.(state := Next(x.state, Loaded(mine, all)));
  }

  /** Where a load and a click on "load more" lead. */
  function LoadedAndAsked(ask: Ask, x: Session, t: UUID): (y: Session)
    requires ask(true, NoId).nextPageToken == IdOf(t)
    ensures y.my == x.my + [t] && y.state.my == ask(true, NoId).galleries
  {
    LoadOffersMore(ask, x, t);
    Step(ask, Step(ask, x, Load), StartMy)
  }

  lemma LoadAndAsk(ask: Ask, x: Session, t: UUID, es: seq<Event>)
    requires ask(true, NoId).nextPageToken == IdOf(t)
    requires Legal(ask, LoadedAndAsked(ask, x, t), es)
    ensures Legal(ask, x, LOAD_AND_ASK + es)
    ensures Exec(ask, x, LOAD_AND_ASK + es) == Exec(ask, LoadedAndAsked(ask, x, t), es)
  {
    LoadOffersMore(ask, x, t);
    OneMoreEvent(ask, Step(ask, x, Load), StartMy, es);
    OneMoreEvent(ask, x, Load, [StartMy] + es);
    assert LOAD_AND_ASK + es == [Load] + ([StartMy] + es);
  }

  /** Answers do get out of place: whatever the server has, such a race repeats the second page,
      so the list is still a sorted one exactly when that page is empty. */
  lemma RacingLoadRepeatsThePage(server: Server, ask: Ask)
    requires Serving(server, ask) && ask(true, NoId).nextPageToken.IdOf?
    ensures Legal(ask, FIRST, RACE)
    ensures var first := ask(true, NoId);
            var second := ask(true, first.nextPageToken);
            var my := Exec(ask, FIRST, RACE).state.my;
            && my == first.galleries + second.galleries + second.galleries
            && (Ascending(Ids(my)) <==> second.galleries == [])
  {
    var first := ask(true, NoId);
    var t := first.nextPageToken.id;
    var x := LoadedAndAsked(ask, FIRST, t);
    TwoAnswers(ask, LoadedAndAsked(ask, x, t), t);
    LoadAndAsk(ask, x, t, TWO_ANSWERS);
    LoadAndAsk(ask, FIRST, t, LOAD_AND_ASK + TWO_ANSWERS);
    FirstPage(server, ask, true);
    RepeatedPage(first.galleries, ask(true, IdOf(t)).galleries);
  }

  lemma RepeatedPage(first: seq<Gallery>, second: seq<Gallery>)
    requires Ascending(Ids(first))
    ensures Ascending(Ids(first + second + second)) <==> second == []
  {
    var ids, i := Ids(first + second + second), |first|;
    if second != [] {
      assert ids[i] == second[0].id == ids[i + |second|];
    } else {
      assert first + second + second == first;
    }
  }

  // ---- The walks end ----

  /** How many more answers a walk can take. */
  function Distance(s: set<UUID>, next: Option<UUID>): nat {
    if next.None? then 0 else 1 + |Above(s, next.value)|
  }

  function BothDistances(server: Server, s: GalleryState): nat {
    Distance(Mine(server), s.myNext) + Distance(All(server), s.availableNext)
  }

  function Answers(es: seq<Event>): nat {
    if es == [] then 0 else (if es[0].AnswerMy? || es[0].AnswerAvailable? then 1 else 0) + Answers(es[1..])
  }

  lemma AnswerIsNearer(server: Server, ask: Ask, mine: bool, token: UUID)
    requires Serving(server, ask) && token != NIL
    ensures var next := Token(ask(mine, IdOf(token)).nextPageToken);
            Distance(Listed(server, mine), next) < Distance(Listed(server, mine), Some(token))
  {
    AnswerHolds(server, ask, mine, IdOf(token));
    var next := Token(ask(mine, IdOf(token)).nextPageToken);
    if next.Some? {
      var s := Listed(server, mine);
      assert next.value in Above(s, token) && next.value !in Above(s, next.value);
      Fewer(Above(s, next.value), Above(s, token));
    }
  }

  lemma AnswerMyIsNearer(server: Server, ask: Ask, x: Session)
    requires Serving(server, ask) && Orderly(server, x) && x.my != []
    ensures BothDistances(server, Step(ask, x, AnswerMy(0)).state) < BothDistances(server, x.state)
  {
    AnswerIsNearer(server, ask, true, x.my[0]);
  }

  lemma AnswerAvailableIsNearer(server: Server, ask: Ask, x: Session)
    requires Serving(server, ask) && Orderly(server, x) && x.available != []
    ensures BothDistances(server, Step(ask, x, AnswerAvailable(0)).state) < BothDistances(server, x.state)
  {
    AnswerIsNearer(server, ask, false, x.available[0]);
  }

  lemma OnlyAnswersMoveTokens(ask: Ask, x: Session, e: Event)
    requires Enabled(x, e) && !e.Load? && !e.AnswerMy? && !e.AnswerAvailable?
    ensures var t := Step(ask, x, e).state; t.myNext == x.state.myNext && t.availableNext == x.state.availableNext
  {
  }

  lemma StepIsNearer(server: Server, ask: Ask, x: Session, e: Event)
    requires Serving(server, ask) && Orderly(server, x) && Enabled(x, e) && !e.Load?
    ensures BothDistances(server, Step(ask, x, e).state) + Answers([e]) <= BothDistances(server, x.state)
  {
    assert [e][1..] == [];
    if e.AnswerMy? {
      AnswerMyIsNearer(server, ask, x);
    } else if e.AnswerAvailable? {
      AnswerAvailableIsNearer(server, ask, x);
    } else {
      OnlyAnswersMoveTokens(ask, x, e);
    }
  }

  /** Between two loads only so many load-more requests can be answered before both walks are
      over. */
  lemma {:induction false} WalksEnd(server: Server, ask: Ask, x: Session, es: seq<Event>)
    requires Serving(server, ask) && Orderly(server, x) && Legal(ask, x, es)
    requires forall e <- es :: !e.Load?
    ensures BothDistances(server, Exec(ask, x, es).state) + Answers(es) <= BothDistances(server, x.state)
    decreases |es|
  {
    if es != [] {
      assert es[0] in es;
      StepOrderly(server, ask, x, es[0]);
      StepIsNearer(server, ask, x, es[0]);
      WalksEnd(server, ask, Step(ask, x, es[0]), es[1..]);
    }
  }
}
