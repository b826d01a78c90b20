/** The gallery queries and the keyset walk over a user's memberships. */
module Memberships {
  import opened Common
  import opened Galleries
  import opened Paging

  /** A store that identifiers are drawn for: none of them is nil, and each row is filed
      under its own. */
  ghost predicate WellFormed(s: Store) {
    && NIL !in s.galleries
    && (forall id <- s.galleries :: s.galleries[id].id == id)
  }

  function MemberOf(s: Store, user: UUID): set<UUID> {
    set id | id in s.galleries && (id, user) in s.members
  }

  // ---- The repository and the query service ----

  function Rows(galleries: map<UUID, Gallery>, ids: seq<UUID>): seq<Gallery>
    requires forall id <- ids :: id in galleries
  {
    seq(|ids|, i requires 0 <= i < |ids| => assert ids[i] in ids; galleries[ids[i]])
  }

  lemma PageIsEligible(eligible: set<UUID>, limit: int, after: UUID)
    ensures forall id <- Page(eligible, limit, after) :: id in eligible
  {
    var rows := Sorted(if after == NIL then eligible else Above(eligible, after));
    forall id | id in Page(eligible, limit, after) ensures id in eligible {
      assert id in rows;
    }
  }

  function FindGalleries(s: Store, limit: int, after: UUID): seq<Gallery> {
    PageIsEligible(s.galleries.Keys, limit, after);
    Rows(s.galleries, Page(s.galleries.Keys, limit, after))
  }

  function FindGalleriesByMember(s: Store, user: UUID, limit: int, after: UUID): seq<Gallery> {
    PageIsEligible(MemberOf(s, user), limit, after);
    Rows(s.galleries, Page(MemberOf(s, user), limit, after))
  }

  datatype Answer = Answer(galleries: seq<Gallery>, nextPageToken: IdText)

  function NextToken(galleries: seq<Gallery>): IdText {
    if galleries == [] then NoId else IdOf(galleries[|galleries| - 1].id)
  }

  function Cursor(token: IdText): UUID {
    if token.IdOf? then token.id else NIL
  }

  /** `s` is the store when the query reads it, or nothing when the query fails. */
  function ListGalleriesByMember(s: Option<Store>, user: UUID, pageSize: int, token: IdText): Result<Answer, Code> {
    if user == NIL then Err(InvalidArgument)
    else if token.BadId? then Err(InvalidArgument)
    else if s == None then Err(Internal)
    else
      var galleries := FindGalleriesByMember(s.value, user, pageSize, Cursor(token));
      Ok(Answer(galleries, NextToken(galleries)))
  }

  function ListGalleries(s: Option<Store>, mine: bool, caller: UUID, pageSize: int, token: IdText): Result<Answer, Code> {
    if mine then
      if caller == NIL then Err(Unauthenticated) else ListGalleriesByMember(s, caller, pageSize, token)
    else if token.BadId? then Err(InvalidArgument)
    else if s == None then Err(Internal)
    else
      var galleries := FindGalleries(s.value, pageSize, Cursor(token));
      Ok(Answer(galleries, NextToken(galleries)))
  }

  /** Which requests are refused, and how: a list of my galleries without an identity, then a
      page token that does not parse, then a failed query. */
  lemma RefusedIff(s: Option<Store>, mine: bool, caller: UUID, pageSize: int, token: IdText)
    ensures var r := ListGalleries(s, mine, caller, pageSize, token);
            var anonymous := mine && caller == NIL;
            && (r == Err(Unauthenticated) <==> anonymous)
            && (r == Err(InvalidArgument) <==> !anonymous && token.BadId?)
            && (r == Err(Internal) <==> !anonymous && !token.BadId? && s == None)
            && (r.Ok? <==> !anonymous && !token.BadId? && s.Some?)
            && (mine && !anonymous ==> r == ListGalleriesByMember(s, caller, pageSize, token))
    ensures ListGalleriesByMember(s, NIL, pageSize, token) == Err(InvalidArgument)
  {
  }

  function Ids(galleries: seq<Gallery>): seq<UUID> {
    seq(|galleries|, i requires 0 <= i < |galleries| => galleries[i].id)
  }

  lemma RowIds(s: Store, ids: seq<UUID>)
    requires WellFormed(s) && forall id <- ids :: id in s.galleries
    ensures Ids(Rows(s.galleries, ids)) == ids
  {
    assert forall i :: 0 <= i < |ids| ==> ids[i] in ids;
  }

  lemma AnswerIsPage(s: Store, user: UUID, pageSize: int, token: IdText)
    requires WellFormed(s) && user != NIL && !token.BadId?
    ensures var r := ListGalleriesByMember(Some(s), user, pageSize, token);
            var page := Page(MemberOf(s, user), pageSize, Cursor(token));
            && r.Ok?
            && Ids(r.value.galleries) == page
            && r.value.nextPageToken == (if page == [] then NoId else IdOf(page[|page| - 1]))
  {
    PageIsEligible(MemberOf(s, user), pageSize, Cursor(token));
    RowIds(s, Page(MemberOf(s, user), pageSize, Cursor(token)));
  }

  /** What one page of memberships holds and where its token points. */
  lemma MembershipPage(s: Store, user: UUID, pageSize: int, token: IdText)
    requires WellFormed(s) && user != NIL && !token.BadId?
    ensures var r := ListGalleriesByMember(Some(s), user, pageSize, token);
            && r.Ok?
            && var ids, left := Ids(r.value.galleries), Above(MemberOf(s, user), Cursor(token));
            && Ascending(ids)
            && (r.value.nextPageToken == NoId <==> left == {})
            && (left == {} ==> ids == [])
            && (left != {} ==>
                  && r.value.nextPageToken.IdOf?
                  && Cursor(token) < r.value.nextPageToken.id
                  && Lists(ids, UpTo(left, r.value.nextPageToken.id)))
  {
    AnswerIsPage(s, user, pageSize, token);
    PageIsInterval(MemberOf(s, user), pageSize, Cursor(token));
  }

  lemma RowsOf(s: Store, ids: seq<UUID>, g: Gallery)
    requires WellFormed(s) && forall id <- ids :: id in s.galleries
    ensures g in Rows(s.galleries, ids) <==> g.id in ids && s.galleries[g.id] == g
  {
    var rows := Rows(s.galleries, ids);
    if g in rows {
      var i :| 0 <= i < |rows| && rows[i] == g;
      assert ids[i] in ids;
    }
    if g.id in ids && s.galleries[g.id] == g {
      var i :| 0 <= i < |ids| && ids[i] == g.id;
      assert rows[i] == g;
    }
  }

  /** A list of all galleries shows one, open or closed, if and only if it lies beyond the page
      token and fewer others than the page size lie between. */
  lemma GalleryIsListedIff(s: Store, caller: UUID, pageSize: int, token: IdText, id: UUID)
    requires WellFormed(s) && !token.BadId? && id in s.galleries
    ensures var rest := Above(s.galleries.Keys, Cursor(token));
            ListGalleries(Some(s), false, caller, pageSize, token).Ok?
            && (s.galleries[id] in ListGalleries(Some(s), false, caller, pageSize, token).value.galleries
                <==> id in rest && !CutOff(rest, pageSize, id))
  {
    PageIsEligible(s.galleries.Keys, pageSize, Cursor(token));
    RowsOf(s, Page(s.galleries.Keys, pageSize, Cursor(token)), s.galleries[id]);
    PageShowsIff(s.galleries.Keys, pageSize, Cursor(token), id);
  }

  /** A list of my galleries shows a stored gallery if and only if the user is a member, it lies
      beyond the page token, and fewer of the user's galleries than the page size lie between. */
  lemma MembershipIsListedIff(s: Store, user: UUID, pageSize: int, token: IdText, id: UUID)
    requires WellFormed(s) && user != NIL && !token.BadId? && id in s.galleries
    ensures var r := ListGalleries(Some(s), true, user, pageSize, token);
            var between := set x | x in s.galleries && (x, user) in s.members && Cursor(token) < x < id;
            var n := if pageSize == 0 then 20 else pageSize;
            r.Ok?
            && (s.galleries[id] in r.value.galleries
                <==> (id, user) in s.members && Cursor(token) < id && !(0 <= n <= |between|))
  {
    var mine, cursor := MemberOf(s, user), Cursor(token);
    PageIsEligible(mine, pageSize, cursor);
    RowsOf(s, Page(mine, pageSize, cursor), s.galleries[id]);
    PageShowsIff(mine, pageSize, cursor, id);
    assert Below(Above(mine, cursor), id)
        == set x | x in s.galleries && (x, user) in s.members && cursor < x < id;
  }

  lemma ListedAreStored(s: Store, caller: UUID, pageSize: int, token: IdText)
    requires WellFormed(s) && !token.BadId?
    ensures ListGalleries(Some(s), false, caller, pageSize, token).Ok?
    ensures forall g <- ListGalleries(Some(s), false, caller, pageSize, token).value.galleries ::
              g.id in s.galleries && s.galleries[g.id] == g
  {
    var ids := Page(s.galleries.Keys, pageSize, Cursor(token));
    PageIsEligible(s.galleries.Keys, pageSize, Cursor(token));
    forall g | g in Rows(s.galleries, ids) ensures g.id in s.galleries && s.galleries[g.id] == g {
      RowsOf(s, ids, g);
    }
  }

  /** The documented promise holds exactly when it holds by chance: a list of all galleries
      shows only open ones if and only if the page size cuts off every closed one beyond the
      page token. */
  lemma OnlyOpenListedIff(s: Store, caller: UUID, pageSize: int, token: IdText)
    requires WellFormed(s) && !token.BadId?
    ensures ListGalleries(Some(s), false, caller, pageSize, token).Ok?
    ensures var rest := Above(s.galleries.Keys, Cursor(token));
            (forall g <- ListGalleries(Some(s), false, caller, pageSize, token).value.galleries :: g.status == GalleryOpen)
            <==> forall c <- rest :: s.galleries[c].status == GalleryClosed ==> CutOff(rest, pageSize, c)
  {
    var listed := ListGalleries(Some(s), false, caller, pageSize, token).value.galleries;
    var rest := Above(s.galleries.Keys, Cursor(token));
    ListedAreStored(s, caller, pageSize, token);
    forall id | id in s.galleries
      ensures s.galleries[id] in listed <==> id in rest && !CutOff(rest, pageSize, id)
    {
      GalleryIsListedIff(s, caller, pageSize, token, id);
    }
    if forall g <- listed :: g.status == GalleryOpen {
      forall c | c in rest && s.galleries[c].status == GalleryClosed ensures CutOff(rest, pageSize, c) {
        assert s.galleries[c] !in listed;
      }
    }
    if forall c <- rest :: s.galleries[c].status == GalleryClosed ==> CutOff(rest, pageSize, c) {
      forall g | g in listed ensures g.status == GalleryOpen {
        assert s.galleries[g.id] in listed;
      }
    }
  }

  /** It does not hold of every store. */
  lemma ListShowsAClosedGallery(closed: Gallery, caller: UUID)
    requires closed.status == GalleryClosed && closed.id != NIL
    ensures var s := Store(map[closed.id := closed], {});
            var r := ListGalleries(Some(s), false, caller, DEFAULT_LIMIT, NoId);
            WellFormed(s) && r.Ok? && r.value.galleries == [closed]
  {
    var s := Store(map[closed.id := closed], {});
    var ids := Sorted({closed.id});
    assert s.galleries.Keys == {closed.id};
    OneListing(ids, [closed.id], {closed.id});
    PageIsEligible(s.galleries.Keys, DEFAULT_LIMIT, NIL);
  }

  // ---- The walk ----

  const PAGE_SIZE := 100

  /** What the walk meets: the store at each of its queries, or a failed query. */
  type Weather = nat -> Option<Store>

  /** The pages one after the other. */
  function Concatenated(pages: seq<seq<UUID>>): seq<UUID> {
    if pages == [] then [] else Concatenated(pages[..|pages| - 1]) + pages[|pages| - 1]
  }

  /** Where the next query starts: after the last identifier of the page before it. */
  function TokenFor(pages: seq<seq<UUID>>): IdText {
    if pages == [] || pages[|pages| - 1] == [] then NoId
    else var page := pages[|pages| - 1]; IdOf(page[|page| - 1])
  }

  ghost predicate IsPage(weather: Weather, user: UUID, pages: seq<seq<UUID>>, k: int)
    requires 0 <= k < |pages|
  {
    && weather(k).Some?
    && pages[k] == Page(MemberOf(weather(k).value, user), PAGE_SIZE, Cursor(TokenFor(pages[..k])))
    && forall id <- pages[k] :: id in weather(k).value.galleries && (id, user) in weather(k).value.members
  }

  /** Each page is what its own query found from where the page before it ended, so every
      identifier was a membership when its page was read; only the last page may be empty. */
  ghost predicate PagesOf(weather: Weather, user: UUID, pages: seq<seq<UUID>>) {
    && (forall k :: 0 <= k < |pages| ==> IsPage(weather, user, pages, k))
    && (forall k :: 0 <= k < |pages| - 1 ==> pages[k] != [])
  }

  /** A membership at each of the first `n` queries. */
  ghost predicate Steady(weather: Weather, user: UUID, n: nat, id: UUID) {
    forall k: nat :: k < n ==>
      weather(k).Some? && id in weather(k).value.galleries && (id, user) in weather(k).value.members
  }

  /** What the pages so far owe: the identifiers ascend to the cursor and leave out no steady
      membership up to it. */
  ghost predicate Collected(weather: Weather, user: UUID, pages: seq<seq<UUID>>, cursor: UUID) {
    && PagesOf(weather, user, pages)
    && Ascending(Concatenated(pages))
    && (forall id <- Concatenated(pages) :: id <= cursor)
    && (forall id :: NIL < id <= cursor && Steady(weather, user, |pages|, id) ==> id in Concatenated(pages))
  }

  /** The identifiers ascend, each was a membership when its page was read, and every steady
      membership is among them. */
  ghost predicate Complete(weather: Weather, user: UUID, pages: seq<seq<UUID>>) {
    && PagesOf(weather, user, pages)
    && Ascending(Concatenated(pages))
    && (forall id :: Steady(weather, user, |pages|, id) ==> id in Concatenated(pages))
  }

  lemma OneMorePage(weather: Weather, user: UUID, pages: seq<seq<UUID>>, page: seq<UUID>)
    requires PagesOf(weather, user, pages) && (pages != [] ==> pages[|pages| - 1] != [])
    requires weather(|pages|).Some?
    requires page == Page(MemberOf(weather(|pages|).value, user), PAGE_SIZE, Cursor(TokenFor(pages)))
    ensures PagesOf(weather, user, pages + [page]) && Concatenated(pages + [page]) == Concatenated(pages) + page
  {
    var more := pages + [page];
    PageIsEligible(MemberOf(weather(|pages|).value, user), PAGE_SIZE, Cursor(TokenFor(pages)));
    assert more[..|pages|] == pages;
    forall k | 0 <= k < |more| ensures IsPage(weather, user, more, k) {
      if k < |pages| {
        assert IsPage(weather, user, pages, k);
        assert more[..k] == pages[..k] && more[k] == pages[k];
      } else {
        assert more[..k] == pages;
      }
    }
  }

  lemma AscendingOn(before: seq<UUID>, page: seq<UUID>, cursor: UUID)
    requires Ascending(before) && Ascending(page)
    requires (forall id <- before :: id <= cursor) && (forall id <- page :: cursor < id)
    ensures Ascending(before + page)
    ensures page != [] ==> forall id <- before + page :: id <= page[|page| - 1]
  {
    assert forall i :: 0 <= i < |page| ==> page[i] in page;
    assert forall i :: 0 <= i < |before| ==> before[i] in before;
  }

  /** What a steady membership up to the end of a page is owed. */
  lemma SteadyIsCollected(weather: Weather, user: UUID, pages: seq<seq<UUID>>, cursor: UUID, page: seq<UUID>, id: UUID)
    requires Collected(weather, user, pages, cursor) && page != []
    requires weather(|pages|).Some?
    requires Lists(page, UpTo(Above(MemberOf(weather(|pages|).value, user), cursor), page[|page| - 1]))
    requires NIL < id <= page[|page| - 1] && Steady(weather, user, |pages| + 1, id)
    ensures id in Concatenated(pages) + page
  {
    assert id in MemberOf(weather(|pages|).value, user);
    if id <= cursor {
      assert Steady(weather, user, |pages|, id);
    } else {
      assert id in page;
    }
  }

  /** A page that holds something is collected, and the cursor moves on to its end. */
  lemma CollectMore(weather: Weather, user: UUID, pages: seq<seq<UUID>>, cursor: UUID, page: seq<UUID>)
    requires Collected(weather, user, pages, cursor) && page != []
    requires PagesOf(weather, user, pages + [page]) && Concatenated(pages + [page]) == Concatenated(pages) + page
    requires Ascending(page) && cursor < page[|page| - 1]
    requires weather(|pages|).Some?
    requires Lists(page, UpTo(Above(MemberOf(weather(|pages|).value, user), cursor), page[|page| - 1]))
    ensures Collected(weather, user, pages + [page], page[|page| - 1])
  {
    var more, next := pages + [page], page[|page| - 1];
    AscendingOn(Concatenated(pages), page, cursor);
    forall id | NIL < id <= next && Steady(weather, user, |more|, id) ensures id in Concatenated(more) {
      SteadyIsCollected(weather, user, pages, cursor, page, id);
    }
  }

  /** A query that finds nothing beyond the cursor completes the collection. */
  lemma NothingLeft(weather: Weather, user: UUID, pages: seq<seq<UUID>>, cursor: UUID)
    requires Collected(weather, user, pages, cursor)
    requires PagesOf(weather, user, pages + [[]]) && Concatenated(pages + [[]]) == Concatenated(pages) + []
    requires weather(|pages|).Some? && WellFormed(weather(|pages|).value)
    requires Above(MemberOf(weather(|pages|).value, user), cursor) == {}
    ensures Complete(weather, user, pages + [[]])
  {
    forall id | Steady(weather, user, |pages| + 1, id) ensures id in Concatenated(pages) {
      assert id in MemberOf(weather(|pages|).value, user) && id !in Above(MemberOf(weather(|pages|).value, user), cursor);
      assert Steady(weather, user, |pages|, id);
    }
  }

  /** One turn of the walk: either it completes the collection or it extends it and moves on. */
  lemma OneTurn(weather: Weather, user: UUID, pages: seq<seq<UUID>>, cursor: UUID, page: seq<UUID>)
    requires Collected(weather, user, pages, cursor) && (pages != [] ==> pages[|pages| - 1] != [])
    requires cursor == Cursor(TokenFor(pages))
    requires weather(|pages|).Some? && WellFormed(weather(|pages|).value)
    requires page == Page(MemberOf(weather(|pages|).value, user), PAGE_SIZE, cursor)
    ensures Concatenated(pages + [page]) == Concatenated(pages) + page
    ensures page == [] ==> Complete(weather, user, pages + [page])
    ensures page != [] ==> cursor < page[|page| - 1] && Collected(weather, user, pages + [page], page[|page| - 1])
  {
    OneMorePage(weather, user, pages, page);
    PageIsInterval(MemberOf(weather(|pages|).value, user), PAGE_SIZE, cursor);
    if page == [] {
      NothingLeft(weather, user, pages, cursor);
    } else {
      CollectMore(weather, user, pages, cursor, page);
    }
  }

  lemma TokenAfterPage(pages: seq<seq<UUID>>, page: seq<UUID>)
    ensures TokenFor(pages + [page]) == if page == [] then NoId else IdOf(page[|page| - 1])
  {
  }

  /** Where the walk stands between two queries. */
  ghost predicate Walking(weather: Weather, user: UUID, pages: seq<seq<UUID>>, token: IdText) {
    && token == TokenFor(pages)
    && (pages != [] ==> user != NIL && pages[|pages| - 1] != [])
    && Collected(weather, user, pages, Cursor(token))
  }

  /** One query of the walk and what its answer means. */
  method Query(weather: Weather, user: UUID, n: nat, token: IdText, ghost pages: seq<seq<UUID>>)
    returns (answer: Result<Answer, Code>)
    requires n == |pages| && Walking(weather, user, pages, token)
    requires weather(n).Some? ==> WellFormed(weather(n).value)
    ensures answer.Err? <==> user == NIL || weather(n) == None
    ensures answer.Ok? ==>
              var page, next := Ids(answer.value.galleries), answer.value.nextPageToken;
              && Concatenated(pages + [page]) == Concatenated(pages) + page
              && if next == NoId || next == token then Complete(weather, user, pages + [page])
                 else Cursor(token) < Cursor(next) && Walking(weather, user, pages + [page], next)
  {
    answer := ListGalleriesByMember(weather(n), user, PAGE_SIZE, token);
    if answer.Ok? {
      AnswerIsPage(weather(n).value, user, PAGE_SIZE, token);
      var page := Ids(answer.value.galleries);
      OneTurn(weather, user, pages, Cursor(token), page);
      TokenAfterPage(pages, page);
    }
  }

  ghost predicate ResolvedBy(weather: Weather, user: UUID, queries: nat, ids: seq<UUID>) {
    exists pages :: |pages| == queries && Complete(weather, user, pages) && ids == Concatenated(pages)
  }

  lemma Resolved(weather: Weather, user: UUID, pages: seq<seq<UUID>>)
    requires Complete(weather, user, pages)
    ensures ResolvedBy(weather, user, |pages|, Concatenated(pages))
  {
  }

  /** With arbitrary joins, leaves, creations and deletions between its queries, the walk ends
      and returns its pages one after the other: identifiers in ascending order, each a
      membership when its page was read, and among them, once, every gallery that was a
      membership at each query. It fails exactly when one of the queries it makes fails. */
  method ResolveMemberships(user: UUID, weather: Weather) returns (r: Result<seq<UUID>, Code>, queries: nat)
    requires forall k: nat :: weather(k).Some? ==> WellFormed(weather(k).value)
    ensures queries > 0
    ensures r.Ok? ==> user != NIL && ResolvedBy(weather, user, queries, r.value)
    ensures r.Err? ==> r == Err(Internal) && (user == NIL || weather(queries - 1) == None)
  {
    var ids: seq<UUID>, token, n: nat := [], NoId, 0;
    ghost var pages: seq<seq<UUID>> := [];
    while true
      invariant |pages| == n && ids == Concatenated(pages)
      invariant Walking(weather, user, pages, token)
      decreases UUID_SPACE - Cursor(token) as int
    {
      var answer := Query(weather, user, n, token, pages);
      if answer.Err? {
        return Err(Internal), n + 1;
      }
      n := n + 1;
      var page, next := answer.value.galleries, answer.value.nextPageToken;
      ids := AppendIds(ids, page);
      pages := pages + [Ids(page)];
      if next == NoId || next == token {
        Resolved(weather, user, pages);
        return Ok(ids), n;
      }
      token := next;
    }
  }

  /** The inner loop of the walk. */
  method AppendIds(ids: seq<UUID>, page: seq<Gallery>) returns (longer: seq<UUID>)
    ensures longer == ids + Ids(page)
  {
    longer := ids;
    for i := 0 to |page|
      invariant longer == ids + Ids(page)[..i]
    {
      longer := longer + [page[i].id];
    }
  }
}
