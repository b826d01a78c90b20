/** What the browser's two gallery lists hold at the end of a run in which loads and requests
    for more have raced: exactly when they are complete. */
module GalleryEnds {
  import opened Common
  import opened Galleries
  import opened GalleryLists
  import opened Memberships
  import opened Paging

  // ---- Initial stretches ----

  function LastId(list: seq<Gallery>): UUID
    requires list != []
  {
    list[|list| - 1].id
  }

  /** The list is an initial stretch of a set, in order and as the server has its galleries. */
  ghost predicate Stretch(server: Server, u: set<UUID>, list: seq<Gallery>) {
    list != [] ==> Holds(server, list, UpTo(u, LastId(list)))
  }

  /** Nothing of the set is left beyond the list's own last gallery. */
  ghost predicate Exhausted(u: set<UUID>, list: seq<Gallery>) {
    if list == [] then u == {} else Above(u, LastId(list)) == {}
  }

  lemma LastIsGreatest(list: seq<Gallery>)
    requires Ascending(Ids(list)) && list != []
    ensures LastId(list) in Ids(list) && forall x <- Ids(list) :: x <= LastId(list)
  {
    var ids := Ids(list);
    assert ids[|ids| - 1] == LastId(list);
    forall x | x in ids ensures x <= LastId(list) {
      var i :| 0 <= i < |ids| && ids[i] == x;
    }
  }

  /** A list that holds everything of the set up to some place is a stretch of it. */
  lemma HoldsIsStretch(server: Server, u: set<UUID>, list: seq<Gallery>, s: set<UUID>)
    requires Holds(server, list, s) && s <= u
    requires forall x <- u, y <- s :: x <= y ==> x in s
    ensures Stretch(server, u, list)
  {
    if list != [] {
      LastIsGreatest(list);
      assert UpTo(u, LastId(list)) == s;
    }
  }

  lemma StretchEndsIff(server: Server, u: set<UUID>, list: seq<Gallery>)
    ensures Stretch(server, u, list) && Exhausted(u, list) <==> Holds(server, list, u)
  {
    if list == [] {
      EmptyHolds(server, u);
    } else if Holds(server, list, u) {
      HoldsIsStretch(server, u, list, u);
      LastIsGreatest(list);
    } else if Exhausted(u, list) {
      assert UpTo(u, LastId(list)) == u - Above(u, LastId(list));
    }
  }

  lemma EmptyHolds(server: Server, u: set<UUID>)
    ensures Holds(server, [], u) <==> u == {}
  {
    assert Ids([]) == [];
    EmptyIff(u);
  }

  lemma EmptyIff(u: set<UUID>)
    ensures Lists([], u) <==> u == {}
  {
    if Lists([], u) {
      EmptyListing([], u);
    }
  }

  /** What a stretch begins with is a stretch. */
  lemma StretchBegins(server: Server, u: set<UUID>, low: seq<Gallery>, high: seq<Gallery>)
    requires Stretch(server, u, low + high)
    ensures Stretch(server, u, low)
  {
    if low != [] {
      var all, a, b := Ids(low + high), Ids(low), Ids(high);
      assert all == a + b;
      assert forall i :: 0 <= i < |low| ==> all[i] == a[i];
      assert Ascending(a);
      LastIsGreatest(low);
      forall y | y in b ensures LastId(low) < y {
        var j :| 0 <= j < |b| && b[j] == y;
        assert all[|a| - 1] < all[|a| + j];
      }
      LastIsGreatest(low + high);
      assert LastId(low) in a && LastId(low) in all && LastId(low) <= LastId(low + high);
      forall x ensures x in a <==> x in UpTo(u, LastId(low)) {
        assert x in all <==> x in a || x in b;
        assert x in all <==> x in UpTo(u, LastId(low + high));
      }
      assert forall g <- low :: g in low + high;
    }
  }

  /** A list that only grows stays spoilt. */
  lemma SpoiltStays(server: Server, u: set<UUID>, now: seq<Gallery>, end: seq<Gallery>)
    requires now <= end && !Stretch(server, u, now)
    ensures !Stretch(server, u, end)
  {
    assert end == now + end[|now|..];
    if Stretch(server, u, end) {
      StretchBegins(server, u, now, end[|now|..]);
    }
  }

  /** What lies beyond one identifier and up to another. */
  function Span(u: set<UUID>, after: UUID, to: UUID): set<UUID> {
    set x | x in u && after < x <= to
  }

  /** Adding everything that lies in a span makes a longer stretch if and only if the list held
      everything before the span. */
  lemma StretchGrowsIff(server: Server, u: set<UUID>, low: seq<Gallery>, page: seq<Gallery>, after: UUID, to: UUID)
    requires Stretch(server, u, low) && Holds(server, page, Span(u, after, to)) && page != []
    ensures Stretch(server, u, low + page) <==> IdSet(low) == UpTo(u, after)
  {
    var held := if low == [] then {} else UpTo(u, LastId(low));
    EmptyHolds(server, {});
    assert Holds(server, low, held);
    IdSetOf(server, low, held);
    LastIsGreatest(page);
    assert LastId(low + page) == LastId(page);
    assert LastId(page) in Span(u, after, to);
    assert UpTo(u, LastId(page)) == UpTo(u, after) + Span(u, after, to);
    if held == UpTo(u, after) {
      HoldsMore(server, low, held, page, Span(u, after, to));
    }
    if Stretch(server, u, low + page) {
      HoldsSplit(server, low, held, page, Span(u, after, to), UpTo(u, after));
    }
  }

  /** What an answer holds. */
  lemma AnswerSpan(server: Server, ask: Ask, mine: bool, t: UUID)
    requires Serving(server, ask) && t in Listed(server, mine)
    ensures var page := ask(mine, IdOf(t)).galleries;
            page != [] ==> Holds(server, page, Span(Listed(server, mine), t, LastId(page)))
  {
    var answer := ask(mine, IdOf(t));
    AnswerHolds(server, ask, mine, IdOf(t));
    AnswerAsServed(server, ask, mine, IdOf(t));
    if answer.galleries != [] {
      var s, ids := Listed(server, mine), Ids(answer.galleries);
      assert Token(answer.nextPageToken) == Some(LastId(answer.galleries));
      assert Above(Passed(s, Token(answer.nextPageToken)), t) == Span(s, t, LastId(answer.galleries));
    }
  }

  // ---- My list ----

  /** The page added is empty or begins at the list's own last gallery. */
  predicate MyAtEnd(ask: Ask, x: Session, e: Event)
    requires Enabled(x, e)
  {
    e.AnswerMy? ==>
      || ask(true, IdOf(x.my[e.request])).galleries == []
      || (x.state.my != [] && LastId(x.state.my) == x.my[e.request])
  }

  predicate AllMyAtEnd(ask: Ask, x: Session, es: seq<Event>)
    requires Legal(ask, x, es)
    decreases |es|
  {
    es == [] || (MyAtEnd(ask, x, es[0]) && AllMyAtEnd(ask, Step(ask, x, es[0]), es[1..]))
  }

  predicate NoLoad(es: seq<Event>) {
    forall e <- es :: !e.Load?
  }

  lemma {:induction false} MyOnlyGrows(ask: Ask, x: Session, es: seq<Event>)
    requires Legal(ask, x, es) && NoLoad(es)
    ensures x.state.my <= Exec(ask, x, es).state.my
    decreases |es|
  {
    if es != [] {
      assert es[0] in es;
      MyOnlyGrows(ask, Step(ask, x, es[0]), es[1..]);
    }
  }

  lemma MyStep(server: Server, ask: Ask, x: Session, e: Event)
    requires Serving(server, ask) && TokensServed(server, x) && Enabled(x, e) && !e.Load?
    requires Stretch(server, Mine(server), x.state.my)
    ensures Stretch(server, Mine(server), Step(ask, x, e).state.my) <==> MyAtEnd(ask, x, e)
  {
    if e.AnswerMy? {
      var t, page := x.my[e.request], ask(true, IdOf(x.my[e.request])).galleries;
      assert t in x.my;
      AnswerSpan(server, ask, true, t);
      if page == [] {
        assert x.state.my + page == x.state.my;
      } else {
        StretchGrowsIff(server, Mine(server), x.state.my, page, t, LastId(page));
        EndsAtIff(server, Mine(server), x.state.my, t);
      }
    }
  }

  lemma EndsAtIff(server: Server, u: set<UUID>, list: seq<Gallery>, t: UUID)
    requires Stretch(server, u, list) && t in u
    ensures IdSet(list) == UpTo(u, t) <==> list != [] && LastId(list) == t
  {
    assert t in UpTo(u, t);
    if list != [] {
      LastIsGreatest(list);
      IdSetOf(server, list, UpTo(u, LastId(list)));
      IdsAreIds(list);
    }
  }

  /** After a load, however requests, answers and failures interleave: my list ends as an
      initial stretch of the memberships if and only if every page added to it was empty or
      began at the list's own last gallery. */
  lemma {:induction false} MyStretchIff(server: Server, ask: Ask, x: Session, es: seq<Event>)
    requires Serving(server, ask) && TokensServed(server, x) && Legal(ask, x, es) && NoLoad(es)
    requires Stretch(server, Mine(server), x.state.my)
    ensures Stretch(server, Mine(server), Exec(ask, x, es).state.my) <==> AllMyAtEnd(ask, x, es)
    decreases |es|
  {
    if es != [] {
      assert es[0] in es;
      var y := Step(ask, x, es[0]);
      MyStep(server, ask, x, es[0]);
      if MyAtEnd(ask, x, es[0]) {
        StepTokens(server, ask, x, es[0]);
        MyStretchIff(server, ask, y, es[1..]);
      } else {
        MyOnlyGrows(ask, y, es[1..]);
        SpoiltStays(server, Mine(server), y.state.my, Exec(ask, y, es[1..]).state.my);
      }
    }
  }

  // ---- The other list ----

  function Kept(g: Gallery, gone: set<UUID>): seq<Gallery> {
    if g.id in gone then [] else [g]
  }

  lemma WithoutFirst(a: seq<Gallery>, gone: set<UUID>)
    requires a != []
    ensures Without(a, gone) == Kept(a[0], gone) + Without(a[1..], gone)
  {
  }

  lemma Grouped(a: seq<Gallery>, b: seq<Gallery>, c: seq<Gallery>)
    ensures a + (b + c) == (a + b) + c
  {
  }

  lemma {:induction false} WithoutJoin(a: seq<Gallery>, b: seq<Gallery>, gone: set<UUID>)
    ensures Without(a + b, gone) == Without(a, gone) + Without(b, gone)
    decreases |a|
  {
    if a == [] {
      assert a + b == b;
    } else {
      assert (a + b)[1..] == a[1..] + b && (a + b)[0] == a[0];
      WithoutFirst(a, gone);
      WithoutFirst(a + b, gone);
      WithoutJoin(a[1..], b, gone);
      Grouped(Kept(a[0], gone), Without(a[1..], gone), Without(b, gone));
    }
  }

  lemma {:induction false} WithoutTwice(a: seq<Gallery>, some: set<UUID>, gone: set<UUID>)
    requires some <= gone
    ensures Without(Without(a, some), gone) == Without(a, gone)
    decreases |a|
  {
    if a != [] {
      WithoutTwice(a[1..], some, gone);
      WithoutFirst(a, some);
      WithoutFirst(a, gone);
      WithoutJoin(Kept(a[0], some), Without(a[1..], some), gone);
      WithoutOne(a[0], some, gone);
    }
  }

  lemma WithoutOne(g: Gallery, some: set<UUID>, gone: set<UUID>)
    requires some <= gone
    ensures Without(Kept(g, some), gone) == Kept(g, gone)
  {
    assert Without([], gone) == [];
    if g.id !in some {
      WithoutFirst([g], gone);
      assert [g][1..] == [];
    }
  }

  /** Of the other list only what is not in `mine`, the galleries my list has in the end, stays.
      The page added leaves nothing, or what has stayed so far is everything before it. */
  ghost predicate AvailableAtEnd(server: Server, ask: Ask, mine: set<UUID>, x: Session, e: Event)
    requires Enabled(x, e)
  {
    e.AnswerAvailable? ==>
      var t := x.available[e.request];
      || Without(ask(false, IdOf(t)).galleries, mine) == []
      || IdSet(Without(x.state.available, mine)) == UpTo(All(server) - mine, t)
  }

  ghost predicate AllAvailableAtEnd(server: Server, ask: Ask, mine: set<UUID>, x: Session, es: seq<Event>)
    requires Legal(ask, x, es)
    decreases |es|
  {
    es == [] ||
    (AvailableAtEnd(server, ask, mine, x, es[0]) && AllAvailableAtEnd(server, ask, mine, Step(ask, x, es[0]), es[1..]))
  }

  /** What an event adds to what stays. */
  function Stays(ask: Ask, mine: set<UUID>, x: Session, e: Event): seq<Gallery>
    requires Enabled(x, e)
  {
    if e.AnswerAvailable? then Without(ask(false, IdOf(x.available[e.request])).galleries, mine) else []
  }

  lemma StaysAfterAvailable(s: GalleryState, page: Answer, mine: set<UUID>)
    requires IdSet(s.my) <= mine
    ensures Without(Next(s, LoadedMoreAvailable(page)).available, mine)
            == Without(s.available, mine) + Without(page.galleries, mine)
  {
    WithoutJoin(s.available, Without(page.galleries, IdSet(s.my)), mine);
    WithoutTwice(page.galleries, IdSet(s.my), mine);
  }

  lemma IdSetJoin(a: seq<Gallery>, b: seq<Gallery>)
    ensures IdSet(a + b) == IdSet(a) + IdSet(b)
  {
    forall x | x in IdSet(a) + IdSet(b) ensures x in IdSet(a + b) {
      var g :| (g in a || g in b) && g.id == x;
      assert g in a + b;
    }
  }

  lemma StaysAfterMy(s: GalleryState, page: Answer, mine: set<UUID>)
    requires IdSet(page.galleries) <= mine
    ensures Without(Next(s, LoadedMoreMy(page)).available, mine) == Without(s.available, mine)
  {
    WithoutTwice(s.available, IdSet(page.galleries), mine);
  }

  lemma StaysWithMy(ask: Ask, mine: set<UUID>, x: Session, i: nat)
    requires i < |x.my| && IdSet(Step(ask, x, AnswerMy(i)).state.my) <= mine
    ensures Without(Step(ask, x, AnswerMy(i)).state.available, mine) == Without(x.state.available, mine)
  {
    var page := ask(true, IdOf(x.my[i]));
    assert Step(ask, x, AnswerMy(i)).state == Next(x.state, LoadedMoreMy(page));
    IdSetJoin(x.state.my, page.galleries);
    StaysAfterMy(x.state, page, mine);
  }

  lemma StaysWithAvailable(ask: Ask, mine: set<UUID>, x: Session, i: nat)
    requires i < |x.available| && IdSet(x.state.my) <= mine
    ensures Without(Step(ask, x, AnswerAvailable(i)).state.available, mine)
            == Without(x.state.available, mine) + Stays(ask, mine, x, AnswerAvailable(i))
  {
    var page := ask(false, IdOf(x.available[i]));
    assert Step(ask, x, AnswerAvailable(i)).state == Next(x.state, LoadedMoreAvailable(page));
    StaysAfterAvailable(x.state, page, mine);
  }

  lemma QuietEvent(ask: Ask, mine: set<UUID>, x: Session, e: Event)
    requires Enabled(x, e) && !e.Load? && !e.AnswerMy? && !e.AnswerAvailable?
    ensures Step(ask, x, e).state.available == x.state.available && Stays(ask, mine, x, e) == []
  {
  }

  lemma StaysStep(ask: Ask, mine: set<UUID>, x: Session, e: Event)
    requires Enabled(x, e) && !e.Load? && IdSet(Step(ask, x, e).state.my) <= mine
    ensures Without(Step(ask, x, e).state.available, mine) == Without(x.state.available, mine) + Stays(ask, mine, x, e)
  {
    var before := Without(x.state.available, mine);
    AddNothing(before);
    if e.AnswerAvailable? {
      StaysWithAvailable(ask, mine, x, e.request);
    } else if e.AnswerMy? {
      StaysWithMy(ask, mine, x, e.request);
    } else {
      QuietEvent(ask, mine, x, e);
    }
  }

  lemma AddNothing(list: seq<Gallery>)
    ensures list + [] == list
  {
  }

  lemma AvailableStep(server: Server, ask: Ask, mine: set<UUID>, x: Session, e: Event)
    requires Serving(server, ask) && TokensServed(server, x) && Enabled(x, e) && !e.Load?
    requires IdSet(Step(ask, x, e).state.my) <= mine
    requires Stretch(server, All(server) - mine, Without(x.state.available, mine))
    ensures Stretch(server, All(server) - mine, Without(Step(ask, x, e).state.available, mine))
            <==> AvailableAtEnd(server, ask, mine, x, e)
  {
    StaysStep(ask, mine, x, e);
    var kept := Stays(ask, mine, x, e);
    if kept == [] {
      assert Without(x.state.available, mine) + kept == Without(x.state.available, mine);
    } else {
      var t := x.available[e.request];
      var page := ask(false, IdOf(t)).galleries;
      assert t in x.available;
      AnswerSpan(server, ask, false, t);
      assert page != [];
      HoldsWithout(server, page, Span(All(server), t, LastId(page)), mine);
      assert Span(All(server), t, LastId(page)) - mine == Span(All(server) - mine, t, LastId(page));
      StretchGrowsIff(server, All(server) - mine, Without(x.state.available, mine), kept, t, LastId(page));
    }
  }

  lemma {:induction false} StaysGrow(ask: Ask, mine: set<UUID>, x: Session, es: seq<Event>)
    requires Legal(ask, x, es) && NoLoad(es) && IdSet(Exec(ask, x, es).state.my) <= mine
    ensures Without(x.state.available, mine) <= Without(Exec(ask, x, es).state.available, mine)
    decreases |es|
  {
    if es != [] {
      assert es[0] in es;
      var y := Step(ask, x, es[0]);
      StillMine(ask, mine, y, es[1..]);
      StaysStep(ask, mine, x, es[0]);
      StaysGrow(ask, mine, y, es[1..]);
    }
  }

  lemma StillMine(ask: Ask, mine: set<UUID>, x: Session, es: seq<Event>)
    requires Legal(ask, x, es) && NoLoad(es) && IdSet(Exec(ask, x, es).state.my) <= mine
    ensures IdSet(x.state.my) <= mine
  {
    MyOnlyGrows(ask, x, es);
    var end := Exec(ask, x, es).state.my;
    forall g | g in x.state.my ensures g.id in mine {
      var i :| 0 <= i < |x.state.my| && x.state.my[i] == g;
      assert end[i] == g;
      assert g.id in IdSet(end);
    }
  }

  /** The same of the other list: what stays of it ends as an initial stretch of the galleries
      not in my list if and only if every page added left nothing or followed on what stayed. */
  lemma {:induction false} AvailableStretchIff(server: Server, ask: Ask, mine: set<UUID>, x: Session, es: seq<Event>)
    requires Serving(server, ask) && TokensServed(server, x) && Legal(ask, x, es) && NoLoad(es)
    requires IdSet(Exec(ask, x, es).state.my) <= mine
    requires Stretch(server, All(server) - mine, Without(x.state.available, mine))
    ensures Stretch(server, All(server) - mine, Without(Exec(ask, x, es).state.available, mine))
            <==> AllAvailableAtEnd(server, ask, mine, x, es)
    decreases |es|
  {
    if es != [] {
      assert es[0] in es;
      var y, u := Step(ask, x, es[0]), All(server) - mine;
      StillMine(ask, mine, y, es[1..]);
      AvailableStep(server, ask, mine, x, es[0]);
      if AvailableAtEnd(server, ask, mine, x, es[0]) {
        StepTokens(server, ask, x, es[0]);
        AvailableStretchIff(server, ask, mine, y, es[1..]);
      } else {
        StaysGrow(ask, mine, y, es[1..]);
        SpoiltStays(server, u, Without(y.state.available, mine), Without(Exec(ask, y, es[1..]).state.available, mine));
      }
    }
  }

  // ---- Both lists at the end of a run ----

  lemma LoadBegins(server: Server, ask: Ask, x: Session, mine: set<UUID>)
    requires Serving(server, ask)
    ensures var s := Step(ask, x, Load).state;
            && Disjoint(s.my, s.available)
            && Stretch(server, Mine(server), s.my)
            && (IdSet(s.my) <= mine ==> Stretch(server, All(server) - mine, Without(s.available, mine)))
  {
    FirstPage(server, ask, true);
    FirstPage(server, ask, false);
    var first, all := ask(true, NoId), ask(false, NoId);
    var s := Step(ask, x, Load).state;
    assert s == Next(x.state, Loaded(first, all));
    HoldsIsStretch(server, Mine(server), s.my, Passed(Mine(server), Token(first.nextPageToken)));
    if IdSet(s.my) <= mine {
      var passed := Passed(All(server), Token(all.nextPageToken));
      WithoutTwice(all.galleries, IdSet(first.galleries), mine);
      HoldsWithout(server, all.galleries, passed, mine);
      HoldsIsStretch(server, All(server) - mine, Without(all.galleries, mine), passed - mine);
    }
  }

  lemma {:induction false} RunsDisjoint(ask: Ask, x: Session, es: seq<Event>)
    requires Legal(ask, x, es) && Disjoint(x.state.my, x.state.available)
    ensures Disjoint(Exec(ask, x, es).state.my, Exec(ask, x, es).state.available)
    decreases |es|
  {
    if es != [] {
      StepDisjoint(ask, x, es[0]);
      RunsDisjoint(ask, Step(ask, x, es[0]), es[1..]);
    }
  }

  lemma StepDisjoint(ask: Ask, x: Session, e: Event)
    requires Enabled(x, e) && Disjoint(x.state.my, x.state.available)
    ensures Disjoint(Step(ask, x, e).state.my, Step(ask, x, e).state.available)
  {
    match e {
      case Load => StaysDisjoint(x.state, Loaded(ask(true, NoId), ask(false, NoId)));
      case AnswerMy(i) => StaysDisjoint(x.state, LoadedMoreMy(ask(true, IdOf(x.my[i]))));
      case AnswerAvailable(i) => StaysDisjoint(x.state, LoadedMoreAvailable(ask(false, IdOf(x.available[i]))));
      case _ =>
    }
  }

  lemma {:induction false} WithoutNothing(list: seq<Gallery>, gone: set<UUID>)
    requires IdSet(list) !! gone
    ensures Without(list, gone) == list
    decreases |list|
  {
    if list != [] {
      assert list[0] in list && list[0].id in IdSet(list);
      assert forall g <- list[1..] :: g in list && g.id in IdSet(list);
      WithoutNothing(list[1..], gone);
    }
  }

  lemma IsCompleteIff(server: Server, s: GalleryState)
    requires WellFormed(server.store)
    ensures IsComplete(server, s)
            <==> Holds(server, s.my, Mine(server)) && Holds(server, s.available, All(server) - Mine(server))
  {
    SortedRowsHold(server, Mine(server));
    SortedRowsHold(server, All(server) - Mine(server));
    if Holds(server, s.my, Mine(server)) && Holds(server, s.available, All(server) - Mine(server)) {
      OneList(server, s.my, Mine(server));
      OneList(server, s.available, All(server) - Mine(server));
    }
  }

  lemma SortedRowsHold(server: Server, ids: set<UUID>)
    requires WellFormed(server.store) && ids <= All(server)
    ensures Holds(server, Rows(server.store.galleries, Sorted(ids)), ids)
  {
    assert forall id <- Sorted(ids) :: id in ids;
    RowIds(server.store, Sorted(ids));
    RowsAreServed(server, Sorted(ids));
  }

  /** From any load to the end of any run without another: the two lists are complete if and
      only if every page added to either was empty for it or followed on what it had, and
      nothing is left beyond their last galleries. */
  lemma EndsCompleteIff(server: Server, ask: Ask, before: Session, es: seq<Event>)
    requires Serving(server, ask) && TokensServed(server, before)
    requires Legal(ask, Step(ask, before, Load), es) && NoLoad(es)
    ensures var x := Step(ask, before, Load);
            var end := Exec(ask, x, es).state;
            var mine := IdSet(end.my);
            IsComplete(server, end) <==>
              && AllMyAtEnd(ask, x, es) && Exhausted(Mine(server), end.my)
              && AllAvailableAtEnd(server, ask, mine, x, es) && Exhausted(All(server) - mine, end.available)
  {
    var x := Step(ask, before, Load);
    var end := Exec(ask, x, es).state;
    var mine := IdSet(end.my);
    StillMine(ask, mine, x, es);
    LoadBegins(server, ask, before, mine);
    StepTokens(server, ask, before, Load);
    MyStretchIff(server, ask, x, es);
    AvailableStretchIff(server, ask, mine, x, es);
    RunsDisjoint(ask, x, es);
    WithoutNothing(end.available, mine);
    StretchEndsIff(server, Mine(server), end.my);
    StretchEndsIff(server, All(server) - mine, end.available);
    IsCompleteIff(server, end);
    if Holds(server, end.my, Mine(server)) {
      IdSetOf(server, end.my, Mine(server));
    }
  }
}
