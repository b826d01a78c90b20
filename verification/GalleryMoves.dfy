/** What the actions of the browser's gallery store do to its two lists: where a gallery is
    after any sequence of them. */
module GalleryMoves {
  import opened Common
  import opened Galleries
  import opened GalleryLists

  // ---- Taking galleries out of a list ----

  function Unless(g: Gallery, ids: set<UUID>): seq<Gallery> {
    if g.id in ids then [] else [g]
  }

  lemma WithoutFirst(list: seq<Gallery>, ids: set<UUID>)
    requires list != []
    ensures Without(list, ids) == Unless(list[0], ids) + Without(list[1..], ids)
  {
  }

  lemma Grouped(a: seq<Gallery>, b: seq<Gallery>, c: seq<Gallery>)
    ensures a + (b + c) == (a + b) + c
  {
  }

  lemma {:induction false} WithoutOfBoth(a: seq<Gallery>, b: seq<Gallery>, ids: set<UUID>)
    ensures Without(a + b, ids) == Without(a, ids) + Without(b, ids)
    decreases |a|
  {
    var all := a + b;
    if a == [] {
      assert all == b;
    } else {
      assert all[1..] == a[1..] + b && all[0] == a[0];
      WithoutOfBoth(a[1..], b, ids);
      WithoutFirst(all, ids);
      WithoutFirst(a, ids);
      Grouped(Unless(a[0], ids), Without(a[1..], ids), Without(b, ids));
    }
  }

  lemma {:induction false} WithoutNone(list: seq<Gallery>, ids: set<UUID>)
    requires IdSet(list) !! ids
    ensures Without(list, ids) == list
    decreases |list|
  {
    if list != [] {
      var rest := list[1..];
      assert list == [list[0]] + rest;
      assert list[0].id in IdSet(list) && IdSet(rest) <= IdSet(list);
      WithoutNone(rest, ids);
    }
  }

  lemma WithoutLast(a: seq<Gallery>, g: Gallery)
    requires g.id !in IdSet(a)
    ensures Without(a + [g], {g.id}) == a
  {
    WithoutOfBoth(a, [g], {g.id});
    WithoutNone(a, {g.id});
    assert Without([g][1..], {g.id}) == [];
  }

  /** Taking one gallery out leaves the others as they stand. */
  lemma WithoutOne(list: seq<Gallery>, a: seq<Gallery>, g: Gallery, b: seq<Gallery>)
    requires list == a + [g] + b && g.id !in IdSet(a) && g.id !in IdSet(b)
    ensures Without(list, {g.id}) == a + b
  {
    var front := a + [g];
    WithoutOfBoth(front, b, {g.id});
    WithoutLast(a, g);
    WithoutNone(b, {g.id});
  }

  // ---- Joining, leaving, deleting ----

  /** A list with one gallery in its place among others. */
  predicate Among(list: seq<Gallery>, a: seq<Gallery>, g: Gallery, b: seq<Gallery>) {
    list == a + [g] + b && g.id !in IdSet(a) && g.id !in IdSet(b)
  }

  /** Joining moves a gallery from where it stands among the others to the end of my list;
      nothing else moves, and any error goes. */
  lemma JoiningMoves(s: GalleryState, a: seq<Gallery>, g: Gallery, b: seq<Gallery>)
    requires Among(s.available, a, g, b)
    ensures Next(s, Joined(g)) == s.(my := s.my + [g], available := a + b, error := None)
  {
    WithoutOne(s.available, a, g, b);
  }

  /** Leaving moves it from where it stands in my list to the end of the others. */
  lemma LeavingMoves(s: GalleryState, a: seq<Gallery>, g: Gallery, b: seq<Gallery>)
    requires Among(s.my, a, g, b)
    ensures Next(s, Left(g)) == s.(my := a + b, available := s.available + [g], error := None)
  {
    WithoutOne(s.my, a, g, b);
  }

  lemma AmongLast(list: seq<Gallery>, g: Gallery)
    requires g.id !in IdSet(list)
    ensures Among(list + [g], list, g, []) && list + [] == list
  {
    assert list + [g] + [] == list + [g];
  }

  /** Joining and leaving undo each other but for the place: a gallery that was joined and left
      stands last among the others, and one that was left and joined stands last in my list. */
  lemma JoinThenLeave(s: GalleryState, a: seq<Gallery>, g: Gallery, b: seq<Gallery>)
    requires Among(s.available, a, g, b) && g.id !in IdSet(s.my)
    ensures Next(Next(s, Joined(g)), Left(g)) == s.(available := a + b + [g], error := None)
  {
    JoiningMoves(s, a, g, b);
    AmongLast(s.my, g);
    LeavingMoves(Next(s, Joined(g)), s.my, g, []);
  }

  lemma LeaveThenJoin(s: GalleryState, a: seq<Gallery>, g: Gallery, b: seq<Gallery>)
    requires Among(s.my, a, g, b) && g.id !in IdSet(s.available)
    ensures Next(Next(s, Left(g)), Joined(g)) == s.(my := a + b + [g], error := None)
  {
    LeavingMoves(s, a, g, b);
    AmongLast(s.available, g);
    JoiningMoves(Next(s, Left(g)), s.available, g, []);
  }

  /** A deleted gallery goes from whichever list it is in, and all others stay where they are. */
  lemma DeletingFromMine(s: GalleryState, a: seq<Gallery>, g: Gallery, b: seq<Gallery>)
    requires Among(s.my, a, g, b) && g.id !in IdSet(s.available)
    ensures Next(s, Deleted(g.id)) == s.(my := a + b, error := None)
  {
    WithoutOne(s.my, a, g, b);
    WithoutNone(s.available, {g.id});
  }

  lemma DeletingFromOthers(s: GalleryState, a: seq<Gallery>, g: Gallery, b: seq<Gallery>)
    requires Among(s.available, a, g, b) && g.id !in IdSet(s.my)
    ensures Next(s, Deleted(g.id)) == s.(available := a + b, error := None)
  {
    WithoutOne(s.available, a, g, b);
    WithoutNone(s.my, {g.id});
  }

  // ---- Any sequence of actions ----

  function After(s: GalleryState, actions: seq<Action>): GalleryState {
    if actions == [] then s
    else Next(After(s, actions[..|actions| - 1]), actions[|actions| - 1])
  }

  predicate BringsToMine(action: Action, id: UUID) {
    match action
    case LoadSuccess(my, _, _, _) => id in IdSet(my)
    case MoreMySuccess(galleries, _) => id in IdSet(galleries)
    case Joined(g) => g.id == id
    case _ => false
  }

  predicate TakesFromMine(action: Action, id: UUID) {
    match action
    case LoadSuccess(my, _, _, _) => id !in IdSet(my)
    case Left(g) => g.id == id
    case Deleted(gone) => gone == id
    case _ => false
  }

  /** More of all galleries brings those that are not mine. */
  predicate BringsToOthers(s: GalleryState, action: Action, id: UUID) {
    match action
    case LoadSuccess(_, available, _, _) => id in IdSet(available)
    case MoreAvailableSuccess(galleries, _) => id in IdSet(galleries) && id !in IdSet(s.my)
    case Left(g) => g.id == id
    case _ => false
  }

  predicate TakesFromOthers(action: Action, id: UUID) {
    match action
    case LoadSuccess(_, available, _, _) => id !in IdSet(available)
    case MoreMySuccess(galleries, _) => id in IdSet(galleries)
    case Joined(g) => g.id == id
    case Deleted(gone) => gone == id
    case _ => false
  }

  lemma IdSets(a: seq<Gallery>, b: seq<Gallery>, ids: set<UUID>)
    ensures IdSet(a + b) == IdSet(a) + IdSet(b)
    ensures IdSet(Without(a, ids)) == IdSet(a) - ids
  {
    assert forall g <- a :: g in a + b;
    assert forall g <- b :: g in a + b;
    assert forall g <- a + b :: g in a || g in b;
    assert forall g <- a :: g.id !in ids ==> g in Without(a, ids);
  }

  lemma MineAfterOne(s: GalleryState, action: Action, id: UUID)
    ensures id in IdSet(Next(s, action).my)
            <==> BringsToMine(action, id) || (id in IdSet(s.my) && !TakesFromMine(action, id))
  {
    match action {
      case MoreMySuccess(galleries, _) => IdSets(s.my, galleries, {});
      case Joined(g) => IdSets(s.my, [g], {});
      case Left(g) => IdSets(s.my, [], {g.id});
      case Deleted(gone) => IdSets(s.my, [], {gone});
      case _ =>
    }
  }

  lemma OthersAfterOne(s: GalleryState, action: Action, id: UUID)
    ensures id in IdSet(Next(s, action).available)
            <==> BringsToOthers(s, action, id) || (id in IdSet(s.available) && !TakesFromOthers(action, id))
  {
    match action {
      case MoreMySuccess(galleries, _) => IdSets(s.available, [], IdSet(galleries));
      case MoreAvailableSuccess(galleries, _) =>
        IdSets(s.available, Without(galleries, IdSet(s.my)), {});
        IdSets(galleries, [], IdSet(s.my));
      case Joined(g) => IdSets(s.available, [], {g.id});
      case Left(g) => IdSets(s.available, [g], {});
      case Deleted(gone) => IdSets(s.available, [], {gone});
      case _ =>
    }
  }

  /** Where the galleries brought to a list and taken from it leave one: the last action that
      moves it decides. */
  ghost predicate EndsIn(brings: seq<bool>, takes: seq<bool>, before: bool)
    requires |brings| == |takes|
  {
    || (before && NoneFrom(takes, 0))
    || exists k :: 0 <= k < |brings| && brings[k] && NoneFrom(takes, k + 1)
  }

  ghost predicate NoneFrom(takes: seq<bool>, from: int) {
    forall j :: 0 <= j < |takes| && from <= j ==> !takes[j]
  }

  lemma EndsInOneMore(brings: seq<bool>, takes: seq<bool>, before: bool, b: bool, t: bool)
    requires |brings| == |takes|
    ensures EndsIn(brings + [b], takes + [t], before) <==> b || (EndsIn(brings, takes, before) && !t)
  {
    var n, more, gone := |brings|, brings + [b], takes + [t];
    assert gone[n] == t && more[n] == b;
    forall k | 0 <= k <= n ensures NoneFrom(gone, k) <==> NoneFrom(takes, k) && !t {
      assert forall j :: 0 <= j < n ==> gone[j] == takes[j];
    }
    if EndsIn(brings, takes, before) && !t && !(before && NoneFrom(takes, 0)) {
      var k :| 0 <= k < n && brings[k] && NoneFrom(takes, k + 1);
      assert more[k] && NoneFrom(gone, k + 1);
    }
    if EndsIn(more, gone, before) && !b && !(before && NoneFrom(gone, 0)) {
      var k :| 0 <= k <= n && more[k] && NoneFrom(gone, k + 1);
      assert brings[k] && NoneFrom(takes, k + 1);
    }
    if b {
      assert more[n] && NoneFrom(gone, n + 1);
    }
  }

  function MineBrought(actions: seq<Action>, id: UUID): seq<bool> {
    seq(|actions|, k requires 0 <= k < |actions| => BringsToMine(actions[k], id))
  }

  function MineTaken(actions: seq<Action>, id: UUID): seq<bool> {
    seq(|actions|, k requires 0 <= k < |actions| => TakesFromMine(actions[k], id))
  }

  function OthersBrought(s: GalleryState, actions: seq<Action>, id: UUID): seq<bool> {
    seq(|actions|, k requires 0 <= k < |actions| => BringsToOthers(After(s, actions[..k]), actions[k], id))
  }

  function OthersTaken(actions: seq<Action>, id: UUID): seq<bool> {
    seq(|actions|, k requires 0 <= k < |actions| => TakesFromOthers(actions[k], id))
  }

  /** A gallery is in my list after any actions if and only if one of them brought it there, or
      it was there before, and none has taken it out since. */
  lemma {:induction false} IsMineIff(s: GalleryState, actions: seq<Action>, id: UUID)
    ensures id in IdSet(After(s, actions).my)
            <==> EndsIn(MineBrought(actions, id), MineTaken(actions, id), id in IdSet(s.my))
    decreases |actions|
  {
    if actions != [] {
      var n := |actions| - 1;
      var front, last := actions[..n], actions[n];
      IsMineIff(s, front, id);
      MineAfterOne(After(s, front), last, id);
      EndsInOneMore(MineBrought(front, id), MineTaken(front, id), id in IdSet(s.my),
                    BringsToMine(last, id), TakesFromMine(last, id));
      assert MineBrought(actions, id) == MineBrought(front, id) + [BringsToMine(last, id)];
      assert MineTaken(actions, id) == MineTaken(front, id) + [TakesFromMine(last, id)];
    }
  }

  lemma OthersBroughtOneMore(s: GalleryState, front: seq<Action>, last: Action, id: UUID)
    ensures OthersBrought(s, front + [last], id)
            == OthersBrought(s, front, id) + [BringsToOthers(After(s, front), last, id)]
  {
    var n, all := |front|, front + [last];
    assert all[..n] == front && all[n] == last;
    forall k | 0 <= k < n ensures OthersBrought(s, all, id)[k] == OthersBrought(s, front, id)[k] {
      assert all[..k] == front[..k] && all[k] == front[k];
    }
  }

  lemma OthersTakenOneMore(front: seq<Action>, last: Action, id: UUID)
    ensures OthersTaken(front + [last], id) == OthersTaken(front, id) + [TakesFromOthers(last, id)]
  {
  }

  /** The same of the other list. */
  lemma {:induction false} IsAmongOthersIff(s: GalleryState, actions: seq<Action>, id: UUID)
    ensures id in IdSet(After(s, actions).available)
            <==> EndsIn(OthersBrought(s, actions, id), OthersTaken(actions, id), id in IdSet(s.available))
    decreases |actions|
  {
    if actions != [] {
      var n := |actions| - 1;
      var front, last := actions[..n], actions[n];
      IsAmongOthersIff(s, front, id);
      OthersAfterOne(After(s, front), last, id);
      EndsInOneMore(OthersBrought(s, front, id), OthersTaken(front, id), id in IdSet(s.available),
                    BringsToOthers(After(s, front), last, id), TakesFromOthers(last, id));
      OthersBroughtOneMore(s, front, last, id);
      OthersTakenOneMore(front, last, id);
      assert front + [last] == actions;
    }
  }

  // ---- What is shown of requests ----

  datatype Flag = Loading | LoadingMoreMy | LoadingMoreAvailable

  function FlagOf(s: GalleryState, flag: Flag): bool {
    match flag
    case Loading => s.loading
    case LoadingMoreMy => s.loadingMoreMy
    case LoadingMoreAvailable => s.loadingMoreAvailable
  }

  /** The actions by which a kind of request starts, and those by which it is over. */
  predicate Starts(action: Action, flag: Flag) {
    match flag
    case Loading => action.LoadStart? || action.CreateStart?
    case LoadingMoreMy => action.MoreMyStart?
    case LoadingMoreAvailable => action.MoreAvailableStart?
  }

  predicate IsOver(action: Action, flag: Flag) {
    || action.LoadSuccess?
    || match flag
       case Loading => action.LoadFailure? || action.CreateFailure? || action.DeleteFailure?
       case LoadingMoreMy => action.MoreMySuccess? || action.MoreMyFailure?
       case LoadingMoreAvailable => action.MoreAvailableSuccess? || action.MoreAvailableFailure?
  }

  function Started(actions: seq<Action>, flag: Flag): seq<bool> {
    seq(|actions|, k requires 0 <= k < |actions| => Starts(actions[k], flag))
  }

  function Over(actions: seq<Action>, flag: Flag): seq<bool> {
    seq(|actions|, k requires 0 <= k < |actions| => IsOver(actions[k], flag))
  }

  lemma FlagOneMore(front: seq<Action>, last: Action, flag: Flag)
    ensures Started(front + [last], flag) == Started(front, flag) + [Starts(last, flag)]
    ensures Over(front + [last], flag) == Over(front, flag) + [IsOver(last, flag)]
  {
  }

  /** A kind of request is shown as going on if and only if one has started, and none is over
      since. */
  lemma {:induction false} IsShownIff(s: GalleryState, actions: seq<Action>, flag: Flag)
    ensures FlagOf(After(s, actions), flag) <==> EndsIn(Started(actions, flag), Over(actions, flag), FlagOf(s, flag))
    decreases |actions|
  {
    if actions != [] {
      var n := |actions| - 1;
      var front, last := actions[..n], actions[n];
      IsShownIff(s, front, flag);
      EndsInOneMore(Started(front, flag), Over(front, flag), FlagOf(s, flag), Starts(last, flag), IsOver(last, flag));
      FlagOneMore(front, last, flag);
      assert front + [last] == actions;
    }
  }

  predicate Fails(action: Action) {
    || action.CreateFailure? || action.CloseFailure? || action.LoadFailure?
    || action.MoreMyFailure? || action.MoreAvailableFailure?
    || action.JoinFailure? || action.LeaveFailure? || action.DeleteFailure?
  }

  /** An answer with more galleries leaves an error standing. */
  predicate IsSilent(action: Action) {
    action.MoreMySuccess? || action.MoreAvailableSuccess?
  }

  /** The last action that is not silent decides about the error: a failure shows its own
      message, and anything else clears it. */
  lemma {:induction false} LastWordOnError(s: GalleryState, actions: seq<Action>, k: nat)
    requires k < |actions| && !IsSilent(actions[k])
    requires forall j :: k < j < |actions| ==> IsSilent(actions[j])
    ensures After(s, actions).error == if Fails(actions[k]) then Some(actions[k].message) else None
    decreases |actions|
  {
    var n := |actions| - 1;
    if k < n {
      assert IsSilent(actions[n]);
      LastWordOnError(s, actions[..n], k);
    }
  }

  /** No failure moves a gallery or a token. */
  lemma FailuresMoveNothing(s: GalleryState, action: Action)
    requires Fails(action)
    ensures var t := Next(s, action);
            t.my == s.my && t.available == s.available && t.myNext == s.myNext && t.availableNext == s.availableNext
  {
  }
}
