/** The replicated notification service as a transition system.

    Every replica takes deliveries of the queue and puts their notifications on the one
    broadcast log, holds the registry rows of the connections it serves, and applies the log to
    them, in order, each entry once. Applying an entry is a snapshot of the local registry, then
    one send per connection of the snapshot, each followed by a removal of its own if the stream
    refused it, with anything else happening in between. Sessions open, subscribe gallery by
    gallery and close on their own.
 */
module Fanout {
  import opened Common
  import C = Consumer
  import opened Relation

  /** `names` is the consumer's cache, `pos` counts the log entries begun, `todo` are the sends
      of the last one still to do, and `failed` is a connection that has just refused one. */
  datatype Replica = Replica(names: C.Names, rel: Relation, pos: nat, todo: set<UUID>, failed: Option<UUID>)

  /** One streaming call: its replica, the galleries still to subscribe, and whether the
      deferred removal has run. */
  datatype Session = Session(home: nat, pending: seq<UUID>, closed: bool)

  datatype Send = Send(conn: UUID, entry: nat)

  /** `snaps` remembers which connections each replica's snapshot of each log entry held. */
  datatype System = System(
    replicas: seq<Replica>,
    log: seq<C.Notification>,
    sessions: map<UUID, Session>,
    sent: seq<Send>,
    snaps: map<(nat, nat), set<UUID>>)

  datatype Event =
    | Open(home: nat, conn: UUID, user: UUID, galleries: seq<UUID>)
    | SubscribeNext(conn: UUID)
    | Close(conn: UUID)
    | Consume(replica: nat, body: C.Body, w: C.World)
    | Begin(replica: nat)
    | Deliver(replica: nat, conn: UUID, refused: bool)
    | Drop(replica: nat, conn: UUID)

  /** No entry is being applied. */
  predicate Idle(replica: Replica) {
    replica.todo == {} && replica.failed == None
  }

  predicate Enabled(s: System, e: Event) {
    match e
    case Open(home, conn, _, _) => home < |s.replicas| && conn !in s.sessions
    case SubscribeNext(conn) => conn in s.sessions && !s.sessions[conn].closed && s.sessions[conn].pending != []
                                && s.sessions[conn].home < |s.replicas|
    case Close(conn) => conn in s.sessions && !s.sessions[conn].closed && s.sessions[conn].pending == []
                        && s.sessions[conn].home < |s.replicas|
    case Consume(r, _, _) => r < |s.replicas|
    case Begin(r) => r < |s.replicas| && Idle(s.replicas[r]) && s.replicas[r].pos < |s.log|
    case Deliver(r, conn, _) => r < |s.replicas| && s.replicas[r].failed == None
                                && conn in s.replicas[r].todo && s.replicas[r].pos > 0
    case Drop(r, conn) => r < |s.replicas| && s.replicas[r].failed == Some(conn)
  }

  function WithRel(s: System, r: nat, rel: Relation): System
    requires r < |s.replicas|
  {
    s.(replicas := s.replicas[r := s.replicas[r].(rel := rel)])
  }

  function Step(s: System, e: Event): (s': System)
    requires Enabled(s, e)
    ensures |s'.replicas| == |s.replicas|
  {
    match e
    case Open(home, conn, user, galleries) =>
      WithRel(s, home, Created(s.replicas[home].rel, conn, user))
      .(sessions := s.sessions[conn := Session(home, galleries, false)])
    case SubscribeNext(conn) =>
      var session := s.sessions[conn];
      WithRel(s, session.home, Subscribed(s.replicas[session.home].rel, conn, session.pending[0]))
      .(sessions := s.sessions[conn := session.(pending := session.pending[1..])])
    case Close(conn) =>
      var session := s.sessions[conn];
      WithRel(s, session.home, Removed(s.replicas[session.home].rel, conn))
      .(sessions := s.sessions[conn := session.(closed := true)])
    case Consume(r, body, w) =>
      var replica := s.replicas[r];
      s.(replicas := s.replicas[r := replica.(names := C.CacheAfter(replica.names, body, w))],
         log := s.log + C.Emitted(replica.names, body, w))
    case Begin(r) =>
      var replica := s.replicas[r];
      var subs := Subscribers(replica.rel, s.log[replica.pos].gallery);
      s.(replicas := s.replicas[r := replica.(pos := replica.pos + 1, todo := subs)],
         snaps := s.snaps[(r, replica.pos) := subs])
    case Deliver(r, conn, refused) =>
      var replica := s.replicas[r];
      var failed := if refused then Some(conn) else None;
      s.(replicas := s.replicas[r := replica.(todo := replica.todo - {conn}, failed := failed)],
         sent := s.sent + [Send(conn, replica.pos - 1)])
    case Drop(r, conn) =>
      var replica := s.replicas[r];
      s.(replicas := s.replicas[r := replica.(rel := Removed(replica.rel, conn), failed := None)])
  }

  predicate Legal(s: System, es: seq<Event>)
    decreases |es|
  {
    es == [] || (Enabled(s, es[0]) && Legal(Step(s, es[0]), es[1..]))
  }

  function Exec(s: System, es: seq<Event>): (s': System)
    requires Legal(s, es)
    ensures |s'.replicas| == |s.replicas|
    decreases |es|
  {
    if es == [] then s else Exec(Step(s, es[0]), es[1..])
  }

  function Start(replicas: nat): System {
    System(seq(replicas, i => Replica(map[], map[], 0, {}, None)), [], map[], [], map[])
  }

  // ---- What every step keeps ----

  /** A registry row belongs to an open session at its home replica. */
  ghost predicate Housed(s: System) {
    && (forall c <- s.sessions :: s.sessions[c].home < |s.replicas|)
    && (forall r, c :: 0 <= r < |s.replicas| && c in s.replicas[r].rel ==>
          c in s.sessions && s.sessions[c].home == r && !s.sessions[c].closed)
  }

  /** Entry `i` was sent to `c` just when the snapshot `c`'s replica took of it held `c`
      and the send is not one of those still to do. */
  ghost predicate Due(s: System, c: UUID, i: nat) {
    && c in s.sessions
    && s.sessions[c].home < |s.replicas|
    && (s.sessions[c].home, i) in s.snaps
    && c in s.snaps[(s.sessions[c].home, i)]
    && !(c in s.replicas[s.sessions[c].home].todo && i == s.replicas[s.sessions[c].home].pos - 1)
  }

  ghost predicate SnapsKept(s: System) {
    && (forall r: nat, i: nat {:trigger (r, i) in s.snaps} ::
          (r, i) in s.snaps <==> r < |s.replicas| && i < s.replicas[r].pos)
    && (forall r: nat, i: nat, c {:trigger c in s.snaps[(r, i)]} :: (r, i) in s.snaps && c in s.snaps[(r, i)] ==>
          c in s.sessions && s.sessions[c].home == r)
    && (forall r :: 0 <= r < |s.replicas| ==> s.replicas[r].pos <= |s.log|)
    && (forall r :: 0 <= r < |s.replicas| && s.replicas[r].todo != {} ==>
          s.replicas[r].pos > 0 && s.replicas[r].todo <= s.snaps[(r, s.replicas[r].pos - 1)])
  }

  ghost predicate SentIsDue(s: System) {
    forall c, i: nat {:trigger Send(c, i)} :: Send(c, i) in s.sent <==> Due(s, c, i)
  }

  ghost predicate InOrder(s: System) {
    forall a, b :: 0 <= a < b < |s.sent| && s.sent[a].conn == s.sent[b].conn ==> s.sent[a].entry < s.sent[b].entry
  }

  /** A connection that has refused a send is one of its replica's own. */
  ghost predicate FailedHoused(s: System) {
    forall r :: 0 <= r < |s.replicas| && s.replicas[r].failed.Some? ==>
      var c := s.replicas[r].failed.value; c in s.sessions && s.sessions[c].home == r
  }

  ghost predicate Inv(s: System) {
    Housed(s) && SnapsKept(s) && FailedHoused(s) && SentIsDue(s) && InOrder(s)
  }

  lemma SessionHoused(s: System, e: Event)
    requires Housed(s) && Enabled(s, e) && (e.Open? || e.SubscribeNext? || e.Close?)
    ensures Housed(Step(s, e))
  {
  }

  lemma StepHoused(s: System, e: Event)
    requires Housed(s) && Enabled(s, e)
    ensures Housed(Step(s, e))
  {
    if e.Open? || e.SubscribeNext? || e.Close? {
      SessionHoused(s, e);
    } else {
      var s' := Step(s, e);
      assert s'.sessions == s.sessions;
      assert forall r :: 0 <= r < |s.replicas| ==> s'.replicas[r].rel.Keys <= s.replicas[r].rel.Keys;
    }
  }

  /** What no event but the beginning of an entry changes. */
  ghost predicate SameEntries(s: System, t: System) {
    && t.snaps == s.snaps
    && |t.log| >= |s.log|
    && |t.replicas| == |s.replicas|
    && (forall r :: 0 <= r < |s.replicas| ==>
          t.replicas[r].pos == s.replicas[r].pos && t.replicas[r].todo <= s.replicas[r].todo)
    && (forall c <- s.sessions :: c in t.sessions && t.sessions[c].home == s.sessions[c].home)
  }

  lemma StepSameEntries(s: System, e: Event)
    requires Enabled(s, e) && !e.Begin?
    ensures SameEntries(s, Step(s, e))
  {
  }

  lemma SnapsStay(s: System, t: System)
    requires SnapsKept(s) && SameEntries(s, t)
    ensures SnapsKept(t)
  {
  }

  lemma SnapsGrow(s: System, t: System, r: nat, subs: set<UUID>)
    requires SnapsKept(s) && r < |s.replicas| && s.replicas[r].pos < |s.log|
    requires forall c <- subs :: c in s.sessions && s.sessions[c].home == r
    requires t.sessions == s.sessions && t.log == s.log && t.snaps == s.snaps[(r, s.replicas[r].pos) := subs]
    requires t.replicas == s.replicas[r := s.replicas[r].(pos := s.replicas[r].pos + 1, todo := subs)]
    ensures SnapsKept(t)
  {
    assert forall q :: 0 <= q < |s.replicas| && q != r ==> t.replicas[q] == s.replicas[q];
  }

  lemma BeginSnaps(s: System, e: Event)
    requires Housed(s) && SnapsKept(s) && Enabled(s, e) && e.Begin?
    ensures SnapsKept(Step(s, e))
  {
    var replica := s.replicas[e.replica];
    SnapsGrow(s, Step(s, e), e.replica, Subscribers(replica.rel, s.log[replica.pos].gallery));
  }

  lemma StepSnaps(s: System, e: Event)
    requires Housed(s) && SnapsKept(s) && Enabled(s, e)
    ensures SnapsKept(Step(s, e))
  {
    if e.Begin? {
      BeginSnaps(s, e);
    } else {
      StepSameEntries(s, e);
      SnapsStay(s, Step(s, e));
    }
  }

  lemma StepFailed(s: System, e: Event)
    requires Housed(s) && SnapsKept(s) && FailedHoused(s) && Enabled(s, e)
    ensures FailedHoused(Step(s, e))
  {
    if e.Deliver? {
      assert (e.replica, s.replicas[e.replica].pos - 1) in s.snaps;
    }
  }

  lemma DueAfter(s: System, e: Event, c: UUID, k: nat)
    requires Inv(s) && Enabled(s, e)
    ensures Due(Step(s, e), c, k) <==>
            Due(s, c, k) || (e.Deliver? && c == e.conn && k == s.replicas[e.replica].pos - 1)
  {
    if e.Deliver? {
      assert (e.replica, s.replicas[e.replica].pos - 1) in s.snaps;
    }
  }

  lemma StepSent(s: System, e: Event)
    requires Inv(s) && Enabled(s, e)
    ensures SentIsDue(Step(s, e)) && InOrder(Step(s, e))
  {
    var s' := Step(s, e);
    forall c, k: nat ensures Send(c, k) in s'.sent <==> Due(s', c, k) {
      DueAfter(s, e, c, k);
      assert Send(c, k) in s.sent <==> Due(s, c, k);
    }
    if e.Deliver? {
      var i := s.replicas[e.replica].pos - 1;
      assert (e.replica, i) in s.snaps;
      forall a | 0 <= a < |s.sent| && s.sent[a].conn == e.conn ensures s.sent[a].entry < i {
        assert Send(e.conn, s.sent[a].entry) in s.sent;
        assert Due(s, e.conn, s.sent[a].entry);
      }
    }
  }

  lemma StepKeepsInv(s: System, e: Event)
    requires Inv(s) && Enabled(s, e)
    ensures Inv(Step(s, e))
  {
    StepHoused(s, e);
    StepSnaps(s, e);
    StepFailed(s, e);
    StepSent(s, e);
  }

  lemma {:induction false} RunKeepsInv(s: System, es: seq<Event>)
    requires Inv(s) && Legal(s, es)
    ensures Inv(Exec(s, es))
    decreases |es|
  {
    if es != [] {
      StepKeepsInv(s, es[0]);
      RunKeepsInv(Step(s, es[0]), es[1..]);
    }
  }

  lemma FromStart(replicas: nat, es: seq<Event>)
    requires Legal(Start(replicas), es)
    ensures Inv(Exec(Start(replicas), es))
  {
    RunKeepsInv(Start(replicas), es);
  }

  // ---- Who is sent what ----

  /** Every connection is sent log entries in log order, each at most once. */
  lemma SentInLogOrderOnce(replicas: nat, es: seq<Event>, a: nat, b: nat)
    requires Legal(Start(replicas), es)
    requires a < b < |Exec(Start(replicas), es).sent|
    ensures var sent := Exec(Start(replicas), es).sent;
            sent[a] != sent[b] && (sent[a].conn == sent[b].conn ==> sent[a].entry < sent[b].entry)
  {
    FromStart(replicas, es);
  }

  /** Whatever else happens after a replica's snapshot of an entry, once its sends are done
      the entry has gone to exactly the connections of that snapshot. */
  lemma SnapshotIsServed(replicas: nat, es: seq<Event>, r: nat, i: nat)
    requires Legal(Start(replicas), es)
    requires var s := Exec(Start(replicas), es);
             r < |s.replicas| && i < s.replicas[r].pos && (s.replicas[r].todo == {} || i < s.replicas[r].pos - 1)
    ensures var s := Exec(Start(replicas), es);
            && (r, i) in s.snaps
            && forall c :: c in s.sessions && s.sessions[c].home == r ==>
                 (Send(c, i) in s.sent <==> c in s.snaps[(r, i)])
  {
    FromStart(replicas, es);
    var s := Exec(Start(replicas), es);
    assert (r, i) in s.snaps;
    forall c | c in s.sessions && s.sessions[c].home == r
      ensures Send(c, i) in s.sent <==> c in s.snaps[(r, i)]
    {
      assert Send(c, i) in s.sent <==> Due(s, c, i);
    }
  }

  // ---- One registry ----

  /** All replicas' rows together. */
  function Merged(s: System): Relation
    requires forall c <- s.sessions :: s.sessions[c].home < |s.replicas|
  {
    map c | c in s.sessions && c in s.replicas[s.sessions[c].home].rel :: s.replicas[s.sessions[c].home].rel[c]
  }

  /** What an event does to a registry that nobody has divided. */
  function OneRegistry(s: System, rel: Relation, e: Event): Relation
    requires Enabled(s, e)
  {
    match e
    case Open(_, conn, user, _) => Created(rel, conn, user)
    case SubscribeNext(conn) => Subscribed(rel, conn, s.sessions[conn].pending[0])
    case Close(conn) => Removed(rel, conn)
    case Drop(_, conn) => Removed(rel, conn)
    case _ => rel
  }

  /** The divided registry changes as one registry would. */
  lemma DividedRegistryIsOne(s: System, e: Event)
    requires Inv(s) && Enabled(s, e)
    ensures Housed(Step(s, e)) && Merged(Step(s, e)) == OneRegistry(s, Merged(s), e)
  {
    StepHoused(s, e);
    var after, expected := Merged(Step(s, e)), OneRegistry(s, Merged(s), e);
    forall c ensures SameRow(after, expected, c) {
      RowAfter(s, e, c);
    }
    SameRows(after, expected);
  }

  /** A replica's snapshot is the one registry's subscribers that live there. */
  lemma SnapshotOfOneRegistry(s: System, r: nat)
    requires Inv(s) && Enabled(s, Begin(r))
    ensures Step(s, Begin(r)).snaps[(r, s.replicas[r].pos)]
            == set c | c in Subscribers(Merged(s), s.log[s.replicas[r].pos].gallery) && s.sessions[c].home == r
  {
  }

  lemma RowAfterOpen(s: System, e: Event, c: UUID)
    requires Inv(s) && Enabled(s, e) && e.Open?
    ensures Housed(Step(s, e)) && SameRow(Merged(Step(s, e)), OneRegistry(s, Merged(s), e), c)
  {
    StepHoused(s, e);
    assert c != e.conn ==> (c in Merged(Step(s, e)) <==> c in Merged(s));
  }

  lemma RowAfterSession(s: System, e: Event, c: UUID)
    requires Inv(s) && Enabled(s, e) && (e.SubscribeNext? || e.Close?)
    ensures Housed(Step(s, e)) && SameRow(Merged(Step(s, e)), OneRegistry(s, Merged(s), e), c)
  {
    StepHoused(s, e);
    assert c != e.conn ==> (c in Merged(Step(s, e)) <==> c in Merged(s));
  }

  /** The same, one connection at a time. */
  lemma RowAfter(s: System, e: Event, c: UUID)
    requires Inv(s) && Enabled(s, e)
    ensures Housed(Step(s, e))
    ensures SameRow(Merged(Step(s, e)), OneRegistry(s, Merged(s), e), c)
  {
    StepHoused(s, e);
    if e.Open? {
      RowAfterOpen(s, e, c);
    } else if e.SubscribeNext? || e.Close? {
      RowAfterSession(s, e, c);
    } else if e.Drop? {
      assert c != e.conn ==> (c in Merged(Step(s, e)) <==> c in Merged(s));
    } else {
      assert c in Merged(Step(s, e)) <==> c in Merged(s);
    }
  }

  // ---- Removal ----

  /** A removed connection never reappears in any replica's registry. */
  lemma {:induction false} RemovedStaysRemoved(s: System, es: seq<Event>, c: UUID)
    requires Inv(s) && Legal(s, es)
    requires c in s.sessions && c !in Merged(s)
    ensures Inv(Exec(s, es))
    ensures c in Exec(s, es).sessions && c !in Merged(Exec(s, es))
    decreases |es|
  {
    if es != [] {
      StepKeepsInv(s, es[0]);
      DividedRegistryIsOne(s, es[0]);
      RemovedStaysRemoved(Step(s, es[0]), es[1..], c);
    }
  }

  predicate Removes(e: Event, c: UUID) {
    (e.Close? || e.Drop?) && e.conn == c
  }

  /** What one event does to a connection's row in an undivided registry. */
  ghost predicate RowMoves(s: System, e: Event, c: UUID, before: Relation, after: Relation)
    requires Enabled(s, e)
  {
    && (c in after <==> c in before && !Removes(e, c))
    && (c in after ==>
          after[c] == if e.SubscribeNext? && e.conn == c
                      then Entry(before[c].user, before[c].galleries + {s.sessions[c].pending[0]}) else before[c])
  }

  lemma OneRegistryMoves(s: System, e: Event, c: UUID, rel: Relation)
    requires Enabled(s, e) && c in s.sessions
    ensures RowMoves(s, e, c, rel, OneRegistry(s, rel, e))
  {
  }

  lemma PendingStep(s: System, e: Event, c: UUID)
    requires Enabled(s, e) && c in s.sessions
    ensures c in Step(s, e).sessions
    ensures var before, after := s.sessions[c].pending, Step(s, e).sessions[c].pending;
            if e.SubscribeNext? && e.conn == c then before != [] && after == before[1..] else after == before
  {
  }

  lemma RowStep(s: System, e: Event, c: UUID)
    requires Inv(s) && Enabled(s, e) && c in s.sessions
    ensures Inv(Step(s, e)) && RowMoves(s, e, c, Merged(s), Merged(Step(s, e)))
  {
    StepKeepsInv(s, e);
    RowAfter(s, e, c);
    OneRegistryMoves(s, e, c, Merged(s));
  }

  lemma OneOrRest(es: seq<Event>, c: UUID)
    requires es != []
    ensures (forall e <- es :: !Removes(e, c)) <==> !Removes(es[0], c) && forall e <- es[1..] :: !Removes(e, c)
  {
    assert es[0] in es && forall e <- es :: e == es[0] || e in es[1..];
  }

  /** A row goes with its session's deferred removal or with the removal after a refused send,
      and with nothing else. */
  lemma {:induction false} SurvivesUnlessRemoved(s: System, es: seq<Event>, c: UUID)
    requires Inv(s) && Legal(s, es) && c in s.sessions
    ensures Inv(Exec(s, es))
    ensures c in Merged(Exec(s, es)) <==> c in Merged(s) && forall e <- es :: !Removes(e, c)
    decreases |es|
  {
    if es != [] {
      RowStep(s, es[0], c);
      PendingStep(s, es[0], c);
      SurvivesUnlessRemoved(Step(s, es[0]), es[1..], c);
      OneOrRest(es, c);
    }
  }

  /** The connection's replica has still to remove it after a refused send. */
  predicate Failing(s: System, c: UUID) {
    c in s.sessions && s.sessions[c].home < |s.replicas| && s.replicas[s.sessions[c].home].failed == Some(c)
  }

  predicate Refuses(e: Event, c: UUID) {
    e.Deliver? && e.conn == c && e.refused
  }

  predicate Drops(e: Event, c: UUID) {
    e.Drop? && e.conn == c
  }

  lemma RefusalStep(s: System, e: Event, c: UUID)
    requires Inv(s) && Enabled(s, e) && c in s.sessions
    ensures c in Step(s, e).sessions
    ensures Failing(Step(s, e), c) <==> Refuses(e, c) || (Failing(s, c) && !Drops(e, c))
    ensures Drops(e, c) ==> Failing(s, c)
    ensures Refuses(e, c) ==> !Failing(s, c)
  {
    if e.Deliver? {
      assert (e.replica, s.replicas[e.replica].pos - 1) in s.snaps;
    }
  }

  /** After the k-th event the connection is removed before another send to it is refused. */
  predicate DroppedFirst(es: seq<Event>, c: UUID, k: int, j: int) {
    -1 <= k < j < |es| && Drops(es[j], c) && forall l :: k < l < j ==> !Refuses(es[l], c)
  }

  /** Once a send has been refused, no other is refused before the removal. */
  lemma {:induction false} DroppedNext(s: System, es: seq<Event>, c: UUID)
    requires Inv(s) && Legal(s, es) && Failing(s, c) && !Failing(Exec(s, es), c)
    ensures exists j :: DroppedFirst(es, c, -1, j)
    decreases |es|
  {
    RefusalStep(s, es[0], c);
    if !Drops(es[0], c) {
      StepKeepsInv(s, es[0]);
      DroppedNext(Step(s, es[0]), es[1..], c);
      var j :| DroppedFirst(es[1..], c, -1, j);
      assert forall l :: 0 < l < j + 1 ==> es[l] == es[1..][l - 1];
      assert DroppedFirst(es, c, -1, j + 1);
    } else {
      assert DroppedFirst(es, c, -1, 0);
    }
  }

  /** Each refused send is followed by a removal of its own: the next removal comes before the
      next refusal. */
  lemma {:induction false} EachRefusalHasItsRemoval(s: System, es: seq<Event>, c: UUID, k: nat)
    requires Inv(s) && Legal(s, es) && c in s.sessions && !Failing(Exec(s, es), c)
    requires k < |es| && Refuses(es[k], c)
    ensures exists j :: DroppedFirst(es, c, k, j)
    decreases |es|
  {
    StepKeepsInv(s, es[0]);
    RefusalStep(s, es[0], c);
    var rest := es[1..];
    var at := if k == 0 then -1 else k - 1;
    if k == 0 {
      DroppedNext(Step(s, es[0]), rest, c);
    } else {
      EachRefusalHasItsRemoval(Step(s, es[0]), rest, c, k - 1);
    }
    var j :| DroppedFirst(rest, c, at, j);
    assert forall l :: k < l < j + 1 ==> es[l] == rest[l - 1];
    assert DroppedFirst(es, c, k, j + 1);
  }

  predicate RefusedLast(es: seq<Event>, c: UUID, j: int, k: int) {
    0 <= j < k <= |es| && Refuses(es[j], c) && forall l :: j < l < k ==> !Drops(es[l], c)
  }

  lemma {:induction false} BehindRemoval(s: System, es: seq<Event>, c: UUID, k: nat)
    requires Inv(s) && Legal(s, es) && c in s.sessions
    requires k < |es| && Drops(es[k], c)
    ensures (Failing(s, c) && forall l :: 0 <= l < k ==> !Drops(es[l], c)) || exists j :: RefusedLast(es, c, j, k)
    decreases |es|
  {
    var e, rest := es[0], es[1..];
    RefusalStep(s, e, c);
    if k > 0 {
      StepKeepsInv(s, e);
      BehindRemoval(Step(s, e), rest, c, k - 1);
      var m := k - 1;
      if exists j :: RefusedLast(rest, c, j, m) {
        var j :| RefusedLast(rest, c, j, m);
        assert forall l :: j + 1 < l < k ==> es[l] == rest[l - 1];
        assert RefusedLast(es, c, j + 1, k);
      } else {
        assert forall l :: 0 < l < k ==> es[l] == rest[l - 1];
        assert Refuses(e, c) ==> RefusedLast(es, c, 0, k);
      }
    }
  }

  /** Each removal after a refusal has a refused send of its own before it. */
  lemma EachRemovalHasItsRefusal(s: System, es: seq<Event>, c: UUID, k: nat)
    requires Inv(s) && Legal(s, es) && c in s.sessions && !Failing(s, c)
    requires k < |es| && Drops(es[k], c)
    ensures exists j :: RefusedLast(es, c, j, k)
  {
    BehindRemoval(s, es, c, k);
  }

  /** In all, there are refused sends to a connection just when there are such removals. */
  lemma {:induction false} RefusedIffDropped(s: System, es: seq<Event>, c: UUID)
    requires Inv(s) && Legal(s, es) && c in s.sessions
    ensures Failing(s, c) || (exists e <- es :: Refuses(e, c))
            <==> Failing(Exec(s, es), c) || (exists e <- es :: Drops(e, c))
    decreases |es|
  {
    if es != [] {
      var e, rest := es[0], es[1..];
      StepKeepsInv(s, e);
      RefusalStep(s, e, c);
      RefusedIffDropped(Step(s, e), rest, c);
      assert (exists f <- es :: Refuses(f, c)) <==> Refuses(e, c) || exists f <- rest :: Refuses(f, c) by {
        assert e in es && forall f <- es :: f == e || f in rest;
      }
      assert (exists f <- es :: Drops(f, c)) <==> Drops(e, c) || exists f <- rest :: Drops(f, c) by {
        assert e in es && forall f <- es :: f == e || f in rest;
      }
    }
  }

  /** Between states in which no removal of it is outstanding, a connection keeps its row if
      and only if its session did not close and no send to it was refused. */
  lemma RemovedExactlyWhenRefused(s: System, es: seq<Event>, c: UUID)
    requires Inv(s) && Legal(s, es) && c in s.sessions
    requires !Failing(s, c) && !Failing(Exec(s, es), c)
    ensures Inv(Exec(s, es))
    ensures c in Merged(Exec(s, es)) <==>
            c in Merged(s) && forall e <- es :: !(e.Close? && e.conn == c) && !Refuses(e, c)
  {
    SurvivesUnlessRemoved(s, es, c);
    RefusedIffDropped(s, es, c);
    assert forall e <- es :: Removes(e, c) <==> (e.Close? && e.conn == c) || Drops(e, c);
  }

  /** What a surviving row gains are the galleries its session has subscribed meanwhile. */
  ghost predicate Gained(before: Entry, after: Entry, pending: seq<UUID>, left: seq<UUID>) {
    && |left| <= |pending|
    && left == pending[|pending| - |left|..]
    && after == Entry(before.user, before.galleries + Elements(pending[..|pending| - |left|]))
  }

  lemma GainedMore(a: Entry, b: Entry, c: Entry, pending: seq<UUID>, left: seq<UUID>)
    requires pending != [] && b == Entry(a.user, a.galleries + {pending[0]}) && Gained(b, c, pending[1..], left)
    ensures Gained(a, c, pending, left)
  {
    var k := |pending| - |left|;
    assert pending[..k] == [pending[0]] + pending[1..][..k - 1];
    assert Elements(pending[..k]) == {pending[0]} + Elements(pending[1..][..k - 1]);
    assert a.galleries + Elements(pending[..k]) == (a.galleries + {pending[0]}) + Elements(pending[1..][..k - 1]);
  }

  /** In a surviving row nothing changes but what its own session subscribes to. */
  lemma {:induction false} SurvivingRow(s: System, es: seq<Event>, c: UUID)
    requires Inv(s) && Legal(s, es) && c in s.sessions && Inv(Exec(s, es))
    requires c in Merged(s) && c in Merged(Exec(s, es))
    ensures c in Exec(s, es).sessions
    ensures Gained(Merged(s)[c], Merged(Exec(s, es))[c], s.sessions[c].pending, Exec(s, es).sessions[c].pending)
    decreases |es|
  {
    if es == [] {
      assert s.sessions[c].pending[..0] == [];
      assert Merged(s)[c].galleries + Elements([]) == Merged(s)[c].galleries;
    } else {
      var s1, end := Step(s, es[0]), Exec(s, es);
      RowStep(s, es[0], c);
      PendingStep(s, es[0], c);
      SurvivesUnlessRemoved(s1, es[1..], c);
      SurvivingRow(s1, es[1..], c);
      if es[0].SubscribeNext? && es[0].conn == c {
        GainedMore(Merged(s)[c], Merged(s1)[c], Merged(end)[c], s.sessions[c].pending, end.sessions[c].pending);
      }
    }
  }

  /** Once every session has run its deferred removal, no replica holds anything. */
  lemma NothingLeaks(replicas: nat, es: seq<Event>, r: nat)
    requires Legal(Start(replicas), es) && r < replicas
    requires AllClosed(Exec(Start(replicas), es))
    ensures Exec(Start(replicas), es).replicas[r].rel == map[]
  {
    FromStart(replicas, es);
    var s := Exec(Start(replicas), es);
    var rows := s.replicas[r].rel;
    assert forall c <- s.sessions :: c !in rows;
    assert rows.Keys <= s.sessions.Keys;
    assert rows.Keys == {};
  }

  ghost predicate AllClosed(s: System) {
    forall c <- s.sessions :: s.sessions[c].closed
  }

  // ---- Subscribers under interference ----

  predicate Subscribes(s: System, c: UUID, gallery: UUID) {
    && c in s.sessions
    && s.sessions[c].home < |s.replicas|
    && c in s.replicas[s.sessions[c].home].rel
    && gallery in s.replicas[s.sessions[c].home].rel[c].galleries
  }

  /** In every state of the run, `c` is registered for the gallery just when `yes` says so. */
  predicate Throughout(s: System, es: seq<Event>, c: UUID, gallery: UUID, yes: bool)
    requires Legal(s, es)
    decreases |es|
  {
    (Subscribes(s, c, gallery) <==> yes) && (es == [] || Throughout(Step(s, es[0]), es[1..], c, gallery, yes))
  }

  lemma {:induction false} RunOnlyAdds(s: System, es: seq<Event>)
    requires Inv(s) && Legal(s, es)
    ensures var s' := Exec(s, es);
            && s.log <= s'.log
            && |s.replicas| == |s'.replicas|
            && (forall k <- s.snaps :: k in s'.snaps && s'.snaps[k] == s.snaps[k])
            && (forall c <- s.sessions :: c in s'.sessions && s'.sessions[c].home == s.sessions[c].home)
    decreases |es|
  {
    if es != [] {
      StepKeepsInv(s, es[0]);
      if es[0].Begin? {
        assert (es[0].replica, s.replicas[es[0].replica].pos) !in s.snaps;
      }
      RunOnlyAdds(Step(s, es[0]), es[1..]);
    }
  }

  /** Registrations that hold, or fail to hold, throughout decide the snapshot of every
      entry begun on the way. */
  lemma {:induction false} SteadySnapshot(s: System, es: seq<Event>, c: UUID, i: nat, yes: bool)
    requires Inv(s) && Legal(s, es) && c in s.sessions
    requires s.replicas[s.sessions[c].home].pos <= i < Exec(s, es).replicas[s.sessions[c].home].pos
    requires i < |Exec(s, es).log| && Throughout(s, es, c, Exec(s, es).log[i].gallery, yes)
    ensures (s.sessions[c].home, i) in Exec(s, es).snaps
    ensures c in Exec(s, es).snaps[(s.sessions[c].home, i)] <==> yes
    decreases |es|
  {
    var home, s' := s.sessions[c].home, Exec(s, es);
    RunKeepsInv(s, es);
    assert (home, i) in s'.snaps;
    if es != [] {
      var s1 := Step(s, es[0]);
      StepKeepsInv(s, es[0]);
      RunOnlyAdds(s1, es[1..]);
      if es[0] == Begin(home) && s.replicas[home].pos == i {
        assert (home, i) in s1.snaps;
      } else {
        SteadySnapshot(s1, es[1..], c, i, yes);
      }
    }
  }

  /** A connection registered for a gallery all along is sent every one of its entries that
      its replica serves on the way exactly once; one that is never registered is sent none. */
  lemma SteadySubscriber(s: System, es: seq<Event>, c: UUID, i: nat, yes: bool)
    requires Inv(s) && Legal(s, es) && c in s.sessions
    requires var home, s' := s.sessions[c].home, Exec(s, es);
             && s.replicas[home].pos <= i < s'.replicas[home].pos
             && (s'.replicas[home].todo == {} || i < s'.replicas[home].pos - 1)
             && i < |s'.log|
             && Throughout(s, es, c, s'.log[i].gallery, yes)
    ensures Send(c, i) in Exec(s, es).sent <==> yes
  {
    var s' := Exec(s, es);
    RunKeepsInv(s, es);
    SteadySnapshot(s, es, c, i, yes);
    RunOnlyAdds(s, es);
    assert Send(c, i) in s'.sent <==> Due(s', c, i);
  }

  ghost predicate Quiet(es: seq<Event>) {
    forall e <- es :: e.Consume? || e.Begin? || (e.Deliver? && !e.refused)
  }

  lemma QuietStep(s: System, e: Event, c: UUID, gallery: UUID)
    requires Inv(s) && Enabled(s, e) && Quiet([e])
    ensures Inv(Step(s, e)) && Step(s, e).sessions == s.sessions
    ensures Subscribes(Step(s, e), c, gallery) == Subscribes(s, c, gallery)
  {
    assert e in [e];
    StepKeepsInv(s, e);
  }

  lemma {:induction false} QuietRun(s: System, es: seq<Event>, c: UUID, gallery: UUID)
    requires Inv(s) && Legal(s, es) && Quiet(es)
    ensures Inv(Exec(s, es))
    ensures Exec(s, es).sessions == s.sessions
    ensures Throughout(s, es, c, gallery, Subscribes(s, c, gallery))
    decreases |es|
  {
    if es != [] {
      QuietStep(s, es[0], c, gallery);
      QuietRun(Step(s, es[0]), es[1..], c, gallery);
    }
  }

  /** When no registration changes while an entry goes round, the replicas together send it
      to exactly the subscribers one undivided registry would have had. */
  lemma FanoutIsOneNotify(s: System, es: seq<Event>, i: nat, c: UUID)
    requires Inv(s) && Legal(s, es) && Quiet(es)
    requires var s' := Exec(s, es);
             && (forall r :: 0 <= r < |s.replicas| ==> s.replicas[r].pos <= i)
             && (forall r :: 0 <= r < |s'.replicas| ==> i < s'.replicas[r].pos && s'.replicas[r].todo == {})
             && i < |s'.log|
    ensures Send(c, i) in Exec(s, es).sent <==> c in Subscribers(Merged(s), Exec(s, es).log[i].gallery)
  {
    var s' := Exec(s, es);
    var gallery := s'.log[i].gallery;
    QuietRun(s, es, c, gallery);
    RunOnlyAdds(s, es);
    if c in s.sessions {
      SteadySubscriber(s, es, c, i, Subscribes(s, c, gallery));
    } else {
      assert Send(c, i) in s'.sent <==> Due(s', c, i);
    }
  }

  // ---- From deliveries to the log, and on to the connections ----

  /** The deliveries handled in a run, with who handled them. */
  ghost function HandledIn(es: seq<Event>): seq<C.Handling> {
    if es == [] then []
    else (if es[0].Consume? then [C.Handling(es[0].replica, es[0].body, es[0].w)] else []) + HandledIn(es[1..])
  }

  function Caches(s: System): seq<C.Names> {
    seq(|s.replicas|, r requires 0 <= r < |s.replicas| => s.replicas[r].names)
  }

  lemma CachesStep(s: System, e: Event)
    requires Enabled(s, e)
    ensures Caches(Step(s, e))
            == if e.Consume? then Caches(s)[e.replica := C.CacheAfter(s.replicas[e.replica].names, e.body, e.w)]
               else Caches(s)
  {
    if e.Consume? {
      assert Step(s, e).replicas[e.replica].names == C.CacheAfter(s.replicas[e.replica].names, e.body, e.w);
    }
  }

  /** An event adds to the log exactly when it handles a delivery that publishes; what it adds
      says what that delivery's event said. */
  lemma LogStep(s: System, e: Event)
    requires Enabled(s, e)
    ensures var log := Step(s, e).log;
            if e.Consume? && C.Publishes(e.body, e.w)
            then |log| == |s.log| + 1 && log[..|s.log|] == s.log && C.Tells(log[|s.log|], e.body, e.w)
            else log == s.log
  {
    if e.Consume? {
      C.PublicationTells(s.replicas[e.replica].names, e.body, e.w);
    }
  }

  lemma HandledStep(s: System, e: Event, es: seq<Event>, hs: seq<C.Handling>)
    requires Enabled(s, e) && C.Staffed(hs, |s.replicas|)
    ensures var h := if e.Consume? then [C.Handling(e.replica, e.body, e.w)] else [];
            && C.Staffed(h + hs, |s.replicas|)
            && s.log + C.SharedPublications(Caches(s), h + hs)
               == Step(s, e).log + C.SharedPublications(Caches(Step(s, e)), hs)
  {
    CachesStep(s, e);
    if e.Consume? {
      C.SharedStep(s.log, Caches(s), C.Handling(e.replica, e.body, e.w), hs);
    } else {
      assert [] + hs == hs;
      LogStep(s, e);
    }
  }

  /** In every run the log is what the deliveries handled publish, each by the cache of the
      replica that handled it. */
  lemma {:induction false} LogIsWhatWasHandled(s: System, es: seq<Event>)
    requires Legal(s, es)
    ensures C.Staffed(HandledIn(es), |s.replicas|)
    ensures Exec(s, es).log == s.log + C.SharedPublications(Caches(s), HandledIn(es))
    decreases |es|
  {
    if es == [] {
      assert s.log + [] == s.log;
    } else {
      LogIsWhatWasHandled(Step(s, es[0]), es[1..]);
      HandledStep(s, es[0], es[1..], HandledIn(es[1..]));
    }
  }

  /** From the start: the log has one entry for each delivery handled that publishes, in the
      order of handling, and each says what its own event said. */
  lemma LogCorresponds(replicas: nat, es: seq<Event>)
    requires Legal(Start(replicas), es)
    ensures C.Staffed(HandledIn(es), replicas)
    ensures C.Correspond(Exec(Start(replicas), es).log, C.BodiesOf(HandledIn(es)), C.WorldsOf(HandledIn(es)))
    ensures Exec(Start(replicas), es).log == C.SharedPublications(seq(replicas, _ => map[]), HandledIn(es))
  {
    LogIsWhatWasHandled(Start(replicas), es);
    assert Caches(Start(replicas)) == seq(replicas, _ => map[]);
    C.SharedPublicationsCorrespond(Caches(Start(replicas)), HandledIn(es));
    assert [] + C.SharedPublications(Caches(Start(replicas)), HandledIn(es))
        == C.SharedPublications(Caches(Start(replicas)), HandledIn(es));
  }

  /** From the delivery of an event about a gallery to the connections: whichever replica handles
      it and whatever else happens, once a connection's own replica has served the entry, a
      connection registered for the gallery throughout has been sent it, and one never
      registered has not; and the entry says what the event said. */
  lemma PublishedReachesSubscribers(s: System, e: Event, es: seq<Event>, c: UUID, yes: bool)
    requires Inv(s) && Enabled(s, e) && e.Consume? && C.Publishes(e.body, e.w)
    requires Legal(Step(s, e), es) && c in s.sessions
    requires Throughout(Step(s, e), es, c, e.body.payload.gallery, yes)
    requires var home, end := s.sessions[c].home, Exec(Step(s, e), es);
             |s.log| < end.replicas[home].pos && (end.replicas[home].todo == {} || |s.log| < end.replicas[home].pos - 1)
    ensures var end := Exec(Step(s, e), es);
            && |s.log| < |end.log|
            && C.Tells(end.log[|s.log|], e.body, e.w)
            && (Send(c, |s.log|) in end.sent <==> yes)
  {
    var s1, i := Step(s, e), |s.log|;
    StepKeepsInv(s, e);
    LogStep(s, e);
    RunOnlyAdds(s1, es);
    assert Exec(s1, es).log[i] == s1.log[i];
    SteadySubscriber(s1, es, c, i, yes);
  }

  lemma {:induction false} OneMoreEvent(s: System, es: seq<Event>, e: Event)
    requires Legal(s, es) && Enabled(Exec(s, es), e)
    ensures Legal(s, es + [e]) && Exec(s, es + [e]) == Step(Exec(s, es), e)
    decreases |es|
  {
    if es == [] {
      assert (es + [e])[1..] == [];
    } else {
      OneMoreEvent(Step(s, es[0]), es[1..], e);
      assert (es + [e])[1..] == es[1..] + [e];
    }
  }

  lemma OpenedRow(s: System, e: Event)
    requires Inv(s) && Enabled(s, e) && e.Open?
    ensures var s1 := Step(s, e);
            && Inv(s1) && e.conn in s1.sessions && s1.sessions[e.conn].pending == e.galleries
            && e.conn in Merged(s1) && Merged(s1)[e.conn] == Entry(e.user, {})
  {
    StepKeepsInv(s, e);
    RowAfter(s, e, e.conn);
  }

  lemma GainedAll(user: UUID, after: Entry, galleries: seq<UUID>)
    requires Gained(Entry(user, {}), after, galleries, [])
    ensures after == Entry(user, Elements(galleries))
  {
    assert galleries[..|galleries|] == galleries;
    assert {} + Elements(galleries) == Elements(galleries);
  }

  /** A session that has subscribed all it resolved is registered for exactly that, unless it
      has been removed. */
  lemma OpenedIsRegistered(s: System, e: Event, es: seq<Event>)
    requires Inv(s) && Enabled(s, e) && e.Open? && Legal(Step(s, e), es)
    requires forall f <- es :: !Removes(f, e.conn)
    requires e.conn in Exec(Step(s, e), es).sessions && Exec(Step(s, e), es).sessions[e.conn].pending == []
    ensures var end := Exec(Step(s, e), es);
            Inv(end) && e.conn in Merged(end) && Merged(end)[e.conn] == Entry(e.user, Elements(e.galleries))
  {
    OpenedRow(s, e);
    SurvivesUnlessRemoved(Step(s, e), es, e.conn);
    SurvivingRow(Step(s, e), es, e.conn);
    GainedAll(e.user, Merged(Exec(Step(s, e), es))[e.conn], e.galleries);
  }

  /** A session opens, subscribes, and an event about its gallery is delivered. */
  ghost function OneDelivery(body: C.Body, w: C.World): seq<Event>
    requires C.Publishes(body, w)
  {
    [Open(0, 1, 7, [body.payload.gallery])] + [SubscribeNext(1)] + [Consume(0, body, w)] + [Begin(0)] + [Deliver(0, 1, false)]
  }

  /** Such a run is possible and ends with the notification sent. */
  lemma OneDeliveryIsSent(body: C.Body, w: C.World)
    requires C.Publishes(body, w)
    ensures var es := OneDelivery(body, w);
            Legal(Start(1), es) && Exec(Start(1), es).sent == [Send(1, 0)]
  {
    var gallery := body.payload.gallery;
    var begin := [Open(0, 1, 7, [gallery])];
    OneMoreEvent(Start(1), [], Open(0, 1, 7, [gallery]));
    assert [] + begin == begin;
    OneMoreEvent(Start(1), begin, SubscribeNext(1));
    var subscribed := begin + [SubscribeNext(1)];
    LogStep(Exec(Start(1), subscribed), Consume(0, body, w));
    OneMoreEvent(Start(1), subscribed, Consume(0, body, w));
    var handled := subscribed + [Consume(0, body, w)];
    OneMoreEvent(Start(1), handled, Begin(0));
    var begun := handled + [Begin(0)];
    assert Exec(Start(1), begun).replicas[0].todo == {1};
    OneMoreEvent(Start(1), begun, Deliver(0, 1, false));
  }

  /** A replica that is behind the log or in the middle of an entry can always go on. */
  lemma ReplicasCanGoOn(s: System, r: nat)
    requires Inv(s) && r < |s.replicas| && (s.replicas[r].pos < |s.log| || !Idle(s.replicas[r]))
    ensures exists e :: Enabled(s, e) && (e.Begin? || e.Deliver? || e.Drop?) && e.replica == r
  {
    var replica := s.replicas[r];
    if replica.failed.Some? {
      assert Enabled(s, Drop(r, replica.failed.value));
    } else if replica.todo != {} {
      var c :| c in replica.todo;
      assert Enabled(s, Deliver(r, c, false));
    } else {
      assert Enabled(s, Begin(r));
    }
  }

  // ---- Which replica handles a delivery does not matter ----

  /** The same event, except that a delivery may be handled by another replica, which may be
      answered otherwise. */
  ghost predicate SameEvent(e: Event, f: Event, replicas: nat) {
    if e.Consume? then f.Consume? && f.replica < replicas && f.body == e.body && f.w.accepts == e.w.accepts else f == e
  }

  predicate SameReplica(a: Replica, b: Replica) {
    a.(names := map[]) == b.(names := map[])
  }

  /** States that differ at most in the caches, and in the identifiers and names published. */
  ghost predicate Alike(s: System, t: System) {
    && |s.replicas| == |t.replicas|
    && (forall r :: 0 <= r < |s.replicas| ==> SameReplica(s.replicas[r], t.replicas[r]))
    && C.Essences(s.log) == C.Essences(t.log)
    && s.sessions == t.sessions && s.sent == t.sent && s.snaps == t.snaps
  }

  lemma AlikeLogs(a: seq<C.Notification>, b: seq<C.Notification>)
    requires C.Essences(a) == C.Essences(b)
    ensures |a| == |b| && forall i :: 0 <= i < |a| ==> a[i].gallery == b[i].gallery
  {
    assert |C.Essences(a)| == |a| && |C.Essences(b)| == |b|;
    forall i | 0 <= i < |a| ensures a[i].gallery == b[i].gallery {
      assert C.Essences(a)[i] == C.Essences(b)[i];
    }
  }

  lemma AlikeConsume(s: System, t: System, e: Event, f: Event)
    requires Alike(s, t) && Enabled(s, e) && e.Consume? && SameEvent(e, f, |s.replicas|)
    ensures Enabled(t, f) && Alike(Step(s, e), Step(t, f))
  {
    var m, n := s.replicas[e.replica].names, t.replicas[f.replica].names;
    C.SameEssence(m, n, e.body, e.w, f.w);
    C.EssencesJoin(s.log, C.Emitted(m, e.body, e.w));
    C.EssencesJoin(t.log, C.Emitted(n, f.body, f.w));
  }

  lemma AlikeStep(s: System, t: System, e: Event, f: Event)
    requires Alike(s, t) && Enabled(s, e) && SameEvent(e, f, |s.replicas|)
    requires forall c <- s.sessions :: s.sessions[c].home < |s.replicas|
    ensures Enabled(t, f) && Alike(Step(s, e), Step(t, f))
  {
    AlikeLogs(s.log, t.log);
    if e.Consume? {
      AlikeConsume(s, t, e, f);
    } else if !e.Open? && !e.SubscribeNext? && !e.Close? {
      assert SameReplica(s.replicas[e.replica], t.replicas[e.replica]);
    } else {
      var home := if e.Open? then e.home else s.sessions[e.conn].home;
      assert SameReplica(s.replicas[home], t.replicas[home]);
    }
  }

  lemma {:induction false} AlikeRuns(s: System, t: System, es: seq<Event>, fs: seq<Event>)
    requires Inv(s) && Alike(s, t) && Legal(s, es) && |es| == |fs|
    requires forall i :: 0 <= i < |es| ==> SameEvent(es[i], fs[i], |s.replicas|)
    ensures Legal(t, fs) && Alike(Exec(s, es), Exec(t, fs))
    decreases |es|
  {
    if es != [] {
      StepKeepsInv(s, es[0]);
      AlikeStep(s, t, es[0], fs[0]);
      AlikeRuns(Step(s, es[0]), Step(t, fs[0]), es[1..], fs[1..]);
    }
  }

  /** Two runs that differ only in which replica handles each delivery, and in what it is
      answered, send the same entries to the same connections in the same order, and the
      entries are the same but for random identifiers and names. */
  lemma SendsDoNotDependOnConsumers(replicas: nat, es: seq<Event>, fs: seq<Event>)
    requires Legal(Start(replicas), es) && |es| == |fs|
    requires forall i :: 0 <= i < |es| ==> SameEvent(es[i], fs[i], replicas)
    ensures Legal(Start(replicas), fs)
    ensures var s, t := Exec(Start(replicas), es), Exec(Start(replicas), fs);
            && s.sent == t.sent
            && C.Essences(s.log) == C.Essences(t.log)
            && s.sessions == t.sessions
            && forall r :: 0 <= r < replicas ==> s.replicas[r].rel == t.replicas[r].rel
  {
    AlikeRuns(Start(replicas), Start(replicas), es, fs);
    var s, t := Exec(Start(replicas), es), Exec(Start(replicas), fs);
    assert forall r :: 0 <= r < replicas ==> SameReplica(s.replicas[r], t.replicas[r]);
  }
}
