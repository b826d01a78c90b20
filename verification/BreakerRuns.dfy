/** Whole runs of the circuit breaker under any number of concurrent callers. */
module BreakerRuns {
  import opened Breaker

  /** A call between its two critical sections. */
  datatype Flight = Flight(admitted: int, probe: bool)

  /** What an outside observer sees. */
  datatype Observation =
    | Admitted(at: int)
    | Turned(at: int)
    | Finished(failed: bool, at: int)

  datatype System = System(b: Core, now: int, flights: map<nat, Flight>, history: seq<Observation>)

  /** One critical section of one call, at some reading of the clock. */
  datatype Event =
    | Arrive(id: nat, at: int)
    | Finish(id: nat, failed: bool, at: int)

  function Start(now: int): System {
    System(FRESH, now, map[], [])
  }

  predicate Enabled(s: System, e: Event) {
    e.at >= s.now && (e.Arrive? <==> e.id !in s.flights)
  }

  function Step(cfg: Config, s: System, e: Event): System {
    match e
    case Arrive(id, at) =>
      var (b, admitted) := Admit(cfg, s.b, at);
      if admitted
      then System(b, at, s.flights[id := Flight(at, s.b.current != Closed)], s.history + [Admitted(at)])
      else System(b, at, s.flights, s.history + [Turned(at)])
    case Finish(id, failed, at) =>
      System(Complete(cfg, s.b, failed, at), at, s.flights - {id}, s.history + [Finished(failed, at)])
  }

  predicate Legal(cfg: Config, s: System, es: seq<Event>)
    decreases es
  {
    es == [] || (Enabled(s, es[0]) && Legal(cfg, Step(cfg, s, es[0]), es[1..]))
  }

  function Exec(cfg: Config, s: System, es: seq<Event>): System
    decreases es
  {
    if es == [] then s else Exec(cfg, Step(cfg, s, es[0]), es[1..])
  }

  // ---- Runs and whole calls ----

  function SectionOf(e: Event): Section {
    match e
    case Arrive(_, at) => Begin(at)
    case Finish(_, failed, at) => End(failed, at)
  }

  function SectionsOf(es: seq<Event>): seq<Section> {
    if es == [] then [] else [SectionOf(es[0])] + SectionsOf(es[1..])
  }

  lemma {:induction false} SectionFirst(cfg: Config, b: Core, first: Section, rest: seq<Section>)
    ensures AfterSections(cfg, b, [first] + rest) == AfterSections(cfg, AfterSection(cfg, b, first), rest)
    decreases |rest|
  {
    var all := [first] + rest;
    if rest == [] {
      assert all == [first] && all[..0] == [];
    } else {
      var n := |rest| - 1;
      SectionFirst(cfg, b, first, rest[..n]);
      assert all[..|all| - 1] == [first] + rest[..n] && all[|all| - 1] == rest[n];
    }
  }

  /** The critical sections of a run, one after the other, leave the breaker as the run does. */
  lemma {:induction false} SectionsAreSteps(cfg: Config, s: System, es: seq<Event>)
    ensures Exec(cfg, s, es).b == AfterSections(cfg, s.b, SectionsOf(es))
    decreases |es|
  {
    if es != [] {
      SectionsAreSteps(cfg, Step(cfg, s, es[0]), es[1..]);
      SectionFirst(cfg, s.b, SectionOf(es[0]), SectionsOf(es[1..]));
    }
  }

  lemma {:induction false} RunsJoin(cfg: Config, s: System, a: seq<Event>, b: seq<Event>)
    ensures Exec(cfg, s, a + b) == Exec(cfg, Exec(cfg, s, a), b)
    decreases |a|
  {
    if a == [] {
      assert a + b == b;
    } else {
      assert (a + b)[0] == a[0] && (a + b)[1..] == a[1..] + b;
      RunsJoin(cfg, Step(cfg, s, a[0]), a[1..], b);
    }
  }

  /** A whole call with the critical sections of others in between is a run, so what is proved of
      runs holds of calls: the contract of `Call` gives the very state that the run ends in. */
  lemma CallIsARun(cfg: Config, s: System, id: nat, start: int, es: seq<Event>, failed: bool, finish: int)
    ensures var run := [Arrive(id, start)] + es + [Finish(id, failed, finish)];
            Exec(cfg, s, run).b
            == Complete(cfg, AfterSections(cfg, Admit(cfg, s.b, start).0, SectionsOf(es)), failed, finish)
  {
    var s1 := Step(cfg, s, Arrive(id, start));
    SectionsAreSteps(cfg, s1, es);
    RunsJoin(cfg, s, [Arrive(id, start)] + es, [Finish(id, failed, finish)]);
    RunsJoin(cfg, s, [Arrive(id, start)], es);
    assert [Arrive(id, start)][1..] == [] && [Finish(id, failed, finish)][1..] == [];
  }

  // ---- The breaker as a function of what has been observed ----

  /** The length of the run of failed completions that ends the history. */
  function TrailingFailures(h: seq<Observation>): nat {
    if h == [] then 0 else
    var rest, last := h[..|h| - 1], h[|h| - 1];
    if !last.Finished? then TrailingFailures(rest)
    else if last.failed then TrailingFailures(rest) + 1
    else 0
  }

  function LastFailureAt(h: seq<Observation>): int {
    if h == [] then 0 else
    var last := h[|h| - 1];
    if last.Finished? && last.failed then last.at else LastFailureAt(h[..|h| - 1])
  }

  predicate AdmittedSinceCompletion(h: seq<Observation>) {
    h != [] && !h[|h| - 1].Finished? &&
    (h[|h| - 1].Admitted? || AdmittedSinceCompletion(h[..|h| - 1]))
  }

  function Threshold(cfg: Config): nat {
    if cfg.maxFailures < 1 then 1 else cfg.maxFailures
  }

  function ExpectedState(cfg: Config, h: seq<Observation>): State {
    if TrailingFailures(h) < Threshold(cfg) then Closed
    else if AdmittedSinceCompletion(h) then HalfOpen
    else Open
  }

  ghost predicate Explained(cfg: Config, s: System) {
    && s.b.current == ExpectedState(cfg, s.history)
    && s.b.consecutiveFailures == TrailingFailures(s.history)
    && s.b.lastFailure == LastFailureAt(s.history)
    && (s.b.probing <==> s.b.current == HalfOpen)
    && (s.b.current == Open ==> s.b.lastFailure <= s.now)
  }

  /** How one more observation changes the three readings of a history. */
  lemma OneMoreObservation(h: seq<Observation>, o: Observation)
    ensures TrailingFailures(h + [o]) == if !o.Finished? then TrailingFailures(h)
                                         else if o.failed then TrailingFailures(h) + 1 else 0
    ensures LastFailureAt(h + [o]) == if o.Finished? && o.failed then o.at else LastFailureAt(h)
    ensures AdmittedSinceCompletion(h + [o]) <==> o.Admitted? || (o.Turned? && AdmittedSinceCompletion(h))
  {
    assert (h + [o])[..|h|] == h;
  }

  lemma StepExplained(cfg: Config, s: System, e: Event)
    requires Explained(cfg, s) && Enabled(s, e)
    ensures Explained(cfg, Step(cfg, s, e))
  {
    match e
    case Arrive(_, at) =>
      OneMoreObservation(s.history, Admitted(at));
      OneMoreObservation(s.history, Turned(at));
    case Finish(_, failed, at) =>
      OneMoreObservation(s.history, Finished(failed, at));
  }

  lemma {:induction false} RunExplained(cfg: Config, s: System, es: seq<Event>)
    requires Explained(cfg, s) && Legal(cfg, s, es)
    ensures Explained(cfg, Exec(cfg, s, es))
    decreases es
  {
    if es != [] {
      StepExplained(cfg, s, es[0]);
      RunExplained(cfg, Step(cfg, s, es[0]), es[1..]);
    }
  }

  /** For every threshold, timeout and interleaving, the state is determined by the
      observed history, and `probing` says nothing that HALF-OPEN does not. */
  lemma HistoryDeterminesState(cfg: Config, t: int, es: seq<Event>)
    requires Legal(cfg, Start(t), es)
    ensures var s := Exec(cfg, Start(t), es);
            && s.b.current == ExpectedState(cfg, s.history)
            && s.b.consecutiveFailures == TrailingFailures(s.history)
            && (s.b.probing <==> s.b.current == HalfOpen)
  {
    RunExplained(cfg, Start(t), es);
  }

  /** A call is let through exactly when the trailing failures are below the threshold, or
      the timeout has elapsed and nothing was admitted since the last completion; so the
      re-arming of an idle HALF-OPEN breaker never happens. */
  lemma AdmissionRule(cfg: Config, t: int, es: seq<Event>, at: int)
    requires Legal(cfg, Start(t), es)
    ensures var s := Exec(cfg, Start(t), es);
            && (Admit(cfg, s.b, at).1 <==>
                || TrailingFailures(s.history) < Threshold(cfg)
                || (!AdmittedSinceCompletion(s.history)
                    && at - LastFailureAt(s.history) >= cfg.resetTimeout))
            && !(s.b.current == HalfOpen && Admit(cfg, s.b, at).1)
  {
    RunExplained(cfg, Start(t), es);
  }

  // ---- Load on a failing dependency ----

  function AdmissionTimes(h: seq<Observation>): seq<int> {
    if h == [] then []
    else (if h[0].Admitted? then [h[0].at] else []) + AdmissionTimes(h[1..])
  }

  predicate NoSuccess(es: seq<Event>) {
    forall e <- es :: e.Finish? ==> e.failed
  }

  /** No later admission can come before this plus the timeout. */
  function Anchor(s: System): int {
    if s.b.current == Open then s.b.lastFailure else s.now
  }

  predicate Spaced(times: seq<int>, gap: int) {
    forall i :: 0 < i < |times| ==> times[i] - times[i - 1] >= gap
  }

  lemma {:induction false} HistoryGrows(cfg: Config, s: System, es: seq<Event>)
    ensures s.history <= Exec(cfg, s, es).history
    decreases es
  {
    if es != [] {
      HistoryGrows(cfg, Step(cfg, s, es[0]), es[1..]);
    }
  }

  lemma FailingStep(cfg: Config, s: System, e: Event)
    requires Explained(cfg, s) && s.b.current != Closed
    requires Enabled(s, e) && (e.Finish? ==> e.failed)
    ensures var s1 := Step(cfg, s, e);
            && Explained(cfg, s1)
            && s1.b.current != Closed
            && |s1.history| == |s.history| + 1
            && Anchor(s) <= Anchor(s1) <= s1.now
            && (s1.history[|s.history|].Admitted? ==>
                  s1.history[|s.history|].at == e.at == Anchor(s1) && Anchor(s) + cfg.resetTimeout <= e.at)
  {
    StepExplained(cfg, s, e);
  }

  /** While no call succeeds, admissions are at least `resetTimeout` apart, the first one
      that far from the trip, whatever the durations of the calls; so a failing stretch of
      length T lets at most T / resetTimeout calls through. */
  lemma {:induction false} FailingStretchLoad(cfg: Config, s: System, es: seq<Event>)
    requires Explained(cfg, s) && s.b.current != Closed
    requires Legal(cfg, s, es) && NoSuccess(es)
    ensures s.history <= Exec(cfg, s, es).history
    ensures var s' := Exec(cfg, s, es);
            var times := AdmissionTimes(s'.history[|s.history|..]);
            && s'.b.current != Closed
            && Spaced(times, cfg.resetTimeout)
            && (times != [] ==> times[0] - Anchor(s) >= cfg.resetTimeout)
            && |times| * cfg.resetTimeout <= s'.now - Anchor(s)
    decreases es
  {
    HistoryGrows(cfg, s, es);
    if es != [] {
      var s1, s' := Step(cfg, s, es[0]), Exec(cfg, s, es);
      FailingStep(cfg, s, es[0]);
      FailingStretchLoad(cfg, s1, es[1..]);
      var seg, seg1 := s'.history[|s.history|..], s'.history[|s1.history|..];
      assert seg[1..] == seg1 && seg[0] == s1.history[|s.history|];
      var times, times1 := AdmissionTimes(seg), AdmissionTimes(seg1);
      if seg[0].Admitted? {
        assert times == [es[0].at] + times1;
        OneMore(|times1|, cfg.resetTimeout);
      } else {
        assert times == times1;
      }
    }
  }

  lemma OneMore(n: nat, gap: int)
    ensures (n + 1) * gap == gap + n * gap
  {
  }

  /** A HALF-OPEN episode, from the admission that starts it until the next completion,
      admits no further call. */
  lemma {:induction false} HalfOpenAdmitsNobodyElse(cfg: Config, s: System, es: seq<Event>)
    requires Explained(cfg, s) && s.b.current == HalfOpen
    requires Legal(cfg, s, es) && forall e <- es :: e.Arrive?
    ensures Exec(cfg, s, es).b == s.b && Exec(cfg, s, es).flights == s.flights
    decreases es
  {
    if es != [] {
      StepExplained(cfg, s, es[0]);
      HalfOpenAdmitsNobodyElse(cfg, Step(cfg, s, es[0]), es[1..]);
    }
  }

  // ---- One probe at a time ----

  /** No call still running when `e` happens has been running for longer than `limit`. */
  predicate Prompt(s: System, e: Event, limit: int) {
    forall id <- s.flights :: e.at - s.flights[id].admitted <= limit
  }

  predicate AllPrompt(cfg: Config, s: System, es: seq<Event>, limit: int)
    decreases es
  {
    es == [] || (Prompt(s, es[0], limit) && AllPrompt(cfg, Step(cfg, s, es[0]), es[1..], limit))
  }

  ghost predicate ProbeExclusive(s: System) {
    && (s.b.current == HalfOpen ==>
          && s.b.probing
          && exists id :: s.flights.Keys == {id} && s.flights[id].probe)
    && (s.b.current != HalfOpen ==> forall id <- s.flights :: !s.flights[id].probe)
  }

  ghost predicate Timely(s: System) {
    && ProbeExclusive(s)
    && (s.b.current == Open ==> forall id <- s.flights :: s.flights[id].admitted <= s.b.lastFailure)
    && (forall id <- s.flights :: s.flights[id].admitted <= s.now)
    && (s.b.probing ==> s.b.current == HalfOpen)
  }

  lemma StepTimely(cfg: Config, s: System, e: Event, limit: int)
    requires Timely(s) && Enabled(s, e) && Prompt(s, e, limit) && limit < cfg.resetTimeout
    ensures Timely(Step(cfg, s, e))
  {
    var s' := Step(cfg, s, e);
    if s.b.current == Open && s'.b.current == HalfOpen {
      assert forall id :: id !in s.flights;
      assert s'.flights.Keys == {e.id};
    } else if s.b.current == HalfOpen && e.Finish? {
      assert s'.flights.Keys == {};
    }
  }

  lemma {:induction false} RunTimely(cfg: Config, s: System, es: seq<Event>, limit: int)
    requires Timely(s) && Legal(cfg, s, es) && AllPrompt(cfg, s, es, limit) && limit < cfg.resetTimeout
    ensures Timely(Exec(cfg, s, es))
    decreases es
  {
    if es != [] {
      StepTimely(cfg, s, es[0], limit);
      RunTimely(cfg, Step(cfg, s, es[0]), es[1..], limit);
    }
  }

  /** If calls are limited to less than `resetTimeout`, HALF-OPEN means that exactly one call is in
      flight and that it is the probe; otherwise no probe is in flight. */
  lemma PromptCallsMakeProbesExclusive(cfg: Config, t: int, es: seq<Event>, limit: int)
    requires Legal(cfg, Start(t), es) && AllPrompt(cfg, Start(t), es, limit)
    requires limit < cfg.resetTimeout
    ensures ProbeExclusive(Exec(cfg, Start(t), es))
  {
    RunTimely(cfg, Start(t), es, limit);
  }

  predicate ProbeInFlight(s: System) {
    exists id :: id in s.flights && s.flights[id].probe
  }

  predicate TwoProbes(s: System) {
    exists id, jd :: id in s.flights && jd in s.flights && id != jd
                     && s.flights[id].probe && s.flights[jd].probe
  }

  const IMPATIENT := Config(1, 10)

  /** Two calls are admitted and the first one fails, which opens the breaker. */
  const TRIP := [Arrive(0, 0), Arrive(1, 0), Finish(0, true, 0)]

  lemma Tripped()
    ensures Legal(IMPATIENT, Start(0), TRIP)
    ensures var s := Exec(IMPATIENT, Start(0), TRIP);
            s.b == Core(Open, 1, 0, false) && s.now == 0 && s.flights == map[1 := Flight(0, false)]
  {
    var s1 := Step(IMPATIENT, Start(0), TRIP[0]);
    var s2 := Step(IMPATIENT, s1, TRIP[1]);
    var s3 := Step(IMPATIENT, s2, TRIP[2]);
    assert Legal(IMPATIENT, s3, []) && Exec(IMPATIENT, s3, []) == s3;
    assert [TRIP[2]][1..] == [];
    assert Legal(IMPATIENT, s2, [TRIP[2]]) && Exec(IMPATIENT, s2, [TRIP[2]]) == s3;
    assert [TRIP[1], TRIP[2]][1..] == [TRIP[2]];
    assert Legal(IMPATIENT, s1, [TRIP[1], TRIP[2]]) && Exec(IMPATIENT, s1, [TRIP[1], TRIP[2]]) == s3;
    assert TRIP[1..] == [TRIP[1], TRIP[2]];
    assert s3.flights == map[1 := Flight(0, false)];
  }

  lemma {:induction false} OneMoreEvent(cfg: Config, s: System, es: seq<Event>, e: Event)
    requires Legal(cfg, s, es) && Enabled(Exec(cfg, s, es), e)
    ensures Legal(cfg, s, es + [e]) && Exec(cfg, s, es + [e]) == Step(cfg, Exec(cfg, s, es), e)
    decreases |es|
  {
    if es == [] {
      assert (es + [e])[1..] == [];
    } else {
      OneMoreEvent(cfg, Step(cfg, s, es[0]), es[1..], e);
      assert (es + [e])[1..] == es[1..] + [e];
    }
  }

  /** Without the bound a late failure reopens the breaker under a running probe. */
  lemma SlowCallsAllowTwoProbes()
    ensures exists cfg: Config, es: seq<Event> ::
              Legal(cfg, Start(0), es) && TwoProbes(Exec(cfg, Start(0), es))
  {
    Tripped();
    var probing := TRIP + [Arrive(2, 10)];
    OneMoreEvent(IMPATIENT, Start(0), TRIP, Arrive(2, 10));
    var reopened := probing + [Finish(1, true, 11)];
    OneMoreEvent(IMPATIENT, Start(0), probing, Finish(1, true, 11));
    var twice := reopened + [Arrive(3, 21)];
    OneMoreEvent(IMPATIENT, Start(0), reopened, Arrive(3, 21));
    var s := Exec(IMPATIENT, Start(0), twice);
    assert 2 in s.flights && 3 in s.flights && s.flights[2].probe && s.flights[3].probe;
  }

  /** A second probe starts exactly when a call arrives at an OPEN breaker whose timeout has
      elapsed while an earlier probe is still running. */
  lemma SecondProbeIff(cfg: Config, s: System, e: Event)
    requires Explained(cfg, s) && Enabled(s, e) && !TwoProbes(s)
    ensures TwoProbes(Step(cfg, s, e)) <==>
            && e.Arrive?
            && s.b.current == Open
            && e.at - s.b.lastFailure >= cfg.resetTimeout
            && ProbeInFlight(s)
  {
    var s' := Step(cfg, s, e);
    if e.Arrive? && s.b.current == Open && e.at - s.b.lastFailure >= cfg.resetTimeout && ProbeInFlight(s) {
      var id :| id in s.flights && s.flights[id].probe;
      assert id in s'.flights && e.id in s'.flights && s'.flights[id].probe && s'.flights[e.id].probe;
    }
    if TwoProbes(s') {
      var id, jd :| id in s'.flights && jd in s'.flights && id != jd
                    && s'.flights[id].probe && s'.flights[jd].probe;
      assert forall k :: k in s'.flights && k != e.id ==> k in s.flights && s.flights[k] == s'.flights[k];
      var other := if id == e.id then jd else id;
      assert other in s.flights && s.flights[other].probe;
    }
  }

  /** The four transitions in the breaker's own documentation, with their causes. */
  predicate Documented(cfg: Config, s: System, e: Event) {
    var s' := Step(cfg, s, e);
    match (s.b.current, s'.b.current)
    case (Closed, Open) => e.Finish? && e.failed && s'.b.consecutiveFailures >= cfg.maxFailures
    case (Open, HalfOpen) => e.Arrive? && e.at - s.b.lastFailure >= cfg.resetTimeout
    case (HalfOpen, Closed) => e.Finish? && !e.failed && e.id in s.flights && s.flights[e.id].probe
    case (HalfOpen, Open) => e.Finish? && e.failed && e.id in s.flights && s.flights[e.id].probe
    case (before, after) => before == after
  }

  /** A step departs from the documented list exactly when a success arrives at an OPEN
      breaker, which it closes at once, or when a call that is no probe ends a HALF-OPEN
      episode. */
  lemma DocumentedIff(cfg: Config, s: System, e: Event)
    requires Explained(cfg, s) && Enabled(s, e)
    ensures Documented(cfg, s, e) <==>
            !(e.Finish? && ((s.b.current == Open && !e.failed)
                            || (s.b.current == HalfOpen && !s.flights[e.id].probe)))
  {
    StepExplained(cfg, s, e);
  }

  /** A reachable state and an event that departs from the documented list there. */
  predicate Departs(cfg: Config, es: seq<Event>, e: Event) {
    && Legal(cfg, Start(0), es)
    && Enabled(Exec(cfg, Start(0), es), e)
    && !Documented(cfg, Exec(cfg, Start(0), es), e)
  }

  /** Both departures happen: the second call's success closes the OPEN breaker at once, and
      its failure after a probe has started ends the HALF-OPEN episode under that probe. */
  lemma DeparturesHappen()
    ensures Departs(IMPATIENT, TRIP, Finish(1, false, 1))
    ensures Exec(IMPATIENT, Start(0), TRIP).b.current == Open
    ensures Departs(IMPATIENT, TRIP + [Arrive(2, 10)], Finish(1, true, 11))
    ensures Exec(IMPATIENT, Start(0), TRIP + [Arrive(2, 10)]).b.current == HalfOpen
  {
    Tripped();
    OneMoreEvent(IMPATIENT, Start(0), TRIP, Arrive(2, 10));
  }
}
