/** The browser's notification stream and the store it feeds. */
module NotificationStream {
  import opened Common
  import opened EventText

  const MAX_NOTIFICATIONS := 30
  const INITIAL_BACKOFF := 1000
  const MAX_BACKOFF := 30000

  datatype Status = Idle | Connecting | Opened | Ended | Failed

  datatype Action<N> = NotificationReceived(notification: N) | NotificationStatus(status: Status)

  // ---- The store ----

  function Newest<N>(list: seq<N>): seq<N> {
    if |list| > MAX_NOTIFICATIONS then list[..MAX_NOTIFICATIONS] else list
  }

  class NotificationStore<N> {
    var notifications: seq<N>
    var status: Status

    /** Every status there has been, in order. */
    ghost var shown: seq<Status>

    constructor ()
      ensures notifications == [] && status == Idle && shown == [Idle]
    {
      notifications, status, shown := [], Idle, [Idle];
    }

    method HandleAction(action: Action<N>)
      modifies this
      ensures action.NotificationStatus? ==> notifications == old(notifications)
      ensures action.NotificationReceived? ==>
                && notifications == Newest([action.notification] + old(notifications))
                && notifications[0] == action.notification
                && notifications[1..] <= old(notifications)
                && |notifications| == if |old(notifications)| < 30 then |old(notifications)| + 1 else 30
      ensures status == if action.NotificationStatus? then action.status else old(status)
      ensures shown == old(shown) + (if action.NotificationStatus? then [action.status] else [])
    {
      match action {
        case NotificationReceived(n) => notifications := Newest([n] + notifications);
        case NotificationStatus(s) =>
          status := s;
          shown := shown + [s];
      }
    }
  }

  /** The list after a number of arrivals. */
  function Fed<N>(list: seq<N>, arrivals: seq<N>): seq<N>
    decreases arrivals
  {
    if arrivals == [] then list else Fed(Newest([arrivals[0]] + list), arrivals[1..])
  }

  /** However many arrive, the store holds the newest thirty, newest first. */
  lemma {:induction false} HoldsTheNewest<N>(list: seq<N>, arrivals: seq<N>)
    requires |list| <= 30
    ensures var all := Reversed(arrivals) + list;
            Fed(list, arrivals) == Newest(all) == if |all| < 30 then all else all[..30]
    decreases |arrivals|
  {
    if arrivals == [] {
      assert Reversed(arrivals) + list == list;
    } else {
      var next, rest := [arrivals[0]] + list, Reversed(arrivals[1..]);
      HoldsTheNewest(Newest(next), arrivals[1..]);
      assert Reversed(arrivals) + list == rest + next;
      assert Newest(rest + Newest(next)) == Newest(rest + next);
    }
  }

  lemma {:induction false} FedTwice<N>(list: seq<N>, a: seq<N>, b: seq<N>)
    ensures Fed(list, a + b) == Fed(Fed(list, a), b)
    decreases |a|
  {
    if a == [] {
      assert a + b == b;
    } else {
      FedTwice(Newest([a[0]] + list), a[1..], b);
      assert (a + b)[1..] == a[1..] + b && (a + b)[0] == a[0];
    }
  }

  function ParsedOne<N>(parse: string -> Option<N>, payload: string): seq<N> {
    if parse(payload).Some? then [parse(payload).value] else []
  }

  /** Payloads that do not parse are dropped. */
  function Parsed<N>(parse: string -> Option<N>, payloads: seq<string>): seq<N> {
    if payloads == [] then [] else ParsedOne(parse, payloads[0]) + Parsed(parse, payloads[1..])
  }

  lemma Grouped<N>(a: seq<N>, b: seq<N>, c: seq<N>)
    ensures a + (b + c) == (a + b) + c
  {
  }

  lemma {:induction false} ParsedTwice<N>(parse: string -> Option<N>, a: seq<string>, b: seq<string>)
    ensures Parsed(parse, a + b) == Parsed(parse, a) + Parsed(parse, b)
    decreases |a|
  {
    if a == [] {
      assert a + b == b;
    } else {
      var all := a + b;
      assert all[1..] == a[1..] + b && all[0] == a[0];
      ParsedTwice(parse, a[1..], b);
      Grouped(ParsedOne(parse, a[0]), Parsed(parse, a[1..]), Parsed(parse, b));
    }
  }

  /** Each payload that parses is there, in its place among the others that do; a payload that
      does not leaves nothing. */
  lemma ParsedAround<N>(parse: string -> Option<N>, a: seq<string>, payload: string, b: seq<string>)
    ensures Parsed(parse, a + [payload] + b)
            == Parsed(parse, a)
               + (if parse(payload).Some? then [parse(payload).value] else [])
               + Parsed(parse, b)
  {
    ParsedTwice(parse, a + [payload], b);
    ParsedTwice(parse, a, [payload]);
    assert [payload][1..] == [];
    assert Parsed(parse, [payload]) == ParsedOne(parse, payload) + Parsed(parse, []);
  }

  /** The notifications in the complete events of a text. */
  function Decoded<N>(parse: string -> Option<N>, events: seq<string>): seq<N> {
    Parsed(parse, Payloads(events))
  }

  lemma DecodedTwice<N>(parse: string -> Option<N>, a: seq<string>, b: seq<string>)
    ensures Decoded(parse, a + b) == Decoded(parse, a) + Decoded(parse, b)
  {
    PayloadsJoin(a, b);
    ParsedTwice(parse, Payloads(a), Payloads(b));
  }

  lemma DecodedOne<N>(parse: string -> Option<N>, raw: string)
    ensures Decoded(parse, [raw])
            == if Payload(raw).Some? && parse(Payload(raw).value).Some? then [parse(Payload(raw).value).value] else []
  {
    var none: seq<string> := [];
    assert Payloads([raw]) == PayloadList(raw) + Payloads(none) == PayloadList(raw);
    if Payload(raw).Some? {
      assert PayloadList(raw) == [Payload(raw).value] + none;
      assert Parsed(parse, none) == [];
      assert PayloadList(raw)[1..] == none;
    }
  }

  function Text(chunks: seq<string>): string {
    if chunks == [] then "" else Text(chunks[..|chunks| - 1]) + chunks[|chunks| - 1]
  }

  // ---- The stream ----

  /** How one connection attempt went: refused, or open for some reads and then over, with
      or without an error; `stopped` says that the caller has unsubscribed meanwhile. */
  datatype Attempt = Refused(stopped: bool) | Streamed(chunks: seq<string>, error: bool, stopped: bool)

  /** The statuses one attempt goes through. */
  function Shown(attempt: Attempt): seq<Status> {
    match attempt
    case Refused(stopped) => if stopped then [Connecting] else [Connecting, Failed, Ended]
    case Streamed(_, error, stopped) =>
      if stopped then [Connecting, Opened]
      else if error then [Connecting, Opened, Failed, Ended]
      else [Connecting, Opened, Ended]
  }

  function Rank(status: Status): int {
    match status
    case Connecting => 0
    case Opened => 1
    case Failed => 2
    case Ended => 3
    case Idle => 4
  }

  /** The statuses of an attempt come in this order and once each: connecting, open if it got
      through, failed if it did not or broke off, closed; the last two not after an
      unsubscription. */
  lemma ShownInOrder(attempt: Attempt)
    ensures var shown := Shown(attempt);
            && (forall i, j :: 0 <= i < j < |shown| ==> Rank(shown[i]) < Rank(shown[j]))
            && Connecting in shown && Idle !in shown
            && (Opened in shown <==> attempt.Streamed?)
            && (Failed in shown <==> !attempt.stopped && (attempt.Refused? || attempt.error))
            && (Ended in shown <==> !attempt.stopped)
  {
    var shown := Shown(attempt);
    assert shown[0] == Connecting;
    assert attempt.Streamed? ==> shown[1] == Opened;
    assert !attempt.stopped && attempt.Refused? ==> shown[1] == Failed && shown[2] == Ended;
    assert !attempt.stopped && attempt.Streamed? && attempt.error ==> shown[2] == Failed && shown[3] == Ended;
    assert !attempt.stopped && attempt.Streamed? && !attempt.error ==> shown[2] == Ended;
  }

  class NotificationStream<N> {
    const store: NotificationStore<N>
    const parse: string -> Option<N>
    var buffer: string
    var backoff: int

    constructor (store: NotificationStore<N>, parse: string -> Option<N>)
      ensures this.store == store && this.parse == parse
      ensures backoff == INITIAL_BACKOFF
    {
      this.store, this.parse := store, parse;
      buffer, backoff := "", INITIAL_BACKOFF;
    }

    method HandleRawEvent(raw: string)
      modifies store
      ensures store.notifications == Fed(old(store.notifications), Decoded(parse, [raw]))
      ensures store.status == old(store.status) && store.shown == old(store.shown)
    {
      var lines := Lines(raw);
      var eventName, dataLines: seq<string> := MESSAGE, [];
      for i := 0 to |lines|
        invariant eventName == EventName(lines[..i])
        invariant dataLines == DataLines(lines[..i])
      {
        assert lines[..i + 1][..i] == lines[..i];
        var line := lines[i];
        if EVENT <= line {
          eventName := Trim(line[|EVENT|..]);
        } else if DATA <= line {
          dataLines := dataLines + [Trim(line[|DATA|..])];
        }
      }
      assert lines[..|lines|] == lines;
      DecodedOne(parse, raw);
      if eventName != NOTIFICATION || dataLines == [] {
        return;
      }
      var parsed := parse(Join(dataLines));
      if parsed.Some? {
        store.HandleAction(NotificationReceived(parsed.value));
      }
    }

    /** Takes one read: every event completed by it is handled, in order, and the rest of the
        text waits. */
    method OnRead(value: string)
      modifies this, store
      ensures var cut := Split(old(buffer) + value);
              && buffer == cut.rest
              && store.notifications == Fed(old(store.notifications), Decoded(parse, cut.events))
      ensures store.status == old(store.status) && store.shown == old(store.shown) && backoff == old(backoff)
    {
      buffer := buffer + value;
      ghost var text, handled: seq<string> := buffer, [];
      var boundary := IndexOf(buffer);
      while boundary != -1
        invariant boundary == IndexOf(buffer)
        invariant Split(text) == Cut(handled + Split(buffer).events, Split(buffer).rest)
        invariant store.notifications == Fed(old(store.notifications), Decoded(parse, handled))
        invariant store.status == old(store.status) && store.shown == old(store.shown) && backoff == old(backoff)
        decreases |buffer|
      {
        var raw := buffer[..boundary];
        HandleRawEvent(raw);
        DecodedTwice(parse, handled, [raw]);
        FedTwice(old(store.notifications), Decoded(parse, handled), Decoded(parse, [raw]));
        buffer := buffer[boundary + 2..];
        Regrouped(handled, raw, Split(buffer).events);
        handled := handled + [raw];
        boundary := IndexOf(buffer);
      }
      assert handled + [] == handled;
    }

    lemma Regrouped(a: seq<string>, x: string, b: seq<string>)
      ensures a + ([x] + b) == (a + [x]) + b
    {
    }

    /** Reads until the stream is over: what is handled depends only on the text received,
        not on how it was cut into reads. */
    method ReadAll(chunks: seq<string>)
      requires buffer == ""
      modifies this, store
      ensures var cut := Split(Text(chunks));
              && buffer == cut.rest
              && store.notifications == Fed(old(store.notifications), Decoded(parse, cut.events))
      ensures store.status == old(store.status) && store.shown == old(store.shown) && backoff == old(backoff)
    {
      for i := 0 to |chunks|
        invariant buffer == Split(Text(chunks[..i])).rest
        invariant store.notifications == Fed(old(store.notifications), Decoded(parse, Split(Text(chunks[..i])).events))
        invariant store.status == old(store.status) && store.shown == old(store.shown) && backoff == old(backoff)
      {
        ghost var before := Text(chunks[..i]);
        assert chunks[..i + 1][..i] == chunks[..i];
        SplitIncrementally(before, chunks[i]);
        ghost var events, more := Split(before).events, Split(Split(before).rest + chunks[i]).events;
        DecodedTwice(parse, events, more);
        FedTwice(old(store.notifications), Decoded(parse, events), Decoded(parse, more));
        OnRead(chunks[i]);
      }
      assert chunks[..|chunks|] == chunks;
    }

    /** One connection attempt. The result is the delay before the next one, if any. */
    method Connect(attempt: Attempt) returns (delay: Option<int>)
      modifies this, store
      ensures store.notifications == Fed(old(store.notifications), DecodedOf(parse, attempt))
      ensures store.shown == old(store.shown) + Shown(attempt)
      ensures store.status == if !attempt.stopped then Ended else if attempt.Refused? then Connecting else Opened
      ensures var wait := if attempt.Refused? then old(backoff) else 1000;
              && delay == (if attempt.stopped then None else Some(wait))
              && backoff == if attempt.stopped then wait else if wait < 15000 then 2 * wait else 30000
    {
      store.HandleAction(NotificationStatus(Connecting));
      match attempt {
        case Refused(stopped) =>
          if stopped {
            return None;
          }
          store.HandleAction(NotificationStatus(Failed));
        case Streamed(chunks, error, stopped) =>
          store.HandleAction(NotificationStatus(Opened));
          backoff := INITIAL_BACKOFF;
          buffer := "";
          ReadAll(chunks);
          if stopped {
            return None;
          }
          if error {
            store.HandleAction(NotificationStatus(Failed));
          }
      }
      store.HandleAction(NotificationStatus(Ended));
      delay := Some(backoff);
      backoff := Doubled(backoff);
    }

    /** Where the stream stands after the first `k` attempts. */
    ghost predicate After(attempts: seq<Attempt>, k: nat, first: seq<N>, delays: seq<int>)
      requires k <= |attempts|
      reads this, store
    {
      && backoff == BackoffAfter(attempts, k)
      && delays == Waits(attempts, k)
      && store.notifications == Fed(first, DecodedAll(parse, attempts, k))
    }

    method ConnectOnce(attempts: seq<Attempt>, k: nat, ghost first: seq<N>, delays: seq<int>) returns (more: seq<int>)
      requires k < |attempts| && !attempts[k].stopped && After(attempts, k, first, delays)
      modifies this, store
      ensures After(attempts, k + 1, first, more)
    {
      FedOneMore(first, parse, attempts, k);
      var delay := Connect(attempts[k]);
      return delays + [delay.value];
    }

    /** Connects again and again while nobody unsubscribes, and waits after each attempt. */
    method ConnectRepeatedly(attempts: seq<Attempt>) returns (delays: seq<int>)
      requires backoff == INITIAL_BACKOFF && forall attempt <- attempts :: !attempt.stopped
      modifies this, store
      ensures backoff == BackoffAfter(attempts, |attempts|)
      ensures delays == Waits(attempts, |attempts|)
      ensures store.notifications == Fed(old(store.notifications), DecodedAll(parse, attempts, |attempts|))
    {
      ghost var first := store.notifications;
      delays := [];
      for k := 0 to |attempts|
        invariant After(attempts, k, first, delays)
      {
        delays := ConnectOnce(attempts, k, first, delays);
      }
    }
  }

  /** The notifications one attempt decodes, and those of the first `k`. */
  function DecodedOf<N>(parse: string -> Option<N>, attempt: Attempt): seq<N> {
    if attempt.Refused? then [] else Decoded(parse, Split(Text(attempt.chunks)).events)
  }

  function DecodedAll<N>(parse: string -> Option<N>, attempts: seq<Attempt>, k: nat): seq<N>
    requires k <= |attempts|
  {
    if k == 0 then [] else DecodedAll(parse, attempts, k - 1) + DecodedOf(parse, attempts[k - 1])
  }

  lemma FedOneMore<N>(list: seq<N>, parse: string -> Option<N>, attempts: seq<Attempt>, k: nat)
    requires k < |attempts|
    ensures Fed(list, DecodedAll(parse, attempts, k + 1))
            == Fed(Fed(list, DecodedAll(parse, attempts, k)), DecodedOf(parse, attempts[k]))
  {
    FedTwice(list, DecodedAll(parse, attempts, k), DecodedOf(parse, attempts[k]));
  }

  /** The wait after an attempt, given the backoff before it. */
  function Wait(attempt: Attempt, backoff: int): int {
    if attempt.Refused? then backoff else INITIAL_BACKOFF
  }

  function Doubled(backoff: int): int {
    if backoff * 2 < MAX_BACKOFF then backoff * 2 else MAX_BACKOFF
  }

  /** When what is received is the encoding of a list of notifications, however it is cut into
      reads, an empty store ends with the newest thirty of those that parse, newest first. */
  lemma StreamDeliversTheNewest<N>(parse: string -> Option<N>, bodies: seq<string>, chunks: seq<string>)
    requires Text(chunks) == EncodedAll(bodies)
    ensures var arrived := if forall body <- bodies :: Cleaned(body) == body then bodies else CleanedAll(bodies);
            Fed([], Decoded(parse, Split(Text(chunks)).events)) == Newest(Reversed(Parsed(parse, arrived)))
  {
    DecodingUndoesEncoding(bodies);
    if forall body <- bodies :: Cleaned(body) == body {
      CleanedAllIff(bodies);
    }
    var arrived := Parsed(parse, CleanedAll(bodies));
    HoldsTheNewest([], arrived);
    assert Reversed(arrived) + [] == Reversed(arrived);
  }

  // ---- Backoff over many attempts ----

  function Power2(n: nat): nat {
    if n == 0 then 1 else 2 * Power2(n - 1)
  }

  /** The backoff after the first `k` attempts. */
  function BackoffAfter(attempts: seq<Attempt>, k: nat): int
    requires k <= |attempts|
  {
    if k == 0 then INITIAL_BACKOFF else Doubled(Wait(attempts[k - 1], BackoffAfter(attempts, k - 1)))
  }

  /** The waits after the first `k` attempts. */
  function Waits(attempts: seq<Attempt>, k: nat): seq<int>
    requires k <= |attempts|
  {
    if k == 0 then [] else Waits(attempts, k - 1) + [Wait(attempts[k - 1], BackoffAfter(attempts, k - 1))]
  }

  /** How many of the first `k` attempts there have been since the last one that opened, it
      included, or since the start. */
  function Streak(attempts: seq<Attempt>, k: nat): nat
    requires k <= |attempts|
  {
    if k == 0 then 0
    else if attempts[k - 1].Streamed? then 1
    else 1 + Streak(attempts, k - 1)
  }

  /** The wait doubles from one second with every attempt since the last that opened, and
      stays at thirty seconds. */
  lemma {:induction false} BackoffIsCappedDoubling(attempts: seq<Attempt>, k: nat)
    requires k <= |attempts|
    ensures var wait := 1000 * Power2(Streak(attempts, k));
            BackoffAfter(attempts, k) == if wait < 30000 then wait else 30000
  {
    if k > 0 {
      BackoffIsCappedDoubling(attempts, k - 1);
      assert Power2(1) == 2 * Power2(0);
    }
  }
}
