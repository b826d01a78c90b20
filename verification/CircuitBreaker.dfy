/** The three-state circuit breaker in front of the gallery service.

    `Call` holds the lock twice: once to decide whether the call may start, once to record
    how it ended. The protected function runs between the two, outside the lock, so the two
    critical sections are the atomic steps and any number of calls may lie between them.
 */
module Breaker {

  datatype State = Closed | Open | HalfOpen

  datatype Config = Config(maxFailures: int, resetTimeout: int)

  /** What the lock protects. Times are readings of a monotonic clock. */
  datatype Core = Core(current: State, consecutiveFailures: int, lastFailure: int, probing: bool)

  const FRESH := Core(Closed, 0, 0, false)

  /** First critical section: the new state, and whether the call may start. */
  function Admit(cfg: Config, b: Core, now: int): (Core, bool) {
    match b.current
    case Closed => (b, true)
    case Open =>
      if now - b.lastFailure >= cfg.resetTimeout
      then (b.(current := HalfOpen, probing := true), true)
      else (b, false)
    case HalfOpen =>
      if b.probing then (b, false) else (b.(probing := true), true)
  }

  /** Second critical section. */
  function Complete(cfg: Config, b: Core, failed: bool, now: int): Core {
    if failed then
      var n := b.consecutiveFailures + 1;
      Core(if b.current == HalfOpen || n >= cfg.maxFailures then Open else b.current, n, now, false)
    else
      Core(Closed, 0, b.lastFailure, false)
  }

  /** A critical section of somebody else's call. */
  datatype Section = Begin(at: int) | End(failed: bool, at: int)

  function AfterSection(cfg: Config, b: Core, section: Section): Core {
    match section
    case Begin(at) => Admit(cfg, b, at).0
    case End(failed, at) => Complete(cfg, b, failed, at)
  }

  function AfterSections(cfg: Config, b: Core, sections: seq<Section>): Core {
    if sections == [] then b
    else AfterSection(cfg, AfterSections(cfg, b, sections[..|sections| - 1]), sections[|sections| - 1])
  }

  /** How a call through the breaker ended. */
  datatype Outcome = Rejected | Succeeded | Failed

  class CircuitBreaker {
    var current: State
    var consecutiveFailures: int
    var lastFailure: int
    var probing: bool
    const maxFailures: int
    const resetTimeout: int

    constructor (maxFailures: int, resetTimeout: int)
      ensures Contents() == FRESH
      ensures Settings() == Config(maxFailures, resetTimeout)
    {
      current, consecutiveFailures, lastFailure, probing := Closed, 0, 0, false;
      this.maxFailures, this.resetTimeout := maxFailures, resetTimeout;
    }

    ghost function Settings(): Config {
      Config(maxFailures, resetTimeout)
    }

    ghost function Contents(): Core
      reads this
    {
      Core(current, consecutiveFailures, lastFailure, probing)
    }

    method BeginCall(now: int) returns (admitted: bool)
      modifies this
      ensures (Contents(), admitted) == Admit(Settings(), old(Contents()), now)
    {
      match current {
        case Open =>
          if now - lastFailure >= resetTimeout {
            current := HalfOpen;
            probing := true;
          } else {
            return false;
          }
        case HalfOpen =>
          if probing {
            return false;
          }
          probing := true;
        case Closed =>
      }
      return true;
    }

    method EndCall(failed: bool, now: int)
      modifies this
      ensures Contents() == Complete(Settings(), old(Contents()), failed, now)
    {
      probing := false;
      if failed {
        consecutiveFailures := consecutiveFailures + 1;
        lastFailure := now;
        if current == HalfOpen || consecutiveFailures >= maxFailures {
          current := Open;
        }
        return;
      }
      current := Closed;
      consecutiveFailures := 0;
    }

    /** What other callers do to the breaker. */
    method Meanwhile(others: seq<Section>)
      modifies this
      ensures Contents() == AfterSections(Settings(), old(Contents()), others)
    {
      for i := 0 to |others|
        invariant Contents() == AfterSections(Settings(), old(Contents()), others[..i])
      {
        assert others[..i + 1][..i] == others[..i];
        match others[i] {
          case Begin(at) => var _ := BeginCall(at);
          case End(failed, at) => EndCall(failed, at);
        }
      }
      assert others[..|others|] == others;
    }

    /** One whole call: `failed` is what the protected function answers and `others` are the
        critical sections of other calls while it runs. */
    method Call(start: int, others: seq<Section>, finish: int, failed: bool) returns (outcome: Outcome)
      modifies this
      ensures var (b, admitted) := Admit(Settings(), old(Contents()), start);
              if admitted
              then Contents() == Complete(Settings(), AfterSections(Settings(), b, others), failed, finish)
                   && outcome == (if failed then Failed else Succeeded)
              else Contents() == old(Contents()) && outcome == Rejected
    {
      var admitted := BeginCall(start);
      if !admitted {
        return Rejected;
      }
      Meanwhile(others);
      EndCall(failed, finish);
      return if failed then Failed else Succeeded;
    }
  }
}
