/** The process-wide request counters. */
module Metrics {
  import opened Common

  datatype Counter = Requests | Allowed | Blocked | Limited | UpstreamErrors | WouldBlock | Whitelisted

  datatype Tally = Tally(
    requests: nat,
    allowed: nat,
    blocked: nat,
    limited: nat,
    upstreamErrors: nat,
    wouldBlock: nat,
    whitelisted: nat
  )

  const ZERO := Tally(0, 0, 0, 0, 0, 0, 0)

  function Read(t: Tally, c: Counter): nat {
    match c
    case Requests => t.requests
    case Allowed => t.allowed
    case Blocked => t.blocked
    case Limited => t.limited
    case UpstreamErrors => t.upstreamErrors
    case WouldBlock => t.wouldBlock
    case Whitelisted => t.whitelisted
  }

  /** One more on one counter, and no other changed. */
  function Bump(t: Tally, c: Counter): (r: Tally)
    ensures forall d :: Read(r, d) == Read(t, d) + (if d == c then 1 else 0)
  {
    match c
    case Requests => t.(requests := t.requests + 1)
    case Allowed => t.(allowed := t.allowed + 1)
    case Blocked => t.(blocked := t.blocked + 1)
    case Limited => t.(limited := t.limited + 1)
    case UpstreamErrors => t.(upstreamErrors := t.upstreamErrors + 1)
    case WouldBlock => t.(wouldBlock := t.wouldBlock + 1)
    case Whitelisted => t.(whitelisted := t.whitelisted + 1)
  }

  /** The counter a decision is recorded under. */
  function Slot(d: WafDecision): Counter {
    match d case Allow => Allowed case Block(_, _, _) => Blocked case RateLimited(_) => Limited
  }

  class Counters {
    var requests: nat
    var allowed: nat
    var blocked: nat
    var limited: nat
    var upstreamErrors: nat
    var wouldBlock: nat
    var whitelisted: nat

    function View(): Tally
      reads this
    {
      Tally(requests, allowed, blocked, limited, upstreamErrors, wouldBlock, whitelisted)
    }

    constructor ()
      ensures View() == ZERO
    {
      requests, allowed, blocked, limited, upstreamErrors, wouldBlock, whitelisted := 0, 0, 0, 0, 0, 0, 0;
    }

    method Request()
      modifies this
      ensures View() == Bump(old(View()), Requests)
    {
      requests := requests + 1;
    }

    method Record(d: WafDecision)
      modifies this
      ensures View() == Bump(old(View()), Slot(d))
    {
      match d
      case Allow => allowed := allowed + 1;
      case Block(_, _, _) => blocked := blocked + 1;
      case RateLimited(_) => limited := limited + 1;
    }

    method UpstreamError()
      modifies this
      ensures View() == Bump(old(View()), UpstreamErrors)
    {
      upstreamErrors := upstreamErrors + 1;
    }

    method NoteWouldBlock()
      modifies this
      ensures View() == Bump(old(View()), WouldBlock)
    {
      wouldBlock := wouldBlock + 1;
    }

    method NoteWhitelisted()
      modifies this
      ensures View() == Bump(old(View()), Whitelisted)
    {
      whitelisted := whitelisted + 1;
    }
  }
}
