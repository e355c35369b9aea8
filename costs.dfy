/** Route costs: a non-negative finite cost or "unreachable".
    This replaces the floating-point infinity that the routing tables use
    as the cost of a destination with no known path. */
module Costs {

  datatype Cost = Fin(value: nat) | Inf

  /** Cost of a path made of two legs; an unreachable leg makes the whole
      path unreachable, as infinity does in floating-point addition. */
  function Add(x: Cost, y: Cost): (r: Cost)
    ensures r.Inf? <==> x.Inf? || y.Inf?
    ensures AtMost(x, r) && AtMost(y, r)
  {
    if x.Fin? && y.Fin? then Fin(x.value + y.value) else Inf
  }

  /** Strict comparison of costs: every finite cost is below Inf and Inf is
      below nothing (in particular, Inf < Inf is false). */
  predicate Less(x: Cost, y: Cost)
  {
    match (x, y)
    case (Fin(a), Fin(b)) => a < b
    case (Fin(_), Inf) => true
    case (Inf, _) => false
  }

  /** Non-strict comparison: x is at most y. */
  predicate AtMost(x: Cost, y: Cost)
  {
    !Less(y, x)
  }

  lemma AtMostTransitive(x: Cost, y: Cost, z: Cost)
    requires AtMost(x, y) && AtMost(y, z)
    ensures AtMost(x, z)
  {
  }
}
