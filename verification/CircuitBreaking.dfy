/**
 The circuit breaker in front of diagnostic database reads (src/lib/circuit-breaker.ts).
 An asynchronous call is two steps here: its synchronous start, which may be refused, and
 its completion, which carries the generation the call started in.
 */
module CircuitBreaking {

  datatype Phase = Closed | Open | HalfOpen

  datatype Policy = Policy(failureThreshold: int, resetTimeoutMs: int)

  datatype Breaker = Breaker(phase: Phase, failureCount: nat, openedAt: int, probeInFlight: bool, generation: nat)

  datatype Admission = Turned | Admitted(generation: nat, probe: bool)

  const INITIAL := Breaker(Closed, 0, 0, false, 0)

  /** Reading the state is what turns an open breaker half-open. */
  function Observed(policy: Policy, b: Breaker, now: int): Breaker {
    if b.phase.Open? && now - b.openedAt >= policy.resetTimeoutMs then b.(phase := HalfOpen) else b
  }

  function Started(policy: Policy, b: Breaker, now: int): (Breaker, Admission) {
    var seen := Observed(policy, b, now);
    if seen.phase.Open? || (seen.phase.HalfOpen? && seen.probeInFlight) then (seen, Turned)
    else if seen.phase.HalfOpen? then (seen.(probeInFlight := true), Admitted(seen.generation, true))
    else (seen, Admitted(seen.generation, false))
  }

  function Completed(policy: Policy, b: Breaker, call: Admission, ok: bool, now: int): Breaker
    requires call.Admitted?
  {
    if call.generation != b.generation then b
    else if ok then b.(failureCount := 0, phase := Closed, probeInFlight := false)
    else if b.failureCount + 1 >= policy.failureThreshold then
      Breaker(Open, b.failureCount + 1, now, false, b.generation + 1)
    else b.(failureCount := b.failureCount + 1, probeInFlight := b.probeInFlight && !call.probe)
  }

  class CircuitBreaker {
    const policy: Policy
    var phase: Phase
    var failureCount: nat
    var openedAt: int
    var halfOpenProbeInFlight: bool
    var generation: nat

    constructor (policy: Policy)
      ensures View() == INITIAL && this.policy == policy
    {
      this.policy := policy;
      phase := Closed;
      failureCount := 0;
      openedAt := 0;
      halfOpenProbeInFlight := false;
      generation := 0;
    }

    function View(): Breaker
      reads this
    {
      Breaker(phase, failureCount, openedAt, halfOpenProbeInFlight, generation)
    }

    method GetState(now: int) returns (state: Phase)
      modifies this
      ensures View() == Observed(policy, old(View()), now) && state == phase
    {
      if phase == Open && now - openedAt >= policy.resetTimeoutMs {
        phase := HalfOpen;
      }
      return phase;
    }

    method Start(now: int) returns (call: Admission)
      modifies this
      ensures (View(), call) == Started(policy, old(View()), now)
    {
      var state := GetState(now);
      if state == Open { return Turned; }
      var isProbe := state == HalfOpen;
      if isProbe {
        if halfOpenProbeInFlight { return Turned; }
        halfOpenProbeInFlight := true;
      }
      return Admitted(generation, isProbe);
    }

    method Complete(call: Admission, ok: bool, now: int)
      requires call.Admitted?
      modifies this
      ensures View() == Completed(policy, old(View()), call, ok, now)
    {
      if call.generation == generation {
        if ok { OnSuccess(); } else { OnFailure(now); }
      }
      if call.probe && call.generation == generation { halfOpenProbeInFlight := false; }
    }

    method OnSuccess()
      modifies this
      ensures View() == old(View()).(failureCount := 0, phase := Closed, probeInFlight := false)
    {
      failureCount := 0;
      phase := Closed;
      halfOpenProbeInFlight := false;
    }

    method OnFailure(now: int)
      modifies this
      ensures View() == if old(failureCount) + 1 >= policy.failureThreshold
                        then Breaker(Open, old(failureCount) + 1, now, false, old(generation) + 1)
                        else old(View()).(failureCount := old(failureCount) + 1)
    {
      failureCount := failureCount + 1;
      if failureCount >= policy.failureThreshold {
        phase := Open;
        openedAt := now;
        generation := generation + 1;
        halfOpenProbeInFlight := false;
      }
    }
  }
}
