/** The reservation protocol (runtime/gc/um.c:21-52, umheap.c:103-205): a thread reserves chunks
  before it allocates them; the free-list lock makes every step atomic, and any thread may be next. */
module Reservation {

  /** `flChunks` is the length of the free list, `owed[t]` what thread `t` has reserved and not yet
    allocated. */
  datatype State = State(flChunks: nat, reserved: int, owed: seq<nat>)

  datatype Step =
    | Reserve(thread: nat, numChunks: nat)
    | Allocate(thread: nat, numChunks: nat)
    | Release(chunks: nat)

  function Sum(s: seq<nat>): nat {
    if s == [] then 0 else Sum(s[..|s| - 1]) + s[|s| - 1]
  }

  /** An allocation takes at least one chunk, a reservation of none reserves one. */
  function Needed(numChunks: nat): (k: nat)
    ensures k >= 1 && k >= numChunks
  {
    if numChunks == 0 then 1 else numChunks
  }

  /** The state after a step; a reservation that does not fit leaves the state alone and its thread
    collects and tries again. An allocation hands out its chunks one by one. */
  function Next(s: State, step: Step): State {
    match step
    case Reserve(t, k) =>
      if t < |s.owed| && s.flChunks >= s.reserved + k
      then s.(reserved := s.reserved + Needed(k), owed := s.owed[t := s.owed[t] + Needed(k)])
      else s
    case Allocate(t, k) =>
      if t < |s.owed| && s.owed[t] >= Needed(k)
      then s.(flChunks := if s.flChunks >= Needed(k) then s.flChunks - Needed(k) else 0,
              reserved := s.reserved - Needed(k), owed := s.owed[t := s.owed[t] - Needed(k)])
      else s
    case Release(k) => s.(flChunks := s.flChunks + k)
  }

  /** reserveAllocation asserts that the request is not empty (um.c:22). */
  predicate Asked(step: Step) { step.Reserve? ==> step.numChunks > 0 }

  /** The outstanding reservations add up to `reserved`, and the free list covers them. */
  ghost predicate Covered(s: State) {
    Sum(s.owed) == s.reserved <= s.flChunks
  }

  /** What an allocation relies on: the assertion `numChunks <= reserved` holds and the free list does
    not run empty. */
  ghost predicate Safe(s: State, step: Step) {
    step.Allocate? && step.thread < |s.owed| && s.owed[step.thread] >= Needed(step.numChunks) ==>
      step.numChunks <= s.reserved && Needed(step.numChunks) <= s.flChunks
  }

  lemma {:induction false} SumUpdate(s: seq<nat>, t: nat, v: nat)
    requires t < |s|
    ensures Sum(s[t := v]) == Sum(s) - s[t] + v
  {
    var n := |s| - 1;
    if t == n {
      assert s[t := v][..n] == s[..n];
    } else {
      assert s[t := v][..n] == s[..n][t := v];
      SumUpdate(s[..n], t, v);
    }
  }

  lemma {:induction false} SumHolds(s: seq<nat>, t: nat)
    requires t < |s|
    ensures s[t] <= Sum(s)
  {
    var n := |s| - 1;
    if t < n { SumHolds(s[..n], t); }
  }

  lemma StepCovered(s: State, step: Step)
    requires Covered(s) && Asked(step)
    ensures Safe(s, step) && Covered(Next(s, step))
  {
    match step
    case Reserve(t, k) =>
      if t < |s.owed| { SumUpdate(s.owed, t, s.owed[t] + Needed(k)); }
    case Allocate(t, k) =>
      if t < |s.owed| && s.owed[t] >= Needed(k) {
        SumHolds(s.owed, t);
        SumUpdate(s.owed, t, s.owed[t] - Needed(k));
      }
    case Release(_) =>
  }

  /** The state after the first `n` steps of a run. */
  function After(s: State, steps: seq<Step>, n: nat): State
    requires n <= |steps|
  {
    if n == 0 then s else Next(After(s, steps, n - 1), steps[n - 1])
  }

  /** In every interleaving of any number of threads the reservations stay covered and no allocation
    that was reserved meets an empty list. */
  lemma {:induction false} RunCovered(s: State, steps: seq<Step>, n: nat)
    requires Covered(s) && n <= |steps| && forall i | 0 <= i < n :: Asked(steps[i])
    ensures Covered(After(s, steps, n))
    ensures n < |steps| && Asked(steps[n]) ==> Safe(After(s, steps, n), steps[n])
  {
    if n > 0 {
      RunCovered(s, steps, n - 1);
      StepCovered(After(s, steps, n - 1), steps[n - 1]);
    }
    if n < |steps| && Asked(steps[n]) { StepCovered(After(s, steps, n), steps[n]); }
  }

  /** Chunks are conserved: what a run has handed out, the free list has lost. */
  function HandedOut(s: State, steps: seq<Step>, n: nat): int
    requires n <= |steps|
  {
    if n == 0 then 0
    else
      var prev := After(s, steps, n - 1);
      HandedOut(s, steps, n - 1) +
      match steps[n - 1]
      case Allocate(t, k) => if t < |prev.owed| && prev.owed[t] >= Needed(k) then Needed(k) else 0
      case Release(k) => 0 - k
      case Reserve(_, _) => 0
  }

  lemma {:induction false} RunConserves(s: State, steps: seq<Step>, n: nat)
    requires Covered(s) && n <= |steps| && forall i | 0 <= i < n :: Asked(steps[i])
    ensures After(s, steps, n).flChunks + HandedOut(s, steps, n) == s.flChunks
  {
    if n > 0 {
      RunConserves(s, steps, n - 1);
      RunCovered(s, steps, n - 1);
      StepCovered(After(s, steps, n - 1), steps[n - 1]);
    }
  }

  /** The assertion that a request is not empty is needed: with it left out, a request for no chunks
    still reserves one, and it breaks the cover exactly when everything free is reserved already. */
  lemma EmptyRequest(s: State, t: nat)
    requires Covered(s) && t < |s.owed|
    ensures Covered(Next(s, Reserve(t, 0))) <==> s.reserved < s.flChunks
  {
    SumUpdate(s.owed, t, s.owed[t] + 1);
  }
}
