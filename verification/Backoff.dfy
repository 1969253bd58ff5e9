/** The restart loop of one worker, seen as a sequence of launch-and-wait cycles. */
module Backoff {

  const BACKOFF_SECONDS: seq<int> := [2, 5, 10, 20, 30]
  const RESET_AFTER := 60.0

  /** One completed cycle. `spent` is how long the launch took when it failed, or how long the process ran;
      `late` is how much longer than asked the wait after it lasted. */
  datatype Cycle =
    | FailedSpawn(spent: real, late: real)
    | Exited(spent: real, late: real)

  predicate Timed(cycles: seq<Cycle>) {
    forall i | 0 <= i < |cycles| :: cycles[i].spent >= 0.0 && cycles[i].late >= 0.0
  }

  type Index = i: nat | i < |BACKOFF_SECONDS|

  /** The index whose delay is waited after a cycle: a long run resets it first, a failed launch never does. */
  function WaitIndex(i: Index, c: Cycle): Index {
    if c.Exited? && c.spent >= RESET_AFTER then 0 else i
  }

  function Successor(i: Index): Index {
    if i + 1 < |BACKOFF_SECONDS| then i + 1 else i
  }

  /** Total time of the cycles when the first one starts with index i. */
  function Elapsed(cycles: seq<Cycle>, i: Index): real {
    if cycles == [] then 0.0
    else
      var w := WaitIndex(i, cycles[0]);
      cycles[0].spent + BACKOFF_SECONDS[w] as real + cycles[0].late + Elapsed(cycles[1..], Successor(w))
  }

  function FinalIndex(cycles: seq<Cycle>, i: Index): Index {
    if cycles == [] then i else FinalIndex(cycles[1..], Successor(WaitIndex(i, cycles[0])))
  }

  function Restarts(cycles: seq<Cycle>): nat {
    if cycles == [] then 0 else (if cycles[0].Exited? then 1 else 0) + Restarts(cycles[1..])
  }

  lemma {:induction false} ElapsedSnoc(cycles: seq<Cycle>, c: Cycle, i: Index)
    ensures var end := FinalIndex(cycles, i);
            var w := WaitIndex(end, c);
            && Elapsed(cycles + [c], i) == Elapsed(cycles, i) + c.spent + BACKOFF_SECONDS[w] as real + c.late
            && FinalIndex(cycles + [c], i) == Successor(w)
            && Restarts(cycles + [c]) == Restarts(cycles) + if c.Exited? then 1 else 0
  {
    if cycles == [] {
      assert [c][1..] == [];
      assert cycles + [c] == [c];
    } else {
      assert (cycles + [c])[1..] == cycles[1..] + [c];
      ElapsedSnoc(cycles[1..], c, Successor(WaitIndex(i, cycles[0])));
    }
  }

  predicate IsLong(c: Cycle) {
    c.Exited? && c.spent >= 60.0
  }

  /** Which delay is waited after which cycle: 2, 5, 10, 20 and then always 30 seconds, counted from the start or from
      the last run of at least 60 seconds; failed launches and short runs go on counting. */
  lemma {:induction false} DelayIsExact(cycles: seq<Cycle>, first: nat, n: nat)
    requires first <= n < |cycles| && (first == 0 || IsLong(cycles[first]))
    requires forall k | first < k <= n :: !IsLong(cycles[k])
    ensures WaitIndex(FinalIndex(cycles[..n], 0), cycles[n]) == if n - first < 4 then n - first else 4
    ensures BACKOFF_SECONDS[WaitIndex(FinalIndex(cycles[..n], 0), cycles[n])] ==
            if n == first then 2 else if n == first + 1 then 5 else if n == first + 2 then 10
            else if n == first + 3 then 20 else 30
  {
    if n > first {
      DelayIsExact(cycles, first, n - 1);
      ElapsedSnoc(cycles[..n - 1], cycles[n - 1], 0);
      assert cycles[..n] == cycles[..n - 1] + [cycles[n - 1]];
    }
  }

  /** What one more cycle adds to the clock: the time it took, its delay, and how much later the wait ended. */
  lemma CycleTakes(cycles: seq<Cycle>, c: Cycle)
    ensures Elapsed(cycles + [c], 0) ==
            Elapsed(cycles, 0) + c.spent + BACKOFF_SECONDS[WaitIndex(FinalIndex(cycles, 0), c)] as real + c.late
  {
    ElapsedSnoc(cycles, c, 0);
  }

  /** The loop as the worker runs it, on a history of what the launches and the waits did. */
  method RunCycles(cycles: seq<Cycle>) returns (backoffIndex: nat, restartCount: nat, clock: real)
    requires Timed(cycles)
    ensures backoffIndex < |BACKOFF_SECONDS|
    ensures clock == Elapsed(cycles, 0) && restartCount == Restarts(cycles)
    ensures 4.0 * clock >= 97.0 * |cycles| as real - 240.0
  {
    backoffIndex, restartCount, clock := 0, 0, 0.0;
    var done := 0;
    while done < |cycles|
      invariant 0 <= done <= |cycles|
      invariant backoffIndex < |BACKOFF_SECONDS|
      invariant backoffIndex == FinalIndex(cycles[..done], 0)
      invariant clock == Elapsed(cycles[..done], 0)
      invariant restartCount == Restarts(cycles[..done])
    {
      var c := cycles[done];
      ElapsedSnoc(cycles[..done], c, 0);
      assert cycles[..done + 1] == cycles[..done] + [c];
      clock := clock + c.spent;
      if c.Exited? {
        restartCount := restartCount + 1;
        if c.spent >= RESET_AFTER {
          backoffIndex := 0;
        }
      }
      var delay := BACKOFF_SECONDS[backoffIndex];
      clock := clock + delay as real + c.late;
      backoffIndex := if backoffIndex + 1 <= |BACKOFF_SECONDS| - 1 then backoffIndex + 1 else |BACKOFF_SECONDS| - 1;
      done := done + 1;
    }
    assert cycles[..done] == cycles;
    AmortisedBound(cycles, 0);
  }

  /** What the cheap early delays can still save, in quarters of a second. */
  function Credit(i: Index): real {
    [240.0, 151.0, 74.0, 17.0, 0.0][i]
  }

  /** Restarts are limited on average, whatever mixture of failed launches, short runs and long runs happens:
      n cycles take at least (97n - 240)/4 seconds. */
  lemma {:induction false} AmortisedBound(cycles: seq<Cycle>, i: Index)
    requires Timed(cycles)
    ensures 4.0 * Elapsed(cycles, i) >= 97.0 * |cycles| as real - Credit(i)
  {
    if cycles != [] {
      AmortisedBound(cycles[1..], Successor(WaitIndex(i, cycles[0])));
    }
  }

  /** Three short runs after each run of exactly one minute: the cheapest rhythm. */
  function Cheapest(blocks: nat): seq<Cycle> {
    if blocks == 0 then []
    else [Exited(RESET_AFTER, 0.0), Exited(0.0, 0.0), Exited(0.0, 0.0), Exited(0.0, 0.0)] + Cheapest(blocks - 1)
  }

  lemma {:induction false} CheapestCost(blocks: nat, i: Index)
    ensures |Cheapest(blocks)| == 4 * blocks && Timed(Cheapest(blocks))
    ensures Elapsed(Cheapest(blocks), i) == 97.0 * blocks as real
  {
    if blocks > 0 {
      CheapestCost(blocks - 1, 4);
      var all := Cheapest(blocks);
      assert all[1..][1..][1..][1..] == Cheapest(blocks - 1);
      var rest := all[1..][1..][1..];
      assert Elapsed(rest, 3) == 20.0 + Elapsed(Cheapest(blocks - 1), 4);
      assert Elapsed(all[1..][1..], 2) == 10.0 + Elapsed(rest, 3);
      assert Elapsed(all[1..], 1) == 5.0 + Elapsed(all[1..][1..], 2);
      assert Elapsed(all, i) == 60.0 + 2.0 + Elapsed(all[1..], 1);
    }
  }

  /** The bound is tight: for every multiple of four some history of a new worker meets it exactly. */
  lemma BoundIsTight(blocks: nat)
    requires blocks > 0
    ensures exists cycles ::
              && Timed(cycles) && |cycles| == 4 * blocks
              && 4.0 * Elapsed(cycles, 0) == 97.0 * |cycles| as real - 240.0
  {
    var cycles := [Exited(0.0, 0.0)] + Cheapest(blocks)[1..];
    CheapestCost(blocks, 0);
    assert cycles[1..] == Cheapest(blocks)[1..];
    assert Cheapest(blocks)[0] == Exited(RESET_AFTER, 0.0);
    assert Elapsed(cycles, 0) == Elapsed(Cheapest(blocks), 0) - 60.0;
  }
}
