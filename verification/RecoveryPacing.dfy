// The timing of one recovery run: failure window, circuit and backoff.
module RecoveryPacing {
  import opened Common

  const MIN_DELAY := 0.2
  const MAX_DELAY := 8.0
  const FACTOR := 1.8
  const WINDOW := 60.0
  const LIMIT := 3
  const OPEN_SECONDS := 15.0

  /** How long the loop sleeps after its failure number n, counted from zero. */
  function Backoff(n: nat): real {
    if n == 0 then MIN_DELAY
    else if MAX_DELAY <= Backoff(n - 1) * FACTOR then MAX_DELAY else Backoff(n - 1) * FACTOR
  }

  /** The sleeps grow, within their bounds, and are the longest from the eighth failure on. */
  lemma {:induction false} BackoffBounds(n: nat)
    ensures MIN_DELAY <= Backoff(n) <= Backoff(n + 1) <= MAX_DELAY
    ensures Backoff(n) == MAX_DELAY <==> n >= 7
  {
    if n > 7 {
      BackoffBounds(n - 1);
    } else {
      assert Backoff(1) == 0.36 && Backoff(2) == 0.648 && Backoff(3) == 1.1664;
      assert Backoff(4) == 2.09952 && Backoff(5) == 3.779136 && Backoff(6) == 6.8024448;
    }
  }

  lemma BackoffSteps(n: nat)
    ensures Backoff(0) == MIN_DELAY
    ensures Backoff(n + 1) == if MAX_DELAY <= Backoff(n) * FACTOR then MAX_DELAY else Backoff(n) * FACTOR
  {
  }

  /** The stored failures that are not older than a cutoff. */
  function Recent(failures: seq<real>, cutoff: real): (r: seq<real>)
    ensures |r| <= |failures|
    ensures forall f :: f in r <==> f in failures && f >= cutoff
  {
    if failures == [] then []
    else
      var front, last := Recent(failures[..|failures| - 1], cutoff), failures[|failures| - 1];
      assert failures == failures[..|failures| - 1] + [last];
      if last >= cutoff then front + [last] else front
  }

  /** Failures since the last opening are at the end of the stored list while in the window. */
  ghost predicate Tracks(failures: seq<real>, failed: seq<real>, tripped: seq<bool>) {
    var n := |failed|;
    && |tripped| == n
    && (n > 0 && !tripped[n - 1] ==> failures != [] && failures[|failures| - 1] == failed[n - 1])
    && (n > 1 && !tripped[n - 1] && !tripped[n - 2] && failed[n - 2] >= failed[n - 1] - WINDOW ==>
          |failures| >= 2 && failures[|failures| - 2] == failed[n - 2])
  }

  /** After every failure that opened the circuit, the next attempt began at least the open time later. */
  ghost predicate Pauses(circuitUntil: real, began: seq<real>, failed: seq<real>, tripped: seq<bool>) {
    && |failed| <= |began| <= |failed| + 1 && |tripped| == |failed|
    && (forall j :: 0 <= j < |failed| && tripped[j] && j + 1 < |began| ==> began[j + 1] >= failed[j] + OPEN_SECONDS)
    && (|began| == |failed| && |failed| > 0 && tripped[|failed| - 1] ==>
      circuitUntil >= failed[|failed| - 1] + OPEN_SECONDS)
  }

  /** After every failure the loop slept at least its backoff before the next attempt. */
  ghost predicate Spaced(began: seq<real>, failed: seq<real>) {
    forall j :: 0 <= j < |failed| && j + 1 < |began| ==> began[j + 1] >= failed[j] + Backoff(j)
  }

  /** Any three failures in a row within the window include one that opened the circuit. */
  ghost predicate Opens(failed: seq<real>, tripped: seq<bool>) {
    |tripped| == |failed| &&
    forall i :: 0 <= i < |failed| - 2 && failed[i] <= failed[i + 1] <= failed[i + 2] <= failed[i] + WINDOW ==>
      tripped[i] || tripped[i + 1] || tripped[i + 2]
  }

  /** What a run so far has kept to. */
  ghost predicate Paced(failures: seq<real>, circuitUntil: real, began: seq<real>, failed: seq<real>,
                        tripped: seq<bool>) {
    && |failures| < LIMIT
    && Tracks(failures, failed, tripped) && Pauses(circuitUntil, began, failed, tripped) && Spaced(began, failed) && Opens(failed, tripped)
  }

  lemma NewRunIsPaced(failures: seq<real>, circuitUntil: real)
    requires |failures| < LIMIT
    ensures Paced(failures, circuitUntil, [], [], [])
  {
  }

  class RecoveryRun {
    var failures: seq<real>
    var circuitUntil: real
    var delay: real
    // The run so far: when each attempt began and failed, and whether that opened the circuit.
    ghost var began: seq<real>
    ghost var failed: seq<real>
    ghost var tripped: seq<bool>

    ghost predicate Valid()
      reads this
    {
      MIN_DELAY <= delay <= MAX_DELAY && Paced(failures, circuitUntil, began, failed, tripped)
    }

    /** A run starts with whatever failures and circuit earlier runs left. */
    constructor (failures: seq<real>, circuitUntil: real)
      requires |failures| < LIMIT
      ensures Valid() && began == [] && failed == [] && delay == MIN_DELAY && this.failures == failures
    {
      hide Paced;
      NewRunIsPaced(failures, circuitUntil);
      this.failures, this.circuitUntil, delay := failures, circuitUntil, MIN_DELAY;
      began, failed, tripped := [], [], [];
    }

    /** Store a failure; the third within the window opens the circuit and clears the list. */
    method RecordFailure(now: real) returns (open: bool)
      requires Valid() && |began| == |failed| + 1
      modifies `failures, `circuitUntil, `failed, `tripped
      ensures Valid() && |began| == |failed|
      ensures failed == old(failed) + [now] && tripped == old(tripped) + [open]
      ensures open <==> |Recent(old(failures), now - WINDOW)| + 1 >= LIMIT
      ensures open ==> circuitUntil == now + OPEN_SECONDS && failures == []
      ensures !open ==> circuitUntil == old(circuitUntil) && failures == Recent(old(failures), now - WINDOW) + [now]
    {
      var kept := Recent(failures, now - WINDOW);
      RecentKeepsEnd(failures, now - WINDOW);
      failed := failed + [now];
      failures := kept + [now];
      if |failures| < LIMIT {
        open := false;
      } else {
        circuitUntil := now + OPEN_SECONDS;
        failures := [];
        open := true;
      }
      tripped := tripped + [open];
    }

    /** Sleep out the circuit, then begin an attempt; sleeping may take longer than asked. */
    method BeginAttempt(wakes: real, circuitWakes: real) returns (now: real)
      requires Valid() && |began| == |failed|
      requires failed != [] ==> wakes >= failed[|failed| - 1] + Backoff(|failed| - 1)
      requires circuitUntil > wakes ==> circuitWakes >= wakes + (circuitUntil - wakes)
      modifies `began
      ensures Valid() && |began| == |failed| + 1 && began == old(began) + [now]
      ensures now == if circuitUntil > wakes then circuitWakes else wakes
    {
      now := if circuitUntil > wakes then circuitWakes else wakes;
      began := began + [now];
    }

    /** One round of the loop, up to its sleep.  The clock answers are left open. */
    method Attempt(lastFailure: real, slept: real) returns (recovered: bool, failedAt: real)
      requires Valid() && |began| == |failed|
      requires failed != [] ==> lastFailure == failed[|failed| - 1] && slept == Backoff(|failed| - 1)
      modifies `failures, `circuitUntil, `began, `failed, `tripped
      ensures Valid() && |began| == |old(began)| + 1
      ensures failed == if recovered then old(failed) else old(failed) + [failedAt]
    {
      var started: real, overslept: real := *, *;
      var wakes := if started >= lastFailure + slept then started else lastFailure + slept;
      var circuitWakes := if circuitUntil > wakes then circuitUntil + (if overslept > 0.0 then overslept else 0.0) else wakes;
      var _ := BeginAttempt(wakes, circuitWakes);
      recovered := *;
      failedAt := *;
      if !recovered {
        var _ := RecordFailure(failedAt);
      }
    }

    /**
     * A recovery run of any length: attempts fail, the loop sleeps and backs off, until
     * one succeeds or the observation ends.
     */
    method Recover(rounds: nat) returns (recovered: bool)
      requires Valid() && began == [] && failed == [] && delay == MIN_DELAY
      modifies this
      ensures Valid() && |failed| <= rounds && delay == Backoff(|failed|)
      ensures recovered <==> |began| > |failed|
    {
      hide Backoff, Paced;
      recovered := false;
      var remaining: nat := rounds;
      var lastFailure, slept := 0.0, 0.0;
      assert delay == Backoff(0) by { BackoffSteps(0); }
      while remaining > 0 && !recovered
        invariant Valid() && |began| == |failed| + (if recovered then 1 else 0)
        invariant remaining + |failed| <= rounds && delay == Backoff(|failed|)
        invariant !recovered && failed != [] ==> lastFailure == failed[|failed| - 1] && slept == Backoff(|failed| - 1)
        decreases remaining
      {
        ghost var n := |failed|;
        recovered, lastFailure := Attempt(lastFailure, slept);
        if !recovered {
          slept := delay;
          BackoffSteps(n);
          BackoffBounds(n);
          delay := if MAX_DELAY <= delay * FACTOR then MAX_DELAY else delay * FACTOR;
        }
        remaining := remaining - 1;
      }
    }

    /** Three failures within the window, in a row: after one of them nothing is tried for the open time. */
    lemma ThreeFailuresPause(i: nat)
      requires Valid() && i + 2 < |failed| && failed[i] <= failed[i + 1] <= failed[i + 2] <= failed[i] + WINDOW
      ensures exists j :: i <= j <= i + 2 && tripped[j] && (j + 1 < |began| ==> began[j + 1] >= failed[j] + OPEN_SECONDS)
    {
      var j := if tripped[i] then i else if tripped[i + 1] then i + 1 else i + 2;
      assert tripped[j];
    }
  }

  /** A recent failure at the end of the list, and the one before it, stay at the end. */
  lemma RecentKeepsEnd(failures: seq<real>, cutoff: real)
    ensures var n, r := |failures|, Recent(failures, cutoff);
      && (n > 0 && failures[n - 1] >= cutoff ==> r != [] && r[|r| - 1] == failures[n - 1])
      && (n > 1 && failures[n - 1] >= cutoff && failures[n - 2] >= cutoff ==> |r| >= 2 && r[|r| - 2] == failures[n - 2])
  {
    var n := |failures|;
    if n > 1 {
      assert failures[..n - 1][..n - 2] == failures[..n - 2];
    }
  }
}
