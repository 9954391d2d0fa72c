/** The client's reconnect loop: exponential backoff, a retry limit, and shutdown. */
module Reconnect {
  import opened Basics

  /** `std::time::Duration` in nanoseconds. */
  const DURATION_MAX: nat := 0xFFFF_FFFF_FFFF_FFFF * 1_000_000_000 + 999_999_999
  type Duration = n: nat | n <= DURATION_MAX

  datatype Config = Config(maxRetries: Option<u32>, initialBackoff: Duration, maxBackoff: Duration)

  /** How one pass through the loop goes: what connecting led to, and whether a shutdown
      signal cuts the sleep short that follows a failure. */
  datatype Outcome = ConnectFailed | SessionLost | SessionShutdown | ShutdownWhileConnecting

  datatype Round = Round(outcome: Outcome, sleepInterrupted: bool)

  datatype Verdict = Running | Stopped | GaveUp(attempts: nat)

  /** `next_backoff`: `saturating_mul(2)`, then the cap. */
  function NextBackoff(current: nat, maxBackoff: nat): nat {
    Min(Min(2 * current, DURATION_MAX), maxBackoff)
  }

  // ---------------------------------------------------------------------------
  // What the loop is documented to do
  // ---------------------------------------------------------------------------

  function Pow2(n: nat): nat {
    if n == 0 then 1 else 2 * Pow2(n - 1)
  }

  /** `d` doubled `n` times. */
  function Doubled(d: nat, n: nat): nat {
    if n == 0 then d else 2 * Doubled(d, n - 1)
  }

  lemma {:induction false} DoubledIsPower(d: nat, n: nat)
    ensures Doubled(d, n) == d * Pow2(n)
  {
    if n > 0 {
      DoubledIsPower(d, n - 1);
      assert d * (2 * Pow2(n - 1)) == 2 * (d * Pow2(n - 1));
    }
  }

  /** The n-th sleep of a streak of failures. */
  function SleepTime(c: Config, n: nat): nat
    requires n >= 1
  {
    if n == 1 then c.initialBackoff else Min(Doubled(c.initialBackoff, n - 1), c.maxBackoff)
  }

  /** How many rounds have failed in a row up to and including round `i`. A session that was
      established and lost is the first failure of a new streak. */
  function Streak(rounds: seq<Round>, i: nat): (n: nat)
    requires i < |rounds|
    ensures 1 <= n <= i + 1
  {
    if i == 0 || rounds[i].outcome.SessionLost? then 1 else Streak(rounds, i - 1) + 1
  }

  predicate IsShutdown(o: Outcome) {
    o.SessionShutdown? || o.ShutdownWhileConnecting?
  }

  /** More failures in a row than the limit allows. The loop counts them in a saturating u32. */
  predicate OverLimit(c: Config, rounds: seq<Round>, i: nat)
    requires i < |rounds|
  {
    c.maxRetries.Some? && Min(Streak(rounds, i), U32_MAX) > c.maxRetries.value
  }

  predicate Ends(c: Config, rounds: seq<Round>, i: nat)
    requires i < |rounds|
  {
    IsShutdown(rounds[i].outcome) || OverLimit(c, rounds, i) || rounds[i].sleepInterrupted
  }

  function VerdictAt(c: Config, rounds: seq<Round>, i: nat): Verdict
    requires i < |rounds|
  {
    if !IsShutdown(rounds[i].outcome) && OverLimit(c, rounds, i)
    then GaveUp(Min(Streak(rounds, i), U32_MAX) - 1)
    else Stopped
  }

  /** Whether round `i` gets as far as starting to sleep. */
  predicate Sleeps(c: Config, rounds: seq<Round>, i: nat)
    requires i < |rounds|
  {
    !IsShutdown(rounds[i].outcome) && !OverLimit(c, rounds, i)
  }

  lemma DoubledSleep(c: Config, n: nat)
    requires n >= 1
    ensures NextBackoff(SleepTime(c, n), c.maxBackoff) == SleepTime(c, n + 1)
  {
    assert Doubled(c.initialBackoff, n) == 2 * Doubled(c.initialBackoff, n - 1);
  }

  /** The sleeps started so far are those of the streaks so far. */
  predicate SleepsMatch(c: Config, rounds: seq<Round>, sleeps: seq<nat>) {
    && |sleeps| <= |rounds|
    && forall j | 0 <= j < |sleeps| :: sleeps[j] == SleepTime(c, Streak(rounds, j))
  }

  predicate NoneEnds(c: Config, rounds: seq<Round>, n: nat)
    requires n <= |rounds|
  {
    forall j | 0 <= j < n :: !Ends(c, rounds, j)
  }

  /** `run_with_reconnect` on a given sequence of rounds: `sleeps` are the sleeps it starts, and
      `used` is the number of rounds that it goes through. */
  method RunWithReconnect(c: Config, rounds: seq<Round>)
    returns (sleeps: seq<nat>, verdict: Verdict, used: nat)
    ensures used <= |rounds| && SleepsMatch(c, rounds, sleeps)
    ensures verdict.Running? ==> used == |rounds| == |sleeps| && NoneEnds(c, rounds, used)
    ensures !verdict.Running? ==>
              && used >= 1 && NoneEnds(c, rounds, used - 1) && Ends(c, rounds, used - 1)
              && verdict == VerdictAt(c, rounds, used - 1)
              && |sleeps| == used - if Sleeps(c, rounds, used - 1) then 0 else 1
  {
    sleeps := [];
    used := 0;
    var backoff: nat, attempt: nat := c.initialBackoff, 0;
    ghost var streak := 0;
    while used < |rounds|
      invariant used == |sleeps| <= |rounds|
      invariant streak == if used == 0 then 0 else Streak(rounds, used - 1)
      invariant attempt == Min(streak, U32_MAX)
      invariant backoff == SleepTime(c, streak + 1)
      invariant SleepsMatch(c, rounds, sleeps)
      invariant NoneEnds(c, rounds, used)
    {
      var round := rounds[used];
      used := used + 1;
      if IsShutdown(round.outcome) {
        verdict := Stopped;
        return;
      }
      if round.outcome.SessionLost? {
        attempt := 0;
        backoff := c.initialBackoff;
        streak := 0;
      }
      attempt := if attempt == U32_MAX then attempt else attempt + 1;
      streak := streak + 1;
      assert streak == Streak(rounds, used - 1);
      if c.maxRetries.Some? && attempt > c.maxRetries.value {
        verdict := GaveUp(attempt - 1);
        return;
      }
      sleeps := sleeps + [backoff];
      if round.sleepInterrupted {
        verdict := Stopped;
        return;
      }
      DoubledSleep(c, streak);
      backoff := NextBackoff(backoff, c.maxBackoff);
    }
    verdict := Running;
  }

  // ---------------------------------------------------------------------------
  // The retry limit
  // ---------------------------------------------------------------------------

  /** With a limit of m below the largest u32, the first round that is over the limit is the
      one whose streak is exactly m + 1, and the loop reports m attempts. */
  lemma GivesUpExactly(c: Config, rounds: seq<Round>, i: nat)
    requires i < |rounds| && c.maxRetries.Some? && c.maxRetries.value < U32_MAX
    requires forall j | 0 <= j < i :: !OverLimit(c, rounds, j)
    ensures OverLimit(c, rounds, i) <==> Streak(rounds, i) == c.maxRetries.value + 1
    ensures OverLimit(c, rounds, i) && !IsShutdown(rounds[i].outcome) ==>
              VerdictAt(c, rounds, i) == GaveUp(c.maxRetries.value)
  {
    if i > 0 {
      assert !OverLimit(c, rounds, i - 1);
    }
  }

  /** Without a limit, and with the largest one, the loop never gives up: the counter saturates
      at a value that is not over the limit. */
  lemma NeverGivesUp(c: Config, rounds: seq<Round>, i: nat)
    requires i < |rounds|
    requires c.maxRetries.None? || c.maxRetries.value == U32_MAX
    ensures !OverLimit(c, rounds, i) && VerdictAt(c, rounds, i) == Stopped
  {
  }

  /** The closed form of the sleeps. After the first they never shrink and never exceed the
      cap, and from some point on they stay at it unless the first one was zero. */
  lemma SleepsReachTheCap(c: Config, n: nat)
    requires n >= 2
    ensures SleepTime(c, n) == Min(c.initialBackoff * Pow2(n - 1), c.maxBackoff)
    ensures SleepTime(c, n) <= SleepTime(c, n + 1) <= c.maxBackoff
    ensures c.initialBackoff > 0 && n > c.maxBackoff ==> SleepTime(c, n) == c.maxBackoff
  {
    PowGrows(n - 1);
    DoubledIsPower(c.initialBackoff, n - 1);
    if c.initialBackoff > 0 && n > c.maxBackoff {
      assert c.initialBackoff * Pow2(n - 1) >= 1 * Pow2(n - 1);
    }
  }

  lemma {:induction false} PowGrows(n: nat)
    ensures Pow2(n) >= n + 1
  {
    if n > 0 {
      PowGrows(n - 1);
    }
  }
}
