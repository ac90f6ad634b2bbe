/**
 The end of a receiver round (`process_large_files` in crates/core/src/net/recv.rs) and the sender's retry loop
 between rounds (`ConnectionManager::reconnect` in crates/core/src/net/connection_manager.rs).
 */
module Receiver {

  /** `token(k)`: whether the cancel token is found cancelled at the k-th look; it never clears. */
  ghost predicate Sticky(token: nat -> bool) {
    forall i: nat, k: nat :: i <= k && token(i) ==> token(k)
  }

  /** Draining chunk tasks or writers: the first error not seen under a cancelled token is kept. */
  method Drain(results: seq<bool>, firstError: bool, looks: nat, token: nat -> bool) returns (error: bool, next: nat)
    requires Sticky(token)
    ensures looks <= next <= looks + |results| && (firstError ==> error)
    ensures !token(next) ==> (error <==> firstError || false in results)
  {
    error, next := firstError, looks;
    for i := 0 to |results|
      invariant looks <= next <= looks + i && (firstError ==> error)
      invariant !token(next) ==> (error <==> firstError || false in results[..i])
    {
      if !results[i] {
        if !token(next) {
          error := true;
        }
        next := next + 1;
      }
      assert results[..i + 1] == results[..i] + [results[i]];
    }
    assert results[..|results|] == results;
  }

  /**
   The verdict of a round: success if and only if the token is clear at the last look and every chunk task and every
   writer ended without error. Errors passed over while cancelled cannot be lost, because cancellation sticks.
   */
  method Verdict(tasks: seq<bool>, writers: seq<bool>, token: nat -> bool) returns (ok: bool, lastLook: nat)
    requires Sticky(token)
    ensures lastLook <= |tasks| + |writers|
    ensures ok <==> !token(lastLook) && false !in tasks && false !in writers
  {
    var error, looks := Drain(tasks, false, 0, token);
    error, lastLook := Drain(writers, error, looks, token);
    if token(lastLook) {
      return false, lastLook;
    }
    return !error, lastLook;
  }

  const MAX_WAIT: nat := 30_000

  /** Milliseconds slept before attempt n. */
  function Backoff(attempt: nat): nat {
    if attempt * 1_000 < 2_000 then attempt * 1_000 else 2_000
  }

  /** One second, then two each time: the waits do not grow. */
  lemma BackoffIsFlat(attempt: nat)
    requires attempt >= 1
    ensures Backoff(attempt) == if attempt == 1 then 1_000 else 2_000
  {
  }

  /** One turn of the retry loop: the token at its start, how long it slept and dialled, and whether that worked. */
  datatype Attempt = Attempt(cancelled: bool, slept: nat, dialled: nat, connected: bool)

  /** Milliseconds gone by after n attempts. */
  ghost function Elapsed(env: nat -> Attempt, n: nat): nat {
    if n == 0 then 0 else Elapsed(env, n - 1) + env(n - 1).slept + env(n - 1).dialled
  }

  /** A turn finds the token clear and time left, and dials. */
  ghost predicate Dials(env: nat -> Attempt, k: nat) {
    !env(k).cancelled && Elapsed(env, k) <= 30_000
  }

  ghost predicate DialsInVain(env: nat -> Attempt, k: nat) {
    Dials(env, k) && !env(k).connected
  }

  /** The first n turns all dial, and fail to connect. */
  ghost predicate Retried(env: nat -> Attempt, n: nat) {
    forall k :: 0 <= k < n ==> DialsInVain(env, k)
  }

  ghost predicate LoopInv(env: nat -> Attempt, n: nat, elapsed: nat) {
    elapsed == Elapsed(env, n) && n <= 16 && elapsed + 1_000 >= 2_000 * n && Retried(env, n)
  }

  lemma {:induction false} TurnKeeps(env: nat -> Attempt, n: nat, elapsed: nat)
    requires LoopInv(env, n, elapsed) && env(n).slept >= Backoff(n + 1)
    requires !env(n).cancelled && elapsed <= 30_000
    ensures n < 16 && elapsed + env(n).slept + env(n).dialled == Elapsed(env, n + 1)
    ensures !env(n).connected ==> LoopInv(env, n + 1, elapsed + env(n).slept + env(n).dialled)
  {
    assert Elapsed(env, n + 1) == elapsed + env(n).slept + env(n).dialled;
    assert !env(n).connected ==> DialsInVain(env, n);
    hide DialsInVain, Elapsed;
  }

  /** What the caller gets: the first turn that connects, or the first that does not dial. */
  ghost predicate Outcome(env: nat -> Attempt, ok: bool, attempt: nat, elapsed: nat) {
    && elapsed == Elapsed(env, attempt)
    && (ok ==> attempt > 0 && Retried(env, attempt - 1) && Dials(env, attempt - 1) && env(attempt - 1).connected)
    && (!ok ==> Retried(env, attempt) && !Dials(env, attempt))
  }

  /**
   The retry loop ends after at most 16 attempts: with the first that connects, or at the first turn that finds the
   token cancelled or more than 30 seconds gone by.
   */
  method Reconnect(env: nat -> Attempt) returns (ok: bool, attempt: nat, elapsed: nat)
    requires forall k: nat :: env(k).slept >= Backoff(k + 1)
    ensures attempt <= 16 && Outcome(env, ok, attempt, elapsed)
  {
    attempt, elapsed := 0, 0;
    assert LoopInv(env, 0, 0);
    hide Elapsed;
    while true
      invariant LoopInv(env, attempt, elapsed)
      decreases 16 - attempt
    {
      if env(attempt).cancelled || elapsed > MAX_WAIT {
        return false, attempt, elapsed;
      }
      var turn := env(attempt);
      TurnKeeps(env, attempt, elapsed);
      attempt, elapsed := attempt + 1, elapsed + turn.slept + turn.dialled;
      if turn.connected {
        return true, attempt, elapsed;
      }
    }
  }
}
