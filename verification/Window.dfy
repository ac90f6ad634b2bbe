/**
 The sender's sliding window (`stream_chunks`, `spawn_chunk` in crates/core/src/net/send.rs). A chunk is named by
 its place in the task list. Which one in flight finishes next, how, and when the token is cancelled is the
 environment's choice.
 */
module Window {
  const MAX_CONCURRENT_STREAMS: nat := 32

  /** Sent: `send_chunk` ran to completion. Abandoned: it ended through its cancelled arm, with Ok. */
  datatype Outcome = Sent | Abandoned | Failed

  /** `was`: the token at the end of the send; `seen`: the token when the loop looks after the join. */
  datatype Tick = Tick(outcome: Outcome, was: bool, seen: bool)

  datatype Move = Spawn(task: nat) | Join(task: nat, tick: Tick)

  /** The cancelled arm needs a cancelled token, and cancellation is sticky. */
  ghost predicate Sticky(env: nat -> Tick) {
    forall k :: (env(k).outcome == Abandoned ==> env(k).was) && (env(k).was ==> env(k).seen)
  }

  ghost function Spawned(log: seq<Move>): nat {
    if log == [] then 0
    else Spawned(log[..|log| - 1]) + (if log[|log| - 1].Spawn? then 1 else 0)
  }

  ghost function InFlight(log: seq<Move>): set<nat> {
    if log == [] then {}
    else
      var before, last := InFlight(log[..|log| - 1]), log[|log| - 1];
      if last.Spawn? then before + {last.task} else before - {last.task}
  }

  /** Every move is one the window allows: the next task of the list into a free place, or one in flight out. */
  ghost predicate Windowed(log: seq<Move>) {
    log == [] ||
    var before, last := log[..|log| - 1], log[|log| - 1];
    && Windowed(before)
    && (if last.Spawn? then |InFlight(before)| < MAX_CONCURRENT_STREAMS && last.task == Spawned(before)
        else last.task in InFlight(before))
  }

  /** `send_chunk` ran to completion, and the token was clear after its join. */
  predicate Clean(m: Move) {
    m.Join? ==> m.tick.outcome == Sent && !m.tick.seen
  }

  /** What the joins of the log found, in order. */
  ghost function Joins(log: seq<Move>): seq<Tick> {
    if log == [] then []
    else
      var last := log[|log| - 1];
      Joins(log[..|log| - 1]) + (if last.Join? then [last.tick] else [])
  }

  /** The joins took what the environment answered, one after the other. */
  ghost predicate FromEnv(log: seq<Move>, env: nat -> Tick) {
    forall j :: 0 <= j < |Joins(log)| ==> Joins(log)[j] == env(j)
  }

  ghost predicate JoinedAt(log: seq<Move>, i: nat, k: nat) {
    k < |log| && log[k].Join? && log[k].task == i
  }

  /** The window is kept full: 32 are in flight whenever one is joined, unless all n have been spawned. */
  ghost predicate Full(log: seq<Move>, n: nat) {
    forall k :: 0 <= k < |log| && log[k].Join? ==> |InFlight(log[..k])| == 32 || Spawned(log[..k]) == n
  }

  lemma FullOn(log: seq<Move>, n: nat, move: Move)
    requires Full(log, n) && (move.Join? ==> |InFlight(log)| == 32 || Spawned(log) == n)
    ensures Full(log + [move], n)
  {
    var log1 := log + [move];
    forall k | 0 <= k < |log1| && log1[k].Join?
      ensures |InFlight(log1[..k])| == 32 || Spawned(log1[..k]) == n
    {
      assert log1[..k] == if k < |log| then log[..k] else log;
    }
  }

  /** Window safety, at every moment of a run: at most 32 in flight, and only tasks already spawned. */
  lemma {:induction false} WindowBounded(log: seq<Move>)
    requires Windowed(log)
    ensures forall k :: 0 <= k <= |log| ==> |InFlight(log[..k])| <= 32
    ensures forall i :: i in InFlight(log) ==> i < Spawned(log)
  {
    assert log[..|log|] == log;
    if log != [] {
      var before := log[..|log| - 1];
      WindowBounded(before);
      assert forall k :: 0 <= k <= |before| ==> log[..k] == before[..k];
      assert before[..|before|] == before;
    }
  }

  /** A spawned task is in flight, or was joined exactly once. */
  lemma {:induction false} JoinedOnce(log: seq<Move>, i: nat)
    requires Windowed(log)
    ensures i < Spawned(log) ==> (i !in InFlight(log) <==> exists k :: JoinedAt(log, i, k))
    ensures i >= Spawned(log) || i in InFlight(log) ==> forall k :: !JoinedAt(log, i, k)
    ensures forall a, b :: JoinedAt(log, i, a) && JoinedAt(log, i, b) ==> a == b
  {
    if log != [] {
      var before, n := log[..|log| - 1], |log| - 1;
      JoinedOnce(before, i);
      WindowBounded(before);
      assert forall k: nat :: k < n ==> (JoinedAt(log, i, k) <==> JoinedAt(before, i, k));
      assert JoinedAt(log, i, n) <==> log[n].Join? && log[n].task == i;
    }
  }

  /** Every task spawned is in flight or joined. */
  lemma {:induction false} JoinsCount(log: seq<Move>)
    requires Windowed(log)
    ensures |Joins(log)| + |InFlight(log)| == Spawned(log)
  {
    if log != [] {
      JoinsCount(log[..|log| - 1]);
      WindowBounded(log[..|log| - 1]);
    }
  }

  /** What the loops keep: the log so far describes the local state, and nothing has gone wrong. */
  ghost predicate LoopInv(n: nat, next: nat, inFlight: set<nat>, log: seq<Move>) {
    && Windowed(log) && InFlight(log) == inFlight && Spawned(log) == next <= n
    && (forall k :: 0 <= k < |log| ==> Clean(log[k]))
  }

  /** So far every answer was a chunk sent, under a clear token. */
  ghost predicate EnvInv(env: nat -> Tick, joins: nat, log: seq<Move>) {
    && FromEnv(log, env) && |Joins(log)| == joins
    && forall j :: 0 <= j < joins ==> env(j).outcome == Sent && !env(j).seen
  }

  lemma SpawnJoins(env: nat -> Tick, joins: nat, log: seq<Move>, task: nat)
    requires EnvInv(env, joins, log)
    ensures EnvInv(env, joins, log + [Spawn(task)])
  {
    assert (log + [Spawn(task)])[..|log|] == log;
  }

  lemma JoinJoins(env: nat -> Tick, joins: nat, log: seq<Move>, task: nat)
    requires EnvInv(env, joins, log)
    ensures var log1 := log + [Join(task, env(joins))];
            && FromEnv(log1, env) && |Joins(log1)| == joins + 1
            && (env(joins).outcome == Sent && !env(joins).seen ==> EnvInv(env, joins + 1, log1))
  {
    assert (log + [Join(task, env(joins))])[..|log|] == log;
  }

  lemma SpawnKeeps(n: nat, next: nat, inFlight: set<nat>, log: seq<Move>)
    requires LoopInv(n, next, inFlight, log) && next < n && |inFlight| < MAX_CONCURRENT_STREAMS
    ensures LoopInv(n, next + 1, inFlight + {next}, log + [Spawn(next)]) && next !in inFlight
    ensures |inFlight + {next}| == |inFlight| + 1
  {
    assert (log + [Spawn(next)])[..|log|] == log;
    WindowBounded(log);
  }

  lemma JoinKeeps(n: nat, next: nat, inFlight: set<nat>, log: seq<Move>, task: nat, tick: Tick)
    requires LoopInv(n, next, inFlight, log) && task in inFlight
    ensures var log1 := log + [Join(task, tick)];
            && Windowed(log1) && Spawned(log1) == next
            && (Clean(Join(task, tick)) ==> LoopInv(n, next, inFlight - {task}, log1))
    ensures |inFlight - {task}| == |inFlight| - 1
  {
    assert (log + [Join(task, tick)])[..|log|] == log;
  }

  /**
   Every move keeps the window, which is full as long as there are tasks to spawn, and the joins take the environment's
   answers in order. Ok means that all n tasks were
   spawned, in order and once each, and joined; it comes if and only if each of the first n answers is a chunk sent
   under a clear token. An error comes with the first answer that is not.
   */
  method StreamChunks(n: nat, env: nat -> Tick) returns (ok: bool, log: seq<Move>)
    requires Sticky(env)
    ensures Windowed(log) && Spawned(log) <= n && Full(log, n)
    ensures FromEnv(log, env)
    ensures ok <==> forall j :: 0 <= j < n ==> env(j).outcome == Sent && !env(j).seen
    ensures ok ==> Spawned(log) == n && InFlight(log) == {} && |Joins(log)| == n
    ensures !ok ==>
              var j := |Joins(log)| - 1;
              && 0 <= j < n && log[|log| - 1].Join? && (env(j).outcome != Sent || env(j).seen)
              && forall i :: 0 <= i < j ==> env(i).outcome == Sent && !env(i).seen
    ensures ok <==> forall k :: 0 <= k < |log| ==> Clean(log[k])
    ensures !ok ==> forall k :: 0 <= k < |log| - 1 ==> Clean(log[k])
  {
    var next := 0;
    var joins := 0;
    var inFlight: set<nat> := {};
    log := [];
    hide Windowed, Spawned, InFlight, Joins, FromEnv, Full;
    EmptyLog(env, n);
    for i := 0 to MAX_CONCURRENT_STREAMS
      invariant LoopInv(n, next, inFlight, log) && EnvInv(env, joins, log) && Full(log, n)
      invariant |inFlight| == next <= i && (next < i ==> next == n)
    {
      if next < n {
        SpawnKeeps(n, next, inFlight, log);
        SpawnJoins(env, joins, log, next);
        FullOn(log, n, Spawn(next));
        log, inFlight, next := log + [Spawn(next)], inFlight + {next}, next + 1;
      }
    }
    while inFlight != {}
      invariant LoopInv(n, next, inFlight, log) && EnvInv(env, joins, log) && Full(log, n)
      invariant joins + |inFlight| == next
      invariant next < n ==> |inFlight| == MAX_CONCURRENT_STREAMS
      decreases 2 * (n - next) + |inFlight|
    {
      var task :| task in inFlight;
      var tick := env(joins);
      JoinKeeps(n, next, inFlight, log, task, tick);
      JoinJoins(env, joins, log, task);
      FullOn(log, n, Join(task, tick));
      log, inFlight, joins := log + [Join(task, tick)], inFlight - {task}, joins + 1;
      if tick.outcome == Failed || tick.seen {
        assert !Clean(log[|log| - 1]);
        return false, log;
      }
      if next < n {
        SpawnKeeps(n, next, inFlight, log);
        SpawnJoins(env, joins, log, next);
        FullOn(log, n, Spawn(next));
        log, inFlight, next := log + [Spawn(next)], inFlight + {next}, next + 1;
      }
    }
    return true, log;
  }

  lemma EmptyLog(env: nat -> Tick, n: nat)
    ensures Windowed([]) && Spawned([]) == 0 && InFlight([]) == {} && EnvInv(env, 0, []) && Full([], n)
  {
  }
}
