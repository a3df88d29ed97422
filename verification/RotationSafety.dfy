/**
 What every run of the two composites keeps, whatever the clock and the transports do: the retry
 period of a failed transport, the cyclic order of attempts, and the stickiness of failover.
 */
module RotationSafety {
  import opened Octets
  import opened Rotation

  function Last(log: seq<Attempt>): Attempt
    requires log != []
  {
    log[|log| - 1]
  }

  /** The dead marks a log of attempts leaves: of each transport that failed last time, when. */
  function Marks(log: seq<Attempt>): map<nat, int>
    decreases |log|
  {
    if log == [] then map[]
    else
      var before := Marks(log[..|log| - 1]);
      if Last(log).outcome.Failed? then before[Last(log).index := Last(log).marked] else before - {Last(log).index}
  }

  /** A transport that failed at a time is attempted again only more than the period later. */
  predicate RetryRespected(t: Setting, log: seq<Attempt>) {
    forall a, b :: 0 <= a < b < |log| && log[a].index == log[b].index && log[a].outcome.Failed? ==>
      log[b].time - log[a].marked > t.period
  }

  /** `a` went to the first transport after `cursor` in cyclic order that was not resting under `marks`. */
  predicate FirstEligible(t: Setting, marks: map<nat, int>, cursor: nat, a: Attempt) {
    && (a.index in marks ==> a.time - marks[a.index] > t.period)
    && exists passed: nat :: passed < t.size && PassedTo(t, marks, cursor, a, passed)
  }

  predicate PassedTo(t: Setting, marks: map<nat, int>, cursor: nat, a: Attempt, passed: nat) {
    && a.index == Advance(t, cursor, passed)
    && forall d :: 0 <= d < passed ==> Rested(t, marks, a.scanned, Advance(t, cursor, d))
  }

  predicate Rested(t: Setting, marks: map<nat, int>, time: int, i: nat) {
    i in marks && time - marks[i] <= t.period
  }

  /** How attempt `b` follows attempt `a`: failover stays unless `a` failed, round-robin always moves on. */
  predicate Follows(t: Setting, marks: map<nat, int>, a: Attempt, b: Attempt) {
    if t.sticky && !a.outcome.Failed? then b.index == a.index
    else FirstEligible(t, marks, MoveCursor(t, a.index), b)
  }

  predicate InOrder(t: Setting, log: seq<Attempt>) {
    forall k :: 0 < k < |log| ==> Follows(t, Marks(log[..k]), log[k - 1], log[k])
  }

  /** A failure is still marked, or its period is over. */
  predicate Guarded(t: Setting, clock: Clock, dead: map<nat, int>, ticks: nat, a: Attempt) {
    a.outcome.Failed? ==> (a.index in dead && dead[a.index] >= a.marked) || clock(ticks) - a.marked > t.period
  }

  /** The cursor stands after the last attempt, and failover's current transport is the one it tried last. */
  predicate Linked(t: Setting, p: Pool) {
    && (p.log == [] ==> p.current.None?)
    && (p.log != [] ==> p.initialized && p.cursor == MoveCursor(t, Last(p.log).index) && Last(p.log).index < t.size)
    && (p.log != [] && p.current.Some? ==> p.current.value == Last(p.log).index)
    && (p.log != [] && t.sticky && !Last(p.log).outcome.Failed? ==> p.current.Some?)
    && (!t.sticky ==> p.current.None?)
  }

  ghost predicate Safe(t: Setting, clock: Clock, p: Pool) {
    && ValidPool(t, p) && Linked(t, p) && p.dead == Marks(p.log)
    && InOrder(t, p.log) && RetryRespected(t, p.log)
    && forall a :: 0 <= a < |p.log| ==> Guarded(t, clock, p.dead, p.ticks, p.log[a])
  }

  // ----- cyclic order -----

  lemma {:induction false} AdvanceIs(t: Setting, cursor: nat, steps: nat)
    requires t.size > 0 && cursor < t.size && steps <= t.size
    ensures Advance(t, cursor, steps) == (if cursor + steps < t.size then cursor + steps else cursor + steps - t.size)
    decreases steps
  {
    if steps > 0 {
      AdvanceIs(t, MoveCursor(t, cursor), steps - 1);
      if MoveCursor(t, cursor) == 0 {
        assert cursor == t.size - 1;
      }
    }
  }

  /** Every transport comes up within one round. */
  lemma Covered(t: Setting, cursor: nat, i: nat) returns (steps: nat)
    requires cursor < t.size && i < t.size
    ensures steps < t.size && Advance(t, cursor, steps) == i
  {
    steps := if i >= cursor then i - cursor else i + t.size - cursor;
    AdvanceIs(t, cursor, steps);
  }

  // ----- one selection -----

  /** What Choose promises of a selected transport. */
  predicate Chosen(t: Setting, clock: Clock, p: Pool, k: Pick, i: nat) {
    && i < t.size && k.pool.log == p.log && k.pool.dead == p.dead - {i} && p.ticks <= k.pool.ticks <= p.ticks + t.size
    && k.pool.initialized && k.pool.cursor == MoveCursor(t, i)
    && k.pool.current == (if t.sticky then Some(i) else None)
    && (i in p.dead ==> clock(k.pool.ticks) - p.dead[i] > t.period)
    && (p.log != [] ==> Follows(t, p.dead, Last(p.log), Entry(clock, p.ticks, k.pool, i, Delivered)))
  }

  lemma ScanChooses(t: Setting, clock: Clock, p: Pool)
    requires Monotone(clock) && ValidSetting(t) && ValidPool(t, p) && Linked(t, p)
    ensures var k := NextTransport(t, clock, p);
      && (k.index.Some? ==>
            && k.index.value < t.size && k.pool.log == p.log && k.pool.dead == p.dead - {k.index.value}
            && p.ticks <= k.pool.ticks <= p.ticks + t.size && k.pool.current == p.current
            && k.pool.initialized && k.pool.cursor == MoveCursor(t, k.index.value)
            && (k.index.value in p.dead ==> clock(k.pool.ticks) - p.dead[k.index.value] > t.period)
            && FirstEligible(t, p.dead, Seeded(t, p).cursor, Entry(clock, p.ticks, k.pool, k.index.value, Delivered)))
      && (k.index.None? ==>
            && p.ticks <= k.pool.ticks <= p.ticks + t.size && k.pool == Seeded(t, p).(ticks := k.pool.ticks)
            && forall i :: 0 <= i < t.size ==> Resting(t, clock, p, i))
  {
    var s := Seeded(t, p);
    var k := NextTransport(t, clock, p);
    var passed := ScanFinds(t, clock, s, s.cursor, t.size);
    if k.index.None? {
      forall i | 0 <= i < t.size ensures Resting(t, clock, p, i) {
        var d := Covered(t, s.cursor, i);
        assert Resting(t, clock, s, Advance(t, s.cursor, d));
      }
    } else {
      AdvanceIs(t, s.cursor, passed);
      var a := Entry(clock, p.ticks, k.pool, k.index.value, Delivered);
      assert forall d :: 0 <= d < passed && Resting(t, clock, s, Advance(t, s.cursor, d))
                     ==> Rested(t, p.dead, a.scanned, Advance(t, s.cursor, d));
      assert PassedTo(t, p.dead, s.cursor, a, passed);
    }
  }

  lemma ChooseChooses(t: Setting, clock: Clock, p: Pool)
    requires Monotone(clock) && ValidSetting(t) && Safe(t, clock, p)
    ensures var k := Choose(t, clock, p); k.index.Some? ==> Chosen(t, clock, p, k, k.index.value)
    ensures var k := Choose(t, clock, p); k.index.None? ==>
      && p.ticks <= k.pool.ticks <= p.ticks + t.size && k.pool.current.None?
      && k.pool == Seeded(t, p).(ticks := k.pool.ticks, current := None)
      && forall i :: 0 <= i < t.size ==> Resting(t, clock, p, i)
  {
    hide NextTransport, FirstEligible;
    if t.sticky && p.current.Some? && p.current.value !in p.dead {
      assert p.dead - {p.current.value} == p.dead;
      LastNotFailed(t, p);
    } else {
      ScanChooses(t, clock, p);
      if p.log != [] && t.sticky && !Last(p.log).outcome.Failed? {
        LastNotMarked(p);
      }
    }
  }

  lemma LastNotFailed(t: Setting, p: Pool)
    requires Linked(t, p) && p.dead == Marks(p.log) && p.current.Some? && p.current.value !in p.dead
    ensures p.log != [] && !Last(p.log).outcome.Failed?
  {
  }

  lemma MarkedLastFailed(p: Pool)
    requires p.log != [] && p.dead == Marks(p.log) && Last(p.log).index in p.dead
    ensures Last(p.log).outcome.Failed?
  {
  }

  lemma LastNotMarked(p: Pool)
    requires p.log != [] && p.dead == Marks(p.log) && !Last(p.log).outcome.Failed?
    ensures Last(p.log).index !in p.dead
  {
  }

  // ----- one attempt -----

  lemma MarksAppend(log: seq<Attempt>, a: Attempt)
    ensures Marks(log + [a]) == (if a.outcome.Failed? then Marks(log)[a.index := a.marked] else Marks(log) - {a.index})
  {
    assert (log + [a])[..|log|] == log;
  }

  lemma FollowsAnyOutcome(t: Setting, marks: map<nat, int>, a: Attempt, b: Attempt, c: Attempt)
    requires Follows(t, marks, a, b) && c.index == b.index && c.time == b.time && c.scanned == b.scanned
    ensures Follows(t, marks, a, c)
  {
    if !(t.sticky && !a.outcome.Failed?) {
      var passed: nat :| passed < t.size && PassedTo(t, marks, MoveCursor(t, a.index), b, passed);
      assert PassedTo(t, marks, MoveCursor(t, a.index), c, passed);
    }
  }

  lemma InOrderAppend(t: Setting, log: seq<Attempt>, a: Attempt)
    requires InOrder(t, log) && (log != [] ==> Follows(t, Marks(log), Last(log), a))
    ensures InOrder(t, log + [a])
  {
    hide Follows, Marks;
    var more := log + [a];
    forall k | 0 < k < |more| ensures Follows(t, Marks(more[..k]), more[k - 1], more[k]) {
      if k < |log| {
        assert more[..k] == log[..k];
        assert Follows(t, Marks(log[..k]), log[k - 1], log[k]);
      } else {
        assert more[..k] == log;
      }
    }
  }

  lemma RetryAppend(t: Setting, clock: Clock, p: Pool, a: Attempt)
    requires Monotone(clock) && RetryRespected(t, p.log)
    requires forall x :: 0 <= x < |p.log| ==> Guarded(t, clock, p.dead, p.ticks, p.log[x])
    requires clock(p.ticks) <= a.time && (a.index in p.dead ==> a.time - p.dead[a.index] > t.period)
    ensures RetryRespected(t, p.log + [a])
  {
    var more := p.log + [a];
    forall x, y | 0 <= x < y < |more| && more[x].index == more[y].index && more[x].outcome.Failed?
      ensures more[y].time - more[x].marked > t.period
    {
      if y == |p.log| {
        assert Guarded(t, clock, p.dead, p.ticks, p.log[x]);
      }
    }
  }

  lemma GuardedAppend(t: Setting, clock: Clock, p: Pool, ticks: nat, time: int, x: Attempt, a: Attempt)
    requires Monotone(clock) && p.ticks <= ticks && time <= clock(ticks) && clock(p.ticks) <= time
    requires Guarded(t, clock, p.dead, p.ticks, x) && (a.index in p.dead ==> time - p.dead[a.index] > t.period)
    requires a.outcome.Failed? ==> a.marked == time
    ensures Guarded(t, clock, if a.outcome.Failed? then (p.dead - {a.index})[a.index := a.marked] else p.dead - {a.index}, ticks, x)
  {
  }

  /** The attempt on transport `i` after the selection `k`, and the state it leaves. */
  lemma AttemptKeepsSafe(t: Setting, clock: Clock, p: Pool, k: Pick, i: nat, outcome: Outcome)
    requires Monotone(clock) && ValidSetting(t) && Safe(t, clock, p) && Chosen(t, clock, p, k, i)
    ensures !outcome.Failed? ==> Safe(t, clock, Recorded(clock, p.ticks, k.pool, i, outcome))
    ensures outcome.Failed? ==> Safe(t, clock, MarkDead(clock, p.ticks, k.pool, i, outcome.code))
  {
    var a := Entry(clock, p.ticks, k.pool, i, outcome);
    var q := if outcome.Failed? then MarkDead(clock, p.ticks, k.pool, i, outcome.code) else Recorded(clock, p.ticks, k.pool, i, outcome);
    AttemptLog(t, clock, p, k, i, outcome);
    AttemptState(t, clock, p, k, i, outcome);
    AttemptGuards(t, clock, p, k, i, outcome);
    hide *;
    SafeParts(t, clock, q);
  }

  lemma SafeParts(t: Setting, clock: Clock, q: Pool)
    requires ValidPool(t, q) && Linked(t, q) && q.dead == Marks(q.log) && InOrder(t, q.log) && RetryRespected(t, q.log)
    requires forall x :: 0 <= x < |q.log| ==> Guarded(t, clock, q.dead, q.ticks, q.log[x])
    ensures Safe(t, clock, q)
  {
    hide ValidPool, Linked, Marks, InOrder, RetryRespected, Guarded;
  }

  function AfterAttempt(clock: Clock, p: Pool, k: Pick, i: nat, outcome: Outcome): Pool {
    if outcome.Failed? then MarkDead(clock, p.ticks, k.pool, i, outcome.code) else Recorded(clock, p.ticks, k.pool, i, outcome)
  }

  lemma AttemptLog(t: Setting, clock: Clock, p: Pool, k: Pick, i: nat, outcome: Outcome)
    requires Monotone(clock) && ValidSetting(t) && Safe(t, clock, p) && Chosen(t, clock, p, k, i)
    ensures var q := AfterAttempt(clock, p, k, i, outcome);
      && q.log == p.log + [Entry(clock, p.ticks, k.pool, i, outcome)] && q.dead == Marks(q.log)
      && InOrder(t, q.log) && RetryRespected(t, q.log)
  {
    var a := Entry(clock, p.ticks, k.pool, i, outcome);
    assert clock(p.ticks) <= clock(k.pool.ticks);
    hide Follows, InOrder, RetryRespected, Guarded, Marks, Linked, ValidPool;
    if p.log != [] {
      FollowsAnyOutcome(t, p.dead, Last(p.log), Entry(clock, p.ticks, k.pool, i, Delivered), a);
    }
    InOrderAppend(t, p.log, a);
    RetryAppend(t, clock, p, a);
    AttemptMarks(clock, p, k, i, outcome);
  }

  lemma AttemptMarks(clock: Clock, p: Pool, k: Pick, i: nat, outcome: Outcome)
    requires p.dead == Marks(p.log) && k.pool.dead == p.dead - {i} && k.pool.log == p.log
    ensures var q := AfterAttempt(clock, p, k, i, outcome); q.dead == Marks(q.log)
  {
    var a := Entry(clock, p.ticks, k.pool, i, outcome);
    MarksAppend(p.log, a);
    hide Marks;
    assert (p.dead - {i})[i := a.marked] == p.dead[i := a.marked];
  }

  lemma AttemptState(t: Setting, clock: Clock, p: Pool, k: Pick, i: nat, outcome: Outcome)
    requires Monotone(clock) && ValidSetting(t) && Safe(t, clock, p) && Chosen(t, clock, p, k, i)
    ensures var q := AfterAttempt(clock, p, k, i, outcome); ValidPool(t, q) && Linked(t, q)
  {
    hide InOrder, RetryRespected, Guarded, Marks, Follows;
  }

  lemma AttemptGuards(t: Setting, clock: Clock, p: Pool, k: Pick, i: nat, outcome: Outcome)
    requires Monotone(clock) && ValidSetting(t) && Safe(t, clock, p) && Chosen(t, clock, p, k, i)
    ensures var q := AfterAttempt(clock, p, k, i, outcome); forall x :: 0 <= x < |q.log| ==> Guarded(t, clock, q.dead, q.ticks, q.log[x])
  {
    var a := Entry(clock, p.ticks, k.pool, i, outcome);
    var q := AfterAttempt(clock, p, k, i, outcome);
    AttemptLog(t, clock, p, k, i, outcome);
    hide InOrder, RetryRespected, Marks, Follows, Linked;
    assert clock(p.ticks) <= clock(k.pool.ticks) <= clock(q.ticks);
    assert q.dead == if outcome.Failed? then (p.dead - {i})[i := a.marked] else p.dead - {i};
    hide Safe, Monotone;
    forall x | 0 <= x < |q.log| ensures Guarded(t, clock, q.dead, q.ticks, q.log[x]) {
      if x < |p.log| {
        GuardedAppend(t, clock, p, q.ticks, a.time, p.log[x], a);
      } else {
        assert q.log[x] == a;
      }
    }
  }

  lemma SeededKeepsSafe(t: Setting, clock: Clock, p: Pool, ticks: nat)
    requires Monotone(clock) && ValidSetting(t) && Safe(t, clock, p) && p.ticks <= ticks
    requires p.log != [] && t.sticky ==> Last(p.log).outcome.Failed?
    ensures Safe(t, clock, Seeded(t, p).(ticks := ticks, current := None))
  {
    assert clock(p.ticks) <= clock(ticks);
    var q := Seeded(t, p).(ticks := ticks, current := None);
    forall x | 0 <= x < |q.log| ensures Guarded(t, clock, q.dead, q.ticks, q.log[x]) {
      assert Guarded(t, clock, p.dead, p.ticks, p.log[x]);
    }
  }

  /** The loop of Send keeps everything, for as many turns as it goes on. */
  lemma {:induction false} SendKeepsSafe(t: Setting, clock: Clock, outcomes: Outcomes, p: Pool, aggregate: Option<int>, turns: nat)
    requires Monotone(clock) && ValidSetting(t) && Safe(t, clock, p)
    ensures Safe(t, clock, SendLoop(t, clock, outcomes, p, aggregate, turns).0)
    decreases turns
  {
    hide Choose, Safe, Chosen;
    if turns > 0 {
      var k := Choose(t, clock, p);
      ChooseChooses(t, clock, p);
      if k.index.None? {
        NothingChosenKeepsSafe(t, clock, p);
      } else {
        var index := k.index.value;
        var outcome := outcomes(|p.log|);
        AttemptKeepsSafe(t, clock, p, k, index, outcome);
        if outcome.Failed? {
          SendKeepsSafe(t, clock, outcomes, MarkDead(clock, p.ticks, k.pool, index, outcome.code),
                        Some(Aggregate(aggregate, outcome.code)), turns - 1);
        }
      }
    }
  }

  lemma NothingChosenKeepsSafe(t: Setting, clock: Clock, p: Pool)
    requires Monotone(clock) && ValidSetting(t) && Safe(t, clock, p) && Choose(t, clock, p).index.None?
    ensures Safe(t, clock, Choose(t, clock, p).pool)
  {
    ChooseChooses(t, clock, p);
    if p.log != [] {
      assert Resting(t, clock, p, Last(p.log).index);
      MarkedLastFailed(p);
    }
    hide Choose;
    SeededKeepsSafe(t, clock, p, Choose(t, clock, p).pool.ticks);
  }

  /** Any number of Sends one after the other, the last of them perhaps still running. */
  function RunSends(t: Setting, clock: Clock, outcomes: Outcomes, p: Pool, turns: seq<nat>): Pool
    decreases |turns|
  {
    if turns == [] then p else RunSends(t, clock, outcomes, SendLoop(t, clock, outcomes, p, None, turns[0]).0, turns[1..])
  }

  lemma {:induction false} RunKeepsSafe(t: Setting, clock: Clock, outcomes: Outcomes, p: Pool, turns: seq<nat>)
    requires Monotone(clock) && ValidSetting(t) && Safe(t, clock, p)
    ensures Safe(t, clock, RunSends(t, clock, outcomes, p, turns))
    decreases |turns|
  {
    hide Safe;
    if turns != [] {
      SendKeepsSafe(t, clock, outcomes, p, None, turns[0]);
      RunKeepsSafe(t, clock, outcomes, SendLoop(t, clock, outcomes, p, None, turns[0]).0, turns[1..]);
    }
  }

  /**
   Over every run of either composite: a transport that failed is never attempted again before its
   retry period is over, and attempts follow each other in cyclic order, failover staying on its
   transport until that one fails.
   */
  lemma EveryRunIsSafe(t: Setting, clock: Clock, outcomes: Outcomes, turns: seq<nat>)
    requires Monotone(clock) && ValidSetting(t)
    ensures var log := RunSends(t, clock, outcomes, EMPTY, turns).log; RetryRespected(t, log) && InOrder(t, log)
  {
    assert Safe(t, clock, EMPTY);
    hide Safe;
    RunKeepsSafe(t, clock, outcomes, EMPTY, turns);
    SafeLog(t, clock, RunSends(t, clock, outcomes, EMPTY, turns));
  }

  lemma SafeLog(t: Setting, clock: Clock, p: Pool)
    requires Safe(t, clock, p)
    ensures RetryRespected(t, p.log) && InOrder(t, p.log)
  {
  }
}
