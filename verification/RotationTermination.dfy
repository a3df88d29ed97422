/**
 How often Send of a composite attempts a transport, and when it comes to an end. Its loop counts
 nothing: what bounds it is the retry period and how far the clock gets meanwhile.
 */
module RotationTermination {
  import opened Octets
  import opened Rotation
  import opened RotationSafety
  import Numbers

  // ----- turns and readings -----

  /** How many turns and clock readings a call still has in hand. */
  predicate InHand(t: Setting, ticks: nat, end: nat, turns: nat) {
    ticks + turns * (t.size + 1) <= end
  }

  lemma SpendTurn(t: Setting, ticks: nat, later: nat, end: nat, turns: nat)
    requires turns > 0 && InHand(t, ticks, end, turns) && later <= ticks + t.size + 1
    ensures InHand(t, later, end, turns - 1) && ticks + t.size <= end
  {
    assert turns * (t.size + 1) == (turns - 1) * (t.size + 1) + (t.size + 1);
    assert (turns - 1) * (t.size + 1) >= 0;
  }

  lemma ChosenKeepsLog(t: Setting, clock: Clock, p: Pool, k: Pick, i: nat)
    requires Chosen(t, clock, p, k, i)
    ensures k.pool.log == p.log
  {
  }

  // ----- what a call adds to the log -----

  /** The attempts from position `from` on: on transports of the pool, between two moments. */
  predicate Attempted(t: Setting, log: seq<Attempt>, from: nat, earliest: int, latest: int) {
    forall x :: from <= x < |log| ==>
      && log[x].index < t.size && earliest <= log[x].time <= latest
      && (log[x].outcome.Failed? ==> log[x].marked == log[x].time)
  }

  predicate FailedUpTo(log: seq<Attempt>, from: nat, end: int) {
    forall x :: from <= x < end && x < |log| ==> log[x].outcome.Failed?
  }

  /** The call that began at `p` has got to `q`: only its last attempt can have been anything but a transport error. */
  predicate Grown(t: Setting, clock: Clock, p: Pool, q: Pool, r: Result, turns: nat) {
    && p.log <= q.log && |q.log| <= |p.log| + turns && p.ticks <= q.ticks && InHand(t, p.ticks, p.ticks + turns * (t.size + 1), turns)
    && q.ticks <= p.ticks + turns * (t.size + 1)
    && Attempted(t, q.log, |p.log|, clock(p.ticks), clock(q.ticks))
    && FailedUpTo(q.log, |p.log|, |q.log| - (if r.Unfinished? then 0 else 1))
    && (r.Unfinished? ==> |q.log| == |p.log| + turns)
  }

  lemma GrownByNothing(t: Setting, clock: Clock, p: Pool, q: Pool, r: Result, turns: nat)
    requires q.log == p.log && p.ticks <= q.ticks <= p.ticks + t.size && (r.Unfinished? ==> turns == 0 && p == q) && (turns == 0 ==> q == p)
    ensures Grown(t, clock, p, q, r, turns)
  {
    if turns > 0 {
      assert turns * (t.size + 1) >= t.size + 1;
    }
  }

  lemma GrownByOne(t: Setting, clock: Clock, p: Pool, k: Pick, i: nat, q: Pool, r: Result, turns: nat, outcome: Outcome)
    requires Monotone(clock) && Chosen(t, clock, p, k, i) && turns > 0 && !outcome.Failed? && !r.Unfinished?
    requires q == Recorded(clock, p.ticks, k.pool, i, outcome)
    ensures Grown(t, clock, p, q, r, turns)
  {
    assert turns * (t.size + 1) >= t.size + 1;
    assert clock(p.ticks) <= clock(k.pool.ticks);
    hide Follows;
  }

  lemma GrownByFailure(t: Setting, clock: Clock, p: Pool, k: Pick, i: nat, code: int, q: Pool, r: Result, turns: nat)
    requires Monotone(clock) && Chosen(t, clock, p, k, i) && turns > 0
    requires Grown(t, clock, MarkDead(clock, p.ticks, k.pool, i, code), q, r, turns - 1)
    ensures Grown(t, clock, p, q, r, turns)
  {
    hide Follows;
    var next := MarkDead(clock, p.ticks, k.pool, i, code);
    assert clock(p.ticks) <= clock(k.pool.ticks) <= clock(next.ticks) <= clock(q.ticks);
    assert turns * (t.size + 1) == (turns - 1) * (t.size + 1) + (t.size + 1);
    assert q.log[|p.log|] == next.log[|p.log|];
    assert p.log <= next.log;
  }

  lemma {:induction false} SendGrows(t: Setting, clock: Clock, outcomes: Outcomes, p: Pool, aggregate: Option<int>, turns: nat)
    requires Monotone(clock) && ValidSetting(t) && Safe(t, clock, p)
    ensures var (q, r) := SendLoop(t, clock, outcomes, p, aggregate, turns); Grown(t, clock, p, q, r, turns)
    decreases turns
  {
    hide Choose, Chosen, Grown, Safe, Monotone;
    var (q, r) := SendLoop(t, clock, outcomes, p, aggregate, turns);
    if turns == 0 {
      GrownByNothing(t, clock, p, q, r, turns);
    } else {
      ChooseChooses(t, clock, p);
      var k := Choose(t, clock, p);
      if k.index.None? {
        GrownByNothing(t, clock, p, q, r, turns);
      } else {
        var i := k.index.value;
        ChosenKeepsLog(t, clock, p, k, i);
        var outcome := outcomes(|p.log|);
        if outcome.Failed? {
          AttemptKeepsSafe(t, clock, p, k, i, outcome);
          var next := MarkDead(clock, p.ticks, k.pool, i, outcome.code);
          SendGrows(t, clock, outcomes, next, Some(Aggregate(aggregate, outcome.code)), turns - 1);
          GrownByFailure(t, clock, p, k, i, outcome.code, q, r, turns);
        } else {
          GrownByOne(t, clock, p, k, i, q, r, turns, outcome);
        }
      }
    }
  }

  // ----- where a run begins -----

  lemma FreshChoice(t: Setting, clock: Clock)
    requires ValidSetting(t)
    ensures Safe(t, clock, EMPTY)
    ensures Choose(t, clock, EMPTY).index == Some(if 0 <= t.seed < t.size then t.seed else 0)
  {
  }

  lemma GrowsFrom(p: Pool, q: Pool)
    requires p.log <= q.log && p.log != []
    ensures q.log != [] && q.log[0] == p.log[0]
  {
  }

  /** The first Send of a fresh composite makes an attempt, on the transport the seed names if there is one, else on the first. */
  lemma FirstSend(t: Setting, clock: Clock, outcomes: Outcomes, turns: nat)
    requires Monotone(clock) && ValidSetting(t) && turns > 0
    ensures var q := SendLoop(t, clock, outcomes, EMPTY, None, turns).0;
      q.log != [] && q.log[0].index == if 0 <= t.seed < t.size then t.seed else 0
  {
    FreshChoice(t, clock);
    hide Choose, Safe, Chosen, Monotone;
    ChooseChooses(t, clock, EMPTY);
    var k, outcome := Choose(t, clock, EMPTY), outcomes(0);
    var i := k.index.value;
    ChosenKeepsLog(t, clock, EMPTY, k, i);
    if outcome.Failed? {
      AttemptKeepsSafe(t, clock, EMPTY, k, i, outcome);
      var next, aggregate := MarkDead(clock, 0, k.pool, i, outcome.code), Some(Aggregate(None, outcome.code));
      SendGrows(t, clock, outcomes, next, aggregate, turns - 1);
      GrowsFrom(next, SendLoop(t, clock, outcomes, next, aggregate, turns - 1).0);
    }
  }

  lemma {:induction false} RunGrows(t: Setting, clock: Clock, outcomes: Outcomes, p: Pool, turns: seq<nat>)
    requires Monotone(clock) && ValidSetting(t) && Safe(t, clock, p)
    ensures p.log <= RunSends(t, clock, outcomes, p, turns).log
    decreases |turns|
  {
    hide Safe, SendLoop, Monotone;
    if turns != [] {
      SendKeepsSafe(t, clock, outcomes, p, None, turns[0]);
      SendGrows(t, clock, outcomes, p, None, turns[0]);
      RunGrows(t, clock, outcomes, SendLoop(t, clock, outcomes, p, None, turns[0]).0, turns[1..]);
    }
  }

  /** Every run of a composite begins with the transport the seed names if there is one, else with the first: failover, whose seed is 0, with the first. */
  lemma {:induction false} EveryRunBegins(t: Setting, clock: Clock, outcomes: Outcomes, turns: seq<nat>)
    requires Monotone(clock) && ValidSetting(t)
    ensures var log := RunSends(t, clock, outcomes, EMPTY, turns).log;
      log != [] ==> log[0].index == if 0 <= t.seed < t.size then t.seed else 0
    decreases |turns|
  {
    if turns != [] {
      assert turns[0] == 0 ==> SendLoop(t, clock, outcomes, EMPTY, None, 0).0 == EMPTY;
      hide Safe, SendLoop, Monotone;
      if turns[0] == 0 {
        EveryRunBegins(t, clock, outcomes, turns[1..]);
      } else {
        var q := SendLoop(t, clock, outcomes, EMPTY, None, turns[0]).0;
        FirstSend(t, clock, outcomes, turns[0]);
        FreshChoice(t, clock);
        SendKeepsSafe(t, clock, outcomes, EMPTY, None, turns[0]);
        RunGrows(t, clock, outcomes, q, turns[1..]);
        GrowsFrom(q, RunSends(t, clock, outcomes, q, turns[1..]));
      }
    }
  }

  // ----- how often one transport is attempted -----

  function Uses(log: seq<Attempt>, i: nat): nat {
    if log == [] then 0 else Uses(log[..|log| - 1], i) + (if Last(log).index == i then 1 else 0)
  }

  /** Of several failed attempts on one transport the last came as many periods after the first moment. */
  lemma {:induction false} LastUse(t: Setting, log: seq<Attempt>, from: nat, i: nat, earliest: int, latest: int) returns (x: nat)
    requires from <= |log| && RetryRespected(t, log) && Attempted(t, log, from, earliest, latest) && FailedUpTo(log, from, |log| - 1)
    requires Uses(log[from..], i) > 0
    ensures from <= x < |log| && log[x].index == i && log[x].time >= earliest + (Uses(log[from..], i) - 1) * (t.period + 1)
    decreases |log|
  {
    var n := |log| - 1;
    assert log[from..] != [];
    var before := log[..n];
    assert before[from..] == log[from..][..n - from];
    BeforeLast(t, log, from, earliest, latest);
    var earlier := Uses(before[from..], i);
    assert Uses(log[from..], i) == earlier + (if log[n].index == i then 1 else 0);
    hide Uses, RetryRespected, Attempted, FailedUpTo;
    if log[n].index != i {
      x := LastUse(t, before, from, i, earliest, latest);
    } else {
      x := n;
      if earlier > 0 {
        var y := LastUse(t, before, from, i, earliest, latest);
        OneMoreUse(t, log, from, y, earliest, latest, earlier);
      } else {
        FirstUse(t, log, from, earliest, latest);
      }
    }
  }

  lemma BeforeLast(t: Setting, log: seq<Attempt>, from: nat, earliest: int, latest: int)
    requires from < |log| && RetryRespected(t, log) && Attempted(t, log, from, earliest, latest) && FailedUpTo(log, from, |log| - 1)
    ensures var before := log[..|log| - 1];
      && RetryRespected(t, before) && Attempted(t, before, from, earliest, latest) && FailedUpTo(before, from, |before|)
  {
  }

  lemma FirstUse(t: Setting, log: seq<Attempt>, from: nat, earliest: int, latest: int)
    requires from < |log| && Attempted(t, log, from, earliest, latest)
    ensures log[|log| - 1].time >= earliest + 0 * (t.period + 1)
  {
  }

  lemma OneMoreUse(t: Setting, log: seq<Attempt>, from: nat, y: nat, earliest: int, latest: int, earlier: nat)
    requires RetryRespected(t, log) && Attempted(t, log, from, earliest, latest) && FailedUpTo(log, from, |log| - 1)
    requires from <= y < |log| - 1 && log[y].index == log[|log| - 1].index && earlier > 0
    requires log[y].time >= earliest + (earlier - 1) * (t.period + 1)
    ensures log[|log| - 1].time >= earliest + earlier * (t.period + 1)
  {
    assert log[|log| - 1].time - log[y].marked > t.period;
    assert earlier * (t.period + 1) == (earlier - 1) * (t.period + 1) + (t.period + 1);
  }

  /** The most attempts on one transport while the clock advances by `advance`. */
  function MostUses(t: Setting, advance: nat): nat
    requires ValidSetting(t)
  {
    1 + advance / (t.period + 1)
  }

  lemma UsesAreBounded(t: Setting, log: seq<Attempt>, from: nat, i: nat, earliest: int, latest: int, advance: nat)
    requires ValidSetting(t) && from <= |log| && RetryRespected(t, log) && Attempted(t, log, from, earliest, latest)
    requires FailedUpTo(log, from, |log| - 1) && latest - earliest <= advance
    ensures Uses(log[from..], i) <= MostUses(t, advance)
  {
    if Uses(log[from..], i) > 0 {
      var x := LastUse(t, log, from, i, earliest, latest);
      assert log[x].time <= latest;
      Numbers.Divided(Uses(log[from..], i) - 1, t.period + 1, advance);
    }
  }

  // ----- how many attempts there are -----

  function AllUses(log: seq<Attempt>, n: nat): nat {
    if n == 0 then 0 else AllUses(log, n - 1) + Uses(log, n - 1)
  }

  lemma {:induction false} AllUsesLast(log: seq<Attempt>, n: nat)
    requires log != []
    ensures AllUses(log, n) == AllUses(log[..|log| - 1], n) + (if Last(log).index < n then 1 else 0)
  {
    if n > 0 {
      AllUsesLast(log, n - 1);
    }
  }

  lemma {:induction false} EveryAttemptCounts(log: seq<Attempt>, n: nat)
    requires forall x :: 0 <= x < |log| ==> log[x].index < n
    ensures AllUses(log, n) == |log|
    decreases |log|
  {
    if log == [] {
      NoUses(n);
    } else {
      AllUsesLast(log, n);
      EveryAttemptCounts(log[..|log| - 1], n);
    }
  }

  lemma {:induction false} NoUses(n: nat)
    ensures AllUses([], n) == 0
  {
    if n > 0 {
      NoUses(n - 1);
    }
  }

  lemma {:induction false} AllUsesAreBounded(log: seq<Attempt>, n: nat, most: nat)
    requires forall i :: 0 <= i < n ==> Uses(log, i) <= most
    ensures AllUses(log, n) <= n * most
  {
    if n > 0 {
      AllUsesAreBounded(log, n - 1, most);
      assert n * most == (n - 1) * most + most;
    }
  }

  function MostAttempts(t: Setting, advance: nat): nat
    requires ValidSetting(t)
  {
    t.size * MostUses(t, advance)
  }

  /**
   While a Send goes on and the clock advances by at most `advance`, no transport is attempted more
   than 1 + advance / (period + 1) times, and there are at most that many attempts for each transport.
   */
  lemma AttemptsAreBounded(t: Setting, clock: Clock, outcomes: Outcomes, p: Pool, aggregate: Option<int>, turns: nat, advance: nat)
    requires Monotone(clock) && ValidSetting(t) && Safe(t, clock, p)
    requires clock(SendLoop(t, clock, outcomes, p, aggregate, turns).0.ticks) - clock(p.ticks) <= advance
    ensures var q := SendLoop(t, clock, outcomes, p, aggregate, turns).0;
      && p.log <= q.log && |q.log| <= |p.log| + MostAttempts(t, advance)
      && forall i :: 0 <= i < t.size ==> Uses(q.log[|p.log|..], i) <= MostUses(t, advance)
  {
    hide SendLoop;
    var (q, r) := SendLoop(t, clock, outcomes, p, aggregate, turns);
    SendGrows(t, clock, outcomes, p, aggregate, turns);
    assert RetryRespected(t, q.log) by {
      SendKeepsSafe(t, clock, outcomes, p, aggregate, turns);
      SafeLog(t, clock, q);
    }
    hide Safe, MostUses, RetryRespected, Uses;
    var section := q.log[|p.log|..];
    forall i | 0 <= i < t.size ensures Uses(section, i) <= MostUses(t, advance) {
      UsesAreBounded(t, q.log, |p.log|, i, clock(p.ticks), clock(q.ticks), advance);
    }
    EveryAttemptCounts(section, t.size);
    AllUsesAreBounded(section, t.size, MostUses(t, advance));
  }

  // ----- when Send ends -----

  /** From reading `from` on the clock advances by at most `advance` over as many readings as so many attempts can take. */
  ghost predicate Calm(t: Setting, clock: Clock, from: nat, advance: nat)
    requires ValidSetting(t)
  {
    clock(from + (MostAttempts(t, advance) + 1) * (t.size + 1)) - clock(from) <= advance
  }

  /** Whatever the advance of the clock, if there is a bound on it, Send ends within as many attempts as the bound allows. */
  lemma SendEnds(t: Setting, clock: Clock, outcomes: Outcomes, p: Pool, aggregate: Option<int>, advance: nat)
    requires Monotone(clock) && ValidSetting(t) && Safe(t, clock, p) && Calm(t, clock, p.ticks, advance)
    ensures var (q, r) := SendLoop(t, clock, outcomes, p, aggregate, MostAttempts(t, advance) + 1);
      && !r.Unfinished? && p.log <= q.log && |q.log| <= |p.log| + MostAttempts(t, advance)
      && forall i :: 0 <= i < t.size ==> Uses(q.log[|p.log|..], i) <= MostUses(t, advance)
  {
    var turns := MostAttempts(t, advance) + 1;
    hide SendLoop, MostAttempts, Safe, Uses, MostUses;
    var (q, r) := SendLoop(t, clock, outcomes, p, aggregate, turns);
    SendGrows(t, clock, outcomes, p, aggregate, turns);
    assert clock(q.ticks) <= clock(p.ticks + turns * (t.size + 1));
    AttemptsAreBounded(t, clock, outcomes, p, aggregate, turns, advance);
  }

  /** A clock that moves on by more than the period between any two readings. */
  ghost predicate Racing(t: Setting, clock: Clock) {
    forall k: nat :: clock(k) == k * (t.period + 1)
  }

  ghost predicate MarkedEarlier(t: Setting, clock: Clock, p: Pool) {
    forall i :: i in p.dead ==> clock(p.ticks) - p.dead[i] > t.period
  }

  lemma RacingAdvances(t: Setting, clock: Clock, early: nat, late: nat)
    requires Racing(t, clock) && t.period > 0 && early < late
    ensures clock(late) - clock(early) > t.period
  {
    Numbers.Difference(early, late, t.period + 1);
  }

  lemma RacingIsMonotone(t: Setting, clock: Clock)
    requires Racing(t, clock) && t.period > 0
    ensures Monotone(clock)
  {
    forall i: nat, j: nat | i <= j ensures clock(i) <= clock(j) {
      if i < j {
        RacingAdvances(t, clock, i, j);
      }
    }
  }

  lemma EveryMarkIsEarlier(t: Setting, clock: Clock, p: Pool, k: Pick, i: nat, code: int)
    requires ValidSetting(t) && Racing(t, clock) && MarkedEarlier(t, clock, p) && Chosen(t, clock, p, k, i)
    ensures MarkedEarlier(t, clock, MarkDead(clock, p.ticks, k.pool, i, code))
  {
    hide Follows;
    var q := MarkDead(clock, p.ticks, k.pool, i, code);
    RacingAdvances(t, clock, k.pool.ticks, q.ticks);
    RacingAdvances(t, clock, p.ticks, q.ticks);
    hide Racing;
  }

  /** Without any bound Send need not end: for every pool there is a clock under which, as long as every attempt fails, it never does. */
  lemma {:induction false} RacingSendGoesOn(t: Setting, clock: Clock, outcomes: Outcomes, p: Pool, aggregate: Option<int>, turns: nat)
    requires ValidSetting(t) && Racing(t, clock) && Monotone(clock) && Safe(t, clock, p) && MarkedEarlier(t, clock, p)
    requires forall k: nat :: outcomes(k).Failed?
    ensures SendLoop(t, clock, outcomes, p, aggregate, turns).1.Unfinished?
    decreases turns
  {
    hide Racing, Monotone, Safe, Choose, Chosen;
    if turns > 0 {
      ChooseChooses(t, clock, p);
      var k := Choose(t, clock, p);
      assert !Resting(t, clock, p, 0);
      assert k.index.Some?;
      hide MarkedEarlier;
      var i := k.index.value;
      ChosenKeepsLog(t, clock, p, k, i);
      var outcome := outcomes(|p.log|);
      AttemptKeepsSafe(t, clock, p, k, i, outcome);
      EveryMarkIsEarlier(t, clock, p, k, i, outcome.code);
      RacingSendGoesOn(t, clock, outcomes, MarkDead(clock, p.ticks, k.pool, i, outcome.code),
                       Some(Aggregate(aggregate, outcome.code)), turns - 1);
    }
  }

  lemma EmptyIsSafe(t: Setting, clock: Clock)
    requires ValidSetting(t)
    ensures Safe(t, clock, EMPTY) && MarkedEarlier(t, clock, EMPTY)
  {
  }

  lemma SendNeedNotEnd(t: Setting) returns (clock: Clock, outcomes: Outcomes)
    requires ValidSetting(t)
    ensures Monotone(clock) && forall turns: nat :: SendLoop(t, clock, outcomes, EMPTY, None, turns).1.Unfinished?
  {
    clock := (k: nat) => k * (t.period + 1);
    outcomes := (k: nat) => Failed(0);
    RacingIsMonotone(t, clock);
    EmptyIsSafe(t, clock);
    hide Racing, Monotone, Safe, SendLoop;
    forall turns: nat ensures SendLoop(t, clock, outcomes, EMPTY, None, turns).1.Unfinished? {
      RacingSendGoesOn(t, clock, outcomes, EMPTY, None, turns);
    }
  }

  // ----- at most once each -----

  /** The attempts from position `from` on went to different transports. */
  predicate Distinct(log: seq<Attempt>, from: nat) {
    forall a, b :: from <= a < b < |log| ==> log[a].index != log[b].index
  }

  lemma {:induction false} TwoUses(log: seq<Attempt>, a: nat, b: nat)
    requires a < b < |log| && log[a].index == log[b].index
    ensures Uses(log, log[b].index) >= 2
    decreases |log|
  {
    var before := log[..|log| - 1];
    if b < |log| - 1 {
      TwoUses(before, a, b);
    } else {
      OneUse(before, a);
    }
  }

  lemma {:induction false} OneUse(log: seq<Attempt>, a: nat)
    requires a < |log|
    ensures Uses(log, log[a].index) >= 1
    decreases |log|
  {
    if a < |log| - 1 {
      OneUse(log[..|log| - 1], a);
    }
  }

  /** While the clock advances by at most `advance`, this Send attempts no transport twice. */
  ghost predicate OnceEach(t: Setting, clock: Clock, outcomes: Outcomes, p: Pool, turns: nat, advance: nat) {
    var q := SendLoop(t, clock, outcomes, p, None, turns).0;
    Monotone(clock) && Safe(t, clock, p) && clock(q.ticks) - clock(p.ticks) <= advance ==> Distinct(q.log, |p.log|)
  }

  lemma OnceEachWithinPeriod(t: Setting, clock: Clock, outcomes: Outcomes, p: Pool, turns: nat, advance: nat)
    requires ValidSetting(t) && advance <= t.period
    ensures OnceEach(t, clock, outcomes, p, turns, advance)
  {
    hide SendLoop, Safe, Uses;
    var q := SendLoop(t, clock, outcomes, p, None, turns).0;
    if Monotone(clock) && Safe(t, clock, p) && clock(q.ticks) - clock(p.ticks) <= advance {
      AttemptsAreBounded(t, clock, outcomes, p, None, turns, advance);
      assert forall x :: |p.log| <= x < |q.log| ==> q.log[x].index < t.size by {
        SendGrows(t, clock, outcomes, p, None, turns);
      }
      assert MostUses(t, advance) == 1;
      var section := q.log[|p.log|..];
      forall a, b | |p.log| <= a < b < |q.log| ensures q.log[a].index != q.log[b].index {
        if section[a - |p.log|].index == section[b - |p.log|].index {
          TwoUses(section, a - |p.log|, b - |p.log|);
        }
      }
    }
  }

  /** A clock that jumps once, just beyond the period, behind its first reading. */
  ghost predicate Jumping(t: Setting, clock: Clock) {
    forall k: nat :: clock(k) == if k == 0 then 0 else t.period + 1
  }

  /** The first transport attempted keeps its early mark, and is therefore never resting. */
  ghost predicate FirstIsLive(t: Setting, clock: Clock, p: Pool) {
    && Safe(t, clock, p) && p.ticks > 0 && p.log != [] && p.log[0].index in p.dead && p.dead[p.log[0].index] == 0
    && forall x :: 0 <= x < |p.log| ==> p.log[x].index < t.size
  }

  lemma FirstIsNotResting(t: Setting, clock: Clock, p: Pool)
    requires Jumping(t, clock) && FirstIsLive(t, clock, p)
    ensures !Resting(t, clock, p, p.log[0].index)
  {
  }

  lemma FirstStaysLive(t: Setting, clock: Clock, p: Pool, k: Pick, i: nat, code: int)
    requires Monotone(clock) && ValidSetting(t) && FirstIsLive(t, clock, p) && Chosen(t, clock, p, k, i) && i != p.log[0].index
    ensures FirstIsLive(t, clock, MarkDead(clock, p.ticks, k.pool, i, code))
  {
    AttemptKeepsSafe(t, clock, p, k, i, Failed(code));
    hide Safe, Follows;
  }

  lemma {:induction false} FullLogRepeats(t: Setting, log: seq<Attempt>)
    requires (forall x :: 0 <= x < |log| ==> log[x].index < t.size) && |log| > t.size
    ensures !Distinct(log, 0)
  {
    if Distinct(log, 0) {
      var indices := IndicesOf(log);
      Numbers.SizeBelow(indices, t.size);
    }
  }

  lemma {:induction false} IndicesOf(log: seq<Attempt>) returns (indices: set<nat>)
    requires Distinct(log, 0)
    ensures |indices| == |log| && forall i :: i in indices <==> exists x :: 0 <= x < |log| && log[x].index == i
    decreases |log|
  {
    if log == [] {
      indices := {};
    } else {
      var before := log[..|log| - 1];
      indices := IndicesOf(before);
      assert forall x :: 0 <= x < |before| ==> before[x] == log[x];
      assert Last(log).index !in indices;
      indices := indices + {Last(log).index};
      forall i | i in indices ensures exists x :: 0 <= x < |log| && log[x].index == i {
        if i == Last(log).index {
          assert log[|log| - 1].index == i;
        } else {
          var x :| 0 <= x < |before| && before[x].index == i;
          assert log[x].index == i;
        }
      }
    }
  }

  lemma RepeatStays(p: Pool, q: Pool)
    requires p.log <= q.log && !Distinct(p.log, 0)
    ensures !Distinct(q.log, 0)
  {
  }

  /** Under a jumping clock a Send in which everything fails comes back to a transport after as many attempts as there are transports. */
  lemma {:induction false} JumpingSendRepeats(t: Setting, clock: Clock, outcomes: Outcomes, p: Pool, aggregate: Option<int>, turns: nat)
    requires ValidSetting(t) && Monotone(clock) && Jumping(t, clock) && FirstIsLive(t, clock, p)
    requires |p.log| + turns == t.size + 1 && forall k: nat :: outcomes(k).Failed?
    ensures !Distinct(SendLoop(t, clock, outcomes, p, aggregate, turns).0.log, 0)
    decreases turns
  {
    hide Safe, Choose, Chosen, Monotone, Jumping, Distinct;
    if turns == 0 {
      FullLogRepeats(t, p.log);
    } else {
      ChooseChooses(t, clock, p);
      FirstIsNotResting(t, clock, p);
      var k := Choose(t, clock, p);
      assert k.index.Some?;
      var i := k.index.value;
      ChosenKeepsLog(t, clock, p, k, i);
      var outcome := outcomes(|p.log|);
      var next := MarkDead(clock, p.ticks, k.pool, i, outcome.code);
      var later := Some(Aggregate(aggregate, outcome.code));
      if i == p.log[0].index {
        AttemptKeepsSafe(t, clock, p, k, i, outcome);
        hide FirstIsLive;
        BackToFirst(p, next, i);
        SendGrows(t, clock, outcomes, next, later, turns - 1);
        RepeatStays(next, SendLoop(t, clock, outcomes, next, later, turns - 1).0);
      } else {
        FirstStaysLive(t, clock, p, k, i, outcome.code);
        JumpingSendRepeats(t, clock, outcomes, next, later, turns - 1);
      }
    }
  }

  lemma BackToFirst(p: Pool, next: Pool, i: nat)
    requires p.log != [] && |next.log| == |p.log| + 1 && p.log <= next.log && next.log[|p.log|].index == i == p.log[0].index
    ensures !Distinct(next.log, 0)
  {
    assert next.log[0] == p.log[0];
  }

  lemma JumpingFromFresh(t: Setting, clock: Clock, outcomes: Outcomes)
    requires ValidSetting(t) && Monotone(clock) && Jumping(t, clock) && forall k: nat :: outcomes(k).Failed?
    ensures !Distinct(SendLoop(t, clock, outcomes, EMPTY, None, t.size + 1).0.log, 0)
  {
    EmptyIsSafe(t, clock);
    hide Safe, Choose, Monotone;
    ChooseChooses(t, clock, EMPTY);
    var k := Choose(t, clock, EMPTY);
    assert !Resting(t, clock, EMPTY, 0);
    assert k.index.Some?;
    FreshReadsNoClock(t, clock);
    var i := k.index.value;
    var outcome := outcomes(0);
    var next := MarkDead(clock, 0, k.pool, i, outcome.code);
    AttemptKeepsSafe(t, clock, EMPTY, k, i, outcome);
    SendFails(t, clock, outcomes, EMPTY, None, t.size + 1);
    hide Chosen, SendLoop;
    JumpingSendRepeats(t, clock, outcomes, next, Some(Aggregate(None, outcome.code)), t.size);
  }

  lemma SendFails(t: Setting, clock: Clock, outcomes: Outcomes, p: Pool, aggregate: Option<int>, turns: nat)
    requires turns > 0 && Choose(t, clock, p).index.Some? && outcomes(|p.log|).Failed?
    ensures var k, code := Choose(t, clock, p), outcomes(|p.log|).code;
      SendLoop(t, clock, outcomes, p, aggregate, turns)
        == SendLoop(t, clock, outcomes, MarkDead(clock, p.ticks, k.pool, k.index.value, code), Some(Aggregate(aggregate, code)), turns - 1)
  {
    hide Choose;
  }

  /** Nothing is marked at first, so the first selection does not look at the clock. */
  lemma FreshReadsNoClock(t: Setting, clock: Clock)
    requires ValidSetting(t)
    ensures Choose(t, clock, EMPTY).pool.ticks == 0
  {
  }

  /** For every pool: each transport is attempted at most once in every Send whose clock advances by at most `advance` exactly if that is within the period. */
  lemma OnceEachExactly(t: Setting, advance: nat)
    requires ValidSetting(t)
    ensures (forall clock: Clock, outcomes: Outcomes, p: Pool, turns: nat :: OnceEach(t, clock, outcomes, p, turns, advance))
       <==> advance <= t.period
  {
    hide OnceEach;
    if advance <= t.period {
      forall clock: Clock, outcomes: Outcomes, p: Pool, turns: nat ensures OnceEach(t, clock, outcomes, p, turns, advance) {
        OnceEachWithinPeriod(t, clock, outcomes, p, turns, advance);
      }
    } else {
      var clock: Clock := (k: nat) => if k == 0 then 0 else t.period + 1;
      var outcomes: Outcomes := (k: nat) => Failed(0);
      JumpingIsNotOnce(t, clock, outcomes, advance);
    }
  }

  lemma JumpingIsNotOnce(t: Setting, clock: Clock, outcomes: Outcomes, advance: nat)
    requires ValidSetting(t) && Jumping(t, clock) && advance > t.period && forall k: nat :: outcomes(k).Failed?
    ensures !OnceEach(t, clock, outcomes, EMPTY, t.size + 1, advance)
  {
    EmptyIsSafe(t, clock);
    hide Safe, SendLoop;
    JumpingFromFresh(t, clock, outcomes);
  }
}
