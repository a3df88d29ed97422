/**
 Results about calls of Send of the composites: what one answers while the clock is held still, and
 how evenly round-robin spreads the messages.
 */
module RotationResults {
  import opened Octets
  import opened Rotation
  import opened RotationSafety
  import opened RotationTermination
  import Numbers

  // ----- with the clock held still -----

  ghost predicate Still(clock: Clock, from: nat, to: nat) {
    forall k: nat :: from <= k <= to ==> clock(k) == clock(from)
  }

  /** Eligible at `time`: not marked, or marked longer than the period ago. */
  predicate Live(t: Setting, dead: map<nat, int>, time: int, i: nat) {
    i in dead ==> time - dead[i] > t.period
  }

  /** The live ones among the `count` transports from `cursor` on, in cyclic order. */
  function LiveFrom(t: Setting, dead: map<nat, int>, time: int, cursor: nat, count: nat): seq<nat>
    decreases count
  {
    if count == 0 then []
    else (if Live(t, dead, time, cursor) then [cursor] else []) + LiveFrom(t, dead, time, MoveCursor(t, cursor), count - 1)
  }

  /** Where the next search begins: at failover's current transport while that is not marked, else at the cursor. */
  function SearchStart(t: Setting, p: Pool): nat {
    if t.sticky && p.current.Some? && p.current.value !in p.dead then p.current.value else Seeded(t, p).cursor
  }

  /** The simple specification of Send: the live transports in order, until one does not fail. */
  function SimpleSend(outcomes: Outcomes, at: nat, live: seq<nat>, aggregate: Option<int>): Result
    decreases |live|
  {
    if live == [] then (if aggregate.Some? then AllFailed(aggregate.value) else NothingFound)
    else
      match outcomes(at)
      case Delivered => Sent(live[0])
      case Rejected => Stopped(live[0])
      case Failed(code) => SimpleSend(outcomes, at + 1, live[1..], Some(Aggregate(aggregate, code)))
  }

  lemma {:induction false} AdvanceTwice(t: Setting, cursor: nat, a: nat, b: nat)
    ensures Advance(t, Advance(t, cursor, a), b) == Advance(t, cursor, a + b)
    decreases a
  {
    if a > 0 {
      AdvanceTwice(t, MoveCursor(t, cursor), a - 1, b);
    }
  }

  lemma {:induction false} LiveSplit(t: Setting, dead: map<nat, int>, time: int, cursor: nat, a: nat, b: nat)
    ensures LiveFrom(t, dead, time, cursor, a + b)
         == LiveFrom(t, dead, time, cursor, a) + LiveFrom(t, dead, time, Advance(t, cursor, a), b)
    decreases a
  {
    if a > 0 {
      LiveSplit(t, dead, time, MoveCursor(t, cursor), a - 1, b);
    }
  }

  lemma {:induction false} NoneLive(t: Setting, dead: map<nat, int>, time: int, cursor: nat, count: nat)
    requires forall d :: 0 <= d < count ==> !Live(t, dead, time, Advance(t, cursor, d))
    ensures LiveFrom(t, dead, time, cursor, count) == []
    decreases count
  {
    if count > 0 {
      assert !Live(t, dead, time, Advance(t, cursor, 0));
      forall d | 0 <= d < count - 1 ensures !Live(t, dead, time, Advance(t, MoveCursor(t, cursor), d)) {
        assert !Live(t, dead, time, Advance(t, cursor, d + 1));
      }
      NoneLive(t, dead, time, MoveCursor(t, cursor), count - 1);
    }
  }

  lemma {:induction false} SameLive(t: Setting, dead: map<nat, int>, time: int, i: nat, mark: int, cursor: nat, count: nat)
    requires forall d :: 0 <= d < count ==> Advance(t, cursor, d) != i
    ensures LiveFrom(t, dead[i := mark], time, cursor, count) == LiveFrom(t, dead, time, cursor, count)
    decreases count
  {
    if count > 0 {
      assert Advance(t, cursor, 0) != i;
      forall d | 0 <= d < count - 1 ensures Advance(t, MoveCursor(t, cursor), d) != i {
        assert Advance(t, cursor, d + 1) != i;
      }
      SameLive(t, dead, time, i, mark, MoveCursor(t, cursor), count - 1);
    }
  }

  /** `i` is the first live transport, `passed` places after `start`. */
  predicate FirstLive(t: Setting, dead: map<nat, int>, time: int, start: nat, passed: nat, i: nat) {
    && passed < t.size && i == Advance(t, start, passed) && Live(t, dead, time, i)
    && forall d :: 0 <= d < passed ==> !Live(t, dead, time, Advance(t, start, d))
  }

  lemma FirstLiveHeads(t: Setting, dead: map<nat, int>, time: int, start: nat, passed: nat, i: nat)
    requires FirstLive(t, dead, time, start, passed, i)
    ensures LiveFrom(t, dead, time, start, t.size) == [i] + LiveFrom(t, dead, time, MoveCursor(t, i), t.size - passed - 1)
  {
    LiveSplit(t, dead, time, start, passed, t.size - passed);
    NoneLive(t, dead, time, start, passed);
  }

  /** After `i` failed, the live ones from behind it on are those that were left. */
  lemma LiveAfterFailure(t: Setting, dead: map<nat, int>, time: int, start: nat, passed: nat, i: nat)
    requires t.period > 0 && start < t.size && FirstLive(t, dead, time, start, passed, i)
    ensures LiveFrom(t, dead, time, start, t.size)
         == [i] + LiveFrom(t, dead[i := time], time, MoveCursor(t, i), t.size)
  {
    var marked, next, rest := dead[i := time], MoveCursor(t, i), t.size - passed - 1;
    FirstLiveHeads(t, dead, time, start, passed, i);
    LiveSplit(t, marked, time, next, rest, passed + 1);
    AdvanceTwice(t, start, passed, 1);
    assert Advance(t, i, 1) == next;
    AdvanceIs(t, start, passed);
    forall d | 0 <= d < rest ensures Advance(t, next, d) != i {
      AdvanceTwice(t, start, passed + 1, d);
      AdvanceIs(t, start, passed + 1 + d);
    }
    SameLive(t, dead, time, i, time, next, rest);
    AdvanceTwice(t, start, passed + 1, rest);
    AdvanceIs(t, start, t.size);
    assert Advance(t, next, rest) == start;
    assert forall d :: 0 <= d < passed + 1 ==> d == passed || !Live(t, dead, time, Advance(t, start, d));
    NoneLive(t, marked, time, start, passed + 1);
  }

  lemma ChooseFirstLive(t: Setting, clock: Clock, p: Pool) returns (passed: nat)
    requires Monotone(clock) && ValidSetting(t) && ValidPool(t, p) && Still(clock, p.ticks, p.ticks + t.size)
    ensures var k := Choose(t, clock, p);
      && SearchStart(t, p) < t.size
      && (k.index.None? ==> LiveFrom(t, p.dead, clock(p.ticks), SearchStart(t, p), t.size) == [])
      && (k.index.Some? ==> FirstLive(t, p.dead, clock(p.ticks), SearchStart(t, p), passed, k.index.value))
  {
    var start := SearchStart(t, p);
    var k := Choose(t, clock, p);
    if t.sticky && p.current.Some? && p.current.value !in p.dead {
      passed := 0;
    } else {
      var s := Seeded(t, p);
      var found := Scan(t, clock, s, s.cursor, t.size);
      passed := ScanFinds(t, clock, s, s.cursor, t.size);
      hide Scan;
      forall d | 0 <= d < passed ensures !Live(t, p.dead, clock(p.ticks), Advance(t, start, d)) {
        assert Resting(t, clock, s, Advance(t, start, d));
      }
      if found.index.None? {
        NoneLive(t, p.dead, clock(p.ticks), start, t.size);
      }
    }
  }

  /** After a failed attempt on the first live transport, the search goes on behind it. */
  lemma FailureAdvancesSearch(t: Setting, clock: Clock, p: Pool, k: Pick, i: nat, code: int)
    requires Monotone(clock) && ValidSetting(t) && Safe(t, clock, p) && Chosen(t, clock, p, k, i)
    ensures var next := MarkDead(clock, p.ticks, k.pool, i, code);
      && SearchStart(t, next) == MoveCursor(t, i) && next.ticks <= p.ticks + t.size + 1 && next.log != []
      && next.dead == p.dead[i := clock(k.pool.ticks)] && |next.log| == |p.log| + 1
  {
    assert (p.dead - {i})[i := clock(k.pool.ticks)] == p.dead[i := clock(k.pool.ticks)];
  }

  /** A Send under a still clock that has `turns` turns and the readings up to `to` in hand. */
  ghost predicate StillGoing(t: Setting, clock: Clock, p: Pool, turns: nat, to: nat) {
    Monotone(clock) && ValidSetting(t) && Safe(t, clock, p) && Still(clock, p.ticks, to) && InHand(t, p.ticks, to, turns)
  }

  lemma StillGoesOn(t: Setting, clock: Clock, p: Pool, turns: nat, to: nat, k: Pick, i: nat, code: int)
    requires StillGoing(t, clock, p, turns, to) && turns > 0 && Chosen(t, clock, p, k, i)
    ensures StillGoing(t, clock, MarkDead(clock, p.ticks, k.pool, i, code), turns - 1, to)
    ensures clock(k.pool.ticks) == clock(p.ticks)
    ensures clock(MarkDead(clock, p.ticks, k.pool, i, code).ticks) == clock(p.ticks)
  {
    hide Safe;
    SpendTurn(t, p.ticks, k.pool.ticks + 1, to, turns);
    NotBeyond(t, k.pool.ticks + 1, to, turns - 1);
    AttemptKeepsSafe(t, clock, p, k, i, Failed(code));
    StillLater(clock, p.ticks, k.pool.ticks, to);
    StillLater(clock, p.ticks, k.pool.ticks + 1, to);
  }

  lemma NotBeyond(t: Setting, ticks: nat, to: nat, turns: nat)
    requires InHand(t, ticks, to, turns)
    ensures ticks <= to
  {
    assert turns * (t.size + 1) >= 0;
  }

  lemma StillLater(clock: Clock, from: nat, later: nat, to: nat)
    requires Still(clock, from, to) && from <= later <= to
    ensures Still(clock, later, to) && clock(later) == clock(from)
  {
  }

  lemma StillChoice(t: Setting, clock: Clock, p: Pool, turns: nat, to: nat) returns (live: seq<nat>)
    requires StillGoing(t, clock, p, turns, to) && turns > 0
    ensures live == LiveFrom(t, p.dead, clock(p.ticks), SearchStart(t, p), t.size)
    ensures var k := Choose(t, clock, p);
      && (k.index.None? ==> live == [] && forall i :: 0 <= i < t.size ==> i in k.pool.dead)
      && (k.index.Some? ==>
            && Chosen(t, clock, p, k, k.index.value)
            && live == [k.index.value] + LiveFrom(t, p.dead[k.index.value := clock(p.ticks)], clock(p.ticks), MoveCursor(t, k.index.value), t.size))
  {
    SpendTurn(t, p.ticks, p.ticks, to, turns);
    var passed := ChooseFirstLive(t, clock, p);
    hide Choose;
    live := LiveFrom(t, p.dead, clock(p.ticks), SearchStart(t, p), t.size);
    ChooseChooses(t, clock, p);
    var k := Choose(t, clock, p);
    if k.index.Some? {
      hide LiveFrom;
      LiveAfterFailure(t, p.dead, clock(p.ticks), SearchStart(t, p), passed, k.index.value);
    } else {
      forall i | 0 <= i < t.size ensures i in k.pool.dead {
        assert Resting(t, clock, p, i);
      }
    }
  }

  /**
   With the clock held still, Send of either composite is the simple specification: the outcome of
   the first live transport, in cyclic order from where the search begins, that does not fail with a
   transport error; otherwise the aggregate, and then every transport is marked dead.
   */
  lemma {:induction false} StillSendIsSimple(t: Setting, clock: Clock, outcomes: Outcomes, p: Pool, aggregate: Option<int>, turns: nat, to: nat)
    requires StillGoing(t, clock, p, turns, to)
    requires turns > |LiveFrom(t, p.dead, clock(p.ticks), SearchStart(t, p), t.size)|
    ensures var (q, r) := SendLoop(t, clock, outcomes, p, aggregate, turns);
      && r == SimpleSend(outcomes, |p.log|, LiveFrom(t, p.dead, clock(p.ticks), SearchStart(t, p), t.size), aggregate)
      && (r.AllFailed? || r.NothingFound? ==> forall i :: 0 <= i < t.size ==> i in q.dead)
    decreases turns
  {
    hide Choose, Chosen, StillGoing, LiveFrom, SearchStart;
    var live := StillChoice(t, clock, p, turns, to);
    var k := Choose(t, clock, p);
    if k.index.Some? {
      var i := k.index.value;
      assert k.pool.log == p.log by { ChosenKeepsLog(t, clock, p, k, i); }
      var outcome := outcomes(|p.log|);
      if outcome.Failed? {
        var next := MarkDead(clock, p.ticks, k.pool, i, outcome.code);
        StillGoesOn(t, clock, p, turns, to, k, i, outcome.code);
        assert SearchStart(t, next) == MoveCursor(t, i) && next.dead == p.dead[i := clock(p.ticks)] by {
          StillFailure(t, clock, p, turns, to, k, i, outcome.code);
        }
        StillSendIsSimple(t, clock, outcomes, next, Some(Aggregate(aggregate, outcome.code)), turns - 1, to);
      }
    }
  }

  lemma StillFailure(t: Setting, clock: Clock, p: Pool, turns: nat, to: nat, k: Pick, i: nat, code: int)
    requires StillGoing(t, clock, p, turns, to) && turns > 0 && Chosen(t, clock, p, k, i)
    ensures var next := MarkDead(clock, p.ticks, k.pool, i, code);
            SearchStart(t, next) == MoveCursor(t, i) && next.dead == p.dead[i := clock(p.ticks)]
  {
    StillGoesOn(t, clock, p, turns, to, k, i, code);
    FailureAdvancesSearch(t, clock, p, k, i, code);
  }

  /** The last non-zero code among the failures at positions lo .. hi-1, 0 if there is none. */
  function LastCode(outcomes: Outcomes, lo: nat, hi: nat): int
    requires lo <= hi
    decreases hi
  {
    if lo == hi then 0
    else
      var o := outcomes(hi - 1);
      if o.Failed? && o.code != 0 then o.code else LastCode(outcomes, lo, hi - 1)
  }

  /** `tried` transports failed, and then either one did not or none was left. */
  predicate Tells(outcomes: Outcomes, at: nat, live: seq<nat>, r: Result, tried: nat) {
    && tried <= |live|
    && (forall k :: at <= k < at + tried ==> outcomes(k).Failed?)
    && (if tried < |live| then
          !outcomes(at + tried).Failed? && r == (if outcomes(at + tried).Delivered? then Sent(live[tried]) else Stopped(live[tried]))
        else r == (if live == [] then NothingFound else AllFailed(LastCode(outcomes, at, at + tried))))
  }

  lemma {:induction false} LastCodeSplit(outcomes: Outcomes, lo: nat, hi: nat)
    requires lo < hi
    ensures LastCode(outcomes, lo, hi)
         == (if LastCode(outcomes, lo + 1, hi) != 0 then LastCode(outcomes, lo + 1, hi)
             else if outcomes(lo).Failed? then outcomes(lo).code else 0)
    decreases hi
  {
    if lo + 1 < hi {
      LastCodeSplit(outcomes, lo, hi - 1);
    } else {
      assert LastCode(outcomes, lo, lo) == 0;
    }
  }

  lemma {:induction false} SimpleSendTells(outcomes: Outcomes, at: nat, live: seq<nat>, aggregate: Option<int>) returns (tried: nat)
    ensures var r := SimpleSend(outcomes, at, live, aggregate);
      && tried <= |live|
      && (forall k :: at <= k < at + tried ==> outcomes(k).Failed?)
      && (tried < |live| ==>
            !outcomes(at + tried).Failed? && r == (if outcomes(at + tried).Delivered? then Sent(live[tried]) else Stopped(live[tried])))
      && (tried == |live| ==>
            r == (if live == [] && aggregate.None? then NothingFound else AllFailed(Aggregate(aggregate, LastCode(outcomes, at, at + tried)))))
    decreases |live|
  {
    tried := 0;
    if live != [] {
      var o := outcomes(at);
      if o.Failed? {
        var more := SimpleSendTells(outcomes, at + 1, live[1..], Some(Aggregate(aggregate, o.code)));
        tried := more + 1;
        LastCodeSplit(outcomes, at, at + tried);
      }
    }
  }

  /** Where a search begins: behind the last attempt, at that attempt if failover may stay, and at the seed before the first attempt. */
  lemma SearchStartIs(t: Setting, clock: Clock, p: Pool)
    requires ValidSetting(t) && Safe(t, clock, p)
    ensures p.log != [] ==>
      var last := Last(p.log);
      SearchStart(t, p) == if t.sticky && !last.outcome.Failed? then last.index else if last.index + 1 < t.size then last.index + 1 else 0
    ensures p == EMPTY ==> SearchStart(t, p) == if 0 <= t.seed < t.size then t.seed else 0
  {
    hide InOrder, RetryRespected, Guarded;
    if p.log != [] {
      if t.sticky && !Last(p.log).outcome.Failed? {
        LastNotMarked(p);
      } else if t.sticky && p.current.Some? && p.current.value !in p.dead {
        LastNotFailed(t, p);
      }
    }
  }

  /** Nothing is marked: all transports are live, in cyclic order. */
  lemma {:induction false} AllLive(t: Setting, time: int, cursor: nat, count: nat)
    ensures var live := LiveFrom(t, map[], time, cursor, count);
      |live| == count && forall d :: 0 <= d < count ==> live[d] == Advance(t, cursor, d)
    decreases count
  {
    if count > 0 {
      AllLive(t, time, MoveCursor(t, cursor), count - 1);
      var live, rest := LiveFrom(t, map[], time, cursor, count), LiveFrom(t, map[], time, MoveCursor(t, cursor), count - 1);
      assert live == [cursor] + rest;
      forall d | 0 <= d < count ensures live[d] == Advance(t, cursor, d) {
        if d > 0 {
          assert live[d] == rest[d - 1];
        }
      }
    }
  }

  /** Cyclic order is counting modulo the number of transports. */
  lemma {:induction false} AdvanceIsModulo(t: Setting, cursor: nat, steps: nat)
    requires cursor < t.size
    ensures Advance(t, cursor, steps) == (cursor + steps) % t.size
    decreases steps
  {
    if steps < t.size {
      AdvanceIs(t, cursor, steps);
      Modulo(cursor + steps, t.size);
    } else {
      AdvanceTwice(t, cursor, t.size, steps - t.size);
      AdvanceIs(t, cursor, t.size);
      AdvanceIsModulo(t, cursor, steps - t.size);
      OneLap(cursor + steps, t.size);
    }
  }

  lemma Modulo(n: nat, size: nat)
    requires n < 2 * size
    ensures n % size == if n < size then n else n - size
  {
    if n >= size {
      OneLap(n, size);
    }
  }

  lemma OneLap(n: nat, size: nat)
    requires 0 < size <= n
    ensures (n - size) % size == n % size
  {
    var q, r := (n - size) / size, (n - size) % size;
    assert n == (q + 1) * size + r;
    Numbers.Remainder(n, size, q + 1, r);
  }

  /**
   What the first Send of a fresh composite answers under a still clock: it tries the transports one after
   the other from the one the seed names, until one does not fail, and answers what that one did.
   */
  lemma FreshSendTells(t: Setting, clock: Clock, outcomes: Outcomes, turns: nat) returns (tried: nat)
    requires Monotone(clock) && ValidSetting(t) && Still(clock, 0, turns * (t.size + 1)) && turns > t.size
    ensures tried <= t.size && forall k :: 0 <= k < tried ==> outcomes(k).Failed?
    ensures var r, start := SendLoop(t, clock, outcomes, EMPTY, None, turns).1, if 0 <= t.seed < t.size then t.seed else 0;
      if tried < t.size then
        !outcomes(tried).Failed?
        && r == if outcomes(tried).Delivered? then Sent((start + tried) % t.size) else Stopped((start + tried) % t.size)
      else r == AllFailed(LastCode(outcomes, 0, t.size))
  {
    FreshChoice(t, clock);
    SearchStartIs(t, clock, EMPTY);
    hide Safe, SendLoop, Monotone, Still, SearchStart;
    var start := if 0 <= t.seed < t.size then t.seed else 0;
    var live, n := StillSendTells(t, clock, outcomes, EMPTY, turns);
    tried := n;
    AllLive(t, clock(0), start, t.size);
    AdvanceIsModulo(t, start, tried);
  }

  /**
   What a Send under a still clock answers, in terms of the transports live on entry: "No transports
   found." exactly when there is none, the aggregate with the last non-zero code exactly when all of
   them fail, and otherwise what the first one that does not fail answers.
   */
  lemma StillSendTells(t: Setting, clock: Clock, outcomes: Outcomes, p: Pool, turns: nat) returns (live: seq<nat>, tried: nat)
    requires StillGoing(t, clock, p, turns, p.ticks + turns * (t.size + 1)) && turns > t.size
    ensures live == LiveFrom(t, p.dead, clock(p.ticks), SearchStart(t, p), t.size)
    ensures Tells(outcomes, |p.log|, live, SendLoop(t, clock, outcomes, p, None, turns).1, tried)
  {
    hide Safe, SendLoop;
    live := LiveFrom(t, p.dead, clock(p.ticks), SearchStart(t, p), t.size);
    LiveLength(t, p.dead, clock(p.ticks), SearchStart(t, p), t.size);
    StillSendIsSimple(t, clock, outcomes, p, None, turns, p.ticks + turns * (t.size + 1));
    tried := SimpleSendTells(outcomes, |p.log|, live, None);
  }

  lemma {:induction false} LiveLength(t: Setting, dead: map<nat, int>, time: int, cursor: nat, count: nat)
    ensures |LiveFrom(t, dead, time, cursor, count)| <= count
    decreases count
  {
    if count > 0 {
      LiveLength(t, dead, time, MoveCursor(t, cursor), count - 1);
    }
  }

  // ----- fairness -----

  /** `messages` Sends of a round-robin composite, one after the other. */
  function SendMany(t: Setting, clock: Clock, outcomes: Outcomes, p: Pool, messages: nat): Pool
    decreases messages
  {
    if messages == 0 then p
    else SendLoop(t, clock, outcomes, SendMany(t, clock, outcomes, p, messages - 1), None, 1).0
  }

  lemma HealthySend(t: Setting, clock: Clock, outcomes: Outcomes, p: Pool)
    requires ValidSetting(t) && !t.sticky && p.dead == map[] && p.initialized && p.cursor < t.size && !outcomes(|p.log|).Failed?
    ensures var q := SendLoop(t, clock, outcomes, p, None, 1).0;
      && q.dead == map[] && q.initialized && q.cursor == MoveCursor(t, p.cursor)
      && |q.log| == |p.log| + 1 && q.log[..|p.log|] == p.log && q.log[|p.log|].index == p.cursor
  {
    var k := Choose(t, clock, p);
    assert k == Take(t, p, p.cursor);
    assert p.dead - {p.cursor} == map[];
  }

  /** After `messages` attempts from an empty log, one after the other in cyclic order, all transports are live. */
  predicate InStep(t: Setting, start: nat, q: Pool, messages: nat) {
    && q.dead == map[] && q.initialized && q.cursor == Advance(t, start, messages) && q.cursor < t.size
    && |q.log| == messages && forall k :: 0 <= k < messages ==> q.log[k].index == Advance(t, start, k)
  }

  lemma StartsInStep(t: Setting, clock: Clock, outcomes: Outcomes, p: Pool)
    requires p.dead == map[] && p.initialized && p.cursor < t.size && p.log == []
    ensures InStep(t, p.cursor, SendMany(t, clock, outcomes, p, 0), 0)
  {
  }

  lemma StaysInStep(t: Setting, clock: Clock, outcomes: Outcomes, start: nat, before: Pool, messages: nat)
    requires ValidSetting(t) && !t.sticky && start < t.size && InStep(t, start, before, messages) && !outcomes(messages).Failed?
    ensures InStep(t, start, SendLoop(t, clock, outcomes, before, None, 1).0, messages + 1)
  {
    var q := SendLoop(t, clock, outcomes, before, None, 1).0;
    HealthySend(t, clock, outcomes, before);
    hide SendLoop, Advance, MoveCursor;
    NextIs(t, start, messages);
    InTurn(t, start, before.log, q.log);
  }

  lemma {:induction false} HealthyRun(t: Setting, clock: Clock, outcomes: Outcomes, p: Pool, messages: nat)
    requires ValidSetting(t) && !t.sticky && p.dead == map[] && p.initialized && p.cursor < t.size && p.log == []
    requires forall k: nat :: !outcomes(k).Failed?
    ensures InStep(t, p.cursor, SendMany(t, clock, outcomes, p, messages), messages)
    decreases messages
  {
    hide *;
    if messages == 0 {
      StartsInStep(t, clock, outcomes, p);
    } else {
      HealthyRun(t, clock, outcomes, p, messages - 1);
      OneMoreSend(t, clock, outcomes, p, messages);
      StaysInStep(t, clock, outcomes, p.cursor, SendMany(t, clock, outcomes, p, messages - 1), messages - 1);
    }
  }

  lemma OneMoreSend(t: Setting, clock: Clock, outcomes: Outcomes, p: Pool, messages: nat)
    requires messages > 0
    ensures SendMany(t, clock, outcomes, p, messages)
         == SendLoop(t, clock, outcomes, SendMany(t, clock, outcomes, p, messages - 1), None, 1).0
  {
    hide SendLoop;
  }

  lemma InTurn(t: Setting, start: nat, before: seq<Attempt>, after: seq<Attempt>)
    requires |after| == |before| + 1 && after[..|before|] == before
    requires forall k :: 0 <= k < |before| ==> before[k].index == Advance(t, start, k)
    requires after[|before|].index == Advance(t, start, |before|)
    ensures forall k :: 0 <= k < |after| ==> after[k].index == Advance(t, start, k)
  {
    hide Advance;
    forall k | 0 <= k < |after| ensures after[k].index == Advance(t, start, k) {
      assert k < |before| ==> after[k] == after[..|before|][k];
    }
  }

  lemma NextIs(t: Setting, cursor: nat, steps: nat)
    requires cursor < t.size
    ensures Advance(t, cursor, steps + 1) == MoveCursor(t, Advance(t, cursor, steps)) < t.size
  {
    AdvanceTwice(t, cursor, steps, 1);
    assert Advance(t, Advance(t, cursor, steps), 1) == MoveCursor(t, Advance(t, cursor, steps));
  }

  /** The first Send seeds the cursor itself. */
  lemma {:induction false} SeedingIsSilent(t: Setting, clock: Clock, outcomes: Outcomes, p: Pool, messages: nat)
    requires !t.sticky
    ensures SendMany(t, clock, outcomes, p, messages).log == SendMany(t, clock, outcomes, Seeded(t, p), messages).log
    ensures messages > 0 ==> SendMany(t, clock, outcomes, p, messages) == SendMany(t, clock, outcomes, Seeded(t, p), messages)
    decreases messages
  {
    if messages == 1 {
      var s := Seeded(t, p);
      assert Choose(t, clock, p) == Choose(t, clock, s);
      assert SendMany(t, clock, outcomes, p, 0) == p && SendMany(t, clock, outcomes, s, 0) == s;
      hide Choose;
      assert SendLoop(t, clock, outcomes, p, None, 1) == SendLoop(t, clock, outcomes, s, None, 1);
    } else if messages > 1 {
      SeedingIsSilent(t, clock, outcomes, p, messages - 1);
    }
  }

  function Laps(rounds: nat, size: nat): nat { rounds * size }

  /** How many places `i` lies behind `cursor` in cyclic order. */
  function Places(t: Setting, cursor: nat, i: nat): int {
    if i >= cursor then i - cursor else i + t.size - cursor
  }

  /** After `rounds` full rounds and `extra` attempts, the first `extra` transports are one attempt ahead. */
  lemma {:induction false} UsesAfter(t: Setting, log: seq<Attempt>, start: nat, rounds: nat, extra: nat, i: nat)
    requires start < t.size && i < t.size && extra < t.size && |log| == Laps(rounds, t.size) + extra
    requires forall k :: 0 <= k < |log| ==> log[k].index == Advance(t, start, k)
    ensures Uses(log, i) == rounds + (if Places(t, start, i) < extra then 1 else 0)
    ensures Advance(t, start, |log|) == Advance(t, start, extra)
    decreases |log|
  {
    hide *;
    NoLaps(rounds, t.size, extra);
    if log == [] {
      UsesNothing(t, start, i);
    } else {
      var before := log[..|log| - 1];
      UsesLast(log, i);
      NextIs(t, start, |before|);
      if extra > 0 {
        UsesAfter(t, before, start, rounds, extra - 1, i);
        PlaceOf(t, start, extra - 1, i);
      } else {
        FewerRounds(rounds, t.size, |before|);
        UsesAfter(t, before, start, rounds - 1, t.size - 1, i);
        PlaceOf(t, start, t.size - 1, i);
        AllPlaces(t, start, i);
      }
    }
  }

  lemma NoLaps(rounds: nat, size: nat, extra: nat)
    requires size > 0
    ensures Laps(rounds, size) + extra == 0 <==> rounds == 0 && extra == 0
  {
    assert rounds * size >= rounds;
  }

  lemma UsesNothing(t: Setting, start: nat, i: nat)
    requires start < t.size && i < t.size
    ensures Uses([], i) == 0 && Places(t, start, i) >= 0
  {
  }

  /** The transport `d` places on is the only one that lies `d` places behind, and the next one follows it. */
  lemma PlaceOf(t: Setting, start: nat, d: nat, i: nat)
    requires start < t.size && i < t.size && d < t.size
    ensures Advance(t, start, d) == i <==> Places(t, start, i) == d
    ensures Advance(t, start, d + 1) == MoveCursor(t, Advance(t, start, d))
  {
    AdvanceIs(t, start, d);
    NextIs(t, start, d);
    hide Advance;
  }

  lemma AllPlaces(t: Setting, start: nat, i: nat)
    requires start < t.size && i < t.size
    ensures 0 <= Places(t, start, i) < t.size && Advance(t, start, t.size) == start == Advance(t, start, 0)
  {
    AdvanceIs(t, start, t.size);
  }

  lemma UsesLast(log: seq<Attempt>, i: nat)
    requires log != []
    ensures Uses(log, i) == Uses(log[..|log| - 1], i) + (if log[|log| - 1].index == i then 1 else 0)
  {
  }

  lemma FewerRounds(rounds: nat, size: nat, before: nat)
    requires size > 0 && before + 1 == Laps(rounds, size)
    ensures rounds > 0 && before == Laps(rounds - 1, size) + (size - 1)
  {
  }

  lemma {:induction false} Rounds(messages: nat, size: nat) returns (rounds: nat, extra: nat)
    requires size > 0
    ensures messages == Laps(rounds, size) + extra && extra < size
    decreases messages
  {
    if messages < size {
      rounds, extra := 0, messages;
    } else {
      rounds, extra := Rounds(messages - size, size);
      rounds := rounds + 1;
    }
  }

  /** The k-th attempt goes to the transport k places behind `start`, counting round and round. */
  predicate TakesTurns(log: seq<Attempt>, start: nat, size: nat)
    requires size > 0
  {
    forall k :: 0 <= k < |log| ==> log[k].index == (start + k) % size
  }

  lemma InTurnModulo(t: Setting, start: nat, log: seq<Attempt>)
    requires start < t.size && forall k :: 0 <= k < |log| ==> log[k].index == Advance(t, start, k)
    ensures TakesTurns(log, start, t.size)
  {
    hide Advance;
    forall k | 0 <= k < |log| ensures log[k].index == (start + k) % t.size {
      AdvanceIsModulo(t, start, k);
    }
  }

  /** In cyclic order no transport is used more than once more often than another. */
  lemma EvenUses(t: Setting, log: seq<Attempt>, start: nat, i: nat, j: nat)
    requires start < t.size && i < t.size && j < t.size
    requires forall k :: 0 <= k < |log| ==> log[k].index == Advance(t, start, k)
    ensures Uses(log, i) <= Uses(log, j) + 1
  {
    hide *;
    var rounds, extra := Rounds(|log|, t.size);
    UsesAfter(t, log, start, rounds, extra, i);
    UsesAfter(t, log, start, rounds, extra, j);
  }

  /**
   While no transport fails, round-robin uses the transports in turn, and after any number of
   messages no transport has been used more than once more often than another.
   */
  lemma RoundRobinIsFair(t: Setting, clock: Clock, outcomes: Outcomes, messages: nat, i: nat, j: nat)
    requires ValidSetting(t) && !t.sticky && i < t.size && j < t.size
    requires forall k: nat :: !outcomes(k).Failed?
    ensures var log := SendMany(t, clock, outcomes, EMPTY, messages).log;
      && |log| == messages && TakesTurns(log, if 0 <= t.seed < t.size then t.seed else 0, t.size)
      && Uses(log, i) <= Uses(log, j) + 1
  {
    var start := Seeded(t, EMPTY);
    assert start.cursor == (if 0 <= t.seed < t.size then t.seed else 0) && start.log == [] && start.dead == map[] && start.initialized;
    hide *;
    SeedingIsSilent(t, clock, outcomes, EMPTY, messages);
    HealthyRun(t, clock, outcomes, start, messages);
    var log := SendMany(t, clock, outcomes, start, messages).log;
    InStepMeans(t, start.cursor, SendMany(t, clock, outcomes, start, messages), messages);
    EvenUses(t, log, start.cursor, i, j);
    InTurnModulo(t, start.cursor, log);
  }

  lemma InStepMeans(t: Setting, start: nat, q: Pool, messages: nat)
    requires InStep(t, start, q, messages)
    ensures |q.log| == messages && forall k :: 0 <= k < messages ==> q.log[k].index == Advance(t, start, k)
  {
  }
}
