/**
 Selection and failover of transport/roundrobin.go and transport/failover.go as functions: the
 cyclic scan over live transports, the dead marks with their retry period, and the loop of Send.
 The clock is one reading per call of now(), the underlying transports one outcome per attempt.
 */
module Rotation {
  import opened Octets

  /** What an underlying transport answers: success, a transport error with its code, another error. */
  datatype Outcome = Delivered | Failed(code: int) | Rejected

  type Clock = nat -> int
  type Outcomes = nat -> Outcome

  /** `size` transports; `sticky` tells the failover composite from the round-robin one. */
  datatype Setting = Setting(size: nat, period: int, seed: int, sticky: bool)

  /**
   One attempt: its transport, the clock when selecting began and when it ended, the outcome, and
   the time of the dead mark it led to (that of the selection when it did not fail).
   */
  datatype Attempt = Attempt(index: nat, scanned: int, time: int, outcome: Outcome, marked: int)

  /** `ticks` clock readings were taken so far, and `|log|` attempts were made. */
  datatype Pool = Pool(
    dead: map<nat, int>, cursor: nat, initialized: bool, current: Option<nat>, ticks: nat, log: seq<Attempt>)

  datatype Result = Sent(index: nat) | Stopped(index: nat) | AllFailed(code: int) | NothingFound | Unfinished

  datatype Pick = Pick(pool: Pool, index: Option<nat>)

  const EMPTY := Pool(map[], 0, false, None, 0, [])

  predicate ValidSetting(t: Setting) {
    t.size > 0 && t.period > 0
  }

  predicate ValidPool(t: Setting, p: Pool) {
    && p.cursor < t.size
    && (p.current.Some? ==> p.current.value < t.size)
    && (forall i :: i in p.dead ==> i < t.size)
  }

  ghost predicate Monotone(clock: Clock) {
    forall i: nat, j: nat :: i <= j ==> clock(i) <= clock(j)
  }

  function MoveCursor(t: Setting, cursor: nat): nat {
    if cursor + 1 >= t.size then 0 else cursor + 1
  }

  /** The first cursor: what initialCursor answers, 0 when that is out of range. */
  function Seeded(t: Setting, p: Pool): Pool {
    if p.initialized then p
    else p.(cursor := if 0 <= t.seed < t.size then t.seed else 0, initialized := true)
  }

  function Take(t: Setting, p: Pool, index: nat): Pick {
    Pick(p.(dead := p.dead - {index}, cursor := MoveCursor(t, index)), Some(index))
  }

  /** The scan from `cursor` over the `left` transports that have not been looked at. */
  function Scan(t: Setting, clock: Clock, p: Pool, cursor: nat, left: nat): Pick
    decreases left
  {
    if left == 0 then Pick(p, None)
    else if cursor !in p.dead then Take(t, p, cursor)
    else
      var q := p.(ticks := p.ticks + 1);
      if clock(p.ticks) - p.dead[cursor] > t.period then Take(t, q, cursor)
      else Scan(t, clock, q, MoveCursor(t, cursor), left - 1)
  }

  lemma ScanStep(t: Setting, clock: Clock, p: Pool, at: nat, left: nat)
    requires left > 0
    ensures at !in p.dead ==> Scan(t, clock, p, at, left) == Pick(p.(cursor := MoveCursor(t, at)), Some(at))
    ensures at in p.dead ==> var q := p.(ticks := p.ticks + 1);
      Scan(t, clock, p, at, left) ==
        if clock(p.ticks) - p.dead[at] > t.period then Pick(q.(dead := q.dead - {at}, cursor := MoveCursor(t, at)), Some(at))
        else Scan(t, clock, q, MoveCursor(t, at), left - 1)
  {
    if at !in p.dead {
      assert p.dead - {at} == p.dead;
    }
  }

  lemma ScanEnd(t: Setting, clock: Clock, p: Pool, at: nat)
    ensures Scan(t, clock, p, at, 0) == Pick(p, None)
  {
  }

  function NextTransport(t: Setting, clock: Clock, p: Pool): Pick {
    var s := Seeded(t, p);
    Scan(t, clock, s, s.cursor, t.size)
  }

  /** The next transport to try: failover stays on its current one until that is marked dead. */
  function Choose(t: Setting, clock: Clock, p: Pool): Pick {
    if !t.sticky then NextTransport(t, clock, p)
    else if p.current.Some? && p.current.value !in p.dead then Pick(p, p.current)
    else
      var k := NextTransport(t, clock, p);
      Pick(k.pool.(current := k.index), k.index)
  }

  function Entry(clock: Clock, scanned: nat, q: Pool, index: nat, outcome: Outcome): Attempt {
    Attempt(index, clock(scanned), clock(q.ticks), outcome, clock(q.ticks))
  }

  /** markDead after a transport error, and the attempt on record. */
  function MarkDead(clock: Clock, scanned: nat, q: Pool, index: nat, code: int): Pool {
    q.(dead := q.dead[index := clock(q.ticks)], ticks := q.ticks + 1,
       log := q.log + [Entry(clock, scanned, q, index, Failed(code))])
  }

  function Recorded(clock: Clock, scanned: nat, q: Pool, index: nat, outcome: Outcome): Pool {
    q.(log := q.log + [Entry(clock, scanned, q, index, outcome)])
  }

  /** The code of the aggregate: the last non-zero one. */
  function Aggregate(aggregate: Option<int>, code: int): int {
    if code != 0 then code else if aggregate.Some? then aggregate.value else 0
  }

  /** The loop of Send. It has no bound of its own: Unfinished says that it is still running after `turns`. */
  function SendLoop(t: Setting, clock: Clock, outcomes: Outcomes, p: Pool, aggregate: Option<int>, turns: nat): (Pool, Result)
    decreases turns
  {
    if turns == 0 then (p, Unfinished)
    else
      var k := Choose(t, clock, p);
      if k.index.None? then (k.pool, if aggregate.Some? then AllFailed(aggregate.value) else NothingFound)
      else
        var index := k.index.value;
        match outcomes(|p.log|)
        case Delivered => (Recorded(clock, p.ticks, k.pool, index, Delivered), Sent(index))
        case Rejected => (Recorded(clock, p.ticks, k.pool, index, Rejected), Stopped(index))
        case Failed(code) =>
          SendLoop(t, clock, outcomes, MarkDead(clock, p.ticks, k.pool, index, code), Some(Aggregate(aggregate, code)), turns - 1)
  }

  // ----- one selection -----

  /** The transport `steps` places after `cursor` in cyclic order. */
  function Advance(t: Setting, cursor: nat, steps: nat): nat
    decreases steps
  {
    if steps == 0 then cursor else Advance(t, MoveCursor(t, cursor), steps - 1)
  }

  predicate Resting(t: Setting, clock: Clock, p: Pool, i: nat) {
    i in p.dead && clock(p.ticks) - p.dead[i] <= t.period
  }

  /** What a scan finds: the first transport in cyclic order that is not resting, `passed` places after the cursor. */
  predicate Found(t: Setting, clock: Clock, p: Pool, cursor: nat, left: nat, k: Pick, passed: nat) {
    && passed <= left
    && (forall d :: 0 <= d < passed ==> Resting(t, clock, p, Advance(t, cursor, d)))
    && (k.index.None? ==> passed == left && k.pool == p.(ticks := k.pool.ticks) && p.ticks <= k.pool.ticks <= p.ticks + left)
    && (k.index.Some? ==>
          && passed < left && k.index.value == Advance(t, cursor, passed)
          && k.pool == p.(ticks := k.pool.ticks, dead := p.dead - {k.index.value}, cursor := MoveCursor(t, k.index.value))
          && p.ticks <= k.pool.ticks <= p.ticks + left
          && (k.index.value in p.dead ==> clock(k.pool.ticks) - p.dead[k.index.value] > t.period))
  }

  lemma {:induction false} ScanFinds(t: Setting, clock: Clock, p: Pool, cursor: nat, left: nat) returns (passed: nat)
    requires Monotone(clock)
    ensures Found(t, clock, p, cursor, left, Scan(t, clock, p, cursor, left), passed)
    decreases left
  {
    if left == 0 || cursor !in p.dead || clock(p.ticks) - p.dead[cursor] > t.period {
      passed := 0;
    } else {
      var q := p.(ticks := p.ticks + 1);
      passed := ScanFinds(t, clock, q, MoveCursor(t, cursor), left - 1);
      FoundOneLater(t, clock, p, cursor, left, Scan(t, clock, q, MoveCursor(t, cursor), left - 1), passed);
      passed := passed + 1;
    }
  }

  lemma FoundOneLater(t: Setting, clock: Clock, p: Pool, cursor: nat, left: nat, k: Pick, passed: nat)
    requires Monotone(clock) && left > 0 && Resting(t, clock, p, cursor)
    requires Found(t, clock, p.(ticks := p.ticks + 1), MoveCursor(t, cursor), left - 1, k, passed)
    ensures Found(t, clock, p, cursor, left, k, passed + 1)
  {
    var q := p.(ticks := p.ticks + 1);
    assert clock(p.ticks) <= clock(q.ticks);
    forall d | 0 <= d < passed + 1 ensures Resting(t, clock, p, Advance(t, cursor, d)) {
      if d > 0 {
        assert Resting(t, clock, q, Advance(t, MoveCursor(t, cursor), d - 1));
      }
    }
  }
}
