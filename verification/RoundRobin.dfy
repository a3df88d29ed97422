/**
 The composite transports as objects: transport/roundrobin.go and transport/failover.go. Their
 fields are changed in place; each method is proved to do what Rotation says of it.
 */
module RoundRobin {
  import opened Octets
  import opened Rotation
  import opened RotationSafety
  import opened RotationTermination

  class RoundRobinTransport {
    const size: nat                // len(transports)
    const period: int              // retryPeriod
    const seed: int                // what initialCursor answers
    const clock: Clock
    const outcomes: Outcomes

    var dead: map<nat, int>
    var cursor: nat
    var initialized: bool
    var ticks: nat                 // clock readings taken
    var attempts: nat              // attempts made
    ghost var log: seq<Attempt>

    ghost function Setup(sticky: bool): Setting {
      Setting(size, period, seed, sticky)
    }

    ghost function View(current: Option<nat>): Pool
      reads this
    {
      Pool(dead, cursor, initialized, current, ticks, log)
    }

    ghost predicate Valid()
      reads this
    {
      size > 0 && period > 0 && attempts == |log| && cursor < size
    }

    /** A period that is not positive selects the default of 60 seconds, in nanoseconds. */
    constructor (size: nat, period: int, seed: int, clock: Clock, outcomes: Outcomes)
      requires size > 0
      ensures Valid() && View(None) == EMPTY && this.size == size && this.seed == seed
      ensures this.clock == clock && this.outcomes == outcomes
      ensures this.period == if period <= 0 then 60_000_000_000 else period
    {
      this.size, this.seed, this.clock, this.outcomes := size, seed, clock, outcomes;
      this.period := if period <= 0 then 60_000_000_000 else period;
      dead, cursor, initialized, ticks, attempts, log := map[], 0, false, 0, 0, [];
    }

    method Now() returns (time: int)
      modifies this`ticks
      ensures time == clock(old(ticks)) && ticks == old(ticks) + 1
    {
      time := clock(ticks);
      ticks := ticks + 1;
    }

    method Move(index: nat) returns (next: nat)
      requires index < size
      ensures next == MoveCursor(Setup(false), index) && next < size
    {
      next := index + 1;
      if next >= size {
        next := 0;
      }
    }

    /** nextTransportLocked. The scan comes back to where it began after `size` places. */
    method NextLive() returns (index: Option<nat>)
      requires Valid()
      modifies this`dead, this`cursor, this`initialized, this`ticks
      ensures Valid()
      ensures Pick(View(None), index) == NextTransport(Setup(false), clock, old(View(None)))
    {
      ghost var t, before := Setup(false), View(None);
      hide Scan, Take;
      if !initialized {
        cursor := if 0 <= seed < size then seed else 0;
        initialized := true;
      }
      ghost var seeded: Pool, left: nat := View(None), size;
      assert seeded == Seeded(t, before);
      var start, at := cursor, cursor;
      while true
        invariant initialized && cursor == start && start < size && at < size && 0 < left <= size && log == old(log)
        invariant at == (if start + (size - left) < size then start + (size - left) else start - left)
        invariant Scan(t, clock, seeded, start, size) == Scan(t, clock, View(None), at, left)
        decreases left
      {
        ScanStep(t, clock, View(None), at, left);
        if at !in dead {
          index := Some(at);
          cursor := Move(at);
          return;
        }
        var now := Now();
        if now - dead[at] > period {
          index := Some(at);
          dead := dead - {at};
          cursor := Move(at);
          return;
        }
        at := Move(at);
        left := left - 1;
        if at == start {
          ScanEnd(t, clock, View(None), at);
          return None;
        }
      }
    }

    method Mark(index: nat, ghost scanned: nat, code: int)
      requires Valid() && index < size
      modifies this`dead, this`ticks, this`log, this`attempts
      ensures Valid()
      ensures forall current: Option<nat> :: View(current) == MarkDead(clock, scanned, old(View(current)), index, code)
    {
      log := log + [Entry(clock, scanned, View(None), index, Failed(code))];
      attempts := attempts + 1;
      var now := Now();
      dead := dead[index := now];
    }

    method Record(index: nat, ghost scanned: nat, outcome: Outcome)
      requires Valid()
      modifies this`log, this`attempts
      ensures Valid()
      ensures forall current: Option<nat> :: View(current) == Recorded(clock, scanned, old(View(current)), index, outcome)
    {
      log := log + [Entry(clock, scanned, View(None), index, outcome)];
      attempts := attempts + 1;
    }

    /** One turn of the loop of Send: an answer, or the aggregate to go on with. */
    method Turn(aggregate: Option<int>, ghost turns: nat) returns (answer: Option<Result>, code: int)
      requires Valid() && turns > 0 && Monotone(clock) && ValidPool(Setup(false), View(None))
      modifies this
      ensures Valid() && ValidPool(Setup(false), View(None))
      ensures SendLoop(Setup(false), clock, outcomes, old(View(None)), aggregate, turns)
           == (if answer.Some? then (View(None), answer.value)
               else SendLoop(Setup(false), clock, outcomes, View(None), Some(code), turns - 1))
    {
      ghost var t, scanned, p := Setup(false), ticks, View(None);
      ChoosesNext(t, clock, p);
      NextInRange(t, clock, p);
      hide Choose, NextTransport;
      code := 0;
      var index := NextLive();
      if index.None? {
        return Some(if aggregate.Some? then AllFailed(aggregate.value) else NothingFound), 0;
      }
      var outcome := outcomes(attempts);
      match outcome
      case Delivered =>
        Record(index.value, scanned, outcome);
        answer := Some(Sent(index.value));
      case Rejected =>
        Record(index.value, scanned, outcome);
        answer := Some(Stopped(index.value));
      case Failed(c) =>
        code := Aggregate(aggregate, c);
        Mark(index.value, scanned, c);
        answer := None;
    }

    /**
     RoundRobinTransport.Send. The source's loop counts nothing; it ends whatever bound `advance` there
     is on how far the clock gets during the call, within as many attempts as that bound allows.
     */
    method Send(ghost advance: nat) returns (r: Result)
      requires Valid() && Monotone(clock) && Safe(Setup(false), clock, View(None)) && Calm(Setup(false), clock, ticks, advance)
      modifies this
      ensures Valid() && Safe(Setup(false), clock, View(None))
      ensures (View(None), r) == SendLoop(Setup(false), clock, outcomes, old(View(None)), None, MostAttempts(Setup(false), advance) + 1)
      ensures !r.Unfinished? && |log| <= old(|log|) + MostAttempts(Setup(false), advance)
      ensures old(View(None)) == EMPTY ==> log != [] && log[0].index == if 0 <= seed < size then seed else 0
    {
      ghost var t, before := Setup(false), View(None);
      if before == EMPTY {
        FirstSend(t, clock, outcomes, MostAttempts(t, advance) + 1);
      }
      ghost var most: nat := MostAttempts(t, advance) + 1;
      ghost var turns: nat := most;
      SendEnds(t, clock, outcomes, before, None, advance);
      SendKeepsSafe(t, clock, outcomes, before, None, most);
      hide Safe, Calm, Choose, MostAttempts, Uses;
      var aggregate: Option<int> := None;
      while true
        invariant Valid() && ValidPool(t, View(None))
        invariant SendLoop(t, clock, outcomes, before, None, most) == SendLoop(t, clock, outcomes, View(None), aggregate, turns)
        decreases turns
      {
        assert turns > 0;
        var answer, code := Turn(aggregate, turns);
        if answer.Some? {
          return answer.value;
        }
        aggregate := Some(code);
        turns := turns - 1;
      }
    }
  }

  lemma ChoosesNext(t: Setting, clock: Clock, p: Pool)
    requires !t.sticky
    ensures Choose(t, clock, p) == NextTransport(t, clock, p)
  {
  }

  lemma NextInRange(t: Setting, clock: Clock, p: Pool)
    requires Monotone(clock) && ValidSetting(t) && ValidPool(t, p)
    ensures var k := NextTransport(t, clock, p); ValidPool(t, k.pool) && (k.index.Some? ==> k.index.value < t.size)
  {
    var s := Seeded(t, p);
    var passed := ScanFinds(t, clock, s, s.cursor, t.size);
    if NextTransport(t, clock, p).index.Some? {
      AdvanceIs(t, s.cursor, passed);
    }
  }

  /** FailoverTransport: the round-robin scan and marks of `rr`, and a current transport on top of them. */
  class FailoverTransport {
    const rr: RoundRobinTransport
    var current: Option<nat>       // current and currentIndex

    ghost function View(): Pool
      reads this, rr
    {
      rr.View(current)
    }

    ghost predicate Valid()
      reads this, rr
    {
      rr.Valid() && ValidPool(rr.Setup(true), View())
    }

    /** The first transport is always tried first: the seed of the round-robin part is 0. */
    constructor (size: nat, period: int, clock: Clock, outcomes: Outcomes)
      requires size > 0
      ensures Valid() && View() == EMPTY && fresh(rr) && rr.seed == 0 && rr.size == size
      ensures rr.clock == clock && rr.outcomes == outcomes && rr.period == if period <= 0 then 60_000_000_000 else period
    {
      rr := new RoundRobinTransport(size, period, 0, clock, outcomes);
      current := None;
    }

    /** nextTransport: the current transport, unless there is none or it is marked dead. */
    method Next() returns (index: Option<nat>)
      requires Valid()
      modifies this, rr`dead, rr`cursor, rr`initialized, rr`ticks
      ensures rr.Valid() && Pick(View(), index) == Choose(rr.Setup(true), rr.clock, old(View()))
    {
      if current.None? || current.value in rr.dead {
        CurrentPlaysNoPart(rr.Setup(true), rr.clock, View());
        hide NextTransport;
        current := rr.NextLive();
      }
      index := current;
    }

    /** One turn of the loop of Send, as in the round-robin composite. */
    method Turn(aggregate: Option<int>, ghost turns: nat) returns (answer: Option<Result>, code: int)
      requires Valid() && turns > 0 && Monotone(rr.clock)
      modifies this, rr
      ensures Valid()
      ensures SendLoop(rr.Setup(true), rr.clock, rr.outcomes, old(View()), aggregate, turns)
           == (if answer.Some? then (View(), answer.value)
               else SendLoop(rr.Setup(true), rr.clock, rr.outcomes, View(), Some(code), turns - 1))
    {
      ghost var t, scanned, p := rr.Setup(true), rr.ticks, View();
      ChosenInRange(t, rr.clock, p);
      hide Choose;
      code := 0;
      var index := Next();
      if index.None? {
        return Some(if aggregate.Some? then AllFailed(aggregate.value) else NothingFound), 0;
      }
      var outcome := rr.outcomes(rr.attempts);
      match outcome
      case Delivered =>
        rr.Record(index.value, scanned, outcome);
        answer := Some(Sent(index.value));
      case Rejected =>
        rr.Record(index.value, scanned, outcome);
        answer := Some(Stopped(index.value));
      case Failed(c) =>
        code := Aggregate(aggregate, c);
        rr.Mark(index.value, scanned, c);
        answer := None;
    }

    /** FailoverTransport.Send, which ends in the same way. */
    method Send(ghost advance: nat) returns (r: Result)
      requires Valid() && Monotone(rr.clock) && Safe(rr.Setup(true), rr.clock, View()) && Calm(rr.Setup(true), rr.clock, rr.ticks, advance)
      modifies this, rr
      ensures Valid() && Safe(rr.Setup(true), rr.clock, View())
      ensures (View(), r) == SendLoop(rr.Setup(true), rr.clock, rr.outcomes, old(View()), None, MostAttempts(rr.Setup(true), advance) + 1)
      ensures !r.Unfinished? && |rr.log| <= old(|rr.log|) + MostAttempts(rr.Setup(true), advance)
      ensures old(View()) == EMPTY ==> rr.log != [] && rr.log[0].index == if 0 <= rr.seed < rr.size then rr.seed else 0
    {
      ghost var t, before := rr.Setup(true), View();
      if before == EMPTY {
        FirstSend(t, rr.clock, rr.outcomes, MostAttempts(t, advance) + 1);
      }
      ghost var most: nat := MostAttempts(t, advance) + 1;
      ghost var turns: nat := most;
      SendEnds(t, rr.clock, rr.outcomes, before, None, advance);
      SendKeepsSafe(t, rr.clock, rr.outcomes, before, None, most);
      hide Safe, Calm, Choose, MostAttempts, Uses;
      var aggregate: Option<int> := None;
      while true
        invariant Valid()
        invariant SendLoop(t, rr.clock, rr.outcomes, before, None, most)
               == SendLoop(t, rr.clock, rr.outcomes, View(), aggregate, turns)
        decreases turns
      {
        assert turns > 0;
        var answer, code := Turn(aggregate, turns);
        if answer.Some? {
          return answer.value;
        }
        aggregate := Some(code);
        turns := turns - 1;
      }
    }
  }

  /** The scan neither reads nor writes the current transport, and does not care which composite asks. */
  lemma {:induction false} ScanIgnoresCurrent(t: Setting, clock: Clock, p: Pool, cursor: nat, left: nat)
    ensures var plain := Scan(t.(sticky := false), clock, p.(current := None), cursor, left);
            Scan(t, clock, p, cursor, left) == Pick(plain.pool.(current := p.current), plain.index)
    decreases left
  {
    if left > 0 && cursor in p.dead && clock(p.ticks) - p.dead[cursor] <= t.period {
      ScanIgnoresCurrent(t, clock, p.(ticks := p.ticks + 1), MoveCursor(t, cursor), left - 1);
    }
  }

  lemma CurrentPlaysNoPart(t: Setting, clock: Clock, p: Pool)
    ensures var plain := NextTransport(t.(sticky := false), clock, p.(current := None));
            NextTransport(t, clock, p) == Pick(plain.pool.(current := p.current), plain.index)
  {
    var s := Seeded(t, p);
    ScanIgnoresCurrent(t, clock, s, s.cursor, t.size);
  }

  lemma ChosenInRange(t: Setting, clock: Clock, p: Pool)
    requires Monotone(clock) && ValidSetting(t) && ValidPool(t, p)
    ensures var k := Choose(t, clock, p); ValidPool(t, k.pool) && (k.index.Some? ==> k.index.value < t.size)
  {
    NextInRange(t, clock, p);
  }
}
