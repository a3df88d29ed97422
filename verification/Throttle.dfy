/**
 The rate limit of transport.go. Times are nanoseconds; the clock, the timer and the context are
 readings that the environment supplies, one Turn for each call.
 */
module Throttle {
  import opened Octets
  import Numbers

  const SECOND := 1_000_000_000

  /**
   One call of checkThrottling: the clock when it is read first, whether the context ends a wait,
   the clock when the call is over, and what ctx.Err() says then.
   */
  datatype Turn = Turn(now: int, cancelled: bool, over: int, expired: bool)

  /** The limiter: its rate, 0.0 for none, and when it last let a message pass. */
  datatype Limiter = Limiter(rate: real, last: Option<int>)

  datatype Checked = Checked(limiter: Limiter, admitted: bool)

  predicate ValidLimiter(l: Limiter) { l.rate >= 0.0 }

  /** time.Duration(float64(time.Second) / rate) */
  function Interval(rate: real): (n: nat)
    requires rate > 0.0
  {
    Quotient(rate);
    (SECOND as real / rate).Floor
  }

  lemma Quotient(rate: real)
    requires rate > 0.0
    ensures SECOND as real / rate > 0.0
  {
  }

  /** How long to wait; nothing when no message has passed yet. */
  function Sleep(l: Limiter, now: int): int
    requires l.rate > 0.0
  {
    if l.last.None? then 0 else Interval(l.rate) - (now - l.last.value)
  }

  function Check(l: Limiter, t: Turn): Checked
    requires ValidLimiter(l)
  {
    if l.rate == 0.0 then Checked(l, !t.expired)
    else if Sleep(l, t.now) > 0 && t.cancelled then Checked(l, false)
    else Checked(l.(last := Some(t.over)), !t.expired)
  }

  class BaseTransport {
    var maxPerSecond: real
    var lastSent: Option<int>

    ghost predicate Valid()
      reads this
    {
      maxPerSecond >= 0.0
    }

    ghost function View(): Limiter
      reads this
    {
      Limiter(maxPerSecond, lastSent)
    }

    constructor ()
      ensures Valid() && View() == Limiter(0.0, None)
    {
      maxPerSecond, lastSent := 0.0, None;
    }

    method SetMaxPerSecond(rate: real)
      modifies this
      ensures Valid() && View() == Limiter(if rate <= 0.0 then 0.0 else rate, None)
    {
      maxPerSecond := if rate <= 0.0 then 0.0 else rate;
      lastSent := None;
    }

    method CheckThrottling(t: Turn) returns (admitted: bool)
      requires Valid()
      modifies this`lastSent
      ensures Valid() && Checked(View(), admitted) == Check(old(View()), t)
    {
      if maxPerSecond == 0.0 {
        return !t.expired;
      }
      var interval := Interval(maxPerSecond);
      if lastSent.Some? {
        var sleep := interval - (t.now - lastSent.value);
        if sleep > 0 {
          if t.cancelled {
            return false;
          }
        }
      }
      lastSent := Some(t.over);
      return !t.expired;
    }
  }

  // ----- runs -----

  /** The clock never goes back, and a timer never fires early. */
  predicate Fair(l: Limiter, t: Turn)
    requires ValidLimiter(l)
  {
    && t.now <= t.over
    && (l.last.Some? ==> l.last.value <= t.now)
    && (l.rate > 0.0 && !t.cancelled ==> t.now + Sleep(l, t.now) <= t.over)
  }

  predicate FairRun(l: Limiter, turns: seq<Turn>)
    requires ValidLimiter(l)
    decreases |turns|
  {
    turns == [] ||
    (Fair(l, turns[0]) && (|turns| > 1 ==> turns[0].over <= turns[1].now) && FairRun(Check(l, turns[0]).limiter, turns[1..]))
  }

  /** When messages were let pass, over any number of calls. */
  function Admissions(l: Limiter, turns: seq<Turn>): seq<int>
    requires ValidLimiter(l)
    decreases |turns|
  {
    if turns == [] then []
    else
      var c := Check(l, turns[0]);
      (if c.admitted then [turns[0].over] else []) + Admissions(c.limiter, turns[1..])
  }

  /** Later times are at least `gap` apart, the first no earlier than `from`. */
  predicate Spaced(times: seq<int>, gap: nat, from: Option<int>)
    decreases |times|
  {
    times == [] || ((from.Some? ==> from.value <= times[0]) && Spaced(times[1..], gap, Some(times[0] + gap)))
  }

  lemma {:induction false} SpacedFromEarlier(times: seq<int>, gap: nat, from: int, earlier: Option<int>)
    requires Spaced(times, gap, Some(from)) && (earlier.Some? ==> earlier.value <= from)
    ensures Spaced(times, gap, earlier)
  {
  }

  function NotBefore(l: Limiter): Option<int>
    requires l.rate > 0.0
  {
    if l.last.None? then None else Some(l.last.value + Interval(l.rate))
  }

  /** At a fixed rate any two admissions are an interval apart, cancelled and expired calls included. */
  lemma {:induction false} AdmissionsAreSpaced(l: Limiter, turns: seq<Turn>)
    requires l.rate > 0.0 && FairRun(l, turns)
    ensures Spaced(Admissions(l, turns), Interval(l.rate), NotBefore(l))
    decreases |turns|
  {
    hide Interval;
    if turns != [] {
      var c := Check(l, turns[0]);
      AdmissionsAreSpaced(c.limiter, turns[1..]);
      var rest := Admissions(c.limiter, turns[1..]);
      if c.admitted {
        assert ([turns[0].over] + rest)[1..] == rest;
      } else {
        assert [] + rest == rest;
        if c.limiter != l {
          SpacedFromEarlier(rest, Interval(l.rate), turns[0].over + Interval(l.rate), NotBefore(l));
        }
      }
    }
  }

  // ----- calls that do not count -----

  /** The moments of the calls whose context was not over. */
  function Unexpired(turns: seq<Turn>): seq<int> {
    if turns == [] then [] else (if turns[0].expired then [] else [turns[0].over]) + Unexpired(turns[1..])
  }

  /** Without a rate every call is let pass whose context is not over, and no other. */
  lemma {:induction false} WithoutRateNothingWaits(l: Limiter, turns: seq<Turn>)
    requires l.rate == 0.0
    ensures Admissions(l, turns) == Unexpired(turns)
    decreases |turns|
  {
    if turns != [] {
      WithoutRateNothingWaits(l, turns[1..]);
    }
  }

  predicate Patient(turns: seq<Turn>) {
    forall i :: 0 <= i < |turns| ==> !turns[i].cancelled && !turns[i].expired
  }

  /** With or without a rate, a call that is neither cancelled nor expired is let pass when its wait is over. */
  lemma {:induction false} PatientCallsPass(l: Limiter, turns: seq<Turn>)
    requires ValidLimiter(l) && Patient(turns)
    ensures Admissions(l, turns) == Unexpired(turns) && |Admissions(l, turns)| == |turns|
    decreases |turns|
  {
    if turns != [] {
      PatientCallsPass(Check(l, turns[0]).limiter, turns[1..]);
    }
  }

  function LimiterAfter(l: Limiter, turns: seq<Turn>): (after: Limiter)
    requires ValidLimiter(l)
    ensures ValidLimiter(after)
    decreases |turns|
  {
    if turns == [] then l else LimiterAfter(Check(l, turns[0]).limiter, turns[1..])
  }

  lemma {:induction false} AdmissionsSplit(l: Limiter, a: seq<Turn>, b: seq<Turn>)
    requires ValidLimiter(l)
    ensures Admissions(l, a + b) == Admissions(l, a) + Admissions(LimiterAfter(l, a), b)
    decreases |a|
  {
    if a == [] {
      assert a + b == b && [] + Admissions(l, b) == Admissions(l, b);
    } else {
      assert (a + b)[1..] == a[1..] + b;
      AdmissionsSplit(Check(l, a[0]).limiter, a[1..], b);
    }
  }

  /** A call whose wait is cut short leaves no trace: the run goes on as if it had not been made. */
  lemma CancelledWaitLeavesNoTrace(l: Limiter, before: seq<Turn>, t: Turn, behind: seq<Turn>)
    requires ValidLimiter(l) && t.cancelled
    requires var now := LimiterAfter(l, before); now.rate > 0.0 && now.last.Some? && t.now < now.last.value + Interval(now.rate)
    ensures Admissions(l, before + [t] + behind) == Admissions(l, before + behind)
  {
    var now := LimiterAfter(l, before);
    hide Interval;
    assert before + [t] + behind == before + ([t] + behind) && ([t] + behind)[1..] == behind;
    AdmissionsSplit(l, before, [t] + behind);
    AdmissionsSplit(l, before, behind);
    assert Check(now, t) == Checked(now, false);
    assert [] + Admissions(now, behind) == Admissions(now, behind);
  }

  // ----- windows -----

  /** The times of a window, `until` being the first moment behind it. */
  function Within(times: seq<int>, start: int, until: int): seq<int> {
    if times == [] then []
    else (if start <= times[0] < until then [times[0]] else []) + Within(times[1..], start, until)
  }

  lemma {:induction false} WithinIsSpaced(times: seq<int>, gap: nat, from: Option<int>, start: int, until: int)
    requires Spaced(times, gap, from)
    ensures Spaced(Within(times, start, until), gap, from)
    ensures forall i :: 0 <= i < |Within(times, start, until)| ==> start <= Within(times, start, until)[i] < until
    decreases |times|
  {
    if times != [] {
      WithinIsSpaced(times[1..], gap, Some(times[0] + gap), start, until);
      var rest := Within(times[1..], start, until);
      if start <= times[0] < until {
        assert ([times[0]] + rest)[1..] == rest;
      } else {
        assert [] + rest == rest;
        SpacedFromEarlier(rest, gap, times[0] + gap, from);
      }
    }
  }

  lemma {:induction false} SpacedReach(times: seq<int>, gap: nat, from: Option<int>)
    requires Spaced(times, gap, from) && times != []
    ensures times[0] + (|times| - 1) * gap <= times[|times| - 1]
    decreases |times|
  {
    if |times| > 1 {
      SpacedReach(times[1..], gap, Some(times[0] + gap));
      assert (|times| - 1) * gap == gap + (|times| - 2) * gap;
    }
  }

  /** Any stretch of a run lets at most 1 + (its length - 1) / interval messages pass. */
  lemma WindowBound(l: Limiter, turns: seq<Turn>, start: int, until: int)
    requires l.rate > 0.0 && Interval(l.rate) > 0 && FairRun(l, turns) && start < until
    ensures |Within(Admissions(l, turns), start, until)| <= 1 + (until - start - 1) / Interval(l.rate)
  {
    hide Interval;
    var gap := Interval(l.rate);
    AdmissionsAreSpaced(l, turns);
    hide Admissions, FairRun, NotBefore, Spaced;
    WithinIsSpaced(Admissions(l, turns), gap, NotBefore(l), start, until);
    var w := Within(Admissions(l, turns), start, until);
    if w != [] {
      SpacedReach(w, gap, NotBefore(l));
      Numbers.Divided(|w| - 1, gap, until - start - 1);
    }
  }

  // ----- messages per second -----

  lemma IntervalOfWhole(r: nat)
    requires r > 0
    ensures Interval(r as real) == SECOND / r
  {
    var x := SECOND as real / r as real;
    var f := Interval(r as real);
    assert x * r as real == SECOND as real;
    Scaled(f as real, x, r as real);
    Scaled(x, (f + 1) as real, r as real);
    Product(f, r);
    Product(f + 1, r);
    hide Interval;
    assert f * r <= SECOND;
    Quotients(SECOND, r, f);
  }

  lemma Product(a: int, b: int)
    ensures a as real * b as real == (a * b) as real
  {
  }

  lemma Scaled(a: real, b: real, c: real)
    requires a <= b && c > 0.0
    ensures a * c <= b * c && (a < b ==> a * c < b * c)
  {
  }

  lemma Quotients(n: nat, d: nat, q: nat)
    requires d > 0 && q * d <= n < (q + 1) * d
    ensures n / d == q
  {
    Numbers.Remainder(n, d, q, n - q * d);
  }

  /** In no run and no second are more than `r` messages let pass. */
  ghost predicate KeepsRate(r: nat)
    requires r > 0
  {
    forall l: Limiter, turns: seq<Turn>, start: int :: l.rate == r as real && FairRun(l, turns) ==> AtMost(l, turns, start, r)
  }

  predicate AtMost(l: Limiter, turns: seq<Turn>, start: int, r: nat)
    requires ValidLimiter(l)
  {
    |Within(Admissions(l, turns), start, start + 1_000_000_000)| <= r
  }

  /** A call every `gap` nanoseconds, `n` of them, the next one at `at`. */
  function Steady(n: nat, gap: nat, at: int): seq<Turn> {
    if n == 0 then [] else [Turn(at, false, at, false)] + Steady(n - 1, gap, at + gap)
  }

  function Ticks(n: nat, gap: nat, at: int): seq<int> {
    if n == 0 then [] else [at] + Ticks(n - 1, gap, at + gap)
  }

  lemma {:induction false} SteadyRun(rate: real, n: nat, at: int, last: Option<int>)
    requires rate > 0.0 && (last.Some? ==> last.value + Interval(rate) <= at)
    ensures FairRun(Limiter(rate, last), Steady(n, Interval(rate), at))
    ensures Admissions(Limiter(rate, last), Steady(n, Interval(rate), at)) == Ticks(n, Interval(rate), at)
    decreases n
  {
    var gap := Interval(rate);
    hide Interval;
    if n > 0 {
      SteadyRun(rate, n - 1, at + gap, Some(at));
      var turns := Steady(n, gap, at);
      assert turns[1..] == Steady(n - 1, gap, at + gap);
      assert n > 1 ==> turns[1].now == at + gap;
    }
  }

  lemma {:induction false} TicksWithin(n: nat, gap: nat, at: int, start: int, until: int)
    requires start <= at && (n > 0 ==> at + (n - 1) * gap < until)
    ensures |Within(Ticks(n, gap, at), start, until)| == n
    decreases n
  {
    if n > 0 {
      assert (n - 1) * gap >= 0;
      if n > 1 {
        assert (n - 1) * gap == gap + (n - 2) * gap;
      }
      TicksWithin(n - 1, gap, at + gap, start, until);
      assert Ticks(n, gap, at)[1..] == Ticks(n - 1, gap, at + gap);
    }
  }

  lemma RemainderOf(n: nat, d: nat)
    requires d > 0
    ensures n == n / d * d + n % d && n / d * d <= n && (n % d == 0 <==> n / d * d == n)
  {
  }

  /** With an interval that is rounded down, a steady run lets one message too many pass. */
  lemma RoundedDown(r: nat)
    requires r > 0 && SECOND % r != 0
    ensures !KeepsRate(r)
  {
    var l := Limiter(r as real, None);
    var gap := Interval(r as real);
    IntervalOfWhole(r);
    RemainderOf(SECOND, r);
    assert r * gap < SECOND;
    hide Interval;
    SteadyRun(r as real, r + 1, 0, None);
    TicksWithin(r + 1, gap, 0, 0, SECOND);
    assert FairRun(l, Steady(r + 1, gap, 0));
    assert !AtMost(l, Steady(r + 1, gap, 0), 0, r);
  }

  lemma Exact(r: nat)
    requires r > 0 && SECOND % r == 0
    ensures KeepsRate(r)
  {
    IntervalOfWhole(r);
    RemainderOf(SECOND, r);
    var gap := Interval(r as real);
    assert gap > 0;
    hide Interval;
    assert (SECOND - 1) / gap == r - 1 by {
      assert (r - 1 + 1) * gap == gap * r;
      assert (r - 1) * gap == gap * r - gap;
      Quotients(SECOND - 1, gap, r - 1);
    }
    forall l: Limiter, turns: seq<Turn>, start: int | l.rate == r as real && FairRun(l, turns) ensures AtMost(l, turns, start, r) {
      WindowBound(l, turns, start, start + SECOND);
    }
  }

  /** No more than the given number of messages per second pass exactly when the number divides a second of nanoseconds. */
  lemma RateIsKeptExactly(r: nat)
    requires r > 0
    ensures KeepsRate(r) <==> SECOND % r == 0
  {
    hide KeepsRate;
    if SECOND % r == 0 {
      Exact(r);
    } else {
      RoundedDown(r);
    }
  }
}
