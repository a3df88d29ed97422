/**
 Overlapping calls of Send on one SMTP transport. A call runs doSend under the mutex, gives it back,
 and takes it again for RSET when doSend failed, so the locked steps of different calls interleave.
 SmtpResults.FirstIsRefused shows a doSend of the client that leaves its transaction open,
 SmtpSafety.CleanUpTracks that what follows it closes the transaction.
 */
module SmtpOverlap {
  /** The locked steps of a call: doSend, and the clean-up, which does nothing unless its doSend failed. */
  datatype Step = Hook(call: nat) | CleanUp(call: nat)

  /** Whether the doSend at a position of the schedule fails inside its transaction. */
  type Fates = nat -> bool

  /** A transaction is open; the clean-up of the calls in `due` is still to come; `broken` once a doSend met an open transaction. */
  datatype State = State(open: bool, due: set<nat>, broken: bool)

  const INITIAL := State(false, {}, false)

  function Next(s: State, step: Step, fails: bool): State {
    match step
    case Hook(call) => State(fails, if fails then s.due + {call} else s.due, s.broken || s.open)
    case CleanUp(call) => if call in s.due then State(false, s.due - {call}, s.broken) else s
  }

  function Run(steps: seq<Step>, fates: Fates): State {
    if steps == [] then INITIAL
    else Next(Run(steps[..|steps| - 1], fates), steps[|steps| - 1], fates(|steps| - 1))
  }

  /** The clean-up of the call whose doSend is at `i` comes before position `j`. */
  predicate CleanedBetween(steps: seq<Step>, i: nat, j: nat)
    requires i < j <= |steps|
  {
    exists r :: i < r < j && steps[r] == CleanUp(steps[i].call)
  }

  /** No doSend begins before the clean-up of every earlier one. */
  predicate Ordered(steps: seq<Step>) {
    forall i, j :: 0 <= i < j < |steps| && steps[i].Hook? && steps[j].Hook? ==> CleanedBetween(steps, i, j)
  }

  lemma OrderedBefore(steps: seq<Step>)
    requires steps != [] && Ordered(steps)
    ensures Ordered(steps[..|steps| - 1])
  {
    var before := steps[..|steps| - 1];
    forall i, j | 0 <= i < j < |before| && before[i].Hook? && before[j].Hook? ensures CleanedBetween(before, i, j) {
      assert CleanedBetween(steps, i, j);
      var r :| i < r < j && steps[r] == CleanUp(steps[i].call);
      assert before[r] == steps[r];
    }
  }

  /** An open transaction is that of the last doSend, whose clean-up is due and has not come. */
  predicate OpenMeans(steps: seq<Step>, s: State) {
    s.open ==> exists i :: 0 <= i < |steps| && steps[i].Hook? && steps[i].call in s.due && !CleanedBetween(steps, i, |steps|)
  }

  lemma StepKeeps(steps: seq<Step>, before: State, fails: bool)
    requires steps != [] && Ordered(steps) && !before.broken && OpenMeans(steps[..|steps| - 1], before)
    ensures var s := Next(before, steps[|steps| - 1], fails); !s.broken && OpenMeans(steps, s)
  {
    var n := |steps| - 1;
    var s := Next(before, steps[n], fails);
    if before.open {
      var i :| 0 <= i < n && steps[..n][i].Hook? && steps[..n][i].call in before.due && !CleanedBetween(steps[..n], i, n);
      assert steps[i] == steps[..n][i];
      StillUncleaned(steps, i);
      match steps[n]
      case Hook(call) =>
      case CleanUp(call) =>
        if s.open {
          assert steps[i].call in s.due && !CleanedBetween(steps, i, |steps|);
        }
    } else if s.open {
      assert steps[n].Hook? && steps[n].call in s.due && !CleanedBetween(steps, n, |steps|);
    }
  }

  /** If the clean-up has not come before the last step, only that step can be it; a doSend there would be out of order. */
  lemma StillUncleaned(steps: seq<Step>, i: nat)
    requires Ordered(steps) && i < |steps| - 1 && steps[i].Hook? && !CleanedBetween(steps[..|steps| - 1], i, |steps| - 1)
    ensures steps[|steps| - 1].CleanUp?
    ensures steps[|steps| - 1] != CleanUp(steps[i].call) ==> !CleanedBetween(steps, i, |steps|)
  {
    var n := |steps| - 1;
    assert forall r :: i < r < n ==> steps[..n][r] == steps[r];
    assert !CleanedBetween(steps, i, n);
  }

  lemma {:induction false} OrderedIsNeverBroken(steps: seq<Step>, fates: Fates)
    requires Ordered(steps)
    ensures !Run(steps, fates).broken && OpenMeans(steps, Run(steps, fates))
    decreases |steps|
  {
    if steps != [] {
      OrderedBefore(steps);
      OrderedIsNeverBroken(steps[..|steps| - 1], fates);
      StepKeeps(steps, Run(steps[..|steps| - 1], fates), fates(|steps| - 1));
    }
  }

  /** Only the doSend at position `i` fails: its transaction stays open until its clean-up. */
  lemma {:induction false} OnlyOneFails(steps: seq<Step>, i: nat, n: nat)
    requires i < n <= |steps| && steps[i].Hook? && !CleanedBetween(steps, i, n)
    requires forall j :: i < j < n ==> steps[j].CleanUp?
    ensures Run(steps[..n], k => k == i).open && Run(steps[..n], k => k == i).due == {steps[i].call}
    decreases n
  {
    var fates: Fates := k => k == i;
    assert steps[..n][..n - 1] == steps[..n - 1] && steps[..n][n - 1] == steps[n - 1];
    if n == i + 1 {
      NothingDue(steps, i, i);
    } else {
      assert steps[n - 1] != CleanUp(steps[i].call);
      OnlyOneFails(steps, i, n - 1);
    }
  }

  lemma {:induction false} NothingDue(steps: seq<Step>, i: nat, n: nat)
    requires n <= i < |steps|
    ensures Run(steps[..n], k => k == i).due == {}
    decreases n
  {
    if n > 0 {
      assert steps[..n][..n - 1] == steps[..n - 1] && steps[..n][n - 1] == steps[n - 1];
      NothingDue(steps, i, n - 1);
    }
  }

  lemma {:induction false} BrokenForGood(steps: seq<Step>, fates: Fates, n: nat)
    requires n <= |steps| && Run(steps[..n], fates).broken
    ensures Run(steps, fates).broken
    decreases |steps| - n
  {
    if n < |steps| {
      assert steps[..n + 1][..n] == steps[..n];
      BrokenForGood(steps, fates, n + 1);
    } else {
      assert steps[..n] == steps;
    }
  }

  /** Of doSends out of order there are two with no doSend between them. */
  lemma {:induction false} NextHook(steps: seq<Step>, i: nat, j: nat) returns (next: nat)
    requires i < j < |steps| && steps[i].Hook? && steps[j].Hook? && !CleanedBetween(steps, i, j)
    ensures i < next <= j && steps[next].Hook? && !CleanedBetween(steps, i, next) && forall r :: i < r < next ==> steps[r].CleanUp?
    decreases j
  {
    if r :| i < r < j && steps[r].Hook? {
      assert !CleanedBetween(steps, i, r);
      next := NextHook(steps, i, r);
    } else {
      next := j;
    }
  }

  /** Some doSend meets an open transaction, for some fates of the calls, if and only if one begins before the clean-up of an earlier one. */
  lemma NeverMeetsExactlyWhenOrdered(steps: seq<Step>)
    ensures (forall fates: Fates :: !Run(steps, fates).broken) <==> Ordered(steps)
  {
    if Ordered(steps) {
      forall fates: Fates ensures !Run(steps, fates).broken {
        OrderedIsNeverBroken(steps, fates);
      }
    } else {
      var i, j :| 0 <= i < j < |steps| && steps[i].Hook? && steps[j].Hook? && !CleanedBetween(steps, i, j);
      var next := NextHook(steps, i, j);
      var fates: Fates := k => k == i;
      OnlyOneFails(steps, i, next);
      assert steps[..next + 1][..next] == steps[..next] && steps[..next + 1][next] == steps[next];
      assert Run(steps[..next + 1], fates).broken;
      BrokenForGood(steps, fates, next + 1);
    }
  }
}
