/** schedule.Serve: the loop that runs the pipeline on a recurring schedule. */
module Schedule {
  import opened Store

  /** The schedule: next(t) is the least tick strictly after t. */
  ghost predicate IsNext(tick: nat -> bool, next: nat -> nat) {
    forall t: nat :: next(t) > t && tick(next(t)) && forall u: nat :: t < u < next(t) ==> !tick(u)
  }

  /** One pipeline run.  read is when the loop last read the clock, entered when
      its select statement was reached; a startup run has no target tick. */
  datatype Run = Run(target: Option<nat>, read: nat, entered: nat, start: nat, end: nat)

  /** What the loop guarantees of a single run. */
  ghost predicate RunOk(next: nat -> nat, cancelAt: Option<nat>, r: Run) {
    && r.read <= r.entered <= r.start <= r.end
    && (r.target.Some? ==>
          && r.target.value == next(r.read) && r.target.value <= r.start
          // select takes the timer only if it can be due no later than the cancellation,
          // or had come due when the select was reached
          && (cancelAt.Some? ==> r.target.value <= r.entered || r.target.value <= cancelAt.value))
  }

  ghost predicate Behaviour(next: nat -> nat, cancelAt: Option<nat>, log: seq<Run>) {
    && (forall i :: 0 <= i < |log| ==> RunOk(next, cancelAt, log[i]))
    && (forall i :: 0 < i < |log| ==> log[i - 1].end <= log[i].read && log[i].target.Some?)
  }

  /** One round of the loop: when it read the clock, when it reached its select, and
      from when on both the timer and any cancellation so far are seen. */
  datatype Wait = Wait(read: nat, entered: nat, seen: nat)

  /** Each of the loop's own steps takes at most slack: reading the clock, reaching the
      select, and the timer's firing once it is due. */
  ghost predicate IsWait(next: nat -> nat, slack: nat, from: nat, w: Wait) {
    && from <= w.read <= from + slack
    && w.read <= w.entered <= w.read + slack
    && (if w.entered < next(w.read) then next(w.read) else w.entered) <= w.seen
    && w.seen <= (if w.entered < next(w.read) then next(w.read) else w.entered) + slack
  }

  /** When the loop reads the clock next, but for slack: at once, or after a run. */
  function From(began: nat, log: seq<Run>): nat {
    if log == [] then began else log[|log| - 1].end
  }

  /** The serve loop, observed for a bounded number of rounds.  The loop's own steps
      take at most slack, whatever that is, and runs may take any time.

      The only run without a tick is the startup run, if one is asked for; it starts
      at once.  Every other run starts when its round has seen its tick.  The loop ends
      short of its rounds only in a round that has seen a cancellation.  With no slack
      each run starts exactly at the first tick after the end of the one before, and
      only a cancellation no later than the first tick after the last run's end keeps
      the next from starting. */
  method Serve(
    next: nat -> nat, cancelAt: Option<nat>, runOnStart: bool, began: nat, rounds: nat, slack: nat)
      returns (log: seq<Run>, ghost last: Option<Wait>)
    requires forall t: nat :: next(t) > t
    ensures Behaviour(next, cancelAt, log) && Prompt(next, slack, began, log)
    ensures forall r :: r in log ==> began <= r.read
    ensures runOnStart <==> log != [] && log[0].target.None?
    ensures runOnStart ==> log[0].start == began
    ensures |log| <= rounds + (if runOnStart then 1 else 0)
    ensures |log| < rounds + (if runOnStart then 1 else 0) <==> last.Some?
    ensures last.Some? ==> IsWait(next, slack, From(began, log), last.value)
                           && cancelAt.Some? && cancelAt.value <= last.value.seen
    ensures slack == 0 && last.Some? ==> cancelAt.value <= next(From(began, log))
  {
    log, last := [], None;
    if runOnStart {
      var end := Lasts(began);
      log := [Run(None, began, began, began, end)];
    }
    var clock := if runOnStart then log[0].end else began;
    var round := 0;
    while round < rounds
      invariant Served(next, cancelAt, slack, began, log) && clock == From(began, log)
      invariant round <= rounds && |log| == round + (if runOnStart then 1 else 0)
      invariant log != [] ==> (runOnStart <==> log[0].target.None?)
      invariant runOnStart ==> log[0].start == began
    {
      var run;
      ghost var w;
      run, w := Round(next, cancelAt, clock, slack);
      if run.None? {
        WaitWithoutSlack(next, clock, w);
        return log, Some(w);
      }
      ServedSnoc(next, cancelAt, slack, began, log, run.value);
      log := log + [run.value];
      clock := run.value.end;
      round := round + 1;
    }
  }

  lemma WaitWithoutSlack(next: nat -> nat, from: nat, w: Wait)
    requires forall t: nat :: next(t) > t
    ensures IsWait(next, 0, from, w) ==> w.seen == next(from)
  {
  }

  /** What the loop keeps of its log. */
  ghost predicate Served(next: nat -> nat, cancelAt: Option<nat>, slack: nat, began: nat, log: seq<Run>) {
    && Behaviour(next, cancelAt, log) && Prompt(next, slack, began, log)
    && began <= From(began, log) && forall r :: r in log ==> began <= r.read
  }

  lemma ServedSnoc(next: nat -> nat, cancelAt: Option<nat>, slack: nat, began: nat, log: seq<Run>, r: Run)
    requires Served(next, cancelAt, slack, began, log)
    requires RunOk(next, cancelAt, r) && r.target.Some?
    requires IsWait(next, slack, From(began, log), Wait(r.read, r.entered, r.start))
    ensures Served(next, cancelAt, slack, began, log + [r])
  {
    PromptSnoc(next, slack, began, log, r);
    BehaviourSnoc(next, cancelAt, log, r);
  }

  lemma BehaviourSnoc(next: nat -> nat, cancelAt: Option<nat>, log: seq<Run>, r: Run)
    requires Behaviour(next, cancelAt, log) && RunOk(next, cancelAt, r) && r.target.Some?
    requires log != [] ==> log[|log| - 1].end <= r.read
    ensures Behaviour(next, cancelAt, log + [r])
  {
    var n, longer := |log|, log + [r];
    forall i | 0 <= i < |longer| ensures RunOk(next, cancelAt, longer[i]) {
      assert i < n ==> RunOk(next, cancelAt, log[i]);
    }
    assert forall i :: 0 < i < n ==> log[i - 1].end <= log[i].read && log[i].target.Some?;
  }

  /** Every scheduled run has started as soon as its round had seen its tick. */
  ghost predicate Prompt(next: nat -> nat, slack: nat, began: nat, log: seq<Run>) {
    forall i :: 0 <= i < |log| && log[i].target.Some? ==>
      IsWait(next, slack, From(began, log[..i]), Wait(log[i].read, log[i].entered, log[i].start))
  }

  lemma PromptSnoc(next: nat -> nat, slack: nat, began: nat, log: seq<Run>, r: Run)
    requires Prompt(next, slack, began, log)
    requires IsWait(next, slack, From(began, log), Wait(r.read, r.entered, r.start))
    ensures Prompt(next, slack, began, log + [r])
  {
    var longer := log + [r];
    forall i | 0 <= i < |longer| && longer[i].target.Some?
      ensures IsWait(next, slack, From(began, longer[..i]), Wait(longer[i].read, longer[i].entered, longer[i].start))
    {
      assert longer[..i] == log[..i];
      assert i == |log| ==> log[..i] == log;
    }
  }

  /** With no slack a scheduled run starts at the first tick after the end of the run
      before it, or after the loop began. */
  lemma PromptStarts(next: nat -> nat, began: nat, log: seq<Run>, i: nat)
    requires Prompt(next, 0, began, log) && i < |log| && log[i].target.Some?
    requires forall t: nat :: next(t) > t
    ensures log[i].start == next(if i == 0 then began else log[i - 1].end)
  {
    assert IsWait(next, 0, From(began, log[..i]), Wait(log[i].read, log[i].entered, log[i].start));
  }

  /** One round: read the clock, set the timer for the next tick, and select; None
      when the loop is shut down, which needs a cancellation that the select has seen. */
  method Round(next: nat -> nat, cancelAt: Option<nat>, clock: nat, slack: nat)
      returns (run: Option<Run>, ghost w: Wait)
    requires forall t: nat :: next(t) > t
    ensures IsWait(next, slack, clock, w)
    ensures run.None? ==> cancelAt.Some? && cancelAt.value <= w.seen
    ensures run.Some? ==>
              && RunOk(next, cancelAt, run.value) && run.value.target.Some?
              && w == Wait(run.value.read, run.value.entered, run.value.start)
  {
    var now := Later(clock, slack);
    var target := next(now);
    var entered := Later(now, slack);
    var fired := Later(if entered < target then target else entered, slack);
    w := Wait(now, entered, fired);
    var timerWins: bool := *;
    if cancelAt.Some? && cancelAt.value <= fired {
      // the cancellation alone is ready on entry, or arrives before the timer can fire
      if entered < target && cancelAt.value < target { return None, w; }
      // otherwise both may be ready, and select takes either
      if !timerWins { return None, w; }
    }
    var end := Lasts(fired);
    run := Some(Run(Some(target), now, entered, fired, end));
  }

  /** A step of the loop's own. */
  method Later(t: nat, slack: nat) returns (u: nat)
    ensures t <= u <= t + slack
  {
    var d: int := *;
    u := if 0 <= d <= slack then t + d else t;
  }

  /** A pipeline run. */
  method Lasts(t: nat) returns (u: nat)
    ensures u >= t
  {
    var d: int := *;
    u := if d >= 0 then t + d else t;
  }

  // ---- properties of every behaviour --------------------------------------

  lemma {:induction false} Serial(next: nat -> nat, cancelAt: Option<nat>, log: seq<Run>, i: nat, j: nat)
    requires Behaviour(next, cancelAt, log) && i < j < |log|
    ensures log[i].end <= log[j].read
    decreases j - i
  {
    if i + 1 < j {
      Serial(next, cancelAt, log, i, j - 1);
      assert RunOk(next, cancelAt, log[j - 1]);
    }
  }

  /** Runs never overlap. */
  lemma RunsAreDisjoint(next: nat -> nat, cancelAt: Option<nat>, log: seq<Run>, i: nat, j: nat, t: nat)
    requires Behaviour(next, cancelAt, log) && i < j < |log|
    ensures log[i].end <= log[j].start
    ensures !(log[i].start <= t < log[i].end && log[j].start <= t < log[j].end)
  {
    Serial(next, cancelAt, log, i, j);
    assert RunOk(next, cancelAt, log[j]);
  }

  /** A scheduled run is for the first tick after the loop last read the clock, and
      starts no earlier. */
  lemma FirstTickAfterClockRead(
    tick: nat -> bool, next: nat -> nat, cancelAt: Option<nat>, log: seq<Run>, i: nat, t: nat)
    requires IsNext(tick, next) && Behaviour(next, cancelAt, log)
    requires i < |log| && log[i].target.Some? && tick(t) && t > log[i].read
    ensures tick(log[i].target.value) && log[i].read < log[i].target.value <= t
    ensures log[i].target.value <= log[i].start
  {
    assert RunOk(next, cancelAt, log[i]);
    assert !(log[i].read < t < next(log[i].read));
  }

  /** Targets increase, so no tick is run twice. */
  lemma TargetsIncrease(next: nat -> nat, cancelAt: Option<nat>, log: seq<Run>, i: nat, j: nat)
    requires Behaviour(next, cancelAt, log) && i < j < |log| && log[i].target.Some?
    requires forall t: nat :: next(t) > t
    ensures log[j].target.Some? && log[i].target.value < log[j].target.value
  {
    Serial(next, cancelAt, log, i, j);
    assert RunOk(next, cancelAt, log[i]) && RunOk(next, cancelAt, log[j]);
  }

  /** Between two consecutive scheduled runs the ticks that are skipped are exactly
      those that passed, after the first run's own tick, before the loop read the
      clock again: while its timer was late or the run was going on. */
  lemma SkippedTicks(
    tick: nat -> bool, next: nat -> nat, cancelAt: Option<nat>, log: seq<Run>, i: nat, t: nat)
    requires IsNext(tick, next) && Behaviour(next, cancelAt, log)
    requires i + 1 < |log| && log[i].target.Some? && tick(t)
    ensures log[i + 1].target.Some?
    ensures log[i].target.value < t < log[i + 1].target.value <==> log[i].target.value < t <= log[i + 1].read
  {
    var a, b := log[i], log[i + 1];
    assert RunOk(next, cancelAt, a) && RunOk(next, cancelAt, b);
    assert a.end <= b.read && b.target.Some?;
    assert !(b.read < t < next(b.read));
  }

  /** Every tick between the clock reading of one scheduled run and the target of
      another is run, or was passed after some run's tick and before the next clock
      reading. */
  lemma {:induction false} EveryTickAccounted(
    tick: nat -> bool, next: nat -> nat, cancelAt: Option<nat>, log: seq<Run>, m: nat, n: nat, t: nat)
      returns (i: nat)
    requires IsNext(tick, next) && Behaviour(next, cancelAt, log)
    requires m <= n < |log| && log[m].target.Some? && log[n].target.Some?
    requires tick(t) && log[m].read < t <= log[n].target.value
    ensures m <= i <= n && log[i].target.Some?
    ensures t == log[i].target.value || (i < n && log[i].target.value < t <= log[i + 1].read)
    decreases n
  {
    assert RunOk(next, cancelAt, log[n]);
    var read := log[n].read;
    assert forall u: nat :: read < u < next(read) ==> !tick(u);
    if t == log[n].target.value {
      i := n;
    } else if log[n - 1].target.value < t {
      i := n - 1;
    } else {
      i := EveryTickAccounted(tick, next, cancelAt, log, m, n - 1, t);
    }
  }

  /** After a cancellation at most one run starts, unless a tick passed between the
      loop's reading the clock and its reaching the select. */
  lemma AtMostOneStartAfterCancel(next: nat -> nat, cancelAt: nat, log: seq<Run>, i: nat, j: nat)
    requires Behaviour(next, Some(cancelAt), log) && i < j < |log|
    requires log[i].start >= cancelAt
    ensures log[j].target == Some(next(log[j].read)) && next(log[j].read) <= log[j].entered
  {
    Serial(next, Some(cancelAt), log, i, j);
    assert RunOk(next, Some(cancelAt), log[i]) && RunOk(next, Some(cancelAt), log[j]);
  }

  /** Exactly when a run can follow a log, a first run included: its tick has passed
      before the loop reaches its select, or comes no later than the cancellation.
      So a loop that waits for its tick and is cancelled before it starts nothing. */
  lemma StartExact(next: nat -> nat, cancelAt: nat, log: seq<Run>, r: Run)
    requires Behaviour(next, Some(cancelAt), log)
    requires log != [] ==> log[|log| - 1].end <= r.read
    requires r.read <= r.entered <= r.start <= r.end
    requires r.target == Some(next(r.read)) && next(r.read) <= r.start
    ensures Behaviour(next, Some(cancelAt), log + [r]) <==> next(r.read) <= r.entered || next(r.read) <= cancelAt
  {
    if RunOk(next, Some(cancelAt), r) {
      BehaviourSnoc(next, Some(cancelAt), log, r);
    } else {
      assert !RunOk(next, Some(cancelAt), (log + [r])[|log|]);
    }
  }

  /** After a run that started at or after the cancellation, only the first way is left. */
  lemma SecondStartExact(next: nat -> nat, cancelAt: nat, log: seq<Run>, r: Run)
    requires Behaviour(next, Some(cancelAt), log) && log != []
    requires log[|log| - 1].start >= cancelAt && log[|log| - 1].end <= r.read
    requires r.read <= r.entered <= r.start <= r.end
    requires r.target == Some(next(r.read)) && next(r.read) <= r.start
    ensures Behaviour(next, Some(cancelAt), log + [r]) <==> next(r.read) <= r.entered
  {
    StartExact(next, cancelAt, log, r);
    assert RunOk(next, Some(cancelAt), log[|log| - 1]);
  }

  /** So when the select is always reached before the next tick, a cancelled loop
      starts at most one more run. */
  lemma PromptLoopStops(next: nat -> nat, cancelAt: nat, log: seq<Run>, i: nat, j: nat)
    requires Behaviour(next, Some(cancelAt), log) && i < |log| && j < |log|
    requires forall k :: 0 <= k < |log| ==> log[k].entered < next(log[k].read)
    requires log[i].start >= cancelAt && log[j].start >= cancelAt
    ensures i == j
  {
    if i < j {
      AtMostOneStartAfterCancel(next, cancelAt, log, i, j);
    } else if j < i {
      AtMostOneStartAfterCancel(next, cancelAt, log, j, i);
    }
  }

  /** n runs, each for the tick that passed before its select was reached. */
  function LateRuns(n: nat): (log: seq<Run>)
    ensures |log| == n
    ensures forall i :: 0 <= i < n ==> log[i] == Run(Some(i + 1), i, i + 1, i + 1, i + 1)
  {
    seq(n, i requires 0 <= i < n => Run(Some(i + 1), i, i + 1, i + 1, i + 1))
  }

  /** So a loop that is late every time starts any number of runs after a cancellation
      at time 0. */
  lemma {:induction false} LateLoopNeedNotStop(n: nat)
    ensures Behaviour(t => t + 1, Some(0), LateRuns(n))
  {
    var next := (t: nat) => t + 1;
    if n == 1 {
      assert RunOk(next, Some(0), LateRuns(1)[0]);
    } else if n > 1 {
      LateLoopNeedNotStop(n - 1);
      assert LateRuns(n) == LateRuns(n - 1) + [LateRuns(n)[n - 1]];
      SecondStartExact(next, 0, LateRuns(n - 1), LateRuns(n)[n - 1]);
    }
  }
}
