/** The training loop's schedule: which steps log, write a summary, save a
    checkpoint and reset the streaming metrics, and which step timings each
    log line averages. Step timings come from a clock and are left out; a
    log event records the indices of the steps whose timings it averages.
    Losses and metric values are left out with them. */
module TrainingSchedule {

  /** The three intervals of the run configuration. */
  datatype Intervals = Intervals(log: int, summary: int, checkpoint: int)

  predicate NonZero(c: Intervals) {
    c.log != 0 && c.summary != 0 && c.checkpoint != 0
  }

  /** What a step leaves behind, in order. */
  datatype Event =
    | Logged(step: nat, timed: seq<nat>)
    | SummaryWritten(step: nat)
    | CheckpointWritten(step: nat)
    | MetricsReset(step: nat)

  /** The events of a stretch of the run and whether it ended by raising. */
  datatype Outcome = Outcome(events: seq<Event>, raised: bool)

  /** The test every periodic action uses: `i % every == 0 or i == 1`. Step 1
      always hits; so does step 0, whatever the interval. */
  predicate Hits(i: nat, every: int)
    requires every != 0
  {
    i % every == 0 || i == 1
  }

  /** The steps `a`, ..., `b - 1`. */
  function Range(a: nat, b: nat): (r: seq<nat>)
    requires a <= b
    ensures |r| == b - a
  {
    seq(b - a, k requires 0 <= k < b - a => a + k)
  }

  /** The first step whose timing is still in the timing list when step `i`
      starts: the step after the last logging step before `i`, or 0. */
  function WindowStart(i: nat, log: int): (s: nat)
    requires log != 0
    ensures s <= i
  {
    if i == 0 then 0
    else if Hits(i - 1, log) then i
    else WindowStart(i - 1, log)
  }

  /** The window start is 0 or follows a logging step, and no step from it
      up to `i` logs; so it is the step after the last logging step. */
  lemma {:induction false} WindowStartIsLastLog(i: nat, log: int)
    requires log != 0
    ensures var s := WindowStart(i, log);
      && (s == 0 || Hits(s - 1, log))
      && forall j :: s <= j < i ==> !Hits(j, log)
  {
    if i > 0 && !Hits(i - 1, log) {
      WindowStartIsLastLog(i - 1, log);
    }
  }

  /** One pass of the loop body at step `i`, appending to `acc` what it
      writes: the log test, then the summary test, with the checkpoint test
      and the metric reset inside it. A zero interval raises a division by
      zero at its own test, after what came before it in the pass. */
  function Step(acc: seq<Event>, i: nat, c: Intervals): (r: Outcome)
    ensures r.raised <==> c.log == 0 || c.summary == 0 || (Hits(i, c.summary) && c.checkpoint == 0)
  {
    if c.log == 0 then Outcome(acc, true)
    else
      var logged := if Hits(i, c.log) then acc + [Logged(i, Range(WindowStart(i, c.log), i + 1))] else acc;
      if c.summary == 0 then Outcome(logged, true)
      else if !Hits(i, c.summary) then Outcome(logged, false)
      else
        var summarized := logged + [SummaryWritten(i)];
        if c.checkpoint == 0 then Outcome(summarized, true)
        else
          var saved := if Hits(i, c.checkpoint) then summarized + [CheckpointWritten(i)] else summarized;
          Outcome(saved + [MetricsReset(i)], false)
  }

  /** Steps `0`, ..., `k - 1`, stopping at the first one that raises. */
  function Steps(k: nat, c: Intervals): Outcome {
    if k == 0 then Outcome([], false)
    else
      var before := Steps(k - 1, c);
      if before.raised then before else Step(before.events, k - 1, c)
  }

  /** The whole training branch: the loop over `range(numberOfSteps)`, then a
      final summary and checkpoint at the loop variable's last value. With no
      pass of the loop the variable keeps the value the per-class summary
      loop left in it when there are more than two classes, and is unbound
      (the final summary raises) otherwise. The per-class loop is reached
      with more than two classes, but the script only gets that far with
      exactly three: for any other count above two `binarized_network` is
      never bound, and building the summaries raises first. */
  function Schedule(numberOfSteps: int, c: Intervals, classes: nat): Outcome {
    if numberOfSteps <= 0 then
      if classes > 2 then Outcome([SummaryWritten(classes - 1), CheckpointWritten(classes - 1)], false)
      else Outcome([], true)
    else
      var run := Steps(numberOfSteps, c);
      if run.raised then run
      else Outcome(run.events + [SummaryWritten(numberOfSteps - 1), CheckpointWritten(numberOfSteps - 1)], false)
  }

  /** The loop as the script runs it, keeping the timing list as it goes: the
      step's index is appended, a logging step records the list and empties
      it. Its result is the schedule, and the list left over holds the steps
      since the last logging step. */
  method TrainingLoop(numberOfSteps: int, c: Intervals, classes: nat)
    returns (events: seq<Event>, timeList: seq<nat>, raised: bool)
    ensures Outcome(events, raised) == Schedule(numberOfSteps, c, classes)
    ensures !raised && numberOfSteps > 0 ==>
      timeList == Range(WindowStart(numberOfSteps, c.log), numberOfSteps)
  {
    events, timeList, raised := [], [], false;
    if numberOfSteps <= 0 {
      if classes > 2 {
        events := [SummaryWritten(classes - 1), CheckpointWritten(classes - 1)];
      } else {
        raised := true;
      }
      return;
    }
    var i := 0;
    while i < numberOfSteps
      invariant 0 <= i <= numberOfSteps
      invariant Steps(i, c) == Outcome(events, false)
      invariant c.log != 0 ==> timeList == Range(WindowStart(i, c.log), i)
    {
      timeList := timeList + [i];
      if c.log == 0 {
        raised := true;
        StepsStop(i + 1, numberOfSteps, c);
        return;
      }
      RangeSnoc(WindowStart(i, c.log), i);
      if i % c.log == 0 || i == 1 {
        events := events + [Logged(i, timeList)];
        timeList := [];
      }
      if c.summary == 0 {
        raised := true;
        StepsStop(i + 1, numberOfSteps, c);
        return;
      }
      if i % c.summary == 0 || i == 1 {
        events := events + [SummaryWritten(i)];
        if c.checkpoint == 0 {
          raised := true;
          StepsStop(i + 1, numberOfSteps, c);
          return;
        }
        if i % c.checkpoint == 0 || i == 1 {
          events := events + [CheckpointWritten(i)];
        }
        events := events + [MetricsReset(i)];
      }
      i := i + 1;
    }
    events := events + [SummaryWritten(i - 1), CheckpointWritten(i - 1)];
  }

  lemma RangeSnoc(a: nat, b: nat)
    requires a <= b
    ensures Range(a, b) + [b] == Range(a, b + 1)
  {
  }

  /** Once a step raises, later steps add nothing. */
  lemma {:induction false} StepsStop(k: nat, m: nat, c: Intervals)
    requires k <= m && Steps(k, c).raised
    ensures Steps(m, c) == Steps(k, c)
    decreases m
  {
    if m > k {
      StepsStop(k, m - 1, c);
    }
  }

  /** The loop raises exactly when it runs and an interval is zero: step 0
      reaches every test, since it hits the summary test. */
  lemma {:induction false} StepsRaise(k: nat, c: Intervals)
    ensures Steps(k, c).raised <==> k > 0 && !NonZero(c)
  {
    if k > 0 {
      StepsRaise(k - 1, c);
    }
  }

  /** The training branch raises exactly when an interval is zero and the
      loop runs, or when the loop does not run and the loop variable was
      never bound. */
  lemma ScheduleRaises(numberOfSteps: int, c: Intervals, classes: nat)
    ensures Schedule(numberOfSteps, c, classes).raised <==>
      (numberOfSteps > 0 && !NonZero(c)) || (numberOfSteps <= 0 && classes <= 2)
  {
    if numberOfSteps > 0 {
      StepsRaise(numberOfSteps, c);
    }
  }

  /** Whether the pass of step `e.step` writes `e`, as the tests decide it:
      a log line with its timing window when the log test hits, a summary
      and a metric reset when the summary test hits, and a checkpoint when
      the summary and the checkpoint tests both hit. */
  predicate Emitted(e: Event, c: Intervals)
    requires NonZero(c)
  {
    match e
    case Logged(i, w) => Hits(i, c.log) && w == Range(WindowStart(i, c.log), i + 1)
    case SummaryWritten(i) => Hits(i, c.summary)
    case CheckpointWritten(i) => Hits(i, c.summary) && Hits(i, c.checkpoint)
    case MetricsReset(i) => Hits(i, c.summary)
  }

  /** A pass adds to what came before exactly the events of its own step
      that its tests call for. */
  lemma StepMembership(acc: seq<Event>, i: nat, c: Intervals, e: Event)
    requires NonZero(c)
    ensures e in Step(acc, i, c).events <==> e in acc || (e.step == i && Emitted(e, c))
  {
  }

  /** An event is written in the first `k` steps exactly when its step is one
      of them and that step's tests call for it. */
  lemma {:induction false} StepsMembership(k: nat, c: Intervals, e: Event)
    requires NonZero(c)
    ensures e in Steps(k, c).events <==> e.step < k && Emitted(e, c)
  {
    if k > 0 {
      StepsMembership(k - 1, c, e);
      StepsRaise(k - 1, c);
      StepMembership(Steps(k - 1, c).events, k - 1, c, e);
    }
  }

  /** Over a run without a zero interval, each kind of event happens at step
      `i` exactly when its test says so: a log line when the log test hits, a
      summary and a metric reset when the summary test hits, and a
      checkpoint only when both the summary and the checkpoint tests hit,
      since the checkpoint test sits inside the summary branch. The final
      summary and checkpoint at the last step come on top. */
  lemma EventsOfSchedule(n: nat, c: Intervals, classes: nat, i: nat)
    requires NonZero(c) && n > 0 && i < n
    ensures var evs := Schedule(n, c, classes).events;
      && ((exists w :: Logged(i, w) in evs) <==> Hits(i, c.log))
      && (MetricsReset(i) in evs <==> Hits(i, c.summary))
      && (SummaryWritten(i) in evs <==> Hits(i, c.summary) || i == n - 1)
      && (CheckpointWritten(i) in evs <==> (Hits(i, c.summary) && Hits(i, c.checkpoint)) || i == n - 1)
  {
    StepsRaise(n, c);
    var evs := Schedule(n, c, classes).events;
    StepsMembership(n, c, Logged(i, Range(WindowStart(i, c.log), i + 1)));
    StepsMembership(n, c, MetricsReset(i));
    StepsMembership(n, c, SummaryWritten(i));
    StepsMembership(n, c, CheckpointWritten(i));
    forall w | Logged(i, w) in evs
      ensures Hits(i, c.log)
    {
      StepsMembership(n, c, Logged(i, w));
    }
  }

  /** A log line averages exactly the timings of the steps since the previous
      logging step, its own included: the window ends at the logging step,
      starts at 0 or right after a logging step, and holds no other logging
      step. */
  lemma LogWindow(n: nat, c: Intervals, classes: nat, i: nat, w: seq<nat>)
    requires NonZero(c) && n > 0 && Logged(i, w) in Schedule(n, c, classes).events
    ensures |w| > 0 && w[|w| - 1] == i
    ensures w[0] <= i && w == Range(w[0], i + 1)
    ensures forall k :: 0 <= k < |w| - 1 ==> !Hits(w[k], c.log)
    ensures w[0] == 0 || Hits(w[0] - 1, c.log)
  {
    StepsRaise(n, c);
    StepsMembership(n, c, Logged(i, w));
    WindowStartIsLastLog(i, c.log);
    var s := WindowStart(i, c.log);
    assert forall k :: 0 <= k < |w| ==> w[k] == s + k;
  }

  /** Steps 0 and 1 log, write a summary, save a checkpoint and reset the
      metrics, whatever the intervals; the log line of each averages that
      step alone. */
  lemma FirstStepsDoEverything(acc: seq<Event>, c: Intervals, i: nat)
    requires NonZero(c) && i <= 1
    ensures Step(acc, i, c) ==
      Outcome(acc + [Logged(i, [i]), SummaryWritten(i), CheckpointWritten(i), MetricsReset(i)], false)
  {
    assert Hits(i, c.log) && Hits(i, c.summary) && Hits(i, c.checkpoint);
    assert WindowStart(i, c.log) == i;
    assert Range(i, i + 1) == [i];
  }
}
