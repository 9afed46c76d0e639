/**
 * The periodic job skeleton (app/jobs/_base.py). `loop` asks for an interval,
 * sleeps, runs the job's task, and repeats forever; here it runs over a finite
 * trace of what each iteration meets. The asyncio task is a state field;
 * sleeping and cancelling themselves are not modelled.
 */
module JobBase {

  /**
   * What `get_interval()` returns: a number of seconds, `None`, or a value of
   * another type (a `str` or a `list` the delay was multiplied into).
   */
  datatype Interval = Seconds(n: int) | NoneValue | NotNumber(typeName: string)

  /** How the sleep and the task of one iteration end once the interval was not -1. */
  datatype RunOutcome = Finished | Failed(message: string) | Cancelled

  datatype Iteration = Iteration(interval: Interval, run: RunOutcome)

  /** What one iteration of `loop` does. */
  datatype Step =
    | StopRequested        // the interval was -1: `stop()` and return
    | Ran                  // slept and ran `loop_task`
    | Raised(message: string) // an exception other than cancellation, logged
    | CancelledStep        // CancelledError: return

  datatype TaskState = NoTask | Running | CancelRequested

  datatype LogEntry = Info(text: string) | Warning(text: string) | Error(text: string)

  /** The message of the TypeError `asyncio.sleep` raises when it compares a non-number with 0. */
  function SleepTypeError(typeName: string): string {
    "'<=' not supported between instances of '" + typeName + "' and 'int'"
  }

  function StepOf(it: Iteration): Step {
    match it.interval
    case Seconds(n) =>
      if n == -1 then StopRequested
      else (match it.run
            case Finished => Ran
            case Failed(m) => Raised(m)
            case Cancelled => CancelledStep)
    case NoneValue => Raised(SleepTypeError("NoneType"))
    case NotNumber(t) => Raised(SleepTypeError(t))
  }

  predicate Ends(s: Step) { s.StopRequested? || s.CancelledStep? }

  /** The steps `loop` takes over a trace: it runs until a step that ends it, or the trace runs out. */
  function LoopSteps(trace: seq<Iteration>): (steps: seq<Step>)
    ensures |steps| <= |trace|
  {
    if trace == [] then []
    else if Ends(StepOf(trace[0])) then [StepOf(trace[0])]
    else [StepOf(trace[0])] + LoopSteps(trace[1..])
  }

  /** The log line of one step: the error of a swallowed exception, and nothing otherwise. */
  function StepLog(jobName: string, s: Step): seq<LogEntry> {
    if s.Raised? then [Error("Loop Job for " + jobName + ": " + s.message)] else []
  }

  /** The error lines `loop` logs for the exceptions it swallowed. */
  function ErrorLog(jobName: string, steps: seq<Step>): seq<LogEntry> {
    if steps == [] then [] else ErrorLog(jobName, steps[..|steps| - 1]) + StepLog(jobName, steps[|steps| - 1])
  }

  class Job {
    const jobName: string
    /** The Python class name, which appears in the AttributeError text of `stop()` before `start()`. */
    const className: string
    var task: TaskState
    var log: seq<LogEntry>

    constructor(jobName: string, className: string)
      ensures this.jobName == jobName && this.className == className
      ensures task == NoTask && log == []
    {
      this.jobName := jobName;
      this.className := className;
      task := NoTask;
      log := [];
    }

    method Start()
      modifies this
      ensures task == Running
      ensures log == old(log) + [Info(jobName + ": job start")]
    {
      log := log + [Info(jobName + ": job start")];
      task := Running;
    }

    /** What `stop()` logs; with no task it logs the AttributeError as a warning instead of raising it. */
    function StopLog(t: TaskState): seq<LogEntry>
    {
      [Info(jobName + ": job stop")]
      + (if t.NoTask? then [Warning(jobName + ": '" + className + "' object has no attribute 'task'")] else [])
    }

    /** `stop()` never fails: a missing task is logged, an existing one is asked to cancel. */
    method Stop()
      modifies this
      ensures task == (if old(task).NoTask? then NoTask else CancelRequested)
      ensures log == old(log) + StopLog(old(task))
    {
      log := log + [Info(jobName + ": job stop")];
      if task.NoTask? {
        log := log + [Warning(jobName + ": '" + className + "' object has no attribute 'task'")];
      } else {
        task := CancelRequested;
      }
    }

    /** The iterations of `loop()` up to the first one that ends it. */
    method RunIterations(trace: seq<Iteration>) returns (steps: seq<Step>, i: nat)
      modifies this
      ensures i <= |trace| && (i < |trace| ==> Ends(StepOf(trace[i])))
      ensures LoopSteps(trace) == steps + LoopSteps(trace[i..])
      ensures steps != [] ==> !Ends(steps[|steps| - 1])
      ensures log == old(log) + ErrorLog(jobName, steps) && task == old(task)
    {
      steps := [];
      i := 0;
      while i < |trace| && !Ends(StepOf(trace[i]))
        invariant 0 <= i <= |trace|
        invariant LoopSteps(trace) == steps + LoopSteps(trace[i..])
        invariant steps != [] ==> !Ends(steps[|steps| - 1])
        invariant log == old(log) + ErrorLog(jobName, steps) && task == old(task)
      {
        var step := StepOf(trace[i]);
        LoopStepsNext(trace, steps, i);
        ErrorLogSnoc(jobName, steps, step);
        log := log + StepLog(jobName, step);
        steps := steps + [step];
        i := i + 1;
      }
    }

    /**
     * `loop()` over a finite trace: the steps it takes, the errors it logs and,
     * when an interval of -1 ends it, the effect of `stop()`.
     */
    method Loop(trace: seq<Iteration>) returns (steps: seq<Step>)
      modifies this
      ensures steps == LoopSteps(trace)
      ensures var stopped := steps != [] && steps[|steps| - 1].StopRequested?;
        && log == old(log) + ErrorLog(jobName, steps) + (if stopped then StopLog(old(task)) else [])
        && task == (if stopped && !old(task).NoTask? then CancelRequested else old(task))
    {
      var i;
      steps, i := RunIterations(trace);
      if i < |trace| {
        var step := StepOf(trace[i]);
        LoopStepsAt(trace, i);
        ErrorLogSnoc(jobName, steps, step);
        assert StepLog(jobName, step) == [];
        steps := steps + [step];
        assert ErrorLog(jobName, steps) == ErrorLog(jobName, steps[..|steps| - 1]);
        if step.StopRequested? {
          Stop();
        }
      } else {
        assert trace[i..] == [];
        assert steps + [] == steps;
      }
    }
  }

  lemma LoopStepsAt(trace: seq<Iteration>, i: nat)
    requires i < |trace|
    ensures LoopSteps(trace[i..]) ==
      if Ends(StepOf(trace[i])) then [StepOf(trace[i])] else [StepOf(trace[i])] + LoopSteps(trace[i + 1..])
  {
    assert trace[i..][1..] == trace[i + 1..];
  }

  /** A step that does not end the loop moves from the rest of the trace to the steps taken. */
  lemma LoopStepsNext(trace: seq<Iteration>, steps: seq<Step>, i: nat)
    requires i < |trace| && !Ends(StepOf(trace[i]))
    requires LoopSteps(trace) == steps + LoopSteps(trace[i..])
    ensures LoopSteps(trace) == (steps + [StepOf(trace[i])]) + LoopSteps(trace[i + 1..])
  {
    LoopStepsAt(trace, i);
  }

  lemma ErrorLogSnoc(jobName: string, steps: seq<Step>, s: Step)
    ensures ErrorLog(jobName, steps + [s]) == ErrorLog(jobName, steps) + StepLog(jobName, s)
  {
    assert (steps + [s])[..|steps|] == steps;
  }

  /**
   * Step `p` of the loop is what iteration `p` of the trace makes of it, and
   * only the last step may end the loop.
   */
  lemma {:induction false} LoopStepsFollowTrace(trace: seq<Iteration>)
    ensures var steps := LoopSteps(trace);
      && (forall p :: 0 <= p < |steps| ==> steps[p] == StepOf(trace[p]))
      && (forall p :: 0 <= p < |steps| - 1 ==> !Ends(steps[p]))
      && (|steps| < |trace| ==> steps != [] && Ends(steps[|steps| - 1]))
  {
    if trace != [] && !Ends(StepOf(trace[0])) {
      LoopStepsFollowTrace(trace[1..]);
    }
  }

  /** An interval of -1 stops the job at once: `loop_task` never runs. */
  lemma StopSignal(trace: seq<Iteration>)
    requires trace != [] && trace[0].interval == Seconds(-1)
    ensures LoopSteps(trace) == [StopRequested]
  {
  }

  /** Each iteration that is not stopped or cancelled sleeps and runs the task once, or logs and goes on. */
  lemma {:induction false} ExceptionsContinue(trace: seq<Iteration>)
    requires forall p :: 0 <= p < |trace| ==> !Ends(StepOf(trace[p]))
    ensures |LoopSteps(trace)| == |trace|
    ensures forall p :: 0 <= p < |trace| ==>
      (LoopSteps(trace)[p] == Ran <==> trace[p].interval.Seconds? && trace[p].interval.n != -1 && trace[p].run == Finished)
  {
    if trace != [] {
      ExceptionsContinue(trace[1..]);
    }
  }

  /** A cancellation ends the loop at its iteration. */
  lemma {:induction false} CancellationEnds(trace: seq<Iteration>, j: nat)
    requires j < |trace| && StepOf(trace[j]) == CancelledStep
    requires forall p :: 0 <= p < j ==> !Ends(StepOf(trace[p]))
    ensures |LoopSteps(trace)| == j + 1
    ensures LoopSteps(trace)[j] == CancelledStep
  {
    if j > 0 {
      CancellationEnds(trace[1..], j - 1);
    }
  }

  /** A non-numeric interval is a swallowed TypeError: the task does not run in that iteration. */
  lemma NonNumberIntervalLogged(it: Iteration)
    requires !it.interval.Seconds?
    ensures StepOf(it).Raised? && !Ends(StepOf(it))
  {
  }
}
