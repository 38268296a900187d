/**
 The coalescing refresh scheduler (apps/vscode/src/refreshScheduler.ts): requests, a timer service, runs that
 report done at once, late, twice or by throwing, resets and disposal, in any order.
 */
module RefreshScheduler {
  import opened Text

  /** The scheduler's fields, with the timer service and the runs that have not reported yet. Handles and runs
      are numbered as they are created. */
  datatype State = State(
    timer: Option<nat>, running: bool, dirty: bool, disposed: bool,
    scheduled: set<nat>, handles: nat,
    runs: nat, unfinished: set<nat>)

  const Fresh := State(None, false, false, false, {}, 0, 0, {})

  /** What can happen next. A run that throws reports done, so `Done` covers it. */
  datatype Step = Request | Reset | Dispose | Timer(handle: nat) | Done(run: nat)

  function Armed(s: State): (t: State)
  {
    s.(timer := Some(s.handles), scheduled := s.scheduled + {s.handles}, handles := s.handles + 1)
  }

  function Cleared(s: State): (t: State)
  {
    (if s.timer.Some? then s.(timer := None, scheduled := s.scheduled - {s.timer.value}) else s).(dirty := false)
  }

  function Fire(s: State): (t: State)
  {
    if s.disposed then s
    else if s.running then (if s.timer.None? then Armed(s.(dirty := true)) else s.(dirty := true))
    else if !s.dirty then s
    else s.(dirty := false, running := true, runs := s.runs + 1, unfinished := s.unfinished + {s.runs})
  }

  function Next(s: State, step: Step): (t: State)
  {
    match step
    case Request =>
      if s.disposed then s
      else if s.running || s.timer.Some? then s.(dirty := true)
      else Armed(s.(dirty := true))
    case Reset => Cleared(s)
    case Dispose => Cleared(s).(disposed := true)
    case Timer(h) =>
      if h in s.scheduled then Fire(s.(scheduled := s.scheduled - {h}, timer := None)) else s
    case Done(r) =>
      if r !in s.unfinished then s
      else
        var t := s.(unfinished := s.unfinished - {r}, running := false);
        if t.dirty && !t.disposed then Armed(t) else t
  }

  function Run(s: State, steps: seq<Step>): (t: State)
  {
    if steps == [] then s else Next(Run(s, steps[..|steps| - 1]), steps[|steps| - 1])
  }

  /** One timer at most, never while a run is in progress; one run at most; a dirty scheduler always has a timer
      or a run; a timer always stands for a request; nothing is left after disposal. */
  ghost predicate Inv(s: State)
  {
    && s.scheduled == (if s.timer.Some? then {s.timer.value} else {})
    && (s.timer.Some? ==> s.timer.value < s.handles && s.dirty && !s.running)
    && s.unfinished == (if s.running then {s.runs - 1} else {})
    && (s.running ==> s.runs > 0)
    && (s.dirty ==> s.timer.Some? || s.running)
    && (s.disposed ==> s.timer.None? && !s.dirty)
  }

  lemma StepKeeps(s: State, step: Step)
    requires Inv(s)
    ensures Inv(Next(s, step))
  {
  }

  /** MAIN: in every run of steps the invariant holds; in particular runs never overlap. */
  lemma {:induction false} RunKeeps(s: State, steps: seq<Step>)
    requires Inv(s)
    ensures Inv(Run(s, steps)) && |Run(s, steps).unfinished| <= 1
  {
    if steps != [] {
      RunKeeps(s, steps[..|steps| - 1]);
      StepKeeps(Run(s, steps[..|steps| - 1]), steps[|steps| - 1]);
    }
  }

  /** Every timer that fires starts a run: the branches of `fire` for a disposed, running or clean scheduler are
      never taken. */
  lemma FiringStartsARun(s: State, h: nat)
    requires Inv(s) && h in s.scheduled
    ensures var t := Next(s, Timer(h));
            !s.disposed && !s.running && s.dirty && t.running && t.runs == s.runs + 1 && !t.dirty && t.timer.None?
  {
  }

  ghost predicate Undisturbed(steps: seq<Step>)
  {
    forall i :: 0 <= i < |steps| ==> !steps[i].Reset? && !steps[i].Dispose?
  }

  /** MAIN: whatever follows a request short of a reset or disposal, either a run has started after it or one is
      still owed. */
  lemma {:induction false} RequestIsOwed(s: State, steps: seq<Step>)
    requires Inv(s) && !s.disposed && Undisturbed(steps)
    ensures var t := Run(Next(s, Request), steps);
            && Inv(t) && !t.disposed
            && (t.runs > s.runs || (t.runs == s.runs && t.dirty && (t.timer.Some? || t.running)))
  {
    StepKeeps(s, Request);
    if steps != [] {
      var init, step := steps[..|steps| - 1], steps[|steps| - 1];
      RequestIsOwed(s, init);
      StepKeeps(Run(Next(s, Request), init), step);
    }
  }

  /** An owed run starts as soon as the run in progress, if any, reports and the timer fires. */
  lemma OwedRunStarts(t: State)
    requires Inv(t) && t.dirty
    ensures var u := if t.running then Next(t, Done(t.runs - 1)) else t;
            && u.timer.Some?
            && Next(u, Timer(u.timer.value)).runs == t.runs + 1
            && Next(u, Timer(u.timer.value)).running
  {
    if t.running {
      StepKeeps(t, Done(t.runs - 1));
    }
  }

  /** MAIN: an armed timer stands until it fires, however many requests and late or double reports arrive. */
  lemma {:induction false} TimerIsNeverPostponed(s: State, steps: seq<Step>)
    requires Inv(s) && s.timer.Some? && Undisturbed(steps)
    requires forall i :: 0 <= i < |steps| ==> steps[i] != Timer(s.timer.value)
    ensures var t := Run(s, steps);
            Inv(t) && t.timer == s.timer && t.scheduled == s.scheduled && t.runs == s.runs
  {
    if steps != [] {
      var init := steps[..|steps| - 1];
      TimerIsNeverPostponed(s, init);
      StepKeeps(Run(s, init), steps[|steps| - 1]);
    }
  }

  /** Nothing is asked for: no timer stands and no run will follow the one in progress. */
  ghost predicate Idle(s: State) { Inv(s) && s.timer.None? && !s.dirty }

  /** MAIN: without a request no run starts: from an idle scheduler, whatever else happens, until the next request. */
  lemma {:induction false} NoRunWithoutRequest(s: State, steps: seq<Step>)
    requires Idle(s) && forall i :: 0 <= i < |steps| ==> !steps[i].Request?
    ensures Idle(Run(s, steps)) && Run(s, steps).runs == s.runs
  {
    if steps != [] {
      NoRunWithoutRequest(s, steps[..|steps| - 1]);
      StepKeeps(Run(s, steps[..|steps| - 1]), steps[|steps| - 1]);
    }
  }

  /** A reset cancels the timer and drops the request; a run that has just started leaves nothing owed. */
  lemma IdleAfter(s: State, h: nat)
    requires Inv(s)
    ensures Idle(Next(s, Reset)) && Next(s, Reset).runs == s.runs
    ensures h in s.scheduled ==> Idle(Next(s, Timer(h)))
  {
    StepKeeps(s, Reset);
    StepKeeps(s, Timer(h));
  }

  /** After disposal no run ever starts, whatever is asked. */
  lemma {:induction false} DisposalIsFinal(s: State, steps: seq<Step>)
    requires Inv(s)
    ensures var t := Run(Next(s, Dispose), steps); Inv(t) && t.disposed && t.runs == s.runs && t.scheduled == {}
  {
    StepKeeps(s, Dispose);
    if steps != [] {
      DisposalIsFinal(s, steps[..|steps| - 1]);
      StepKeeps(Run(Next(s, Dispose), steps[..|steps| - 1]), steps[|steps| - 1]);
    }
  }

  /** A run that has reported, and is not going to start again. */
  ghost predicate Over(s: State, run: nat) { run < s.runs && run !in s.unfinished }

  lemma OverStaysOver(s: State, step: Step, run: nat)
    requires Over(s, run)
    ensures Over(Next(s, step), run)
  {
  }

  lemma DoneOfOver(s: State, run: nat)
    requires Over(s, run)
    ensures Next(s, Done(run)) == s
  {
  }

  /** A report for a run that has already reported changes nothing. */
  lemma {:induction false} LateDoneIsIgnored(s: State, steps: seq<Step>, run: nat)
    requires Over(s, run)
    ensures Over(Run(s, steps), run) && Next(Run(s, steps), Done(run)) == Run(s, steps)
  {
    hide Next, Over;
    if steps != [] {
      LateDoneIsIgnored(s, steps[..|steps| - 1], run);
      OverStaysOver(Run(s, steps[..|steps| - 1]), steps[|steps| - 1], run);
    }
    DoneOfOver(Run(s, steps), run);
  }

  /** The scheduler as it runs. */
  class CoalescingRefreshScheduler {
    var timer: Option<nat>
    var running: bool
    var dirty: bool
    var disposed: bool
    // The timer service and the refresh runs.
    var scheduled: set<nat>
    var handles: nat
    var runs: nat
    var unfinished: set<nat>

    constructor ()
      ensures Now() == Fresh && Inv(Now())
    {
      timer, running, dirty, disposed, scheduled, handles, runs, unfinished := None, false, false, false, {}, 0, 0, {};
    }

    ghost function Now(): (s: State)
      reads this
    {
      State(timer, running, dirty, disposed, scheduled, handles, runs, unfinished)
    }

    method Request()
      requires Inv(Now())
      modifies this
      ensures Now() == Next(old(Now()), Step.Request) && Inv(Now())
    {
      StepKeeps(Now(), Step.Request);
      if disposed {
        return;
      }
      dirty := true;
      if running || timer.Some? {
        return;
      }
      Arm();
    }

    method Reset()
      requires Inv(Now())
      modifies this
      ensures Now() == Next(old(Now()), Step.Reset) && Inv(Now())
    {
      StepKeeps(Now(), Step.Reset);
      if timer.Some? {
        scheduled := scheduled - {timer.value};
        timer := None;
      }
      dirty := false;
    }

    method Dispose()
      requires Inv(Now())
      modifies this
      ensures Now() == Next(old(Now()), Step.Dispose) && Inv(Now())
    {
      StepKeeps(Now(), Step.Dispose);
      Reset();
      disposed := true;
    }

    method Arm()
      modifies this
      ensures Now() == Armed(old(Now()))
    {
      timer := Some(handles);
      scheduled := scheduled + {handles};
      handles := handles + 1;
    }

    /** The timer callback. */
    method TimerFired(h: nat)
      requires h in scheduled
      modifies this
      ensures Now() == Next(old(Now()), Timer(h))
    {
      scheduled := scheduled - {h};
      timer := None;
      if disposed {
        return;
      }
      if running {
        dirty := true;
        if timer.None? {
          Arm();
        }
        return;
      }
      if !dirty {
        return;
      }
      dirty := false;
      running := true;
      unfinished := unfinished + {runs};
      runs := runs + 1;
    }

    /** The `done` callback handed to run number `run`. */
    method ReportDone(run: nat)
      requires Inv(Now())
      modifies this
      ensures Now() == Next(old(Now()), Done(run)) && Inv(Now())
    {
      StepKeeps(Now(), Done(run));
      if run !in unfinished {
        return;
      }
      unfinished := unfinished - {run};
      running := false;
      if dirty && !disposed {
        Arm();
      }
    }
  }
}
