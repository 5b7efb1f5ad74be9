/** Safety of the upgrade scheduler over every run, restarts included. */
module UpgradeRuns {
  import opened Common
  import opened UpgradeModel

  /** An agent call is pending exactly for the scheduled upgrade, and only once. */
  ghost predicate CallsMatchSchedule(s: State) {
    && (forall c :: c in s.pending && c.CallAgent? ==> s.scheduled == Some(c.up) && s.pending[c] == 1)
    && (forall c, d :: c in s.pending && d in s.pending && c.CallAgent? && d.CallAgent? ==> c == d)
    && (s.scheduled.Some? ==> exists t :: CallAgent(s.scheduled.value, t) in s.pending)
  }

  /** What must stand directly before the event at `i`. */
  ghost predicate Explained(log: seq<Event>, i: nat)
    requires i < |log|
  {
    match log[i].kind
    case Scheduled => true
    case Started => i > 0 && log[i - 1] == Event(Scheduled, log[i].data)
    case Cancelled => i > 0 && log[i - 1] == Event(Scheduled, log[i].data)
    case Succeeded => i > 0 && log[i - 1] == Event(Started, log[i].data)
    case Failed => i > 0 && log[i - 1] == Event(Started, log[i].data)
  }

  ghost predicate LogExplained(log: seq<Event>) {
    forall i :: 0 <= i < |log| ==> Explained(log, i)
  }

  /** While an upgrade is scheduled, the log ends with its schedule. */
  ghost predicate ScheduleIsLast(s: State) {
    s.scheduled.Some? ==> s.log != [] && s.log[|s.log| - 1] == Event(Scheduled, s.scheduled.value)
  }

  /** A time limit or a request under way belongs to an upgrade that was started. */
  ghost predicate TimersWereStarted(s: State) {
    && (forall c :: c in s.pending && c.TimesUp? ==> Event(Started, c.up) in s.log)
    && (forall d :: d in s.sending ==> Event(Started, d.up) in s.log)
  }

  /** Once an upgrade is closed, nothing is left pending. */
  ghost predicate ClosedIsQuiet(s: State) {
    s.log != [] && IsFinal(s.log[|s.log| - 1].kind) ==> s.pending == multiset{} && s.sending == multiset{}
  }

  ghost predicate Inv(s: State) {
    CallsMatchSchedule(s) && ScheduleIsLast(s) && LogExplained(s.log) && TimersWereStarted(s) && ClosedIsQuiet(s)
  }

  lemma ExtendExplained(log: seq<Event>, e: Event)
    requires LogExplained(log) && Explained(log + [e], |log|)
    ensures LogExplained(log + [e])
  {
    forall i | 0 <= i < |log| ensures Explained(log + [e], i) {
      assert Explained(log, i);
    }
  }

  lemma UnscheduleKeepsInv(s: State)
    requires Inv(s)
    ensures Inv(Unschedule(s))
  {
  }

  lemma CancelKeepsInv(s: State)
    requires Inv(s)
    ensures Inv(CancelScheduled(s)) && CancelScheduled(s).scheduled.None?
  {
    if s.scheduled.Some? {
      ExtendExplained(s.log, Event(Cancelled, s.scheduled.value));
    }
  }

  lemma ScheduledCalls(s: State, up: Upgrade, t: int)
    requires CallsMatchSchedule(s) && s.scheduled.None?
    ensures CallsMatchSchedule(Schedule(s, up, t))
  {
  }

  lemma ScheduleKeepsInv(s: State, up: Upgrade, t: int)
    requires Inv(s) && s.scheduled.None?
    ensures Inv(Schedule(s, up, t))
  {
    ScheduledCalls(s, up, t);
    ExtendExplained(s.log, Event(Scheduled, up));
  }

  /** Handling a transaction does nothing, cancels, or schedules after cancelling. */
  lemma HandleShape(cfg: Config, s: State, txn: Txn)
    ensures var s' := HandleTxn(cfg, s, txn);
      || s' == s
      || s' == CancelScheduled(s)
      || (IsRelevantStart(cfg, txn) && s' == Schedule(CancelScheduled(s), UpgradeOf(cfg, txn), FailTimeout(txn)))
  {
  }

  lemma HandleKeepsInv(cfg: Config, s: State, txn: Txn)
    requires Inv(s)
    ensures Inv(HandleTxn(cfg, s, txn))
  {
    var s' := HandleTxn(cfg, s, txn);
    HandleShape(cfg, s, txn);
    if s' != s {
      CancelKeepsInv(s);
      if s' != CancelScheduled(s) {
        ScheduleKeepsInv(CancelScheduled(s), UpgradeOf(cfg, txn), FailTimeout(txn));
      }
    }
  }

  lemma {:induction false} CommitKeepsInv(cfg: Config, s: State, txns: seq<Txn>)
    requires Inv(s)
    ensures Inv(BatchCommitted(cfg, s, txns))
  {
    if txns != [] {
      CommitKeepsInv(cfg, s, txns[..|txns| - 1]);
      HandleKeepsInv(cfg, BatchCommitted(cfg, s, txns[..|txns| - 1]), txns[|txns| - 1]);
    }
  }

  lemma AgentCalls(s: State, up: Upgrade, t: int)
    requires CallsMatchSchedule(s) && CallAgent(up, t) in s.pending
    ensures s.scheduled == Some(up) && CallsMatchSchedule(AgentCalled(s, up, t))
  {
  }

  lemma AgentKeepsInv(s: State, up: Upgrade, t: int)
    requires Inv(s) && CallAgent(up, t) in s.pending
    ensures Inv(AgentCalled(s, up, t))
  {
    AgentCalls(s, up, t);
    ExtendExplained(s.log, Event(Started, up));
  }

  /** A timer for the time limit touches no agent call. */
  lemma TimerKeepsCalls(s: State, s': State, up: Upgrade)
    requires CallsMatchSchedule(s) && s'.scheduled == s.scheduled
    requires s'.pending == s.pending + multiset{TimesUp(up)} || s'.pending == s.pending - multiset{TimesUp(up)}
    ensures CallsMatchSchedule(s')
  {
  }

  lemma SendKeepsInv(s: State, send: Send, attempts: seq<bool>)
    requires Inv(s) && send in s.sending
    ensures Inv(SendFinished(s, send, attempts))
  {
    var rest := s.(sending := s.sending - multiset{send});
    assert Inv(rest);
    if Delivered(attempts) {
      TimerKeepsCalls(s, SendFinished(s, send, attempts), send.up);
    } else {
      UnscheduleKeepsInv(rest);
    }
  }

  lemma TimeoutKeepsInv(s: State, up: Upgrade)
    requires Inv(s) && TimesUp(up) in s.pending
    ensures Inv(TimedOut(s, up))
  {
    var rest := s.(pending := s.pending - multiset{TimesUp(up)});
    TimerKeepsCalls(s, rest, up);
    assert Inv(rest);
    UnscheduleKeepsInv(rest);
  }

  lemma RestartKeepsInv(s: State, installed: map<string, Version>)
    requires Inv(s)
    ensures Inv(Booted(s.log, installed))
  {
    if s.log != [] && s.log[|s.log| - 1].kind.Started? {
      ExtendExplained(s.log, ClosedLog(s.log, installed)[|s.log|]);
    }
  }

  lemma StepKeepsInv(cfg: Config, s: State, step: Step)
    requires Inv(s) && Enabled(s, step)
    ensures Inv(Next(cfg, s, step))
  {
    match step
    case Handle(txn) => HandleKeepsInv(cfg, s, txn);
    case Commit(txns) => CommitKeepsInv(cfg, s, txns);
    case Replay(ledger) =>
      var last := LastIndex(ledger, IsStart, |ledger|);
      if last.Some? {
        HandleKeepsInv(cfg, s, ledger[last.value]);
      }
    case FireAgent(up, t) => AgentKeepsInv(s, up, t);
    case FinishSend(send, attempts) => SendKeepsInv(s, send, attempts);
    case FireTimesUp(up) => TimeoutKeepsInv(s, up);
    case Restart(installed) => RestartKeepsInv(s, installed);
  }

  /** Main safety result: in every reachable state, across restarts, the pending agent call and the
      scheduled upgrade agree, the log ends with that schedule, and every log event is explained by
      the one before it. */
  lemma {:induction false} EveryRunIsSafe(cfg: Config, run: seq<Step>)
    requires IsRun(cfg, run)
    ensures Inv(After(cfg, run))
  {
    if run != [] {
      EveryRunIsSafe(cfg, run[..|run| - 1]);
      StepKeepsInv(cfg, After(cfg, run[..|run| - 1]), run[|run| - 1]);
    }
  }

  // ----- accounting: no schedule disappears from the books -----

  function Count(log: seq<Event>, e: Event): nat {
    if log == [] then 0
    else Count(log[..|log| - 1], e) + if log[|log| - 1] == e then 1 else 0
  }

  /** The upgrade a step takes off the schedule without writing anything about it to the log. */
  function DroppedBy(s: State, step: Step): Option<Upgrade> {
    match step
    case FinishSend(_, attempts) => if Delivered(attempts) then None else s.scheduled
    case FireTimesUp(_) => s.scheduled
    case Restart(_) => s.scheduled
    case _ => None
  }

  function Drops(cfg: Config, run: seq<Step>, up: Upgrade): nat {
    if run == [] then 0
    else
      var before := run[..|run| - 1];
      Drops(cfg, before, up) + if DroppedBy(After(cfg, before), run[|run| - 1]) == Some(up) then 1 else 0
  }

  /** Schedules of `up` in the log that are neither started, nor cancelled, nor still standing. */
  function Unaccounted(s: State, up: Upgrade): int {
    Count(s.log, Event(Scheduled, up)) - Count(s.log, Event(Started, up)) - Count(s.log, Event(Cancelled, up))
      - if s.scheduled == Some(up) then 1 else 0
  }

  lemma AppendAccounts(s: State, s': State, x: Event, up: Upgrade)
    requires s'.log == s.log + [x]
    ensures Unaccounted(s', up) == Unaccounted(s, up)
      + (if x == Event(Scheduled, up) then 1 else 0)
      - (if x == Event(Started, up) || x == Event(Cancelled, up) then 1 else 0)
      + (if s.scheduled == Some(up) then 1 else 0) - (if s'.scheduled == Some(up) then 1 else 0)
  {
  }

  lemma CancelAccounts(s: State, up: Upgrade)
    ensures Unaccounted(CancelScheduled(s), up) == Unaccounted(s, up)
  {
  }

  lemma ScheduleAccounts(s: State, x: Upgrade, t: int, up: Upgrade)
    requires s.scheduled.None?
    ensures Unaccounted(Schedule(s, x, t), up) == Unaccounted(s, up)
  {
  }

  lemma HandleAccounts(cfg: Config, s: State, txn: Txn, up: Upgrade)
    ensures Unaccounted(HandleTxn(cfg, s, txn), up) == Unaccounted(s, up)
  {
    CancelAccounts(s, up);
    HandleShape(cfg, s, txn);
    if IsRelevantStart(cfg, txn) {
      ScheduleAccounts(CancelScheduled(s), UpgradeOf(cfg, txn), FailTimeout(txn), up);
    }
  }

  lemma {:induction false} CommitAccounts(cfg: Config, s: State, txns: seq<Txn>, up: Upgrade)
    ensures Unaccounted(BatchCommitted(cfg, s, txns), up) == Unaccounted(s, up)
  {
    if txns != [] {
      CommitAccounts(cfg, s, txns[..|txns| - 1], up);
      HandleAccounts(cfg, BatchCommitted(cfg, s, txns[..|txns| - 1]), txns[|txns| - 1], up);
    }
  }

  lemma SameLogAccounts(s: State, s': State, up: Upgrade)
    requires s'.log == s.log
    ensures Unaccounted(s', up) == Unaccounted(s, up)
      + (if s.scheduled == Some(up) then 1 else 0) - (if s'.scheduled == Some(up) then 1 else 0)
  {
  }

  lemma RestartAccounts(s: State, installed: map<string, Version>, up: Upgrade)
    ensures Unaccounted(Booted(s.log, installed), up)
         == Unaccounted(s, up) + if s.scheduled == Some(up) then 1 else 0
  {
  }

  lemma SendAccounts(s: State, send: Send, attempts: seq<bool>, up: Upgrade)
    ensures Unaccounted(SendFinished(s, send, attempts), up)
         == Unaccounted(s, up) + if DroppedBy(s, FinishSend(send, attempts)) == Some(up) then 1 else 0
  {
    SameLogAccounts(s, SendFinished(s, send, attempts), up);
  }

  lemma TimeoutAccounts(s: State, x: Upgrade, up: Upgrade)
    requires ScheduleIsLast(s)
    ensures Unaccounted(TimedOut(s, x), up)
         == Unaccounted(s, up) + if DroppedBy(s, FireTimesUp(x)) == Some(up) then 1 else 0
  {
    SameLogAccounts(s, TimedOut(s, x), up);
  }

  lemma AgentAccounts(s: State, x: Upgrade, t: int, up: Upgrade)
    requires CallsMatchSchedule(s) && CallAgent(x, t) in s.pending
    ensures Unaccounted(AgentCalled(s, x, t), up) == Unaccounted(s, up)
  {
    AgentCalls(s, x, t);
    AppendAccounts(s, AgentCalled(s, x, t), Event(Started, x), up);
  }

  lemma StepAccounts(cfg: Config, s: State, step: Step, up: Upgrade)
    requires CallsMatchSchedule(s) && ScheduleIsLast(s) && Enabled(s, step)
    ensures Unaccounted(Next(cfg, s, step), up)
         == Unaccounted(s, up) + if DroppedBy(s, step) == Some(up) then 1 else 0
  {
    match step
    case Handle(txn) => HandleAccounts(cfg, s, txn, up);
    case Commit(txns) => CommitAccounts(cfg, s, txns, up);
    case Replay(ledger) =>
      var last := LastIndex(ledger, IsStart, |ledger|);
      if last.Some? {
        HandleAccounts(cfg, s, ledger[last.value], up);
      }
    case FireAgent(x, t) => AgentAccounts(s, x, t, up);
    case FinishSend(send, attempts) => SendAccounts(s, send, attempts, up);
    case FireTimesUp(x) => TimeoutAccounts(s, x, up);
    case Restart(installed) => RestartAccounts(s, installed, up);
  }

  /** Conservation over every run: each `scheduled` record of an upgrade is matched by one `started`
      or `cancelled` record, by one silent drop (restart, time-out or failed send), or still stands. */
  lemma {:induction false} EveryScheduleIsAccountedFor(cfg: Config, run: seq<Step>, up: Upgrade)
    requires IsRun(cfg, run)
    ensures var s := After(cfg, run);
      Count(s.log, Event(Scheduled, up))
      == Count(s.log, Event(Started, up)) + Count(s.log, Event(Cancelled, up)) + Drops(cfg, run, up)
         + if s.scheduled == Some(up) then 1 else 0
  {
    if run != [] {
      var before := run[..|run| - 1];
      EveryScheduleIsAccountedFor(cfg, before, up);
      EveryRunIsSafe(cfg, before);
      StepAccounts(cfg, After(cfg, before), run[|run| - 1], up);
    }
  }

  // ----- the time limit -----

  /** The early return of the time-limit check is dead code: whenever the check can fire, the log
      does not end with a failure.  So the check always unschedules, whatever upgrade is scheduled. */
  lemma TimeLimitAlwaysUnschedules(cfg: Config, run: seq<Step>, up: Upgrade)
    requires IsRun(cfg, run) && TimesUp(up) in After(cfg, run).pending
    ensures var s := After(cfg, run);
      && s.log != [] && !IsFinal(s.log[|s.log| - 1].kind)
      && TimedOut(s, up) == Unschedule(s)
  {
    EveryRunIsSafe(cfg, run);
  }

  lemma HandleLeavesTrace(cfg: Config, s: State, txn: Txn)
    ensures var s' := HandleTxn(cfg, s, txn); s' == s || |s'.log| > |s.log|
  {
  }

  lemma {:induction false} CommitLeavesTrace(cfg: Config, s: State, txns: seq<Txn>)
    ensures var s' := BatchCommitted(cfg, s, txns); s' == s || |s'.log| > |s.log|
  {
    if txns != [] {
      CommitLeavesTrace(cfg, s, txns[..|txns| - 1]);
      HandleLeavesTrace(cfg, BatchCommitted(cfg, s, txns[..|txns| - 1]), txns[|txns| - 1]);
    }
  }

  /** A step that empties the schedule and the queue with no regard to what is scheduled. */
  predicate Unschedules(step: Step) {
    step.Restart? || step.FireTimesUp? || (step.FinishSend? && !Delivered(step.attempts))
  }

  lemma UnscheduledSilently(s: State, step: Step)
    requires ScheduleIsLast(s) && s.scheduled.Some? && Unschedules(step)
    ensures forall cfg :: Next(cfg, s, step).scheduled.None? && Next(cfg, s, step).log == s.log
  {
  }

  /** A scheduled upgrade vanishes, off the schedule with nothing written to the log, exactly at a restart, at the time
      limit of an earlier upgrade, or when the request of an earlier upgrade cannot be sent. */
  lemma UpgradeVanishesExactly(cfg: Config, run: seq<Step>, step: Step)
    requires IsRun(cfg, run) && After(cfg, run).scheduled.Some? && Enabled(After(cfg, run), step)
    ensures var s := After(cfg, run);
      Next(cfg, s, step).scheduled.None? && Next(cfg, s, step).log == s.log <==> Unschedules(step)
  {
    var s := After(cfg, run);
    EveryRunIsSafe(cfg, run);
    if Unschedules(step) {
      UnscheduledSilently(s, step);
    } else {
      match step
      case Handle(txn) => HandleLeavesTrace(cfg, s, txn);
      case Commit(txns) => CommitLeavesTrace(cfg, s, txns);
      case Replay(ledger) =>
        var last := LastIndex(ledger, IsStart, |ledger|);
        if last.Some? {
          HandleLeavesTrace(cfg, s, ledger[last.value]);
        }
      case FireAgent(_, _) =>
      case FinishSend(_, _) =>
    }
  }

  /** One more enabled step, with the states before and after it. */
  lemma ExtendRun(cfg: Config, run: seq<Step>, step: Step, s: State, s': State)
    requires IsRun(cfg, run) && After(cfg, run) == s && Enabled(s, step) && Next(cfg, s, step) == s'
    ensures IsRun(cfg, run + [step]) && After(cfg, run + [step]) == s'
  {
  }

  /** Upgrade `a` is scheduled, starts, and its request is delivered. */
  function StartRun(cfg: Config, a: Txn): seq<Step>
    requires IsRelevantStart(cfg, a)
  {
    var up, t := UpgradeOf(cfg, a), FailTimeout(a);
    [] + [Handle(a)] + [FireAgent(up, t)] + [FinishSend(Send(up, t), [true])]
  }

  /** A START that finds nothing scheduled and an open log schedules its upgrade. */
  lemma IdleSchedules(cfg: Config, s: State, b: Txn)
    requires IsRelevantStart(cfg, b) && s.scheduled.None?
    requires s.log != [] ==> !IsFinal(s.log[|s.log| - 1].kind)
    ensures HandleTxn(cfg, s, b) == Schedule(s, UpgradeOf(cfg, b), FailTimeout(b))
  {
  }

  lemma StartRunStates(up: Upgrade, t: int)
    ensures var s1 := Schedule(EMPTY_STATE, up, t);
      var s2 := AgentCalled(s1, up, t);
      var s3 := SendFinished(s2, Send(up, t), [true]);
      && CallAgent(up, t) in s1.pending && Send(up, t) in s2.sending
      && s3 == State(None, multiset{TimesUp(up)}, multiset{}, [Event(Scheduled, up), Event(Started, up)])
  {
    assert Delivered([true]) by { assert [true][0]; }
  }

  lemma StartRunWaits(cfg: Config, a: Txn)
    requires IsRelevantStart(cfg, a)
    ensures IsRun(cfg, StartRun(cfg, a))
    ensures var up := UpgradeOf(cfg, a);
      After(cfg, StartRun(cfg, a))
      == State(None, multiset{TimesUp(up)}, multiset{}, [Event(Scheduled, up), Event(Started, up)])
  {
    var up, t := UpgradeOf(cfg, a), FailTimeout(a);
    StartRunStates(up, t);
    IdleSchedules(cfg, EMPTY_STATE, a);
    var s1 := Schedule(EMPTY_STATE, up, t);
    var s2 := AgentCalled(s1, up, t);
    ExtendRun(cfg, [], Handle(a), EMPTY_STATE, s1);
    ExtendRun(cfg, [] + [Handle(a)], FireAgent(up, t), s1, s2);
    ExtendRun(cfg, [] + [Handle(a)] + [FireAgent(up, t)], FinishSend(Send(up, t), [true]),
              s2, SendFinished(s2, Send(up, t), [true]));
  }

  lemma TimedOutAfterSchedule(s: State, x: Upgrade, t: int, up: Upgrade)
    ensures TimedOut(Schedule(s, x, t), up) == State(None, multiset{}, s.sending, s.log + [Event(Scheduled, x)])
  {
  }

  /** A later upgrade can be lost.  In every reachable state in which some upgrade waits for its time
      limit (`StartRunWaits` gives one) and nothing is scheduled, scheduling `b` and then exceeding that
      limit leaves `b` recorded as scheduled, with nothing scheduled, no call pending and no cancellation. */
  lemma LaterUpgradeIsLost(cfg: Config, run: seq<Step>, s: State, up: Upgrade, b: Txn)
    requires IsRun(cfg, run) && After(cfg, run) == s && s.scheduled.None? && TimesUp(up) in s.pending
    requires IsRelevantStart(cfg, b)
    ensures IsRun(cfg, run + [Handle(b)] + [FireTimesUp(up)])
    ensures After(cfg, run + [Handle(b)] + [FireTimesUp(up)])
         == State(None, multiset{}, s.sending, s.log + [Event(Scheduled, UpgradeOf(cfg, b))])
  {
    TimeLimitAlwaysUnschedules(cfg, run, up);
    IdleSchedules(cfg, s, b);
    var s1 := Schedule(s, UpgradeOf(cfg, b), FailTimeout(b));
    assert TimesUp(up) in s1.pending;
    ExtendRun(cfg, run, Handle(b), s, s1);
    TimedOutAfterSchedule(s, UpgradeOf(cfg, b), FailTimeout(b), up);
    ExtendRun(cfg, run + [Handle(b)], FireTimesUp(up), s1, TimedOut(s1, up));
  }
}
