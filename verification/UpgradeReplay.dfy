/** Cold replay of the config ledger against incremental handling of the same transactions. */
module UpgradeReplay {
  import opened Common
  import opened UpgradeModel
  import opened UpgradeRuns

  ghost predicate Unforced(ledger: seq<Txn>) {
    forall i :: 0 <= i < |ledger| ==> !ledger[i].forced
  }

  predicate CancelsVersion(cfg: Config, txn: Txn, version: Version) {
    IsCancel(txn) && ParsedVersion(cfg, txn) == Some(version)
  }

  /** The START at `i` is what the node should be scheduled for: no later START that concerns the node,
      no later CANCEL of its version. */
  ghost predicate IsLive(cfg: Config, ledger: seq<Txn>, i: int) {
    && 0 <= i < |ledger|
    && IsRelevantStart(cfg, ledger[i])
    && (forall j :: i < j < |ledger| ==> !IsRelevantStart(cfg, ledger[j]))
    && (forall j :: i < j < |ledger| ==> !CancelsVersion(cfg, ledger[j], UpgradeOf(cfg, ledger[i]).version))
  }

  ghost predicate NothingClosed(log: seq<Event>) {
    forall i :: 0 <= i < |log| ==> !IsFinal(log[i].kind)
  }

  lemma HandleClosesNothing(cfg: Config, s: State, txn: Txn)
    requires NothingClosed(s.log)
    ensures NothingClosed(HandleTxn(cfg, s, txn).log)
  {
  }

  lemma {:induction false} NothingClosesWithoutTimers(cfg: Config, ledger: seq<Txn>)
    ensures NothingClosed(BatchCommitted(cfg, EMPTY_STATE, ledger).log)
  {
    if ledger != [] {
      var before := ledger[..|ledger| - 1];
      NothingClosesWithoutTimers(cfg, before);
      HandleClosesNothing(cfg, BatchCommitted(cfg, EMPTY_STATE, before), ledger[|ledger| - 1]);
    }
  }

  /** What one transaction leaves scheduled while nothing has been closed. */
  lemma HandleSchedules(cfg: Config, s: State, txn: Txn)
    requires NothingClosed(s.log)
    ensures HandleTxn(cfg, s, txn).scheduled ==
      if IsRelevantStart(cfg, txn) then Some(UpgradeOf(cfg, txn))
      else if s.scheduled.Some? && CancelsVersion(cfg, txn, s.scheduled.value.version) then None
      else s.scheduled
  {
  }

  lemma LiveInPrefix(cfg: Config, ledger: seq<Txn>, i: int)
    requires ledger != [] && 0 <= i < |ledger| - 1
    ensures var before, txn := ledger[..|ledger| - 1], ledger[|ledger| - 1];
      IsLive(cfg, ledger, i) <==>
      IsLive(cfg, before, i) && !IsRelevantStart(cfg, txn)
        && !CancelsVersion(cfg, txn, UpgradeOf(cfg, ledger[i]).version)
  {
  }

  /** Incremental handling without timers schedules exactly the live START, for every ledger. */
  lemma {:induction false} IncrementalSchedulesLive(cfg: Config, ledger: seq<Txn>)
    requires Unforced(ledger)
    ensures var s := BatchCommitted(cfg, EMPTY_STATE, ledger);
      && (forall i :: IsLive(cfg, ledger, i) ==> s.scheduled == Some(UpgradeOf(cfg, ledger[i])))
      && (s.scheduled.Some? ==> exists i :: IsLive(cfg, ledger, i))
  {
    if ledger != [] {
      var n := |ledger| - 1;
      var before, txn := ledger[..n], ledger[n];
      IncrementalSchedulesLive(cfg, before);
      NothingClosesWithoutTimers(cfg, before);
      var s, s' := BatchCommitted(cfg, EMPTY_STATE, before), BatchCommitted(cfg, EMPTY_STATE, ledger);
      assert s' == HandleTxn(cfg, s, txn);
      HandleSchedules(cfg, s, txn);
      forall i | 0 <= i < n ensures IsLive(cfg, ledger, i) ==> s'.scheduled == Some(UpgradeOf(cfg, ledger[i])) {
        LiveInPrefix(cfg, ledger, i);
        assert before[i] == ledger[i];
      }
      if IsRelevantStart(cfg, txn) {
        assert IsLive(cfg, ledger, n);
      } else if s'.scheduled.Some? {
        var i :| IsLive(cfg, before, i);
        assert before[i] == ledger[i];
        LiveInPrefix(cfg, ledger, i);
        assert IsLive(cfg, ledger, i);
      }
    }
  }

  ghost predicate IsLastStart(ledger: seq<Txn>, i: int) {
    0 <= i < |ledger| && IsStart(ledger[i]) && forall j :: i < j < |ledger| ==> !IsStart(ledger[j])
  }

  ghost predicate CancelledByString(ledger: seq<Txn>, i: int)
    requires 0 <= i < |ledger| && IsStart(ledger[i])
  {
    exists j :: i < j < |ledger| && CancelsString(ledger[j], ledger[i].version)
  }

  ghost predicate CancelledByVersion(cfg: Config, ledger: seq<Txn>, i: int)
    requires 0 <= i < |ledger| && IsRelevantStart(cfg, ledger[i])
  {
    exists j :: i < j < |ledger| && CancelsVersion(cfg, ledger[j], UpgradeOf(cfg, ledger[i]).version)
  }

  /** What cold replay schedules from scratch: the last START if it concerns the node, unless a later CANCEL repeats
      its version string. */
  lemma ReplaySchedules(cfg: Config, ledger: seq<Txn>)
    ensures var s := LedgerProcessed(cfg, EMPTY_STATE, ledger);
      && (forall i :: IsLastStart(ledger, i) ==>
            s.scheduled == if IsRelevantStart(cfg, ledger[i]) && !CancelledByString(ledger, i)
                           then Some(UpgradeOf(cfg, ledger[i])) else None)
      && ((forall i :: !IsLastStart(ledger, i)) ==> s.scheduled.None?)
  {
    var last := LastIndex(ledger, IsStart, |ledger|);
    if last.Some? {
      assert IsLastStart(ledger, last.value);
      var start := ledger[last.value];
      var cancel := FirstIndex(ledger, t => CancelsString(t, start.version), last.value + 1);
      assert cancel.Some? <==> CancelledByString(ledger, last.value);
    }
  }

  ghost predicate NoneLive(cfg: Config, ledger: seq<Txn>) {
    forall j :: !IsLive(cfg, ledger, j)
  }

  /** After its last START a ledger reads the same both ways: that START concerns the node and is cancelled by string
      just in case it is cancelled by version, or it does not concern the node and no earlier START is live. */
  ghost predicate ReadsTheSame(cfg: Config, ledger: seq<Txn>, i: int)
    requires IsLastStart(ledger, i)
  {
    if IsRelevantStart(cfg, ledger[i]) then CancelledByString(ledger, i) <==> CancelledByVersion(cfg, ledger, i)
    else NoneLive(cfg, ledger)
  }

  /** A last START that concerns the node is live, and alone so, unless its version is cancelled. */
  lemma LastStartLives(cfg: Config, ledger: seq<Txn>, i: int)
    requires IsLastStart(ledger, i) && IsRelevantStart(cfg, ledger[i])
    ensures IsLive(cfg, ledger, i) <==> !CancelledByVersion(cfg, ledger, i)
    ensures forall j :: IsLive(cfg, ledger, j) ==> j == i
  {
  }

  /** Cold replay agrees with incremental handling on an unforced ledger exactly when the ledger reads the same both
      ways after its last START, and always when it has no START. */
  lemma ReplayAgreesExactly(cfg: Config, ledger: seq<Txn>)
    requires Unforced(ledger)
    ensures LedgerProcessed(cfg, EMPTY_STATE, ledger).scheduled == BatchCommitted(cfg, EMPTY_STATE, ledger).scheduled
       <==> forall i :: IsLastStart(ledger, i) ==> ReadsTheSame(cfg, ledger, i)
  {
    ReplaySchedules(cfg, ledger);
    IncrementalSchedulesLive(cfg, ledger);
    if i :| IsLastStart(ledger, i) {
      assert forall j :: IsLastStart(ledger, j) ==> j == i;
      if IsRelevantStart(cfg, ledger[i]) {
        LastStartLives(cfg, ledger, i);
      }
    } else {
      SomeStartIsLast(ledger);
      assert NoneLive(cfg, ledger);
    }
  }

  /** A ledger that holds a START has a last one. */
  lemma SomeStartIsLast(ledger: seq<Txn>)
    ensures (exists i :: IsLastStart(ledger, i)) || forall j :: 0 <= j < |ledger| ==> !IsStart(ledger[j])
  {
    var last := LastIndex(ledger, IsStart, |ledger|);
    if last.Some? {
      assert IsLastStart(ledger, last.value);
    }
  }

  ghost predicate StartsConcernNode(cfg: Config, ledger: seq<Txn>) {
    forall i :: 0 <= i < |ledger| && IsStart(ledger[i]) ==> IsRelevantStart(cfg, ledger[i])
  }

  /** Version strings of the ledger are valid, and equal exactly when they denote the same version. */
  ghost predicate Canonical(cfg: Config, ledger: seq<Txn>) {
    && (forall i :: 0 <= i < |ledger| && ledger[i].PoolUpgrade? ==> ParsedVersion(cfg, ledger[i]).Some?)
    && (forall i, j :: 0 <= i < |ledger| && 0 <= j < |ledger| && ledger[i].PoolUpgrade? && ledger[j].PoolUpgrade? ==>
          (ledger[i].version == ledger[j].version <==> ParsedVersion(cfg, ledger[i]) == ParsedVersion(cfg, ledger[j])))
  }

  /** So the two agree on every canonical ledger whose STARTs concern the node. */
  lemma ReplayAgrees(cfg: Config, ledger: seq<Txn>)
    requires Unforced(ledger) && StartsConcernNode(cfg, ledger) && Canonical(cfg, ledger)
    ensures LedgerProcessed(cfg, EMPTY_STATE, ledger).scheduled == BatchCommitted(cfg, EMPTY_STATE, ledger).scheduled
  {
    forall i | IsLastStart(ledger, i) ensures CancelledByString(ledger, i) <==> CancelledByVersion(cfg, ledger, i) {
      forall j | i < j < |ledger|
        ensures CancelsString(ledger[j], ledger[i].version)
           <==> CancelsVersion(cfg, ledger[j], UpgradeOf(cfg, ledger[i]).version)
      {
      }
    }
    ReplayAgreesExactly(cfg, ledger);
  }

  /** They can differ: a last START that leaves this node out makes replay schedule nothing, while the earlier START
      stays scheduled incrementally. */
  lemma ReplayMissesEarlierStart(cfg: Config, a: Txn, b: Txn)
    requires IsRelevantStart(cfg, a) && !a.forced
    requires IsStart(b) && !b.forced && cfg.nodeId !in b.schedule
    ensures BatchCommitted(cfg, EMPTY_STATE, [a, b]).scheduled == Some(UpgradeOf(cfg, a))
    ensures LedgerProcessed(cfg, EMPTY_STATE, [a, b]).scheduled.None?
  {
    assert IsLive(cfg, [a, b], 0);
    IncrementalSchedulesLive(cfg, [a, b]);
    assert IsStart([a, b][1]);
  }

  // ----- restart, then replay -----

  /** After a restart, replay schedules the last START exactly when no later CANCEL repeats its version string and
      the log, closed at start-up, does not end with the outcome of that very upgrade. */
  lemma RestartResumesExactly(cfg: Config, log: seq<Event>, installed: map<string, Version>, ledger: seq<Txn>, i: nat)
    requires IsLastStart(ledger, i) && IsRelevantStart(cfg, ledger[i])
    ensures var s := LedgerProcessed(cfg, Booted(log, installed), ledger);
      s.scheduled == if CancelledByString(ledger, i) || AlreadyPerformed(ClosedLog(log, installed), ActionId(ledger[i]))
                     then None else Some(UpgradeOf(cfg, ledger[i]))
  {
  }

  /** The start at `k` is the last one that the log holds of that upgrade id. */
  ghost predicate LastStartedAt(log: seq<Event>, k: int, upgradeId: string) {
    && 0 <= k < |log| && log[k].kind.Started? && log[k].data.upgradeId == upgradeId
    && forall j :: k < j < |log| && log[j].kind.Started? ==> log[j].data.upgradeId != upgradeId
  }

  ghost predicate ScheduledSince(log: seq<Event>, k: int) {
    exists j :: 0 <= j < |log| && k < j && log[j].kind.Scheduled?
  }

  /** In an explained log nothing but a schedule can come after an upgrade and its outcome. */
  lemma OutcomeEndsLog(log: seq<Event>, k: int)
    requires LogExplained(log) && 0 <= k < |log| && log[k].kind.Started? && !ScheduledSince(log, k)
    ensures |log| == k + 1 || (|log| == k + 2 && IsFinal(log[k + 1].kind) && log[k + 1].data == log[k].data)
  {
    assert k + 2 < |log| ==> Explained(log, k + 2);
    assert k + 1 < |log| ==> Explained(log, k + 1);
  }

  /** What start-up takes for an upgrade performed last: the start or the outcome of that id ends the log. */
  lemma PerformedLastExactly(log: seq<Event>, installed: map<string, Version>, upgradeId: string, k: int)
    requires LogExplained(log) && LastStartedAt(log, k, upgradeId)
    ensures AlreadyPerformed(ClosedLog(log, installed), upgradeId) <==> !ScheduledSince(log, k)
  {
    var n := |log| - 1;
    if !ScheduledSince(log, k) {
      OutcomeEndsLog(log, k);
    } else if IsFinal(log[n].kind) {
      assert Explained(log, n);
    }
  }

  /** Over every run: an upgrade that was performed is scheduled again by restart and replay exactly when it is the last
      START of the ledger, no later CANCEL repeats its version string, and some upgrade was scheduled after it started,
      for only the last record of the log is looked at. */
  lemma PerformedUpgradeReturnsExactly(cfg: Config, run: seq<Step>, installed: map<string, Version>, ledger: seq<Txn>,
                                       i: nat, k: nat)
    requires IsRun(cfg, run) && IsLastStart(ledger, i) && IsRelevantStart(cfg, ledger[i])
    requires LastStartedAt(After(cfg, run).log, k, ActionId(ledger[i]))
    ensures var run' := run + [Restart(installed)] + [Replay(ledger)];
      && IsRun(cfg, run')
      && After(cfg, run').scheduled == if !CancelledByString(ledger, i) && ScheduledSince(After(cfg, run).log, k)
                                       then Some(UpgradeOf(cfg, ledger[i])) else None
  {
    var s := After(cfg, run);
    EveryRunIsSafe(cfg, run);
    PerformedLastExactly(s.log, installed, ActionId(ledger[i]), k);
    RestartResumesExactly(cfg, s.log, installed, ledger, i);
    var s1 := Booted(s.log, installed);
    ExtendRun(cfg, run, Restart(installed), s, s1);
    ExtendRun(cfg, run + [Restart(installed)], Replay(ledger), s1, LedgerProcessed(cfg, s1, ledger));
  }

  /** So an upgrade whose start is the last record when the node goes down is not performed again by replay, whether it
      succeeded or failed. */
  lemma StartedUpgradeIsNotRepeated(cfg: Config, log: seq<Event>, installed: map<string, Version>, ledger: seq<Txn>,
                                    i: nat)
    requires IsLastStart(ledger, i) && IsRelevantStart(cfg, ledger[i])
    requires log != [] && log[|log| - 1] == Event(Started, UpgradeOf(cfg, ledger[i]))
    ensures LedgerProcessed(cfg, Booted(log, installed), ledger).scheduled.None?
  {
  }

  /** Upgrade `a` is performed; after a restart the forced START `b`, which is not in the ledger yet, is scheduled. */
  function ForcedRun(cfg: Config, a: Txn, b: Txn, installed: map<string, Version>): seq<Step>
    requires IsRelevantStart(cfg, a)
  {
    StartRun(cfg, a) + [Restart(installed)] + [Handle(b)]
  }

  lemma ClosedAfterStart(up: Upgrade, installed: map<string, Version>)
    ensures var log := Booted([Event(Scheduled, up), Event(Started, up)], installed).log;
      |log| == 3 && log[1] == Event(Started, up) && IsFinal(log[2].kind) && log[2].data == up
  {
  }

  lemma UnperformedSchedules(cfg: Config, s: State, b: Txn)
    requires IsRelevantStart(cfg, b) && s.scheduled.None? && !AlreadyPerformed(s.log, ActionId(b))
    ensures HandleTxn(cfg, s, b) == Schedule(s, UpgradeOf(cfg, b), FailTimeout(b))
  {
  }

  lemma ForcedRunLog(cfg: Config, a: Txn, b: Txn, installed: map<string, Version>)
    requires IsRelevantStart(cfg, a) && IsRelevantStart(cfg, b) && ActionId(a) != ActionId(b)
    ensures IsRun(cfg, ForcedRun(cfg, a, b, installed))
    ensures var log := After(cfg, ForcedRun(cfg, a, b, installed)).log;
      LastStartedAt(log, 1, ActionId(a)) && ScheduledSince(log, 1)
  {
    var run, up := StartRun(cfg, a), UpgradeOf(cfg, a);
    var log := [Event(Scheduled, up), Event(Started, up)];
    var s, s1 := State(None, multiset{TimesUp(up)}, multiset{}, log), Booted(log, installed);
    ClosedAfterStart(up, installed);
    UnperformedSchedules(cfg, s1, b);
    StartRunWaits(cfg, a);
    ExtendRun(cfg, run, Restart(installed), s, s1);
    ExtendRun(cfg, run + [Restart(installed)], Handle(b), s1, Schedule(s1, UpgradeOf(cfg, b), FailTimeout(b)));
    SinceStart(s1.log + [Event(Scheduled, UpgradeOf(cfg, b))], ActionId(a));
  }

  lemma SinceStart(log: seq<Event>, upgradeId: string)
    requires |log| == 4 && log[1].kind.Started? && log[1].data.upgradeId == upgradeId
    requires !log[2].kind.Started? && log[3].kind.Scheduled?
    ensures LastStartedAt(log, 1, upgradeId) && ScheduledSince(log, 1)
  {
    assert log[3].kind.Scheduled?;
  }

  /** A run whose log shows `a` performed and something scheduled since, continued by a restart with the ledger [a]. */
  lemma AloneReturns(cfg: Config, run: seq<Step>, a: Txn, k: nat, installed: map<string, Version>)
    requires IsRun(cfg, run) && IsRelevantStart(cfg, a)
    requires LastStartedAt(After(cfg, run).log, k, ActionId(a)) && ScheduledSince(After(cfg, run).log, k)
    ensures IsRun(cfg, run + [Restart(installed)] + [Replay([a])])
    ensures After(cfg, run + [Restart(installed)] + [Replay([a])]).scheduled == Some(UpgradeOf(cfg, a))
  {
    assert IsLastStart([a], 0) && !CancelledByString([a], 0);
    PerformedUpgradeReturnsExactly(cfg, run, installed, [a], 0, k);
  }

  /** A performed upgrade returns: `a` is performed, the forced START `b` is scheduled before it reaches the ledger, and
      the next restart with the ledger [a] schedules `a` again, for any two such STARTs. */
  lemma ForcedStartBringsUpgradeBack(cfg: Config, a: Txn, b: Txn, installed: map<string, Version>,
                                     later: map<string, Version>)
    requires IsRelevantStart(cfg, a) && !a.forced && IsRelevantStart(cfg, b) && b.forced
    requires ActionId(a) != ActionId(b)
    ensures var run := ForcedRun(cfg, a, b, installed) + [Restart(later)] + [Replay([a])];
      IsRun(cfg, run) && After(cfg, run).scheduled == Some(UpgradeOf(cfg, a))
  {
    ForcedRunLog(cfg, a, b, installed);
    AloneReturns(cfg, ForcedRun(cfg, a, b, installed), a, 1, later);
  }
}
