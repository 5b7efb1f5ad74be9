/** The upgrader object: fields that its handlers update in place. */
module UpgraderObject {
  import opened Common
  import opened UpgradeModel

  class Upgrader {
    const cfg: Config
    var scheduledAction: Option<Upgrade>
    var aqStash: multiset<Call>
    var sending: multiset<Send>
    var actionLog: seq<Event>

    ghost function View(): State
      reads this
    {
      State(scheduledAction, aqStash, sending, actionLog)
    }

    /** Start-up from the log that survived, given the versions now installed. */
    constructor (cfg: Config, log: seq<Event>, installed: map<string, Version>)
      ensures this.cfg == cfg && View() == Booted(log, installed)
    {
      this.cfg := cfg;
      scheduledAction, aqStash, sending := None, multiset{}, multiset{};
      actionLog := log;
      new;
      var last := LastEvent();
      if last.Some? && last.value.kind.Started? {
        var up := last.value.data;
        if up.pkg in installed && installed[up.pkg] == up.version {
          Append(Succeeded, up);
        } else {
          Append(Failed, up);
        }
      }
    }

    method LastEvent() returns (e: Option<Event>)
      ensures actionLog == [] ==> e.None?
      ensures actionLog != [] ==> e == Some(actionLog[|actionLog| - 1])
    {
      e := if actionLog != [] then Some(actionLog[|actionLog| - 1]) else None;
    }

    method Append(kind: EventKind, up: Upgrade)
      modifies this`actionLog
      ensures actionLog == old(actionLog) + [Event(kind, up)]
    {
      actionLog := actionLog + [Event(kind, up)];
    }

    method UnscheduleAction()
      modifies this`aqStash, this`scheduledAction
      ensures View() == Unschedule(old(View()))
    {
      aqStash := multiset{};
      scheduledAction := None;
    }

    method CancelScheduledUpgrade()
      modifies this
      ensures View() == CancelScheduled(old(View()))
    {
      if scheduledAction.Some? {
        var up := scheduledAction.value;
        UnscheduleAction();
        Append(Cancelled, up);
      }
    }

    method ScheduleUpgrade(up: Upgrade, failTimeout: int)
      modifies this
      ensures View() == Schedule(old(View()), up, failTimeout)
    {
      Append(Scheduled, up);
      scheduledAction := Some(up);
      aqStash := aqStash + multiset{CallAgent(up, failTimeout)};
    }

    method HandleUpgradeTxn(txn: Txn)
      modifies this
      ensures View() == HandleTxn(cfg, old(View()), txn)
    {
      if !txn.PoolUpgrade? {
        return;
      }
      var version := cfg.parse(PkgName(cfg, txn), txn.version);
      if version.None? {
        return;
      }
      if txn.action.Start? {
        if cfg.nodeId !in txn.schedule {
          return;
        }
        var last := LastEvent();
        if last.Some? && last.value.data.upgradeId == ActionId(txn) && IsFinal(last.value.kind) {
          return;
        }
        var up := Upgrade(txn.schedule[cfg.nodeId], version.value, ActionId(txn), PkgName(cfg, txn));
        if scheduledAction.Some? {
          if scheduledAction.value == up {
            return;
          }
          CancelScheduledUpgrade();
        }
        ScheduleUpgrade(up, FailTimeout(txn));
      } else if txn.action.Cancel? {
        if scheduledAction.Some? && scheduledAction.value.version == version.value {
          CancelScheduledUpgrade();
        }
      }
    }

    /** The timer of a scheduled upgrade fires; the queue has taken the call off the stash. */
    method CallUpgradeAgent(up: Upgrade, failTimeout: int)
      requires CallAgent(up, failTimeout) in aqStash
      modifies this
      ensures View() == AgentCalled(old(View()), up, failTimeout)
    {
      aqStash := aqStash - multiset{CallAgent(up, failTimeout)};
      Append(Started, up);
      scheduledAction := None;
      sending := sending + multiset{Send(up, failTimeout)};
    }

    /** Sends the request, retrying; `attempts` are the outcomes the network gives. */
    method SendUpgradeRequest(send: Send, attempts: seq<bool>)
      requires send in sending && |attempts| >= RETRY_LIMIT
      modifies this
      ensures View() == SendFinished(old(View()), send, attempts)
    {
      sending := sending - multiset{send};
      var retryLimit := RETRY_LIMIT;
      while retryLimit > 0
        invariant 0 <= retryLimit <= RETRY_LIMIT
        invariant forall i :: 0 <= i < RETRY_LIMIT - retryLimit ==> !attempts[i]
        invariant View() == old(View()).(sending := old(sending) - multiset{send})
      {
        if attempts[RETRY_LIMIT - retryLimit] {
          break;
        }
        retryLimit := retryLimit - 1;
      }
      if retryLimit == 0 {
        UnscheduleAction();
      } else {
        assert attempts[RETRY_LIMIT - retryLimit];
        aqStash := aqStash + multiset{TimesUp(send.up)};
      }
    }

    method DeclareTimeoutExceeded(up: Upgrade)
      requires TimesUp(up) in aqStash
      modifies this
      ensures View() == TimedOut(old(View()), up)
    {
      aqStash := aqStash - multiset{TimesUp(up)};
      var last := LastEvent();
      if last.Some? && last.value == Event(Failed, up) {
        return;
      }
      UnscheduleAction();
    }

    /** The first transaction from `startNo` (1-based) that satisfies `p`, going up or, in reverse, down. */
    method GetUpgradeTxn(ledger: seq<Txn>, p: Txn -> bool, startNo: Option<nat>, reverse: bool)
      returns (r: Option<Txn>)
      requires startNo.Some? ==> if reverse then startNo.value <= |ledger| else 1 <= startNo.value <= |ledger| + 1
      ensures var i := if reverse
                       then LastIndex(ledger, p, if startNo.Some? then startNo.value else |ledger|)
                       else FirstIndex(ledger, p, if startNo.Some? then startNo.value - 1 else 0);
        r == if i.Some? then Some(ledger[i.value]) else None
    {
      var inc: int := if reverse then -1 else 1;
      var seqNo: int := if startNo.Some? then startNo.value else if reverse then |ledger| else 1;
      ghost var first := seqNo;
      while if reverse then seqNo > 0 else seqNo <= |ledger|
        invariant if reverse then 0 <= seqNo <= first else first <= seqNo <= |ledger| + 1
        invariant reverse ==> LastIndex(ledger, p, seqNo) == LastIndex(ledger, p, first)
        invariant !reverse ==> FirstIndex(ledger, p, seqNo - 1) == FirstIndex(ledger, p, first - 1)
        decreases if reverse then seqNo else |ledger| + 1 - seqNo
      {
        var txn := ledger[seqNo - 1];
        if p(txn) {
          return Some(txn);
        }
        seqNo := seqNo + inc;
      }
      return None;
    }

    method ProcessLedger(ledger: seq<Txn>)
      requires WellNumbered(ledger)
      modifies this
      ensures View() == LedgerProcessed(cfg, old(View()), ledger)
    {
      var start := GetUpgradeTxn(ledger, IsStart, None, true);
      if start.Some? {
        var cancel := GetUpgradeTxn(ledger, t => CancelsString(t, start.value.version),
                                    Some(start.value.seqNo + 1), false);
        if cancel.Some? {
          return;
        }
        HandleUpgradeTxn(start.value);
      }
    }

    /** Feeds a committed batch; forced transactions were handled when they were received. */
    method CommitBatch(txns: seq<Txn>)
      modifies this
      ensures View() == BatchCommitted(cfg, old(View()), txns)
    {
      for i := 0 to |txns|
        invariant View() == BatchCommitted(cfg, old(View()), txns[..i])
      {
        assert txns[..i + 1][..i] == txns[..i];
        if !txns[i].forced {
          HandleUpgradeTxn(txns[i]);
        }
      }
      assert txns[..|txns|] == txns;
    }
  }
}
