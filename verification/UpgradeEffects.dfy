/** What single steps of the upgrade scheduler do, written out on the fields of transactions and states. */
module UpgradeEffects {
  import opened Common
  import opened UpgradeModel
  import opened UpgradeRuns
  import Text

  // ----- start-up -----

  /** A restart of any run closes an upgrade that had started, as succeeded exactly when the installed version of its
      package is its version and as failed otherwise; it leaves any other log alone, and nothing else survives. */
  lemma RestartClosesExactly(cfg: Config, run: seq<Step>, installed: map<string, Version>)
    requires IsRun(cfg, run)
    ensures var run' := run + [Restart(installed)];
      var log, s := After(cfg, run).log, After(cfg, run');
      && IsRun(cfg, run') && s.scheduled.None? && s.pending == multiset{} && s.sending == multiset{}
      && if log != [] && log[|log| - 1].kind == Started
         then var up := log[|log| - 1].data;
           var done := up.pkg in installed && installed[up.pkg] == up.version;
           s.log == log + [Event(if done then Succeeded else Failed, up)]
         else s.log == log
  {
    var s := After(cfg, run);
    ExtendRun(cfg, run, Restart(installed), s, Next(cfg, s, Restart(installed)));
  }

  // ----- transactions -----

  /** The upgrade that a START stands for on a node: its time there, its version, request id and number as one text, and
      its package, which is the node's own unless the transaction names one. */
  ghost predicate StandsFor(cfg: Config, txn: Txn, up: Upgrade) {
    && txn.PoolUpgrade? && cfg.nodeId in txn.schedule
    && up.when == txn.schedule[cfg.nodeId]
    && up.pkg == (match txn.pkg case Some(name) => name case None => cfg.upgradeEntry)
    && cfg.parse(up.pkg, txn.version) == Some(up.version)
    && up.upgradeId == Text.Decimal(txn.reqId)
         + if !txn.forced && txn.seqNo > 0 then Text.Decimal(txn.seqNo) else ""
  }

  /** A START on a node with nothing scheduled, whose outcome is not the last record: its upgrade is scheduled, its call
      is pending with the time limit it names or else ten minutes, and the schedule is recorded. */
  lemma StartOnIdleNode(cfg: Config, s: State, txn: Txn, up: Upgrade)
    requires StandsFor(cfg, txn, up) && txn.action == Start && s.scheduled.None?
    requires s.log != [] ==>
      var last := s.log[|s.log| - 1]; last.kind in {Succeeded, Failed} ==> last.data.upgradeId != up.upgradeId
    ensures var limit := match txn.timeout case Some(t) => t case None => 10;
      HandleTxn(cfg, s, txn) == State(Some(up), s.pending + multiset{CallAgent(up, limit)}, s.sending,
                                      s.log + [Event(Scheduled, up)])
  {
  }

  /** A START on a node with another upgrade scheduled: that one is cancelled on record, the queue holds the new call
      alone, and the schedule is recorded. */
  lemma StartReplaces(cfg: Config, s: State, txn: Txn, was: Upgrade, up: Upgrade)
    requires Inv(s) && StandsFor(cfg, txn, up) && txn.action == Start && s.scheduled == Some(was) && was != up
    ensures var limit := match txn.timeout case Some(t) => t case None => 10;
      HandleTxn(cfg, s, txn) == State(Some(up), multiset{CallAgent(up, limit)}, s.sending,
                                      s.log + [Event(Cancelled, was), Event(Scheduled, up)])
  {
    assert s.log + [Event(Cancelled, was)] + [Event(Scheduled, up)]
        == s.log + [Event(Cancelled, was), Event(Scheduled, up)];
  }

  /** A START whose outcome is the last record, one that leaves the node out, and one whose version is not valid
      change nothing. */
  lemma StartDisregarded(cfg: Config, s: State, txn: Txn)
    requires txn.PoolUpgrade? && txn.action == Start
    requires
      || cfg.nodeId !in txn.schedule
      || cfg.parse(match txn.pkg case Some(name) => name case None => cfg.upgradeEntry, txn.version).None?
      || (exists up :: StandsFor(cfg, txn, up) && s.log != [] && s.log[|s.log| - 1].data.upgradeId == up.upgradeId
                       && s.log[|s.log| - 1].kind in {Succeeded, Failed})
    ensures HandleTxn(cfg, s, txn) == s
  {
  }

  /** A CANCEL of the scheduled version empties the schedule and the queue, on record; any other changes nothing. */
  lemma CancelEffect(cfg: Config, s: State, txn: Txn)
    requires txn.PoolUpgrade? && txn.action == Cancel
    ensures var pkg := match txn.pkg case Some(name) => name case None => cfg.upgradeEntry;
      HandleTxn(cfg, s, txn) ==
        if s.scheduled.Some? && cfg.parse(pkg, txn.version) == Some(s.scheduled.value.version)
        then State(None, multiset{}, s.sending, s.log + [Event(Cancelled, s.scheduled.value)])
        else s
  {
  }

  /** Transactions of other types or with other actions change nothing. */
  lemma OthersIgnored(cfg: Config, s: State, txn: Txn)
    requires txn.PoolUpgrade? ==> txn.action == OtherAction
    ensures HandleTxn(cfg, s, txn) == s
  {
  }

  /** Handling a transaction again, with nothing in between, changes nothing. */
  lemma HandleIsIdempotent(cfg: Config, s: State, txn: Txn)
    ensures HandleTxn(cfg, HandleTxn(cfg, s, txn), txn) == HandleTxn(cfg, s, txn)
  {
    if IsRelevantStart(cfg, txn) {
      StartSettles(cfg, s, txn);
    }
  }

  lemma StartSettles(cfg: Config, s: State, txn: Txn)
    requires IsRelevantStart(cfg, txn)
    ensures HandleTxn(cfg, s, txn) == s || HandleTxn(cfg, s, txn).scheduled == Some(UpgradeOf(cfg, txn))
  {
  }

  // ----- batches -----

  function Unforced(txns: seq<Txn>): seq<Txn> {
    if txns == [] then []
    else
      var before, txn := txns[..|txns| - 1], txns[|txns| - 1];
      Unforced(before) + if txn.forced then [] else [txn]
  }

  /** A batch does what its unforced transactions do alone; forced ones were handled when they were received. */
  lemma {:induction false} ForcedAreSkipped(cfg: Config, s: State, txns: seq<Txn>)
    ensures BatchCommitted(cfg, s, txns) == BatchCommitted(cfg, s, Unforced(txns))
  {
    if txns != [] {
      var before, txn := txns[..|txns| - 1], txns[|txns| - 1];
      ForcedAreSkipped(cfg, s, before);
      if txn.forced {
        assert Unforced(before) + [] == Unforced(before);
      } else {
        assert Unforced(txns)[..|Unforced(txns)| - 1] == Unforced(before);
        UnforcedAre(txns, |Unforced(txns)| - 1);
      }
    }
  }

  lemma {:induction false} UnforcedAre(txns: seq<Txn>, i: nat)
    requires i < |Unforced(txns)|
    ensures !Unforced(txns)[i].forced
  {
    var before := txns[..|txns| - 1];
    if i < |Unforced(before)| {
      UnforcedAre(before, i);
    }
  }

  /** A batch after a batch does what the two do as one. */
  lemma {:induction false} BatchesCompose(cfg: Config, s: State, a: seq<Txn>, b: seq<Txn>)
    ensures BatchCommitted(cfg, BatchCommitted(cfg, s, a), b) == BatchCommitted(cfg, s, a + b)
  {
    if b == [] {
      assert a + b == a;
    } else {
      BatchesCompose(cfg, s, a, b[..|b| - 1]);
      assert (a + b)[..|a + b| - 1] == a + b[..|b| - 1];
    }
  }

  // ----- sending -----

  /** A request gets three attempts. */
  lemma ThreeAttempts(attempts: seq<bool>)
    ensures Delivered(attempts) <==>
      || (|attempts| > 0 && attempts[0])
      || (|attempts| > 1 && attempts[1])
      || (|attempts| > 2 && attempts[2])
  {
  }

  /** One that gets through sets the time limit of its upgrade and leaves the schedule alone; one that does not empties
      the schedule and the queue.  The log is not touched. */
  lemma SendEffect(s: State, up: Upgrade, limit: int, attempts: seq<bool>)
    requires Send(up, limit) in s.sending && |attempts| >= 3
    ensures var rest := s.sending - multiset{Send(up, limit)};
      SendFinished(s, Send(up, limit), attempts) ==
        if attempts[0] || attempts[1] || attempts[2]
        then State(s.scheduled, s.pending + multiset{TimesUp(up)}, rest, s.log)
        else State(None, multiset{}, rest, s.log)
  {
    ThreeAttempts(attempts);
  }

  /** When the timer of an upgrade fires, in any run, its start is recorded, the schedule is empty, its call is off the
      queue and its request is under way with the same time limit. */
  lemma AgentEffect(cfg: Config, run: seq<Step>, up: Upgrade, limit: int)
    requires IsRun(cfg, run) && CallAgent(up, limit) in After(cfg, run).pending
    ensures var s, s' := After(cfg, run), Next(cfg, After(cfg, run), FireAgent(up, limit));
      && s.scheduled == Some(up) && s'.scheduled.None? && s'.log == s.log + [Event(Started, up)]
      && s'.sending == s.sending + multiset{Send(up, limit)}
      && s'.pending + multiset{CallAgent(up, limit)} == s.pending
      && forall call :: call in s'.pending ==> call.TimesUp?
  {
    EveryRunIsSafe(cfg, run);
  }
}
