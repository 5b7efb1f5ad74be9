/** The upgrade scheduler as a state machine: what is scheduled, which timed calls are pending,
    which requests to the control tool are under way, and the append-only action log. */
module UpgradeModel {
  import opened Common
  import Text

  type NodeId = string
  type Version = seq<int>  // release numbers; only equality matters here

  datatype Action = Start | Cancel | OtherAction

  /** A transaction of the config ledger.  `seqNo` 0 stands for a transaction not yet in the ledger. */
  datatype Txn =
    | PoolUpgrade(action: Action, version: string, pkg: Option<string>, schedule: map<NodeId, int>,
                  timeout: Option<int>, reqId: nat, seqNo: nat, forced: bool)
    | OtherTxn(seqNo: nat, forced: bool)

  /** The upgrade event data written to the log. */
  datatype Upgrade = Upgrade(when: int, version: Version, upgradeId: string, pkg: string)

  datatype EventKind = Scheduled | Started | Succeeded | Failed | Cancelled

  datatype Event = Event(kind: EventKind, data: Upgrade)

  /** A pending timed call: the agent call of an upgrade, or the check of its time limit. */
  datatype Call = CallAgent(up: Upgrade, failTimeout: int) | TimesUp(up: Upgrade)

  datatype Send = Send(up: Upgrade, failTimeout: int)

  datatype State = State(scheduled: Option<Upgrade>, pending: multiset<Call>,
                         sending: multiset<Send>, log: seq<Event>)

  /** What a node is configured with; `parse` turns a package's version string into a version. */
  datatype Config = Config(nodeId: NodeId, upgradeEntry: string, parse: (string, string) -> Option<Version>)

  const DEFAULT_TIMEOUT := 10
  const RETRY_LIMIT := 3

  function PkgName(cfg: Config, txn: Txn): string
    requires txn.PoolUpgrade?
  {
    if txn.pkg.Some? then txn.pkg.value else cfg.upgradeEntry
  }

  function ParsedVersion(cfg: Config, txn: Txn): Option<Version>
    requires txn.PoolUpgrade?
  {
    cfg.parse(PkgName(cfg, txn), txn.version)
  }

  function ActionId(txn: Txn): string
    requires txn.PoolUpgrade?
  {
    Text.Decimal(txn.reqId) + if txn.forced || txn.seqNo == 0 then "" else Text.Decimal(txn.seqNo)
  }

  predicate IsStart(txn: Txn) { txn.PoolUpgrade? && txn.action.Start? }

  predicate IsCancel(txn: Txn) { txn.PoolUpgrade? && txn.action.Cancel? }

  /** A START this node can act on: it names the node and its version is valid. */
  predicate IsRelevantStart(cfg: Config, txn: Txn) {
    IsStart(txn) && ParsedVersion(cfg, txn).Some? && cfg.nodeId in txn.schedule
  }

  function UpgradeOf(cfg: Config, txn: Txn): Upgrade
    requires IsRelevantStart(cfg, txn)
  {
    Upgrade(txn.schedule[cfg.nodeId], ParsedVersion(cfg, txn).value, ActionId(txn), PkgName(cfg, txn))
  }

  function FailTimeout(txn: Txn): int
    requires txn.PoolUpgrade?
  {
    if txn.timeout.Some? then txn.timeout.value else DEFAULT_TIMEOUT
  }

  predicate IsFinal(kind: EventKind) { kind.Succeeded? || kind.Failed? }

  predicate AlreadyPerformed(log: seq<Event>, upgradeId: string) {
    log != [] && log[|log| - 1].data.upgradeId == upgradeId && IsFinal(log[|log| - 1].kind)
  }

  // ----- the operations -----

  function Unschedule(s: State): State {
    s.(scheduled := None, pending := multiset{})
  }

  function CancelScheduled(s: State): State {
    if s.scheduled.None? then s
    else Unschedule(s).(log := s.log + [Event(Cancelled, s.scheduled.value)])
  }

  function Schedule(s: State, up: Upgrade, failTimeout: int): State {
    s.(scheduled := Some(up),
       pending := s.pending + multiset{CallAgent(up, failTimeout)},
       log := s.log + [Event(Scheduled, up)])
  }

  function HandleTxn(cfg: Config, s: State, txn: Txn): State {
    if !txn.PoolUpgrade? then s
    else if ParsedVersion(cfg, txn).None? then s
    else match txn.action
      case Start =>
        if cfg.nodeId !in txn.schedule || AlreadyPerformed(s.log, ActionId(txn)) then s
        else
          var up := UpgradeOf(cfg, txn);
          if s.scheduled == Some(up) then s else Schedule(CancelScheduled(s), up, FailTimeout(txn))
      case Cancel =>
        if s.scheduled.Some? && s.scheduled.value.version == ParsedVersion(cfg, txn).value
        then CancelScheduled(s)
        else s
      case OtherAction => s
  }

  /** The agent call of `up` fires: the upgrade starts and its request is sent. */
  function AgentCalled(s: State, up: Upgrade, failTimeout: int): State {
    s.(scheduled := None,
       pending := s.pending - multiset{CallAgent(up, failTimeout)},
       sending := s.sending + multiset{Send(up, failTimeout)},
       log := s.log + [Event(Started, up)])
  }

  /** Some attempt within the retry limit got through. */
  predicate Delivered(attempts: seq<bool>) {
    exists i :: 0 <= i < |attempts| && i < RETRY_LIMIT && attempts[i]
  }

  function SendFinished(s: State, send: Send, attempts: seq<bool>): State {
    var s' := s.(sending := s.sending - multiset{send});
    if Delivered(attempts) then s'.(pending := s.pending + multiset{TimesUp(send.up)}) else Unschedule(s')
  }

  function TimedOut(s: State, up: Upgrade): State {
    var s' := s.(pending := s.pending - multiset{TimesUp(up)});
    if s.log != [] && s.log[|s.log| - 1] == Event(Failed, up) then s' else Unschedule(s')
  }

  /** The log after start-up: an upgrade that had started is closed by comparing installed versions. */
  function ClosedLog(log: seq<Event>, installed: map<string, Version>): seq<Event> {
    if log == [] || !log[|log| - 1].kind.Started? then log
    else
      var up := log[|log| - 1].data;
      var ok := up.pkg in installed && installed[up.pkg] == up.version;
      log + [Event(if ok then Succeeded else Failed, up)]
  }

  function Booted(log: seq<Event>, installed: map<string, Version>): State {
    State(None, multiset{}, multiset{}, ClosedLog(log, installed))
  }

  // ----- ledger search -----

  /** The last index below `upto` whose transaction satisfies `p`. */
  function LastIndex(ledger: seq<Txn>, p: Txn -> bool, upto: nat): (r: Option<nat>)
    requires upto <= |ledger|
    ensures r.Some? ==> r.value < upto && p(ledger[r.value])
    ensures r.Some? ==> forall j :: r.value < j < upto ==> !p(ledger[j])
    ensures r.None? ==> forall j :: 0 <= j < upto ==> !p(ledger[j])
  {
    if upto == 0 then None
    else if p(ledger[upto - 1]) then Some(upto - 1)
    else LastIndex(ledger, p, upto - 1)
  }

  /** The first index from `from` on whose transaction satisfies `p`. */
  function FirstIndex(ledger: seq<Txn>, p: Txn -> bool, from: nat): (r: Option<nat>)
    requires from <= |ledger|
    ensures r.Some? ==> from <= r.value < |ledger| && p(ledger[r.value])
    ensures r.Some? ==> forall j :: from <= j < r.value ==> !p(ledger[j])
    ensures r.None? ==> forall j :: from <= j < |ledger| ==> !p(ledger[j])
    decreases |ledger| - from
  {
    if from == |ledger| then None
    else if p(ledger[from]) then Some(from)
    else FirstIndex(ledger, p, from + 1)
  }

  ghost predicate WellNumbered(ledger: seq<Txn>) {
    forall i :: 0 <= i < |ledger| ==> ledger[i].seqNo == i + 1
  }

  predicate CancelsString(txn: Txn, version: string) {
    IsCancel(txn) && txn.version == version
  }

  /** Cold replay of the config ledger. */
  function LedgerProcessed(cfg: Config, s: State, ledger: seq<Txn>): State {
    var last := LastIndex(ledger, IsStart, |ledger|);
    if last.None? then s
    else
      var start := ledger[last.value];
      var cancel := FirstIndex(ledger, t => CancelsString(t, start.version), last.value + 1);
      if cancel.Some? then s else HandleTxn(cfg, s, start)
  }

  /** A committed batch: every unforced transaction in order. */
  function BatchCommitted(cfg: Config, s: State, txns: seq<Txn>): State {
    if txns == [] then s
    else
      var s' := BatchCommitted(cfg, s, txns[..|txns| - 1]);
      var txn := txns[|txns| - 1];
      if txn.forced then s' else HandleTxn(cfg, s', txn)
  }

  // ----- steps and runs -----

  datatype Step =
    | Handle(txn: Txn)
    | Commit(txns: seq<Txn>)
    | Replay(ledger: seq<Txn>)
    | FireAgent(up: Upgrade, failTimeout: int)
    | FinishSend(send: Send, attempts: seq<bool>)
    | FireTimesUp(up: Upgrade)
    | Restart(installed: map<string, Version>)

  predicate Enabled(s: State, step: Step) {
    match step
    case FireAgent(up, t) => CallAgent(up, t) in s.pending
    case FinishSend(send, _) => send in s.sending
    case FireTimesUp(up) => TimesUp(up) in s.pending
    case _ => true
  }

  function Next(cfg: Config, s: State, step: Step): State {
    match step
    case Handle(txn) => HandleTxn(cfg, s, txn)
    case Commit(txns) => BatchCommitted(cfg, s, txns)
    case Replay(ledger) => LedgerProcessed(cfg, s, ledger)
    case FireAgent(up, t) => AgentCalled(s, up, t)
    case FinishSend(send, attempts) => SendFinished(s, send, attempts)
    case FireTimesUp(up) => TimedOut(s, up)
    case Restart(installed) => Booted(s.log, installed)
  }

  const EMPTY_STATE := State(None, multiset{}, multiset{}, [])

  /** The state after a run from an empty log. */
  function After(cfg: Config, run: seq<Step>): State {
    if run == [] then EMPTY_STATE else Next(cfg, After(cfg, run[..|run| - 1]), run[|run| - 1])
  }

  /** Every step of the run was enabled when it was taken. */
  ghost predicate IsRun(cfg: Config, run: seq<Step>) {
    run == [] ||
    (IsRun(cfg, run[..|run| - 1]) && Enabled(After(cfg, run[..|run| - 1]), run[|run| - 1]))
  }
}
