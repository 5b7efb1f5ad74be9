/** Upgrade ids: the request id and the sequence number of a START, written one after the other. */
module UpgradeIds {
  import opened Common
  import opened Text
  import opened UpgradeModel
  import opened UpgradeRuns
  import opened UpgradeReplay

  /** A START that was committed to the ledger: its number is part of its id. */
  predicate Committed(txn: Txn) {
    IsStart(txn) && !txn.forced && txn.seqNo > 0
  }

  /** What follows the request id: the sequence number, or nothing for a forced START or one not yet in the ledger. */
  function Suffix(txn: Txn): string
    requires IsStart(txn)
  {
    if txn.forced || txn.seqNo == 0 then "" else Decimal(txn.seqNo)
  }

  /** The request id of `b` goes on after that of `a`, by what the sequence number of `a` begins with. */
  predicate Continues(a: Txn, b: Txn, t: string)
    requires IsStart(a) && IsStart(b)
  {
    Decimal(b.reqId) == Decimal(a.reqId) + t && Suffix(a) == t + Suffix(b)
  }

  lemma SameConcatenation(p: string, x: string, q: string, y: string)
    requires |p| <= |q|
    ensures p + x == q + y <==> q == p + q[|p|..] && x == q[|p|..] + y
  {
    var t := q[|p|..];
    assert p + (t + y) == (p + t) + y;
    if p + x == q + y {
      assert p == (p + x)[..|p|] == (q + y)[..|p|] == q[..|p|];
      assert x == (p + x)[|p|..] == (q + y)[|p|..] == t + y;
    }
  }

  /** Exactly when two STARTs share their id, forced or not: nothing separates the two numbers, so the digits of one
      request id may go on into the other's sequence number. */
  lemma SharedIdExactly(a: Txn, b: Txn)
    requires IsStart(a) && IsStart(b) && |Decimal(a.reqId)| <= |Decimal(b.reqId)|
    ensures ActionId(a) == ActionId(b) <==> exists t :: Continues(a, b, t)
  {
    var p, q := Decimal(a.reqId), Decimal(b.reqId);
    SameConcatenation(p, Suffix(a), q, Suffix(b));
    if ActionId(a) == ActionId(b) {
      assert Continues(a, b, q[|p|..]);
    }
    if t :| Continues(a, b, t) {
      assert t == q[|p|..];
    }
  }

  /** With request ids of the same length the id identifies a committed START. */
  lemma IdIdentifiesStart(a: Txn, b: Txn)
    requires Committed(a) && Committed(b) && |Decimal(a.reqId)| == |Decimal(b.reqId)|
    ensures ActionId(a) == ActionId(b) <==> a.reqId == b.reqId && a.seqNo == b.seqNo
  {
    SharedIdExactly(a, b);
    DecimalInjective(a.reqId, b.reqId);
    DecimalInjective(a.seqNo, b.seqNo);
    if t :| Continues(a, b, t) {
      assert t == "";
      assert t + Decimal(b.seqNo) == Decimal(b.seqNo);
    }
    if a.reqId == b.reqId && a.seqNo == b.seqNo {
      assert ActionId(a) == ActionId(b);
    }
  }

  /** A forced START never shares its id with a committed one whose request id is at least as long. */
  lemma ForcedIdDiffers(a: Txn, b: Txn)
    requires IsStart(a) && a.forced && Committed(b) && |Decimal(a.reqId)| <= |Decimal(b.reqId)|
    ensures ActionId(a) != ActionId(b)
  {
    assert |ActionId(b)| == |Decimal(b.reqId)| + |Decimal(b.seqNo)|;
  }

  /** Upgrade `a` has been performed and the node restarted. */
  function PerformedRun(cfg: Config, a: Txn, installed: map<string, Version>): seq<Step>
    requires IsRelevantStart(cfg, a)
  {
    StartRun(cfg, a) + [Restart(installed)]
  }

  lemma PerformedState(cfg: Config, a: Txn, installed: map<string, Version>)
    requires IsRelevantStart(cfg, a)
    ensures IsRun(cfg, PerformedRun(cfg, a, installed))
    ensures var s := After(cfg, PerformedRun(cfg, a, installed));
      && s.scheduled.None? && |s.log| == 3
      && s.log[2].data == UpgradeOf(cfg, a) && IsFinal(s.log[2].kind)
  {
    var up := UpgradeOf(cfg, a);
    var log := [Event(Scheduled, up), Event(Started, up)];
    var s := State(None, multiset{TimesUp(up)}, multiset{}, log);
    ClosedAfterStart(up, installed);
    StartRunWaits(cfg, a);
    ExtendRun(cfg, StartRun(cfg, a), Restart(installed), s, Booted(log, installed));
  }

  /** What handling `b` schedules then: its upgrade, exactly when its id is not the one of `a`. */
  lemma LaterStartIsScheduledExactly(cfg: Config, a: Txn, b: Txn, installed: map<string, Version>)
    requires IsRelevantStart(cfg, a) && IsRelevantStart(cfg, b)
    ensures var run := PerformedRun(cfg, a, installed) + [Handle(b)];
      && IsRun(cfg, run)
      && After(cfg, run).scheduled == if ActionId(a) != ActionId(b) then Some(UpgradeOf(cfg, b)) else None
  {
    var run := PerformedRun(cfg, a, installed);
    PerformedState(cfg, a, installed);
    var s := After(cfg, run);
    if ActionId(a) != ActionId(b) {
      UnperformedSchedules(cfg, s, b);
    }
    ExtendRun(cfg, run, Handle(b), s, HandleTxn(cfg, s, b));
  }

  /** Request 12 at number 3 and request 1 at number 23 share the id "123", whatever they upgrade to. */
  lemma TwelveThreeIsOneTwentyThree(a: Txn, b: Txn)
    requires Committed(a) && a.reqId == 12 && a.seqNo == 3
    requires Committed(b) && b.reqId == 1 && b.seqNo == 23
    ensures ActionId(a) == "123" == ActionId(b)
  {
    assert Decimal(12) == Decimal(1) + [DigitChar(2)] && Decimal(23) == Decimal(2) + [DigitChar(3)];
    assert Decimal(1) == "1" && Decimal(2) == "2" && Decimal(3) == "3";
  }

  /** So does a forced request 123, which has no number. */
  lemma TwelveThreeIsForced(a: Txn, b: Txn)
    requires Committed(a) && a.reqId == 12 && a.seqNo == 3
    requires IsStart(b) && b.forced && b.reqId == 123
    ensures ActionId(a) == ActionId(b)
  {
    assert Decimal(123) == Decimal(12) + [DigitChar(3)] && Decimal(3) == [DigitChar(3)];
  }

  /** So the later of the two is taken for an upgrade already performed and is not scheduled. */
  lemma SharedIdHidesUpgrade(cfg: Config, a: Txn, b: Txn, installed: map<string, Version>)
    requires IsRelevantStart(cfg, a) && Committed(a) && a.reqId == 12 && a.seqNo == 3
    requires IsRelevantStart(cfg, b)
    requires (Committed(b) && b.reqId == 1 && b.seqNo == 23) || (b.forced && b.reqId == 123)
    ensures After(cfg, PerformedRun(cfg, a, installed) + [Handle(b)]).scheduled.None?
  {
    if b.forced {
      TwelveThreeIsForced(a, b);
    } else {
      TwelveThreeIsOneTwentyThree(a, b);
    }
    LaterStartIsScheduledExactly(cfg, a, b, installed);
  }
}
