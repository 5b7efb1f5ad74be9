/** Pool version voting: nodes report completed upgrades until more than f of them agree. */
module PoolVersion {
  import opened Common
  import opened Text
  import opened Releases

  datatype Txn =
    | UpgradeStart(scheduled: nat)  // POOL_UPGRADE with action start, and the size of its schedule
    | Complete(version: string, sender: string, time: int)  // NODE_UPGRADE with action complete
    | OtherTxn

  datatype State = State(f: int, votes: map<string, set<string>>, versions: map<int, string>)

  const INITIAL := State(0, map[], map[])

  function Votes(s: State, v: string): set<string> {
    if v in s.votes then s.votes[v] else {}
  }

  predicate Adopts(s: State, txn: Txn) {
    txn.Complete? && |Votes(s, txn.version) + {txn.sender}| > s.f
  }

  /** The number of faulty nodes a pool of `n` tolerates; the division floors, so an empty schedule gives -1. */
  function MaxFaulty(n: nat): int { (n - 1) / 3 }

  function Updated(s: State, txn: Txn): State {
    match txn
    case UpgradeStart(n) => s.(f := MaxFaulty(n))
    case Complete(v, sender, time) =>
      var votes := s.votes[v := Votes(s, v) + {sender}];
      if Adopts(s, txn)
      then State(s.f, map w | w in votes && StrLess(v, w) :: votes[w], s.versions[time := v])
      else s.(votes := votes)
    case OtherTxn => s
  }

  function After(run: seq<Txn>): State {
    if run == [] then INITIAL else Updated(After(run[..|run| - 1]), run[|run| - 1])
  }

  // ----- votes -----

  /** Step `j` of the run adopted some version that is `v` or greater. */
  ghost predicate AdoptsAtLeast(run: seq<Txn>, j: nat, v: string)
    requires j < |run|
  {
    Adopts(After(run[..j]), run[j]) && !StrLess(run[j].version, v)
  }

  /** `sender` reported `v` at step `i`, and no version `v` or greater has been adopted since. */
  ghost predicate StandingVote(run: seq<Txn>, i: int, v: string, sender: string) {
    && 0 <= i < |run|
    && run[i].Complete? && run[i].version == v && run[i].sender == sender
    && forall j :: i <= j < |run| ==> !AdoptsAtLeast(run, j, v)
  }

  lemma StandingVoteExtends(run: seq<Txn>, txn: Txn, i: int, v: string, sender: string)
    requires 0 <= i < |run|
    ensures StandingVote(run + [txn], i, v, sender) <==>
            StandingVote(run, i, v, sender) && !(Adopts(After(run), txn) && !StrLess(txn.version, v))
  {
    var run' := run + [txn];
    assert run'[..|run|] == run;
    assert forall j :: 0 <= j < |run| ==> run'[j] == run[j] && run'[..j] == run[..j];
    assert forall j :: 0 <= j < |run| ==> (AdoptsAtLeast(run', j, v) <==> AdoptsAtLeast(run, j, v));
    assert AdoptsAtLeast(run', |run|, v) <==> (Adopts(After(run), txn) && !StrLess(txn.version, v));
  }

  /** One transaction: votes for `v` are cleared by adopting `v` or more, and gain the sender of a report of `v`. */
  lemma VotesStep(s: State, txn: Txn, v: string, sender: string)
    ensures sender in Votes(Updated(s, txn), v) <==>
      && !(Adopts(s, txn) && !StrLess(txn.version, v))
      && (sender in Votes(s, v) || (txn.Complete? && txn.version == v && txn.sender == sender))
  {
  }

  /** In every run the votes held for `v` are exactly the senders that reported `v` since the last adoption
      of any version `v` or greater. */
  lemma {:induction false} VotesAreStandingReports(run: seq<Txn>, v: string, sender: string)
    ensures sender in Votes(After(run), v) <==> exists i :: StandingVote(run, i, v, sender)
  {
    if run != [] {
      var n := |run| - 1;
      var before, txn := run[..n], run[n];
      assert run == before + [txn];
      VotesAreStandingReports(before, v, sender);
      VotesStep(After(before), txn, v, sender);
      StandingVoteNew(before, txn, v, sender);
      if sender in Votes(After(run), v) {
        if sender in Votes(After(before), v) {
          var i :| StandingVote(before, i, v, sender);
          StandingVoteExtends(before, txn, i, v, sender);
          assert StandingVote(run, i, v, sender);
        } else {
          assert StandingVote(run, n, v, sender);
        }
      }
      if i :| StandingVote(run, i, v, sender) {
        if i < n {
          StandingVoteExtends(before, txn, i, v, sender);
        }
      }
    }
  }

  lemma StandingVoteNew(run: seq<Txn>, txn: Txn, v: string, sender: string)
    ensures StandingVote(run + [txn], |run|, v, sender) <==>
      && txn.Complete? && txn.version == v && txn.sender == sender
      && !(Adopts(After(run), txn) && !StrLess(txn.version, v))
  {
    assert (run + [txn])[..|run|] == run;
    assert AdoptsAtLeast(run + [txn], |run|, v) <==> (Adopts(After(run), txn) && !StrLess(txn.version, v));
  }

  // ----- quorum -----

  lemma FaultBoundStep(s: State, txn: Txn)
    ensures Updated(s, txn).f == if txn.UpgradeStart? then MaxFaulty(txn.scheduled) else s.f
  {
  }

  /** f comes from the latest START of the run. */
  lemma {:induction false} FaultBoundFromLatestStart(run: seq<Txn>, i: nat)
    requires i < |run| && run[i].UpgradeStart? && forall j :: i < j < |run| ==> !run[j].UpgradeStart?
    ensures After(run).f == MaxFaulty(run[i].scheduled)
  {
    var n := |run| - 1;
    FaultBoundStep(After(run[..n]), run[n]);
    if i < n {
      FaultBoundFromLatestStart(run[..n], i);
    }
  }

  /** Before any START it is 0. */
  lemma {:induction false} FaultBoundWithoutStart(run: seq<Txn>)
    requires forall j :: 0 <= j < |run| ==> !run[j].UpgradeStart?
    ensures After(run).f == 0
  {
    if run != [] {
      FaultBoundWithoutStart(run[..|run| - 1]);
      FaultBoundStep(After(run[..|run| - 1]), run[|run| - 1]);
    }
  }

  lemma OutvotesFaulty(senders: set<string>, faulty: set<string>)
    requires |senders| > |faulty|
    ensures exists s :: s in senders && s !in faulty
  {
    if forall s :: s in senders ==> s in faulty {
      assert senders <= faulty;
      Subset(senders, faulty);
    }
  }

  lemma {:induction false} Subset(a: set<string>, b: set<string>)
    requires a <= b
    ensures |a| <= |b|
  {
    if a != {} {
      var x :| x in a;
      Subset(a - {x}, b - {x});
    }
  }

  /** Every adoption rests on more than f distinct senders, so if at most f senders are faulty, some correct
      node reported the adopted version and its report still stood. */
  lemma AdoptionHasCorrectReporter(run: seq<Txn>, txn: Txn, faulty: set<string>)
    requires Adopts(After(run), txn) && |faulty| <= After(run).f
    ensures exists s :: s !in faulty && (s == txn.sender || exists i :: StandingVote(run, i, txn.version, s))
  {
    var senders := Votes(After(run), txn.version) + {txn.sender};
    OutvotesFaulty(senders, faulty);
    var s :| s in senders && s !in faulty;
    VotesAreStandingReports(run, txn.version, s);
  }

  /** Every recorded version was adopted at its time by some step of the run. */
  lemma {:induction false} RecordedVersionsWereAdopted(run: seq<Txn>, t: int)
    requires t in After(run).versions
    ensures exists i :: 0 <= i < |run| && Adopts(After(run[..i]), run[i])
              && run[i].time == t && run[i].version == After(run).versions[t]
  {
    var n := |run| - 1;
    var before, txn := run[..n], run[n];
    if Adopts(After(before), txn) && txn.time == t {
      assert run[..n] == before;
    } else {
      RecordedVersionsWereAdopted(before, t);
      var i :| 0 <= i < |before| && Adopts(After(before[..i]), before[i])
               && before[i].time == t && before[i].version == After(before).versions[t];
      assert before[..i] == run[..i] && before[i] == run[i];
    }
  }

  /** Step `i` of the run is the last that adopted a version at time `t`. */
  ghost predicate LastAdoptionAt(run: seq<Txn>, i: int, t: int) {
    && 0 <= i < |run| && Adopts(After(run[..i]), run[i]) && run[i].time == t
    && forall j :: i < j < |run| && Adopts(After(run[..j]), run[j]) ==> run[j].time != t
  }

  lemma LastAdoptionExtends(run: seq<Txn>, txn: Txn, i: int, t: int)
    requires 0 <= i < |run|
    ensures LastAdoptionAt(run + [txn], i, t)
       <==> LastAdoptionAt(run, i, t) && !(Adopts(After(run), txn) && txn.time == t)
  {
    var run' := run + [txn];
    assert run'[..|run|] == run && run'[|run|] == txn;
    assert forall j :: 0 <= j < |run| ==> run'[j] == run[j] && run'[..j] == run[..j];
    if LastAdoptionAt(run, i, t) && !(Adopts(After(run), txn) && txn.time == t) {
      forall j | i < j < |run'| && Adopts(After(run'[..j]), run'[j]) ensures run'[j].time != t {
        assert j < |run| ==> Adopts(After(run[..j]), run[j]);
      }
    }
    if LastAdoptionAt(run', i, t) {
      forall j | i < j < |run| && Adopts(After(run[..j]), run[j]) ensures run[j].time != t {
        assert Adopts(After(run'[..j]), run'[j]);
      }
      assert Adopts(After(run), txn) ==> Adopts(After(run'[..|run|]), run'[|run|]);
    }
  }

  lemma RecordStep(s: State, txn: Txn, t: int)
    ensures Adopts(s, txn) && txn.time == t ==>
      t in Updated(s, txn).versions && Updated(s, txn).versions[t] == txn.version
    ensures !(Adopts(s, txn) && txn.time == t) ==>
      && (t in Updated(s, txn).versions <==> t in s.versions)
      && (t in s.versions ==> Updated(s, txn).versions[t] == s.versions[t])
  {
  }

  /** Every adoption is recorded: at its time stands the version that was adopted last at that time. */
  lemma {:induction false} AdoptionsAreRecorded(run: seq<Txn>, i: nat, t: int)
    requires LastAdoptionAt(run, i, t)
    ensures t in After(run).versions && After(run).versions[t] == run[i].version
  {
    var n := |run| - 1;
    var before, txn := run[..n], run[n];
    assert run == before + [txn];
    RecordStep(After(before), txn, t);
    if i < n {
      LastAdoptionExtends(before, txn, i, t);
      AdoptionsAreRecorded(before, i, t);
    }
  }

  /** The record is exactly that. */
  lemma {:induction false} RecordedExactly(run: seq<Txn>, t: int)
    ensures t in After(run).versions <==> exists i :: LastAdoptionAt(run, i, t)
  {
    if i :| LastAdoptionAt(run, i, t) {
      AdoptionsAreRecorded(run, i, t);
    }
    if run != [] && t in After(run).versions {
      var n := |run| - 1;
      var before, txn := run[..n], run[n];
      assert run == before + [txn];
      RecordStep(After(before), txn, t);
      if Adopts(After(before), txn) && txn.time == t {
        assert LastAdoptionAt(run, n, t);
      } else {
        RecordedExactly(before, t);
        var i :| LastAdoptionAt(before, i, t);
        LastAdoptionExtends(before, txn, i, t);
        assert LastAdoptionAt(run, i, t);
      }
    }
  }

  /** A report is an adoption exactly when, counting it, more than f distinct senders stand behind the version. */
  lemma AdoptsExactly(run: seq<Txn>, v: string, sender: string, time: int, senders: set<string>)
    requires forall p :: p in senders <==> p == sender || exists i :: StandingVote(run, i, v, p)
    ensures Adopts(After(run), Complete(v, sender, time)) <==> |senders| > After(run).f
  {
    forall p ensures p in senders <==> p in Votes(After(run), v) + {sender} {
      VotesAreStandingReports(run, v, p);
    }
    assert senders == Votes(After(run), v) + {sender};
  }

  /** f is the greatest number of faulty nodes of which the schedule holds more than three times as many. */
  lemma MaxFaultyIsGreatest(n: nat, f: int)
    ensures f <= MaxFaulty(n) <==> 3 * f + 1 <= n
  {
  }

  // ----- releases voted for as text -----

  /** What adopting an older release `a` does to the votes for a newer one `b`: they all survive exactly when the text
      keeps the order of the two, and otherwise all are lost. */
  lemma VotesSurviveExactly(s: State, a: Release, b: Release, sender: string, time: int)
    requires Older(a, b) && Adopts(s, Complete(Rendered(a), sender, time))
    ensures Votes(Updated(s, Complete(Rendered(a), sender, time)), Rendered(b))
         == if TextKeepsOrder(a, b) then Votes(s, Rendered(b)) else {}
  {
    var txn := Complete(Rendered(a), sender, time);
    OlderComesFirstExactly(a, b);
    StrLessTotal(Rendered(a), Rendered(a));
    forall p ensures p in Votes(Updated(s, txn), Rendered(b)) <==> TextKeepsOrder(a, b) && p in Votes(s, Rendered(b)) {
      VotesStep(s, txn, Rendered(b), p);
    }
  }

  /** A pool of four in which `p` and `q` report release `a`, and before and after that release `b`. */
  function OverlappingReports(a: string, b: string, p: string, q: string, t: int): seq<Txn> {
    [] + [UpgradeStart(4)] + [Complete(b, p, t)] + [Complete(a, p, t + 1)] + [Complete(a, q, t + 2)]
      + [Complete(b, q, t + 3)]
  }

  lemma AfterSnoc(run: seq<Txn>, txn: Txn)
    ensures After(run + [txn]) == Updated(After(run), txn)
  {
    assert (run + [txn])[..|run|] == run;
  }

  lemma TwoSenders(p: string, q: string)
    requires p != q
    ensures |{p} + {q}| == 2 && |{p}| == 1 && |{q}| == 1
  {
    assert {p} + {q} == {p, q};
  }

  /** Adopting `a` discards the report of `b` that does not come after it as text, so the second one finds itself
      alone. */
  lemma OverlappingStates(a: string, b: string, p: string, q: string, t: int)
    requires p != q && a != b && !StrLess(a, b)
    ensures var s := After(OverlappingReports(a, b, p, q, t));
      s.f == 1 && s.versions == map[t + 2 := a] && Votes(s, b) == {q}
  {
    var r0 := [] + [UpgradeStart(4)];
    var r1 := r0 + [Complete(b, p, t)];
    var r2 := r1 + [Complete(a, p, t + 1)];
    var r3 := r2 + [Complete(a, q, t + 2)];
    TwoSenders(p, q);
    AfterSnoc([], UpgradeStart(4));
    assert After(r0) == State(1, map[], map[]);
    AfterSnoc(r0, Complete(b, p, t));
    assert After(r1) == State(1, map[b := {p}], map[]);
    AfterSnoc(r1, Complete(a, p, t + 1));
    assert After(r2) == State(1, map[b := {p}, a := {p}], map[]);
    AfterSnoc(r2, Complete(a, q, t + 2));
    StrLessTotal(a, a);
    assert After(r3) == State(1, map[], map[t + 2 := a]);
    AfterSnoc(r3, Complete(b, q, t + 3));
  }

  lemma UninterruptedStates(b: string, p: string, q: string, t: int)
    requires p != q
    ensures After([] + [UpgradeStart(4)] + [Complete(b, p, t)] + [Complete(b, q, t + 3)]).versions == map[t + 3 := b]
  {
    var r0 := [] + [UpgradeStart(4)];
    var r1 := r0 + [Complete(b, p, t)];
    TwoSenders(p, q);
    AfterSnoc([], UpgradeStart(4));
    assert After(r0) == State(1, map[], map[]);
    AfterSnoc(r0, Complete(b, p, t));
    assert After(r1) == State(1, map[b := {p}], map[]);
    AfterSnoc(r1, Complete(b, q, t + 3));
  }

  /** A quorum can be lost, for any older `a` and newer `b` whose order the text does not keep (`NineComesAfterTen`):
      two of four nodes, more than f, report `b` and it is never adopted, because `a` was adopted in between; without
      the reports of `a` it would have been. */
  lemma NewerReleaseLosesVotes(a: Release, b: Release, p: string, q: string, t: int)
    requires Older(a, b) && !TextKeepsOrder(a, b) && p != q
    ensures var s := After(OverlappingReports(Rendered(a), Rendered(b), p, q, t));
      s.f == 1 && s.versions == map[t + 2 := Rendered(a)] && Votes(s, Rendered(b)) == {q}
    ensures After([] + [UpgradeStart(4)] + [Complete(Rendered(b), p, t)] + [Complete(Rendered(b), q, t + 3)]).versions
         == map[t + 3 := Rendered(b)]
  {
    OlderComesFirstExactly(a, b);
    RenderedInjective(a, b);
    assert a != b by { OlderIrreflexive(a); }
    OverlappingStates(Rendered(a), Rendered(b), p, q, t);
    UninterruptedStates(Rendered(b), p, q, t);
  }

  // ----- history -----

  /** `r` is the version recorded at the greatest time not after `t`. */
  ghost predicate IsVersionAt(versions: map<int, string>, t: int, r: Option<string>) {
    match r
    case None => forall k :: k in versions ==> t < k
    case Some(v) =>
      exists k :: k in versions && k <= t && versions[k] == v && forall l :: l in versions && l <= t ==> l <= k
  }

  lemma VersionAtUnique(versions: map<int, string>, t: int, a: Option<string>, b: Option<string>)
    requires IsVersionAt(versions, t, a) && IsVersionAt(versions, t, b)
    ensures a == b
  {
  }

  /** A record at a later time leaves the answer alone. */
  lemma LaterRecordChangesNothing(versions: map<int, string>, t: int, r: Option<string>, time: int, v: string)
    requires IsVersionAt(versions, t, r) && t < time
    ensures IsVersionAt(versions[time := v], t, r)
  {
    if r.Some? {
      var k :| k in versions && k <= t && versions[k] == r.value && forall l :: l in versions && l <= t ==> l <= k;
      assert k in versions[time := v];
    }
  }

  /** The answer for a time is fixed once all later transactions carry greater times. */
  lemma {:induction false} PastVersionsAreFixed(run: seq<Txn>, later: seq<Txn>, t: int, r: Option<string>)
    requires IsVersionAt(After(run).versions, t, r)
    requires forall i :: 0 <= i < |later| && later[i].Complete? ==> t < later[i].time
    ensures IsVersionAt(After(run + later).versions, t, r)
  {
    if later == [] {
      assert run + later == run;
    } else {
      var rest, txn := later[..|later| - 1], later[|later| - 1];
      PastVersionsAreFixed(run, rest, t, r);
      assert (run + later)[..|run + later| - 1] == run + rest;
      if Adopts(After(run + rest), txn) {
        LaterRecordChangesNothing(After(run + rest).versions, t, r, txn.time, txn.version);
      }
    }
  }

  // ----- the controller object -----

  /** A SortedDict: pairs in strictly increasing key order. */
  ghost predicate Increasing(s: seq<(int, string)>) {
    forall i, j :: 0 <= i < j < |s| ==> s[i].0 < s[j].0
  }

  function ToMap(s: seq<(int, string)>): map<int, string> {
    if s == [] then map[] else ToMap(s[..|s| - 1])[s[|s| - 1].0 := s[|s| - 1].1]
  }

  /** Insertion into a SortedDict, replacing the value of an equal key. */
  function Put(s: seq<(int, string)>, t: int, v: string): seq<(int, string)> {
    if s == [] || s[|s| - 1].0 < t then s + [(t, v)]
    else if s[|s| - 1].0 == t then s[..|s| - 1] + [(t, v)]
    else Put(s[..|s| - 1], t, v) + [s[|s| - 1]]
  }

  lemma {:induction false} PutKeys(s: seq<(int, string)>, t: int, v: string)
    ensures forall i :: 0 <= i < |Put(s, t, v)| ==> Put(s, t, v)[i].0 == t || Put(s, t, v)[i] in s
  {
    if s != [] && s[|s| - 1].0 > t {
      PutKeys(s[..|s| - 1], t, v);
    }
  }

  lemma {:induction false} PutIncreasing(s: seq<(int, string)>, t: int, v: string)
    requires Increasing(s)
    ensures Increasing(Put(s, t, v))
  {
    if s != [] && s[|s| - 1].0 > t {
      var rest := s[..|s| - 1];
      PutIncreasing(rest, t, v);
      PutKeys(rest, t, v);
    }
  }

  lemma {:induction false} PutIsUpdate(s: seq<(int, string)>, t: int, v: string)
    ensures ToMap(Put(s, t, v)) == ToMap(s)[t := v]
  {
    var r := Put(s, t, v);
    if s == [] || s[|s| - 1].0 < t {
      assert r[..|r| - 1] == s;
    } else {
      var rest, last := s[..|s| - 1], s[|s| - 1];
      if last.0 == t {
        assert r[..|r| - 1] == rest;
      } else {
        PutIsUpdate(rest, t, v);
        assert r[..|r| - 1] == Put(rest, t, v);
        assert ToMap(r) == ToMap(rest)[t := v][last.0 := last.1];
      }
    }
  }

  lemma {:induction false} ToMapHas(s: seq<(int, string)>, i: nat)
    requires Increasing(s) && i < |s|
    ensures s[i].0 in ToMap(s) && ToMap(s)[s[i].0] == s[i].1
  {
    if i < |s| - 1 {
      ToMapHas(s[..|s| - 1], i);
      assert s[i].0 < s[|s| - 1].0;
    }
  }

  lemma {:induction false} ToMapFrom(s: seq<(int, string)>, k: int)
    requires k in ToMap(s)
    ensures exists i :: 0 <= i < |s| && s[i].0 == k
  {
    if s[|s| - 1].0 != k {
      ToMapFrom(s[..|s| - 1], k);
      var i :| 0 <= i < |s| - 1 && s[..|s| - 1][i].0 == k;
      assert s[i].0 == k;
    }
  }

  /** The pair before position `n` answers for `t` when `t` lies between the pairs around that position. */
  lemma AnswerBefore(s: seq<(int, string)>, n: nat, t: int)
    requires Increasing(s) && n <= |s|
    requires n > 0 ==> s[n - 1].0 <= t
    requires n < |s| ==> t < s[n].0
    ensures IsVersionAt(ToMap(s), t, if n == 0 then None else Some(s[n - 1].1))
  {
    forall k | k in ToMap(s) ensures n == 0 ==> t < k
                             ensures n > 0 && k <= t ==> k <= s[n - 1].0 {
      ToMapFrom(s, k);
      var i :| 0 <= i < |s| && s[i].0 == k;
      assert n < i ==> s[n].0 < s[i].0;
      assert i < n - 1 ==> s[i].0 < s[n - 1].0;
    }
    if n > 0 {
      ToMapHas(s, n - 1);
    }
  }

  class TxnVersionController {
    var f: int
    var votesForNewVersion: map<string, set<string>>
    var versions: seq<(int, string)>

    ghost predicate Valid()
      reads this
    {
      Increasing(versions)
    }

    ghost function View(): State
      reads this
    {
      State(f, votesForNewVersion, ToMap(versions))
    }

    constructor ()
      ensures Valid() && View() == INITIAL
    {
      f, votesForNewVersion, versions := 0, map[], [];
    }

    method UpdateVersion(txn: Txn)
      requires Valid()
      modifies this
      ensures Valid() && View() == Updated(old(View()), txn)
    {
      match txn {
        case UpgradeStart(n) =>
          f := MaxFaulty(n);
        case Complete(v, sender, time) =>
          AddVote(v, sender);
          if |votesForNewVersion[v]| > f {
            Adopt(v, time);
          }
        case OtherTxn =>
      }
    }

    method AddVote(v: string, sender: string)
      modifies this`votesForNewVersion
      ensures votesForNewVersion == old(votesForNewVersion)[v := old(Votes(View(), v)) + {sender}]
    {
      if v !in votesForNewVersion {
        votesForNewVersion := votesForNewVersion[v := {}];
      }
      votesForNewVersion := votesForNewVersion[v := votesForNewVersion[v] + {sender}];
    }

    method Adopt(v: string, time: int)
      requires Valid()
      modifies this`versions, this`votesForNewVersion
      ensures Valid() && ToMap(versions) == old(ToMap(versions))[time := v]
      ensures votesForNewVersion == map w | w in old(votesForNewVersion) && StrLess(v, w) :: old(votesForNewVersion)[w]
    {
      PutIncreasing(versions, time, v);
      PutIsUpdate(versions, time, v);
      versions := Put(versions, time, v);
      votesForNewVersion := map w | w in votesForNewVersion && StrLess(v, w) :: votesForNewVersion[w];
    }

    /** The version in force now answers for every time from the last record on. */
    method Version() returns (r: Option<string>)
      requires Valid()
      ensures forall t :: (forall k :: k in View().versions ==> k <= t) ==> IsVersionAt(View().versions, t, r)
      ensures r.None? ==> View().versions == map[]
    {
      r := if versions != [] then Some(versions[|versions| - 1].1) else None;
      forall t | forall k :: k in ToMap(versions) ==> k <= t ensures IsVersionAt(ToMap(versions), t, r) {
        if versions != [] {
          ToMapHas(versions, |versions| - 1);
        }
        AnswerBefore(versions, |versions|, t);
      }
    }

    method GetPoolVersion(timestamp: Option<int>) returns (r: Option<string>)
      requires Valid()
      ensures timestamp.Some? ==> IsVersionAt(View().versions, timestamp.value, r)
      ensures timestamp.None? ==>
        forall t :: (forall k :: k in View().versions ==> k <= t) ==> IsVersionAt(View().versions, t, r)
    {
      if timestamp.None? {
        r := Version();
        return;
      }
      r := None;
      for i := 0 to |versions|
        invariant i > 0 ==> versions[i - 1].0 <= timestamp.value
        invariant r == if i == 0 then None else Some(versions[i - 1].1)
      {
        if timestamp.value < versions[i].0 {
          AnswerBefore(versions, i, timestamp.value);
          return;
        }
        r := Some(versions[i].1);
      }
      AnswerBefore(versions, |versions|, timestamp.value);
    }
  }
}
