/** Revocation entries of many registries written to one state: the chain of accumulators. */
module RevocationLedger {
  import opened Common
  import opened Revocation

  /** A registry definition, or an entry of a registry.  A definition may be written again with another issuance type,
      which selects the strategy. */
  datatype Txn =
    | Define(regId: string, strategy: Strategy)
    | Revoke(regId: string, value: Value, seqNo: nat, time: nat)

  /** The two records kept per registry: the merged entry, and the accumulator alone. */
  datatype Record =
    | Entry(regId: string, value: Value, seqNo: nat, time: nat)
    | AccumOnly(regId: string, accum: string, seqNo: nat, time: nat)

  type StateMap = map<string, Record>
  type Definitions = map<string, Strategy>  // registry id to the strategy of its issuance type

  datatype Ledger = Ledger(defs: Definitions, records: StateMap)

  const EMPTY_LEDGER := Ledger(map[], map[])

  const MARKER_ENTRY := "5"
  const MARKER_ACCUM := "6"

  function EntryPath(regId: string): string { MARKER_ENTRY + ":" + regId }

  function AccumPath(regId: string): string { MARKER_ACCUM + ":" + regId }

  lemma PathsNeverCollide(a: string, b: string)
    ensures EntryPath(a) != AccumPath(b)
    ensures EntryPath(a) == EntryPath(b) <==> a == b
    ensures AccumPath(a) == AccumPath(b) <==> a == b
  {
    assert EntryPath(a)[0] == '5' && AccumPath(b)[0] == '6';
    assert EntryPath(a)[2..] == a && EntryPath(b)[2..] == b;
    assert AccumPath(a)[2..] == a && AccumPath(b)[2..] == b;
  }

  function Current(state: StateMap, regId: string): Option<Value> {
    if EntryPath(regId) in state && state[EntryPath(regId)].Entry?
    then Some(state[EntryPath(regId)].value)
    else None
  }

  function Written(k: Strategy, state: StateMap, txn: Txn): StateMap
    requires txn.Revoke?
  {
    var v := Merged(k, Current(state, txn.regId), txn.value);
    state[EntryPath(txn.regId) := Entry(txn.regId, v, txn.seqNo, txn.time)]
         [AccumPath(txn.regId) := AccumOnly(txn.regId, v.accum, txn.seqNo, txn.time)]
  }

  function Verdict(l: Ledger, txn: Txn): Option<Rejection>
    requires txn.Revoke?
  {
    if txn.regId !in l.defs then Some(NoDefinition)
    else Validate(l.defs[txn.regId], Current(l.records, txn.regId), txn.value)
  }

  predicate IsAccepted(l: Ledger, txn: Txn) { txn.Revoke? && Verdict(l, txn).None? }

  function Processed(l: Ledger, txn: Txn): Ledger {
    if txn.Define? then l.(defs := l.defs[txn.regId := txn.strategy])
    else if IsAccepted(l, txn) then l.(records := Written(l.defs[txn.regId], l.records, txn))
    else l
  }

  function After(run: seq<Txn>): Ledger {
    if run == [] then EMPTY_LEDGER else Processed(After(run[..|run| - 1]), run[|run| - 1])
  }

  /** An accepted entry, with the strategy in force when it was, its number and its time. */
  datatype Accepted = Accepted(strategy: Strategy, value: Value, seqNo: nat, time: nat)

  /** The entries accepted for one registry, in order. */
  function AcceptedFor(run: seq<Txn>, regId: string): seq<Accepted> {
    if run == [] then []
    else
      var before, txn := run[..|run| - 1], run[|run| - 1];
      AcceptedFor(before, regId) +
        if txn.regId == regId && IsAccepted(After(before), txn)
        then [Accepted(After(before).defs[regId], txn.value, txn.seqNo, txn.time)]
        else []
  }

  /** What is stored after these entries: the first as it is, each later one merged by its own strategy. */
  function StoredBy(entries: seq<Accepted>): Value
    requires entries != []
  {
    var last := entries[|entries| - 1];
    if |entries| == 1 then last.value
    else Merged(last.strategy, Some(StoredBy(entries[..|entries| - 1])), last.value)
  }

  /** The entry goes on from those before it: the first names no accumulator, a later one continues from the accumulator
      of the one before and moves it, changes something, and applies to what is stored. */
  ghost predicate Continues(before: seq<Accepted>, e: Accepted) {
    && e.value.issued !! e.value.revoked
    && if before == [] then e.value.prevAccum.None?
       else
         && e.value.prevAccum == Some(before[|before| - 1].value.accum)
         && e.value.accum != before[|before| - 1].value.accum
         && (e.value.issued != {} || e.value.revoked != {})
         && Applies(e.strategy, StoredBy(before), e.value)
  }

  ghost predicate Chained(entries: seq<Accepted>) {
    forall i :: 0 <= i < |entries| ==> Continues(entries[..i], entries[i])
  }

  /** The records of a registry, given its accepted entries. */
  ghost predicate RecordsMatch(state: StateMap, regId: string, accepted: seq<Accepted>) {
    if accepted == [] then EntryPath(regId) !in state && AccumPath(regId) !in state
    else
      && EntryPath(regId) in state && AccumPath(regId) in state
      && state[EntryPath(regId)].Entry?
      && var e := state[EntryPath(regId)];
         && e.regId == regId
         && e.value == StoredBy(accepted)
         && e.value.accum == accepted[|accepted| - 1].value.accum
         && e.seqNo == accepted[|accepted| - 1].seqNo && e.time == accepted[|accepted| - 1].time
         && state[AccumPath(regId)] == AccumOnly(regId, e.value.accum, e.seqNo, e.time)
  }

  lemma OthersUntouched(l: Ledger, txn: Txn, regId: string)
    requires txn.regId != regId
    ensures var before, after := l.records, Processed(l, txn).records;
      && (EntryPath(regId) in after <==> EntryPath(regId) in before)
      && (AccumPath(regId) in after <==> AccumPath(regId) in before)
      && (EntryPath(regId) in before ==> after[EntryPath(regId)] == before[EntryPath(regId)])
      && (AccumPath(regId) in before ==> after[AccumPath(regId)] == before[AccumPath(regId)])
  {
    PathsNeverCollide(txn.regId, regId);
    PathsNeverCollide(regId, txn.regId);
  }

  lemma AcceptedContinues(accepted: seq<Accepted>, current: Option<Value>, e: Accepted)
    requires Accepts(e.strategy, current, e.value)
    requires current == if accepted == [] then None else Some(StoredBy(accepted))
    requires accepted != [] ==> StoredBy(accepted).accum == accepted[|accepted| - 1].value.accum
    ensures Continues(accepted, e)
  {
    AcceptedExactly(e.strategy, current, e.value);
  }

  lemma ChainExtends(accepted: seq<Accepted>, e: Accepted)
    requires Chained(accepted) && Continues(accepted, e)
    ensures Chained(accepted + [e])
  {
    var all := accepted + [e];
    forall i | 0 <= i < |all| ensures Continues(all[..i], all[i]) {
      assert all[..i] == accepted[..i];
      assert i == |accepted| ==> all[..i] == accepted;
    }
  }

  lemma StoredExtends(accepted: seq<Accepted>, e: Accepted)
    ensures StoredBy(accepted + [e])
         == if accepted == [] then e.value else Merged(e.strategy, Some(StoredBy(accepted)), e.value)
  {
    assert (accepted + [e])[..|accepted|] == accepted;
  }

  lemma AcceptedExtends(l: Ledger, txn: Txn, accepted: seq<Accepted>)
    requires RecordsMatch(l.records, txn.regId, accepted) && Chained(accepted) && IsAccepted(l, txn)
    ensures var e := Accepted(l.defs[txn.regId], txn.value, txn.seqNo, txn.time);
      RecordsMatch(Processed(l, txn).records, txn.regId, accepted + [e]) && Chained(accepted + [e])
  {
    var e := Accepted(l.defs[txn.regId], txn.value, txn.seqNo, txn.time);
    PathsNeverCollide(txn.regId, txn.regId);
    AcceptedContinues(accepted, Current(l.records, txn.regId), e);
    ChainExtends(accepted, e);
    StoredExtends(accepted, e);
  }

  /** Main result: in every run of definitions and entries over any registries, the accepted entries of each registry
      form a chain, the full record holds their merge, and the accumulator record always equals its accumulator. */
  lemma {:induction false} EveryRunIsChained(run: seq<Txn>, regId: string)
    ensures Chained(AcceptedFor(run, regId))
    ensures RecordsMatch(After(run).records, regId, AcceptedFor(run, regId))
  {
    if run != [] {
      var before, txn := run[..|run| - 1], run[|run| - 1];
      EveryRunIsChained(before, regId);
      var kept := AcceptedFor(before, regId);
      assert kept + [] == kept;
      if txn.regId != regId {
        OthersUntouched(After(before), txn, regId);
      } else if IsAccepted(After(before), txn) {
        AcceptedExtends(After(before), txn, kept);
      }
    }
  }

  /** An entry is refused right after itself, whatever the strategy then is. */
  lemma RefusedAfterItself(k: Strategy, current: Option<Value>, v: Value, k': Strategy)
    requires Accepts(k, current, v)
    ensures !Accepts(k', Some(Merged(k, current, v)), v)
  {
  }

  /** The same entry is never accepted twice in a row for its registry, even if the registry is defined anew in
      between. */
  lemma NeverAcceptedTwiceInARow(run: seq<Txn>, txn: Txn, k: Strategy)
    requires IsAccepted(After(run), txn)
    ensures !IsAccepted(Processed(After(run), txn), txn)
    ensures !IsAccepted(Processed(Processed(After(run), txn), Define(txn.regId, k)), txn)
  {
    var l := After(run);
    var k0, current := l.defs[txn.regId], Current(l.records, txn.regId);
    WrittenIsCurrent(k0, l.records, txn);
    RefusedAfterItself(k0, current, txn.value, k0);
    RefusedAfterItself(k0, current, txn.value, k);
  }

  /** In every run an entry of a registry that was never defined is refused for that, and no other entry is. */
  lemma {:induction false} UndefinedIsRefused(run: seq<Txn>, txn: Txn)
    requires txn.Revoke?
    ensures Verdict(After(run), txn) == Some(NoDefinition)
       <==> forall i :: 0 <= i < |run| && run[i].Define? ==> run[i].regId != txn.regId
  {
    DefinedExactly(run, txn.regId);
    if txn.regId in After(run).defs {
      RejectionIsTrue(After(run).defs[txn.regId], Current(After(run).records, txn.regId), txn.value);
    }
  }

  lemma {:induction false} DefinedExactly(run: seq<Txn>, regId: string)
    ensures regId in After(run).defs <==> exists i :: 0 <= i < |run| && run[i].Define? && run[i].regId == regId
  {
    if run != [] {
      var n := |run| - 1;
      DefinedExactly(run[..n], regId);
      assert forall i :: 0 <= i < n ==> run[..n][i] == run[i];
    }
  }

  /** The strategy in force is that of the last definition. */
  lemma {:induction false} LastDefinitionDecides(run: seq<Txn>, i: nat)
    requires i < |run| && run[i].Define?
    requires forall j :: i < j < |run| && run[j].Define? ==> run[j].regId != run[i].regId
    ensures run[i].regId in After(run).defs && After(run).defs[run[i].regId] == run[i].strategy
  {
    if i < |run| - 1 {
      LastDefinitionDecides(run[..|run| - 1], i);
    }
  }

  // ----- one strategy, and a change of strategy -----

  function Values(entries: seq<Accepted>): seq<Value> {
    seq(|entries|, i requires 0 <= i < |entries| => entries[i].value)
  }

  lemma ChainPrefix(entries: seq<Accepted>)
    requires Chained(entries) && entries != []
    ensures Chained(entries[..|entries| - 1])
  {
    var before := entries[..|entries| - 1];
    forall i | 0 <= i < |before| ensures Continues(before[..i], before[i]) {
      assert before[..i] == entries[..i];
    }
  }

  /** The last entry of a chain is accepted by its strategy. */
  lemma LastIsAccepted(entries: seq<Accepted>)
    requires Chained(entries) && |entries| > 1
    ensures var before, last := entries[..|entries| - 1], entries[|entries| - 1];
      Accepts(last.strategy, Some(StoredBy(before)), last.value)
  {
    var n := |entries| - 1;
    assert Continues(entries[..n], entries[n]);
    AcceptedExactly(entries[n].strategy, Some(StoredBy(entries[..n])), entries[n].value);
    StoredAccum(entries[..n]);
  }

  lemma StoredAccum(entries: seq<Accepted>)
    requires entries != []
    ensures StoredBy(entries).accum == entries[|entries| - 1].value.accum
  {
  }

  /** While the definition keeps its issuance type, the record is what the strategy stores over the run of entries. */
  lemma {:induction false} OneStrategyStores(k: Strategy, entries: seq<Accepted>)
    requires Chained(entries) && entries != [] && forall i :: 0 <= i < |entries| ==> entries[i].strategy == k
    ensures StoredBy(entries) == Stored(k, entries[0].value, Values(entries[1..]))
  {
    if |entries| > 1 {
      var before := entries[..|entries| - 1];
      ChainPrefix(entries);
      OneStrategyStores(k, before);
      LastIsAccepted(entries);
      var later := Values(entries[1..]);
      assert later[..|later| - 1] == Values(before[1..]);
    }
  }

  /** A strategy leaves only its own list filled in what it merges. */
  lemma MergedKeepsOneList(k: Strategy, current: Value, v: Value, other: Strategy)
    requires other != k
    ensures Kept(other, Merged(k, Some(current), v)) == {}
  {
  }

  lemma NothingKeptNothingMerged(k: Strategy, current: Value, v: Value)
    requires Kept(k, current) == {} && Accepts(k, Some(current), v)
    ensures Merged(k, Some(current), v) == v
  {
    AcceptedExactly(k, Some(current), v);
  }

  lemma CurrentIsStored(state: StateMap, regId: string, accepted: seq<Accepted>)
    requires RecordsMatch(state, regId, accepted)
    ensures Current(state, regId) == if accepted == [] then None else Some(StoredBy(accepted))
  {
  }

  lemma WrittenIsCurrent(k: Strategy, state: StateMap, txn: Txn)
    requires txn.Revoke?
    ensures Current(Written(k, state, txn), txn.regId) == Some(Merged(k, Current(state, txn.regId), txn.value))
  {
    PathsNeverCollide(txn.regId, txn.regId);
  }

  /** What another strategy finds in the record of two entries or more. */
  lemma OtherStrategyFindsNothing(entries: seq<Accepted>, k: Strategy)
    requires |entries| >= 2 && k != entries[|entries| - 1].strategy
    ensures Kept(k, StoredBy(entries)) == {}
  {
    var last := entries[|entries| - 1];
    MergedKeepsOneList(last.strategy, StoredBy(entries[..|entries| - 1]), last.value, k);
  }

  /** Every index on record that the entry does not mention stays on record in its list. */
  ghost predicate Remembers(was: Value, v: Value, now: Value) {
    && was.issued - (v.issued + v.revoked) <= now.issued
    && was.revoked - (v.issued + v.revoked) <= now.revoked
  }

  function Other(k: Strategy): Strategy { if k.KeepRevoked? then KeepIssued else KeepRevoked }

  /** A merge empties the list that its strategy does not keep, so it remembers exactly when the entry mentions all that
      this list held. */
  lemma MergeRemembersExactly(k: Strategy, stored: Value, v: Value)
    ensures Remembers(stored, v, Merged(k, Some(stored), v)) <==> Kept(Other(k), stored) <= v.issued + v.revoked
  {
    EmptyDifference(stored.issued, v.issued + v.revoked);
    EmptyDifference(stored.revoked, v.issued + v.revoked);
  }

  /** What an accepted entry leaves on record after others: all that it does not mention stays exactly when it mentions
      every index on the list that the strategy now in force does not keep. */
  ghost predicate RemembersExactly(l: Ledger, txn: Txn, entries: seq<Accepted>)
    requires IsAccepted(l, txn) && entries != []
  {
    var stored, now := StoredBy(entries), Current(Processed(l, txn).records, txn.regId);
    && Current(l.records, txn.regId) == Some(stored) && now.Some?
    && (Remembers(stored, txn.value, now.value)
        <==> Kept(Other(l.defs[txn.regId]), stored) <= txn.value.issued + txn.value.revoked)
  }

  lemma RememberedFrom(l: Ledger, txn: Txn, entries: seq<Accepted>)
    requires IsAccepted(l, txn) && entries != [] && RecordsMatch(l.records, txn.regId, entries)
    ensures RemembersExactly(l, txn, entries)
  {
    CurrentIsStored(l.records, txn.regId, entries);
    WrittenIsCurrent(l.defs[txn.regId], l.records, txn);
    MergeRemembersExactly(l.defs[txn.regId], StoredBy(entries), txn.value);
  }

  /** It is so in every run, for every accepted entry but the first. */
  lemma IndicesRememberedExactly(run: seq<Txn>, txn: Txn)
    requires IsAccepted(After(run), txn) && AcceptedFor(run, txn.regId) != []
    ensures RemembersExactly(After(run), txn, AcceptedFor(run, txn.regId))
  {
    EveryRunIsChained(run, txn.regId);
    RememberedFrom(After(run), txn, AcceptedFor(run, txn.regId));
  }

  /** After two entries or more the condition is that the issuance type is still that of the entry before, or the entry
      mentions every index on record; under another type the entry is stored as it is, and the registry is forgotten. */
  ghost predicate TypeDecides(l: Ledger, txn: Txn, entries: seq<Accepted>)
    requires IsAccepted(l, txn) && entries != []
  {
    var last, stored := entries[|entries| - 1].strategy, StoredBy(entries);
    var now := Current(Processed(l, txn).records, txn.regId);
    && now.Some?
    && (Remembers(stored, txn.value, now.value)
        <==> l.defs[txn.regId] == last || Kept(last, stored) <= txn.value.issued + txn.value.revoked)
    && (l.defs[txn.regId] != last ==> now.value == txn.value)
  }

  lemma TypeDecidesFrom(l: Ledger, txn: Txn, entries: seq<Accepted>)
    requires IsAccepted(l, txn) && |entries| >= 2 && RecordsMatch(l.records, txn.regId, entries)
    ensures TypeDecides(l, txn, entries)
  {
    var last, k := entries[|entries| - 1].strategy, l.defs[txn.regId];
    RememberedFrom(l, txn, entries);
    OtherStrategyFindsNothing(entries, Other(last));
    WrittenIsCurrent(k, l.records, txn);
    if k != last {
      NothingKeptNothingMerged(k, StoredBy(entries), txn.value);
    }
  }

  lemma LaterEntriesRememberedExactly(run: seq<Txn>, txn: Txn)
    requires IsAccepted(After(run), txn) && |AcceptedFor(run, txn.regId)| >= 2
    ensures TypeDecides(After(run), txn, AcceptedFor(run, txn.regId))
  {
    EveryRunIsChained(run, txn.regId);
    TypeDecidesFrom(After(run), txn, AcceptedFor(run, txn.regId));
  }

  /** An index is revoked under issuance by default, then the definition is written again as issuance on demand and
      another index is issued. */
  function ForgettingRun(regId: string, i: int, j: int, accums: (string, string)): seq<Txn> {
    [] + [Define(regId, KeepRevoked)] + [Revoke(regId, Value(accums.0, None, {}, {i}), 1, 1)]
      + [Define(regId, KeepIssued)] + [Revoke(regId, Value(accums.1, Some(accums.0), {j}, {}), 2, 2)]
  }

  lemma AfterSnoc(run: seq<Txn>, txn: Txn)
    ensures After(run + [txn]) == Processed(After(run), txn)
  {
    assert (run + [txn])[..|run|] == run;
  }

  /** One accepted entry. */
  lemma EntryStep(run: seq<Txn>, txn: Txn, k: Strategy, current: Option<Value>)
    requires txn.Revoke? && txn.regId in After(run).defs && After(run).defs[txn.regId] == k
    requires Current(After(run).records, txn.regId) == current && Accepts(k, current, txn.value)
    ensures After(run + [txn]).defs == After(run).defs
    ensures Current(After(run + [txn]).records, txn.regId) == Some(Merged(k, current, txn.value))
  {
    AfterSnoc(run, txn);
    WrittenIsCurrent(k, After(run).records, txn);
  }

  lemma ForgettingEntries(v1: Value, v2: Value)
    requires v1.prevAccum.None? && v2.prevAccum == Some(v1.accum) && v1.accum != v2.accum
    requires v1.issued == v2.revoked == {} && v2.issued != {}
    ensures Accepts(KeepRevoked, None, v1) && Accepts(KeepIssued, Some(v1), v2)
    ensures Merged(KeepIssued, Some(v1), v2) == v2
  {
    AcceptedExactly(KeepRevoked, None, v1);
    AcceptedExactly(KeepIssued, Some(v1), v2);
  }

  /** The index is on record as revoked before the change of issuance type, and not after the next entry, which does
      not speak of it. */
  lemma RevokedIndexIsForgotten(regId: string, i: int, j: int, accums: (string, string))
    requires accums.0 != accums.1 && i != j
    ensures var run := ForgettingRun(regId, i, j, accums);
      && Current(After(run[..2]).records, regId) == Some(Value(accums.0, None, {}, {i}))
      && Current(After(run).records, regId) == Some(Value(accums.1, Some(accums.0), {j}, {}))
  {
    var run := ForgettingRun(regId, i, j, accums);
    var v1, v2 := Value(accums.0, None, {}, {i}), Value(accums.1, Some(accums.0), {j}, {});
    ForgettingEntries(v1, v2);
    var r1 := [] + [Define(regId, KeepRevoked)];
    var r2 := r1 + [Revoke(regId, v1, 1, 1)];
    var r3 := r2 + [Define(regId, KeepIssued)];
    AfterSnoc([], Define(regId, KeepRevoked));
    EntryStep(r1, Revoke(regId, v1, 1, 1), KeepRevoked, None);
    AfterSnoc(r2, Define(regId, KeepIssued));
    EntryStep(r3, Revoke(regId, v2, 2, 2), KeepIssued, Some(v1));
    assert run[..2] == r2;
  }

  /** Under one issuance type: the first entry issues one index and revokes another, the second revokes a third. */
  function FirstListRun(regId: string, i: int, j: int, m: int, accums: (string, string)): seq<Txn> {
    [] + [Define(regId, KeepRevoked)] + [Revoke(regId, Value(accums.0, None, {i}, {j}), 1, 1)]
      + [Revoke(regId, Value(accums.1, Some(accums.0), {}, {m}), 2, 2)]
  }

  lemma FirstListEntries(v1: Value, v2: Value)
    requires v1.prevAccum.None? && v2.prevAccum == Some(v1.accum) && v1.accum != v2.accum
    requires v1.issued !! v1.revoked && v2.issued == {} && v2.revoked != {} && v1.revoked !! v2.revoked
    ensures Accepts(KeepRevoked, None, v1) && Accepts(KeepRevoked, Some(v1), v2)
    ensures Merged(KeepRevoked, Some(v1), v2) == v2.(revoked := v1.revoked + v2.revoked)
  {
    AcceptedExactly(KeepRevoked, None, v1);
    AcceptedExactly(KeepRevoked, Some(v1), v2);
  }

  /** The index that the first entry issued is then no longer on record, although the type has not changed: only a
      first entry is stored with both of its lists. */
  lemma FirstIssuedIndexIsForgotten(regId: string, i: int, j: int, m: int, accums: (string, string))
    requires accums.0 != accums.1 && i != j && i != m && j != m
    ensures var run := FirstListRun(regId, i, j, m, accums);
      && Current(After(run[..2]).records, regId) == Some(Value(accums.0, None, {i}, {j}))
      && Current(After(run).records, regId) == Some(Value(accums.1, Some(accums.0), {}, {j} + {m}))
  {
    var run := FirstListRun(regId, i, j, m, accums);
    var v1, v2 := Value(accums.0, None, {i}, {j}), Value(accums.1, Some(accums.0), {}, {m});
    FirstListEntries(v1, v2);
    var r1 := [] + [Define(regId, KeepRevoked)];
    var r2 := r1 + [Revoke(regId, v1, 1, 1)];
    AfterSnoc([], Define(regId, KeepRevoked));
    EntryStep(r1, Revoke(regId, v1, 1, 1), KeepRevoked, None);
    EntryStep(r2, Revoke(regId, v2, 2, 2), KeepRevoked, Some(v1));
    assert run[..2] == r2;
  }

  /** The state the request handlers share. */
  class RevocationState {
    var defs: Definitions
    var state: StateMap

    ghost function View(): Ledger
      reads this
    {
      Ledger(defs, state)
    }

    constructor ()
      ensures View() == EMPTY_LEDGER
    {
      defs, state := map[], map[];
    }

    /** Writes a definition, new or again. */
    method WriteDefinition(regId: string, k: Strategy)
      modifies this`defs
      ensures View() == Processed(old(View()), Define(regId, k))
    {
      defs := defs[regId := k];
    }

    method ValidateEntry(txn: Txn) returns (r: Option<Rejection>)
      requires txn.Revoke?
      ensures r == Verdict(View(), txn)
    {
      if txn.regId !in defs {
        return Some(NoDefinition);
      }
      var current := Current(state, txn.regId);
      var issued, revoked := txn.value.issued, txn.value.revoked;
      if issued * revoked != {} {
        return Some(InBothLists);
      }
      if txn.value.prevAccum.Some? && current.None? {
        return Some(NoPreviousEntry);
      }
      if current.None? {
        return None;
      }
      if Some(current.value.accum) != txn.value.prevAccum {
        return Some(WrongPrevAccum);
      }
      if issued == {} && revoked == {} {
        return Some(NothingChanged);
      }
      if txn.value.prevAccum == Some(txn.value.accum) {
        return Some(SameAccum);
      }
      r := SpecificValidation(defs[txn.regId], current.value, txn.value);
    }

    /** `write` and `set_to_state`: the full record first, then the accumulator alone. */
    method Write(k: Strategy, txn: Txn)
      requires txn.Revoke?
      modifies this`state
      ensures state == Written(k, old(state), txn)
    {
      var current := Current(state, txn.regId);
      var copy := txn;
      if current.Some? {
        if k.KeepRevoked? {
          var indices := current.value.revoked - copy.value.issued;
          indices := indices + copy.value.revoked;
          copy := copy.(value := copy.value.(issued := {}, revoked := indices));
        } else {
          var indices := current.value.issued - copy.value.revoked;
          indices := indices + copy.value.issued;
          copy := copy.(value := copy.value.(revoked := {}, issued := indices));
        }
      }
      state := state[EntryPath(copy.regId) := Entry(copy.regId, copy.value, copy.seqNo, copy.time)];
      state := state[AccumPath(copy.regId) := AccumOnly(copy.regId, copy.value.accum, copy.seqNo, copy.time)];
    }

    /** Validation and writing both read the definition as it is now. */
    method Process(txn: Txn) returns (r: Option<Rejection>)
      requires txn.Revoke?
      modifies this`state
      ensures r == Verdict(old(View()), txn)
      ensures View() == Processed(old(View()), txn)
    {
      r := ValidateEntry(txn);
      if r.None? {
        Write(defs[txn.regId], txn);
      }
    }
  }
}
