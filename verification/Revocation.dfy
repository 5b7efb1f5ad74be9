/** Revocation registry entries: validation, writing and deltas under the two issuance strategies. */
module Revocation {
  import opened Common

  /** RevokedStrategy keeps the revoked indices in the state, IssuedStrategy the issued ones. */
  datatype Strategy = KeepRevoked | KeepIssued

  datatype Value = Value(accum: string, prevAccum: Option<string>, issued: set<int>, revoked: set<int>)

  datatype Rejection =
    | NoDefinition | InBothLists | NoPreviousEntry | WrongPrevAccum | NothingChanged | SameAccum
    | IssuedNotRevoked | RevokedTwice | RevokedNotIssued | IssuedTwice

  datatype Delta = Delta(issued: set<int>, revoked: set<int>)

  // ----- the strategies -----

  /** The indices the strategy reads from a stored entry. */
  function Kept(k: Strategy, v: Value): set<int> {
    match k case KeepRevoked => v.revoked case KeepIssued => v.issued
  }

  function SpecificValidation(k: Strategy, current: Value, v: Value): Option<Rejection> {
    match k
    case KeepRevoked =>
      if v.issued - current.revoked != {} then Some(IssuedNotRevoked)
      else if current.revoked * v.revoked != {} then Some(RevokedTwice)
      else None
    case KeepIssued =>
      if v.revoked - current.issued != {} then Some(RevokedNotIssued)
      else if current.issued * v.issued != {} then Some(IssuedTwice)
      else None
  }

  /** `validate`: None when the entry is accepted. */
  function Validate(k: Strategy, current: Option<Value>, v: Value): Option<Rejection> {
    if v.issued * v.revoked != {} then Some(InBothLists)
    else if v.prevAccum.Some? && current.None? then Some(NoPreviousEntry)
    else if current.None? then None
    else if v.prevAccum != Some(current.value.accum) then Some(WrongPrevAccum)
    else if v.issued == {} && v.revoked == {} then Some(NothingChanged)
    else if v.prevAccum == Some(v.accum) then Some(SameAccum)
    else SpecificValidation(k, current.value, v)
  }

  predicate Accepts(k: Strategy, current: Option<Value>, v: Value) {
    Validate(k, current, v).None?
  }

  /** What `write` stores: the first entry as it is, later ones merged into the kept indices. */
  function Merged(k: Strategy, current: Option<Value>, v: Value): Value {
    if current.None? then v
    else match k
      case KeepRevoked => v.(issued := {}, revoked := current.value.revoked - v.issued + v.revoked)
      case KeepIssued => v.(revoked := {}, issued := current.value.issued - v.revoked + v.issued)
  }

  /** `get_delta` with both ends given. */
  function GetDelta(k: Strategy, to: Value, from: Value): Delta {
    match k
    case KeepRevoked => Delta(from.revoked - to.revoked, to.revoked - from.revoked)
    case KeepIssued => Delta(to.issued - from.issued, from.issued - to.issued)
  }

  /** `get_delta` without a start: the stored lists as they are. */
  function GetDeltaFromStart(to: Value): Delta { Delta(to.issued, to.revoked) }

  /** The entry may be applied: it issues and revokes only what is now the other way round. */
  ghost predicate Applies(k: Strategy, current: Value, v: Value) {
    match k
    case KeepRevoked => v.issued <= current.revoked && v.revoked !! current.revoked
    case KeepIssued => v.revoked <= current.issued && v.issued !! current.issued
  }

  lemma EmptyDifference(a: set<int>, b: set<int>)
    ensures a - b == {} <==> a <= b
  {
    if a - b == {} {
      forall x | x in a ensures x in b {
        assert x !in a - b;
      }
    }
  }

  lemma EmptyMeet(a: set<int>, b: set<int>)
    ensures a * b == {} <==> a !! b
  {
    if a * b == {} {
      forall x | x in a ensures x !in b {
        assert x !in a * b;
      }
    }
  }

  /** Exactly which entries are accepted. */
  lemma AcceptedExactly(k: Strategy, current: Option<Value>, v: Value)
    ensures Accepts(k, current, v) <==>
      && v.issued !! v.revoked
      && (current.None? ==> v.prevAccum.None?)
      && (current.Some? ==>
            && v.prevAccum == Some(current.value.accum) && v.accum != current.value.accum
            && (v.issued != {} || v.revoked != {})
            && Applies(k, current.value, v))
  {
    EmptyMeet(v.issued, v.revoked);
    if current.Some? {
      EmptyDifference(v.issued, current.value.revoked);
      EmptyDifference(v.revoked, current.value.issued);
      EmptyMeet(current.value.revoked, v.revoked);
      EmptyMeet(current.value.issued, v.issued);
    }
  }

  lemma SomeCommon(a: set<int>, b: set<int>)
    ensures a * b != {} <==> exists x :: x in a && x in b
  {
    if x :| x in a && x in b {
      assert x in a * b;
    } else {
      assert forall x :: x !in a * b;
    }
  }

  lemma SomeOutside(a: set<int>, b: set<int>)
    ensures a - b != {} <==> exists x :: x in a && x !in b
  {
    if x :| x in a && x !in b {
      assert x in a - b;
    } else {
      assert forall x :: x !in a - b;
    }
  }

  /** Which entries the strategies turn away, and why. */
  lemma SpecificRejection(k: Strategy, current: Value, v: Value)
    ensures var r := SpecificValidation(k, current, v);
      && (r == Some(IssuedNotRevoked) <==> k.KeepRevoked? && exists x :: x in v.issued && x !in current.revoked)
      && (r == Some(RevokedTwice) ==> k.KeepRevoked? && exists x :: x in current.revoked && x in v.revoked)
      && (r == Some(RevokedNotIssued) <==> k.KeepIssued? && exists x :: x in v.revoked && x !in current.issued)
      && (r == Some(IssuedTwice) ==> k.KeepIssued? && exists x :: x in current.issued && x in v.issued)
      && (r.None? || r.value in {IssuedNotRevoked, RevokedTwice, RevokedNotIssued, IssuedTwice})
  {
    SomeOutside(v.issued, current.revoked);
    SomeOutside(v.revoked, current.issued);
    SomeCommon(current.revoked, v.revoked);
    SomeCommon(current.issued, v.issued);
  }

  /** A reason for rejection is true of the entry: it names the first check that fails. */
  lemma RejectionIsTrue(k: Strategy, current: Option<Value>, v: Value)
    ensures var r := Validate(k, current, v);
      && (r == Some(InBothLists) <==> exists x :: x in v.issued && x in v.revoked)
      && (r == Some(NoPreviousEntry) ==> current.None? && v.prevAccum.Some?)
      && (r == Some(WrongPrevAccum) ==> current.Some? && v.prevAccum != Some(current.value.accum))
      && (r == Some(NothingChanged) ==> current.Some? && v.issued == {} == v.revoked)
      && (r == Some(SameAccum) ==> current.Some? && v.accum == current.value.accum)
      && (r.Some? && r.value in {IssuedNotRevoked, RevokedTwice, RevokedNotIssued, IssuedTwice} ==>
            current.Some? && SpecificValidation(k, current.value, v) == r)
      && r != Some(NoDefinition)
  {
    SomeCommon(v.issued, v.revoked);
    if current.Some? {
      SpecificRejection(k, current.value, v);
    }
  }

  /** The delta from the start agrees with the delta from an empty registry exactly when the list that the strategy
      does not keep is empty, as it is after every later entry. */
  lemma DeltaFromStart(k: Strategy, to: Value, accum: string)
    ensures GetDeltaFromStart(to) == GetDelta(k, to, Value(accum, None, {}, {}))
       <==> (if k.KeepRevoked? then to.issued == {} else to.revoked == {})
    ensures forall current, v :: to == Merged(k, Some(current), v) ==>
              GetDeltaFromStart(to) == GetDelta(k, to, Value(accum, None, {}, {}))
  {
  }

  // ----- one registry: runs of entries -----

  /** The stored value after a run of later entries; rejected entries leave it alone. */
  function Stored(k: Strategy, current: Value, entries: seq<Value>): Value {
    if entries == [] then current
    else
      var before := Stored(k, current, entries[..|entries| - 1]);
      var v := entries[|entries| - 1];
      if Accepts(k, Some(before), v) then Merged(k, Some(before), v) else before
  }

  /** The delta of an accepted entry between the states around it is the entry itself. */
  lemma DeltaOfEntry(k: Strategy, current: Value, v: Value)
    requires Accepts(k, Some(current), v)
    ensures GetDelta(k, Merged(k, Some(current), v), current) == Delta(v.issued, v.revoked)
  {
    assert v.issued * v.revoked == {};
    match k
    case KeepRevoked =>
      assert v.issued - current.revoked == {} && current.revoked * v.revoked == {};
      forall x ensures (x in v.issued ==> x in current.revoked) && !(x in current.revoked && x in v.revoked)
                    && !(x in v.issued && x in v.revoked) {
        assert x !in v.issued - current.revoked && x !in current.revoked * v.revoked && x !in v.issued * v.revoked;
      }
    case KeepIssued =>
      forall x ensures (x in v.revoked ==> x in current.issued) && !(x in current.issued && x in v.issued)
                    && !(x in v.issued && x in v.revoked) {
        assert x !in v.revoked - current.issued && x !in current.issued * v.issued && x !in v.issued * v.revoked;
      }
  }

  /** One delta after another. */
  function Compose(a: Delta, b: Delta): Delta {
    Delta((a.issued - b.revoked) + (b.issued - a.revoked), (a.revoked - b.issued) + (b.revoked - a.issued))
  }

  function Apply(k: Strategy, kept: set<int>, d: Delta): set<int> {
    match k
    case KeepRevoked => kept - d.issued + d.revoked
    case KeepIssued => kept - d.revoked + d.issued
  }

  /** A delta is disjoint, turns the earlier kept set into the later one, and adjacent deltas compose. */
  lemma DeltaLaws(k: Strategy, a: Value, b: Value, c: Value)
    ensures var d := GetDelta(k, b, a);
      d.issued * d.revoked == {} && Apply(k, Kept(k, a), d) == Kept(k, b)
    ensures Compose(GetDelta(k, b, a), GetDelta(k, c, b)) == GetDelta(k, c, a)
  {
  }

  /** The composition of the accepted entries of a run. */
  function NetDelta(k: Strategy, current: Value, entries: seq<Value>): Delta {
    if entries == [] then Delta({}, {})
    else
      var rest, v := entries[..|entries| - 1], entries[|entries| - 1];
      var net := NetDelta(k, current, rest);
      if Accepts(k, Some(Stored(k, current, rest)), v) then Compose(net, Delta(v.issued, v.revoked)) else net
  }

  /** Over every run the delta between its ends is the composition of exactly the accepted entries. */
  lemma {:induction false} DeltaOverRun(k: Strategy, current: Value, entries: seq<Value>)
    ensures GetDelta(k, Stored(k, current, entries), current) == NetDelta(k, current, entries)
  {
    if entries == [] {
      assert GetDelta(k, current, current) == Delta({}, {});
    } else {
      var rest, v := entries[..|entries| - 1], entries[|entries| - 1];
      DeltaOverRun(k, current, rest);
      var before := Stored(k, current, rest);
      if Accepts(k, Some(before), v) {
        DeltaOfEntry(k, before, v);
        DeltaLaws(k, current, before, Merged(k, Some(before), v));
      }
    }
  }

  // ----- the two strategies hold the same information -----

  ghost predicate Complementary(universe: set<int>, keepsRevoked: Value, keepsIssued: Value) {
    && keepsRevoked.accum == keepsIssued.accum
    && keepsRevoked.revoked <= universe
    && keepsIssued.issued == universe - keepsRevoked.revoked
  }

  predicate Within(universe: set<int>, v: Value) {
    v.issued <= universe && v.revoked <= universe
  }

  lemma SameVerdict(universe: set<int>, r: Value, i: Value, v: Value)
    requires Complementary(universe, r, i) && Within(universe, v)
    ensures Accepts(KeepRevoked, Some(r), v) <==> Accepts(KeepIssued, Some(i), v)
  {
  }

  lemma StaysComplementary(universe: set<int>, r: Value, i: Value, v: Value)
    requires Complementary(universe, r, i) && Within(universe, v)
    ensures Accepts(KeepRevoked, Some(r), v) ==>
      Complementary(universe, Merged(KeepRevoked, Some(r), v), Merged(KeepIssued, Some(i), v))
  {
    if v.issued * v.revoked == {} {
      forall x ensures !(x in v.issued && x in v.revoked) {
        assert x !in v.issued * v.revoked;
      }
    }
  }

  /** Bisimulation: from complementary entries, both strategies stay complementary over every run of later
      entries over the universe. */
  lemma {:induction false} StrategiesBisimulate(universe: set<int>, r: Value, i: Value, entries: seq<Value>)
    requires Complementary(universe, r, i)
    requires forall n :: 0 <= n < |entries| ==> Within(universe, entries[n])
    ensures Complementary(universe, Stored(KeepRevoked, r, entries), Stored(KeepIssued, i, entries))
  {
    if entries != [] {
      var rest, v := entries[..|entries| - 1], entries[|entries| - 1];
      StrategiesBisimulate(universe, r, i, rest);
      var r', i' := Stored(KeepRevoked, r, rest), Stored(KeepIssued, i, rest);
      SameVerdict(universe, r', i', v);
      StaysComplementary(universe, r', i', v);
    }
  }

  /** And at every point of the run they accept or reject the same entry. */
  lemma StrategiesAgree(universe: set<int>, r: Value, i: Value, entries: seq<Value>, n: nat)
    requires Complementary(universe, r, i) && n < |entries|
    requires forall j :: 0 <= j < |entries| ==> Within(universe, entries[j])
    ensures Accepts(KeepRevoked, Some(Stored(KeepRevoked, r, entries[..n])), entries[n])
       <==> Accepts(KeepIssued, Some(Stored(KeepIssued, i, entries[..n])), entries[n])
  {
    StrategiesBisimulate(universe, r, i, entries[..n]);
    SameVerdict(universe, Stored(KeepRevoked, r, entries[..n]), Stored(KeepIssued, i, entries[..n]), entries[n]);
  }

  /** Between any two points of such a run both strategies report the same delta. */
  lemma StrategiesReportSameDelta(universe: set<int>, r: Value, i: Value, entries: seq<Value>, m: nat, n: nat)
    requires Complementary(universe, r, i) && m <= |entries| && n <= |entries|
    requires forall j :: 0 <= j < |entries| ==> Within(universe, entries[j])
    ensures GetDelta(KeepRevoked, Stored(KeepRevoked, r, entries[..n]), Stored(KeepRevoked, r, entries[..m]))
         == GetDelta(KeepIssued, Stored(KeepIssued, i, entries[..n]), Stored(KeepIssued, i, entries[..m]))
  {
    StrategiesBisimulate(universe, r, i, entries[..m]);
    StrategiesBisimulate(universe, r, i, entries[..n]);
    var rm, im := Stored(KeepRevoked, r, entries[..m]), Stored(KeepIssued, i, entries[..m]);
    var rn, jn := Stored(KeepRevoked, r, entries[..n]), Stored(KeepIssued, i, entries[..n]);
    assert rm.revoked - rn.revoked == jn.issued - im.issued;
    assert rn.revoked - rm.revoked == im.issued - jn.issued;
  }

  /** The universe matters: an entry is accepted by both strategies exactly when one of them accepts it
      and its indices lie in the universe. */
  lemma BothAcceptOnlyWithin(universe: set<int>, r: Value, i: Value, v: Value)
    requires Complementary(universe, r, i)
    ensures Accepts(KeepRevoked, Some(r), v) && Accepts(KeepIssued, Some(i), v)
       <==> Accepts(KeepRevoked, Some(r), v) && Within(universe, v)
    ensures Accepts(KeepRevoked, Some(r), v) && Accepts(KeepIssued, Some(i), v)
       <==> Accepts(KeepIssued, Some(i), v) && Within(universe, v)
  {
    if Within(universe, v) {
      SameVerdict(universe, r, i, v);
    } else if Accepts(KeepRevoked, Some(r), v) && Accepts(KeepIssued, Some(i), v) {
      forall x | x in v.issued ensures x in universe {
        assert x !in v.issued - r.revoked;
      }
      forall x | x in v.revoked ensures x in universe {
        assert x !in v.revoked - i.issued;
      }
    }
  }
}
