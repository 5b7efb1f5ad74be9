/** Validation of the schedule of a POOL_UPGRADE. */
module UpgradeSchedule {
  import opened Common
  import StableSort

  datatype Verdict = Valid | WrongNodes | NotInFuture | Unparsable | TooClose

  /** A Python dictionary from node id to date string, in its iteration order. */
  type Schedule = s: seq<(string, string)> | forall i, j :: 0 <= i < j < |s| ==> s[i].0 != s[j].0

  function Distance(a: int, b: int): nat { if a <= b then b - a else a - b }

  /** Any two entries, by position, are at least `sep` apart. */
  ghost predicate Apart(times: seq<int>, sep: int) {
    forall i, j :: 0 <= i < j < |times| ==> Distance(times[i], times[j]) >= sep
  }

  ghost predicate NeighboursApart(times: seq<int>, sep: int) {
    forall i :: 0 <= i < |times| - 1 ==> times[i + 1] - times[i] >= sep
  }

  predicate Leq(a: int, b: int) { a <= b }

  ghost predicate FarFrom(s: seq<int>, x: int, sep: int) {
    forall i :: 0 <= i < |s| ==> Distance(s[i], x) >= sep
  }

  lemma ApartSnoc(s: seq<int>, x: int, sep: int)
    ensures Apart(s + [x], sep) <==> Apart(s, sep) && FarFrom(s, x, sep)
  {
    var t := s + [x];
    if Apart(t, sep) {
      forall i, j | 0 <= i < j < |s| ensures Distance(s[i], s[j]) >= sep {
        assert Distance(t[i], t[j]) >= sep;
      }
      forall i | 0 <= i < |s| ensures Distance(s[i], x) >= sep {
        assert Distance(t[i], t[|s|]) >= sep;
      }
    }
  }

  lemma FarFromPermutation(a: seq<int>, b: seq<int>, x: int, sep: int)
    requires multiset(a) == multiset(b) && FarFrom(a, x, sep)
    ensures FarFrom(b, x, sep)
  {
    forall i | 0 <= i < |b| ensures Distance(b[i], x) >= sep {
      assert b[i] in multiset(a);
    }
  }

  lemma FarFromInsert(s: seq<int>, z: int, x: int, sep: int)
    ensures FarFrom(StableSort.Insert(s, z, Leq), x, sep) <==> FarFrom(s, x, sep) && Distance(z, x) >= sep
  {
    var r := StableSort.Insert(s, z, Leq);
    StableSort.InsertPermutes(s, z, Leq);
    assert multiset(s + [z]) == multiset(r);
    if FarFrom(r, x, sep) {
      FarFromPermutation(r, s + [z], x, sep);
      assert (s + [z])[|s|] == z;
      assert forall i :: 0 <= i < |s| ==> (s + [z])[i] == s[i];
    } else if FarFrom(s, x, sep) && Distance(z, x) >= sep {
      FarFromPermutation(s + [z], r, x, sep);
    }
  }

  lemma {:induction false} ApartInsert(s: seq<int>, x: int, sep: int)
    ensures Apart(StableSort.Insert(s, x, Leq), sep) <==> Apart(s, sep) && FarFrom(s, x, sep)
  {
    ApartSnoc(s, x, sep);
    if s != [] && !Leq(s[|s| - 1], x) {
      var rest, last := s[..|s| - 1], s[|s| - 1];
      assert s == rest + [last];
      ApartInsert(rest, x, sep);
      ApartSnoc(rest, last, sep);
      ApartSnoc(StableSort.Insert(rest, x, Leq), last, sep);
      FarFromInsert(rest, x, last, sep);
      assert FarFrom(s, x, sep) <==> FarFrom(rest, x, sep) && Distance(last, x) >= sep by {
        assert forall i :: 0 <= i < |rest| ==> s[i] == rest[i];
      }
    }
  }

  lemma {:induction false} ApartSort(s: seq<int>, sep: int)
    ensures Apart(StableSort.Sort(s, Leq), sep) <==> Apart(s, sep)
  {
    if s != [] {
      var rest, last := s[..|s| - 1], s[|s| - 1];
      assert s == rest + [last];
      ApartSort(rest, sep);
      ApartInsert(StableSort.Sort(rest, Leq), last, sep);
      ApartSnoc(rest, last, sep);
      StableSort.SortIsStable(rest, Leq);
      if FarFrom(rest, last, sep) {
        FarFromPermutation(rest, StableSort.Sort(rest, Leq), last, sep);
      } else if FarFrom(StableSort.Sort(rest, Leq), last, sep) {
        FarFromPermutation(StableSort.Sort(rest, Leq), rest, last, sep);
      }
    }
  }

  /** Comparing only neighbours of the sorted times decides whether any two entries are apart. */
  lemma NeighboursDecide(times: seq<int>, sep: int)
    ensures NeighboursApart(StableSort.Sort(times, Leq), sep) <==> Apart(times, sep)
  {
    var sorted := StableSort.Sort(times, Leq);
    StableSort.SortIsStable(times, Leq);
    ApartSort(times, sep);
    if NeighboursApart(sorted, sep) {
      forall i, j | 0 <= i < j < |sorted| ensures Distance(sorted[i], sorted[j]) >= sep {
        assert sorted[i + 1] - sorted[i] >= sep;
        assert Leq(sorted[i], sorted[j]);
        if i + 1 < j {
          assert Leq(sorted[i + 1], sorted[j]);
        }
      }
    } else if Apart(sorted, sep) {
      forall i | 0 <= i < |sorted| - 1 ensures sorted[i + 1] - sorted[i] >= sep {
        assert Leq(sorted[i], sorted[i + 1]);
        assert Distance(sorted[i], sorted[i + 1]) >= sep;
      }
    }
  }

  ghost function Nodes(schedule: Schedule): set<string> {
    set i | 0 <= i < |schedule| :: schedule[i].0
  }

  /** Nodes that still have a service. */
  ghost function NonDemoted(services: map<string, seq<string>>): set<string> {
    set k | k in services && services[k] != []
  }

  ghost predicate AllParse(schedule: Schedule, parse: string -> Option<int>) {
    forall i :: 0 <= i < |schedule| ==> parse(schedule[i].1).Some?
  }

  ghost predicate AllAfter(schedule: Schedule, parse: string -> Option<int>, now: int)
    requires AllParse(schedule, parse)
  {
    forall i :: 0 <= i < |schedule| ==> now < parse(schedule[i].1).value
  }

  /** Any two different nodes upgrade at least `sep` apart. */
  ghost predicate NodesApart(schedule: Schedule, parse: string -> Option<int>, sep: int)
    requires AllParse(schedule, parse)
  {
    forall i, j :: 0 <= i < j < |schedule| ==>
      Distance(parse(schedule[i].1).value, parse(schedule[j].1).value) >= sep
  }

  lemma ApartByTimes(schedule: Schedule, parse: string -> Option<int>, times: seq<int>, sep: int)
    requires |times| == |schedule| && forall k :: 0 <= k < |times| ==> parse(schedule[k].1) == Some(times[k])
    ensures AllParse(schedule, parse) && (NodesApart(schedule, parse, sep) <==> Apart(times, sep))
  {
  }

  /** `isScheduleValid`.  For an unforced schedule only neighbours in sorted order are compared, yet the
      result says that all pairs of nodes are apart. */
  method IsScheduleValid(schedule: Schedule, services: map<string, seq<string>>, force: bool,
                         parse: string -> Option<int>, now: int, minSep: int)
    returns (v: Verdict)
    ensures force ==> v == if AllParse(schedule, parse) then Valid else Unparsable
    ensures !force ==> (v.WrongNodes? <==> Nodes(schedule) != NonDemoted(services))
    ensures !force ==>
      (v.Valid? <==> && Nodes(schedule) == NonDemoted(services)
                     && AllParse(schedule, parse)
                     && AllAfter(schedule, parse, now)
                     && NodesApart(schedule, parse, minSep))
    ensures v.TooClose? ==> AllParse(schedule, parse) && AllAfter(schedule, parse, now)
    ensures v.NotInFuture? ==>
      exists i :: 0 <= i < |schedule| && parse(schedule[i].1).Some? && parse(schedule[i].1).value <= now
    ensures v.Unparsable? ==> !AllParse(schedule, parse)
  {
    var nodes := set i | 0 <= i < |schedule| :: schedule[i].0;
    var nonDemoted := set k | k in services && services[k] != [];
    if !force && nodes != nonDemoted {
      return WrongNodes;
    }
    var times := [];
    for i := 0 to |schedule|
      invariant |times| == i
      invariant forall k :: 0 <= k < i ==> parse(schedule[k].1) == Some(times[k])
      invariant !force ==> forall k :: 0 <= k < i ==> now < times[k]
    {
      var when := parse(schedule[i].1);
      if when.None? {
        return Unparsable;
      }
      if when.value <= now && !force {
        return NotInFuture;
      }
      times := times + [when.value];
    }
    if force {
      return Valid;
    }
    NeighboursDecide(times, minSep);
    ApartByTimes(schedule, parse, times, minSep);
    var sorted := StableSort.Sort(times, Leq);
    var i := 0;
    while i < |sorted| - 1
      invariant 0 <= i
      invariant forall k :: 0 <= k < i && k < |sorted| - 1 ==> sorted[k + 1] - sorted[k] >= minSep
    {
      var diff := sorted[i + 1] - sorted[i];
      if diff < minSep {
        return TooClose;
      }
      i := i + 1;
    }
    return Valid;
  }
}
