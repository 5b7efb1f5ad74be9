/** Selection and ordering of the migration scripts between two versions. */
module Migrations {
  import opened Common
  import opened Text
  import opened StableSort

  /** `compareVersions`: negative, zero or positive. */
  type Compare = (string, string) -> int

  /** The comparison is a total preorder on versions. */
  ghost predicate Orders(cmp: Compare) {
    && (forall a, b :: cmp(a, b) <= 0 || cmp(b, a) <= 0)
    && (forall a, b :: cmp(a, b) > 0 <==> cmp(b, a) < 0)
    && (forall a, b, c :: cmp(a, b) <= 0 && cmp(b, c) <= 0 ==> cmp(a, c) <= 0)
  }

  datatype Versions = Versions(original: string, target: string)

  /** `_get_migration_versions`: a name of seven parts gives its first three and last three. */
  function MigrationVersions(name: string): Option<Versions> {
    var parts := Split(name, "_");
    if |parts| != 7 then None else Some(Versions(Join(parts[..3], "."), Join(parts[4..], ".")))
  }

  predicate WellNamed(name: string) { MigrationVersions(name).Some? }

  /** `_compare_migration_scripts`. */
  function CompareScripts(cmp: Compare, a: string, b: string): int {
    if !WellNamed(a) || !WellNamed(b) then 0
    else
      var va, vb := MigrationVersions(a).value, MigrationVersions(b).value;
      if cmp(va.original, vb.original) == 0 then cmp(va.target, vb.target) else cmp(va.original, vb.original)
  }

  /** The order by which the scripts are sorted; names that do not parse are never in the list. */
  function ScriptLeq(cmp: Compare): (string, string) -> bool {
    (a, b) => if WellNamed(a) && WellNamed(b) then CompareScripts(cmp, a, b) <= 0 else !WellNamed(a)
  }

  /** Comparing by original version and then by target version is again a total preorder. */
  lemma ScriptOrderIsTotal(cmp: Compare)
    requires Orders(cmp)
    ensures TotalPreorder(ScriptLeq(cmp))
  {
  }

  /** The script lies inside the version range: going up from `current` to `new`, or down. */
  ghost predicate InRange(cmp: Compare, v: Versions, current: string, newest: string) {
    if cmp(newest, current) >= 0
    then cmp(current, v.original) <= 0 && cmp(v.original, v.target) <= 0 && cmp(v.target, newest) <= 0
    else cmp(newest, v.target) <= 0 && cmp(v.target, v.original) <= 0 && cmp(v.original, current) <= 0
  }

  ghost predicate Relevant(cmp: Compare, name: string, current: string, newest: string) {
    WellNamed(name) && InRange(cmp, MigrationVersions(name).value, current, newest)
  }

  ghost function RelevantOnes(cmp: Compare, names: seq<string>, current: string, newest: string): seq<string> {
    if names == [] then []
    else
      var before, name := names[..|names| - 1], names[|names| - 1];
      RelevantOnes(cmp, before, current, newest) + if Relevant(cmp, name, current, newest) then [name] else []
  }

  /** Two scripts in order: first by original version, then by target version. */
  ghost predicate NotAfter(cmp: Compare, a: string, b: string) {
    && WellNamed(a) && WellNamed(b)
    && var v, w := MigrationVersions(a).value, MigrationVersions(b).value;
       cmp(v.original, w.original) < 0 || (cmp(v.original, w.original) == 0 && cmp(v.target, w.target) <= 0)
  }

  lemma {:induction false} RelevantOnesAre(cmp: Compare, names: seq<string>, current: string, newest: string,
                                           name: string)
    ensures name in RelevantOnes(cmp, names, current, newest) <==> name in names && Relevant(cmp, name, current, newest)
  {
    if names != [] {
      RelevantOnesAre(cmp, names[..|names| - 1], current, newest, name);
      assert names == names[..|names| - 1] + [names[|names| - 1]];
    }
  }

  lemma ResultIsOrdered(cmp: Compare, names: seq<string>, current: string, newest: string, result: seq<string>)
    requires IsStableSort(RelevantOnes(cmp, names, current, newest), result, ScriptLeq(cmp))
    ensures forall name :: name in result <==> name in names && Relevant(cmp, name, current, newest)
    ensures forall i, j :: 0 <= i < j < |result| ==> NotAfter(cmp, result[i], result[j])
  {
    var kept := RelevantOnes(cmp, names, current, newest);
    forall name ensures name in result <==> name in names && Relevant(cmp, name, current, newest) {
      RelevantOnesAre(cmp, names, current, newest, name);
      assert name in result <==> name in multiset(result);
      assert name in kept <==> name in multiset(kept);
    }
    forall i, j | 0 <= i < j < |result| ensures NotAfter(cmp, result[i], result[j]) {
      assert result[i] in result && result[j] in result;
      var leq := ScriptLeq(cmp);
      assert leq(result[i], result[j]);
    }
  }

  /** The checks of one script: its direction, and then whether it lies inside the range. */
  method IsInRange(cmp: Compare, v: Versions, current: string, newest: string) returns (r: bool)
    requires Orders(cmp)
    ensures r <==> InRange(cmp, v, current, newest)
  {
    if cmp(newest, current) >= 0 {
      if cmp(v.original, v.target) > 0 {
        return false;
      }
      return cmp(current, v.original) <= 0 && cmp(newest, v.target) >= 0;
    }
    if cmp(v.target, v.original) > 0 {
      return false;
    }
    return cmp(current, v.original) >= 0 && cmp(newest, v.target) <= 0;
  }

  lemma RelevantStep(cmp: Compare, names: seq<string>, i: nat, current: string, newest: string)
    requires i < |names|
    ensures RelevantOnes(cmp, names[..i + 1], current, newest)
         == RelevantOnes(cmp, names[..i], current, newest)
            + if Relevant(cmp, names[i], current, newest) then [names[i]] else []
  {
    assert names[..i + 1][..i] == names[..i];
  }

  lemma ResortStep(kept: seq<string>, name: string, leq: (string, string) -> bool)
    requires TotalPreorder(leq)
    ensures Sort(Sort(kept, leq) + [name], leq) == Sort(kept + [name], leq)
    ensures Sort(Sort(kept, leq), leq) == Sort(kept, leq) == Sort(kept + [], leq)
  {
    SortAppend(kept, name, leq);
    SortIdempotent(kept, leq);
    assert kept + [] == kept;
  }

  /** `_get_relevant_migrations`: the result is the stable sort, by original and then target version, of exactly
      the well-named scripts inside the range, although the list is sorted again after every script. */
  method GetRelevantMigrations(cmp: Compare, names: seq<string>, current: string, newest: string)
    returns (relevant: seq<string>)
    requires Orders(cmp)
    ensures IsStableSort(RelevantOnes(cmp, names, current, newest), relevant, ScriptLeq(cmp))
    ensures forall name :: name in relevant <==> name in names && Relevant(cmp, name, current, newest)
    ensures forall i, j :: 0 <= i < j < |relevant| ==> NotAfter(cmp, relevant[i], relevant[j])
  {
    ghost var leq := ScriptLeq(cmp);
    ScriptOrderIsTotal(cmp);
    relevant := [];
    for i := 0 to |names|
      invariant relevant == Sort(RelevantOnes(cmp, names[..i], current, newest), leq)
    {
      RelevantStep(cmp, names, i, current, newest);
      ResortStep(RelevantOnes(cmp, names[..i], current, newest), names[i], leq);
      var versions := MigrationVersions(names[i]);
      if versions.None? {
        continue;
      }
      var inRange := IsInRange(cmp, versions.value, current, newest);
      if inRange {
        relevant := relevant + [names[i]];
      }
      relevant := Sort(relevant, ScriptLeq(cmp));
    }
    assert names[..|names|] == names;
    SortIsStable(RelevantOnes(cmp, names, current, newest), leq);
    ResultIsOrdered(cmp, names, current, newest, relevant);
  }

  // ----- whether the scripts can be applied in that order -----

  function Original(name: string): string
    requires WellNamed(name)
  {
    MigrationVersions(name).value.original
  }

  function Target(name: string): string
    requires WellNamed(name)
  {
    MigrationVersions(name).value.target
  }

  /** `b` starts from the version that `a` leads to, so `a` has to be applied first. */
  ghost predicate LeadsTo(cmp: Compare, a: string, b: string) {
    WellNamed(a) && WellNamed(b) && cmp(Target(a), Original(b)) == 0 && cmp(Original(a), Original(b)) != 0
  }

  /** Where two consecutive scripts stand: the earlier one has the lesser original version exactly on the way up. */
  lemma OriginalsFollowDirection(cmp: Compare, a: string, b: string, current: string, newest: string)
    requires Orders(cmp) && LeadsTo(cmp, a, b)
    requires Relevant(cmp, a, current, newest) && Relevant(cmp, b, current, newest)
    ensures cmp(Original(a), Original(b)) < 0 <==> cmp(newest, current) >= 0
  {
    var v, w := MigrationVersions(a).value, MigrationVersions(b).value;
    assert cmp(v.original, w.original) > 0 <==> cmp(w.original, v.original) < 0;
    if cmp(newest, current) >= 0 {
      assert cmp(v.original, v.target) <= 0 && cmp(v.target, w.original) <= 0;
      assert cmp(v.original, w.original) <= 0;
    } else {
      assert cmp(w.original, v.target) <= 0 && cmp(v.target, v.original) <= 0;
      assert cmp(w.original, v.original) <= 0;
    }
  }

  /** A script that has to be applied before another comes before it in the result exactly when the range goes up: for
      a downgrade the list still ascends, so consecutive scripts come in the wrong order. */
  lemma ConsecutiveInOrderExactly(cmp: Compare, names: seq<string>, current: string, newest: string,
                                  result: seq<string>, i: nat, j: nat)
    requires Orders(cmp) && IsStableSort(RelevantOnes(cmp, names, current, newest), result, ScriptLeq(cmp))
    requires i < |result| && j < |result| && LeadsTo(cmp, result[i], result[j])
    ensures i < j <==> cmp(newest, current) >= 0
  {
    ResultIsOrdered(cmp, names, current, newest, result);
    assert result[i] in result && result[j] in result;
    OriginalsFollowDirection(cmp, result[i], result[j], current, newest);
  }

  /** The name of a script between two versions of three components. */
  function ScriptName(from: seq<string>, to: seq<string>): string { Join(from + ["to"] + to, "_") }

  ghost predicate PlainVersion(v: seq<string>) { |v| == 3 && forall i :: 0 <= i < 3 ==> '_' !in v[i] }

  lemma VersionsOfName(from: seq<string>, to: seq<string>)
    requires PlainVersion(from) && PlainVersion(to)
    ensures MigrationVersions(ScriptName(from, to)) == Some(Versions(Join(from, "."), Join(to, ".")))
  {
    var parts := from + ["to"] + to;
    forall i | 0 <= i < |parts| ensures '_' !in parts[i] {
    }
    SplittableByChar(parts, '_');
    SplitJoin(parts, "_");
    assert parts[..3] == from && parts[4..] == to;
  }

  /** A name is that of a script exactly when it is made of seven parts. */
  lemma WellNamedExactly(parts: seq<string>)
    requires parts != [] && forall i :: 0 <= i < |parts| ==> '_' !in parts[i]
    ensures WellNamed(Join(parts, "_")) <==> |parts| == 7
  {
    SplittableByChar(parts, '_');
    SplitJoin(parts, "_");
  }

  /** Which scripts are selected, on their names: on the way up those that lead up within the range, and on the way down
      those that lead down within it, its ends included. */
  lemma SelectedExactly(cmp: Compare, from: seq<string>, to: seq<string>, current: string, newest: string)
    requires Orders(cmp) && PlainVersion(from) && PlainVersion(to)
    ensures var f, t := Join(from, "."), Join(to, ".");
      Relevant(cmp, ScriptName(from, to), current, newest) <==>
        if cmp(current, newest) <= 0 then cmp(current, f) <= 0 && cmp(f, t) <= 0 && cmp(t, newest) <= 0
        else cmp(newest, t) <= 0 && cmp(t, f) <= 0 && cmp(f, current) <= 0
  {
    VersionsOfName(from, to);
    assert cmp(newest, current) < 0 <==> cmp(current, newest) > 0;
  }

  /** Both scripts of a downgrade in two steps are selected. */
  lemma BothSelected(cmp: Compare, a: string, b: string, from: string, mid: string, to: string)
    requires Orders(cmp) && cmp(to, mid) < 0 && cmp(mid, from) < 0
    requires MigrationVersions(a) == Some(Versions(from, mid)) && MigrationVersions(b) == Some(Versions(mid, to))
    ensures RelevantOnes(cmp, [a, b], from, to) == [a, b] && cmp(to, from) < 0 && LeadsTo(cmp, a, b)
  {
    assert cmp(to, mid) <= 0 && cmp(mid, from) <= 0;
    assert cmp(from, from) <= 0 && cmp(to, to) <= 0 && cmp(mid, mid) <= 0;
    assert cmp(mid, mid) == 0 by { assert cmp(mid, mid) > 0 <==> cmp(mid, mid) < 0; }
    assert cmp(from, mid) > 0 && cmp(mid, to) > 0;
    assert cmp(from, to) <= 0 ==> cmp(from, mid) <= 0;
    assert cmp(to, from) < 0;
    assert Relevant(cmp, a, from, to) && Relevant(cmp, b, from, to);
    assert [a, b][..1] == [a] && [a][..0] == [];
    assert RelevantOnes(cmp, [a], from, to) == [a];
  }

  /** Going down from 1.2.0 over 1.1.0 to 1.0.0, say, the script of the second step is run first. */
  lemma DowngradeRunsBackwards(cmp: Compare, from: seq<string>, mid: seq<string>, to: seq<string>, result: seq<string>)
    requires Orders(cmp) && PlainVersion(from) && PlainVersion(mid) && PlainVersion(to)
    requires cmp(Join(to, "."), Join(mid, ".")) < 0 && cmp(Join(mid, "."), Join(from, ".")) < 0
    requires IsStableSort(
      RelevantOnes(cmp, [ScriptName(from, mid), ScriptName(mid, to)], Join(from, "."), Join(to, ".")),
      result, ScriptLeq(cmp))
    ensures result == [ScriptName(mid, to), ScriptName(from, mid)]
  {
    var a, b := ScriptName(from, mid), ScriptName(mid, to);
    VersionsOfName(from, mid);
    VersionsOfName(mid, to);
    BothSelected(cmp, a, b, Join(from, "."), Join(mid, "."), Join(to, "."));
    TwoElements(a, b, result);
    if result == [a, b] {
      ConsecutiveInOrderExactly(cmp, [a, b], Join(from, "."), Join(to, "."), result, 0, 1);
    }
  }

  lemma TwoElements(a: string, b: string, s: seq<string>)
    requires multiset(s) == multiset([a, b])
    ensures s == [a, b] || s == [b, a]
  {
    assert |s| == |multiset(s)| == 2;
    assert s == [s[0], s[1]];
    assert multiset([a, b]) == multiset{a, b};
    assert s[0] in multiset(s) && s[1] in multiset(s);
    assert multiset(s) == multiset{s[0], s[1]};
    assert multiset{s[0], s[1]}[a] == multiset{a, b}[a];
  }
}
