/** String operations the source takes from its languages: Python's `split` and `join`,
    decimal rendering and parsing, and the lexicographic order on strings. */
module Text {
  import opened Common

  // ----- searching, splitting, joining -----

  predicate OccursAt(s: string, sep: string, i: nat) {
    i + |sep| <= |s| && s[i..i + |sep|] == sep
  }

  ghost predicate Contains(s: string, sep: string) {
    exists i: nat :: OccursAt(s, sep, i)
  }

  /** The least index at or after `i` where `sep` occurs, as `str.find` computes it. */
  function FindFrom(s: string, sep: string, i: nat): (r: Option<nat>)
    requires i <= |s|
    ensures r.Some? ==> i <= r.value && OccursAt(s, sep, r.value)
    ensures r.Some? ==> forall j: nat :: i <= j < r.value ==> !OccursAt(s, sep, j)
    ensures r.None? ==> forall j: nat :: i <= j ==> !OccursAt(s, sep, j)
    decreases |s| - i
  {
    if OccursAt(s, sep, i) then Some(i)
    else if i == |s| then None
    else FindFrom(s, sep, i + 1)
  }

  /** Python's `s.split(sep)`: cut at every leftmost, non-overlapping separator. */
  function Split(s: string, sep: string): (parts: seq<string>)
    requires sep != ""
    ensures |parts| > 0
    decreases |s|
  {
    var at := FindFrom(s, sep, 0);
    if at.None? then [s]
    else [s[..at.value]] + Split(s[at.value + |sep|..], sep)
  }

  /** Python's `sep.join(parts)`. */
  function Join(parts: seq<string>, sep: string): string {
    if |parts| == 0 then ""
    else if |parts| == 1 then parts[0]
    else parts[0] + sep + Join(parts[1..], sep)
  }

  /** A part survives in front of a separator when the first separator of `p + sep` is the appended one. */
  ghost predicate SafeBefore(p: string, sep: string) {
    forall i: nat :: i < |p| ==> !OccursAt(p + sep, sep, i)
  }

  /** The exact condition under which splitting undoes joining. */
  ghost predicate Splittable(parts: seq<string>, sep: string) {
    && |parts| > 0
    && (forall i :: 0 <= i < |parts| - 1 ==> SafeBefore(parts[i], sep))
    && !Contains(parts[|parts| - 1], sep)
  }

  lemma {:induction false} JoinSplit(s: string, sep: string)
    requires sep != ""
    ensures Join(Split(s, sep), sep) == s
    decreases |s|
  {
    var at := FindFrom(s, sep, 0);
    if at.Some? {
      var k := at.value;
      JoinSplit(s[k + |sep|..], sep);
      assert Split(s, sep)[1..] == Split(s[k + |sep|..], sep);
      assert s == s[..k] + s[k..k + |sep|] + s[k + |sep|..];
    }
  }

  lemma OccursInPrefix(p: string, sep: string, rest: string, i: nat)
    requires sep != "" && i < |p|
    ensures OccursAt(p + sep, sep, i) <==> OccursAt(p + sep + rest, sep, i)
  {
  }

  lemma FirstCut(p: string, sep: string, rest: string)
    requires sep != ""
    ensures FindFrom(p + sep + rest, sep, 0).Some?
    ensures SafeBefore(p, sep) <==> FindFrom(p + sep + rest, sep, 0) == Some(|p|)
  {
    var s := p + sep + rest;
    assert s[|p|..|p| + |sep|] == sep;
    assert OccursAt(s, sep, |p|);
    forall i: nat | i < |p| ensures OccursAt(p + sep, sep, i) <==> OccursAt(s, sep, i) {
      OccursInPrefix(p, sep, rest, i);
    }
  }

  lemma SplittableCons(p: string, tail: seq<string>, sep: string)
    requires |tail| > 0
    ensures Splittable([p] + tail, sep) <==> SafeBefore(p, sep) && Splittable(tail, sep)
  {
    var parts := [p] + tail;
    assert parts[|parts| - 1] == tail[|tail| - 1];
    if Splittable(parts, sep) {
      assert parts[0] == p;
      forall i | 0 <= i < |tail| - 1 ensures SafeBefore(tail[i], sep) {
        assert tail[i] == parts[i + 1];
      }
    }
  }

  /** Splitting `p + sep + rest` gives `p` first exactly when `p` is safe, and then goes on with `rest`. */
  lemma SplitFirst(p: string, sep: string, rest: string)
    requires sep != ""
    ensures SafeBefore(p, sep) ==> Split(p + sep + rest, sep) == [p] + Split(rest, sep)
    ensures !SafeBefore(p, sep) ==> Split(p + sep + rest, sep)[0] != p
  {
    var s := p + sep + rest;
    FirstCut(p, sep, rest);
    var k := FindFrom(s, sep, 0).value;
    if k == |p| {
      assert s[..k] == p && s[k + |sep|..] == rest;
    } else {
      assert OccursAt(s, sep, |p|) by { assert s[|p|..|p| + |sep|] == sep; }
      assert k < |p|;
    }
  }

  /** Splitting undoes joining exactly when every part but the last is safe before the separator
      and the last one is free of it. */
  lemma {:induction false} SplitJoin(parts: seq<string>, sep: string)
    requires sep != "" && |parts| > 0
    ensures Split(Join(parts, sep), sep) == parts <==> Splittable(parts, sep)
  {
    var p, tail := parts[0], parts[1..];
    assert parts == [p] + tail;
    if tail == [] {
      assert FindFrom(p, sep, 0).None? <==> !Contains(p, sep);
    } else {
      SplitFirst(p, sep, Join(tail, sep));
      SplitJoin(tail, sep);
      SplittableCons(p, tail, sep);
      assert SafeBefore(p, sep) ==>
          (Split(Join(parts, sep), sep) == parts <==> Split(Join(tail, sep), sep) == tail) by {
        assert ([p] + Split(Join(tail, sep), sep))[1..] == Split(Join(tail, sep), sep);
      }
    }
  }

  /** For a one-character separator the condition is that no part holds the character. */
  lemma SplittableByChar(parts: seq<string>, c: char)
    requires |parts| > 0
    ensures Splittable(parts, [c]) <==> forall i :: 0 <= i < |parts| ==> c !in parts[i]
  {
    forall p: string
      ensures SafeBefore(p, [c]) <==> c !in p
      ensures Contains(p, [c]) <==> c in p
    {
      if c in p {
        var i :| 0 <= i < |p| && p[i] == c;
        assert p[i..i + 1] == [c];
        assert (p + [c])[i..i + 1] == [c];
        assert OccursAt(p, [c], i) && OccursAt(p + [c], [c], i);
      } else {
        forall i: nat | i < |p| ensures !OccursAt(p + [c], [c], i) {
          assert (p + [c])[i..i + 1] == [p[i]];
        }
        forall i: nat | i + 1 <= |p| ensures !OccursAt(p, [c], i) {
          assert p[i..i + 1] == [p[i]];
        }
      }
    }
  }

  // ----- decimal numerals -----

  function DigitChar(d: nat): (c: char)
    requires d < 10
    ensures IsDigit(c) && DigitValue(c) == d
  {
    ('0' as int + d) as char
  }

  predicate IsDigit(c: char) { '0' <= c <= '9' }

  function DigitValue(c: char): nat
    requires IsDigit(c)
  {
    c as int - '0' as int
  }

  predicate AllDigits(s: string) {
    forall i :: 0 <= i < |s| ==> IsDigit(s[i])
  }

  /** The decimal numeral of a natural number, without leading zeros. */
  function Decimal(n: nat): (s: string)
    ensures s != "" && AllDigits(s)
  {
    if n < 10 then [DigitChar(n)] else Decimal(n / 10) + [DigitChar(n % 10)]
  }

  function DigitsValue(s: string): nat
    requires AllDigits(s)
  {
    if s == "" then 0
    else 10 * DigitsValue(s[..|s| - 1]) + DigitValue(s[|s| - 1])
  }

  lemma {:induction false} DigitsValueOfDecimal(n: nat)
    ensures DigitsValue(Decimal(n)) == n
  {
    if n < 10 {
      assert Decimal(n)[..0] == "";
      assert DigitsValue(Decimal(n)) == 10 * DigitsValue("") + n;
    } else {
      DigitsValueOfDecimal(n / 10);
      var s := Decimal(n);
      assert s[..|s| - 1] == Decimal(n / 10);
    }
  }

  /** Leading zeros do not count. */
  lemma {:induction false} LeadingZero(s: string)
    requires AllDigits(s)
    ensures AllDigits("0" + s) && DigitsValue("0" + s) == DigitsValue(s)
  {
    if s == "" {
      assert "0" + s == "0" && "0"[..0] == "";
    } else {
      LeadingZero(s[..|s| - 1]);
      assert ("0" + s)[..|s|] == "0" + s[..|s| - 1];
    }
  }

  lemma DecimalInjective(x: nat, y: nat)
    ensures Decimal(x) == Decimal(y) <==> x == y
  {
    DigitsValueOfDecimal(x);
    DigitsValueOfDecimal(y);
  }

  // ----- lexicographic order -----

  /** Python's `a < b` on strings. */
  predicate StrLess(a: string, b: string) {
    if b == "" then false
    else if a == "" then true
    else if a[0] != b[0] then a[0] < b[0]
    else StrLess(a[1..], b[1..])
  }

  lemma {:induction false} StrLessTotal(a: string, b: string)
    ensures StrLess(a, b) || a == b || StrLess(b, a)
    ensures !(StrLess(a, b) && StrLess(b, a))
    ensures !StrLess(a, a)
  {
    if a != "" && b != "" && a[0] == b[0] {
      StrLessTotal(a[1..], b[1..]);
      assert a == [a[0]] + a[1..] && b == [b[0]] + b[1..];
    }
    if a != "" {
      StrLessTotal(a[1..], a[1..]);
    }
  }

  lemma {:induction false} StrLessTransitive(a: string, b: string, c: string)
    requires StrLess(a, b) && StrLess(b, c)
    ensures StrLess(a, c)
  {
    if a != "" && a[0] == b[0] == c[0] {
      StrLessTransitive(a[1..], b[1..], c[1..]);
    }
  }
}
