/** Releases as sequences of numbers, their numeric order, and what is left of it in their text. */
module Releases {
  import opened Text

  type Release = seq<nat>

  function Numerals(r: Release): seq<string> {
    seq(|r|, i requires 0 <= i < |r| => Decimal(r[i]))
  }

  /** The release as text, such as "1.10.0". */
  function Rendered(r: Release): string { Join(Numerals(r), ".") }

  /** Numeric order, component by component; a release is older than its extensions. */
  predicate Older(a: Release, b: Release) {
    b != [] && (a == [] || a[0] < b[0] || (a[0] == b[0] && Older(a[1..], b[1..])))
  }

  /** The first component in which the releases differ. */
  ghost predicate DifferAt(a: Release, b: Release, k: int) {
    0 <= k < |a| && k < |b| && a[..k] == b[..k] && a[k] != b[k]
  }

  // ----- numerals -----

  lemma {:induction false} LengthMonotone(x: nat, y: nat)
    requires x <= y
    ensures |Decimal(x)| <= |Decimal(y)|
  {
    if x >= 10 {
      LengthMonotone(x / 10, y / 10);
    }
  }

  /** The number that the first `n` digits of `y` show, or `y` when it has no more. */
  function Leading(y: nat, n: nat): nat {
    if |Decimal(y)| <= n || y < 10 then y else Leading(y / 10, n)
  }

  lemma {:induction false} LessSnoc(p: string, c: char, q: string, d: char)
    requires |p| == |q|
    ensures StrLess(p + [c], q + [d]) <==> StrLess(p, q) || (p == q && c < d)
  {
    if p != "" {
      LessSnoc(p[1..], c, q[1..], d);
      assert (p + [c])[1..] == p[1..] + [c] && (q + [d])[1..] == q[1..] + [d];
      assert p == [p[0]] + p[1..] && q == [q[0]] + q[1..];
    }
  }

  lemma {:induction false} LessExtended(p: string, q: string, d: char)
    requires |p| <= |q|
    ensures StrLess(p, q + [d]) <==> StrLess(p, q) || p == q
  {
    if p != "" {
      LessExtended(p[1..], q[1..], d);
      assert (q + [d])[1..] == q[1..] + [d];
      assert p == [p[0]] + p[1..] && q == [q[0]] + q[1..];
    }
  }

  /** Numerals of the same length are in numeric order. */
  lemma {:induction false} SameLengthOrder(x: nat, y: nat)
    requires |Decimal(x)| == |Decimal(y)|
    ensures StrLess(Decimal(x), Decimal(y)) <==> x < y
  {
    if x >= 10 && y >= 10 {
      SameLengthOrder(x / 10, y / 10);
      LessSnoc(Decimal(x / 10), DigitChar(x % 10), Decimal(y / 10), DigitChar(y % 10));
      DecimalInjective(x / 10, y / 10);
    } else {
      assert x < 10 && y < 10;
      assert Decimal(x)[0] == DigitChar(x) && Decimal(y)[0] == DigitChar(y);
    }
  }

  /** The smaller of two numbers comes first as text exactly when it does not exceed the number that as many leading
      digits of the greater one show. */
  lemma {:induction false} NumeralOrder(x: nat, y: nat)
    requires x < y
    ensures StrLess(Decimal(x), Decimal(y)) <==> x <= Leading(y, |Decimal(x)|)
  {
    LengthMonotone(x, y);
    if |Decimal(x)| == |Decimal(y)| {
      SameLengthOrder(x, y);
    } else {
      LessExtended(Decimal(x), Decimal(y / 10), DigitChar(y % 10));
      DecimalInjective(x, y / 10);
      if x < y / 10 {
        NumeralOrder(x, y / 10);
      } else {
        LengthMonotone(y / 10, x);
        SameLengthOrder(x, y / 10);
      }
    }
  }

  // ----- releases as text -----

  /** What follows a numeral: nothing, or a dot. */
  predicate AfterNumeral(s: string) { s == "" || s[0] == '.' }

  lemma {:induction false} SamePrefix(p: string, x: string, y: string)
    ensures StrLess(p + x, p + y) <==> StrLess(x, y)
  {
    if p == "" {
      assert p + x == x && p + y == y;
    } else {
      SamePrefix(p[1..], x, y);
      assert (p + x)[1..] == p[1..] + x && (p + y)[1..] == p[1..] + y;
    }
  }

  /** Different numerals decide the order whatever follows, since a dot is less than any digit. */
  lemma {:induction false} NumeralsDecide(p: string, x: string, q: string, y: string)
    requires AllDigits(p) && AllDigits(q) && p != q && AfterNumeral(x) && AfterNumeral(y)
    ensures StrLess(p + x, q + y) <==> StrLess(p, q)
  {
    if p == "" {
      assert p + x == x;
    } else if q == "" {
      assert q + y == y;
    } else if p[0] == q[0] {
      assert p == [p[0]] + p[1..] && q == [q[0]] + q[1..];
      NumeralsDecide(p[1..], x, q[1..], y);
      assert (p + x)[1..] == p[1..] + x && (q + y)[1..] == q[1..] + y;
    }
  }

  function RestRendered(r: Release): string
    requires r != []
  {
    if |r| == 1 then "" else "." + Rendered(r[1..])
  }

  lemma RenderedCons(r: Release)
    requires r != []
    ensures Rendered(r) == Decimal(r[0]) + RestRendered(r) && AfterNumeral(RestRendered(r))
  {
    assert Numerals(r)[1..] == Numerals(r[1..]);
  }

  lemma RestOrder(a: Release, b: Release)
    requires a != [] && b != []
    ensures StrLess(RestRendered(a), RestRendered(b)) <==>
      |b| > 1 && (|a| == 1 || StrLess(Rendered(a[1..]), Rendered(b[1..])))
  {
    if |a| > 1 && |b| > 1 {
      SamePrefix(".", Rendered(a[1..]), Rendered(b[1..]));
    }
  }

  lemma DifferInTail(a: Release, b: Release, k: int)
    requires a != [] && b != [] && a[0] == b[0]
    ensures DifferAt(a, b, k) <==> DifferAt(a[1..], b[1..], k - 1)
  {
    if 1 <= k <= |a| && k <= |b| {
      assert a[..k] == [a[0]] + a[1..][..k - 1] && b[..k] == [b[0]] + b[1..][..k - 1];
    }
  }

  lemma PrefixOfTail(a: Release, b: Release)
    requires a != [] && b != [] && a[0] == b[0]
    ensures a < b <==> a[1..] < b[1..]
  {
    assert a == [a[0]] + a[1..] && b == [b[0]] + b[1..];
  }

  /** The text of `a` comes before the text of `b`: the first different components do, as text. */
  ghost predicate TextOrdered(a: Release, b: Release) {
    a < b || exists k :: DifferAt(a, b, k) && StrLess(Decimal(a[k]), Decimal(b[k]))
  }

  lemma TextOrderedTail(a: Release, b: Release)
    requires a != [] && b != [] && a[0] == b[0]
    ensures TextOrdered(a, b) <==> TextOrdered(a[1..], b[1..])
  {
    PrefixOfTail(a, b);
    if k :| DifferAt(a, b, k) && StrLess(Decimal(a[k]), Decimal(b[k])) {
      DifferInTail(a, b, k);
    }
    if k :| DifferAt(a[1..], b[1..], k) && StrLess(Decimal(a[1..][k]), Decimal(b[1..][k])) {
      DifferInTail(a, b, k + 1);
    }
  }

  /** For all releases the order of their texts is decided by the first different components, as text. */
  lemma {:induction false} RenderedOrder(a: Release, b: Release)
    ensures StrLess(Rendered(a), Rendered(b)) <==> TextOrdered(a, b)
  {
    if a != [] {
      RenderedCons(a);
    }
    if b != [] {
      RenderedCons(b);
    }
    if a != [] && b != [] {
      if a[0] == b[0] {
        SamePrefix(Decimal(a[0]), RestRendered(a), RestRendered(b));
        RestOrder(a, b);
        TextOrderedTail(a, b);
        RenderedOrder(a[1..], b[1..]);
      } else {
        DecimalInjective(a[0], b[0]);
        NumeralsDecide(Decimal(a[0]), RestRendered(a), Decimal(b[0]), RestRendered(b));
        assert DifferAt(a, b, 0) && forall k :: DifferAt(a, b, k) ==> k == 0 by {
          assert forall k :: k > 0 && k <= |a| && k <= |b| ==> a[..k][0] == a[0] && b[..k][0] == b[0];
        }
      }
    }
  }

  // ----- against the numeric order -----

  lemma {:induction false} OlderAt(a: Release, b: Release, k: int)
    requires Older(a, b) && DifferAt(a, b, k)
    ensures a[k] < b[k]
  {
    if k > 0 {
      assert a[..k][0] == a[0] && b[..k][0] == b[0];
      DifferInTail(a, b, k);
      OlderAt(a[1..], b[1..], k - 1);
    }
  }

  /** The text keeps the order of an older release and a newer one: the older one is a prefix, or its first different
      component does not exceed the number that as many leading digits of the newer one's show. */
  ghost predicate TextKeepsOrder(a: Release, b: Release) {
    a < b || exists k :: DifferAt(a, b, k) && a[k] <= Leading(b[k], |Decimal(a[k])|)
  }

  lemma KeptExactly(a: Release, b: Release)
    requires Older(a, b)
    ensures TextOrdered(a, b) <==> TextKeepsOrder(a, b)
  {
    forall k | DifferAt(a, b, k)
      ensures StrLess(Decimal(a[k]), Decimal(b[k])) <==> a[k] <= Leading(b[k], |Decimal(a[k])|)
    {
      OlderAt(a, b, k);
      NumeralOrder(a[k], b[k]);
    }
  }

  /** An older release comes first as text exactly under that condition. */
  lemma OlderComesFirstExactly(a: Release, b: Release)
    requires Older(a, b)
    ensures StrLess(Rendered(a), Rendered(b)) <==> TextKeepsOrder(a, b)
  {
    RenderedOrder(a, b);
    KeptExactly(a, b);
  }

  lemma {:induction false} OlderIrreflexive(a: Release)
    ensures !Older(a, a)
  {
    if a != [] {
      OlderIrreflexive(a[1..]);
    }
  }

  /** Different releases have different texts. */
  lemma RenderedInjective(a: Release, b: Release)
    ensures Rendered(a) == Rendered(b) <==> a == b
  {
    if Rendered(a) == Rendered(b) && a != b {
      RenderedOrder(a, b);
      RenderedOrder(b, a);
      StrLessTotal(Rendered(a), Rendered(a));
      FirstDifference(a, b);
      if k :| DifferAt(a, b, k) {
        DecimalInjective(a[k], b[k]);
        StrLessTotal(Decimal(a[k]), Decimal(b[k]));
        assert DifferAt(b, a, k);
      }
    }
  }

  lemma {:induction false} FirstDifference(a: Release, b: Release)
    requires a != b
    ensures a < b || b < a || exists k :: DifferAt(a, b, k)
  {
    if a != [] && b != [] {
      if a[0] != b[0] {
        assert DifferAt(a, b, 0);
      } else {
        assert a == [a[0]] + a[1..] && b == [b[0]] + b[1..];
        FirstDifference(a[1..], b[1..]);
        PrefixOfTail(a, b);
        PrefixOfTail(b, a);
        if k :| DifferAt(a[1..], b[1..], k) {
          DifferInTail(a, b, k + 1);
        }
      }
    }
  }

  lemma SmallNumerals()
    ensures Decimal(0) == "0" && Decimal(1) == "1" && Decimal(9) == "9" && Decimal(10) == "10"
  {
    assert Decimal(10) == Decimal(1) + [DigitChar(0)];
  }

  lemma TextOfNine()
    ensures Rendered([1, 9, 0]) == "1.9.0" && |Decimal(9)| == 1 && Leading(10, 1) == 1
  {
    SmallNumerals();
    assert Numerals([1, 9, 0]) == ["1", "9", "0"];
    assert ["1", "9", "0"][1..] == ["9", "0"] && ["9", "0"][1..] == ["0"];
  }

  lemma TextOfTen()
    ensures Rendered([1, 10, 0]) == "1.10.0"
  {
    SmallNumerals();
    assert Numerals([1, 10, 0]) == ["1", "10", "0"];
    assert ["1", "10", "0"][1..] == ["10", "0"] && ["10", "0"][1..] == ["0"];
  }

  /** Release 1.9.0 is older than 1.10.0 and its text is not. */
  lemma NineComesAfterTen()
    ensures Older([1, 9, 0], [1, 10, 0]) && !TextKeepsOrder([1, 9, 0], [1, 10, 0])
    ensures Rendered([1, 9, 0]) == "1.9.0" && Rendered([1, 10, 0]) == "1.10.0"
  {
    var a, b: Release := [1, 9, 0], [1, 10, 0];
    assert Older([9, 0], [10, 0]);
    assert a[1..] == [9, 0] && b[1..] == [10, 0];
    assert a[..2] == [1, 9] && b[..2] == [1, 10];
    assert forall k :: DifferAt(a, b, k) ==> k == 1;
    TextOfNine();
    TextOfTen();
  }
}
