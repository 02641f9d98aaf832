/** IEEE 754 binary64, as far as the shrink guard needs it. */
module Float64 {

  function Pow2(n: nat): (p: nat)
    ensures p > 0
  {
    if n == 0 then 1 else 2 * Pow2(n - 1)
  }

  lemma {:induction false} Pow2Add(a: nat, b: nat)
    ensures Pow2(a + b) == Pow2(a) * Pow2(b)
  {
    if a > 0 {
      Pow2Add(a - 1, b);
      assert Pow2(a) * Pow2(b) == 2 * (Pow2(a - 1) * Pow2(b));
    }
  }

  const TWO_53: int := 0x20_0000_0000_0000

  lemma Pow2Values()
    ensures Pow2(2) == 4 && Pow2(54) == 2 * TWO_53
  {
    assert Pow2(1) == 2 && Pow2(2) == 4 && Pow2(3) == 8;
    assert Pow2(4) == 16 && Pow2(5) == 32 && Pow2(6) == 64;
    Pow2Add(6, 6);
    Pow2Add(12, 12);
    Pow2Add(24, 24);
    Pow2Add(48, 6);
  }

  /** m times two to the power e. */
  function Scale(m: int, e: int): real {
    if e >= 0 then (m * Pow2(e)) as real else m as real / Pow2(-e) as real
  }

  /** The finite doubles. */
  ghost predicate IsDouble(x: real) {
    exists m: int, e: int :: -TWO_53 < m < TWO_53 && -1074 <= e <= 971 && x == Scale(m, e)
  }

  function Abs(x: real): real {
    if x < 0.0 then -x else x
  }

  /** r is x rounded to a nearest double; on a tie either neighbour may be taken. */
  ghost predicate IsRounded(x: real, r: real) {
    IsDouble(r) && forall d :: IsDouble(d) ==> Abs(x - r) <= Abs(x - d)
  }

  /** A platform's conversion from int and its division, both correctly rounded. */
  ghost predicate Correct(convert: int -> real, divide: (real, real) -> real) {
    && (forall n :: IsRounded(n as real, convert(n)))
    && (forall a, b :: b != 0.0 ==> IsRounded(a / b, divide(a, b)))
  }

  lemma DoubleIsFixed(x: real, r: real)
    requires IsDouble(x) && IsRounded(x, r)
    ensures r == x
  {
    assert Abs(x - r) <= Abs(x - x);
  }

  lemma SmallIntIsDouble(n: int)
    requires -TWO_53 < n < TWO_53
    ensures IsDouble(n as real)
  {
    assert Pow2(0) == 1;
    assert Scale(n, 0) == n as real;
  }

  const QUARTER: real := 0.25

  lemma QuarterAndNext()
    ensures IsDouble(QUARTER)
    ensures IsDouble(QUARTER + 1.0 / (2 * TWO_53) as real)
  {
    Pow2Values();
    assert Scale(1, -2) == QUARTER;
    assert Scale(TWO_53 / 2 + 1, -54) == QUARTER + 1.0 / (2 * TWO_53) as real;
  }

  lemma QuotientAboveQuarter(a: int, b: int, q: real)
    requires 0 < b && q == a as real / b as real
    requires 4 * a > b ==> b < (4 * a - b) * TWO_53
    ensures 4 * a > b ==> q - QUARTER > 1.0 / (4 * TWO_53) as real
    ensures 4 * a <= b ==> q <= QUARTER
  {
    var x := q - QUARTER;
    assert q * b as real == a as real;
    assert x * (4 * b) as real == (4 * a - b) as real;
    if 4 * a > b {
      var n := (4 * a - b) as real;
      assert (b as real) < n * TWO_53 as real;
      Scaled(x, (4 * b) as real, n * (4 * TWO_53) as real, n);
      assert n / (n * (4 * TWO_53) as real) == 1.0 / (4 * TWO_53) as real;
    }
  }

  lemma Scaled(x: real, s: real, t: real, one: real)
    requires 0.0 < s < t && x * s >= one > 0.0
    ensures x > one / t
  {
    assert x > 0.0;
    assert x * t > x * s;
  }

  /** Rounding the quotient does not move it across one quarter, when it is not too
      near; a divisor below 2^53 never brings it too near. */
  lemma QuotientTestExact(a: int, b: int, r: real)
    requires 0 < b && (4 * a > b ==> b < (4 * a - b) * TWO_53)
    requires IsRounded(a as real / b as real, r)
    ensures r > QUARTER <==> 4 * a > b
  {
    var q := a as real / b as real;
    QuotientAboveQuarter(a, b, q);
    QuarterAndNext();
    var next := QUARTER + 1.0 / (2 * TWO_53) as real;
    assert Abs(q - r) <= Abs(q - QUARTER);
    assert Abs(q - r) <= Abs(q - next);
  }

  /** Rounding keeps to its side of a double. */
  lemma RoundedBeside(x: real, r: real, d: real)
    requires IsRounded(x, r) && IsDouble(d)
    ensures x >= d ==> r >= d
    ensures x <= d ==> r <= d
  {
    assert Abs(x - r) <= Abs(x - d);
  }

  /** A double above 2^54 is a multiple of four. */
  lemma LargeDoubleSpacing(d: real)
    requires IsDouble(d) && d > (2 * TWO_53) as real
    ensures d >= (2 * TWO_53 + 4) as real
  {
    var m: int, e: int :| -TWO_53 < m < TWO_53 && -1074 <= e <= 971 && d == Scale(m, e);
    Pow2Values();
    assert Pow2(0) == 1 && Pow2(1) == 2;
    if e < 0 {
      SmallQuotient(m as real, Pow2(-e) as real);
    } else if e >= 2 {
      Pow2Add(2, e - 2);
      var k := m * Pow2(e - 2);
      assert m * Pow2(e) == 4 * k;
    }
  }

  lemma SmallQuotient(m: real, p: real)
    requires p >= 1.0
    ensures m / p <= (if m < 0.0 then 0.0 else m)
  {
    var q := m / p;
    assert q * p == m;
    if q > 0.0 {
      assert q * p >= q;
    }
  }

  /** Under any tie rule 2^54 + 3 becomes 2^54 + 4. */
  lemma LargeIntRounds(r: real)
    requires IsRounded((2 * TWO_53 + 3) as real, r)
    ensures r == (2 * TWO_53 + 4) as real
  {
    var x := (2 * TWO_53 + 3) as real;
    var above := (2 * TWO_53 + 4) as real;
    assert Pow2(1) == 2 && Pow2(2) == 4;
    assert Scale(TWO_53 / 2 + 1, 2) == above;
    assert IsDouble(above);
    assert Abs(x - r) <= Abs(x - above);
    LargeDoubleSpacing(r);
  }

  // ---- ties to even -------------------------------------------------------

  const TWO_52: int := TWO_53 / 2

  /** A double whose last significand bit is zero: it needs one bit less. */
  ghost predicate IsEven(x: real) {
    exists m: int, e: int :: -TWO_52 < m < TWO_52 && -1073 <= e <= 972 && x == Scale(m, e)
  }

  /** r is x rounded to the nearest double, and to the even one on a tie. */
  ghost predicate TiesToEven(x: real, r: real) {
    IsRounded(x, r) && forall d :: IsDouble(d) && d != r && Abs(x - d) == Abs(x - r) ==> IsEven(r)
  }

  /** The conversion and the division of IEEE 754. */
  ghost predicate Ieee(convert: int -> real, divide: (real, real) -> real) {
    && (forall n :: TiesToEven(n as real, convert(n)))
    && (forall a, b :: b != 0.0 ==> TiesToEven(a / b, divide(a, b)))
  }

  lemma ScaleTwice(m: int, e: int)
    ensures Scale(m, e) == Scale(2 * m, e - 1)
  {
    if e >= 1 {
      assert Pow2(e) == 2 * Pow2(e - 1);
      assert m * Pow2(e) == (2 * m) * Pow2(e - 1);
    } else {
      var p := Pow2(-e);
      assert Pow2(-(e - 1)) == 2 * p;
      HalfQuotient(m as real, p as real);
    }
  }

  lemma HalfQuotient(m: real, p: real)
    requires p > 0.0
    ensures m / p == (2.0 * m) / (2.0 * p)
  {
    var q := m / p;
    assert q * p == m;
    assert q * (2.0 * p) == 2.0 * m;
  }

  lemma {:induction false} ScaleShift(m: int, e: int, k: nat)
    ensures Scale(m, e) == Scale(m * Pow2(k), e - k)
  {
    if k > 0 {
      ScaleShift(m, e, k - 1);
      ScaleTwice(m * Pow2(k - 1), e - (k - 1));
      assert 2 * (m * Pow2(k - 1)) == m * Pow2(k);
    }
  }

  lemma ScaleOrder(a: int, b: int, e: int)
    ensures a < b <==> Scale(a, e) < Scale(b, e)
  {
    if e >= 0 {
      ProductOrder(a, b, Pow2(e));
    } else {
      QuotientOrder(a as real, b as real, Pow2(-e) as real);
    }
  }

  lemma ProductOrder(a: int, b: int, p: int)
    requires p > 0
    ensures a < b <==> a * p < b * p
  {
  }

  lemma QuotientOrder(a: real, b: real, p: real)
    requires p > 0.0
    ensures a < b <==> a / p < b / p
  {
    var x, y := a / p, b / p;
    assert x * p == a && y * p == b;
  }

  /** Next to an odd double, one unit up or down, there is an even one. */
  lemma EvenBeside(m: int, e: int)
    requires -TWO_53 < m < TWO_53 && -1074 <= e <= 971
    ensures m % 2 == 0 ==> IsEven(Scale(m, e))
    ensures m % 2 == 1 && (m < TWO_53 - 1 || e < 971) ==> IsEven(Scale(m + 1, e))
    ensures m % 2 == 1 && (m > -TWO_53 + 1 || e < 971) ==> IsEven(Scale(m - 1, e))
  {
    if m % 2 == 0 {
      HalfIsEven(m, e);
    } else {
      if m < TWO_53 - 1 || e < 971 {
        HalfIsEven(m + 1, e);
      }
      if m > -TWO_53 + 1 || e < 971 {
        HalfIsEven(m - 1, e);
      }
    }
  }

  lemma HalfIsEven(m: int, e: int)
    requires -TWO_53 <= m <= TWO_53 && m % 2 == 0 && -1074 <= e <= 971
    requires -TWO_53 < m < TWO_53 || e < 971
    ensures IsEven(Scale(m, e))
  {
    var h := m / 2;
    ScaleTwice(h, e + 1);
    if !(-TWO_53 < m < TWO_53) {
      ScaleTwice(h / 2, e + 2);
    }
  }

  lemma EvenIsDouble(x: real)
    requires IsEven(x)
    ensures IsDouble(x)
  {
    var m: int, e: int :| -TWO_52 < m < TWO_52 && -1073 <= e <= 972 && x == Scale(m, e);
    ScaleTwice(m, e);
  }

  /** Of two neighbouring doubles one is even. */
  lemma Neighbours(r: real, d: real)
    requires IsDouble(r) && IsDouble(d) && r < d
    requires forall y :: IsDouble(y) ==> !(r < y < d)
    ensures IsEven(r) || IsEven(d)
  {
    var m: int, e: int :| -TWO_53 < m < TWO_53 && -1074 <= e <= 971 && r == Scale(m, e);
    var n: int, f: int :| -TWO_53 < n < TWO_53 && -1074 <= f <= 971 && d == Scale(n, f);
    if f >= e {
      EvenFromBelow(m, e, n, f);
    } else {
      EvenFromAbove(m, e, n, f);
    }
  }

  lemma EvenFromBelow(m: int, e: int, n: int, f: int)
    requires -TWO_53 < m < TWO_53 && -TWO_53 < n < TWO_53 && -1074 <= e <= f <= 971
    requires Scale(m, e) < Scale(n, f)
    requires forall y :: IsDouble(y) ==> !(Scale(m, e) < y < Scale(n, f))
    ensures IsEven(Scale(m, e)) || IsEven(Scale(n, f))
  {
    EvenBeside(m, e);
    if m % 2 == 1 {
      var k := n * Pow2(f - e);
      ScaleShift(n, f, f - e);
      TopDouble(m, e, n, f);
      EvenIsDouble(Scale(m + 1, e));
      ScaleOrder(m, k, e);
      ScaleOrder(m, m + 1, e);
      ScaleOrder(m + 1, k, e);
    }
  }

  lemma EvenFromAbove(m: int, e: int, n: int, f: int)
    requires -TWO_53 < m < TWO_53 && -TWO_53 < n < TWO_53 && -1074 <= f < e <= 971
    requires Scale(m, e) < Scale(n, f)
    requires forall y :: IsDouble(y) ==> !(Scale(m, e) < y < Scale(n, f))
    ensures IsEven(Scale(m, e)) || IsEven(Scale(n, f))
  {
    EvenBeside(n, f);
    if n % 2 == 1 {
      var k := m * Pow2(e - f);
      ScaleShift(m, e, e - f);
      EvenIsDouble(Scale(n - 1, f));
      ScaleOrder(k, n, f);
      ScaleOrder(n - 1, n, f);
      ScaleOrder(k, n - 1, f);
    }
  }

  lemma TopDouble(m: int, e: int, n: int, f: int)
    requires -TWO_53 < n < TWO_53 && m < TWO_53 && e <= f <= 971
    requires Scale(m, e) < Scale(n, f)
    ensures m < TWO_53 - 1 || e < 971
  {
    if e == 971 {
      ScaleOrder(m, n, e);
    }
  }

  ghost function Doubles(): set<real> {
    set m: int, e: int | -TWO_53 < m < TWO_53 && -1074 <= e <= 971 :: Scale(m, e)
  }

  lemma Member<T>(s: set<T>) returns (c: T)
    requires s != {}
    ensures c in s
  {
    c :| c in s;
  }

  lemma {:induction false} NearestIn(s: set<real>, x: real) returns (r: real)
    requires s != {}
    ensures r in s && forall d :: d in s ==> Abs(x - r) <= Abs(x - d)
  {
    var c := Member(s);
    var rest := s - {c};
    if rest == {} {
      r := c;
    } else {
      var n := NearestIn(rest, x);
      r := if Abs(x - c) <= Abs(x - n) then c else n;
    }
    forall d | d in s ensures Abs(x - r) <= Abs(x - d) {
      assert d == c || d in rest;
    }
  }

  /** Every number has a rounding. */
  lemma RoundingExists(x: real) returns (r: real)
    ensures TiesToEven(x, r)
  {
    SmallIntIsDouble(0);
    assert 0.0 in Doubles();
    r := NearestIn(Doubles(), x);
    assert forall d :: IsDouble(d) ==> d in Doubles();
    assert IsRounded(x, r);
    if !TiesToEven(x, r) {
      var d :| IsDouble(d) && d != r && Abs(x - d) == Abs(x - r) && !IsEven(r);
      assert IsRounded(x, d);
      forall y | IsDouble(y) ensures !(r < y < d) && !(d < y < r) {
        assert Abs(x - r) <= Abs(x - y);
      }
      if r < d {
        Neighbours(r, d);
      } else {
        Neighbours(d, r);
      }
      r := d;
    }
  }

  ghost function Round(x: real): (r: real)
    ensures TiesToEven(x, r)
  {
    assert exists r :: TiesToEven(x, r) by {
      var r := RoundingExists(x);
    }
    var r :| TiesToEven(x, r);
    r
  }

  /** There is such a conversion and division. */
  lemma IeeeExists()
    ensures exists convert: int -> real, divide: (real, real) -> real :: Ieee(convert, divide)
  {
    var convert: int -> real := n => Round(n as real);
    var divide: (real, real) -> real := (a, b) => if b == 0.0 then 0.0 else Round(a / b);
    assert Ieee(convert, divide);
  }

  lemma IeeeIsCorrect(convert: int -> real, divide: (real, real) -> real)
    requires Ieee(convert, divide)
    ensures Correct(convert, divide)
  {
  }

  /** A double between 2^53 and 2^54 is an even integer. */
  lemma UpperDouble(d: real)
    requires IsDouble(d) && d > TWO_53 as real
    ensures d >= (TWO_53 + 2) as real
    ensures d > (TWO_53 + 2) as real ==> d >= (TWO_53 + 4) as real
  {
    var m: int, e: int :| -TWO_53 < m < TWO_53 && -1074 <= e <= 971 && d == Scale(m, e);
    assert Pow2(0) == 1;
    if e < 0 {
      SmallQuotient(m as real, Pow2(-e) as real);
    } else if e >= 1 {
      var k := m * Pow2(e - 1);
      assert m * Pow2(e) == 2 * k;
    }
  }

  lemma OddDouble()
    ensures !IsEven((TWO_53 + 2) as real)
  {
    var x := (TWO_53 + 2) as real;
    forall m: int, e: int | -TWO_52 < m < TWO_52 && -1073 <= e <= 972 ensures x != Scale(m, e) {
      assert Pow2(0) == 1 && Pow2(1) == 2;
      if e < 0 {
        SmallQuotient(m as real, Pow2(-e) as real);
      } else if e >= 2 {
        Pow2Values();
        Pow2Add(2, e - 2);
        var k := m * Pow2(e - 2);
        assert m * Pow2(e) == 4 * k;
      }
    }
  }

  /** What conversion makes of the first integers from 2^53 on. */
  lemma FirstLargeInts(n: int, r: real)
    requires TWO_53 <= n <= TWO_53 + 3 && TiesToEven(n as real, r)
    ensures r == (if n == TWO_53 + 1 then TWO_53 else if n == TWO_53 + 3 then TWO_53 + 4 else n) as real
  {
    var x := n as real;
    var a, b, c := TWO_53 as real, (TWO_53 + 2) as real, (TWO_53 + 4) as real;
    assert Pow2(1) == 2 && Pow2(2) == 4;
    assert Scale(TWO_52, 1) == a && Scale(TWO_52 + 1, 1) == b && Scale(TWO_52 + 2, 1) == c;
    assert IsDouble(a) && IsDouble(b) && IsDouble(c);
    OddDouble();
    RoundedBeside(x, r, a);
    RoundedBeside(x, r, c);
    assert Abs(x - r) <= Abs(x - b);
    if r > a {
      UpperDouble(r);
    }
    assert r == a || r == b || r == c;
    if n == TWO_53 + 1 {
      assert Abs(x - a) == Abs(x - b);
    } else if n == TWO_53 + 3 {
      assert Abs(x - c) == Abs(x - b);
    } else {
      DoubleIsFixed(x, r);
    }
  }
}

/** publish.guardAgainstShrink. */
module ShrinkGuard {
  import opened Store
  import opened Float64

  /** The count fell by more than a quarter. */
  predicate Collapsed(before: int, after: int) {
    before > 0 && 4 * (before - after) > before
  }

  predicate Breaches(prev: Counts, next: Counts) {
    || Collapsed(prev.games, next.games)
    || Collapsed(prev.saveLocations, next.saveLocations)
    || Collapsed(prev.catalog, next.catalog)
  }

  /** The baseline is the meta file of the last export; without one that parses
      there is nothing to compare with. */
  predicate Refuses(files: Files, next: Counts, force: bool) {
    && !force
    && Meta in files && files[Meta].MetaFile?
    && Breaches(files[Meta].meta.counts, next)
  }

  /** The fall, as a fraction of a positive count, exceeds a quarter. */
  predicate FellByMoreThanAQuarter(before: int, after: int) {
    before > 0 && (before - after) as real / before as real > 0.25
  }

  lemma CollapsedIsRatio(before: int, after: int)
    ensures Collapsed(before, after) <==> FellByMoreThanAQuarter(before, after)
  {
    if before > 0 {
      var b := before as real;
      QuarterOf(0.25 * b, b);
      QuotientOrder(0.25 * b, (before - after) as real, b);
    }
  }

  /** When an export is refused, spelled out: never with FORCE_PUBLISH, never without a
      meta file that parses, and otherwise when any of the three counts fell by more
      than a quarter. */
  lemma RefusesMeans(files: Files, next: Counts, force: bool)
    ensures force || Meta !in files || !files[Meta].MetaFile? ==> !Refuses(files, next, force)
    ensures !force && Meta in files && files[Meta].MetaFile? ==>
              var prev := files[Meta].meta.counts;
              (Refuses(files, next, force) <==>
                 || FellByMoreThanAQuarter(prev.games, next.games)
                 || FellByMoreThanAQuarter(prev.saveLocations, next.saveLocations)
                 || FellByMoreThanAQuarter(prev.catalog, next.catalog))
  {
    if Meta in files && files[Meta].MetaFile? {
      var prev := files[Meta].meta.counts;
      CollapsedIsRatio(prev.games, next.games);
      CollapsedIsRatio(prev.saveLocations, next.saveLocations);
      CollapsedIsRatio(prev.catalog, next.catalog);
    }
  }

  datatype Check = Check(before: int, after: int)

  function Checks(prev: Counts, next: Counts): seq<Check> {
    [Check(prev.games, next.games), Check(prev.saveLocations, next.saveLocations), Check(prev.catalog, next.catalog)]
  }

  /** The count to compare with is below 2^53; the new one may be any. */
  predicate Small(c: Check) {
    c.before < TWO_53
  }

  /** The guard as written, in floating point.  For counts below 2^53 it refuses
      exactly the exports in which some count fell by more than a quarter. */
  method GuardAgainstShrink(
    files: Files, next: Counts, force: bool, convert: int -> real, divide: (real, real) -> real)
      returns (refused: bool)
    requires Correct(convert, divide)
    ensures force || Meta !in files || !files[Meta].MetaFile? ==> !refused
    ensures (Meta in files && files[Meta].MetaFile? ==>
               forall c :: c in Checks(files[Meta].meta.counts, next) ==> Small(c)) ==>
            (refused <==> Refuses(files, next, force))
  {
    if force { return false; }
    if Meta !in files { return false; }
    if !files[Meta].MetaFile? { return false; }
    var prev := files[Meta].meta.counts;
    var checks := Checks(prev, next);
    refused := RunChecks(checks, convert, divide);
    assert checks[0] in checks && checks[1] in checks && checks[2] in checks;
  }

  /** The check loop, leaving at the first count that fell too far. */
  method RunChecks(checks: seq<Check>, convert: int -> real, divide: (real, real) -> real) returns (refused: bool)
    requires Correct(convert, divide)
    ensures (forall c :: c in checks ==> Small(c)) ==>
            (refused <==> exists c :: c in checks && Collapsed(c.before, c.after))
  {
    var i := 0;
    while i < |checks|
      invariant 0 <= i <= |checks|
      invariant forall k :: 0 <= k < i && Small(checks[k]) ==> !Collapsed(checks[k].before, checks[k].after)
    {
      var c := checks[i];
      if c.before > 0 {
        ConvertPositive(c.before, convert(c.before));
        var drop := divide(convert(c.before - c.after), convert(c.before));
        if Small(c) {
          FloatTestExact(c.before, c.after, convert, divide);
        }
        if drop > QUARTER {
          assert c in checks;
          return true;
        }
      }
      i := i + 1;
    }
    refused := false;
  }

  lemma ConvertPositive(n: int, r: real)
    requires n > 0 && IsRounded(n as real, r)
    ensures r != 0.0
  {
    SmallIntIsDouble(1);
    assert Abs(n as real - r) <= Abs(n as real - 1.0);
  }

  /** For counts below 2^53 the floating-point test is the exact test, under any
      tie rule and whatever the new count. */
  lemma FloatTestExact(before: int, after: int, convert: int -> real, divide: (real, real) -> real)
    requires Correct(convert, divide)
    requires 0 < before < TWO_53
    ensures divide(convert(before - after), convert(before)) > QUARTER <==> Collapsed(before, after)
  {
    SmallIntIsDouble(before);
    DoubleIsFixed(before as real, convert(before));
    TestByDrop(before, before, after, convert, divide);
  }

  /** The test on a divisor b that is the rounded count. */
  lemma TestByDrop(before: int, b: int, after: int, convert: int -> real, divide: (real, real) -> real)
    requires Correct(convert, divide) && 0 < before && 0 < b <= TWO_53 + 2 && convert(before) == b as real
    requires before <= TWO_53 + 2
    requires
      var a := before - after;
      (4 * a > before <==> 4 * a > b) && (4 * a > b ==> b < (4 * a - b) * TWO_53)
    ensures divide(convert(before - after), convert(before)) > QUARTER <==> Collapsed(before, after)
  {
    var a := before - after;
    if -TWO_53 < a < TWO_53 {
      SmallIntIsDouble(a);
      DoubleIsFixed(a as real, convert(a));
      QuotientTestExact(a, b, divide(convert(a), b as real));
    } else if a < 0 {
      NegativeDrop(a, convert(a), b as real, divide(convert(a), b as real));
    } else {
      LargeDrop(a, convert(a), b, divide(convert(a), b as real));
    }
  }

  lemma NegativeDrop(a: int, drop: real, b: real, r: real)
    requires a < 0 && IsRounded(a as real, drop) && b > 0.0 && IsRounded(drop / b, r)
    ensures r <= 0.0
  {
    SmallIntIsDouble(0);
    RoundedBeside(a as real, drop, 0.0);
    QuotientOrder(drop, 0.0, b);
    RoundedBeside(drop / b, r, 0.0);
  }

  lemma LargeDrop(a: int, drop: real, b: int, r: real)
    requires a >= TWO_53 && IsRounded(a as real, drop) && 0 < b <= TWO_53 + 2 && IsRounded(drop / b as real, r)
    ensures r >= 0.5
  {
    LimitAndHalf();
    RoundedBeside(a as real, drop, TWO_53 as real);
    AtLeastHalf(drop, b as real);
    RoundedBeside(drop / b as real, r, 0.5);
  }

  lemma LimitAndHalf()
    ensures IsDouble(TWO_53 as real) && IsDouble(0.5)
  {
    assert Pow2(1) == 2;
    assert Scale(TWO_52, 1) == TWO_53 as real;
    assert Scale(1, -1) == 0.5;
  }

  lemma AtLeastHalf(x: real, y: real)
    requires y > 0.0 && 2.0 * x >= y
    ensures x / y >= 0.5
  {
    var q := x / y;
    assert q * y == x;
  }

  /** The guard's test agrees with the exact one up to n, whatever the new count. */
  ghost predicate ExactUpTo(n: int, convert: int -> real, divide: (real, real) -> real) {
    forall before, after :: 0 < before <= n ==>
      (divide(convert(before - after), convert(before)) > QUARTER <==> Collapsed(before, after))
  }

  /** Exactly for which counts the guard is exact in IEEE arithmetic: up to 2^53 + 2. */
  lemma ExactRange(n: int, convert: int -> real, divide: (real, real) -> real)
    requires Ieee(convert, divide)
    ensures ExactUpTo(n, convert, divide) <==> n <= TWO_53 + 2
  {
    IeeeIsCorrect(convert, divide);
    if n <= TWO_53 + 2 {
      forall before, after | 0 < before <= n
        ensures divide(convert(before - after), convert(before)) > QUARTER <==> Collapsed(before, after)
      {
        if before < TWO_53 {
          FloatTestExact(before, after, convert, divide);
        } else {
          FirstLargeInts(before, convert(before));
          TestByDrop(before, if before == TWO_53 + 1 then TWO_53 else before, after, convert, divide);
        }
      }
    } else {
      FirstInexactCount(convert, divide);
    }
  }

  /** At 2^53 + 3 a drop of 2^51 + 1, which is more than a quarter, passes. */
  lemma FirstInexactCount(convert: int -> real, divide: (real, real) -> real)
    requires Ieee(convert, divide)
    ensures
      var before, after := TWO_53 + 3, TWO_53 + 3 - (TWO_53 / 4 + 1);
      && Collapsed(before, after)
      && !(divide(convert(before - after), convert(before)) > QUARTER)
  {
    IeeeIsCorrect(convert, divide);
    FirstLargeInts(TWO_53 + 3, convert(TWO_53 + 3));
    QuarterPasses(TWO_53 / 4 + 1, convert, divide);
  }

  /** A drop of exactly a quarter of the rounded count passes. */
  lemma QuarterPasses(drop: int, convert: int -> real, divide: (real, real) -> real)
    requires Correct(convert, divide) && 0 < drop < TWO_53
    ensures divide(convert(drop), (4 * drop) as real) == QUARTER
  {
    SmallIntIsDouble(drop);
    DoubleIsFixed(drop as real, convert(drop));
    QuarterAndNext();
    QuarterOf(drop as real, (4 * drop) as real);
    DoubleIsFixed(QUARTER, divide(drop as real, (4 * drop) as real));
  }

  lemma QuarterOf(x: real, y: real)
    requires x > 0.0 && y == 4.0 * x
    ensures x / y == QUARTER
  {
    var q := x / y;
    assert q * y == x;
  }

  /** Under any tie rule a drop of 2^52 + 1 out of 2^54 + 3 passes. */
  lemma FloatTestInexactForLargeCounts(convert: int -> real, divide: (real, real) -> real)
    requires Correct(convert, divide)
    ensures
      var before, after := 2 * TWO_53 + 3, 2 * TWO_53 + 3 - (TWO_52 + 1);
      && Collapsed(before, after)
      && !(divide(convert(before - after), convert(before)) > QUARTER)
  {
    LargeIntRounds(convert(2 * TWO_53 + 3));
    QuarterPasses(TWO_52 + 1, convert, divide);
  }

  // ---- what the guard's baseline protects ---------------------------------

  /** The counts the guard compares with; without a meta file that parses it
      compares with nothing. */
  function Baseline(files: Files): Counts {
    if Meta in files && files[Meta].MetaFile? then files[Meta].meta.counts else Counts(0, 0, 0)
  }

  lemma RefusesByBaseline(files: Files, next: Counts)
    ensures Refuses(files, next, false) <==> Breaches(Baseline(files), next)
  {
  }

  /** The least count the guard accepts against b keeps a quarter's distance to p. */
  predicate Protects(b: int, p: int) {
    p <= 0 || (b > 0 && 4 * ((3 * b + 3) / 4) >= 3 * p)
  }

  /** Exactly when every count accepted against the baseline b is within a quarter of
      the published count p. */
  lemma ProtectsExact(b: int, p: int)
    ensures (forall n: nat :: !Collapsed(b, n) ==> !Collapsed(p, n)) <==> Protects(b, p)
  {
    var least: nat := if b > 0 then (3 * b + 3) / 4 else 0;
    assert !Collapsed(b, least);
    assert Collapsed(p, least) <==> !Protects(b, p);
  }

  predicate CountsProtect(base: Counts, published: Counts) {
    && Protects(base.games, published.games)
    && Protects(base.saveLocations, published.saveLocations)
    && Protects(base.catalog, published.catalog)
  }

  /** The counts of rows are not negative. */
  predicate RowCounts(c: Counts) {
    c.games >= 0 && c.saveLocations >= 0 && c.catalog >= 0
  }

  /** The same for all three counts: the guard with the baseline base keeps every
      export within a quarter of the published counts exactly when it does so
      column by column. */
  lemma CountsProtectExact(base: Counts, published: Counts)
    ensures (forall next :: RowCounts(next) && !Breaches(base, next) ==> !Breaches(published, next))
       <==> CountsProtect(base, published)
  {
    ProtectsExact(base.games, published.games);
    ProtectsExact(base.saveLocations, published.saveLocations);
    ProtectsExact(base.catalog, published.catalog);
    if forall next :: RowCounts(next) && !Breaches(base, next) ==> !Breaches(published, next) {
      forall n: nat | !Collapsed(base.games, n) ensures !Collapsed(published.games, n) {
        assert !Breaches(base, Counts(n, Kept(base.saveLocations), Kept(base.catalog)));
      }
      forall n: nat | !Collapsed(base.saveLocations, n) ensures !Collapsed(published.saveLocations, n) {
        assert !Breaches(base, Counts(Kept(base.games), n, Kept(base.catalog)));
      }
      forall n: nat | !Collapsed(base.catalog, n) ensures !Collapsed(published.catalog, n) {
        assert !Breaches(base, Counts(Kept(base.games), Kept(base.saveLocations), n));
      }
    }
  }

  /** A count that the guard accepts against b. */
  function Kept(b: int): (n: nat)
    ensures !Collapsed(b, n)
  {
    if b > 0 then b else 0
  }

  // ---- the guard over several exports -------------------------------------

  function Power(b: nat, k: nat): (p: nat)
    ensures b > 0 ==> p > 0
  {
    if k == 0 then 1 else b * Power(b, k - 1)
  }

  /** No count of the chain collapsed against the one before it. */
  ghost predicate Accepted(chain: seq<int>) {
    forall i :: 0 < i < |chain| ==> !Collapsed(chain[i - 1], chain[i])
  }

  /** Along k consecutive accepted exports a count keeps at least (3/4)^k of its
      value, and a positive count stays positive. */
  lemma {:induction false} CompoundedBound(chain: seq<int>)
    requires Accepted(chain) && |chain| > 0 && chain[0] > 0
    ensures
      var k := |chain| - 1;
      && Power(4, k) * chain[k] >= Power(3, k) * chain[0]
      && chain[k] > 0
  {
    var k := |chain| - 1;
    if k > 0 {
      var shorter := chain[..k];
      CompoundedBound(shorter);
      assert !Collapsed(chain[k - 1], chain[k]);
      OneMoreExport(Power(4, k - 1), Power(3, k - 1), chain[0], chain[k - 1], chain[k]);
    }
  }

  lemma OneMoreExport(p: nat, q: nat, first: int, before: int, after: int)
    requires p * before >= q * first && 4 * after >= 3 * before
    ensures (4 * p) * after >= (3 * q) * first
  {
    TimesMonotone(p, 3 * before, 4 * after);
    assert p * (3 * before) == 3 * (p * before);
    assert (4 * p) * after == p * (4 * after);
    assert (3 * q) * first == 3 * (q * first);
  }

  lemma AcceptedSuffix(chain: seq<int>, j: nat)
    requires Accepted(chain) && j <= |chain|
    ensures Accepted(chain[j..])
  {
    var rest := chain[j..];
    forall i | 0 < i < |rest| ensures !Collapsed(rest[i - 1], rest[i]) {
      assert !Collapsed(chain[j + i - 1], chain[j + i]);
    }
  }

  lemma TimesMonotone(p: nat, a: int, b: int)
    requires a <= b
    ensures p * a <= p * b
  {
  }

  /** The bound is reached, so it cannot be improved: 64, 48, 36, 27. */
  lemma CompoundedBoundIsTight()
    ensures Accepted([64, 48, 36, 27])
    ensures Power(4, 3) * 27 == Power(3, 3) * 64
  {
    assert Power(4, 1) == 4 && Power(4, 2) == 16 && Power(3, 1) == 3 && Power(3, 2) == 9;
  }
}
