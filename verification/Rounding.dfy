/** The two implementations of ROUND (expr.go, agg_expr.go) over exact reals. */
module Rounding {
  import opened Bson

  /** ROUND as MySQL defines it: to d decimal digits, ties away from zero; d < 0 rounds to tens, hundreds, ... */
  function HalfAway(x: real, d: int): real {
    ShiftDown(Nearest(ShiftUp(x, d)) as real, d)
  }

  /** Moves the decimal point n places to the right, or to the left. */
  function Right(x: real, n: nat): real {
    if n == 0 then x else Right(x, n - 1) * 10.0
  }

  function Left(x: real, n: nat): real {
    if n == 0 then x else Left(x, n - 1) / 10.0
  }

  function ShiftUp(x: real, d: int): real {
    if d >= 0 then Right(x, d) else Left(x, -d)
  }

  function ShiftDown(x: real, d: int): real {
    if d >= 0 then Left(x, d) else Right(x, -d)
  }

  /** The whole number nearest to y; halfway, the one further from zero. */
  function Nearest(y: real): int {
    var below := AbsReal(y).Floor;
    var whole := if AbsReal(y) - below as real < 0.5 then below else below + 1;
    if y < 0.0 then -whole else whole
  }

  // ----- whole numbers -----

  /** w is at most one half from y, and further from zero than y when halfway. */
  predicate IsNearest(w: int, y: real) {
    var r := w as real;
    -0.5 <= r - y <= 0.5
    && (r - y == 0.5 ==> y > 0.0)
    && (y - r == 0.5 ==> y < 0.0)
  }

  lemma {:induction false} NearestIsNearest(y: real)
    ensures IsNearest(Nearest(y), y)
  {
    var below := AbsReal(y).Floor;
    assert below as real <= AbsReal(y) < below as real + 1.0;
  }

  lemma {:induction false} IntApart(v: int, w: int)
    requires v < w
    ensures v as real + 1.0 <= w as real
  {
    assert (w - v) as real >= 1.0;
  }

  lemma {:induction false} NearestUnique(v: int, w: int, y: real)
    requires IsNearest(v, y) && IsNearest(w, y)
    ensures v == w
  {
    if v < w {
      IntApart(v, w);
    } else if w < v {
      IntApart(w, v);
    }
  }

  lemma {:induction false} NearestMonotone(x: real, y: real)
    requires x <= y
    ensures Nearest(x) <= Nearest(y)
  {
    var v, w := Nearest(x), Nearest(y);
    NearestIsNearest(x);
    NearestIsNearest(y);
    if w < v {
      IntApart(w, v);
    }
  }

  lemma {:induction false} NearestOdd(y: real)
    ensures Nearest(-y) == -Nearest(y)
  {
  }

  lemma {:induction false} NearestOfInt(k: int)
    ensures Nearest(k as real) == k
  {
    NearestIsNearest(k as real);
    NearestUnique(k, Nearest(k as real), k as real);
  }

  lemma {:induction false} FloorIs(z: real, k: int)
    requires k as real <= z < k as real + 1.0
    ensures z.Floor == k
  {
    if z.Floor < k {
      IntApart(z.Floor, k);
    } else if k < z.Floor {
      IntApart(k, z.Floor);
    }
  }

  lemma {:induction false} NearestByFloor(y: real)
    ensures y >= 0.0 ==> Nearest(y) == (y + 0.5).Floor
    ensures y < 0.0 ==> Nearest(y) == -(-y + 0.5).Floor
  {
    var a := AbsReal(y);
    var f := a.Floor;
    assert f as real <= a < f as real + 1.0;
    FloorIs(a + 0.5, if a - f as real < 0.5 then f else f + 1);
  }

  // ----- moving the decimal point -----

  lemma {:induction false} PlaceLaws(x: real, y: real, n: nat)
    ensures x < y <==> Right(x, n) < Right(y, n)
    ensures x < y <==> Left(x, n) < Left(y, n)
    ensures Right(-x, n) == -Right(x, n)
    ensures Left(-x, n) == -Left(x, n)
    ensures Right(0.0, n) == 0.0 == Left(0.0, n)
  {
    if n > 0 {
      PlaceLaws(x, y, n - 1);
    }
  }

  lemma {:induction false} ShiftLaws(x: real, y: real, d: int)
    ensures x < y <==> ShiftUp(x, d) < ShiftUp(y, d)
    ensures x < y <==> ShiftDown(x, d) < ShiftDown(y, d)
    ensures ShiftUp(-x, d) == -ShiftUp(x, d)
    ensures ShiftDown(-x, d) == -ShiftDown(x, d)
    ensures ShiftUp(0.0, d) == 0.0
  {
    PlaceLaws(x, y, if d >= 0 then d else -d);
  }

  lemma {:induction false} PlaceOut(x: real, n: nat)
    ensures Right(x / 10.0, n) == Right(x, n) / 10.0
    ensures Left(x * 10.0, n) == Left(x, n) * 10.0
  {
    if n > 0 {
      PlaceOut(x, n - 1);
    }
  }

  lemma {:induction false} PlaceBack(w: real, n: nat)
    ensures Right(Left(w, n), n) == w
    ensures Left(Right(w, n), n) == w
  {
    if n > 0 {
      PlaceBack(w, n - 1);
      PlaceOut(Left(w, n - 1), n - 1);
      PlaceOut(Right(w, n - 1), n - 1);
    }
  }

  lemma {:induction false} ShiftBack(w: real, d: int)
    ensures ShiftUp(ShiftDown(w, d), d) == w
  {
    PlaceBack(w, if d >= 0 then d else -d);
  }

  // ----- what rounding promises -----

  /** r is x rounded: shifted, it is the whole number nearest to shifted x. */
  predicate Rounds(r: real, x: real, d: int) {
    ShiftUp(r, d).Floor as real == ShiftUp(r, d)
    && IsNearest(ShiftUp(r, d).Floor, ShiftUp(x, d))
  }

  /** The nearest multiple of 10^-d, ties away from zero: HalfAway and nothing else. */
  lemma {:induction false} HalfAwayExactly(r: real, x: real, d: int)
    ensures Rounds(r, x, d) <==> r == HalfAway(x, d)
  {
    var k := Nearest(ShiftUp(x, d));
    NearestIsNearest(ShiftUp(x, d));
    ShiftBack(k as real, d);
    FloorIs(k as real, k);
    if Rounds(r, x, d) {
      NearestUnique(ShiftUp(r, d).Floor, k, ShiftUp(x, d));
      ShiftLaws(r, HalfAway(x, d), d);
      ShiftLaws(HalfAway(x, d), r, d);
    }
  }

  lemma {:induction false} HalfAwayOdd(x: real, d: int)
    ensures HalfAway(-x, d) == -HalfAway(x, d)
  {
    ShiftLaws(x, x, d);
    NearestOdd(ShiftUp(x, d));
    var w := Nearest(ShiftUp(x, d)) as real;
    ShiftLaws(w, w, d);
  }

  lemma {:induction false} HalfAwayMonotone(x: real, y: real, d: int)
    requires x <= y
    ensures HalfAway(x, d) <= HalfAway(y, d)
  {
    ShiftLaws(y, x, d);
    NearestMonotone(ShiftUp(x, d), ShiftUp(y, d));
    ShiftLaws(Nearest(ShiftUp(y, d)) as real, Nearest(ShiftUp(x, d)) as real, d);
  }

  lemma {:induction false} HalfAwayIdempotent(x: real, d: int)
    ensures HalfAway(HalfAway(x, d), d) == HalfAway(x, d)
  {
    ShiftBack(Nearest(ShiftUp(x, d)) as real, d);
    NearestOfInt(Nearest(ShiftUp(x, d)));
  }

  // ----- multiplying and dividing by a power of ten -----

  lemma {:induction false} TimesTen(x: real, p: real)
    ensures x * (p * 10.0) == x * p * 10.0
  {
  }

  lemma {:induction false} TimesIsRight(x: real, n: nat)
    ensures Times(x, Pow10(n)) == Right(x, n)
  {
    if n > 0 {
      TimesIsRight(x, n - 1);
      TimesTen(x, Pow10(n - 1));
    }
  }

  lemma {:induction false} Quotient(w: real, p: real, q: real)
    requires p > 0.0 && q * p == w
    ensures w / p == q
  {
  }

  lemma {:induction false} OverIsLeft(w: real, n: nat)
    ensures Over(w, Pow10(n)) == Left(w, n)
  {
    PlaceBack(w, n);
    TimesIsRight(Left(w, n), n);
    Quotient(w, Pow10(n), Left(w, n));
  }

  lemma {:induction false} Inverse(x: real, p: real)
    requires p > 0.0
    ensures Over(1.0, p) > 0.0
    ensures Times(x, Over(1.0, p)) == Over(x, p) && Over(x, Over(1.0, p)) == Times(x, p)
  {
    PositiveInverse(p);
    var q := 1.0 / p;
    assert q * p == 1.0;
    assert (x * q) * p == x * (q * p) == x;
    Quotient(x, p, x * q);
    assert (x * p) * q == x * (q * p) == x;
    Quotient(x, q, x * p);
  }

  lemma {:induction false} TimesIsShiftUp(x: real, d: int)
    ensures Times(x, Tens(d)) == ShiftUp(x, d)
  {
    if d >= 0 {
      TimesIsRight(x, d);
    } else {
      Inverse(x, Pow10(-d));
      OverIsLeft(x, -d);
    }
  }

  lemma {:induction false} OverIsShiftDown(w: real, d: int)
    ensures Over(w, Tens(d)) == ShiftDown(w, d)
  {
    if d >= 0 {
      OverIsLeft(w, d);
    } else {
      Inverse(w, Pow10(-d));
      TimesIsRight(w, -d);
    }
  }

  // ----- the formula for columns: sign(x) * floor(|x| * 10^d + 0.5) / 10^d -----

  function FormulaRound(x: real, d: int): real {
    Over(FormulaWhole(x, Times(AbsReal(x), Tens(d))) as real, Tens(d))
  }

  function FormulaWhole(x: real, scaled: real): int {
    if x < 0.0 then -(scaled + 0.5).Floor else (scaled + 0.5).Floor
  }

  lemma {:induction false} FormulaWholeIsNearest(x: real, scaled: real, y: real)
    requires x < 0.0 <==> y < 0.0
    requires scaled == AbsReal(y)
    ensures FormulaWhole(x, scaled) == Nearest(y)
  {
    NearestByFloor(y);
  }

  lemma {:induction false} AbsShift(x: real, d: int)
    ensures AbsReal(ShiftUp(x, d)) == ShiftUp(AbsReal(x), d)
    ensures x < 0.0 <==> ShiftUp(x, d) < 0.0
  {
    ShiftLaws(x, 0.0, d);
  }

  lemma {:induction false} FormulaAgrees(x: real, d: int)
    ensures FormulaRound(x, d) == HalfAway(x, d)
  {
    var scaled := Times(AbsReal(x), Tens(d));
    TimesIsShiftUp(AbsReal(x), d);
    AbsShift(x, d);
    FormulaWholeIsNearest(x, scaled, ShiftUp(x, d));
    OverIsShiftDown(Nearest(ShiftUp(x, d)) as real, d);
  }

  // ----- the static form: a multiplying loop and a truncating conversion -----

  /** Go's int64(f). Out of range the result depends on the machine; this is amd64's. */
  function ToInt64(f: real): int {
    if InInt64(Trunc(f)) then Trunc(f) else -0x8000_0000_0000_0000
  }

  function StaticRoundOf(f: real, decimals: int): real {
    var mult := Pow10(if decimals < 0 then 0 else decimals);
    Over(StaticWhole(f, Times(f, mult)) as real, mult)
  }

  function StaticWhole(f: real, scaled: real): int {
    ToInt64(if f >= 0.0 then scaled + 0.5 else scaled - 0.5)
  }

  method StaticRound(f: real, decimals: int) returns (r: real)
    ensures r == StaticRoundOf(f, decimals)
  {
    var mult: real := 1.0;
    var i := 0;
    while i < decimals
      invariant 0 <= i && i <= (if decimals < 0 then 0 else decimals)
      invariant mult == Pow10(i)
    {
      mult := mult * 10.0;
      i := i + 1;
    }
    var scaled := Times(f, mult);
    if f >= 0.0 {
      return Over(ToInt64(scaled + 0.5) as real, mult);
    }
    return Over(ToInt64(scaled - 0.5) as real, mult);
  }

  lemma {:induction false} NearestByTrunc(y: real)
    ensures y >= 0.0 ==> Nearest(y) == Trunc(y + 0.5)
    ensures y < 0.0 ==> Nearest(y) == Trunc(y - 0.5)
  {
    NearestByFloor(y);
  }

  const MinInt64 := -0x8000_0000_0000_0000

  lemma {:induction false} StaticWholeIs(x: real, y: real)
    requires x < 0.0 <==> y < 0.0
    ensures StaticWhole(x, y) == if InInt64(Nearest(y)) then Nearest(y) else MinInt64
  {
    NearestByTrunc(y);
  }

  // ----- when the static form is right -----

  function TenPower(n: nat): (t: int)
    ensures t >= 1
  {
    if n == 0 then 1 else TenPower(n - 1) * 10
  }

  /** In range; and a negative number of digits, which the loop ignores, must make no difference. */
  predicate StaticRight(x: real, d: int) {
    if d >= 0 then InInt64(Nearest(ShiftUp(x, d)))
    else InInt64(Nearest(x)) && Nearest(x) % TenPower(-d) == 0
  }

  lemma {:induction false} TimesTenInts(a: int, b: int)
    ensures (a * b) * 10 == a * (b * 10)
    ensures (a * b) as real == Times(a as real, b as real)
  {
  }

  lemma {:induction false} RightOfInt(m: int, n: nat)
    ensures Right(m as real, n) == (m * TenPower(n)) as real
  {
    if n > 0 {
      RightOfInt(m, n - 1);
      TimesTenInts(m, TenPower(n - 1));
    }
  }

  lemma {:induction false} NotDivisible(m: int, n: nat)
    requires n > 0
    ensures m * TenPower(n) != MinInt64
  {
    TimesTenInts(m, TenPower(n - 1));
    assert (m * TenPower(n - 1)) * 10 % 10 == 0;
  }

  /** Moved to the left, near values get nearer. */
  lemma {:induction false} LeftNearer(x: real, n: nat)
    requires n > 0 && -0.5 <= x <= 0.5
    ensures -0.05 <= Left(x, n) <= 0.05
  {
    if n > 1 {
      LeftNearer(x, n - 1);
    }
  }

  lemma {:induction false} LeftApart(x: real, y: real, n: nat)
    ensures Left(x - y, n) == Left(x, n) - Left(y, n)
  {
    if n > 0 {
      LeftApart(x, y, n - 1);
    }
  }

  /** If the nearest whole number is a multiple of 10^n, rounding to 10^n gives it. */
  lemma {:induction false} MultipleIsRounded(x: real, n: nat, q: int)
    requires n > 0 && Nearest(x) == q * TenPower(n)
    ensures Nearest(Left(x, n)) == q
  {
    NearestIsNearest(x);
    var y := (q * TenPower(n)) as real;
    RightOfInt(q, n);
    PlaceBack(q as real, n);
    LeftNearer(x - y, n);
    LeftApart(x, y, n);
    NearestIsNearest(Left(x, n));
    NearestUnique(q, Nearest(Left(x, n)), Left(x, n));
  }

  lemma {:induction false} Multiple(w: int, t: int)
    requires t >= 1
    ensures w % t == 0 <==> w == (w / t) * t
    ensures forall q :: w == q * t ==> w % t == 0
  {
    forall q | w == q * t
      ensures w % t == 0
    {
      assert w == t * (w / t) + w % t;
      ProductSize(q - w / t, t);
    }
  }

  lemma {:induction false} ProductSize(a: int, t: int)
    requires t >= 1
    ensures a >= 1 ==> a * t >= t
    ensures a <= -1 ==> a * t <= -t
  {
  }

  lemma {:induction false} NegativeDigits(x: real, d: int)
    requires d < 0
    ensures StaticRoundOf(x, d) == HalfAway(x, d) <==> StaticRight(x, d)
  {
    var n := -d;
    var w, m := Nearest(x), Nearest(Left(x, n));
    assert Times(x, Pow10(0)) == x && Over(StaticWhole(x, x) as real, 1.0) == StaticWhole(x, x) as real;
    StaticWholeIs(x, x);
    RightOfInt(m, n);
    NotDivisible(m, n);
    Multiple(w, TenPower(n));
    if w % TenPower(n) == 0 {
      MultipleIsRounded(x, n, w / TenPower(n));
    }
  }

  /** The static form is ROUND exactly then. */
  lemma {:induction false} StaticExactly(x: real, d: int)
    ensures StaticRoundOf(x, d) == HalfAway(x, d) <==> StaticRight(x, d)
  {
    if d < 0 {
      NegativeDigits(x, d);
    } else {
      var y := ShiftUp(x, d);
      TimesIsShiftUp(x, d);
      AbsShift(x, d);
      StaticWholeIs(x, y);
      OverIsShiftDown(StaticWhole(x, y) as real, d);
      ShiftLaws(StaticWhole(x, y) as real, Nearest(y) as real, d);
      ShiftLaws(Nearest(y) as real, StaticWhole(x, y) as real, d);
    }
  }

  /** So both forms of ROUND agree then, and nowhere else. */
  lemma {:induction false} StaticAgrees(x: real, d: int)
    ensures StaticRoundOf(x, d) == FormulaRound(x, d) <==> StaticRight(x, d)
  {
    FormulaAgrees(x, d);
    StaticExactly(x, d);
  }

  /** ROUND(25, -1) is 30, but statically 25. */
  lemma {:induction false} NegativeDigitsIgnored()
    ensures HalfAway(25.0, -1) == 30.0 && StaticRoundOf(25.0, -1) == 25.0
  {
    assert Pow10(0) == 1.0 && (25.5).Floor == 25;
    assert Left(25.0, 1) == 2.5 && (2.5).Floor == 2 && Nearest(2.5) == 3;
    assert Right(3.0, 1) == 30.0;
  }
}
