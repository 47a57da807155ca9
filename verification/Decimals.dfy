// Decimal rounding as the broker book uses it: money and quantities round half away from zero,
// prices and costs round half to even.
module Decimals {

  function Abs(x: real): real {
    if x < 0.0 then -x else x
  }

  function Min(x: real, y: real): real {
    if x <= y then x else y
  }

  function Max(x: real, y: real): real {
    if x <= y then y else x
  }

  // A product by name, so that proofs can treat it as an atom.
  function Times(x: real, y: real): real {
    x * y
  }

  lemma TimesSum(k: real, s: real, x: real, y: real)
    requires s == x + y
    ensures Times(k, s) == Times(k, x) + Times(k, y)
  {}

  lemma TimesTurns(x: real, y: real)
    ensures Times(x, y) == Times(y, x) && Times(x, -y) == -Times(x, y) && Times(-x, y) == -Times(x, y)
  {}

  lemma TimesNothing(x: real)
    ensures Times(x, 0.0) == 0.0 && Times(0.0, x) == 0.0 && Times(x, 1.0) == x && Times(1.0, x) == x
  {}

  lemma TimesRegroups(x: real, y: real, z: real)
    ensures Times(Times(x, y), z) == Times(x, Times(y, z))
  {}

  lemma TimesGrows(k: real, x: real, y: real)
    requires k >= 0.0 && x <= y
    ensures Times(k, x) <= Times(k, y)
  {
    ProductNotNegative(k, y - x);
    assert k * (y - x) == k * y - k * x;
  }

  lemma TimesGrowsStrictly(k: real, x: real, y: real)
    requires k > 0.0 && x < y
    ensures Times(k, x) < Times(k, y)
  {
    ProductPositive(k, y - x);
    assert k * (y - x) == k * y - k * x;
  }

  lemma ProductNotNegative(k: real, d: real)
    requires k >= 0.0 && d >= 0.0
    ensures k * d >= 0.0
  {}

  lemma ProductPositive(k: real, d: real)
    requires k > 0.0 && d > 0.0
    ensures k * d > 0.0
  {}

  // A positive factor preserves the sign of the other one and the order of two others.
  lemma TimesSign(x: real, k: real)
    requires k > 0.0
    ensures Times(x, k) > 0.0 <==> x > 0.0
    ensures Times(x, k) < 0.0 <==> x < 0.0
  {
    if x > 0.0 {
      ProductPositive(x, k);
    } else if x < 0.0 {
      ProductPositive(-x, k);
      assert -x * k == -(x * k);
    }
  }

  lemma TimesCancels(x: real, y: real, k: real)
    requires k > 0.0 && Times(x, k) <= Times(y, k)
    ensures x <= y
  {
    hide Times;
    if y < x {
      TimesGrowsStrictly(k, y, x);
      TimesTurns(k, x);
      TimesTurns(k, y);
    }
  }

  lemma DividedTimes(x: real, k: real)
    requires k > 0.0
    ensures Times(x / k, k) == x
  {}

  predicate IsInt(x: real) {
    x == x.Floor as real
  }

  predicate IsTie(x: real) {
    x - x.Floor as real == 0.5
  }

  function RoundHalfUp(x: real): (n: int)
    ensures Abs(n as real - x) <= 0.5
    ensures IsTie(x) ==> n == if x >= 0.0 then x.Floor + 1 else x.Floor
    ensures IsInt(x) ==> n as real == x
  {
    var f := x.Floor;
    if x >= 0.0 then
      assert (x + 0.5).Floor == if x - f as real < 0.5 then f else f + 1;
      (x + 0.5).Floor
    else
      assert (0.5 - x).Floor == if x - f as real <= 0.5 then -f else -f - 1;
      -((0.5 - x).Floor)
  }

  function RoundHalfEven(x: real): (n: int)
    ensures Abs(n as real - x) <= 0.5
    ensures IsTie(x) ==> n % 2 == 0
    ensures IsInt(x) ==> n as real == x
  {
    var f := x.Floor;
    var r := x - f as real;
    if r < 0.5 || (r == 0.5 && f % 2 == 0) then f else f + 1
  }

  // Two decimals, ties away from zero.
  function Money(x: real): (m: real)
    ensures IsCents(m) && Abs(m - x) <= 0.005
    ensures IsCents(x) ==> m == x
  {
    var n := RoundHalfUp(100.0 * x);
    OnCents(x, n);
    n as real / 100.0
  }

  // Two decimals, ties to even.
  function CentsHalfEven(x: real): (m: real)
    ensures IsCents(m) && Abs(m - x) <= 0.005
    ensures IsCents(x) ==> m == x
  {
    var n := RoundHalfEven(100.0 * x);
    OnCents(x, n);
    n as real / 100.0
  }

  // Six decimals, ties away from zero.
  function Qty(x: real): (q: real)
    ensures IsMicro(q) && Abs(q - x) <= 0.0000005
    ensures IsMicro(x) ==> q == x
    ensures x >= 0.0 ==> q >= 0.0
  {
    var n := RoundHalfUp(1000000.0 * x);
    OnMicros(x, n);
    n as real / 1000000.0
  }

  // Four decimals, ties to even.
  function Tick(x: real): (p: real)
    ensures IsTick(p) && Abs(p - x) <= 0.00005
    ensures IsTick(x) ==> p == x
  {
    var n := RoundHalfEven(10000.0 * x);
    OnTicks(x, n);
    n as real / 10000.0
  }

  predicate IsCents(x: real) { IsInt(100.0 * x) }

  predicate IsMicro(x: real) { IsInt(1000000.0 * x) }

  predicate IsTick(x: real) { IsInt(10000.0 * x) }

  lemma OnCents(x: real, n: int)
    requires Abs(n as real - 100.0 * x) <= 0.5
    ensures IsCents(n as real / 100.0) && Abs(n as real / 100.0 - x) <= 0.005
    ensures 100.0 * x == n as real ==> n as real / 100.0 == x
  {
    assert 100.0 * (n as real / 100.0) == n as real;
    IsWhole(n);
  }

  lemma OnMicros(x: real, n: int)
    requires Abs(n as real - 1000000.0 * x) <= 0.5
    ensures IsMicro(n as real / 1000000.0) && Abs(n as real / 1000000.0 - x) <= 0.0000005
    ensures 1000000.0 * x == n as real ==> n as real / 1000000.0 == x
    ensures x >= 0.0 ==> n as real / 1000000.0 >= 0.0
  {
    assert 1000000.0 * (n as real / 1000000.0) == n as real;
    IsWhole(n);
  }

  lemma OnTicks(x: real, n: int)
    requires Abs(n as real - 10000.0 * x) <= 0.5
    ensures IsTick(n as real / 10000.0) && Abs(n as real / 10000.0 - x) <= 0.00005
    ensures 10000.0 * x == n as real ==> n as real / 10000.0 == x
  {
    assert 10000.0 * (n as real / 10000.0) == n as real;
    IsWhole(n);
  }

  lemma CentsClosed(x: real, y: real)
    requires IsCents(x) && IsCents(y)
    ensures IsCents(x + y) && IsCents(x - y)
  {
    WholeSum(100.0 * x, 100.0 * y);
    assert 100.0 * (x + y) == 100.0 * x + 100.0 * y;
    assert 100.0 * (x - y) == 100.0 * x - 100.0 * y;
  }

  lemma WholeSum(x: real, y: real)
    requires IsInt(x) && IsInt(y)
    ensures IsInt(x + y) && IsInt(x - y)
  {
    hide IsInt;
    var m := Whole(x);
    var n := Whole(y);
    IsWhole(m + n);
    IsWhole(m - n);
  }

  lemma Whole(x: real) returns (n: int)
    requires IsInt(x)
    ensures x == n as real
  {
    n := x.Floor;
  }

  lemma IsWhole(n: int)
    ensures IsInt(n as real)
  {}

  // Rounding to a grid never leaves an interval whose ends are on the grid.
  lemma TickStaysBetween(x: real, lo: real, hi: real)
    requires IsTick(lo) && IsTick(hi) && lo <= x <= hi
    ensures lo <= Tick(x) <= hi
  {
    var n := RoundHalfEven(10000.0 * x);
    assert (10000.0 * lo).Floor <= n <= (10000.0 * hi).Floor;
  }

  // Adding a whole number commutes with rounding half away from zero, except on a tie whose sign the
  // addition flips.
  lemma RoundHalfUpShift(c: int, x: real)
    ensures RoundHalfUp(c as real + x) - c - RoundHalfUp(x) ==
            if IsTie(x) && x < 0.0 < c as real + x then 1
            else if IsTie(x) && c as real + x < 0.0 < x then -1
            else 0
  {
    var f := x.Floor;
    assert (c as real + x).Floor == c + f;
    assert x >= 0.0 ==> (x + 0.5).Floor == if x - f as real < 0.5 then f else f + 1;
    assert x < 0.0 ==> (0.5 - x).Floor == if x - f as real <= 0.5 then -f else -f - 1;
    var y := c as real + x;
    assert y >= 0.0 ==> (y + 0.5).Floor == c + if x - f as real < 0.5 then f else f + 1;
    assert y < 0.0 ==> (0.5 - y).Floor == -c + if x - f as real <= 0.5 then -f else -f - 1;
  }

  // The same for money: booking a cash movement on a balance held in whole cents moves the balance by the
  // rounded movement, except for one cent when the movement lands on half a cent and flips the sign.
  lemma MoneyShift(cash: real, x: real)
    requires IsCents(cash)
    ensures Money(cash + x) - cash - Money(x) ==
            if IsTie(100.0 * x) && x < 0.0 < cash + x then 0.01
            else if IsTie(100.0 * x) && cash + x < 0.0 < x then -0.01
            else 0.0
  {
    var c := (100.0 * cash).Floor;
    assert 100.0 * (cash + x) == c as real + 100.0 * x;
    RoundHalfUpShift(c, 100.0 * x);
  }

  // Half a cent taken from one cent: the balance stays, the row says minus one cent.
  lemma MoneyShiftHappens()
    ensures Money(0.01 - 0.005) == 0.01 && Money(-0.005) == -0.01
  {
    assert (100.0 * 0.005 + 0.5).Floor == 1;
  }
}
