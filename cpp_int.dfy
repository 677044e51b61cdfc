/**
  The C++ integer operators the programs rely on, written out over Dafny's
  unbounded integers: `/` and `%` truncate toward zero (Dafny's are
  Euclidean), `abs`, and the shifts and bitwise or used to pack a label byte.
*/
module CppInt {

  function Abs(x: int): nat
  {
    if x < 0 then -x else x
  }

  /** C++ `a / b`: the quotient truncated toward zero. */
  function Div(a: int, b: int): int
    requires b != 0
  {
    if (a < 0) == (b < 0) then Abs(a) / Abs(b) else -(Abs(a) / Abs(b))
  }

  /** C++ `a % b`: the remainder that goes with `Div`. */
  function Rem(a: int, b: int): int
    requires b != 0
  {
    a - b * Div(a, b)
  }

  /**
    `Div` and `Rem` are C++'s: a == b * q + r, the remainder is smaller than
    the divisor in size and, unless zero, has the dividend's sign.
  */
  lemma DivTruncates(a: int, b: int)
    requires b != 0
    ensures a == b * Div(a, b) + Rem(a, b)
    ensures Abs(Rem(a, b)) < Abs(b)
    ensures Rem(a, b) == 0 || (Rem(a, b) < 0 <==> a < 0)
  {
    var q, r := Abs(a) / Abs(b), Abs(a) % Abs(b);
    assert Abs(a) == Abs(b) * q + r;
    if a < 0 && b < 0 {
      assert a == b * q - r;
    } else if a < 0 {
      assert a == b * -q - r;
    } else if b < 0 {
      assert a == b * -q + r;
    }
  }

  /**
    q is a / b truncated toward zero, for a positive divisor: b * q lies
    between 0 and a and less than b away from a.
  */
  ghost predicate TruncQuotient(a: int, b: int, q: int)
    requires b > 0
  {
    if a >= 0 then 0 <= b * q <= a < b * q + b else a <= b * q <= 0 && b * q < a + b
  }

  lemma DivIsTruncQuotient(a: int, b: int)
    requires b > 0
    ensures TruncQuotient(a, b, Div(a, b))
  {
    DivTruncates(a, b);
    DivSign(a, b);
    TruncFromParts(a, b, b * Div(a, b), Rem(a, b));
  }

  lemma DivSign(a: int, b: int)
    requires b > 0
    ensures a >= 0 ==> b * Div(a, b) >= 0
    ensures a < 0 ==> b * Div(a, b) <= 0
  {
    var q := Div(a, b);
    if a >= 0 {
      MulNonNegative(b, q);
    } else {
      MulNonNegative(b, -q);
      assert b * -q == -(b * q);
    }
  }

  lemma MulNonNegative(x: int, y: int)
    requires x >= 0 && y >= 0
    ensures x * y >= 0
  {
  }

  lemma TruncFromParts(a: int, b: int, m: int, r: int)
    requires b > 0 && a == m + r && Abs(r) < b && (r == 0 || (r < 0 <==> a < 0))
    requires (a >= 0 ==> m >= 0) && (a < 0 ==> m <= 0)
    ensures if a >= 0 then 0 <= m <= a < m + b else a <= m <= 0 && m < a + b
  {
  }

  /** A truncated quotient is unique. */
  lemma TruncQuotientUnique(a: int, b: int, q: int, q': int)
    requires b > 0 && TruncQuotient(a, b, q) && TruncQuotient(a, b, q')
    ensures q == q'
  {
    if q < q' {
      MulGrows(b, q, q');
    } else if q' < q {
      MulGrows(b, q', q);
    }
  }

  lemma {:induction false} MulGrows(b: int, q: int, q': int)
    requires b > 0 && q < q'
    ensures b * q + b <= b * q'
    decreases q' - q
  {
    assert b * q' == b * (q' - 1) + b;
    if q + 1 < q' {
      MulGrows(b, q, q' - 1);
    }
  }

  function Pow2(k: nat): (p: nat)
    ensures p >= 1
  {
    if k == 0 then 1 else 2 * Pow2(k - 1)
  }

  /** `x << k` on a non-negative int. */
  function Shl(x: nat, k: nat): nat
  {
    if k == 0 then x else 2 * Shl(x, k - 1)
  }

  /** `x >> k` on a non-negative int. */
  function Shr(x: nat, k: nat): nat
  {
    if k == 0 then x else Shr(x, k - 1) / 2
  }

  /** Shifting left by 2 and by 5 multiplies by 4 and by 32. */
  lemma ShlTwoFive(x: nat)
    ensures Shl(x, 2) == 4 * x && Shl(x, 5) == 32 * x
  {
    assert Shl(x, 1) == 2 * x;
    assert Shl(x, 2) == 4 * x;
    assert Shl(x, 3) == 8 * x;
    assert Shl(x, 4) == 16 * x;
  }

  /** Shifting right by 5 drops the five low bits. */
  lemma ShrFive(x: nat)
    ensures Shr(x, 5) == x / 32
  {
    assert Shr(x, 1) == x / 2;
    assert Shr(x, 2) == x / 4;
    assert Shr(x, 3) == x / 8;
    assert Shr(x, 4) == x / 16;
  }

  /** `a | b` on non-negative ints, bit by bit from the least significant. */
  function BitOr(a: nat, b: nat): nat
    decreases a + b
  {
    if a == 0 && b == 0 then 0
    else 2 * BitOr(a / 2, b / 2) + (if a % 2 == 1 || b % 2 == 1 then 1 else 0)
  }

  lemma {:induction false} BitOrZero(a: nat)
    ensures BitOr(a, 0) == a
  {
    if a != 0 {
      BitOrZero(a / 2);
    }
  }

  /** Or-ing a value shifted left by k with one below 2^k is addition: the fields do not overlap. */
  lemma {:induction false} BitOrDisjoint(h: nat, b: nat, k: nat)
    requires b < Pow2(k)
    ensures BitOr(Shl(h, k), b) == Shl(h, k) + b
  {
    if k == 0 {
      BitOrZero(h);
    } else if !(Shl(h, k) == 0 && b == 0) {
      BitOrDisjoint(h, b / 2, k - 1);
    }
  }
}
