/** Exact integer and rational arithmetic of the ring: rounding, roots and sums. */
module RingArithmetic {
  import opened Basics

  /** The least multiple of the unit that is not below the value. */
  function RoundUp(value: int, unit: int): (r: int)
    requires unit > 0
    ensures value <= r < value + unit && r % unit == 0
  {
    var count := (value + unit - 1) / unit;
    assert count * unit == value + unit - 1 - (value + unit - 1) % unit;
    MultipleIsMultiple(count, unit);
    count * unit
  }

  lemma MultipleIsMultiple(n: int, unit: int)
    requires unit > 0
    ensures (n * unit) % unit == 0
  {
    DivisionUnique(n * unit, unit, n, 0);
  }

  lemma DivisionUnique(x: int, unit: int, q: int, r: int)
    requires unit > 0 && x == q * unit + r && 0 <= r < unit
    ensures x / unit == q && x % unit == r
  {
    var d := q - x / unit;
    assert d * unit == x % unit - r;
    MulOrder(d, 1, unit);
    MulOrder(-1, d, unit);
  }

  lemma MulOrder(a: int, b: int, unit: int)
    requires unit > 0
    ensures a <= b ==> a * unit <= b * unit
    ensures a >= b ==> a * unit >= b * unit
  {
    assert (b - a) * unit == b * unit - a * unit;
    assert a <= b ==> (b - a) * unit >= 0;
    assert a >= b ==> (a - b) * unit >= 0;
  }

  lemma RoundUpMonotone(a: int, b: int, unit: int)
    requires unit > 0 && a <= b
    ensures RoundUp(a, unit) <= RoundUp(b, unit)
  {
    RoundUpLeast(a, RoundUp(b, unit), unit);
  }

  /** No multiple of the unit lies between a value and its rounding. */
  lemma RoundUpLeast(value: int, multiple: int, unit: int)
    requires unit > 0 && value <= multiple && multiple % unit == 0
    ensures RoundUp(value, unit) <= multiple
  {
    var a, b := RoundUp(value, unit) / unit, multiple / unit;
    assert RoundUp(value, unit) == a * unit && multiple == b * unit;
    assert a * unit < (b + 1) * unit;
    MulOrder(a, b + 1, unit);
    MulOrder(a, b, unit);
  }

  /** Whole units add and scale to whole units. */
  lemma UnitsAdd(a: int, b: int, unit: int)
    requires unit > 0 && a % unit == 0 && b % unit == 0
    ensures (a + b) % unit == 0
  {
    assert a + b == (a / unit + b / unit) * unit;
    MultipleIsMultiple(a / unit + b / unit, unit);
  }

  lemma UnitsScale(n: int, a: int, unit: int)
    requires unit > 0 && a % unit == 0
    ensures (n * a) % unit == 0
  {
    assert n * a == (n * (a / unit)) * unit;
    MultipleIsMultiple(n * (a / unit), unit);
  }

  /** ceil of a rational. */
  function Ceil(x: real): (n: int)
    ensures (n - 1) as real < x <= n as real
  {
    -((-x).Floor)
  }

  lemma CeilMonotone(x: real, y: real)
    requires x <= y
    ensures Ceil(x) <= Ceil(y)
  {
  }

  /** math.isqrt: the greatest integer whose square is at most n. */
  function Isqrt(n: nat): (r: nat)
    ensures r * r <= n < (r + 1) * (r + 1)
  {
    if n == 0 then 0
    else
      var below := Isqrt(n - 1);
      if (below + 1) * (below + 1) <= n then below + 1 else below
  }

  /** ceil(sqrt(square)) of a non-negative rational. */
  function CeilRoot(square: real): nat
    requires square >= 0.0
  {
    var whole := Ceil(square);
    var root := Isqrt(whole);
    root + if root * root < whole then 1 else 0
  }

  /** It is the least integer whose square reaches its argument. */
  lemma CeilRootLeast(square: real, n: nat)
    requires square >= 0.0
    ensures (n * n) as real >= square <==> n >= CeilRoot(square)
  {
    var whole, root := Ceil(square), CeilRoot(square);
    if n >= root {
      SquaresGrow(root, n);
      assert root * root >= whole;
    } else {
      SquaresGrow(n, root - 1);
      assert (root - 1) * (root - 1) < whole by {
        var r := Isqrt(whole);
        if r * r < whole {
          assert root - 1 == r;
        } else {
          SquaresGrow(r - 1, r);
        }
      }
      assert n * n <= whole - 1;
    }
  }

  lemma SquaresGrow(a: nat, b: nat)
    requires a <= b
    ensures a * a <= b * b
    ensures a < b ==> a * a < b * b
  {
    var d := b - a;
    assert b * b == a * a + 2 * a * d + d * d;
    assert a * d >= 0;
    assert a < b ==> d * d >= 1;
  }

  lemma CeilRootMonotone(x: real, y: real)
    requires 0.0 <= x <= y
    ensures CeilRoot(x) <= CeilRoot(y)
  {
    CeilRootLeast(y, CeilRoot(y));
    CeilRootLeast(x, CeilRoot(y));
  }

  /** Of two non-negative rationals the one with the larger square is the larger. */
  lemma RootOrder(a: real, b: real)
    requires a >= 0.0 && b >= 0.0 && a * a >= b * b
    ensures a >= b
  {
    if a < b {
      SquareStrict(a, b);
    }
  }

  lemma SquareStrict(a: real, b: real)
    requires 0.0 <= a < b
    ensures a * a < b * b
  {
    assert b * b - a * a == (b - a) * (b + a);
    Positive(b - a, b + a);
  }

  lemma Positive(x: real, y: real)
    requires x > 0.0 && y > 0.0
    ensures x * y > 0.0
  {
  }

  // ---------- sums ----------

  function Sum<A>(f: A -> real, s: seq<A>): real {
    if s == [] then 0.0 else f(s[0]) + Sum(f, s[1..])
  }

  lemma {:induction false} SumPointwise<A>(f: A -> real, a: seq<A>, g: A -> real, b: seq<A>)
    requires |a| == |b| && forall i :: 0 <= i < |a| ==> f(a[i]) <= g(b[i])
    ensures Sum(f, a) <= Sum(g, b)
    decreases |a|
  {
    if a != [] {
      SumPointwise(f, a[1..], g, b[1..]);
    }
  }

  lemma SumSame<A>(f: A -> real, g: A -> real, s: seq<A>)
    requires forall i :: 0 <= i < |s| ==> f(s[i]) == g(s[i])
    ensures Sum(f, s) == Sum(g, s)
  {
    SumPointwise(f, s, g, s);
    SumPointwise(g, s, f, s);
  }

  lemma {:induction false} SumAdd<A>(f: A -> real, g: A -> real, h: A -> real, s: seq<A>)
    requires forall i :: 0 <= i < |s| ==> h(s[i]) == f(s[i]) + g(s[i])
    ensures Sum(h, s) == Sum(f, s) + Sum(g, s)
    decreases |s|
  {
    if s != [] {
      SumAdd(f, g, h, s[1..]);
    }
  }

  lemma {:induction false} SumConcat<A>(f: A -> real, a: seq<A>, b: seq<A>)
    ensures Sum(f, a + b) == Sum(f, a) + Sum(f, b)
    decreases |a|
  {
    if a == [] {
      assert a + b == b;
    } else {
      assert (a + b)[1..] == a[1..] + b;
      SumConcat(f, a[1..], b);
    }
  }

  function Without<A>(s: seq<A>, i: nat): seq<A>
    requires i < |s|
  {
    s[..i] + s[i + 1..]
  }

  lemma SumWithout<A>(f: A -> real, s: seq<A>, i: nat)
    requires i < |s|
    ensures Sum(f, s) == f(s[i]) + Sum(f, Without(s, i))
  {
    assert s == s[..i] + s[i..] && s[i..][1..] == s[i + 1..];
    SumConcat(f, s[..i], s[i..]);
    SumConcat(f, s[..i], s[i + 1..]);
  }

  lemma MultisetWithout<A>(s: seq<A>, i: nat)
    requires i < |s|
    ensures multiset(Without(s, i)) == multiset(s) - multiset{s[i]}
  {
    assert s == s[..i] + [s[i]] + s[i + 1..];
    assert multiset(s) == multiset(Without(s, i)) + multiset{s[i]};
  }

  /** A sum does not depend on the order of its terms. */
  lemma {:induction false} SumOrderFree<A>(f: A -> real, a: seq<A>, b: seq<A>)
    requires multiset(a) == multiset(b)
    ensures Sum(f, a) == Sum(f, b)
    decreases |a|
  {
    if a == [] {
      assert |multiset(b)| == 0;
    } else {
      assert a[0] in multiset(b);
      var i :| 0 <= i < |b| && b[i] == a[0];
      MultisetWithout(a, 0);
      MultisetWithout(b, i);
      SumWithout(f, a, 0);
      SumWithout(f, b, i);
      SumOrderFree(f, Without(a, 0), Without(b, i));
    }
  }

  /** The sum of some numbers. */
  ghost function Total(xs: seq<real>): real {
    if xs == [] then 0.0 else Total(xs[..|xs| - 1]) + xs[|xs| - 1]
  }

  lemma {:induction false} TotalFromFront(xs: seq<real>)
    requires xs != []
    ensures Total(xs) == xs[0] + Total(xs[1..])
    decreases |xs|
  {
    var front := xs[..|xs| - 1];
    if |xs| > 1 {
      TotalFromFront(front);
      assert front[1..] == xs[1..][..|xs| - 2];
    } else {
      assert xs[1..] == [] && front == [];
    }
  }

  /** A sum of values is the total of those values. */
  lemma {:induction false} SumIsTotal<A>(f: A -> real, s: seq<A>, xs: seq<real>)
    requires |xs| == |s| && forall i :: 0 <= i < |s| ==> xs[i] == f(s[i])
    ensures Sum(f, s) == Total(xs)
    decreases |s|
  {
    if s != [] {
      SumIsTotal(f, s[1..], xs[1..]);
      TotalFromFront(xs);
    }
  }
}
