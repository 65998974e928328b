/** Natural numbers written as big-endian digit sequences in a base.
    Both directions of a base conversion are instances of the two functions below. */
module Positional {

  ghost predicate IsDigits(base: nat, ds: seq<nat>) {
    forall i :: 0 <= i < |ds| ==> ds[i] < base
  }

  function Pow(base: nat, e: nat): nat {
    if e == 0 then 1 else base * Pow(base, e - 1)
  }

  /** The number that a digit sequence stands for, most significant digit first. */
  function Value(base: nat, ds: seq<nat>): nat {
    if ds == [] then 0 else Value(base, ds[..|ds| - 1]) * base + ds[|ds| - 1]
  }

  /** The shortest digit sequence of a number; zero has no digits. */
  function ToDigits(base: nat, n: nat): (ds: seq<nat>)
    requires base >= 2
    ensures IsDigits(base, ds)
    ensures ds != [] ==> ds[0] != 0
    ensures ds == [] <==> n == 0
  {
    if n == 0 then []
    else
      DivShrinks(n, base);
      ToDigits(base, n / base) + [n % base]
  }

  lemma LastDigit(base: nat, n: nat)
    requires base >= 2 && n > 0
    ensures ToDigits(base, n) == ToDigits(base, n / base) + [n % base]
  {
  }

  /** How many leading elements of s are equal to x. */
  function LeadingCount<T(==)>(s: seq<T>, x: T): (k: nat)
    ensures k <= |s|
    ensures forall i :: 0 <= i < k ==> s[i] == x
    ensures k < |s| ==> s[k] != x
  {
    if s != [] && s[0] == x then 1 + LeadingCount(s[1..], x) else 0
  }

  function Repeat<T>(x: T, n: nat): (s: seq<T>) {
    seq(n, _ => x)
  }

  lemma MulMonotone(a: int, b: int, c: nat)
    requires a <= b
    ensures a * c <= b * c
  {
  }

  lemma DivShrinks(n: nat, base: nat)
    requires base >= 2 && n > 0
    ensures n / base < n
  {
    var q := n / base;
    assert n == q * base + n % base;
    MulMonotone(2, base, q);
  }

  lemma SmallMultiple(k: int, base: nat)
    requires -(base as int) < k * base < base
    ensures k == 0
  {
    if k >= 1 {
      MulMonotone(1, k, base);
    } else if k < 0 {
      MulMonotone(k, -1, base);
    }
  }

  lemma DivModUnique(n: nat, base: nat, q: nat, r: nat)
    requires base > 0 && r < base && n == q * base + r
    ensures n / base == q && n % base == r
  {
    var q', r' := n / base, n % base;
    assert n == q' * base + r' && 0 <= r' < base;
    Distribute(q - q', q', base);
    SmallMultiple(q - q', base);
  }

  lemma Distribute(a: int, b: int, c: int)
    ensures (a + b) * c == a * c + b * c
  {
  }

  lemma MulAssociative(a: int, b: int, c: int)
    ensures (a * b) * c == a * (b * c)
  {
  }

  lemma {:induction false} ValueOfToDigits(base: nat, n: nat)
    requires base >= 2
    ensures Value(base, ToDigits(base, n)) == n
  {
    if n > 0 {
      DivShrinks(n, base);
      LastDigit(base, n);
      DivMod(n, base);
      ValueOfToDigits(base, n / base);
      hide ToDigits, Value;
      ValueOfSplit(base, n, n / base, n % base);
    }
  }

  lemma ValueOfSplit(base: nat, n: nat, q: nat, r: nat)
    requires base >= 2 && n == q * base + r && ToDigits(base, n) == ToDigits(base, q) + [r]
    requires Value(base, ToDigits(base, q)) == q
    ensures Value(base, ToDigits(base, n)) == n
  {
    hide ToDigits, Value;
    ValueOfAppend(base, ToDigits(base, q), r);
  }

  lemma ValueOfAppend(base: nat, hi: seq<nat>, lo: nat)
    ensures Value(base, hi + [lo]) == Value(base, hi) * base + lo
  {
    assert (hi + [lo])[..|hi + [lo]| - 1] == hi;
  }

  lemma DivMod(n: nat, base: nat)
    requires base > 0
    ensures n == n / base * base + n % base
  {
  }

  lemma {:induction false} ValuePositive(base: nat, ds: seq<nat>)
    requires base >= 1 && ds != [] && ds[0] != 0
    ensures Value(base, ds) > 0
  {
    if |ds| > 1 {
      ValuePositive(base, ds[..|ds| - 1]);
      assert Value(base, ds[..|ds| - 1]) * base >= 1;
    } else {
      assert ds[..|ds| - 1] == [];
    }
  }

  /** A digit sequence without a leading zero is recovered from its value. */
  lemma {:induction false} ToDigitsOfValue(base: nat, ds: seq<nat>)
    requires base >= 2 && IsDigits(base, ds)
    requires ds != [] ==> ds[0] != 0
    ensures ToDigits(base, Value(base, ds)) == ds
  {
    if ds != [] {
      var hi, lo := ds[..|ds| - 1], ds[|ds| - 1];
      ValuePositive(base, ds);
      DivModUnique(Value(base, ds), base, Value(base, hi), lo);
      ToDigitsOfValue(base, hi);
      assert hi + [lo] == ds;
    }
  }

  lemma {:induction false} LeadingZerosKeepValue(base: nat, k: nat, ds: seq<nat>)
    ensures Value(base, Repeat(0, k) + ds) == Value(base, ds)
  {
    var all := Repeat(0, k) + ds;
    if ds != [] {
      assert all[..|all| - 1] == Repeat(0, k) + ds[..|ds| - 1];
      LeadingZerosKeepValue(base, k, ds[..|ds| - 1]);
    } else if k > 0 {
      assert all[..|all| - 1] == Repeat(0, k - 1) + ds;
      LeadingZerosKeepValue(base, k - 1, ds);
    } else {
      assert all == ds;
    }
  }

  /** Any digit sequence is its leading zeros followed by the digits of its value. */
  lemma DigitsSplit(base: nat, ds: seq<nat>)
    requires base >= 2 && IsDigits(base, ds)
    ensures ds == Repeat(0, LeadingCount(ds, 0)) + ToDigits(base, Value(base, ds))
  {
    var k := LeadingCount(ds, 0);
    var rest := ds[k..];
    assert ds == Repeat(0, k) + rest;
    LeadingZerosKeepValue(base, k, rest);
    ToDigitsOfValue(base, rest);
  }

  lemma LeadingCountOfPadded<T>(x: T, k: nat, rest: seq<T>)
    requires rest != [] ==> rest[0] != x
    ensures LeadingCount(Repeat(x, k) + rest, x) == k
  {
    var s := Repeat(x, k) + rest;
    var c := LeadingCount(s, x);
    assert forall i :: 0 <= i < k ==> s[i] == x;
    assert rest != [] ==> s[k] == rest[0];
  }

  lemma {:induction false} PowPositive(base: nat, e: nat)
    requires base > 0
    ensures Pow(base, e) > 0
  {
    if e > 0 {
      PowPositive(base, e - 1);
    }
  }

  lemma {:induction false} PowAdd(base: nat, a: nat, b: nat)
    ensures Pow(base, a + b) == Pow(base, a) * Pow(base, b)
  {
    if a > 0 {
      PowAdd(base, a - 1, b);
      MulAssociative(base, Pow(base, a - 1), Pow(base, b));
    }
  }

  /** Dividing by base^k drops exactly the k least significant digits. */
  lemma {:induction false} TopDigits(base: nat, n: nat, k: nat)
    requires base >= 2 && Pow(base, k) > 0 && n / Pow(base, k) > 0
    ensures |ToDigits(base, n)| == |ToDigits(base, n / Pow(base, k))| + k
    ensures ToDigits(base, n / Pow(base, k)) <= ToDigits(base, n)
  {
    if k > 0 {
      var p := Pow(base, k - 1);
      PowPositive(base, k - 1);
      NestedDiv(n, p, base);
      if n / p > 0 {
        TopDigits(base, n, k - 1);
      } else {
        assert false;
      }
    }
  }

  lemma NestedDiv(n: nat, a: nat, b: nat)
    requires a > 0 && b > 0
    ensures b * a > 0 && (n / a) / b == n / (b * a)
  {
    var q, r := n / a, n % a;
    var qq, s := q / b, q % b;
    assert n == (qq * b + s) * a + r;
    Distribute(qq * b, s, a);
    MulAssociative(qq, b, a);
    MulMonotone(s, b - 1, a);
    Distribute(b - 1, 1, a);
    MulMonotone(1, b, a);
    DivModUnique(n, b * a, qq, s * a + r);
  }
}
