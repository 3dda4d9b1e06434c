/** Left-to-right folds over exact decimals, the shape of Java's
    `reduce(BigDecimal.ZERO, BigDecimal::add)` and of the accumulation loops,
    together with the algebra the decomposition proofs need. */
module Sums {

  function Abs(x: real): real { if x < 0.0 then -x else x }

  function Max(x: real, y: real): real { if x < y then y else x }

  /** ((0 + s[0]) + s[1]) + ... : the last element is added last. */
  function Sum(s: seq<real>): real {
    if s == [] then 0.0 else Sum(s[..|s| - 1]) + s[|s| - 1]
  }

  /** ((1 * s[0]) * s[1]) * ... */
  function Product(s: seq<real>): real {
    if s == [] then 1.0 else Product(s[..|s| - 1]) * s[|s| - 1]
  }

  /** The pointwise difference of two sequences of equal length. */
  function Minus(a: seq<real>, b: seq<real>): (r: seq<real>)
    requires |a| == |b|
    ensures |r| == |a|
    ensures forall i :: 0 <= i < |a| ==> r[i] == a[i] - b[i]
  {
    seq(|a|, i requires 0 <= i < |a| => a[i] - b[i])
  }

  /** Every element multiplied by k. */
  function Scale(k: real, s: seq<real>): (r: seq<real>)
    ensures |r| == |s|
    ensures forall i :: 0 <= i < |s| ==> r[i] == k * s[i]
  {
    seq(|s|, i requires 0 <= i < |s| => k * s[i])
  }

  /** The law of a logarithm (of any base) on the positive reals. */
  ghost predicate IsLog(ln: real -> real) {
    forall x: real, y: real {:trigger ln(x * y)} :: 0.0 < x && 0.0 < y ==> ln(x * y) == ln(x) + ln(y)
  }

  predicate AllPositive(s: seq<real>) {
    forall i :: 0 <= i < |s| ==> 0.0 < s[i]
  }

  /** ln applied to every element. */
  function LnAll(ln: real -> real, s: seq<real>): (r: seq<real>)
    ensures |r| == |s|
    ensures forall i :: 0 <= i < |s| ==> r[i] == ln(s[i])
  {
    seq(|s|, i requires 0 <= i < |s| => ln(s[i]))
  }

  lemma {:induction false} SumAppend(a: seq<real>, b: seq<real>)
    ensures Sum(a + b) == Sum(a) + Sum(b)
    decreases |b|
  {
    if b == [] {
      assert a + b == a;
    } else {
      var n := |b| - 1;
      assert (a + b)[..|a + b| - 1] == a + b[..n];
      SumAppend(a, b[..n]);
    }
  }

  lemma {:induction false} SumCons(x: real, s: seq<real>)
    ensures Sum([x] + s) == x + Sum(s)
  {
    SumAppend([x], s);
    assert [x][..0] == [];
  }

  lemma {:induction false} SumMinus(a: seq<real>, b: seq<real>)
    requires |a| == |b|
    ensures Sum(Minus(a, b)) == Sum(a) - Sum(b)
    decreases |a|
  {
    if a != [] {
      var n := |a| - 1;
      assert Minus(a, b)[..n] == Minus(a[..n], b[..n]);
      SumMinus(a[..n], b[..n]);
    }
  }

  lemma {:induction false} SumScale(k: real, s: seq<real>)
    ensures Sum(Scale(k, s)) == k * Sum(s)
    decreases |s|
  {
    if s != [] {
      var n := |s| - 1;
      ScalePrefix(k, s, n);
      SumScale(k, s[..n]);
      assert k * (Sum(s[..n]) + s[n]) == k * Sum(s[..n]) + k * s[n];
    }
  }

  lemma ScalePrefix(k: real, s: seq<real>, n: nat)
    requires n <= |s|
    ensures Scale(k, s)[..n] == Scale(k, s[..n])
  {
    assert forall i :: 0 <= i < n ==> Scale(k, s)[..n][i] == Scale(k, s[..n])[i];
  }

  lemma {:induction false} ProductPositive(s: seq<real>)
    requires AllPositive(s)
    ensures 0.0 < Product(s)
    decreases |s|
  {
    if s != [] {
      ProductPositive(s[..|s| - 1]);
    }
  }

  /** One instance of the logarithm law. */
  lemma LnMul(ln: real -> real, x: real, y: real)
    requires IsLog(ln) && 0.0 < x && 0.0 < y
    ensures ln(x * y) == ln(x) + ln(y)
  {
  }

  lemma LnOne(ln: real -> real)
    requires IsLog(ln)
    ensures ln(1.0) == 0.0
  {
    LnMul(ln, 1.0, 1.0);
  }

  lemma LnQuotient(ln: real -> real, x: real, y: real)
    requires IsLog(ln) && 0.0 < x && 0.0 < y
    ensures ln(x / y) == ln(x) - ln(y)
  {
    var q := x / y;
    assert q * y == x;
    LnMul(ln, q, y);
    assert ln(q * y) == ln(x);
  }

  /** The logarithm of a product is the sum of the logarithms. */
  lemma {:induction false} LnProduct(ln: real -> real, s: seq<real>)
    requires IsLog(ln) && AllPositive(s)
    ensures Sum(LnAll(ln, s)) == ln(Product(s))
    decreases |s|
  {
    if s == [] {
      LnOne(ln);
    } else {
      var n := |s| - 1;
      assert LnAll(ln, s)[..n] == LnAll(ln, s[..n]);
      LnProduct(ln, s[..n]);
      ProductPositive(s[..n]);
      LnMul(ln, Product(s[..n]), s[n]);
    }
  }
}
