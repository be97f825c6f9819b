/** Positional numerals in any base, most significant digit first. The decimal amounts and the hexadecimal texts
    of the command line and the 32-byte words of the contract are all instances of this module. */
module Numerals {

  function Pow(b: nat, n: nat): nat {
    if n == 0 then 1 else b * Pow(b, n - 1)
  }

  /** The number that the digits ds denote in base b. */
  function Value(b: nat, ds: seq<nat>): nat {
    if ds == [] then 0 else Value(b, ds[..|ds| - 1]) * b + ds[|ds| - 1]
  }

  /** The k low-order digits of n in base b. */
  function Digits(b: nat, n: nat, k: nat): seq<nat>
    requires b > 0
    decreases k, n
  {
    if k == 0 then [] else Digits(b, n / b, k - 1) + [n % b]
  }

  predicate AllBelow(b: nat, ds: seq<nat>) {
    forall i :: 0 <= i < |ds| ==> ds[i] < b
  }

  function Zeros(k: nat): (ds: seq<nat>) {
    seq(k, i => 0)
  }

  lemma ValueOfOne(b: nat, d: nat)
    ensures Value(b, [d]) == d
  {
    assert [d][..|[d]| - 1] == [];
  }

  lemma PowPositive(b: nat, n: nat)
    requires b > 0
    ensures Pow(b, n) > 0
  {
  }

  lemma {:induction false} PowAdd(b: nat, m: nat, n: nat)
    ensures Pow(b, m + n) == Pow(b, m) * Pow(b, n)
  {
    if m == 0 {
    } else {
      PowAdd(b, m - 1, n);
      assert b * (Pow(b, m - 1) * Pow(b, n)) == (b * Pow(b, m - 1)) * Pow(b, n);
    }
  }

  lemma {:induction false} ValueBound(b: nat, ds: seq<nat>)
    requires AllBelow(b, ds)
    ensures Value(b, ds) < Pow(b, |ds|)
  {
    if ds == [] {
    } else {
      var v, d, p := Value(b, ds[..|ds| - 1]), ds[|ds| - 1], Pow(b, |ds| - 1);
      ValueBound(b, ds[..|ds| - 1]);
      MulMonotone(v + 1, p, b);
      assert v * b + b == (v + 1) * b <= p * b == Pow(b, |ds|);
    }
  }

  lemma {:induction false} ValueConcat(b: nat, xs: seq<nat>, ys: seq<nat>)
    ensures Value(b, xs + ys) == Value(b, xs) * Pow(b, |ys|) + Value(b, ys)
  {
    if ys == [] {
      assert xs + ys == xs;
    } else {
      var init, last := ys[..|ys| - 1], ys[|ys| - 1];
      assert (xs + ys)[..|xs + ys| - 1] == xs + init;
      ValueConcat(b, xs, init);
      calc {
        Value(b, xs + ys);
        (Value(b, xs) * Pow(b, |init|) + Value(b, init)) * b + last;
        Value(b, xs) * Pow(b, |init|) * b + Value(b, init) * b + last;
        { MulRearrange(Value(b, xs), Pow(b, |init|), b); }
        Value(b, xs) * Pow(b, |ys|) + Value(b, ys);
      }
    }
  }

  lemma MulRearrange(x: nat, y: nat, z: nat)
    ensures x * y * z == x * (z * y)
  {
    assert y * z == z * y;
  }

  lemma {:induction false} ValueOfZeros(b: nat, k: nat)
    ensures Value(b, Zeros(k)) == 0
  {
    if k > 0 {
      assert Zeros(k)[..k - 1] == Zeros(k - 1);
      ValueOfZeros(b, k - 1);
    }
  }

  lemma {:induction false} DigitsShape(b: nat, n: nat, k: nat)
    requires b > 0
    ensures |Digits(b, n, k)| == k && AllBelow(b, Digits(b, n, k))
    decreases k
  {
    if k > 0 {
      DigitsShape(b, n / b, k - 1);
    }
  }

  /** Printing k digits and reading them back gives the number, as soon as it fits. */
  lemma {:induction false} ValueOfDigits(b: nat, n: nat, k: nat)
    requires b > 0 && n < Pow(b, k)
    ensures Value(b, Digits(b, n, k)) == n
    decreases k
  {
    if k > 0 {
      DivBelow(n, b, Pow(b, k - 1));
      ValueOfDigits(b, n / b, k - 1);
      assert Digits(b, n, k)[..|Digits(b, n, k)| - 1] == Digits(b, n / b, k - 1);
    }
  }

  lemma MulMonotone(x: nat, y: nat, b: nat)
    requires x <= y
    ensures x * b <= y * b
  {
  }

  lemma MulCancel(x: nat, y: nat, b: nat)
    requires x * b < y * b
    ensures x < y
  {
    if y <= x {
      MulMonotone(y, x, b);
    }
  }

  lemma DivBelow(n: nat, b: nat, p: nat)
    requires b > 0 && n < b * p
    ensures n / b < p
  {
    var q := n / b;
    assert q * b <= n;
    MulCancel(q, p, b);
  }

  /** Reading digits and printing as many gives the digits. */
  lemma {:induction false} DigitsOfValue(b: nat, ds: seq<nat>)
    requires b > 0 && AllBelow(b, ds)
    ensures Digits(b, Value(b, ds), |ds|) == ds
  {
    if ds != [] {
      var init, last := ds[..|ds| - 1], ds[|ds| - 1];
      DigitsOfValue(b, init);
      DivModUnique(Value(b, init), last, b);
      assert ds == init + [last];
    }
  }

  lemma DivModUnique(q: nat, r: nat, b: nat)
    requires r < b
    ensures (q * b + r) / b == q && (q * b + r) % b == r
  {
    var n := q * b + r;
    var d, m := n / b, n % b;
    assert n == d * b + m;
    MulCancel(q, d + 1, b);
    MulCancel(d, q + 1, b);
  }
}
