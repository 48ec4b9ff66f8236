/**
 * The byte-scale formatter `sizeof_fmt`: a quantity is divided by 1024
 * until its magnitude drops below 1024, and the number of divisions picks
 * the binary prefix. The one-decimal rendering of the magnitude is float
 * formatting and is kept abstract: a formatted quantity is the triple
 * (magnitude, prefix, suffix).
 */
module SizeFormat {

  /** The prefixes tried in order; "Yi" is used once they are exhausted. */
  const Units: seq<string> := ["", "Ki", "Mi", "Gi", "Ti", "Pi", "Ei", "Zi"]
  const Fallback: string := "Yi"

  /** A human-scaled quantity: `magnitude` followed by `prefix` and `suffix`. */
  datatype Sized = Sized(magnitude: real, prefix: string, suffix: string)

  function Abs(x: real): (r: real)
    ensures r >= 0.0 && (r == x || r == -x)
  {
    if x < 0.0 then -x else x
  }

  /** 1024 to the power k. */
  function Pow1024(k: nat): (r: real)
    ensures r >= 1.0
  {
    if k == 0 then 1.0 else 1024.0 * Pow1024(k - 1)
  }

  /** The largest k <= top such that k == 0 or 1024^k <= a. */
  function Fit(a: real, top: nat): (k: nat)
    ensures k <= top
  {
    if top == 0 || Pow1024(top) <= a then top else Fit(a, top - 1)
  }

  /** The index of the prefix chosen for x: 0..7 index Units, 8 is Fallback. */
  function ScaleIndex(x: real): (k: nat)
    ensures k <= |Units|
  {
    Fit(Abs(x), |Units|)
  }

  function PrefixAt(k: nat): string
    requires k <= |Units|
  {
    if k < |Units| then Units[k] else Fallback
  }

  /** The value `sizeof_fmt(x, suffix)` denotes. */
  function Scaled(x: real, suffix: string): Sized
  {
    var k := ScaleIndex(x);
    Sized(x / Pow1024(k), PrefixAt(k), suffix)
  }

  lemma {:induction false} PowMonotone(i: nat, j: nat)
    requires i <= j
    ensures Pow1024(i) <= Pow1024(j)
  {
    if i < j {
      PowMonotone(i, j - 1);
    }
  }

  lemma {:induction false} FitBracket(a: real, top: nat, k: nat)
    requires k <= top
    ensures Fit(a, top) == k <==>
              (k == 0 || Pow1024(k) <= a) && (k == top || a < Pow1024(k + 1))
  {
    if top == 0 {
    } else if Pow1024(top) <= a {
      if k < top {
        PowMonotone(k + 1, top);
      }
    } else {
      if k == top {
      } else {
        FitBracket(a, top - 1, k);
        if k + 1 < top {
          PowMonotone(k + 1, top);
        }
      }
    }
  }

  /** Prefix k is chosen exactly when 1024^k <= |x| < 1024^(k+1); the first
      prefix takes everything below 1024 and the last everything above. */
  lemma ScaleIndexBracket(x: real, k: nat)
    requires k <= |Units|
    ensures ScaleIndex(x) == k <==>
              (k == 0 || Pow1024(k) <= Abs(x)) && (k == |Units| || Abs(x) < Pow1024(k + 1))
  {
    FitBracket(Abs(x), |Units|, k);
  }

  lemma {:induction false} FitMonotone(a: real, b: real, top: nat)
    requires a <= b
    ensures Fit(a, top) <= Fit(b, top)
  {
    if top > 0 && Pow1024(top) > a {
      FitMonotone(a, b, top - 1);
    }
  }

  /** A larger magnitude never gets a smaller prefix; the sign is ignored. */
  lemma ScaleIndexMonotone(x: real, y: real)
    requires Abs(x) <= Abs(y)
    ensures ScaleIndex(x) <= ScaleIndex(y)
  {
    FitMonotone(Abs(x), Abs(y), |Units|);
  }

  /** Negating a quantity keeps its prefix and negates its magnitude. */
  lemma ScaleNegate(x: real, suffix: string)
    ensures Scaled(-x, suffix).prefix == Scaled(x, suffix).prefix
    ensures Scaled(-x, suffix).magnitude == -Scaled(x, suffix).magnitude
  {
    assert Abs(-x) == Abs(x);
  }

  /** The shown magnitude times the prefix's scale gives back x; below the
      fallback prefix it lies in [1, 1024) (or below 1024 for no prefix). */
  lemma ScaleMagnitude(x: real, suffix: string)
    ensures Scaled(x, suffix).magnitude * Pow1024(ScaleIndex(x)) == x
    ensures ScaleIndex(x) < |Units| ==> Abs(Scaled(x, suffix).magnitude) < 1024.0
    ensures ScaleIndex(x) > 0 ==> Abs(Scaled(x, suffix).magnitude) >= 1.0
    ensures Scaled(x, suffix).suffix == suffix
  {
    var k := ScaleIndex(x);
    var p := Pow1024(k);
    var m := x / p;
    ScaleIndexBracket(x, k);
    AbsDiv(x, p);
    if k < |Units| {
      assert Abs(x) < 1024.0 * p;
      LessScaled(Abs(x), p, 1024.0);
    }
    if k > 0 {
      assert p <= Abs(x);
      AtLeastScaled(Abs(x), p);
    }
  }

  lemma AbsDiv(x: real, p: real)
    requires p > 0.0
    ensures Abs(x / p) == Abs(x) / p
  {
  }

  lemma LessScaled(a: real, p: real, c: real)
    requires p > 0.0
    ensures a < c * p <==> a / p < c
  {
    assert a / p * p == a;
  }

  lemma AtLeastScaled(a: real, p: real)
    requires p > 0.0
    requires p <= a
    ensures a / p >= 1.0
  {
    assert a / p * p == a;
  }

  /** Quantities below 1024 in magnitude are shown as they are, unprefixed. */
  lemma SmallHasNoPrefix(x: real, suffix: string)
    requires Abs(x) < 1024.0
    ensures Scaled(x, suffix) == Sized(x, "", suffix)
  {
    ScaleIndexBracket(x, 0);
  }

  lemma ScaleExamples()
    ensures Scaled(1023.0, "B") == Sized(1023.0, "", "B")
    ensures Scaled(1024.0, "B") == Sized(1.0, "Ki", "B")
    ensures Scaled(1048576.0, "B") == Sized(1.0, "Mi", "B")
  {
    SmallHasNoPrefix(1023.0, "B");
    ScaleIndexBracket(1024.0, 1);
    ScaleIndexBracket(1048576.0, 2);
  }

  /** `sizeof_fmt`: divide by 1024 while the magnitude is at least 1024. */
  method SizeOf(num: real, suffix: string) returns (s: Sized)
    ensures s == Scaled(num, suffix)
  {
    var n := num;
    var i := 0;
    while i < |Units|
      invariant 0 <= i <= |Units|
      invariant n == num / Pow1024(i)
      invariant i == 0 || Pow1024(i) <= Abs(num)
    {
      AbsDiv(num, Pow1024(i));
      LessScaled(Abs(num), Pow1024(i), 1024.0);
      if Abs(n) < 1024.0 {
        ScaleIndexBracket(num, i);
        return Sized(n, Units[i], suffix);
      }
      DivTwice(num, Pow1024(i));
      n := n / 1024.0;
      i := i + 1;
    }
    ScaleIndexBracket(num, i);
    s := Sized(n, Fallback, suffix);
  }

  lemma DivTwice(x: real, p: real)
    requires p > 0.0
    ensures x / p / 1024.0 == x / (1024.0 * p)
  {
  }
}
