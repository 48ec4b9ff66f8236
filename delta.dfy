/**
 * The delta annotator `delta_fmt`: the new value, followed by an increase
 * marker and the scaled increase only when the value grew.
 */
module Delta {
  import opened Wrappers
  import opened SizeFormat

  /** A formatted cell: the scaled value and, when present, the scaled
      increase shown after the red up-pointing triangle. */
  datatype Annotated = Annotated(value: Sized, increase: Option<Sized>)

  /** The unit suffix every renderer passes to the formatter. */
  const Bytes: string := "B"

  /** `sizeof_fmt(x)` on its own: a cell without a marker. */
  function Plain(x: int): Annotated
  {
    Annotated(Scaled(x as real, Bytes), None)
  }

  function DeltaFmt(before: int, after: int): (r: Annotated)
    ensures r.value == Scaled(after as real, Bytes)
    ensures r.increase.Some? <==> after > before
    ensures r.increase.Some? ==> r.increase.value == Scaled((after - before) as real, Bytes)
  {
    var delta := after - before;
    var fmt := Scaled(after as real, Bytes);
    if delta > 0 then Annotated(fmt, Some(Scaled(delta as real, Bytes))) else Annotated(fmt, None)
  }

  /** No change and every decrease render exactly as the plain new value. */
  lemma NoMarkerUnlessIncrease(before: int, after: int)
    requires after <= before
    ensures DeltaFmt(before, after) == Plain(after)
  {
  }

  /** The marker always shows a positive amount, and when the old value was
      not negative that amount never carries a larger prefix than the new
      value itself. */
  lemma MarkerBounded(before: int, after: int)
    requires after > before
    ensures DeltaFmt(before, after).increase.value.magnitude > 0.0
    ensures before >= 0 ==>
              ScaleIndex((after - before) as real) <= ScaleIndex(after as real)
  {
    var d := (after - before) as real;
    var p := Pow1024(ScaleIndex(d));
    assert d > 0.0 && p > 0.0;
    assert d / p * p == d;
    if before >= 0 {
      ScaleIndexMonotone(d, after as real);
    }
  }

  lemma DeltaExamples()
    ensures DeltaFmt(100, 100).increase.None?
    ensures DeltaFmt(100, 150) == Annotated(Sized(150.0, "", Bytes), Some(Sized(50.0, "", Bytes)))
    ensures DeltaFmt(150, 100).increase.None?
  {
    SmallHasNoPrefix(150.0, Bytes);
    SmallHasNoPrefix(50.0, Bytes);
  }
}
