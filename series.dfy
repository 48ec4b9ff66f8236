/**
 * The scalar series renderers `view_legacy_ram` and `view_legacy_disk_usage`:
 * a title, one line per stage (absolute first, then deltas against the
 * previous stage), and a blank line.
 */
module ScalarSeries {
  import opened Wrappers
  import opened SizeFormat
  import opened Delta
  import opened Model

  /** The cell shown for stage i of a value column: the absolute value on the
      first stage, the annotated delta against stage i-1 afterwards. */
  function Cell(vals: seq<int>, i: nat): Annotated
    requires i < |vals|
  {
    if i == 0 then Plain(vals[0]) else DeltaFmt(vals[i - 1], vals[i])
  }

  function Values(s: Series): (vs: seq<int>)
    ensures |vs| == |s| && forall i :: 0 <= i < |s| ==> vs[i] == s[i].1
  {
    seq(|s|, i requires 0 <= i < |s| => s[i].1)
  }

  /** The per-stage lines of a series, in stage order. */
  function StageLines(s: Series): (r: seq<Line>)
    ensures |r| == |s|
  {
    seq(|s|, i requires 0 <= i < |s| => StageLine(s[i].0, Cell(Values(s), i)))
  }

  /** A whole series block; nothing at all for an empty series. */
  function SeriesSection(title: Section, s: Series): seq<Line>
  {
    if |s| == 0 then [] else [Title(title)] + StageLines(s) + [Blank]
  }

  function RamLines(run: Run): seq<Line>
  {
    if run.ram.None? then [] else SeriesSection(RamUsage, run.ram.value)
  }

  function DiskLines(run: Run): seq<Line>
  {
    if run.disk.None? then [] else SeriesSection(DiskUsage, run.disk.value)
  }

  /** The shape of a series block: n + 2 lines, title first, blank last,
      the absolute first stage and a delta for every later stage. */
  lemma SeriesSectionShape(title: Section, s: Series)
    ensures |s| == 0 ==> SeriesSection(title, s) == []
    ensures |s| > 0 ==>
              var out := SeriesSection(title, s);
              |out| == |s| + 2 && out[0] == Title(title) && out[|s| + 1] == Blank &&
              out[1] == StageLine(s[0].0, Plain(s[0].1)) &&
              forall i :: 1 <= i < |s| ==> out[i + 1] == StageLine(s[i].0, DeltaFmt(s[i - 1].1, s[i].1))
  {
  }

  /** RAM and disk render the same series identically, up to the title. */
  lemma RamDiskAgree(run: Run)
    requires run.disk == run.ram
    ensures |RamLines(run)| == |DiskLines(run)|
    ensures RamLines(run) != [] ==>
              RamLines(run)[1..] == DiskLines(run)[1..] &&
              RamLines(run)[0] == Title(RamUsage) && DiskLines(run)[0] == Title(DiskUsage)
  {
  }

  /** A missing or empty disk record, and likewise a RAM record without a
      value, prints nothing. */
  lemma NoDataNoLines(run: Run)
    ensures run.disk.None? || run.disk == Some([]) ==> DiskLines(run) == []
    ensures run.ram.None? || run.ram == Some([]) ==> RamLines(run) == []
  {
  }

  /** The shared loop of both scalar renderers. */
  method RenderSeries(title: Section, s: Series) returns (out: seq<Line>)
    ensures out == SeriesSection(title, s)
    ensures |s| > 0 ==> |out| == |s| + 2
  {
    out := [];
    if |s| > 0 {
      out := out + [Title(title)];
      var prev: Option<nat> := None;
      for i := 0 to |s|
        invariant prev == if i == 0 then None else Some(i - 1)
        invariant out == [Title(title)] + StageLines(s)[..i]
      {
        var stage := s[i].0;
        var cell;
        if prev.None? {
          var v := SizeOf(s[i].1 as real, Bytes);
          cell := Annotated(v, None);
        } else {
          cell := DeltaFmt(s[prev.value].1, s[i].1);
        }
        out := out + [StageLine(stage, cell)];
        prev := Some(i);
        assert StageLines(s)[..i + 1] == StageLines(s)[..i] + [StageLines(s)[i]];
      }
      out := out + [Blank];
    }
  }

  /** `view_legacy_ram`; a "ram" record without a value prints nothing. */
  method RenderRam(run: Run) returns (out: seq<Line>)
    ensures out == RamLines(run)
  {
    out := [];
    if run.ram.Some? && |run.ram.value| > 0 {
      out := RenderSeries(RamUsage, run.ram.value);
    }
  }

  /** `view_legacy_disk_usage`; an absent "disk" key prints nothing. */
  method RenderDisk(run: Run) returns (out: seq<Line>)
    ensures out == DiskLines(run)
  {
    out := [];
    if run.disk.Some? && |run.disk.value| > 0 {
      out := RenderSeries(DiskUsage, run.disk.value);
    }
  }
}
