/**
 * The GPU renderer `view_legacy_gpus`. The device count comes from the first
 * stage; a device is shown only when its free memory changes between some
 * pair of adjacent stages, and its lines show used memory
 * (total - free) per stage.
 */
module Gpu {
  import opened Wrappers
  import opened SizeFormat
  import opened Delta
  import opened Model
  import opened ScalarSeries

  /** The number of devices, read from the first stage. */
  function DeviceCount(gpu: GpuSeries): nat
  {
    if |gpu| == 0 then 0 else |gpu[0].1|
  }

  /** Every stage lists at least the first stage's devices; the source raises
      IndexError otherwise. */
  predicate WellFormed(gpu: GpuSeries)
  {
    forall j :: 0 <= j < |gpu| ==> DeviceCount(gpu) <= |gpu[j].1|
  }

  function Free(gpu: GpuSeries, j: nat, i: nat): int
    requires WellFormed(gpu) && j < |gpu| && i < DeviceCount(gpu)
  {
    gpu[j].1[i].free
  }

  /** Device i's free memory differs between adjacent stages j-1 and j for
      some j at or after `from`. */
  predicate DiffersFrom(gpu: GpuSeries, i: nat, from: nat)
    requires WellFormed(gpu) && i < DeviceCount(gpu)
    decreases |gpu| - from
  {
    from < |gpu| &&
    ((from > 0 && Free(gpu, from, i) != Free(gpu, from - 1, i)) || DiffersFrom(gpu, i, from + 1))
  }

  /** Device i's free memory differs between some pair of adjacent stages. */
  predicate Changed(gpu: GpuSeries, i: nat)
    requires WellFormed(gpu) && i < DeviceCount(gpu)
  {
    DiffersFrom(gpu, i, 0)
  }

  predicate AnyChanged(gpu: GpuSeries)
    requires WellFormed(gpu)
  {
    exists i :: 0 <= i < DeviceCount(gpu) && Changed(gpu, i)
  }

  /** Device i's used memory per stage. */
  function UsedSeries(gpu: GpuSeries, i: nat): (s: Series)
    requires WellFormed(gpu) && i < DeviceCount(gpu)
    ensures |s| == |gpu|
  {
    seq(|gpu|, j requires 0 <= j < |gpu| => (gpu[j].0, gpu[j].1[i].total - gpu[j].1[i].free))
  }

  /** The header of device i, from the first stage's name and total. */
  function Header(gpu: GpuSeries, i: nat): Line
    requires WellFormed(gpu) && i < DeviceCount(gpu)
  {
    DeviceHeader(gpu[0].1[i].name, Scaled(gpu[0].1[i].total as real, Bytes))
  }

  function DeviceBlock(gpu: GpuSeries, i: nat): (r: seq<Line>)
    requires WellFormed(gpu) && i < DeviceCount(gpu)
    ensures |r| == |gpu| + 2
  {
    [Header(gpu, i)] + StageLines(UsedSeries(gpu, i)) + [Blank]
  }

  /** A device block: a header with the first stage's name and total, then
      used memory (total - free) per stage, absolute on the first stage and
      the delta against the previous stage's used memory afterwards. */
  lemma DeviceBlockShape(gpu: GpuSeries, i: nat)
    requires WellFormed(gpu) && i < DeviceCount(gpu)
    ensures var b := DeviceBlock(gpu, i);
            b[0] == DeviceHeader(gpu[0].1[i].name, Scaled(gpu[0].1[i].total as real, Bytes)) &&
            b[|gpu| + 1] == Blank &&
            b[1] == StageLine(gpu[0].0, Plain(gpu[0].1[i].total - gpu[0].1[i].free)) &&
            forall j :: 1 <= j < |gpu| ==>
              b[j + 1] == StageLine(gpu[j].0, DeltaFmt(gpu[j - 1].1[i].total - gpu[j - 1].1[i].free,
                                                       gpu[j].1[i].total - gpu[j].1[i].free))
  {
    var s := UsedSeries(gpu, i);
    assert |gpu| > 0;
    assert Values(s)[0] == gpu[0].1[i].total - gpu[0].1[i].free;
  }

  /** The blocks of the changed devices among the first m, in index order. */
  function DeviceBlocks(gpu: GpuSeries, m: nat): seq<Line>
    requires WellFormed(gpu) && m <= DeviceCount(gpu)
  {
    if m == 0 then []
    else DeviceBlocks(gpu, m - 1) + (if Changed(gpu, m - 1) then DeviceBlock(gpu, m - 1) else [])
  }

  /** The indices of the changed devices among the first m, ascending. */
  function ChangedDevices(gpu: GpuSeries, m: nat): (r: seq<nat>)
    requires WellFormed(gpu) && m <= DeviceCount(gpu)
    ensures forall k :: 0 <= k < |r| ==> r[k] < m
  {
    if m == 0 then []
    else ChangedDevices(gpu, m - 1) + (if Changed(gpu, m - 1) then [m - 1] else [])
  }

  function GpuLines(run: Run): seq<Line>
    requires run.gpu.Some? ==> WellFormed(run.gpu.value)
  {
    if run.gpu.None? then []
    else
      var gpu := run.gpu.value;
      if |gpu| == 0 || DeviceCount(gpu) == 0 || !AnyChanged(gpu) then []
      else [Title(GpuUsage)] + DeviceBlocks(gpu, DeviceCount(gpu))
  }

  lemma {:induction false} DiffersFromWitness(gpu: GpuSeries, i: nat, from: nat)
    requires WellFormed(gpu) && i < DeviceCount(gpu)
    ensures DiffersFrom(gpu, i, from) <==>
              exists j :: from <= j < |gpu| && 0 < j && Free(gpu, j, i) != Free(gpu, j - 1, i)
    decreases |gpu| - from
  {
    if from < |gpu| {
      DiffersFromWitness(gpu, i, from + 1);
      if DiffersFrom(gpu, i, from + 1) {
        var j :| from + 1 <= j < |gpu| && 0 < j && Free(gpu, j, i) != Free(gpu, j - 1, i);
        assert from <= j;
      }
    }
  }

  /** Changed means some pair of adjacent stages disagrees on free memory. */
  lemma ChangedIffAdjacentDiffer(gpu: GpuSeries, i: nat)
    requires WellFormed(gpu) && i < DeviceCount(gpu)
    ensures Changed(gpu, i) <==> exists j :: 0 < j < |gpu| && Free(gpu, j, i) != Free(gpu, j - 1, i)
  {
    DiffersFromWitness(gpu, i, 0);
  }

  /** A device counts as changed exactly when its free memory is not the same
      at every stage. */
  lemma ChangedIffNotConstant(gpu: GpuSeries, i: nat)
    requires WellFormed(gpu) && i < DeviceCount(gpu)
    ensures Changed(gpu, i) <==> exists j :: 0 <= j < |gpu| && Free(gpu, j, i) != Free(gpu, 0, i)
  {
    ChangedIffAdjacentDiffer(gpu, i);
    if j :| 0 <= j < |gpu| && Free(gpu, j, i) != Free(gpu, 0, i) {
      FirstDifference(gpu, i, j);
    }
    if Changed(gpu, i) {
      var j :| 0 < j < |gpu| && Free(gpu, j, i) != Free(gpu, j - 1, i);
      if Free(gpu, j, i) == Free(gpu, 0, i) {
        assert Free(gpu, j - 1, i) != Free(gpu, 0, i);
      }
    }
  }

  lemma {:induction false} FirstDifference(gpu: GpuSeries, i: nat, j: nat)
    requires WellFormed(gpu) && i < DeviceCount(gpu) && j < |gpu|
    requires Free(gpu, j, i) != Free(gpu, 0, i)
    ensures exists k :: 0 < k < |gpu| && Free(gpu, k, i) != Free(gpu, k - 1, i)
  {
    if Free(gpu, j - 1, i) == Free(gpu, 0, i) {
      assert 0 < j && Free(gpu, j, i) != Free(gpu, j - 1, i);
    } else {
      FirstDifference(gpu, i, j - 1);
    }
  }

  /** The chosen devices are exactly the changed ones, strictly ascending. */
  lemma {:induction false} ChangedDevicesExact(gpu: GpuSeries, m: nat)
    requires WellFormed(gpu) && m <= DeviceCount(gpu)
    ensures forall x: nat :: x in ChangedDevices(gpu, m) <==> x < m && Changed(gpu, x)
    ensures forall a, b :: 0 <= a < b < |ChangedDevices(gpu, m)| ==>
              ChangedDevices(gpu, m)[a] < ChangedDevices(gpu, m)[b]
  {
    if m > 0 {
      ChangedDevicesExact(gpu, m - 1);
    }
  }

  /** Each shown device contributes a header, one line per stage and a blank. */
  lemma {:induction false} DeviceBlocksLength(gpu: GpuSeries, m: nat)
    requires WellFormed(gpu) && m <= DeviceCount(gpu)
    ensures |DeviceBlocks(gpu, m)| == |ChangedDevices(gpu, m)| * (|gpu| + 2)
  {
    if m > 0 {
      DeviceBlocksLength(gpu, m - 1);
      if Changed(gpu, m - 1) {
        OneMoreBlock(|ChangedDevices(gpu, m - 1)|, |gpu| + 2);
      }
    }
  }

  /** The blocks of the listed devices, concatenated in list order. */
  function BlocksOf(gpu: GpuSeries, devices: seq<nat>): seq<Line>
    requires WellFormed(gpu) && forall k :: 0 <= k < |devices| ==> devices[k] < DeviceCount(gpu)
  {
    if |devices| == 0 then []
    else BlocksOf(gpu, devices[..|devices| - 1]) + DeviceBlock(gpu, devices[|devices| - 1])
  }

  lemma BlocksOfSnoc(gpu: GpuSeries, devices: seq<nat>, i: nat)
    requires WellFormed(gpu) && i < DeviceCount(gpu)
    requires forall k :: 0 <= k < |devices| ==> devices[k] < DeviceCount(gpu)
    ensures BlocksOf(gpu, devices + [i]) == BlocksOf(gpu, devices) + DeviceBlock(gpu, i)
  {
    assert (devices + [i])[..|devices|] == devices;
  }

  /** The rendered devices are exactly the changed ones, block by block, in
      index order. */
  lemma {:induction false} DeviceBlocksAreChangedBlocks(gpu: GpuSeries, m: nat)
    requires WellFormed(gpu) && m <= DeviceCount(gpu)
    ensures DeviceBlocks(gpu, m) == BlocksOf(gpu, ChangedDevices(gpu, m))
  {
    if m > 0 {
      DeviceBlocksAreChangedBlocks(gpu, m - 1);
      if Changed(gpu, m - 1) {
        ChangedAddsBlock(gpu, m);
        ChangedJoinsList(gpu, m);
        ChangedBlockAppended(gpu, m);
      } else {
        UnchangedStep(gpu, m);
      }
    }
  }

  /** A changed device m - 1 adds its block to the rendered blocks ... */
  lemma ChangedAddsBlock(gpu: GpuSeries, m: nat)
    requires WellFormed(gpu) && 0 < m <= DeviceCount(gpu) && Changed(gpu, m - 1)
    ensures DeviceBlocks(gpu, m) == DeviceBlocks(gpu, m - 1) + DeviceBlock(gpu, m - 1)
  {
  }

  /** ... and its index to the chosen devices ... */
  lemma ChangedJoinsList(gpu: GpuSeries, m: nat)
    requires WellFormed(gpu) && 0 < m <= DeviceCount(gpu) && Changed(gpu, m - 1)
    ensures ChangedDevices(gpu, m) == ChangedDevices(gpu, m - 1) + [m - 1]
  {
  }

  /** ... whose blocks then gain the same block. */
  lemma ChangedBlockAppended(gpu: GpuSeries, m: nat)
    requires WellFormed(gpu) && 0 < m <= DeviceCount(gpu) && Changed(gpu, m - 1)
    ensures BlocksOf(gpu, ChangedDevices(gpu, m - 1) + [m - 1]) ==
            BlocksOf(gpu, ChangedDevices(gpu, m - 1)) + DeviceBlock(gpu, m - 1)
  {
    BlocksOfSnoc(gpu, ChangedDevices(gpu, m - 1), m - 1);
  }

  /** An unchanged device m - 1 adds nothing on either side. */
  lemma UnchangedStep(gpu: GpuSeries, m: nat)
    requires WellFormed(gpu) && 0 < m <= DeviceCount(gpu) && !Changed(gpu, m - 1)
    ensures DeviceBlocks(gpu, m) == DeviceBlocks(gpu, m - 1)
    ensures ChangedDevices(gpu, m) == ChangedDevices(gpu, m - 1)
  {
    assert ChangedDevices(gpu, m) == ChangedDevices(gpu, m - 1) + [];
  }

  /** Nothing is printed unless some device changed; otherwise the title and
      one block per changed device. */
  lemma GpuLinesShape(run: Run)
    requires run.gpu.Some? && WellFormed(run.gpu.value)
    ensures var gpu := run.gpu.value;
            var shown := ChangedDevices(gpu, DeviceCount(gpu));
            (GpuLines(run) == [] <==> |shown| == 0) &&
            (|shown| > 0 ==>
               GpuLines(run)[0] == Title(GpuUsage) &&
               |GpuLines(run)| == 1 + |shown| * (|gpu| + 2) &&
               GpuLines(run) == [Title(GpuUsage)] + BlocksOf(gpu, shown))
  {
    var gpu := run.gpu.value;
    var n := DeviceCount(gpu);
    ChangedDevicesExact(gpu, n);
    DeviceBlocksLength(gpu, n);
    DeviceBlocksAreChangedBlocks(gpu, n);
    var shown := ChangedDevices(gpu, n);
    if |shown| > 0 {
      assert shown[0] in shown;
      assert AnyChanged(gpu);
    }
  }

  /** The inner scan of `view_legacy_gpus`: stop at the first stage whose free
      memory differs from the stage before. */
  method DeviceChanged(gpu: GpuSeries, i: nat) returns (change: bool)
    requires WellFormed(gpu) && i < DeviceCount(gpu)
    ensures change == Changed(gpu, i)
  {
    change := false;
    var j := 0;
    while j < |gpu|
      invariant 0 <= j <= |gpu|
      invariant !change && (Changed(gpu, i) <==> DiffersFrom(gpu, i, j))
    {
      if j > 0 && gpu[j].1[i].free != gpu[j - 1].1[i].free {
        change := true;
        break;
      }
      j := j + 1;
    }
  }

  /** The `changes` list: one flag per device of the first stage. */
  method ScanChanges(gpu: GpuSeries) returns (changes: seq<bool>)
    requires WellFormed(gpu)
    ensures |changes| == DeviceCount(gpu)
    ensures forall k :: 0 <= k < |changes| ==> changes[k] == Changed(gpu, k)
  {
    changes := [];
    for i := 0 to DeviceCount(gpu)
      invariant |changes| == i
      invariant forall k :: 0 <= k < i ==> changes[k] == Changed(gpu, k)
    {
      var change := DeviceChanged(gpu, i);
      changes := changes + [change];
    }
  }

  /** One device block: header, then used memory per stage (absolute first,
      then deltas against the previous stage's used memory), then a blank. */
  method RenderDevice(gpu: GpuSeries, i: nat) returns (block: seq<Line>)
    requires WellFormed(gpu) && i < DeviceCount(gpu)
    ensures block == DeviceBlock(gpu, i)
  {
    block := [Header(gpu, i)];
    ghost var used := UsedSeries(gpu, i);
    var prev := 0;
    for j := 0 to |gpu|
      invariant j > 0 ==> prev == used[j - 1].1
      invariant block == [Header(gpu, i)] + StageLines(used)[..j]
    {
      var u := gpu[j].1[i].total - gpu[j].1[i].free;
      var cell;
      if j == 0 {
        var v := SizeOf(u as real, Bytes);
        cell := Annotated(v, None);
      } else {
        cell := DeltaFmt(prev, u);
      }
      block := block + [StageLine(gpu[j].0, cell)];
      prev := u;
      assert StageLines(used)[..j + 1] == StageLines(used)[..j] + [StageLines(used)[j]];
    }
    assert StageLines(used)[..|gpu|] == StageLines(used);
    block := block + [Blank];
  }

  /** `view_legacy_gpus`; the "gpu" key must be present and every stage must
      list the first stage's devices. */
  method RenderGpu(run: Run) returns (out: seq<Line>)
    requires run.gpu.Some? ==> WellFormed(run.gpu.value)
    ensures out == GpuLines(run)
  {
    out := [];
    if run.gpu.None? {
      return;
    }
    var gpu := run.gpu.value;
    if |gpu| == 0 {
      return;
    }
    var n := |gpu[0].1|;
    if n == 0 {
      return;
    }
    var changes := ScanChanges(gpu);
    if true !in changes {
      assert !AnyChanged(gpu) by {
        forall k | 0 <= k < n ensures !Changed(gpu, k) {
          assert changes[k] in changes;
        }
      }
      return;
    }
    assert AnyChanged(gpu) by {
      var k :| 0 <= k < n && changes[k];
    }
    out := [Title(GpuUsage)];
    for i := 0 to n
      invariant out == [Title(GpuUsage)] + DeviceBlocks(gpu, i)
    {
      if !changes[i] {
        continue;
      }
      var block := RenderDevice(gpu, i);
      out := out + block;
    }
  }
}
