/**
 * The run record handed to the legacy report view and the report lines it
 * produces. Python dicts are sequences of (key, value) pairs in insertion
 * order; markup and emoji are dropped, and each printed line is one `Line`.
 */
module Model {
  import opened Wrappers
  import opened SizeFormat
  import opened Delta

  /** Per-stage byte counts (the "ram" and "disk" records). */
  type Series = seq<(string, int)>

  /** One GPU at one stage. */
  datatype Device = Device(name: string, total: int, free: int)

  /** Per-stage device lists; the index is the device's identity. */
  type GpuSeries = seq<(string, seq<Device>)>

  /** Cumulative received and transmitted bytes of one interface. */
  datatype Traffic = Traffic(rx: int, tx: int)

  /** Per-stage interface tables, keyed by interface name. */
  type NetworkSeries = seq<(string, seq<(string, Traffic)>)>

  /** An extra record's payload: a string-keyed table. */
  type Payload = seq<(string, string)>

  /** Extra records keyed by record type. */
  type Extras = seq<(string, Payload)>

  /** A run record; `None` is a key that is absent (or holds no value). */
  datatype Run = Run(
    ram: Option<Series>,
    gpu: Option<GpuSeries>,
    disk: Option<Series>,
    network: Option<NetworkSeries>,
    extra: Option<Extras>)

  datatype Section = RamUsage | GpuUsage | DiskUsage | NetworkUsage | TopLevelImports | OtherRecords

  /** One printed line of the report. */
  datatype Line =
    | Title(section: Section)
    | Blank
    | StageLine(stage: string, value: Annotated)
    | DeviceHeader(device: string, total: Sized)
    | InterfaceHeader(interface: string)
    | TrafficLine(stage: string, rx: Annotated, tx: Annotated)
    | GroupLine(prefix: string, count: int)
    | PackageLine(package: string)
    | RecordLine(key: string)

  /** The keys of a dict, in insertion order. */
  function Keys<V>(d: seq<(string, V)>): (ks: seq<string>)
    ensures |ks| == |d| && forall i :: 0 <= i < |d| ==> ks[i] == d[i].0
  {
    seq(|d|, i requires 0 <= i < |d| => d[i].0)
  }

  /** One more block of w lines after c blocks makes c + 1 blocks. */
  lemma OneMoreBlock(c: nat, w: nat)
    ensures c * w + w == (c + 1) * w
  {
  }
}
