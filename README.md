# Legacy run report of dyana, modelled in Dafny

dyana records resource use across the named stages of a run. Its legacy
report view (`dyana/view_legacy.py`) prints that record as text, in five
blocks:

- RAM use per stage;
- memory use of each GPU device that changed;
- disk use per stage;
- traffic of each network interface that carried any;
- the "extra" records. An `imports` record is summarised as top-level
  package groups. Every other extra record is listed by name under
  "Other Records".

Quantities are scaled to binary prefixes (`sizeof_fmt`). After the first
stage, each value is annotated with its increase over the previous stage
(`delta_fmt`).

The model keeps the program's structure:

| file | module | models |
|---|---|---|
| `scale.dfy` | `SizeFormat` | `sizeof_fmt` |
| `delta.dfy` | `Delta` | `delta_fmt` |
| `model.dfy` | `Model` | the run record and the printed lines |
| `series.dfy` | `ScalarSeries` | `view_legacy_ram`, `view_legacy_disk_usage` |
| `gpu.dfy` | `Gpu` | `view_legacy_gpus` |
| `network.dfy` | `Network` | `view_legacy_network_usage` |
| `imports.dfy` | `Imports` | `count_package_prefixes`, `view_legacy_extra_imports` |
| `extra.dfy` | `Extra` | `view_legacy_extra` |
| `wrappers.dfy` | `Wrappers` | the `Option` type |

**Conventions:**

- A Python dict is a sequence of (key, value) pairs in insertion order.
  Its keys are assumed distinct, as a dict's are, but no predicate
  requires it.
- Per-stage values (RAM, disk, GPU devices, network counters) are read by
  position in that sequence.
- An interface is looked up by name in each stage's table, taking the
  first pair with that name.
- Each `rich_print` call is one `Line` value in the report. A renderer is a
  method that returns its lines.
- Each renderer is proved equal to a specification function: `RamLines`,
  `DiskLines`, `GpuLines`, `NetworkLines`, `ImportsLines`, `ExtraLines`. The lemmas
  state what the source promises about those functions.
- A formatted quantity is the triple (magnitude, prefix, suffix) that
  `sizeof_fmt` prints. A formatted delta is the new value plus, when it
  grew, the scaled increase shown after the red triangle.

## Model

| member | source | states |
|---|---|---|
| SizeFormat.ScaleIndexBracket | dyana/view_legacy.py:8-12 | Prefix k of `"", Ki, …, Zi` is chosen exactly when 1024^k ≤ \|x\| < 1024^(k+1). Everything below 1024 gets no prefix. Everything from 1024^8 up gets `Yi`. |
| SizeFormat.ScaleIndexMonotone | dyana/view_legacy.py:8-12 | A larger absolute value never gets a smaller prefix. |
| SizeFormat.ScaleNegate | dyana/view_legacy.py:9-11 | Negating the input keeps the prefix and negates the shown magnitude, so the sign plays no part in the choice. |
| SizeFormat.ScaleMagnitude | dyana/view_legacy.py:8-12 | The shown magnitude times 1024^k gives back the input. Below `Yi` its absolute value is under 1024, and with a prefix it is at least 1. The suffix is kept. |
| SizeFormat.SmallHasNoPrefix | dyana/view_legacy.py:9-10 | An input with \|x\| < 1024 is shown unchanged, without a prefix. |
| SizeFormat.ScaleExamples | dyana/view_legacy.py:8-12 | 1023 stays unprefixed, 1024 is 1.0 Ki and 1048576 is 1.0 Mi. |
| SizeFormat.FitBracket | dyana/view_legacy.py:8-11 | The prefix search stops at the k with 1024^k ≤ a < 1024^(k+1), and only there. |
| SizeFormat.SizeOf | dyana/view_legacy.py:7-12 | The dividing loop returns exactly the bracketed prefix and magnitude of `Scaled`. |
| Delta.DeltaFmt | dyana/view_legacy.py:15-21 | The cell always holds the scaled new value. It carries an increase exactly when after > before, and the increase is the scaled difference. |
| Delta.NoMarkerUnlessIncrease | dyana/view_legacy.py:18-21 | An unchanged or decreased value renders exactly like the plain new value. |
| Delta.MarkerBounded | dyana/view_legacy.py:16-19 | A shown increase is positive. From a non-negative old value, its prefix is never larger than the new value's. |
| Delta.DeltaExamples | dyana/view_legacy.py:15-21 | Equal values and drops carry no marker. 100 → 150 shows 150 B with an increase of 50 B. |
| ScalarSeries.SeriesSectionShape | dyana/view_legacy.py:26-37 | An empty series prints nothing. Otherwise there are n + 2 lines: the title, the absolute first stage, a delta of each later stage against the stage before, and a blank line. |
| ScalarSeries.RamDiskAgree | dyana/view_legacy.py:82-95 | Given the same series, the RAM and disk blocks have the same length and differ only in their title. |
| ScalarSeries.NoDataNoLines | dyana/view_legacy.py:83 | An absent or empty disk record prints nothing, and neither does a RAM record without a value or an empty one. |
| ScalarSeries.RenderSeries | dyana/view_legacy.py:84-95 | The stage loop, with its previous-stage variable, produces exactly the series block. |
| ScalarSeries.RenderRam | dyana/view_legacy.py:24-37 | `view_legacy_ram` prints exactly `RamLines`. |
| ScalarSeries.RenderDisk | dyana/view_legacy.py:82-95 | `view_legacy_disk_usage` prints exactly `DiskLines`. |
| Gpu.ChangedIffAdjacentDiffer | dyana/view_legacy.py:48-57 | A device counts as changed exactly when its free memory differs between some pair of adjacent stages. |
| Gpu.ChangedIffNotConstant | dyana/view_legacy.py:48-57 | A device counts as changed exactly when its free memory is not the same at every stage. |
| Gpu.ChangedDevicesExact | dyana/view_legacy.py:59-63 | The devices shown are exactly the changed ones among the first stage's devices, in strictly ascending index order. |
| Gpu.DeviceBlockShape | dyana/view_legacy.py:65-79 | A device block has a header with the first stage's name and total, then used memory (total − free) per stage: absolute first, then the delta against the previous stage's used memory. A blank line ends it. |
| Gpu.DeviceBlocksLength | dyana/view_legacy.py:61-79 | Each shown device adds a header, one line per stage and a blank line. |
| Gpu.DeviceBlocksAreChangedBlocks | dyana/view_legacy.py:61-79 | The rendered blocks are the blocks of the changed devices, concatenated in index order. |
| Gpu.GpuLinesShape | dyana/view_legacy.py:41-79 | Nothing is printed exactly when no device changed, which covers no stages and no devices. Otherwise the output is the title plus one block per changed device, 1 + shown × (stages + 2) lines in all. |
| Gpu.DeviceChanged | dyana/view_legacy.py:49-57 | The early-exit scan over stages returns true exactly when the device changed. |
| Gpu.ScanChanges | dyana/view_legacy.py:47-57 | The `changes` list holds one flag per device of the first stage, and each flag says whether that device changed. |
| Gpu.RenderDevice | dyana/view_legacy.py:65-79 | One device's header and stage lines are exactly `DeviceBlock`. |
| Gpu.RenderGpu | dyana/view_legacy.py:40-79 | `view_legacy_gpus` prints exactly `GpuLines`. |
| Network.LookupFound | dyana/view_legacy.py:108 | Reading an interface out of a stage's table returns an entry stored under that name. |
| Network.ActiveIffSomeTraffic | dyana/view_legacy.py:117-121 | An interface is active exactly when some stage records rx > 0 or tx > 0. |
| Network.SteadyTrafficIsShown | dyana/view_legacy.py:117-124 | Constant non-zero counters still make an interface active: the rule is traffic ever seen, not a change between stages. |
| Network.InterfaceBlockShape | dyana/view_legacy.py:126-139 | An interface block is the name, then one line per stage pairing rx and tx, each absolute on the first stage and a delta against the previous stage after it. A blank line ends it. |
| Network.ActiveInterfacesExact | dyana/view_legacy.py:115-124 | The interfaces shown are exactly the active ones among the first stage's interfaces. |
| Network.InterfaceBlocksAreActiveBlocks | dyana/view_legacy.py:115-139 | The rendered blocks are the blocks of the active interfaces, in the first stage's order. |
| Network.BlocksOfLength | dyana/view_legacy.py:126-139 | Each shown interface adds a header, one line per stage and a blank line. |
| Network.BlocksOfHeaders | dyana/view_legacy.py:126 | A given interface's header appears in the blocks exactly when that interface is listed. |
| Network.NetworkLinesShape | dyana/view_legacy.py:99-139 | The title is printed exactly when at least one interface is shown. The output is then the title plus the active interfaces' blocks, 1 + shown × (stages + 2) lines. |
| Network.InterfaceShownIffActive | dyana/view_legacy.py:103-126 | An interface is named in the report exactly when it belongs to the first stage and carried traffic at some stage. |
| Network.HadActivity | dyana/view_legacy.py:117-121 | The early-exit scan returns `had_network_activity` exactly as `Active` defines it. |
| Network.ScanActivity | dyana/view_legacy.py:104-110 | `any_change` is true exactly when some interface is active. |
| Network.RenderInterface | dyana/view_legacy.py:126-139 | One interface's lines are exactly `InterfaceBlock`. |
| Network.RenderActive | dyana/view_legacy.py:115-139 | The interface loop prints exactly the active interfaces' blocks. |
| Network.RenderNetwork | dyana/view_legacy.py:98-139 | `view_legacy_network_usage` prints exactly `NetworkLines`. |
| Imports.JoinSplit | dyana/view_legacy.py:148-150 | Joining the dot-segments with `.` gives back the name. |
| Imports.SplitSegmentsHaveNoDot | dyana/view_legacy.py:148 | No segment of a split name contains a dot. |
| Imports.SplitNoDot | dyana/view_legacy.py:148 | A name without a dot splits into itself alone. |
| Imports.JoinTakeIsPrefix | dyana/view_legacy.py:150 | The first l segments joined form a leading part of the joined whole. |
| Imports.PrefixIsLeading | dyana/view_legacy.py:148-152 | A key's group, at any level, is a leading part of the key. |
| Imports.PrefixLevelOne | dyana/view_legacy.py:148-152 | At level 1 the group is the text before the first dot, or the whole key. |
| Imports.BumpKeys | dyana/view_legacy.py:154 | Counting a prefix keeps the keys when the prefix is already known and otherwise appends it, so insertion order is kept. |
| Imports.BumpGet | dyana/view_legacy.py:154 | Counting a prefix adds one to its count and leaves every other count unchanged. |
| Imports.GetDistinct | dyana/view_legacy.py:156 | In a table with distinct keys, reading a key gives its entry's count. |
| Imports.CountsTotal | dyana/view_legacy.py:147-156 | The counts add up to the number of keys counted. |
| Imports.CountsKeys | dyana/view_legacy.py:147-156 | The table's keys are the distinct prefixes in order of first appearance, each once, and a prefix is a key exactly when it occurs. |
| Imports.CountsGet | dyana/view_legacy.py:147-156 | The count stored for any prefix is its number of occurrences. The count is 0 for a prefix that does not occur. |
| Imports.OccurrencesPresent | dyana/view_legacy.py:154 | A prefix that occurs is counted at least once. |
| Imports.CountsExact | dyana/view_legacy.py:142-156 | Each distinct prefix appears once, in order of first appearance, with its number of occurrences. Every count is at least 1. |
| Imports.InsertPermutes | dyana/view_legacy.py:164 | Inserting into the sorted list adds exactly that entry, as a multiset. |
| Imports.InsertDescending | dyana/view_legacy.py:164 | Inserting into a list in descending count order keeps it in descending order. |
| Imports.InsertStable | dyana/view_legacy.py:164 | Among the entries of any one count, inserting x puts x first when it has that count and leaves the others in their order. |
| Imports.SortByCountCorrect | dyana/view_legacy.py:164 | `sorted(key=count, reverse=True)` gives a permutation in descending count order. For every count, the entries with that count keep their original order (the sort is stable). |
| Imports.SortTotal | dyana/view_legacy.py:164 | Sorting keeps the sum of the counts. |
| Imports.SortedCountsCorrect | dyana/view_legacy.py:163-164 | The sorted table has one entry per distinct prefix, with its occurrence count (at least 1). Counts descend and add up to the number of keys. |
| Imports.ImportsLinesShape | dyana/view_legacy.py:159-169 | An empty payload prints nothing. Otherwise there is a title, one line per distinct group in descending count order, and a blank line. A count above 1 shows as `prefix.*: N`, and a count of 1 as the bare prefix. |
| Imports.ImportsExample | dyana/view_legacy.py:159-169 | `a.b.c`, `a.x`, `z` list as `a.*: 2` followed by `z`. |
| Imports.TiesKeepOrderExample | dyana/view_legacy.py:164 | Two groups of count 1 keep their order of first appearance. |
| Imports.CountPackagePrefixes | dyana/view_legacy.py:142-156 | The counting loop returns the table `Counts` of the keys' prefixes. |
| Imports.RenderImports | dyana/view_legacy.py:159-169 | `view_legacy_extra_imports` prints exactly `ImportsLines`. |
| Extra.DispatchPartition | dyana/view_legacy.py:175-180 | Every extra key is either dispatched (it has a renderer) or unknown, never both. None is lost. |
| Extra.NoRecordLinesInRegistered | dyana/view_legacy.py:175-178 | Dispatched renderers never print an "Other Records" entry. |
| Extra.UnknownNonEmptyIff | dyana/view_legacy.py:175-182 | The unknown list is non-empty exactly when some key has no renderer. |
| Extra.OtherSectionShape | dyana/view_legacy.py:182-186 | No unknown keys print nothing. Otherwise there is a title, one line naming each unknown key in order, and a blank line. |
| Extra.OtherRecordsExact | dyana/view_legacy.py:172-186 | The output is the dispatched output followed by the "Other Records" section. A key is named there exactly when it is an extra key without a renderer. |
| Extra.NoExtrasNoLines | dyana/view_legacy.py:173-174 | A missing or empty extra record prints nothing. |
| Extra.MixedExtrasExample | dyana/view_legacy.py:172-186 | An `imports` record and one other record print the imports summary, then "Other Records" naming only the other key. |
| Extra.Dispatch | dyana/view_legacy.py:176-178 | Calling a registered renderer prints exactly its specified lines. |
| Extra.RenderExtra | dyana/view_legacy.py:172-186 | `view_legacy_extra` prints exactly `ExtraLines`. |

## Left out

- Digits: `sizeof_fmt`'s `3.1f` / `.1f` rendering of the magnitude is not
  modelled. The magnitude is an exact real.
- SizeOf: the first `num /= 1024.0` converts an integer argument to a
  float, and that conversion is not modelled. (Later divisions by 1024.0
  are exact.) The conversion can change the prefix, not only the digits.
  2^60 − 1 rounds to 2^60, so the source shows `1.0EiB`, while `Scaled`
  and `ScaleIndexBracket` choose `Pi`. An integer beyond the float range
  raises OverflowError at that step, and the model has no such error.
- Markup: rich markup, colours and the `:red_triangle_pointed_up:` emoji are
  not modelled. Each printed line is a structured `Line` value.
- Output: `rich_print` itself is replaced by the returned list of lines.
- Registry: the lookup of `view_legacy_extra_<key>` in `globals()` is the
  constant `Extra.Registry`, which holds the one renderer the module
  defines (`imports`).
- RenderRam: `run["ram"]` raises KeyError when the key is absent. The model
  does not tell an absent key from a key holding no value, and prints
  nothing for both. In the code, `disk`, `network` and `extra` are guarded
  by an `in` test, while `ram` and `gpu` are indexed directly.
- RenderGpu: the same applies to `run["gpu"]`.
- Malformed records: shapes that raise KeyError or IndexError in the source
  are preconditions, not modelled error paths:
  - a later GPU stage listing fewer devices than the first stage
    (`Gpu.WellFormed`);
  - a later network stage missing an interface of the first stage
    (`Network.WellFormed`).
- Payload types: an `imports` payload that is not a dict, and payload values
  other than strings, are not modelled. The values are never read.
- CountPackagePrefixes: `level` is a natural number. A negative `level`
  would slice from the end in Python, and is not modelled.
- CountPackagePrefixes: the source's default `level=2` is not modelled.
  The method always takes `level` as an argument. The only caller,
  `view_legacy_extra_imports`, passes `level=1`.
- Values: None-valued and empty series, GPU records, network records and
  extra records all print nothing. The model represents them all as absent
  or empty.
