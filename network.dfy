/**
 * The network renderer `view_legacy_network_usage`. Interfaces come from the
 * first stage; an interface is shown exactly when some stage records
 * positive rx or tx for it, and the section title appears only when at
 * least one interface is shown.
 */
module Network {
  import opened Wrappers
  import opened SizeFormat
  import opened Delta
  import opened Model
  import opened ScalarSeries

  /** The interface names of the first stage, in table order. */
  function Interfaces(net: NetworkSeries): seq<string>
  {
    if |net| == 0 then [] else Keys(net[0].1)
  }

  /** Every stage has an entry for each interface of the first stage; the
      source raises KeyError otherwise. */
  predicate WellFormed(net: NetworkSeries)
  {
    forall j, k :: 0 <= j < |net| && 0 <= k < |Interfaces(net)| ==> Interfaces(net)[k] in Keys(net[j].1)
  }

  /** Dict lookup: the entry for `name`. */
  function Lookup(table: seq<(string, Traffic)>, name: string): Traffic
    requires name in Keys(table)
  {
    if table[0].0 == name then table[0].1
    else
      assert name in Keys(table[1..]) by {
        var i :| 0 <= i < |table| && Keys(table)[i] == name;
        assert Keys(table[1..])[i - 1] == name;
      }
      Lookup(table[1..], name)
  }

  /** Lookup returns an entry of the table stored under `name`. */
  lemma {:induction false} LookupFound(table: seq<(string, Traffic)>, name: string)
    requires name in Keys(table)
    ensures (name, Lookup(table, name)) in table
  {
    if table[0].0 != name {
      assert name in Keys(table[1..]) by {
        var i :| 0 <= i < |table| && Keys(table)[i] == name;
        assert Keys(table[1..])[i - 1] == name;
      }
      LookupFound(table[1..], name);
      var i :| 0 <= i < |table[1..]| && table[1..][i] == (name, Lookup(table, name));
      assert table[i + 1] == (name, Lookup(table, name));
    }
  }

  function At(net: NetworkSeries, j: nat, name: string): Traffic
    requires WellFormed(net) && j < |net| && name in Interfaces(net)
  {
    Lookup(net[j].1, name)
  }

  /** Some stage at or after `from` records traffic on the interface. */
  predicate ActiveFrom(net: NetworkSeries, name: string, from: nat)
    requires WellFormed(net) && name in Interfaces(net)
    decreases |net| - from
  {
    from < |net| && (At(net, from, name).rx > 0 || At(net, from, name).tx > 0 || ActiveFrom(net, name, from + 1))
  }

  /** The `had_network_activity` test. */
  predicate Active(net: NetworkSeries, name: string)
    requires WellFormed(net) && name in Interfaces(net)
  {
    ActiveFrom(net, name, 0)
  }

  lemma {:induction false} ActiveFromWitness(net: NetworkSeries, name: string, from: nat)
    requires WellFormed(net) && name in Interfaces(net)
    ensures ActiveFrom(net, name, from) <==>
              exists j :: from <= j < |net| && (At(net, j, name).rx > 0 || At(net, j, name).tx > 0)
    decreases |net| - from
  {
    if from < |net| {
      ActiveFromWitness(net, name, from + 1);
      if ActiveFrom(net, name, from + 1) {
        var j :| from + 1 <= j < |net| && (At(net, j, name).rx > 0 || At(net, j, name).tx > 0);
        assert from <= j;
      }
    }
  }

  /** An interface is shown exactly when some stage has rx > 0 or tx > 0:
      positive traffic ever, not a change between stages. */
  lemma ActiveIffSomeTraffic(net: NetworkSeries, name: string)
    requires WellFormed(net) && name in Interfaces(net)
    ensures Active(net, name) <==>
              exists j :: 0 <= j < |net| && (At(net, j, name).rx > 0 || At(net, j, name).tx > 0)
  {
    ActiveFromWitness(net, name, 0);
  }

  /** Constant non-zero counters still show the interface. */
  lemma SteadyTrafficIsShown(net: NetworkSeries, name: string)
    requires WellFormed(net) && name in Interfaces(net) && |net| > 0
    requires forall j :: 0 <= j < |net| ==> At(net, j, name) == At(net, 0, name)
    requires At(net, 0, name).rx > 0
    ensures Active(net, name)
  {
    ActiveIffSomeTraffic(net, name);
  }

  function Rx(net: NetworkSeries, name: string): (vs: seq<int>)
    requires WellFormed(net) && name in Interfaces(net)
    ensures |vs| == |net|
  {
    seq(|net|, j requires 0 <= j < |net| => At(net, j, name).rx)
  }

  function Tx(net: NetworkSeries, name: string): (vs: seq<int>)
    requires WellFormed(net) && name in Interfaces(net)
    ensures |vs| == |net|
  {
    seq(|net|, j requires 0 <= j < |net| => At(net, j, name).tx)
  }

  /** One line per stage, pairing the rx and tx cells. */
  function TrafficLines(net: NetworkSeries, name: string): (r: seq<Line>)
    requires WellFormed(net) && name in Interfaces(net)
    ensures |r| == |net|
  {
    seq(|net|, j requires 0 <= j < |net| => TrafficLine(net[j].0, Cell(Rx(net, name), j), Cell(Tx(net, name), j)))
  }

  function InterfaceBlock(net: NetworkSeries, name: string): (r: seq<Line>)
    requires WellFormed(net) && name in Interfaces(net)
    ensures |r| == |net| + 2
  {
    [InterfaceHeader(name)] + TrafficLines(net, name) + [Blank]
  }

  /** An interface block: its name, then one line per stage pairing rx and
      tx, each absolute on the first stage and the delta against the
      previous stage afterwards, then a blank line. */
  lemma InterfaceBlockShape(net: NetworkSeries, name: string)
    requires WellFormed(net) && name in Interfaces(net)
    ensures var b := InterfaceBlock(net, name);
            b[0] == InterfaceHeader(name) && b[|net| + 1] == Blank &&
            b[1] == TrafficLine(net[0].0, Plain(At(net, 0, name).rx), Plain(At(net, 0, name).tx)) &&
            forall j :: 1 <= j < |net| ==>
              b[j + 1] == TrafficLine(net[j].0, DeltaFmt(At(net, j - 1, name).rx, At(net, j, name).rx),
                                      DeltaFmt(At(net, j - 1, name).tx, At(net, j, name).tx))
  {
    assert |net| > 0;
  }

  /** The blocks of the active interfaces among the first m, in order. */
  function InterfaceBlocks(net: NetworkSeries, m: nat): seq<Line>
    requires WellFormed(net) && m <= |Interfaces(net)|
  {
    if m == 0 then []
    else
      var name := Interfaces(net)[m - 1];
      InterfaceBlocks(net, m - 1) + (if Active(net, name) then InterfaceBlock(net, name) else [])
  }

  /** The active interfaces among the first m, in order. */
  function ActiveInterfaces(net: NetworkSeries, m: nat): (r: seq<string>)
    requires WellFormed(net) && m <= |Interfaces(net)|
    ensures forall k :: 0 <= k < |r| ==> r[k] in Interfaces(net)
  {
    if m == 0 then []
    else
      var name := Interfaces(net)[m - 1];
      ActiveInterfaces(net, m - 1) + (if Active(net, name) then [name] else [])
  }

  predicate AnyActive(net: NetworkSeries)
    requires WellFormed(net)
  {
    exists k :: 0 <= k < |Interfaces(net)| && Active(net, Interfaces(net)[k])
  }

  function NetworkLines(run: Run): seq<Line>
    requires run.network.Some? ==> WellFormed(run.network.value)
  {
    if run.network.None? || |run.network.value| == 0 || !AnyActive(run.network.value) then []
    else
      var net := run.network.value;
      [Title(NetworkUsage)] + InterfaceBlocks(net, |Interfaces(net)|)
  }

  /** The blocks of the listed interfaces, concatenated in list order. */
  function BlocksOf(net: NetworkSeries, names: seq<string>): seq<Line>
    requires WellFormed(net) && forall k :: 0 <= k < |names| ==> names[k] in Interfaces(net)
  {
    if |names| == 0 then []
    else BlocksOf(net, names[..|names| - 1]) + InterfaceBlock(net, names[|names| - 1])
  }

  /** The chosen interfaces are exactly the active ones. */
  lemma {:induction false} ActiveInterfacesExact(net: NetworkSeries, m: nat)
    requires WellFormed(net) && m <= |Interfaces(net)|
    ensures forall name :: name in ActiveInterfaces(net, m) <==>
              name in Interfaces(net)[..m] && Active(net, name)
  {
    if m > 0 {
      ActiveInterfacesExact(net, m - 1);
      assert Interfaces(net)[..m] == Interfaces(net)[..m - 1] + [Interfaces(net)[m - 1]];
    }
  }

  lemma BlocksOfSnoc(net: NetworkSeries, names: seq<string>, name: string)
    requires WellFormed(net) && name in Interfaces(net)
    requires forall k :: 0 <= k < |names| ==> names[k] in Interfaces(net)
    ensures BlocksOf(net, names + [name]) == BlocksOf(net, names) + InterfaceBlock(net, name)
  {
    assert (names + [name])[..|names|] == names;
  }

  /** The rendered interfaces are exactly the active ones, block by block. */
  lemma {:induction false} InterfaceBlocksAreActiveBlocks(net: NetworkSeries, m: nat)
    requires WellFormed(net) && m <= |Interfaces(net)|
    ensures InterfaceBlocks(net, m) == BlocksOf(net, ActiveInterfaces(net, m))
  {
    if m > 0 {
      InterfaceBlocksAreActiveBlocks(net, m - 1);
      var name := Interfaces(net)[m - 1];
      var chosen := ActiveInterfaces(net, m - 1);
      if Active(net, name) {
        assert ActiveInterfaces(net, m) == chosen + [name];
        BlocksOfSnoc(net, chosen, name);
        assert InterfaceBlocks(net, m) == InterfaceBlocks(net, m - 1) + InterfaceBlock(net, name);
      } else {
        assert ActiveInterfaces(net, m) == chosen;
        assert InterfaceBlocks(net, m) == InterfaceBlocks(net, m - 1);
      }
    }
  }

  lemma {:induction false} BlocksOfLength(net: NetworkSeries, names: seq<string>)
    requires WellFormed(net) && forall k :: 0 <= k < |names| ==> names[k] in Interfaces(net)
    ensures |BlocksOf(net, names)| == |names| * (|net| + 2)
  {
    if |names| > 0 {
      BlocksOfLength(net, names[..|names| - 1]);
      OneMoreBlock(|names| - 1, |net| + 2);
    }
  }

  /** An interface header appears in the blocks exactly for listed names. */
  lemma {:induction false} BlocksOfHeaders(net: NetworkSeries, names: seq<string>, x: string)
    requires WellFormed(net) && forall k :: 0 <= k < |names| ==> names[k] in Interfaces(net)
    ensures InterfaceHeader(x) in BlocksOf(net, names) <==> x in names
  {
    if |names| > 0 {
      var init := names[..|names| - 1];
      var last := names[|names| - 1];
      BlocksOfHeaders(net, init, x);
      assert names == init + [last];
      assert InterfaceHeader(x) !in TrafficLines(net, last);
      assert InterfaceHeader(x) in InterfaceBlock(net, last) <==> x == last;
    }
  }

  /** The title appears exactly when some interface is shown; the output is
      then the title and the active interfaces' blocks, each of one header,
      one line per stage and a blank. */
  lemma NetworkLinesShape(run: Run)
    requires run.network.Some? && WellFormed(run.network.value)
    ensures var net := run.network.value;
            var shown := ActiveInterfaces(net, |Interfaces(net)|);
            (NetworkLines(run) == [] <==> |shown| == 0) &&
            (|shown| > 0 ==>
               NetworkLines(run) == [Title(NetworkUsage)] + BlocksOf(net, shown) &&
               |NetworkLines(run)| == 1 + |shown| * (|net| + 2))
  {
    var net := run.network.value;
    var n := |Interfaces(net)|;
    ActiveInterfacesExact(net, n);
    InterfaceBlocksAreActiveBlocks(net, n);
    var shown := ActiveInterfaces(net, n);
    BlocksOfLength(net, shown);
    assert Interfaces(net)[..n] == Interfaces(net);
    if |shown| > 0 {
      assert shown[0] in shown;
      var k :| 0 <= k < n && Interfaces(net)[k] == shown[0];
      assert AnyActive(net);
    }
    if AnyActive(net) {
      var k :| 0 <= k < n && Active(net, Interfaces(net)[k]);
      assert Interfaces(net)[k] in shown;
    }
  }

  /** An interface is listed in the report exactly when it belongs to the
      first stage and carried traffic at some stage. */
  lemma InterfaceShownIffActive(run: Run, x: string)
    requires run.network.Some? && WellFormed(run.network.value)
    ensures InterfaceHeader(x) in NetworkLines(run) <==>
              x in Interfaces(run.network.value) && Active(run.network.value, x)
  {
    var net := run.network.value;
    var n := |Interfaces(net)|;
    var shown := ActiveInterfaces(net, n);
    NetworkLinesShape(run);
    ActiveInterfacesExact(net, n);
    assert Interfaces(net)[..n] == Interfaces(net);
    if |shown| > 0 {
      BlocksOfHeaders(net, shown, x);
    }
  }

  /** The inner scan: stop at the first stage with traffic on the interface. */
  method HadActivity(net: NetworkSeries, name: string) returns (active: bool)
    requires WellFormed(net) && name in Interfaces(net)
    ensures active == Active(net, name)
  {
    active := false;
    var j := 0;
    while j < |net|
      invariant 0 <= j <= |net|
      invariant !active && (Active(net, name) <==> ActiveFrom(net, name, j))
    {
      var t := Lookup(net[j].1, name);
      if t.rx > 0 || t.tx > 0 {
        active := true;
        break;
      }
      j := j + 1;
    }
  }

  /** One interface block: header, rx and tx per stage (absolute first, then
      deltas against the previous stage), then a blank. */
  method RenderInterface(net: NetworkSeries, name: string) returns (block: seq<Line>)
    requires WellFormed(net) && name in Interfaces(net)
    ensures block == InterfaceBlock(net, name)
  {
    block := [InterfaceHeader(name)];
    var prev: Option<nat> := None;
    for j := 0 to |net|
      invariant prev == if j == 0 then None else Some(j - 1)
      invariant block == [InterfaceHeader(name)] + TrafficLines(net, name)[..j]
    {
      var now := Lookup(net[j].1, name);
      var rxFmt, txFmt;
      if prev.None? {
        var rx := SizeOf(now.rx as real, Bytes);
        var tx := SizeOf(now.tx as real, Bytes);
        rxFmt, txFmt := Annotated(rx, None), Annotated(tx, None);
      } else {
        var before := Lookup(net[prev.value].1, name);
        rxFmt := DeltaFmt(before.rx, now.rx);
        txFmt := DeltaFmt(before.tx, now.tx);
      }
      block := block + [TrafficLine(net[j].0, rxFmt, txFmt)];
      prev := Some(j);
      assert TrafficLines(net, name)[..j + 1] == TrafficLines(net, name)[..j] + [TrafficLines(net, name)[j]];
    }
    assert TrafficLines(net, name)[..|net|] == TrafficLines(net, name);
    block := block + [Blank];
  }

  /** The `any_change` scan over all interfaces of the first stage. */
  method ScanActivity(net: NetworkSeries) returns (anyChange: bool)
    requires WellFormed(net) && |net| > 0
    ensures anyChange == AnyActive(net)
  {
    var interfaces := Keys(net[0].1);
    anyChange := false;
    for k := 0 to |interfaces|
      invariant anyChange <==> exists k' :: 0 <= k' < k && Active(net, interfaces[k'])
    {
      var active := HadActivity(net, interfaces[k]);
      if active {
        anyChange := true;
      }
    }
    assert interfaces == Interfaces(net);
  }

  /** The blocks of all active interfaces, in first-stage order. */
  method RenderActive(net: NetworkSeries) returns (blocks: seq<Line>)
    requires WellFormed(net) && |net| > 0
    ensures blocks == InterfaceBlocks(net, |Interfaces(net)|)
  {
    var interfaces := Keys(net[0].1);
    blocks := [];
    for k := 0 to |interfaces|
      invariant blocks == InterfaceBlocks(net, k)
    {
      var active := HadActivity(net, interfaces[k]);
      if !active {
        continue;
      }
      var block := RenderInterface(net, interfaces[k]);
      blocks := blocks + block;
    }
  }

  /** `view_legacy_network_usage`; an absent "network" key prints nothing. */
  method RenderNetwork(run: Run) returns (out: seq<Line>)
    requires run.network.Some? ==> WellFormed(run.network.value)
    ensures out == NetworkLines(run)
  {
    out := [];
    if run.network.None? || |run.network.value| == 0 {
      return;
    }
    var net := run.network.value;
    var anyChange := ScanActivity(net);
    if !anyChange {
      return;
    }
    var blocks := RenderActive(net);
    out := [Title(NetworkUsage)] + blocks;
  }
}
