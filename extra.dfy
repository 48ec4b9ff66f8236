/**
 * The extras dispatcher `view_legacy_extra`: each extra record whose key has
 * a registered renderer is rendered by it, in key order; the keys without one
 * are listed, by name only, under "Other Records" at the end.
 */
module Extra {
  import opened Wrappers
  import opened Model
  import opened Imports

  /** The renderers an extra record can be dispatched to. */
  datatype Renderer = ImportsRenderer

  /** The `view_legacy_extra_<key>` functions that exist, by key. */
  const Registry: map<string, Renderer> := map["imports" := ImportsRenderer]

  function RendererLines(r: Renderer, key: string, value: Payload): seq<Line>
  {
    match r
    case ImportsRenderer => ImportsLines(value)
  }

  /** What the dispatched renderers print, in key order. */
  function Registered(ex: Extras): seq<Line>
  {
    if |ex| == 0 then []
    else
      var (k, v) := ex[|ex| - 1];
      Registered(ex[..|ex| - 1]) + (if k in Registry then RendererLines(Registry[k], k, v) else [])
  }

  /** The keys with a renderer, in key order. */
  function Dispatched(ex: Extras): seq<string>
  {
    if |ex| == 0 then []
    else Dispatched(ex[..|ex| - 1]) + (if ex[|ex| - 1].0 in Registry then [ex[|ex| - 1].0] else [])
  }

  /** The `unknown` list: the keys without a renderer, in key order. */
  function Unknown(ex: Extras): seq<string>
  {
    if |ex| == 0 then []
    else Unknown(ex[..|ex| - 1]) + (if ex[|ex| - 1].0 in Registry then [] else [ex[|ex| - 1].0])
  }

  function OtherSection(unknown: seq<string>): seq<Line>
  {
    if |unknown| == 0 then []
    else [Title(OtherRecords)] + seq(|unknown|, i requires 0 <= i < |unknown| => RecordLine(unknown[i])) + [Blank]
  }

  function ExtraRecords(run: Run): Extras
  {
    if run.extra.Some? then run.extra.value else []
  }

  function ExtraLines(run: Run): seq<Line>
  {
    var ex := ExtraRecords(run);
    Registered(ex) + OtherSection(Unknown(ex))
  }

  /** Every key is either dispatched or unknown, never both, and none is lost. */
  lemma {:induction false} DispatchPartition(ex: Extras)
    ensures |Dispatched(ex)| + |Unknown(ex)| == |ex|
    ensures forall k :: k in Unknown(ex) <==> k in Keys(ex) && k !in Registry
    ensures forall k :: k in Dispatched(ex) <==> k in Keys(ex) && k in Registry
  {
    if |ex| > 0 {
      var init := ex[..|ex| - 1];
      DispatchPartition(init);
      assert Keys(ex) == Keys(init) + [ex[|ex| - 1].0];
    }
  }

  lemma {:induction false} NoRecordLinesInImports(value: Payload, x: string)
    ensures RecordLine(x) !in ImportsLines(value)
  {
    if |value| > 0 {
      var sorted := SortedGroups(value);
      var body := seq(|sorted|, i requires 0 <= i < |sorted| => PackageLineFor(sorted[i]));
      assert ImportsLines(value) == [Title(TopLevelImports)] + body + [Blank];
    }
  }

  lemma {:induction false} NoRecordLinesInRegistered(ex: Extras, x: string)
    ensures RecordLine(x) !in Registered(ex)
  {
    if |ex| > 0 {
      NoRecordLinesInRegistered(ex[..|ex| - 1], x);
      var (k, v) := ex[|ex| - 1];
      if k in Registry {
        NoRecordLinesInImports(v, x);
      }
    }
  }

  /** Some key lacks a renderer exactly when the unknown list is non-empty. */
  lemma UnknownNonEmptyIff(ex: Extras)
    ensures |Unknown(ex)| > 0 <==> exists i :: 0 <= i < |ex| && ex[i].0 !in Registry
  {
    DispatchPartition(ex);
    var u := Unknown(ex);
    if |u| > 0 {
      assert u[0] in u;
      var i :| 0 <= i < |ex| && Keys(ex)[i] == u[0];
    }
    if i :| 0 <= i < |ex| && ex[i].0 !in Registry {
      assert Keys(ex)[i] in u;
    }
  }

  /** The "Other Records" section: nothing for no unknown keys, otherwise a
      title, one line naming each key in order, and a blank line. */
  lemma OtherSectionShape(u: seq<string>)
    ensures |u| == 0 <==> OtherSection(u) == []
    ensures |u| > 0 ==>
              |OtherSection(u)| == |u| + 2 && OtherSection(u)[0] == Title(OtherRecords) &&
              OtherSection(u)[|u| + 1] == Blank &&
              forall i :: 0 <= i < |u| ==> OtherSection(u)[i + 1] == RecordLine(u[i])
  {
  }

  /** The report names a record key on its own line exactly when that key has
      no renderer; the section comes after all dispatched output. */
  lemma OtherRecordsExact(run: Run, x: string)
    ensures ExtraLines(run) == Registered(ExtraRecords(run)) + OtherSection(Unknown(ExtraRecords(run)))
    ensures RecordLine(x) in ExtraLines(run) <==> x in Keys(ExtraRecords(run)) && x !in Registry
  {
    var ex := ExtraRecords(run);
    var u := Unknown(ex);
    DispatchPartition(ex);
    NoRecordLinesInRegistered(ex, x);
    if |u| > 0 {
      var body := seq(|u|, i requires 0 <= i < |u| => RecordLine(u[i]));
      assert OtherSection(u) == [Title(OtherRecords)] + body + [Blank];
      if x in u {
        var i :| 0 <= i < |u| && u[i] == x;
        assert body[i] == RecordLine(x);
      }
    }
  }

  /** A missing or empty extra record prints nothing. */
  lemma NoExtrasNoLines(run: Run)
    requires run.extra.None? || run.extra == Some([])
    ensures ExtraLines(run) == []
  {
  }

  /** One registered and one unregistered record: the registered renderer's
      output, then an "Other Records" section naming only the other key. */
  lemma MixedExtrasExample(imports: Payload, other: string, payload: Payload)
    requires other != "imports"
    ensures ExtraLines(Run(None, None, None, None, Some([("imports", imports), (other, payload)]))) ==
              ImportsLines(imports) + [Title(OtherRecords), RecordLine(other), Blank]
  {
    var ex: Extras := [("imports", imports), (other, payload)];
    var first := ex[..1];
    assert first == [("imports", imports)];
    assert first[..0] == [];
    assert "imports" in Registry && Registry["imports"] == ImportsRenderer;
    assert other !in Registry;
    assert Unknown(first) == [];
    assert Registered(first) == ImportsLines(imports);
    assert Unknown(ex) == [other];
    assert Registered(ex) == ImportsLines(imports);
  }

  /** Call a registered renderer. */
  method Dispatch(r: Renderer, key: string, value: Payload) returns (out: seq<Line>)
    ensures out == RendererLines(r, key, value)
  {
    match r
    case ImportsRenderer =>
      out := RenderImports(key, value);
  }

  /** `view_legacy_extra`. */
  method RenderExtra(run: Run) returns (out: seq<Line>)
    ensures out == ExtraLines(run)
  {
    out := [];
    var unknown: seq<string> := [];
    var ex := ExtraRecords(run);
    if run.extra.Some? && |run.extra.value| > 0 {
      for i := 0 to |ex|
        invariant out == Registered(ex[..i]) && unknown == Unknown(ex[..i])
      {
        var (k, v) := ex[i];
        assert ex[..i + 1][..i] == ex[..i];
        if k in Registry {
          var lines := Dispatch(Registry[k], k, v);
          out := out + lines;
        } else {
          unknown := unknown + [k];
        }
      }
      assert ex[..|ex|] == ex;
    }
    if |unknown| > 0 {
      out := out + [Title(OtherRecords)];
      ghost var before := Registered(ex);
      for i := 0 to |unknown|
        invariant out == before + [Title(OtherRecords)] +
                         seq(i, j requires 0 <= j < i => RecordLine(unknown[j]))
      {
        out := out + [RecordLine(unknown[i])];
      }
      out := out + [Blank];
    }
  }
}
