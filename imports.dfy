/**
 * The import-prefix summary: `count_package_prefixes` groups dotted names by
 * their leading segments and counts them, and `view_legacy_extra_imports`
 * lists the groups by descending count (a stable sort, so ties keep the order
 * in which the prefixes first appear).
 */
module Imports {
  import opened Model

  /** `s.split(".")`: the dot-separated segments of s, at least one. */
  function Split(s: string): (parts: seq<string>)
    ensures |parts| >= 1
  {
    if |s| == 0 then [""]
    else
      var rest := Split(s[1..]);
      if s[0] == '.' then [""] + rest else [[s[0]] + rest[0]] + rest[1..]
  }

  /** `".".join(parts)`. */
  function Join(parts: seq<string>): string
  {
    if |parts| == 0 then ""
    else if |parts| == 1 then parts[0]
    else parts[0] + "." + Join(parts[1..])
  }

  /** Joining the segments gives back the name. */
  lemma {:induction false} JoinSplit(s: string)
    ensures Join(Split(s)) == s
  {
    if |s| > 0 {
      var rest := Split(s[1..]);
      JoinSplit(s[1..]);
      if s[0] == '.' {
        assert ([""] + rest)[1..] == rest;
        assert s == "." + s[1..];
      } else {
        var parts := [[s[0]] + rest[0]] + rest[1..];
        assert parts[1..] == rest[1..];
        if |rest| == 1 {
          assert s == [s[0]] + s[1..];
        } else {
          assert Join(rest) == rest[0] + "." + Join(rest[1..]);
          assert s == [s[0]] + s[1..];
        }
      }
    }
  }

  /** No segment contains a dot. */
  lemma {:induction false} SplitSegmentsHaveNoDot(s: string)
    ensures forall k :: 0 <= k < |Split(s)| ==> '.' !in Split(s)[k]
  {
    if |s| > 0 {
      SplitSegmentsHaveNoDot(s[1..]);
      var rest := Split(s[1..]);
      if s[0] != '.' {
        var parts := [[s[0]] + rest[0]] + rest[1..];
        forall k | 0 <= k < |parts| ensures '.' !in parts[k] {
          if k == 0 {
            assert '.' !in rest[0];
          } else {
            assert parts[k] == rest[k];
          }
        }
      } else {
        forall k | 0 <= k < |[""] + rest| ensures '.' !in ([""] + rest)[k] {
          if k > 0 {
            assert ([""] + rest)[k] == rest[k - 1];
          }
        }
      }
    }
  }

  lemma {:induction false} JoinTakeIsPrefix(parts: seq<string>, l: nat)
    requires 1 <= l <= |parts|
    ensures Join(parts[..l]) <= Join(parts)
  {
    if l == 1 {
      assert Join(parts[..1]) == parts[0];
    } else {
      JoinTakeIsPrefix(parts[1..], l - 1);
      assert parts[..l][1..] == parts[1..][..l - 1];
    }
  }

  /** The group of a name: its first `level` segments when it has that many,
      otherwise its first segment. */
  function Prefix(key: string, level: nat): string
  {
    var parts := Split(key);
    if |parts| >= level then Join(parts[..level]) else parts[0]
  }

  /** A non-empty group is always a leading part of the name. */
  lemma PrefixIsLeading(key: string, level: nat)
    ensures Prefix(key, level) <= key
  {
    var parts := Split(key);
    JoinSplit(key);
    if |parts| >= level {
      if level > 0 {
        JoinTakeIsPrefix(parts, level);
      }
    } else {
      JoinTakeIsPrefix(parts, 1);
      assert parts[..1] == [parts[0]];
    }
  }

  /** With level 1 the group is the text before the first dot, or the whole
      name when it has no dot. */
  lemma PrefixLevelOne(key: string)
    ensures Prefix(key, 1) <= key
    ensures '.' !in Prefix(key, 1)
    ensures |Prefix(key, 1)| < |key| ==> key[|Prefix(key, 1)|] == '.'
  {
    var parts := Split(key);
    PrefixIsLeading(key, 1);
    SplitSegmentsHaveNoDot(key);
    JoinSplit(key);
    assert Join(parts[..1]) == parts[0];
    if |parts| > 1 {
      assert key == parts[0] + "." + Join(parts[1..]);
      assert key[|parts[0]|] == '.';
    }
  }

  /** A prefix-count table in first-insertion order (a dict of counts). */
  type Counter = seq<(string, int)>

  /** `counter[p] += 1` on a defaultdict(int). */
  function Bump(c: Counter, p: string): Counter
  {
    if |c| == 0 then [(p, 1)]
    else if c[0].0 == p then [(p, c[0].1 + 1)] + c[1..]
    else [c[0]] + Bump(c[1..], p)
  }

  /** The groups of each name, in key order. */
  function Prefixes(keys: seq<string>, level: nat): (ps: seq<string>)
    ensures |ps| == |keys|
  {
    seq(|keys|, i requires 0 <= i < |keys| => Prefix(keys[i], level))
  }

  /** The table after counting every group of `ps` in order. */
  function Counts(ps: seq<string>): Counter
  {
    if |ps| == 0 then [] else Bump(Counts(ps[..|ps| - 1]), ps[|ps| - 1])
  }

  /** How many times p occurs in ps. */
  function Occurrences(ps: seq<string>, p: string): nat
  {
    if |ps| == 0 then 0 else Occurrences(ps[..|ps| - 1], p) + (if ps[|ps| - 1] == p then 1 else 0)
  }

  /** The distinct elements of ps, in order of first appearance. */
  function Dedup(ps: seq<string>): seq<string>
  {
    if |ps| == 0 then []
    else
      var d := Dedup(ps[..|ps| - 1]);
      if ps[|ps| - 1] in d then d else d + [ps[|ps| - 1]]
  }

  function Total(c: Counter): int
  {
    if |c| == 0 then 0 else c[0].1 + Total(c[1..])
  }

  predicate Distinct(ks: seq<string>)
  {
    forall i, j :: 0 <= i < j < |ks| ==> ks[i] != ks[j]
  }

  /** The count stored under q, 0 when there is none (a defaultdict read). */
  function Get(c: Counter, q: string): int
  {
    if |c| == 0 then 0 else if c[0].0 == q then c[0].1 else Get(c[1..], q)
  }

  lemma KeysCons(c: Counter)
    requires |c| > 0
    ensures Keys(c) == [c[0].0] + Keys(c[1..])
  {
  }

  lemma DistinctCons(c: Counter)
    requires |c| > 0 && Distinct(Keys(c))
    ensures Distinct(Keys(c[1..]))
    ensures c[0].0 !in Keys(c[1..])
  {
    KeysCons(c);
    var ks := Keys(c);
    assert Keys(c[1..]) == ks[1..];
  }

  /** Counting p keeps the keys when p is known and appends p otherwise. */
  lemma {:induction false} BumpKeys(c: Counter, p: string)
    ensures Keys(Bump(c, p)) == if p in Keys(c) then Keys(c) else Keys(c) + [p]
  {
    if |c| > 0 {
      KeysCons(c);
      KeysCons(Bump(c, p));
      if c[0].0 != p {
        BumpKeys(c[1..], p);
        assert Bump(c, p)[1..] == Bump(c[1..], p);
      } else {
        assert Bump(c, p)[1..] == c[1..];
      }
    }
  }

  /** Counting p adds one to p's count and changes no other count. */
  lemma {:induction false} BumpGet(c: Counter, p: string, q: string)
    ensures Get(Bump(c, p), q) == Get(c, q) + (if q == p then 1 else 0)
  {
    if |c| > 0 && c[0].0 != p {
      BumpGet(c[1..], p, q);
      assert Bump(c, p)[1..] == Bump(c[1..], p);
    } else if |c| > 0 {
      assert Bump(c, p)[1..] == c[1..];
    }
  }

  lemma {:induction false} GetDistinct(c: Counter, k: nat)
    requires Distinct(Keys(c)) && k < |c|
    ensures Get(c, c[k].0) == c[k].1
  {
    if k > 0 {
      assert Keys(c)[0] != Keys(c)[k];
      DistinctCons(c);
      GetDistinct(c[1..], k - 1);
    }
  }

  lemma {:induction false} BumpTotal(c: Counter, p: string)
    ensures Total(Bump(c, p)) == Total(c) + 1
  {
    if |c| > 0 && c[0].0 != p {
      BumpTotal(c[1..], p);
      assert Bump(c, p)[1..] == Bump(c[1..], p);
    } else if |c| > 0 {
      assert Bump(c, p)[1..] == c[1..];
    }
  }

  /** The counts sum to the number of names counted. */
  lemma {:induction false} CountsTotal(ps: seq<string>)
    ensures Total(Counts(ps)) == |ps|
  {
    if |ps| > 0 {
      CountsTotal(ps[..|ps| - 1]);
      BumpTotal(Counts(ps[..|ps| - 1]), ps[|ps| - 1]);
    }
  }

  /** The table's keys are the distinct groups in order of first appearance. */
  lemma {:induction false} CountsKeys(ps: seq<string>)
    ensures Keys(Counts(ps)) == Dedup(ps)
    ensures Distinct(Keys(Counts(ps)))
    ensures forall q :: q in Keys(Counts(ps)) <==> q in ps
  {
    if |ps| > 0 {
      var init := ps[..|ps| - 1];
      var p := ps[|ps| - 1];
      var ks := Keys(Counts(init));
      CountsKeys(init);
      BumpKeys(Counts(init), p);
      assert ps == init + [p];
      if p !in ks {
        forall i, j | 0 <= i < j < |ks + [p]| ensures (ks + [p])[i] != (ks + [p])[j] {
          if j == |ks| {
            assert ks[i] in ks;
          }
        }
      }
    }
  }

  /** The count stored for every group is its number of occurrences. */
  lemma {:induction false} CountsGet(ps: seq<string>, q: string)
    ensures Get(Counts(ps), q) == Occurrences(ps, q)
  {
    if |ps| > 0 {
      CountsGet(ps[..|ps| - 1], q);
      BumpGet(Counts(ps[..|ps| - 1]), ps[|ps| - 1], q);
    }
  }

  lemma {:induction false} OccurrencesPresent(ps: seq<string>, q: string)
    requires q in ps
    ensures Occurrences(ps, q) >= 1
  {
    if ps[|ps| - 1] != q {
      assert ps == ps[..|ps| - 1] + [ps[|ps| - 1]];
      OccurrencesPresent(ps[..|ps| - 1], q);
    }
  }

  /** The table holds each distinct group once, in order of first appearance,
      with its number of occurrences, which is at least one. */
  lemma CountsExact(ps: seq<string>)
    ensures Keys(Counts(ps)) == Dedup(ps)
    ensures Distinct(Keys(Counts(ps)))
    ensures forall q :: q in Keys(Counts(ps)) <==> q in ps
    ensures forall k :: 0 <= k < |Counts(ps)| ==>
              Counts(ps)[k].1 == Occurrences(ps, Counts(ps)[k].0) && Counts(ps)[k].1 >= 1
  {
    var c := Counts(ps);
    CountsKeys(ps);
    forall k | 0 <= k < |c| ensures c[k].1 == Occurrences(ps, c[k].0) && c[k].1 >= 1 {
      GetDistinct(c, k);
      CountsGet(ps, c[k].0);
      assert Keys(c)[k] in Keys(c);
      OccurrencesPresent(ps, c[k].0);
    }
  }

  /** Place x before the first entry whose count is not larger. */
  function Insert(x: (string, int), t: Counter): Counter
  {
    if |t| == 0 then [x]
    else if t[0].1 <= x.1 then [x] + t
    else [t[0]] + Insert(x, t[1..])
  }

  /** `sorted(items, key=count, reverse=True)`: a stable insertion sort. */
  function SortByCount(s: Counter): Counter
  {
    if |s| == 0 then [] else Insert(s[0], SortByCount(s[1..]))
  }

  predicate Descending(t: Counter)
  {
    forall i, j :: 0 <= i < j < |t| ==> t[i].1 >= t[j].1
  }

  /** The entries with count c, in order. */
  function WithCount(t: Counter, c: int): Counter
  {
    if |t| == 0 then []
    else (if t[0].1 == c then [t[0]] else []) + WithCount(t[1..], c)
  }

  lemma {:induction false} InsertPermutes(x: (string, int), t: Counter)
    ensures multiset(Insert(x, t)) == multiset(t) + multiset{x}
  {
    if |t| > 0 && t[0].1 > x.1 {
      InsertPermutes(x, t[1..]);
      assert t == [t[0]] + t[1..];
    }
  }

  lemma {:induction false} InsertDescending(x: (string, int), t: Counter)
    requires Descending(t)
    ensures Descending(Insert(x, t))
  {
    if |t| > 0 && t[0].1 > x.1 {
      InsertDescending(x, t[1..]);
      InsertPermutes(x, t[1..]);
      var r := Insert(x, t[1..]);
      forall j | 0 <= j < |r| ensures t[0].1 >= r[j].1 {
        assert r[j] in multiset(r);
        if r[j] != x {
          assert r[j] in multiset(t[1..]);
          var k :| 0 <= k < |t[1..]| && t[1..][k] == r[j];
          assert t[k + 1] == r[j];
        }
      }
    }
  }

  lemma {:induction false} InsertStable(x: (string, int), t: Counter, c: int)
    ensures WithCount(Insert(x, t), c) == (if x.1 == c then [x] else []) + WithCount(t, c)
  {
    if |t| > 0 && t[0].1 > x.1 {
      InsertStable(x, t[1..], c);
      assert Insert(x, t)[1..] == Insert(x, t[1..]);
    } else if |t| > 0 {
      assert Insert(x, t)[1..] == t;
    }
  }

  /** The sort orders by descending count, loses and adds nothing, and keeps
      the original order among entries of equal count. */
  lemma {:induction false} SortByCountCorrect(s: Counter)
    ensures Descending(SortByCount(s))
    ensures multiset(SortByCount(s)) == multiset(s)
    ensures forall c :: WithCount(SortByCount(s), c) == WithCount(s, c)
  {
    if |s| > 0 {
      SortByCountCorrect(s[1..]);
      InsertDescending(s[0], SortByCount(s[1..]));
      InsertPermutes(s[0], SortByCount(s[1..]));
      assert s == [s[0]] + s[1..];
      forall c ensures WithCount(SortByCount(s), c) == WithCount(s, c) {
        InsertStable(s[0], SortByCount(s[1..]), c);
      }
    }
  }

  /** A group counted more than once renders as `prefix.*: N`, a single one
      as the bare prefix. */
  function PackageLineFor(e: (string, int)): Line
  {
    if e.1 > 1 then GroupLine(e.0, e.1) else PackageLine(e.0)
  }

  /** The groups of an import table, sorted for display. */
  function SortedGroups(value: Payload): Counter
  {
    SortByCount(Counts(Prefixes(Keys(value), 1)))
  }

  function ImportsLines(value: Payload): seq<Line>
  {
    if |value| == 0 then []
    else
      var sorted := SortedGroups(value);
      [Title(TopLevelImports)] + seq(|sorted|, i requires 0 <= i < |sorted| => PackageLineFor(sorted[i])) + [Blank]
  }

  lemma {:induction false} InsertEntries(x: (string, int), t: Counter)
    ensures |Insert(x, t)| == |t| + 1
    ensures forall e :: e in Insert(x, t) <==> e == x || e in t
  {
    if |t| > 0 && t[0].1 > x.1 {
      InsertEntries(x, t[1..]);
      assert t == [t[0]] + t[1..];
    }
  }

  lemma {:induction false} SortEntries(s: Counter)
    ensures |SortByCount(s)| == |s|
    ensures forall e :: e in SortByCount(s) <==> e in s
  {
    if |s| > 0 {
      SortEntries(s[1..]);
      InsertEntries(s[0], SortByCount(s[1..]));
      assert s == [s[0]] + s[1..];
    }
  }

  lemma SameEntriesSameKeys(a: Counter, b: Counter)
    requires forall e :: e in a <==> e in b
    ensures forall q :: q in Keys(a) <==> q in Keys(b)
  {
    forall q | q in Keys(a) ensures q in Keys(b) {
      var i :| 0 <= i < |a| && Keys(a)[i] == q;
      assert a[i] in b;
      var j :| 0 <= j < |b| && b[j] == a[i];
      assert Keys(b)[j] == q;
    }
    forall q | q in Keys(b) ensures q in Keys(a) {
      var j :| 0 <= j < |b| && Keys(b)[j] == q;
      assert b[j] in a;
      var i :| 0 <= i < |a| && a[i] == b[j];
      assert Keys(a)[i] == q;
    }
  }

  /** The sorted table: each distinct group once, with its number of
      occurrences (at least one), counts descending, adding up to |ps|. */
  lemma SortedCountsCorrect(ps: seq<string>)
    ensures var sorted := SortByCount(Counts(ps));
            |sorted| == |Dedup(ps)| && Descending(sorted) && Total(sorted) == |ps| &&
            (forall e :: e in sorted ==> e.1 == Occurrences(ps, e.0) >= 1) &&
            (forall q :: q in Keys(sorted) <==> q in ps)
  {
    var counts := Counts(ps);
    var sorted := SortByCount(counts);
    CountsExact(ps);
    CountsTotal(ps);
    SortByCountCorrect(counts);
    SortEntries(counts);
    SortTotal(counts);
    SameEntriesSameKeys(sorted, counts);
    forall e | e in sorted ensures e.1 == Occurrences(ps, e.0) >= 1 {
      var k :| 0 <= k < |counts| && counts[k] == e;
    }
  }

  /** An empty table prints nothing; otherwise a title, one line per distinct
      group in the sorted order, and a blank line. */
  lemma ImportsLinesShape(value: Payload)
    ensures |value| == 0 ==> ImportsLines(value) == []
    ensures |value| > 0 ==>
              var sorted := SortedGroups(value);
              var out := ImportsLines(value);
              |out| == |Dedup(Prefixes(Keys(value), 1))| + 2 &&
              out[0] == Title(TopLevelImports) && out[|out| - 1] == Blank &&
              Descending(sorted) && Total(sorted) == |value| &&
              forall i :: 0 <= i < |sorted| ==> out[i + 1] == PackageLineFor(sorted[i])
  {
    if |value| > 0 {
      SortedCountsCorrect(Prefixes(Keys(value), 1));
      var sorted := SortedGroups(value);
      var body := seq(|sorted|, i requires 0 <= i < |sorted| => PackageLineFor(sorted[i]));
      assert ImportsLines(value) == [Title(TopLevelImports)] + body + [Blank];
    }
  }

  /** A name without a dot is a single segment. */
  lemma {:induction false} SplitNoDot(s: string)
    requires '.' !in s
    ensures Split(s) == [s]
  {
    if |s| > 0 {
      SplitNoDot(s[1..]);
      assert [s[0]] + s[1..] == s;
    }
  }

  lemma ExamplePrefixes()
    ensures Prefixes(Keys([("a.b.c", "m1"), ("a.x", "m2"), ("z", "m3")]), 1) == ["a", "a", "z"]
  {
    assert Split("a.b.c")[0] == "a" by {
      assert "a.b.c"[1..] == ".b.c";
    }
    assert Split("a.x")[0] == "a" by {
      assert "a.x"[1..] == ".x";
    }
    SplitNoDot("z");
  }

  /** "a.b.c", "a.x" and "z" list as `a.*: 2` followed by the bare `z`. */
  lemma ImportsExample()
    ensures ImportsLines([("a.b.c", "m1"), ("a.x", "m2"), ("z", "m3")]) ==
            [Title(TopLevelImports), GroupLine("a", 2), PackageLine("z"), Blank]
  {
    ExamplePrefixes();
    var ps: seq<string> := ["a", "a", "z"];
    assert Counts(ps[..1]) == [("a", 1)] by {
      assert ps[..1][..0] == [];
    }
    assert Counts(ps[..2]) == [("a", 2)] by {
      assert ps[..2][..1] == ps[..1];
    }
    assert Counts(ps) == [("a", 2), ("z", 1)] by {
      assert ps[..2] == ps[..|ps| - 1];
      assert [("a", 2)][1..] == [];
    }
    var c := Counts(ps);
    assert SortByCount(c[1..]) == [("z", 1)];
    assert SortByCount(c) == c;
    var value := [("a.b.c", "m1"), ("a.x", "m2"), ("z", "m3")];
    assert SortedGroups(value) == [("a", 2), ("z", 1)];
    var body := seq(2, i requires 0 <= i < 2 => PackageLineFor(c[i]));
    assert body == [GroupLine("a", 2), PackageLine("z")];
  }

  lemma TiePrefixes()
    ensures Prefixes(Keys([("zlib", "m1"), ("abc", "m2")]), 1) == ["zlib", "abc"]
  {
    SplitNoDot("zlib");
    SplitNoDot("abc");
  }

  /** Two names counted once each keep their order of appearance. */
  lemma TiesKeepOrderExample()
    ensures ImportsLines([("zlib", "m1"), ("abc", "m2")]) ==
            [Title(TopLevelImports), PackageLine("zlib"), PackageLine("abc"), Blank]
  {
    TiePrefixes();
    var ps: seq<string> := ["zlib", "abc"];
    assert Counts(ps[..1]) == [("zlib", 1)] by {
      assert ps[..1][..0] == [];
    }
    assert Counts(ps) == [("zlib", 1), ("abc", 1)] by {
      assert ps[..1] == ps[..|ps| - 1];
      assert [("zlib", 1)][1..] == [];
    }
    var c := Counts(ps);
    assert SortByCount(c[1..]) == [("abc", 1)];
    assert SortByCount(c) == c;
    var value := [("zlib", "m1"), ("abc", "m2")];
    assert SortedGroups(value) == c;
    var body := seq(2, i requires 0 <= i < 2 => PackageLineFor(c[i]));
    assert body == [PackageLine("zlib"), PackageLine("abc")];
    assert ImportsLines(value) == [Title(TopLevelImports)] + body + [Blank];
  }

  lemma {:induction false} InsertTotal(x: (string, int), t: Counter)
    ensures Total(Insert(x, t)) == x.1 + Total(t)
  {
    if |t| > 0 && t[0].1 > x.1 {
      InsertTotal(x, t[1..]);
      assert Insert(x, t)[1..] == Insert(x, t[1..]);
    } else if |t| > 0 {
      assert Insert(x, t)[1..] == t;
    }
  }

  lemma {:induction false} SortTotal(s: Counter)
    ensures Total(SortByCount(s)) == Total(s)
  {
    if |s| > 0 {
      SortTotal(s[1..]);
      InsertTotal(s[0], SortByCount(s[1..]));
    }
  }

  /** `count_package_prefixes`: count the group of every key in key order. */
  method CountPackagePrefixes(pathDict: Payload, level: nat) returns (counts: Counter)
    ensures counts == Counts(Prefixes(Keys(pathDict), level))
  {
    ghost var ps := Prefixes(Keys(pathDict), level);
    counts := [];
    for i := 0 to |pathDict|
      invariant counts == Counts(ps[..i])
    {
      var parts := Split(pathDict[i].0);
      var prefix;
      if |parts| >= level {
        prefix := Join(parts[..level]);
      } else {
        prefix := parts[0];
      }
      assert ps[..i + 1][..i] == ps[..i];
      counts := Bump(counts, prefix);
    }
    assert ps[..|pathDict|] == ps;
  }

  /** `view_legacy_extra_imports`; the record key is not used. */
  method RenderImports(key: string, value: Payload) returns (out: seq<Line>)
    ensures out == ImportsLines(value)
  {
    out := [];
    if |value| == 0 {
      return;
    }
    out := [Title(TopLevelImports)];
    var counters := CountPackagePrefixes(value, 1);
    var sorted := SortByCount(counters);
    for i := 0 to |sorted|
      invariant out == [Title(TopLevelImports)] + seq(i, k requires 0 <= k < i => PackageLineFor(sorted[k]))
    {
      var package, count := sorted[i].0, sorted[i].1;
      if count > 1 {
        out := out + [GroupLine(package, count)];
      } else {
        out := out + [PackageLine(package)];
      }
    }
    out := out + [Blank];
  }
}
