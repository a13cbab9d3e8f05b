// Splitting /proc/cpuinfo into cores (src/scalarizr/api/system.py, cpu_info).
module CpuInfo {
  import opened Sequences
  import opened Text
  import opened Wrappers

  type Core = map<string, string>

  datatype Entry = Entry(key: string, value: string)

  // What the loops see of a line: no colon, one colon, or several (whose
  // pieces make no key).
  datatype Line = NoColon | KeyValue(entry: Entry) | Malformed

  function Classify(line: string): Line {
    match Find(line, c => c == ':')
    case None => NoColon
    case Some(i) =>
      if ':' in line[i + 1..] then Malformed else KeyValue(Entry(Strip(line[..i]), Strip(line[i + 1..])))
  }

  // A line with one colon gives what stands before it as the key and what
  // stands after it as the value, without the spaces around them.
  lemma KeyValueReads(key: string, value: string)
    requires ':' !in key && ':' !in value
    ensures Classify(key + ":" + value) == KeyValue(Entry(Strip(key), Strip(value)))
  {
    var line := key + ":" + value;
    forall i | 0 <= i < |key|
      ensures line[i] != ':'
    {
      assert line[i] == key[i];
    }
    FindAt(line, c => c == ':', |key|);
    assert line[..|key|] == key && line[|key| + 1..] == value;
  }

  // A line without a colon is skipped, one with two or more makes no key.
  lemma OtherLinesRead(line: string)
    ensures Classify(line) == NoColon <==> ':' !in line
    ensures Classify(line) == Malformed <==> exists i, j :: 0 <= i < j < |line| && line[i] == ':' && line[j] == ':'
  {
    match Find(line, c => c == ':') {
      case None =>
      case Some(i) =>
        if ':' in line[i + 1..] {
          var j :| 0 <= j < |line[i + 1..]| && line[i + 1..][j] == ':';
          assert line[i] == ':' && line[i + 1 + j] == ':';
        } else {
          forall k | i < k < |line|
            ensures line[k] != ':'
          {
            assert line[k] == line[i + 1..][k - i - 1];
          }
        }
    }
  }

  // The key:value lines in order.
  function Entries(lines: seq<Line>): seq<Entry> {
    if lines == [] then []
    else (if lines[0].KeyValue? then [lines[0].entry] else []) + Entries(lines[1..])
  }

  ghost function KeysOf(es: seq<Entry>): set<string> {
    set i | 0 <= i < |es| :: es[i].key
  }

  function ToCore(es: seq<Entry>): Core {
    if es == [] then map[] else ToCore(es[..|es| - 1])[es[|es| - 1].key := es[|es| - 1].value]
  }

  // --- The intended segmentation

  ghost predicate DistinctKeys(es: seq<Entry>) {
    forall i, j :: 0 <= i < j < |es| ==> es[i].key != es[j].key
  }

  ghost function Concat(segments: seq<seq<Entry>>): seq<Entry> {
    if segments == [] then [] else segments[0] + Concat(segments[1..])
  }

  // The segments hold the entries in order, each exactly once; no key occurs
  // twice in a segment, and a new one starts only at a key already present in
  // the segment before.
  ghost predicate Segmentation(es: seq<Entry>, segments: seq<seq<Entry>>) {
    && Concat(segments) == es
    && (forall i :: 0 <= i < |segments| ==> segments[i] != [] && DistinctKeys(segments[i]))
    && (forall i :: 0 < i < |segments| ==> segments[i][0].key in KeysOf(segments[i - 1]))
  }

  // How many entries the first core takes, at least m.
  ghost function CoreLength(es: seq<Entry>, m: nat): (n: nat)
    requires m <= |es|
    ensures m <= n <= |es|
    decreases |es| - m
  {
    if m == |es| || es[m].key in KeysOf(es[..m]) then m else CoreLength(es, m + 1)
  }

  ghost function Segments(es: seq<Entry>): seq<seq<Entry>> {
    if es == [] then []
    else
      var n := CoreLength(es, 1);
      [es[..n]] + Segments(es[n..])
  }

  lemma {:induction false} CoreLengthMaximal(es: seq<Entry>, m: nat)
    requires m <= |es| && DistinctKeys(es[..m])
    ensures var n := CoreLength(es, m);
            DistinctKeys(es[..n]) && (n < |es| ==> es[n].key in KeysOf(es[..n]))
    decreases |es| - m
  {
    if m < |es| && es[m].key !in KeysOf(es[..m]) {
      forall i | 0 <= i < m
        ensures es[i].key != es[m].key
      {
        assert es[..m][i].key in KeysOf(es[..m]);
      }
      CoreLengthMaximal(es, m + 1);
    }
  }

  lemma SegmentInFront(first: seq<Entry>, es: seq<Entry>, rest: seq<seq<Entry>>)
    requires Segmentation(es, rest) && first != [] && DistinctKeys(first)
    requires es != [] ==> es[0].key in KeysOf(first)
    ensures Segmentation(first + es, [first] + rest)
  {
    var all := [first] + rest;
    assert all[1..] == rest;
    forall i | 0 < i < |all|
      ensures all[i][0].key in KeysOf(all[i - 1])
    {
      if i == 1 {
        assert rest[0][0] == Concat(rest)[0];
      } else {
        assert rest[i - 1][0].key in KeysOf(rest[i - 2]);
      }
    }
  }

  lemma {:induction false} SegmentsAreSegmentation(es: seq<Entry>)
    ensures Segmentation(es, Segments(es))
  {
    if es != [] {
      var n := CoreLength(es, 1);
      CoreLengthMaximal(es, 1);
      SegmentsAreSegmentation(es[n..]);
      SegmentInFront(es[..n], es[n..], Segments(es[n..]));
      assert es[..n] + es[n..] == es;
    }
  }

  lemma {:induction false} LengthReaches(es: seq<Entry>, k: nat, m: nat)
    requires k <= m <= |es| && DistinctKeys(es[..m])
    requires m < |es| ==> es[m].key in KeysOf(es[..m])
    ensures CoreLength(es, k) == m
    decreases m - k
  {
    if k < m {
      forall i | 0 <= i < k
        ensures es[..k][i].key != es[k].key
      {
        assert es[..m][i] == es[..k][i] && es[..m][k] == es[k];
      }
      LengthReaches(es, k + 1, m);
    }
  }

  // No other segmentation exists.
  lemma {:induction false} SegmentationIsUnique(es: seq<Entry>, segments: seq<seq<Entry>>)
    requires Segmentation(es, segments)
    ensures segments == Segments(es)
    decreases |segments|
  {
    if segments != [] {
      var first, rest := segments[0], segments[1..];
      var m := |first|;
      assert es[..m] == first && es[m..] == Concat(rest);
      if rest != [] {
        assert es[m] == rest[0][0];
      }
      LengthReaches(es, 1, m);
      forall i | 0 < i < |rest|
        ensures rest[i][0].key in KeysOf(rest[i - 1])
      {
        assert rest[i] == segments[i + 1] && rest[i - 1] == segments[i];
      }
      SegmentationIsUnique(es[m..], rest);
    }
  }

  ghost function ToCores(segments: seq<seq<Entry>>): seq<Core> {
    if segments == [] then [] else [ToCore(segments[0])] + ToCores(segments[1..])
  }

  // A file without entries counts as one core without data.
  ghost function Cores(lines: seq<Line>): seq<Core> {
    if lines != [] && Entries(lines) == [] then [map[]] else ToCores(Segments(Entries(lines)))
  }

  // The first core and the cores of the remaining lines.
  lemma CoreStep(lines: seq<Line>, rest: seq<Line>, m: nat)
    requires lines != [] && m <= |Entries(lines)| && m == CoreLength(Entries(lines), 0)
    requires Entries(rest) == Entries(lines)[m..]
    requires rest == [] || Entries(rest) != []
    ensures Cores(lines) == [ToCore(Entries(lines)[..m])] + Cores(rest)
  {
    var es := Entries(lines);
    if es != [] {
      assert KeysOf(es[..0]) == {};
      assert m == CoreLength(es, 1);
      assert Segments(es)[1..] == Segments(es[m..]);
    } else {
      assert es[..m] == [];
    }
  }

  // The lines from start to index are the first core of the lines from start.
  ghost predicate CoreRead(lines: seq<Line>, start: nat, index: nat, core: Core)
    requires start < index <= |lines|
  {
    Cores(lines[start..]) == [core] + Cores(lines[index..])
  }

  lemma KeysSnoc(es: seq<Entry>, e: Entry)
    ensures KeysOf(es + [e]) == KeysOf(es) + {e.key}
  {
    var more := es + [e];
    assert more[|es|].key in KeysOf(more);
    forall i | 0 <= i < |es|
      ensures es[i].key in KeysOf(more)
    {
      assert more[i] == es[i];
    }
  }

  // A core has the keys of its entries and no other, each with its value.
  lemma {:induction false} CoreHolds(es: seq<Entry>, i: nat)
    requires DistinctKeys(es) && i < |es|
    ensures es[i].key in ToCore(es) && ToCore(es)[es[i].key] == es[i].value && ToCore(es).Keys == KeysOf(es)
  {
    var n := |es| - 1;
    assert es == es[..n] + [es[n]];
    KeysSnoc(es[..n], es[n]);
    if n > 0 {
      CoreHolds(es[..n], if i < n then i else 0);
    } else {
      assert es[..n] == [] && KeysOf([]) == {};
    }
  }

  // --- The loops

  // The core under construction holds the entries, no key twice.
  ghost predicate Holds(core: Core, es: seq<Entry>) {
    DistinctKeys(es) && core == ToCore(es) && core.Keys == KeysOf(es)
  }

  lemma EntriesStep(lines: seq<Line>, index: nat)
    requires index < |lines|
    ensures Entries(lines[index..])
         == (if lines[index].KeyValue? then [lines[index].entry] else []) + Entries(lines[index + 1..])
  {
    assert lines[index..][0] == lines[index] && lines[index..][1..] == lines[index + 1..];
  }

  lemma StillDistinct(es: seq<Entry>, e: Entry)
    requires DistinctKeys(es) && e.key !in KeysOf(es)
    ensures DistinctKeys(es + [e])
  {
    forall i | 0 <= i < |es|
      ensures es[i].key != e.key
    {
      assert es[i].key in KeysOf(es);
    }
  }

  lemma {:induction false} TakeOne(core: Core, es: seq<Entry>, e: Entry)
    requires Holds(core, es) && e.key !in core
    ensures Holds(core[e.key := e.value], es + [e])
  {
    StillDistinct(es, e);
    KeysSnoc(es, e);
    assert (es + [e])[..|es|] == es;
  }

  lemma CoreEnds(lines: seq<Line>, start: nat, index: nat, es: seq<Entry>, core: Core)
    requires start < index <= |lines| && Holds(core, es)
    requires Entries(lines[start..]) == es + Entries(lines[index..])
    requires index < |lines| ==> lines[index].KeyValue? && lines[index].entry.key in core
    ensures CoreRead(lines, start, index, core)
  {
    var all, m := Entries(lines[start..]), |es|;
    assert all[..m] == es && all[m..] == Entries(lines[index..]);
    if index < |lines| {
      EntriesStep(lines, index);
      assert all[m] == lines[index].entry;
    } else {
      assert lines[index..] == [];
    }
    LengthReaches(all, 0, m);
    CoreStep(lines[start..], lines[index..], m);
  }

  // The lines from start to index have given the entries of the core so far.
  ghost predicate Reading(lines: seq<Line>, start: nat, index: nat, core: Core, es: seq<Entry>)
    requires start <= index <= |lines|
  {
    Holds(core, es) && Entries(lines[start..]) == es + Entries(lines[index..])
  }

  lemma ReadingStarts(lines: seq<Line>, start: nat)
    requires start <= |lines|
    ensures Reading(lines, start, start, map[], [])
  {
    assert [] + Entries(lines[start..]) == Entries(lines[start..]);
  }

  lemma ReadingSkips(lines: seq<Line>, start: nat, index: nat, core: Core, es: seq<Entry>)
    requires start <= index < |lines| && Reading(lines, start, index, core, es) && lines[index] == NoColon
    ensures Reading(lines, start, index + 1, core, es)
  {
    EntriesStep(lines, index);
    assert [] + Entries(lines[index + 1..]) == Entries(lines[index + 1..]);
  }

  lemma ReadingTakes(lines: seq<Line>, start: nat, index: nat, core: Core, es: seq<Entry>, e: Entry)
    requires start <= index < |lines| && Reading(lines, start, index, core, es)
    requires lines[index] == KeyValue(e) && e.key !in core
    ensures Reading(lines, start, index + 1, core[e.key := e.value], es + [e])
  {
    EntriesStep(lines, index);
    TakeOne(core, es, e);
    ConcatAssociative(es, [e], Entries(lines[index + 1..]));
  }

  // The inner loop: one core, up to the first line whose key it already has.
  // The line it stops at is left for the next core, but it never stops at the
  // line it started from, and so the outer loop advances.
  method ReadCore(lines: seq<Line>, start: nat) returns (core: Core, index: nat, ok: bool)
    requires start < |lines|
    ensures start <= index <= |lines|
    ensures forall k :: start <= k < index ==> lines[k] != Malformed
    ensures !ok ==> index < |lines| && lines[index] == Malformed
    ensures ok ==> start < index && CoreRead(lines, start, index, core)
  {
    core, index := map[], start;
    ghost var es: seq<Entry> := [];
    ReadingStarts(lines, start);
    while index < |lines|
      invariant start <= index <= |lines| && (index == start ==> core == map[])
      invariant forall k :: start <= k < index ==> lines[k] != Malformed
      invariant Reading(lines, start, index, core, es)
    {
      match lines[index] {
        case NoColon => ReadingSkips(lines, start, index, core, es);
        case Malformed =>
          ok := false;
          return;
        case KeyValue(e) =>
          if e.key in core {
            break;
          }
          ReadingTakes(lines, start, index, core, es, e);
          core := core[e.key := e.value];
          es := es + [e];
      }
      index := index + 1;
    }
    CoreEnds(lines, start, index, es, core);
    ok := true;
  }

  method CpuInfo(lines: seq<Line>) returns (r: Option<seq<Core>>)
    ensures r == None <==> Malformed in lines
    ensures r.Some? ==> r.value == Cores(lines)
  {
    var res: seq<Core> := [];
    var index := 0;
    while index < |lines|
      invariant 0 <= index <= |lines|
      invariant forall k :: 0 <= k < index ==> lines[k] != Malformed
      invariant Cores(lines) == res + Cores(lines[index..])
    {
      ghost var start := index;
      var core: Core, ok: bool;
      core, index, ok := ReadCore(lines, index);
      if !ok {
        return None;
      }
      ConcatAssociative(res, [core], Cores(lines[index..]));
      res := res + [core];
    }
    r := Some(res);
  }

  // From the text of the file.
  method CpuInfoOf(text: seq<string>) returns (r: Option<seq<Core>>)
    ensures var lines := seq(|text|, i requires 0 <= i < |text| => Classify(text[i]));
            r == if Malformed in lines then None else Some(Cores(lines))
  {
    var lines := seq(|text|, i requires 0 <= i < |text| => Classify(text[i]));
    r := CpuInfo(lines);
  }
}
