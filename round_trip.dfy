/** The loader read backwards: a table written out as a file in the layout
    `loadData` reads (each header followed by its samples) loads back as
    that same table. */
module LoadRoundTrip {
  import opened Wrappers
  import opened Text
  import opened LeadData

  /** How a number is written out; `float` reads it back. */
  type FloatPrinter = real -> string

  /** The record line of sample `s`: its four fields joined by commas. */
  function SampleLine(s: Sample, show: FloatPrinter): string {
    Join([s.name, show(s.pb206), show(s.pb207), show(s.pb208)])
  }

  /** The record lines of `samples`, in order. */
  function SampleLines(samples: seq<Sample>, show: FloatPrinter): (lines: seq<string>)
    ensures |lines| == |samples|
  {
    if samples == [] then []
    else SampleLines(samples[..|samples| - 1], show) + [SampleLine(samples[|samples| - 1], show)]
  }

  /** The file listing the groups of `ks`, in that order, each header line
      followed by the group's record lines. */
  function RenderKeys(ks: seq<string>, groups: map<string, seq<Sample>>, show: FloatPrinter): seq<string>
    requires forall i :: 0 <= i < |ks| ==> ks[i] in groups
  {
    if ks == [] then []
    else
      var k := ks[|ks| - 1];
      RenderKeys(ks[..|ks| - 1], groups, show) + [k] + SampleLines(groups[k], show)
  }

  /** The file of table `t`, its groups in key order. */
  function Render(t: Table, show: FloatPrinter): seq<string>
    requires t.Valid()
  {
    RenderKeys(t.keys, t.groups, show)
  }

  /** `show` writes number `x` on one line as a non-empty text with no
      comma and no trailing whitespace, which `toFloat` reads back as `x`. */
  ghost predicate ReadsBack(show: FloatPrinter, toFloat: FloatParser, x: real) {
    var w := show(x);
    && w != [] && ',' !in w && '\n' !in w && !IsSpace(w[|w| - 1])
    && toFloat(w) == Some(x)
  }

  /** A sample the layout can carry: a one-line name without a comma that
      does not start with whitespace, and three ratios that read back. */
  ghost predicate SampleWritable(s: Sample, show: FloatPrinter, toFloat: FloatParser) {
    && ',' !in s.name && '\n' !in s.name && (s.name == [] || !IsSpace(s.name[0]))
    && ReadsBack(show, toFloat, s.pb206)
    && ReadsBack(show, toFloat, s.pb207)
    && ReadsBack(show, toFloat, s.pb208)
  }

  /** What the layout can express: one-line group names that are non-blank,
      carry no comma and no outer whitespace, holding samples it can carry. */
  ghost predicate Writable(t: Table, show: FloatPrinter, toFloat: FloatParser) {
    && (forall k :: k in t.groups ==> k != [] && ',' !in k && '\n' !in k && !IsSpace(k[0]) && !IsSpace(k[|k| - 1]))
    && (forall k, i :: k in t.groups && 0 <= i < |t.groups[k]| ==> SampleWritable(t.groups[k][i], show, toFloat))
  }

  /** A sample's record line is read back as that sample. */
  lemma SampleLineLoads(s: Sample, show: FloatPrinter, toFloat: FloatParser)
    requires SampleWritable(s, show, toFloat)
    ensures var line := SampleLine(s, show);
      && Strip(line) == line && IsRecord(line)
      && Split(line) == [s.name, show(s.pb206), show(s.pb207), show(s.pb208)]
      && ToSample(Split(line), toFloat) == Success(s)
  {
    var fields := [s.name, show(s.pb206), show(s.pb207), show(s.pb208)];
    var line := Join(fields);
    var last := show(s.pb208);
    assert fields[1..] == [show(s.pb206), show(s.pb207), last];
    assert fields[1..][1..] == [show(s.pb207), last];
    assert fields[1..][1..][1..] == [last];
    assert Join(fields[1..][1..]) == show(s.pb207) + "," + last;
    assert Join(fields[1..]) == show(s.pb206) + "," + (show(s.pb207) + "," + last);
    assert line == s.name + "," + (show(s.pb206) + "," + (show(s.pb207) + "," + last));
    assert line[|s.name|] == ',';
    assert line[0] == if s.name == [] then ',' else s.name[0];
    assert line[|line| - 1] == last[|last| - 1];
    StripUntrimmed(line);
    SplitJoin(fields);
  }

  /** One record line appends its sample to the current group. */
  lemma SampleLineStep(t: Table, k: string, s: Sample, show: FloatPrinter, toFloat: FloatParser)
    requires t.Valid() && k in t.groups
    requires SampleWritable(s, show, toFloat)
    ensures Step(Scan(t, Some(k)), SampleLine(s, show), toFloat) == Success(Scan(t.WithAppended(k, s), Some(k)))
  {
    SampleLineLoads(s, show, toFloat);
  }

  /** Samples the layout can carry. */
  ghost predicate SamplesWritable(samples: seq<Sample>, show: FloatPrinter, toFloat: FloatParser) {
    forall i :: 0 <= i < |samples| ==> SampleWritable(samples[i], show, toFloat)
  }

  /** Concatenation regroups around a last element. */
  lemma ConcatSnoc<T>(a: seq<T>, b: seq<T>, x: T)
    ensures a + (b + [x]) == a + b + [x]
  {
    assert (a + (b + [x]))[..|a + b|] == a + b;
  }

  /** The lines of `samples` after `lines` are those of all but the last
      sample, then the last sample's line. */
  lemma SampleLinesSnoc(lines: seq<string>, samples: seq<Sample>, show: FloatPrinter)
    requires samples != []
    ensures lines + SampleLines(samples, show) ==
            lines + SampleLines(samples[..|samples| - 1], show) + [SampleLine(samples[|samples| - 1], show)]
  {
    var n := |samples| - 1;
    var front, last := SampleLines(samples[..n], show), SampleLine(samples[n], show);
    assert SampleLines(samples, show) == front + [last];
    ConcatSnoc(lines, front, last);
  }

  /** Appending the last sample to a group already holding the others
      gives the group holding all of them. */
  lemma AppendLast(t: Table, k: string, samples: seq<Sample>)
    requires t.Valid() && k in t.groups && samples != []
    ensures Table(t.keys, t.groups[k := t.groups[k] + samples[..|samples| - 1]]).Valid()
    ensures Table(t.keys, t.groups[k := t.groups[k] + samples[..|samples| - 1]]).WithAppended(k, samples[|samples| - 1]) ==
            Table(t.keys, t.groups[k := t.groups[k] + samples])
  {
    var n := |samples| - 1;
    assert samples[..n] + [samples[n]] == samples;
    assert t.groups[k] + samples[..n] + [samples[n]] == t.groups[k] + samples;
  }

  /** A run that reaches group `k`, then the record line of `s`. */
  lemma SampleLineAfter(prefix: seq<string>, t: Table, k: string, s: Sample,
                        show: FloatPrinter, toFloat: FloatParser)
    requires Run(prefix, toFloat) == Success(Scan(t, Some(k)))
    requires SampleWritable(s, show, toFloat)
    ensures t.Valid() && k in t.groups
    ensures Run(prefix + [SampleLine(s, show)], toFloat) == Success(Scan(t.WithAppended(k, s), Some(k)))
  {
    assert Scan(t, Some(k)).Valid();
    SampleLineStep(t, k, s, show, toFloat);
    RunSnoc(prefix, SampleLine(s, show), toFloat);
  }

  /** Record lines of samples after the header of group `k` append them to
      that group, in order. */
  lemma {:induction false} SampleLinesAppend(lines: seq<string>, t: Table, k: string, samples: seq<Sample>,
                                             show: FloatPrinter, toFloat: FloatParser)
    requires t.Valid() && k in t.groups
    requires Run(lines, toFloat) == Success(Scan(t, Some(k)))
    requires SamplesWritable(samples, show, toFloat)
    ensures Run(lines + SampleLines(samples, show), toFloat) ==
            Success(Scan(Table(t.keys, t.groups[k := t.groups[k] + samples]), Some(k)))
    decreases |samples|
  {
    if samples == [] {
      assert lines + SampleLines(samples, show) == lines;
      assert t.groups[k] + samples == t.groups[k];
      assert t.groups[k := t.groups[k] + samples] == t.groups;
    } else {
      var n := |samples| - 1;
      SampleLinesAppend(lines, t, k, samples[..n], show, toFloat);
      SampleLineAfter(lines + SampleLines(samples[..n], show), Table(t.keys, t.groups[k := t.groups[k] + samples[..n]]),
                      k, samples[n], show, toFloat);
      SampleLinesSnoc(lines, samples, show);
      AppendLast(t, k, samples);
    }
  }

  /** A group name written as a header line opens that group, empty. */
  lemma HeaderStep(sc: Scan, k: string, toFloat: FloatParser)
    requires sc.Valid()
    requires k != [] && ',' !in k && !IsSpace(k[0]) && !IsSpace(k[|k| - 1])
    ensures Step(sc, k, toFloat) == Success(Scan(sc.table.WithEmptyGroup(k), Some(k)))
  {
    StripUntrimmed(k);
  }

  /** Loading the file of the first keys `ks` gives those keys, in order,
      with their groups, and the last of them as the current group. */
  ghost predicate LoadedAs(r: Result<Scan, LoadError>, ks: seq<string>, t: Table) {
    && r.Success?
    && r.value.table.keys == ks
    && (forall g :: g in r.value.table.groups <==> g in ks)
    && (forall g :: g in r.value.table.groups ==> g in t.groups && r.value.table.groups[g] == t.groups[g])
    && r.value.current == (if ks == [] then None else Some(ks[|ks| - 1]))
  }

  /** The file of keys `ks` is that of all but the last key, then the last
      key's header and record lines. */
  lemma RenderKeysSnoc(ks: seq<string>, groups: map<string, seq<Sample>>, show: FloatPrinter)
    requires ks != [] && forall i :: 0 <= i < |ks| ==> ks[i] in groups
    ensures RenderKeys(ks, groups, show) ==
            RenderKeys(ks[..|ks| - 1], groups, show) + [ks[|ks| - 1]] + SampleLines(groups[ks[|ks| - 1]], show)
  {
  }

  /** A run that reaches `sc`, then the header line of `k`. */
  lemma HeaderAfter(prefix: seq<string>, sc: Scan, k: string, toFloat: FloatParser)
    requires Run(prefix, toFloat) == Success(sc)
    requires k != [] && ',' !in k && !IsSpace(k[0]) && !IsSpace(k[|k| - 1])
    ensures sc.Valid()
    ensures Run(prefix + [k], toFloat) == Success(Scan(sc.table.WithEmptyGroup(k), Some(k)))
  {
    HeaderStep(sc, k, toFloat);
    RunSnoc(prefix, k, toFloat);
  }

  /** Adding the group of a key new to the loaded keys `ks[..|ks| - 1]`
      gives a scan loaded as `ks`. */
  lemma LoadedAsAdd(sc: Scan, ks: seq<string>, t: Table)
    requires ks != [] && ks[|ks| - 1] in t.groups && ks[|ks| - 1] !in ks[..|ks| - 1]
    requires LoadedAs(Success(sc), ks[..|ks| - 1], t)
    ensures var k := ks[|ks| - 1];
      LoadedAs(Success(Scan(Table(ks, sc.table.groups[k := t.groups[k]]), Some(k))), ks, t)
  {
    var p, k := ks[..|ks| - 1], ks[|ks| - 1];
    assert ks == p + [k];
    var groups := sc.table.groups[k := t.groups[k]];
    forall g
      ensures g in groups <==> g in ks
    {
      assert g in sc.table.groups <==> g in p;
      assert g in ks <==> g in p || g == k;
    }
  }

  /** Emptying group `k`, then appending `samples` to it, leaves it holding
      `samples`. */
  lemma RefillGroup(groups: map<string, seq<Sample>>, k: string, samples: seq<Sample>)
    ensures groups[k := []][k := groups[k := []][k] + samples] == groups[k := samples]
  {
    assert [] + samples == samples;
  }

  /** The scan after the header of the last key of `ks`, new to the keys
      before it, and all of its group's records is loaded as `ks`. */
  lemma LoadedAsSnoc(sc: Scan, ks: seq<string>, t: Table)
    requires ks != [] && ks[|ks| - 1] in t.groups && ks[|ks| - 1] !in ks[..|ks| - 1]
    requires sc.Valid() && LoadedAs(Success(sc), ks[..|ks| - 1], t)
    ensures var k := ks[|ks| - 1];
      var th := sc.table.WithEmptyGroup(k);
      LoadedAs(Success(Scan(Table(th.keys, th.groups[k := th.groups[k] + t.groups[k]]), Some(k))), ks, t)
  {
    var p, k := ks[..|ks| - 1], ks[|ks| - 1];
    var th := sc.table.WithEmptyGroup(k);
    assert th.keys == ks && th.groups[k := th.groups[k] + t.groups[k]] == sc.table.groups[k := t.groups[k]] by {
      assert k !in sc.table.groups;
      assert th == Table(sc.table.keys + [k], sc.table.groups[k := []]);
      assert ks == p + [k];
      RefillGroup(sc.table.groups, k, t.groups[k]);
    }
    LoadedAsAdd(sc, ks, t);
  }

  /** The step of RenderKeysLoads: after the file of all but the last key,
      that key's header and records. */
  lemma RenderKeysLoadsStep(ks: seq<string>, before: seq<string>, sc: Scan, t: Table,
                            show: FloatPrinter, toFloat: FloatParser)
    requires Writable(t, show, toFloat)
    requires ks != [] && ks[|ks| - 1] in t.groups && ks[|ks| - 1] !in ks[..|ks| - 1]
    requires Run(before, toFloat) == Success(sc) && LoadedAs(Success(sc), ks[..|ks| - 1], t)
    ensures LoadedAs(Run(before + [ks[|ks| - 1]] + SampleLines(t.groups[ks[|ks| - 1]], show), toFloat), ks, t)
  {
    var k := ks[|ks| - 1];
    WritableGroup(t, k, show, toFloat);
    HeaderAfter(before, sc, k, toFloat);
    var th := sc.table.WithEmptyGroup(k);
    SampleLinesAppend(before + [k], th, k, t.groups[k], show, toFloat);
    LoadedAsSnoc(sc, ks, t);
  }

  lemma {:induction false} RenderKeysLoads(ks: seq<string>, t: Table, show: FloatPrinter, toFloat: FloatParser)
    requires t.Valid() && Writable(t, show, toFloat)
    requires forall i :: 0 <= i < |ks| ==> ks[i] in t.groups
    requires forall i, j :: 0 <= i < j < |ks| ==> ks[i] != ks[j]
    ensures LoadedAs(Run(RenderKeys(ks, t.groups, show), toFloat), ks, t)
    decreases |ks|
  {
    if ks != [] {
      var n := |ks| - 1;
      var before := RenderKeys(ks[..n], t.groups, show);
      RenderKeysLoads(ks[..n], t, show, toFloat);
      RenderKeysSnoc(ks, t.groups, show);
      assert ks[n] !in ks[..n];
      RenderKeysLoadsStep(ks, before, Run(before, toFloat).value, t, show, toFloat);
    }
  }

  /** What Writable says of one group: its name is a header line as it
      stands, and its samples can be written. */
  lemma WritableGroup(t: Table, k: string, show: FloatPrinter, toFloat: FloatParser)
    requires Writable(t, show, toFloat) && k in t.groups
    ensures k != [] && ',' !in k && !IsSpace(k[0]) && !IsSpace(k[|k| - 1])
    ensures SamplesWritable(t.groups[k], show, toFloat)
  {
  }

  /** Writing a table out and loading it back gives the same table. */
  lemma LoadRender(t: Table, show: FloatPrinter, toFloat: FloatParser)
    requires t.Valid() && Writable(t, show, toFloat)
    ensures Load(Render(t, show), toFloat) == Success(t)
  {
    RenderKeysLoads(t.keys, t, show, toFloat);
    var loaded := Run(Render(t, show), toFloat).value.table;
    assert loaded.groups == t.groups;
  }

  /** A printer writing every number as "1", and a parser reading "1" alone. */
  function ShowOne(x: real): string { "1" }

  function ReadOne(w: string): Option<real> {
    if w == "1" then Some(1.0) else None
  }

  /** The record line of a sample whose ratios are all 1. */
  lemma OneLine(name: string)
    ensures SampleLine(Sample(name, 1.0, 1.0, 1.0), ShowOne) == name + ",1,1,1"
  {
    var fields := [name, "1", "1", "1"];
    assert fields[1..][1..][1..] == ["1"];
    assert Join(fields[1..][1..]) == "1,1";
    assert Join(fields[1..]) == "1,1,1";
  }

  /** The file of a table of one group: its header line, then its record
      lines. */
  lemma RenderSingle(k: string, samples: seq<Sample>, show: FloatPrinter)
    ensures Render(Table([k], map[k := samples]), show) == [k] + SampleLines(samples, show)
  {
    assert [k][..0] == [];
    assert RenderKeys([k], map[k := samples], show) == RenderKeys([], map[k := samples], show) + [k] + SampleLines(samples, show);
  }

  /** The record lines of a single sample: its one line. */
  lemma SampleLinesSingle(s: Sample, show: FloatPrinter)
    ensures SampleLines([s], show) == [SampleLine(s, show)]
  {
    assert [s][..0] == [];
  }

  /** The file of one group holding one sample whose ratios are all 1. */
  lemma RenderOne(k: string, s: Sample)
    requires s == Sample("troilite", 1.0, 1.0, 1.0)
    ensures Render(Table([k], map[k := [s]]), ShowOne) == [k, "troilite,1,1,1"]
  {
    RenderSingle(k, [s], ShowOne);
    SampleLinesSingle(s, ShowOne);
    OneLine("troilite");
    assert "troilite" + ",1,1,1" == "troilite,1,1,1";
  }

  /** A sample whose ratios are all 1 and whose name is a plain word can be
      written with `ShowOne` and read with `ReadOne`. */
  lemma OneSampleWritable(s: Sample)
    requires s == Sample("troilite", 1.0, 1.0, 1.0)
    ensures SampleWritable(s, ShowOne, ReadOne)
  {
    assert ReadsBack(ShowOne, ReadOne, 1.0);
  }

  /** A one-group table whose group name is a plain phrase and whose one
      sample is as in OneSampleWritable can be written out. */
  lemma OneWritable(k: string, s: Sample)
    requires k == "Canyon Diablo" && s == Sample("troilite", 1.0, 1.0, 1.0)
    ensures Writable(Table([k], map[k := [s]]), ShowOne, ReadOne)
  {
    OneSampleWritable(s);
    assert ',' !in k && '\n' !in k && !IsSpace(k[0]) && !IsSpace(k[|k| - 1]);
  }

  /** One group holding one sample whose ratios are all 1: its file is the
      header line and one record line, and that file loads back as it. */
  lemma LoadRenderOne()
    ensures var t := Table(["Canyon Diablo"], map["Canyon Diablo" := [Sample("troilite", 1.0, 1.0, 1.0)]]);
      && Render(t, ShowOne) == ["Canyon Diablo", "troilite,1,1,1"]
      && Load(Render(t, ShowOne), ReadOne) == Success(t)
  {
    var k, s := "Canyon Diablo", Sample("troilite", 1.0, 1.0, 1.0);
    var t := Table([k], map[k := [s]]);
    RenderOne(k, s);
    OneWritable(k, s);
    LoadRender(t, ShowOne, ReadOne);
  }
}
