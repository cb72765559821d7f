/** What `loadData` promises, stated against definitions that look at the
    file as a whole rather than line by line, and proved about `Load`. */
module LoadProperties {
  import opened Wrappers
  import opened Text
  import opened LeadData

  // ---------------------------------------------------------------------
  // Reference definitions over the whole file

  /** Index of the last header line of `lines`, if there is one. */
  function LastHeaderAt(lines: seq<string>): (r: Option<nat>)
    ensures r.Some? ==> r.value < |lines| && IsHeader(lines[r.value])
    ensures r.Some? ==> forall i :: r.value < i < |lines| ==> !IsHeader(lines[i])
    ensures r.None? ==> forall i :: 0 <= i < |lines| ==> !IsHeader(lines[i])
  {
    if lines == [] then None
    else if IsHeader(lines[|lines| - 1]) then Some(|lines| - 1)
    else LastHeaderAt(lines[..|lines| - 1])
  }

  /** The group a record placed after `lines` joins: the text of the last
      header, or none before the first header. */
  function CurrentGroup(lines: seq<string>): Option<string> {
    match LastHeaderAt(lines)
    case Some(j) => Some(Strip(lines[j]))
    case None => None
  }

  /** Index of the last header line of `lines` that names group `k`. */
  function LastHeaderNamed(lines: seq<string>, k: string): (r: Option<nat>)
    ensures r.Some? ==> r.value < |lines| && IsHeader(lines[r.value]) && Strip(lines[r.value]) == k
    ensures r.Some? ==> forall i :: r.value < i < |lines| && IsHeader(lines[i]) ==> Strip(lines[i]) != k
    ensures r.None? ==> forall i :: 0 <= i < |lines| && IsHeader(lines[i]) ==> Strip(lines[i]) != k
  {
    if lines == [] then None
    else if IsHeader(lines[|lines| - 1]) && Strip(lines[|lines| - 1]) == k then Some(|lines| - 1)
    else LastHeaderNamed(lines[..|lines| - 1], k)
  }

  /** Where the section opened by the header at `j` ends: the next header
      line, or the end of the file. */
  function SectionEnd(lines: seq<string>, j: nat): (e: nat)
    requires j < |lines|
    ensures j < e <= |lines|
    ensures e < |lines| ==> IsHeader(lines[e])
    ensures forall i :: j < i < e ==> !IsHeader(lines[i])
  {
    if j == |lines| - 1 then |lines|
    else
      var e := SectionEnd(lines[..|lines| - 1], j);
      if e < |lines| - 1 then e
      else if IsHeader(lines[|lines| - 1]) then |lines| - 1
      else |lines|
  }

  /** The stripped text of the non-blank lines of `lines`, in order. */
  function RecordLines(lines: seq<string>): (r: seq<string>)
    ensures |r| <= |lines|
  {
    if lines == [] then []
    else RecordLines(lines[..|lines| - 1]) + (if IsBlank(lines[|lines| - 1]) then [] else [Strip(lines[|lines| - 1])])
  }

  /** The record lines of the section opened by the header at `j`. */
  function SectionRecords(lines: seq<string>, j: nat): seq<string>
    requires j < |lines|
  {
    RecordLines(lines[j + 1..SectionEnd(lines, j)])
  }

  /** The sample a stripped record line stands for, if it has four fields
      and `float` accepts its three ratios. */
  function RecordSample(line: string, toFloat: FloatParser): Option<Sample> {
    var fields := Split(line);
    if |fields| != 4 then None
    else
      match ToSample(fields, toFloat)
      case Success(s) => Some(s)
      case Failure(_) => None
  }

  /** `samples` are the samples of `recs`, one for one and in order (see
      SamplesOfAt). */
  ghost predicate SamplesOf(samples: seq<Sample>, recs: seq<string>, toFloat: FloatParser)
    decreases |recs|
  {
    && |samples| == |recs|
    && (recs != [] ==>
          && RecordSample(recs[|recs| - 1], toFloat) == Some(samples[|samples| - 1])
          && SamplesOf(samples[..|samples| - 1], recs[..|recs| - 1], toFloat))
  }

  /** SamplesOf read index by index. */
  lemma {:induction false} SamplesOfAt(samples: seq<Sample>, recs: seq<string>, toFloat: FloatParser)
    ensures SamplesOf(samples, recs, toFloat) <==>
      |samples| == |recs| && forall i :: 0 <= i < |recs| ==> RecordSample(recs[i], toFloat) == Some(samples[i])
    decreases |recs|
  {
    if recs != [] && |samples| == |recs| {
      var n := |recs| - 1;
      var samples', recs' := samples[..n], recs[..n];
      SamplesOfAt(samples', recs', toFloat);
      assert forall i :: 0 <= i < n ==> recs'[i] == recs[i] && samples'[i] == samples[i];
    }
  }

  /** Group `k` holds the records of the section after the last header
      naming `k`, up to the next header. */
  ghost predicate HoldsLastSection(lines: seq<string>, t: Table, k: string, toFloat: FloatParser) {
    && (k in t.groups <==> LastHeaderNamed(lines, k).Some?)
    && (k in t.groups ==>
          var j := LastHeaderNamed(lines, k).value;
          SamplesOf(t.groups[k], SectionRecords(lines, j), toFloat))
  }

  /** The header texts of `lines`, in file order, repeats included. */
  function HeaderNames(lines: seq<string>): seq<string> {
    if lines == [] then []
    else HeaderNames(lines[..|lines| - 1]) + (if IsHeader(lines[|lines| - 1]) then [Strip(lines[|lines| - 1])] else [])
  }

  /** `s` with every element after its first occurrence dropped. */
  function Dedup(s: seq<string>): (r: seq<string>)
    ensures forall i, j :: 0 <= i < j < |r| ==> r[i] != r[j]
    ensures forall x :: x in r <==> x in s
  {
    if s == [] then []
    else
      var d := Dedup(s[..|s| - 1]);
      if s[|s| - 1] in d then d else d + [s[|s| - 1]]
  }

  /** Line `i` raises nothing: it is no record, or it is a record after some
      header, with four fields whose ratios `float` accepts. */
  ghost predicate LineLoads(lines: seq<string>, i: nat, toFloat: FloatParser)
    requires i < |lines|
  {
    IsRecord(lines[i]) ==> CurrentGroup(lines[..i]).Some? && RecordSample(Strip(lines[i]), toFloat).Some?
  }

  // ---------------------------------------------------------------------
  // Facts about the fold

  /** The fold's `dataType` is the text of the last header seen. */
  lemma {:induction false} RunTracksCurrentGroup(lines: seq<string>, toFloat: FloatParser)
    requires Run(lines, toFloat).Success?
    ensures Run(lines, toFloat).value.current == CurrentGroup(lines)
    decreases |lines|
  {
    if lines != [] {
      RunTracksCurrentGroup(lines[..|lines| - 1], toFloat);
    }
  }

  /** One line raises exactly when it is a record and there is no current
      group or it does not make a sample. */
  lemma StepSucceedsIff(sc: Scan, x: string, toFloat: FloatParser)
    requires sc.Valid()
    ensures Step(sc, x, toFloat).Success? <==>
      (IsRecord(x) ==> sc.current.Some? && RecordSample(Strip(x), toFloat).Some?)
  {
  }

  // ---------------------------------------------------------------------
  // Blank lines

  lemma {:induction false} BlankLineIgnoredInRun(a: seq<string>, b: string, c: seq<string>, toFloat: FloatParser)
    requires IsBlank(b)
    ensures Run(a + [b] + c, toFloat) == Run(a + c, toFloat)
    decreases |c|
  {
    if c == [] {
      assert a + [b] + c == a + [b];
      assert a + c == a;
      RunSnoc(a, b, toFloat);
    } else {
      var c', x := c[..|c| - 1], c[|c| - 1];
      assert a + [b] + c == (a + [b] + c') + [x];
      assert a + c == (a + c') + [x];
      BlankLineIgnoredInRun(a, b, c', toFloat);
      RunSnoc(a + [b] + c', x, toFloat);
      RunSnoc(a + c', x, toFloat);
    }
  }

  /** A blank or whitespace-only line inserted anywhere changes nothing:
      same dictionary, or same exception. */
  lemma BlankLineIgnored(lines: seq<string>, i: nat, b: string, toFloat: FloatParser)
    requires i <= |lines|
    requires forall n :: 0 <= n < |b| ==> IsSpace(b[n])
    ensures Load(lines[..i] + [b] + lines[i..], toFloat) == Load(lines, toFloat)
  {
    assert lines[..i] + lines[i..] == lines;
    assert IsBlank(b) by {
      StripEmptyIff(b);
    }
    BlankLineIgnoredInRun(lines[..i], b, lines[i..], toFloat);
  }

  // ---------------------------------------------------------------------
  // One more line

  /** A header line makes its stripped text the current group and sets that
      group to an empty list (a repeated name loses its earlier records but
      keeps its place in the key order); no other group changes. */
  lemma HeaderLineResetsGroup(lines: seq<string>, h: string, toFloat: FloatParser)
    requires Load(lines, toFloat).Success?
    requires IsHeader(h)
    ensures Load(lines + [h], toFloat) == Success(Load(lines, toFloat).value.WithEmptyGroup(Strip(h)))
    ensures CurrentGroup(lines + [h]) == Some(Strip(h))
  {
    assert (lines + [h])[..|lines|] == lines;
  }

  /** A record line after a header appends exactly its sample at the end of
      the current group; the keys, their order and the other groups stay. */
  lemma RecordLineAppends(lines: seq<string>, r: string, toFloat: FloatParser)
    requires Load(lines, toFloat).Success?
    requires IsRecord(r) && CurrentGroup(lines).Some?
    requires RecordSample(Strip(r), toFloat).Some?
    ensures Load(lines + [r], toFloat).Success?
    ensures var t, t', c, s := Load(lines, toFloat).value, Load(lines + [r], toFloat).value,
                               CurrentGroup(lines).value, RecordSample(Strip(r), toFloat).value;
      && t'.keys == t.keys
      && c in t.groups && c in t'.groups && t'.groups[c] == t.groups[c] + [s]
      && (forall g :: g in t'.groups <==> g in t.groups)
      && (forall g :: g != c && g in t.groups ==> t'.groups[g] == t.groups[g])
  {
    RunTracksCurrentGroup(lines, toFloat);
    assert (lines + [r])[..|lines|] == lines;
  }

  // ---------------------------------------------------------------------
  // Errors

  /** A record line that does not split into exactly four fields raises; it
      is not skipped. */
  lemma WrongFieldCountFails(lines: seq<string>, i: nat, toFloat: FloatParser)
    requires i < |lines| && Load(lines[..i], toFloat).Success?
    requires IsRecord(lines[i]) && |Split(Strip(lines[i]))| != 4
    ensures Load(lines, toFloat) == Failure(FieldCount(Strip(lines[i]), |Split(Strip(lines[i]))|))
  {
    assert lines[..i + 1][..i] == lines[..i];
    FailureSticks(lines, i + 1, toFloat);
  }

  lemma {:induction false} BlankPrefixLoadsEmpty(lines: seq<string>, toFloat: FloatParser)
    requires forall j :: 0 <= j < |lines| ==> IsBlank(lines[j])
    ensures Run(lines, toFloat) == Success(Scan(EmptyTable, None))
    decreases |lines|
  {
    if lines != [] {
      BlankPrefixLoadsEmpty(lines[..|lines| - 1], toFloat);
    }
  }

  /** The first non-blank line being a record makes loading raise on it:
      on the unpack if it has the wrong field count, else on the unset
      `dataType`. */
  lemma FirstLineRecordFails(lines: seq<string>, i: nat, toFloat: FloatParser)
    requires i < |lines| && IsRecord(lines[i])
    requires forall j :: 0 <= j < i ==> IsBlank(lines[j])
    ensures var line := Strip(lines[i]);
      Load(lines, toFloat) ==
        Failure(if |Split(line)| != 4 then FieldCount(line, |Split(line)|) else NoCurrentGroup(line))
  {
    BlankPrefixLoadsEmpty(lines[..i], toFloat);
    assert lines[..i + 1][..i] == lines[..i];
    FailureSticks(lines, i + 1, toFloat);
  }

  /** Whether an earlier line loads does not depend on the lines after it. */
  lemma LineLoadsInPrefix(lines: seq<string>, n: nat, i: nat, toFloat: FloatParser)
    requires i < n <= |lines|
    ensures LineLoads(lines, i, toFloat) == LineLoads(lines[..n], i, toFloat)
  {
    assert lines[..n][..i] == lines[..i];
  }

  /** The file loads exactly when every line loads: each record comes after
      some header, has four fields, and `float` accepts its ratios. */
  lemma {:induction false} LoadSucceedsIff(lines: seq<string>, toFloat: FloatParser)
    ensures Load(lines, toFloat).Success? <==> forall i :: 0 <= i < |lines| ==> LineLoads(lines, i, toFloat)
    decreases |lines|
  {
    if lines != [] {
      var n := |lines| - 1;
      var p, x := lines[..n], lines[n];
      assert lines == p + [x];
      LoadSucceedsIff(p, toFloat);
      assert (forall i :: 0 <= i < |lines| ==> LineLoads(lines, i, toFloat)) <==>
             (forall i :: 0 <= i < n ==> LineLoads(p, i, toFloat)) && LineLoads(lines, n, toFloat) by {
        forall i | 0 <= i < n
          ensures LineLoads(lines, i, toFloat) == LineLoads(p, i, toFloat)
        {
          LineLoadsInPrefix(lines, n, i, toFloat);
        }
      }
      RunSnoc(p, x, toFloat);
      match Run(p, toFloat)
      case Success(sc) =>
        assert Step(sc, x, toFloat).Success? <==> LineLoads(lines, n, toFloat) by {
          RunTracksCurrentGroup(p, toFloat);
          StepSucceedsIff(sc, x, toFloat);
        }
      case Failure(_) =>
    }
  }

  /** A record line with no header anywhere before it makes loading raise. */
  lemma RecordBeforeHeaderFails(lines: seq<string>, i: nat, toFloat: FloatParser)
    requires i < |lines| && IsRecord(lines[i])
    requires forall j :: 0 <= j < i ==> !IsHeader(lines[j])
    ensures Load(lines, toFloat).Failure?
  {
    LoadSucceedsIff(lines, toFloat);
    assert !LineLoads(lines, i, toFloat) by {
      assert LastHeaderAt(lines[..i]).None?;
    }
  }

  // ---------------------------------------------------------------------
  // The whole table

  /** The keys are the header texts in order of first appearance, each once. */
  lemma {:induction false} KeysInHeaderOrder(lines: seq<string>, toFloat: FloatParser)
    requires Load(lines, toFloat).Success?
    ensures Load(lines, toFloat).value.keys == Dedup(HeaderNames(lines))
    ensures forall k :: k in Load(lines, toFloat).value.groups <==> k in HeaderNames(lines)
    decreases |lines|
  {
    if lines != [] {
      var n := |lines| - 1;
      var p, x := lines[..n], lines[n];
      KeysInHeaderOrder(p, toFloat);
      var t, t' := Run(p, toFloat).value.table, Load(lines, toFloat).value;
      if IsHeader(x) {
        var names := HeaderNames(lines);
        assert names == HeaderNames(p) + [Strip(x)];
        assert names[..|names| - 1] == HeaderNames(p);
        assert t' == t.WithEmptyGroup(Strip(x));
      } else {
        assert HeaderNames(lines) == HeaderNames(p);
        assert t'.keys == t.keys && t'.groups.Keys == t.groups.Keys;
      }
    }
  }

  /** A line appended to the file leaves a section's records as they were,
      unless the section is the one still open and the line is a record. */
  lemma SectionRecordsKept(lines: seq<string>, j: nat)
    requires j < |lines| - 1
    requires SectionEnd(lines[..|lines| - 1], j) < |lines| - 1 || !IsRecord(lines[|lines| - 1])
    ensures SectionRecords(lines, j) == SectionRecords(lines[..|lines| - 1], j)
  {
    var n := |lines| - 1;
    var p := lines[..n];
    var e := SectionEnd(p, j);
    if e < n {
      assert SectionEnd(lines, j) == e;
      assert lines[j + 1..e] == p[j + 1..e];
    } else if IsHeader(lines[n]) {
      assert SectionEnd(lines, j) == n;
      assert lines[j + 1..n] == p[j + 1..n];
    } else {
      assert SectionEnd(lines, j) == |lines|;
      var sec := lines[j + 1..];
      assert sec == lines[j + 1..SectionEnd(lines, j)];
      assert sec[..|sec| - 1] == p[j + 1..] == p[j + 1..SectionEnd(p, j)];
      assert sec[|sec| - 1] == lines[n] && IsBlank(lines[n]);
      assert RecordLines(sec) == RecordLines(p[j + 1..]) + [];
    }
  }

  /** A record line appended to the file joins the section still open. */
  lemma SectionRecordsGrow(lines: seq<string>, j: nat)
    requires j < |lines| - 1
    requires SectionEnd(lines[..|lines| - 1], j) == |lines| - 1 && IsRecord(lines[|lines| - 1])
    ensures SectionRecords(lines, j) == SectionRecords(lines[..|lines| - 1], j) + [Strip(lines[|lines| - 1])]
  {
    var n := |lines| - 1;
    var p := lines[..n];
    assert SectionEnd(lines, j) == |lines|;
    var sec := lines[j + 1..];
    assert sec == lines[j + 1..SectionEnd(lines, j)];
    assert sec[..|sec| - 1] == p[j + 1..] == p[j + 1..SectionEnd(p, j)];
    assert sec[|sec| - 1] == lines[n] && !IsBlank(lines[n]);
  }

  /** A blank line keeps every group's section. */
  lemma BlankLineKeepsSections(lines: seq<string>, k: string, toFloat: FloatParser)
    requires lines != [] && IsBlank(lines[|lines| - 1])
    requires Run(lines[..|lines| - 1], toFloat).Success?
    requires HoldsLastSection(lines[..|lines| - 1], Run(lines[..|lines| - 1], toFloat).value.table, k, toFloat)
    ensures HoldsLastSection(lines, Load(lines, toFloat).value, k, toFloat)
  {
    var n := |lines| - 1;
    var p := lines[..n];
    var t := Run(p, toFloat).value.table;
    assert Load(lines, toFloat).value == t;
    assert LastHeaderNamed(lines, k) == LastHeaderNamed(p, k);
    if k in t.groups {
      SectionRecordsKept(lines, LastHeaderNamed(p, k).value);
    }
  }

  /** A header line opens an empty section for its group and closes the
      section that was open; every other group keeps its section. */
  lemma HeaderLineKeepsSections(lines: seq<string>, k: string, toFloat: FloatParser)
    requires lines != [] && IsHeader(lines[|lines| - 1])
    requires Run(lines[..|lines| - 1], toFloat).Success?
    requires HoldsLastSection(lines[..|lines| - 1], Run(lines[..|lines| - 1], toFloat).value.table, k, toFloat)
    ensures HoldsLastSection(lines, Load(lines, toFloat).value, k, toFloat)
  {
    var n := |lines| - 1;
    var p, line := lines[..n], Strip(lines[n]);
    var t := Run(p, toFloat).value.table;
    assert Load(lines, toFloat).value == t.WithEmptyGroup(line);
    if k == line {
      assert LastHeaderNamed(lines, k) == Some(n);
      assert SectionRecords(lines, n) == [];
    } else {
      assert LastHeaderNamed(lines, k) == LastHeaderNamed(p, k);
      if k in t.groups {
        SectionRecordsKept(lines, LastHeaderNamed(p, k).value);
      }
    }
  }

  /** The last header of `lines` is the last one naming its group; the last
      header naming any other group comes before it. */
  lemma LastHeaderOpensCurrent(lines: seq<string>, k: string)
    requires LastHeaderAt(lines).Some?
    ensures var j := LastHeaderAt(lines).value;
      && (k == Strip(lines[j]) ==> LastHeaderNamed(lines, k) == Some(j))
      && (k != Strip(lines[j]) && LastHeaderNamed(lines, k).Some? ==> LastHeaderNamed(lines, k).value < j)
  {
    var j := LastHeaderAt(lines).value;
    var r := LastHeaderNamed(lines, k);
    if k == Strip(lines[j]) {
      assert r.Some?;
      assert !(r.value < j);
      assert !(r.value > j);
    } else if r.Some? {
      assert r.value != j;
      assert !(r.value > j);
    }
  }

  /** A record line that loads extends the section of the current group,
      which is the one still open; every other section is closed already. */
  lemma RecordLineKeepsSections(lines: seq<string>, k: string, toFloat: FloatParser)
    requires lines != [] && IsRecord(lines[|lines| - 1])
    requires Load(lines, toFloat).Success?
    requires HoldsLastSection(lines[..|lines| - 1], Run(lines[..|lines| - 1], toFloat).value.table, k, toFloat)
    ensures HoldsLastSection(lines, Load(lines, toFloat).value, k, toFloat)
  {
    var n := |lines| - 1;
    var p := lines[..n];
    var sc := Run(p, toFloat).value;
    RunTracksCurrentGroup(p, toFloat);
    var c := sc.current.value;
    var jc := LastHeaderAt(p).value;
    assert Strip(p[jc]) == c;
    assert LastHeaderNamed(lines, k) == LastHeaderNamed(p, k);
    LastHeaderOpensCurrent(p, k);
    if k == c {
      SectionRecordsGrow(lines, jc);
    } else if k in sc.table.groups {
      SectionRecordsKept(lines, LastHeaderNamed(p, k).value);
    }
  }

  /** After loading, the group named `k` exists exactly when some header
      names `k`, and it holds exactly the records that follow the last such
      header and precede the next header, in file order. */
  lemma {:induction false} GroupIsLastSection(lines: seq<string>, k: string, toFloat: FloatParser)
    requires Load(lines, toFloat).Success?
    ensures HoldsLastSection(lines, Load(lines, toFloat).value, k, toFloat)
    decreases |lines|
  {
    if lines != [] {
      var p, x := lines[..|lines| - 1], lines[|lines| - 1];
      GroupIsLastSection(p, k, toFloat);
      if IsBlank(x) {
        BlankLineKeepsSections(lines, k, toFloat);
      } else if IsHeader(x) {
        HeaderLineKeepsSections(lines, k, toFloat);
      } else {
        RecordLineKeepsSections(lines, k, toFloat);
      }
    }
  }

  /** GroupIsLastSection read record by record: group `k` has one sample for
      each record line of its last section, the i-th sample coming from the
      i-th record line. */
  lemma GroupHoldsItsRecords(lines: seq<string>, k: string, toFloat: FloatParser)
    requires Load(lines, toFloat).Success? && k in Load(lines, toFloat).value.groups
    ensures LastHeaderNamed(lines, k).Some?
    ensures && LastHeaderNamed(lines, k).Some?
            && var g, recs := Load(lines, toFloat).value.groups[k], SectionRecords(lines, LastHeaderNamed(lines, k).value);
            && |g| == |recs|
            && forall i :: 0 <= i < |recs| ==> RecordSample(recs[i], toFloat) == Some(g[i])
  {
    GroupIsLastSection(lines, k, toFloat);
    var j := LastHeaderNamed(lines, k).value;
    SamplesOfAt(Load(lines, toFloat).value.groups[k], SectionRecords(lines, j), toFloat);
  }
}
