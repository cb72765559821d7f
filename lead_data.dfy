/** The lead-isotope table `loadData` builds, and the line-by-line fold that
    specifies it. */
module LeadData {
  import opened Wrappers
  import opened Text

  /** One measured sample: `(name, pb206, pb207, pb208)`, the three ratios
      being over Pb-204. The ratios are whatever `float` made of their text. */
  datatype Sample = Sample(name: string, pb206: real, pb207: real, pb208: real)

  /** Python's `float` on a field's text: a number, or `None` where it raises
      `ValueError`. The model never computes with the numbers. */
  type FloatParser = string -> Option<real>

  /** The dictionary `leadData`: `keys` is its key order (first insertion) and
      `groups` maps each group name to its list of samples. */
  datatype Table = Table(keys: seq<string>, groups: map<string, seq<Sample>>) {

    /** Keys are listed once each, and exactly the keys of the map are listed. */
    ghost predicate Valid() {
      && (forall i, j :: 0 <= i < j < |keys| ==> keys[i] != keys[j])
      && (forall k :: k in groups <==> k in keys)
    }

    /** `leadData[k] = []`: group `k` becomes empty; a new key goes last, an
        existing key keeps its place; every other group is untouched. */
    function WithEmptyGroup(k: string): (t: Table)
      requires Valid()
      ensures t.Valid()
      ensures k in t.groups && t.groups[k] == []
      ensures forall g :: g != k ==> (g in t.groups <==> g in groups)
      ensures forall g :: g != k && g in groups ==> t.groups[g] == groups[g]
      ensures k in groups ==> t.keys == keys
      ensures k !in groups ==> t.keys == keys + [k]
    {
      Table(if k in groups then keys else keys + [k], groups[k := []])
    }

    /** `leadData[k].append(s)`: `s` goes at the end of group `k`; keys, their
        order and every other group are untouched. */
    function WithAppended(k: string, s: Sample): (t: Table)
      requires Valid() && k in groups
      ensures t.Valid() && t.keys == keys
      ensures k in t.groups && t.groups[k] == groups[k] + [s]
      ensures forall g :: g in t.groups <==> g in groups
      ensures forall g :: g != k && g in groups ==> t.groups[g] == groups[g]
    {
      Table(keys, groups[k := groups[k] + [s]])
    }
  }

  /** The empty dictionary `leadData = {}`. */
  const EmptyTable: Table := Table([], map[])

  /** Why `loadData` raises. */
  datatype LoadError =
    /** `name, pb206, pb207, pb208 = line.split(',')` got another number of
        fields than four (ValueError). */
    | FieldCount(line: string, fields: nat)
    /** `leadData[dataType]` read `dataType` before any header assigned it
        (UnboundLocalError). */
    | NoCurrentGroup(line: string)
    /** `float(...)` refused the text of a ratio field (ValueError). */
    | NotAFloat(field: string)

  /** The loop's state between two lines: the dictionary and `dataType`, the
      current group, which is unset until the first header. */
  datatype Scan = Scan(table: Table, current: Option<string>) {
    ghost predicate Valid() {
      table.Valid() && (current.Some? ==> current.value in table.groups)
    }
  }

  /** A line that strips to nothing: skipped. */
  predicate IsBlank(line: string) {
    Strip(line) == []
  }

  /** A line whose stripped text holds no comma: a group header. */
  predicate IsHeader(line: string) {
    Strip(line) != [] && ',' !in Strip(line)
  }

  /** A line whose stripped text holds a comma: a sample record. */
  predicate IsRecord(line: string) {
    ',' in Strip(line)
  }

  /** The tuple built from four fields: the name as it is, then `float` of the
      three ratios, which Python evaluates left to right, so the first field
      `float` refuses is the one reported. */
  function ToSample(fields: seq<string>, toFloat: FloatParser): (r: Result<Sample, LoadError>)
    requires |fields| == 4
    ensures r.Success? <==> toFloat(fields[1]).Some? && toFloat(fields[2]).Some? && toFloat(fields[3]).Some?
    ensures r.Success? ==> r.value == Sample(fields[0], toFloat(fields[1]).value, toFloat(fields[2]).value, toFloat(fields[3]).value)
    ensures r.Failure? ==> exists i :: 1 <= i <= 3 && r.error == NotAFloat(fields[i]) && toFloat(fields[i]).None? &&
                                    forall j :: 1 <= j < i ==> toFloat(fields[j]).Some?
  {
    match toFloat(fields[1])
    case None => Failure(NotAFloat(fields[1]))
    case Some(pb206) =>
      match toFloat(fields[2])
      case None => Failure(NotAFloat(fields[2]))
      case Some(pb207) =>
        match toFloat(fields[3])
        case None => Failure(NotAFloat(fields[3]))
        case Some(pb208) => Success(Sample(fields[0], pb206, pb207, pb208))
  }

  /** One pass of the loop body of `loadData` on one raw line. */
  function Step(sc: Scan, raw: string, toFloat: FloatParser): (r: Result<Scan, LoadError>)
    requires sc.Valid()
    ensures r.Success? ==> r.value.Valid()
  {
    var line := Strip(raw);
    if line == [] then Success(sc)
    else if ',' !in line then Success(Scan(sc.table.WithEmptyGroup(line), Some(line)))
    else
      var fields := Split(line);
      if |fields| != 4 then Failure(FieldCount(line, |fields|))
      else match sc.current
        case None => Failure(NoCurrentGroup(line))
        case Some(g) =>
          match ToSample(fields, toFloat)
          case Failure(e) => Failure(e)
          case Success(s) => Success(Scan(sc.table.WithAppended(g, s), sc.current))
  }

  /** The loop after it has consumed `lines`, in order, from the empty
      dictionary; the first line that raises stops it. */
  function Run(lines: seq<string>, toFloat: FloatParser): (r: Result<Scan, LoadError>)
    ensures r.Success? ==> r.value.Valid()
  {
    if lines == [] then Success(Scan(EmptyTable, None))
    else
      match Run(lines[..|lines| - 1], toFloat)
      case Failure(e) => Failure(e)
      case Success(sc) => Step(sc, lines[|lines| - 1], toFloat)
  }

  /** `loadData` on a file whose lines are `lines`: the dictionary, or the
      exception it raises. */
  function Load(lines: seq<string>, toFloat: FloatParser): (r: Result<Table, LoadError>)
    ensures r.Success? ==> r.value.Valid()
  {
    match Run(lines, toFloat)
    case Success(sc) => Success(sc.table)
    case Failure(e) => Failure(e)
  }

  /** Run on one more line: the previous error, or one more step. */
  lemma RunSnoc(lines: seq<string>, x: string, toFloat: FloatParser)
    ensures Run(lines + [x], toFloat) ==
      match Run(lines, toFloat)
      case Failure(e) => Failure(e)
      case Success(sc) => Step(sc, x, toFloat)
  {
    assert (lines + [x])[..|lines|] == lines;
  }

  /** Once a prefix of the file raises, the whole file raises the same. */
  lemma {:induction false} FailureSticks(lines: seq<string>, n: nat, toFloat: FloatParser)
    requires n <= |lines| && Run(lines[..n], toFloat).Failure?
    ensures Run(lines, toFloat) == Run(lines[..n], toFloat)
    decreases |lines|
  {
    if n < |lines| {
      var p := lines[..|lines| - 1];
      assert p[..n] == lines[..n];
      FailureSticks(p, n, toFloat);
    } else {
      assert lines[..n] == lines;
    }
  }
}
