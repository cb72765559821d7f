/** `loadData` itself: the loop over the file's lines that fills the
    dictionary in place, proved to compute `Load`. */
module LeadLoader {
  import opened Wrappers
  import opened Text
  import opened LeadData

  /** The dictionary `leadData`, updated in place: its key order and its
      map from group name to the list of samples. */
  class LeadDict {
    var keys: seq<string>
    var groups: map<string, seq<Sample>>

    /** The dictionary's value. */
    function Model(): Table
      reads this
    {
      Table(keys, groups)
    }

    ghost predicate Valid()
      reads this
    {
      Model().Valid()
    }

    /** `leadData = {}`. */
    constructor ()
      ensures Valid() && Model() == EmptyTable
    {
      keys := [];
      groups := map[];
    }

    /** `leadData[k] = []`. */
    method ResetGroup(k: string)
      requires Valid()
      modifies this
      ensures Valid() && Model() == old(Model()).WithEmptyGroup(k)
    {
      if k !in groups {
        keys := keys + [k];
      }
      groups := groups[k := []];
    }

    /** `leadData[k].append(s)`. */
    method Append(k: string, s: Sample)
      requires Valid() && k in groups
      modifies this
      ensures Valid() && Model() == old(Model()).WithAppended(k, s)
    {
      groups := groups[k := groups[k] + [s]];
    }
  }

  /** One pass of the loop body of `loadData` on the raw line `raw`, with
      `dataType` the current group: the new current group, or the error the
      line raises. The dictionary changes exactly as `Step` says. */
  method LoadLine(leadData: LeadDict, dataType: Option<string>, raw: string, toFloat: FloatParser)
      returns (next: Result<Option<string>, LoadError>)
    requires leadData.Valid() && Scan(leadData.Model(), dataType).Valid()
    modifies leadData
    ensures next.Success? ==>
      && leadData.Valid()
      && Step(Scan(old(leadData.Model()), dataType), raw, toFloat) == Success(Scan(leadData.Model(), next.value))
    ensures next.Failure? ==>
      && leadData.Valid() && leadData.Model() == old(leadData.Model())
      && Step(Scan(old(leadData.Model()), dataType), raw, toFloat) == Failure(next.error)
  {
    var line := Strip(raw);
    if line == [] {
      // blank line: skipped
      return Success(dataType);
    } else if ',' !in line {
      leadData.ResetGroup(line);
      return Success(Some(line));
    }
    var fields := Split(line);
    if |fields| != 4 {
      return Failure(FieldCount(line, |fields|));
    }
    if dataType.None? {
      return Failure(NoCurrentGroup(line));
    }
    var sample := ToSample(fields, toFloat);
    if sample.Failure? {
      return Failure(sample.error);
    }
    leadData.Append(dataType.value, sample.value);
    return Success(dataType);
  }

  /** `loadData` on a file whose lines are `lines`: the filled dictionary, or
      the error of the first line that raises. */
  method LoadData(lines: seq<string>, toFloat: FloatParser) returns (r: Result<LeadDict, LoadError>)
    ensures r.Success? <==> Load(lines, toFloat).Success?
    ensures r.Success? ==> fresh(r.value) && r.value.Valid() && r.value.Model() == Load(lines, toFloat).value
    ensures r.Failure? ==> Load(lines, toFloat) == Failure(r.error)
  {
    var leadData := new LeadDict();
    var dataType: Option<string> := None;
    var i := 0;
    while i < |lines|
      invariant 0 <= i <= |lines|
      invariant fresh(leadData) && leadData.Valid()
      invariant Run(lines[..i], toFloat) == Success(Scan(leadData.Model(), dataType))
    {
      RunSnoc(lines[..i], lines[i], toFloat);
      assert lines[..i + 1] == lines[..i] + [lines[i]];
      var next := LoadLine(leadData, dataType, lines[i], toFloat);
      if next.Failure? {
        r := Failure(next.error);
        FailureSticks(lines, i + 1, toFloat);
        return;
      }
      dataType := next.value;
      i := i + 1;
    }
    assert lines[..i] == lines;
    r := Success(leadData);
  }
}
