# Lead-isotope data loader and point pooling

A Dafny model of the discrete core of `lead_geochron.py`, the script that
estimates the age of the Earth from meteorite and terrestrial lead isotope
ratios:

- `loadData` reads a text file line by line. A line that strips to nothing
  is skipped. A stripped line without a comma is a group header: it becomes
  the current group (`dataType`) and its list in the dictionary `leadData`
  is set to `[]`. Any other line is a record `name, pb206, pb207, pb208`
  whose tuple, with the three ratios passed through `float`, is appended to
  the current group's list. Wrong field counts, records before any header
  and text `float` refuses raise.
- The first loop of `plotData` turns each group into its `(pb206, pb207)`
  pairs, unzips them with `zip(*xy)` and extends the pooled lists `allX` and
  `allY` that the regression is fitted to.

Modules:

- `Text` (text.dfy): Python 2 `str.strip()` and `str.split(',')`, with their
  shape lemmas and the split/join round trip.
- `LeadData` (lead_data.dfy): samples, the ordered dictionary as a value
  (`Table`: key order plus map), the errors, and `Step`/`Run`/`Load`, the
  loop written as a fold over the lines. This fold is the specification
  that the imperative loader is proved against.
- `LeadLoader` (loader.dfy): the dictionary as a class (`LeadDict`) that
  is updated in place, and `LoadData`, the loop itself. `LoadData` is
  proved to return exactly what `Load` describes.
- `LoadProperties` (load_properties.dfy): what loading promises. Blank
  lines are ignored. Headers reset their group. Records append one
  sample. Each error has an exact condition. Keys come in header order.
  Every group holds exactly the records of its last section.
- `Pooling` (pooling.dfy): the pooling loop as a method (`PoolPoints`)
  over a `LeadDict`, proved equal to the fold `Pool`. Lemmas give the
  lengths and entries of `allX`/`allY`, the failure on an empty group, and
  independence from dictionary order.
- `LoadRoundTrip` (round_trip.dfy): writing a table out in the file layout
  and loading it back gives the same table. The file is taken as the
  sequence of its lines, and no name or number text may hold a line break.
  The result holds when every ratio in the table is written as a text that
  `float` reads back as that ratio. `LoadRenderOne` gives a table, a
  printer and a parser that meet this.

Two behaviours of `loadData` worth noting:

- `float` is applied with no further check, so a negative ratio is
  accepted.
- A header naming an existing group does not start a new group. It empties
  the existing one, which keeps its place in the key order.

## Model

| member | source | states |
|---|---|---|
| Text.StripShape | whatisnuclear/age_of_earth/lead_geochron.py:37 | `strip()` returns the infix of the line left after cutting whitespace from both ends: everything cut is whitespace, and what is left neither starts nor ends with whitespace |
| Text.StripEmptyIff | whatisnuclear/age_of_earth/lead_geochron.py:37-39 | a line is skipped by `if not line` exactly when every character of it is whitespace |
| Text.StripIdempotent | whatisnuclear/age_of_earth/lead_geochron.py:37 | stripping an already stripped line changes nothing |
| Text.StripKeepsCommas | whatisnuclear/age_of_earth/lead_geochron.py:41 | the stripped line holds a comma exactly when the raw line does, so the header/record test does not depend on the stripping |
| Text.StripUntrimmed | whatisnuclear/age_of_earth/lead_geochron.py:37 | a line that neither starts nor ends with whitespace strips to itself |
| Text.Split | whatisnuclear/age_of_earth/lead_geochron.py:45 | `split(',')` gives one more field than the line has commas, no field holds a comma, and joining the fields with commas gives back the line |
| Text.SplitJoin | whatisnuclear/age_of_earth/lead_geochron.py:45 | splitting undoes joining for comma-free fields (the other half of the round trip) |
| LeadData.Table.WithEmptyGroup | whatisnuclear/age_of_earth/lead_geochron.py:43 | `leadData[k] = []`: group `k` becomes empty; a new key goes last and an existing key keeps its place; every other group and its list are untouched; the dictionary stays well formed |
| LeadData.Table.WithAppended | whatisnuclear/age_of_earth/lead_geochron.py:46 | `leadData[k].append(s)`: `s` goes at the end of group `k`; keys, their order and every other group are untouched |
| LeadData.ToSample | whatisnuclear/age_of_earth/lead_geochron.py:46 | the tuple is built exactly when `float` accepts all three ratio fields, and then holds the name and the three values; otherwise the error names the first field `float` refuses, in evaluation order |
| LeadData.Step | whatisnuclear/age_of_earth/lead_geochron.py:37-46 | one pass of the loop body keeps the state well formed: distinct keys, key list and map agree, and `dataType` names a group |
| LeadData.Run | whatisnuclear/age_of_earth/lead_geochron.py:34-46 | every state the loop reaches is well formed |
| LeadData.Load | whatisnuclear/age_of_earth/lead_geochron.py:25-47 | `loadData` as a whole: the dictionary the loop builds over the lines, or the first line's exception; the dictionary is well formed on success |
| LeadData.RunSnoc | whatisnuclear/age_of_earth/lead_geochron.py:36 | the loop over one more line is the previous error or one more pass of the body |
| LeadData.FailureSticks | whatisnuclear/age_of_earth/lead_geochron.py:36-46 | an exception ends the loop: once a prefix of the file raises, the whole file raises the same error |
| LeadLoader.LeadDict.constructor | whatisnuclear/age_of_earth/lead_geochron.py:34 | `leadData = {}` is the empty, well-formed dictionary |
| LeadLoader.LeadDict.ResetGroup | whatisnuclear/age_of_earth/lead_geochron.py:43 | assigning `[]` in place changes the dictionary exactly as `WithEmptyGroup` says |
| LeadLoader.LeadDict.Append | whatisnuclear/age_of_earth/lead_geochron.py:46 | appending in place changes the dictionary exactly as `WithAppended` says |
| LeadLoader.LoadLine | whatisnuclear/age_of_earth/lead_geochron.py:37-46 | one pass of the loop body on a line, updating the dictionary in place, yields the new `dataType` or the error exactly as `Step` says. On success the dictionary stays well formed; on an error it is left exactly as it was |
| LeadLoader.LoadData | whatisnuclear/age_of_earth/lead_geochron.py:25-47 | the loop succeeds exactly when the fold `Load` does. On success it returns a fresh, well-formed dictionary equal to `Load`'s table. On failure it returns the error `Load` gives |
| LoadProperties.RunTracksCurrentGroup | whatisnuclear/age_of_earth/lead_geochron.py:41-42 | after any prefix of the file, `dataType` is the stripped text of the last header line, and is unset before the first |
| LoadProperties.StepSucceedsIff | whatisnuclear/age_of_earth/lead_geochron.py:44-46 | one line raises exactly when it is a record and either there is no current group or it has not four fields with three ratios `float` accepts |
| LoadProperties.BlankLineIgnoredInRun | whatisnuclear/age_of_earth/lead_geochron.py:37-39 | a blank line anywhere leaves the loop's state, or its error, unchanged |
| LoadProperties.BlankLineIgnored | whatisnuclear/age_of_earth/lead_geochron.py:37-39 | inserting a whitespace-only line at any position gives the same dictionary, or the same exception |
| LoadProperties.HeaderLineResetsGroup | whatisnuclear/age_of_earth/lead_geochron.py:41-43 | a header line makes its stripped text the current group and empties that group (a repeated name loses its records but keeps its place); no other group changes |
| LoadProperties.RecordLineAppends | whatisnuclear/age_of_earth/lead_geochron.py:44-46 | a record line that loads appends exactly its sample at the end of the current group; the keys, their order and every other group stay |
| LoadProperties.WrongFieldCountFails | whatisnuclear/age_of_earth/lead_geochron.py:45 | a record line that does not split into four fields makes loading raise the unpack error for that line, whatever follows |
| LoadProperties.BlankPrefixLoadsEmpty | whatisnuclear/age_of_earth/lead_geochron.py:34-39 | a file of blank lines loads as the empty dictionary with no current group |
| LoadProperties.FirstLineRecordFails | whatisnuclear/age_of_earth/lead_geochron.py:44-46 | when the first non-blank line is a record, loading raises on it: the unpack error if it has the wrong field count, else the unset `dataType` |
| LoadProperties.LoadSucceedsIff | whatisnuclear/age_of_earth/lead_geochron.py:36-46 | loading succeeds exactly when every record line has a header before it, four fields, and three ratios `float` accepts |
| LoadProperties.RecordBeforeHeaderFails | whatisnuclear/age_of_earth/lead_geochron.py:42-46 | a record line with no header anywhere before it makes loading raise |
| LoadProperties.KeysInHeaderOrder | whatisnuclear/age_of_earth/lead_geochron.py:41-43 | the dictionary's keys are the header texts in order of first appearance, each once, and a group exists exactly when some header names it |
| LoadProperties.BlankLineKeepsSections | whatisnuclear/age_of_earth/lead_geochron.py:37-39 | a blank line keeps every group equal to the records of its last section |
| LoadProperties.HeaderLineKeepsSections | whatisnuclear/age_of_earth/lead_geochron.py:41-43 | a header line opens an empty section for its group and keeps every other group equal to its last section |
| LoadProperties.RecordLineKeepsSections | whatisnuclear/age_of_earth/lead_geochron.py:44-46 | a record line extends the open section of the current group and keeps every other group equal to its last section |
| LoadProperties.GroupIsLastSection | whatisnuclear/age_of_earth/lead_geochron.py:36-47 | after loading, group `k` exists exactly when a header names `k`. It then holds the samples of the record lines between the last such header and the next header, in file order |
| LoadProperties.GroupHoldsItsRecords | whatisnuclear/age_of_earth/lead_geochron.py:36-47 | the same, record by record: as many samples as record lines in that last section, the i-th sample made from the i-th line |
| Pooling.Pairs | whatisnuclear/age_of_earth/lead_geochron.py:56 | one pair per sample, in order, holding its Pb-206 and Pb-207 ratios |
| Pooling.Unzip | whatisnuclear/age_of_earth/lead_geochron.py:57 | `x, y = zip(*xy)` fails exactly on an empty group; otherwise `x` and `y` have one entry per pair and the i-th entries form the i-th pair |
| Pooling.PoolKeys | whatisnuclear/age_of_earth/lead_geochron.py:54-60 | the pooled `(allX, allY)` over the given keys in order, the two lists always of equal length, or the error of an empty group among those keys |
| Pooling.Pool | whatisnuclear/age_of_earth/lead_geochron.py:54-60 | the pooled `(allX, allY)` over the dictionary in its key order: it succeeds exactly when no group of the dictionary is empty, a failure names an empty group, and the two lists have equal length |
| Pooling.PoolKeysSpec | whatisnuclear/age_of_earth/lead_geochron.py:54-60 | pooling succeeds exactly when no group is empty, and otherwise fails on the first empty group in key order. On success `allX` and `allY` each have one entry per record of `Records`. Their i-th entries are the Pb-206 and Pb-207 of the i-th record, in group-then-record order |
| Pooling.PoolPoints | whatisnuclear/age_of_earth/lead_geochron.py:54-60 | the loop over the dictionary in place computes exactly the fold `Pool` over its value |
| Pooling.PoolFailureSticks | whatisnuclear/age_of_earth/lead_geochron.py:57 | once the loop fails on a group, it fails with that error over all the keys |
| Pooling.PoolOrderKeepsRecords | whatisnuclear/age_of_earth/lead_geochron.py:55 | whatever order the dictionary hands out its keys in, the pooled samples are the same up to permutation |
| Pooling.PoolOrderKeepsOutcome | whatisnuclear/age_of_earth/lead_geochron.py:55 | whatever the key order, pooling succeeds or fails alike |
| LoadRoundTrip.SampleLineLoads | whatisnuclear/age_of_earth/lead_geochron.py:44-46 | a sample written as one comma-joined line strips to itself, is a record, splits into its four fields and is read back as that sample. This needs a name with no comma and no line break that does not start with whitespace, and three ratios that `show` writes on one line as text `float` reads back to the same number |
| LoadRoundTrip.HeaderStep | whatisnuclear/age_of_earth/lead_geochron.py:41-43 | a group name written as a line opens that group, empty |
| LoadRoundTrip.SampleLinesAppend | whatisnuclear/age_of_earth/lead_geochron.py:44-46 | record lines after a header append their samples to that group, in order |
| LoadRoundTrip.RenderKeysLoads | whatisnuclear/age_of_earth/lead_geochron.py:36-47 | the file listing some groups, each header followed by its records, loads with those keys in that order and those groups |
| LoadRoundTrip.LoadRender | whatisnuclear/age_of_earth/lead_geochron.py:25-47 | writing a table out in the loader's layout and loading it back gives the same table (for group names and samples the layout can carry: names without commas, line breaks or leading whitespace, and each ratio written on one line as text that `float` reads back to that ratio). The file is the sequence of its lines |
| LoadRoundTrip.LoadRenderOne | whatisnuclear/age_of_earth/lead_geochron.py:25-47 | a table with one group `Canyon Diablo` holding one sample whose ratios are all 1 is written as its header line and the record line `troilite,1,1,1`. That file loads back as the same table |

## Left out

- Opening and reading the file (line 35) is I/O. The input is the file's
  lines as a sequence of strings. Line endings are whitespace that `strip()`
  removes, so they need no modelling.
- The value `float` gives a field (line 46) is not modelled. `float` is the
  parameter `toFloat`, a function from text to a number or nothing. The
  model never computes with the numbers. Python 2 `str` is bytes, and the
  model works on characters.
- Python 2 dictionaries hand out their keys in hash order. The model keeps
  keys in first-insertion order. PoolOrderKeepsRecords and
  PoolOrderKeepsOutcome show that any other order gives the same pooled
  samples up to permutation and the same outcome.
- Exceptions are modelled as error values. Each carries the stripped line
  or the refused field instead of Python's message and traceback.
- The tuples and lists that `loadData` builds are values in the model
  (`seq<Sample>`). Aliasing of those list objects is not modelled; nothing
  else holds them in the source.
- The marker cycle and the per-group `pylab.plot` inside the pooling loop
  (lines 53 and 58) are not modelled. Nor is everything after the loop:
  `linregress` (lines 63-64), the fitted line and labels (lines 67-77),
  `slopeEqn` (lines 81-88) and `brentq` (line 93). These are plotting,
  floating-point exponentials, or foreign library calls.
- isochrons.py and basic_decay.py are not part of this model. They are
  animation and plotting of closed-form floating-point decay curves.
- LeadData.Step: its own contract states only that the state stays well
  formed. What one line does is stated by StepSucceedsIff,
  HeaderLineResetsGroup, RecordLineAppends and BlankLineIgnoredInRun.
