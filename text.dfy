/** The string operations `loadData` applies to each line: Python 2's
    `str.strip()` and `str.split(',')`. */
module Text {

  /** The bytes Python 2's `str.strip()` removes: C `isspace`, that is space,
      tab, line feed, carriage return, vertical tab and form feed. */
  predicate IsSpace(c: char) {
    c == ' ' || c == '\t' || c == '\n' || c == '\r' || c == '\U{0B}' || c == '\U{0C}'
  }

  /** `s` with its leading whitespace removed. */
  function TrimLeft(s: string): string {
    if s != [] && IsSpace(s[0]) then TrimLeft(s[1..]) else s
  }

  /** `s` with its trailing whitespace removed. */
  function TrimRight(s: string): string {
    if s != [] && IsSpace(s[|s| - 1]) then TrimRight(s[..|s| - 1]) else s
  }

  /** Python's `s.strip()`. Its meaning is stated by StripShape; keeping the
      contract off the function keeps every proof that mentions a stripped
      line cheap. */
  function Strip(s: string): string {
    TrimRight(TrimLeft(s))
  }

  lemma {:induction false} TrimLeftShape(s: string)
    ensures var r := TrimLeft(s);
      && |r| <= |s| && r == s[|s| - |r|..]
      && (forall i :: 0 <= i < |s| - |r| ==> IsSpace(s[i]))
      && (r == [] || !IsSpace(r[0]))
  {
    if s != [] && IsSpace(s[0]) {
      var t := s[1..];
      var r := TrimLeft(t);
      assert TrimLeft(s) == r;
      TrimLeftShape(t);
      assert t[|t| - |r|..] == s[|s| - |r|..];
      forall i | 0 <= i < |s| - |r|
        ensures IsSpace(s[i])
      {
        if i > 0 {
          assert s[i] == t[i - 1];
        }
      }
    } else {
      assert TrimLeft(s) == s;
    }
  }

  lemma {:induction false} TrimRightShape(s: string)
    ensures var r := TrimRight(s);
      && |r| <= |s| && r == s[..|r|]
      && (forall i :: |r| <= i < |s| ==> IsSpace(s[i]))
      && (r == [] || !IsSpace(r[|r| - 1]))
  {
    if s != [] && IsSpace(s[|s| - 1]) {
      var t := s[..|s| - 1];
      var r := TrimRight(t);
      assert TrimRight(s) == r;
      TrimRightShape(t);
      assert t[..|r|] == s[..|r|];
      forall i | |r| <= i < |s|
        ensures IsSpace(s[i])
      {
        if i < |s| - 1 {
          assert s[i] == t[i];
        }
      }
    } else {
      assert TrimRight(s) == s;
    }
  }

  /** `Strip(s)` is the infix of `s` left once the whitespace is cut from both
      ends: everything cut is whitespace, and what is left neither starts nor
      ends with whitespace. */
  lemma StripShape(s: string)
    ensures var r, lo := Strip(s), |s| - |TrimLeft(s)|;
      && 0 <= lo && lo + |r| <= |s|
      && r == s[lo..lo + |r|]
      && (forall i :: 0 <= i < lo ==> IsSpace(s[i]))
      && (forall i :: lo + |r| <= i < |s| ==> IsSpace(s[i]))
      && (r == [] || (!IsSpace(r[0]) && !IsSpace(r[|r| - 1])))
  {
    TrimLeftShape(s);
    TrimRightShape(TrimLeft(s));
  }

  /** A string that neither starts nor ends with whitespace strips to itself. */
  lemma StripUntrimmed(s: string)
    requires s != [] && !IsSpace(s[0]) && !IsSpace(s[|s| - 1])
    ensures Strip(s) == s
  {
    assert TrimLeft(s) == s;
  }

  /** A line strips to nothing exactly when every character of it is whitespace. */
  lemma StripEmptyIff(s: string)
    ensures Strip(s) == [] <==> forall i :: 0 <= i < |s| ==> IsSpace(s[i])
  {
    StripShape(s);
    var r, lo := Strip(s), |s| - |TrimLeft(s)|;
    if r != [] {
      assert r[0] == s[lo];
    }
  }

  /** Stripping twice is stripping once. */
  lemma StripIdempotent(s: string)
    ensures Strip(Strip(s)) == Strip(s)
  {
    StripShape(s);
    var r := Strip(s);
    if r != [] {
      assert TrimLeft(r) == r;
      assert TrimRight(r) == r;
    }
  }

  /** Stripping never removes a comma, because a comma is not whitespace. */
  lemma StripKeepsCommas(s: string)
    ensures ',' in Strip(s) <==> ',' in s
  {
    StripShape(s);
    var r := Strip(s);
    var lo := |s| - |TrimLeft(s)|;
    if ',' in s {
      var k :| 0 <= k < |s| && s[k] == ',';
      assert lo <= k < lo + |r|;
      assert r[k - lo] == ',';
    }
  }

  /** The number of commas in `s`. */
  function Commas(s: string): nat {
    if s == [] then 0 else (if s[0] == ',' then 1 else 0) + Commas(s[1..])
  }

  /** Fields joined back with a comma between each two. */
  function Join(fields: seq<string>): string
    requires |fields| >= 1
  {
    if |fields| == 1 then fields[0] else fields[0] + "," + Join(fields[1..])
  }

  /** Python's `s.split(',')`: the pieces between commas, one more than there
      are commas, none containing a comma, and joining them gives back `s`. */
  function Split(s: string): (r: seq<string>)
    ensures |r| == Commas(s) + 1
    ensures forall i :: 0 <= i < |r| ==> ',' !in r[i]
    ensures Join(r) == s
  {
    if s == [] then [[]]
    else
      var rest := Split(s[1..]);
      if s[0] == ',' then [[]] + rest
      else [[s[0]] + rest[0]] + rest[1..]
  }

  /** Splitting a comma-free field followed by a comma and a tail. */
  lemma {:induction false} SplitCons(f: string, tail: string)
    requires ',' !in f
    ensures Split(f + "," + tail) == [f] + Split(tail)
  {
    if f == [] {
      assert f + "," + tail == [','] + tail;
      assert ([','] + tail)[1..] == tail;
    } else {
      var s := f + "," + tail;
      assert s[0] == f[0] && s[0] != ',';
      assert s[1..] == f[1..] + "," + tail;
      SplitCons(f[1..], tail);
      var rest := Split(s[1..]);
      assert rest[0] == f[1..] && rest[1..] == Split(tail);
      assert [f[0]] + f[1..] == f;
    }
  }

  /** A comma-free string splits into itself alone. */
  lemma {:induction false} SplitNoComma(f: string)
    requires ',' !in f
    ensures Split(f) == [f]
  {
    if f != [] {
      SplitNoComma(f[1..]);
      assert [f[0]] + f[1..] == f;
    }
  }

  /** Split undoes Join for comma-free fields: the other half of the round trip
      stated in Split's contract. */
  lemma {:induction false} SplitJoin(fields: seq<string>)
    requires |fields| >= 1
    requires forall i :: 0 <= i < |fields| ==> ',' !in fields[i]
    ensures Split(Join(fields)) == fields
  {
    if |fields| == 1 {
      SplitNoComma(fields[0]);
    } else {
      SplitJoin(fields[1..]);
      SplitCons(fields[0], Join(fields[1..]));
    }
  }
}
