/** The loop of `plotData` that pools every group's points into the two
    lists `allX` (Pb-206/Pb-204) and `allY` (Pb-207/Pb-204) given to the
    regression. */
module Pooling {
  import opened Wrappers
  import opened LeadData
  import opened LeadLoader

  /** `x, y = zip(*xy)` raises ValueError on a group with no samples:
      `zip()` of nothing is an empty list, which cannot be unpacked into two. */
  datatype PoolError = EmptyGroup(group: string)

  /** The pooled lists `(allX, allY)`. */
  type Points = (seq<real>, seq<real>)

  /** `xy = [(pb206, pb207) for (name, pb206, pb207, pb208) in vals]`. */
  function Pairs(vals: seq<Sample>): (xy: seq<(real, real)>)
    ensures |xy| == |vals|
    ensures forall i :: 0 <= i < |vals| ==> xy[i] == (vals[i].pb206, vals[i].pb207)
  {
    seq(|vals|, i requires 0 <= i < |vals| => (vals[i].pb206, vals[i].pb207))
  }

  /** `x, y = zip(*xy)`: the first and the second components, or nothing
      when `xy` is empty. */
  function Unzip(xy: seq<(real, real)>): (r: Option<Points>)
    ensures r.None? <==> xy == []
    ensures r.Some? ==> |r.value.0| == |xy| && |r.value.1| == |xy|
    ensures r.Some? ==> forall i :: 0 <= i < |xy| ==> (r.value.0[i], r.value.1[i]) == xy[i]
  {
    if xy == [] then None
    else Some((seq(|xy|, i requires 0 <= i < |xy| => xy[i].0), seq(|xy|, i requires 0 <= i < |xy| => xy[i].1)))
  }

  /** Every key of `ks` has a group in `groups`. */
  ghost predicate Covers(ks: seq<string>, groups: map<string, seq<Sample>>) {
    forall i :: 0 <= i < |ks| ==> ks[i] in groups
  }

  /** The pooling loop after the groups of the keys `ks`, in that order:
      `allX` and `allY` grow together, and a failure names an empty group of
      `ks`. */
  function PoolKeys(ks: seq<string>, groups: map<string, seq<Sample>>): (r: Result<Points, PoolError>)
    requires Covers(ks, groups)
    ensures r.Success? ==> |r.value.0| == |r.value.1|
    ensures r.Failure? ==> r.error.group in ks && groups[r.error.group] == []
  {
    if ks == [] then Success(([], []))
    else
      var k := ks[|ks| - 1];
      match PoolKeys(ks[..|ks| - 1], groups)
      case Failure(e) => Failure(e)
      case Success(acc) =>
        match Unzip(Pairs(groups[k]))
        case None => Failure(EmptyGroup(k))
        case Some(xy) => Success((acc.0 + xy.0, acc.1 + xy.1))
  }

  /** The pooling loop over the whole dictionary, in its key order: it
      succeeds exactly when no group of the dictionary is empty, and a
      failure names an empty group. */
  function Pool(t: Table): (r: Result<Points, PoolError>)
    requires t.Valid()
    ensures r.Success? <==> forall k :: k in t.groups ==> t.groups[k] != []
    ensures r.Failure? ==> r.error.group in t.groups && t.groups[r.error.group] == []
    ensures r.Success? ==> |r.value.0| == |r.value.1|
  {
    PoolKeysSpec(t.keys, t.groups);
    PoolKeys(t.keys, t.groups)
  }

  /** The samples of the groups of `ks`, group after group, each group's in
      its own order. */
  function Records(ks: seq<string>, groups: map<string, seq<Sample>>): seq<Sample>
    requires Covers(ks, groups)
  {
    if ks == [] then []
    else Records(ks[..|ks| - 1], groups) + groups[ks[|ks| - 1]]
  }

  /** The first key of `ks` whose group is empty is at `i`. */
  ghost predicate FirstEmptyAt(ks: seq<string>, groups: map<string, seq<Sample>>, i: int)
    requires Covers(ks, groups)
  {
    && 0 <= i < |ks| && groups[ks[i]] == []
    && forall j :: 0 <= j < i ==> groups[ks[j]] != []
  }

  /** Pooling succeeds exactly when no group is empty, and then `allX` and
      `allY` both hold one entry per sample, the i-th entries being the
      Pb-206 and Pb-207 ratios of the i-th sample in group-then-record order;
      otherwise it fails on the first empty group in key order. */
  lemma {:induction false} PoolKeysSpec(ks: seq<string>, groups: map<string, seq<Sample>>)
    requires Covers(ks, groups)
    ensures PoolKeys(ks, groups).Success? <==> forall i :: 0 <= i < |ks| ==> groups[ks[i]] != []
    ensures PoolKeys(ks, groups).Failure? ==>
      exists i :: FirstEmptyAt(ks, groups, i) && PoolKeys(ks, groups).error == EmptyGroup(ks[i])
    ensures PoolKeys(ks, groups).Success? ==>
      var (xs, ys) := PoolKeys(ks, groups).value;
      var recs := Records(ks, groups);
      && |xs| == |recs| && |ys| == |recs|
      && forall i :: 0 <= i < |recs| ==> xs[i] == recs[i].pb206 && ys[i] == recs[i].pb207
    decreases |ks|
  {
    if ks != [] {
      var n := |ks| - 1;
      var p := ks[..n];
      assert Covers(p, groups);
      PoolKeysSpec(p, groups);
      if PoolKeys(p, groups).Failure? {
        var i :| FirstEmptyAt(p, groups, i) && PoolKeys(p, groups).error == EmptyGroup(p[i]);
        assert FirstEmptyAt(ks, groups, i);
      } else if groups[ks[n]] == [] {
        assert FirstEmptyAt(ks, groups, n);
      }
    }
  }

  /** The pooling loop of `plotData`, over the dictionary `leadData` as
      `loadData` left it. */
  method PoolPoints(leadData: LeadDict) returns (r: Result<Points, PoolError>)
    requires leadData.Valid()
    ensures r == Pool(leadData.Model())
  {
    var keys, groups := leadData.keys, leadData.groups;
    assert Covers(keys, groups);
    var allX, allY := [], [];
    var i := 0;
    while i < |keys|
      invariant 0 <= i <= |keys| && Covers(keys[..i], groups)
      invariant PoolKeys(keys[..i], groups) == Success((allX, allY))
    {
      var dataType := keys[i];
      var vals := groups[dataType];
      var xy := Pairs(vals);
      var unzipped := Unzip(xy);
      PoolKeysStep(keys, i, groups);
      if unzipped.None? {
        r := Failure(EmptyGroup(dataType));
        PoolFailureSticks(keys, i + 1, groups);
        return;
      }
      var (x, y) := unzipped.value;
      allX := allX + x;
      allY := allY + y;
      i := i + 1;
    }
    assert keys[..i] == keys;
    r := Success((allX, allY));
  }

  /** One more key: the previous failure, or that key's group pooled after
      the others. */
  lemma PoolKeysStep(ks: seq<string>, i: nat, groups: map<string, seq<Sample>>)
    requires Covers(ks, groups) && i < |ks|
    ensures Covers(ks[..i], groups) && Covers(ks[..i + 1], groups)
    ensures PoolKeys(ks[..i + 1], groups) ==
      match PoolKeys(ks[..i], groups)
      case Failure(e) => Failure(e)
      case Success(acc) =>
        match Unzip(Pairs(groups[ks[i]]))
        case None => Failure(EmptyGroup(ks[i]))
        case Some(xy) => Success((acc.0 + xy.0, acc.1 + xy.1))
  {
    assert ks[..i + 1][..i] == ks[..i];
  }

  /** Once the loop fails on a group, it fails with the same error over all
      the keys. */
  lemma {:induction false} PoolFailureSticks(ks: seq<string>, n: nat, groups: map<string, seq<Sample>>)
    requires Covers(ks, groups) && n <= |ks|
    requires PoolKeys(ks[..n], groups).Failure?
    ensures PoolKeys(ks, groups) == PoolKeys(ks[..n], groups)
    decreases |ks|
  {
    if n < |ks| {
      var p := ks[..|ks| - 1];
      assert p[..n] == ks[..n];
      PoolFailureSticks(p, n, groups);
    } else {
      assert ks[..n] == ks;
    }
  }

  /** `order` and `ks` list the same keys, each once. */
  ghost predicate SameKeys(order: seq<string>, ks: seq<string>) {
    && (forall i, j :: 0 <= i < j < |order| ==> order[i] != order[j])
    && (forall i, j :: 0 <= i < j < |ks| ==> ks[i] != ks[j])
    && (forall k :: k in order <==> k in ks)
  }

  lemma {:induction false} RecordsAppend(a: seq<string>, b: seq<string>, groups: map<string, seq<Sample>>)
    requires Covers(a, groups) && Covers(b, groups)
    ensures Covers(a + b, groups)
    ensures Records(a + b, groups) == Records(a, groups) + Records(b, groups)
    decreases |b|
  {
    assert Covers(a + b, groups);
    if b == [] {
      assert a + b == a;
    } else {
      var b' := b[..|b| - 1];
      assert Covers(b', groups);
      RecordsAppend(a, b', groups);
      assert (a + b)[..|a + b| - 1] == a + b';
    }
  }

  /** Dropping the element at `i` of a list of distinct keys drops exactly
      that key. */
  lemma InRemoveAt(ks: seq<string>, i: nat, x: string)
    requires i < |ks| && forall a, b :: 0 <= a < b < |ks| ==> ks[a] != ks[b]
    ensures x in ks[..i] + ks[i + 1..] <==> x in ks && x != ks[i]
  {
    var rest := ks[..i] + ks[i + 1..];
    if x in rest {
      var b :| 0 <= b < |rest| && rest[b] == x;
      if b < i { assert ks[b] == x; } else { assert ks[b + 1] == x; }
    }
    if x in ks && x != ks[i] {
      var b :| 0 <= b < |ks| && ks[b] == x;
      if b < i { assert rest[b] == x; } else { assert rest[b - 1] == x; }
    }
  }

  /** Dropping one element of a list of distinct keys leaves them distinct. */
  lemma RemoveAtDistinct(ks: seq<string>, i: nat)
    requires i < |ks| && forall a, b :: 0 <= a < b < |ks| ==> ks[a] != ks[b]
    ensures var rest := ks[..i] + ks[i + 1..];
      forall a, b :: 0 <= a < b < |rest| ==> rest[a] != rest[b]
  {
    var rest := ks[..i] + ks[i + 1..];
    forall a, b | 0 <= a < b < |rest|
      ensures rest[a] != rest[b]
    {
      var a', b' := if a < i then a else a + 1, if b < i then b else b + 1;
      assert rest[a] == ks[a'] && rest[b] == ks[b'];
    }
  }

  /** Taking the last key off `order`, and the same key off `ks` wherever
      it sits, leaves two lists of the same keys. */
  lemma SameKeysWithoutLast(order: seq<string>, ks: seq<string>, i: nat)
    requires SameKeys(order, ks) && order != []
    requires i < |ks| && ks[i] == order[|order| - 1]
    ensures SameKeys(order[..|order| - 1], ks[..i] + ks[i + 1..])
  {
    var n := |order| - 1;
    assert order[..n] == order[..n] + order[n + 1..];
    RemoveAtDistinct(order, n);
    RemoveAtDistinct(ks, i);
    forall x
      ensures x in order[..n] <==> x in ks[..i] + ks[i + 1..]
    {
      InRemoveAt(order, n, x);
      InRemoveAt(ks, i, x);
    }
  }

  lemma SameKeysBothEmpty(order: seq<string>, ks: seq<string>)
    requires SameKeys(order, ks)
    ensures order == [] <==> ks == []
  {
    if ks != [] {
      assert ks[0] in order;
    }
    if order != [] {
      assert order[0] in ks;
    }
  }

  lemma CoversSameKeys(order: seq<string>, ks: seq<string>, groups: map<string, seq<Sample>>)
    requires Covers(ks, groups) && SameKeys(order, ks)
    ensures Covers(order, groups)
  {
    forall i | 0 <= i < |order|
      ensures order[i] in groups
    {
      assert order[i] in ks;
    }
  }

  /** The samples pooled over `before + [k] + after`, as a multiset. */
  lemma RecordsAround(before: seq<string>, k: string, after: seq<string>, groups: map<string, seq<Sample>>)
    requires Covers(before, groups) && k in groups && Covers(after, groups)
    ensures Covers(before + [k] + after, groups) && Covers(before + after, groups)
    ensures multiset(Records(before + [k] + after, groups)) ==
            multiset(Records(before + after, groups)) + multiset(groups[k])
  {
    assert Covers([k], groups);
    RecordsAppend(before, after, groups);
    RecordsAppend(before, [k], groups);
    RecordsAppend(before + [k], after, groups);
    assert Records([k], groups) == groups[k] by {
      assert [k][..0] == [];
    }
  }

  /** Python 2 dictionaries hand out their keys in hash order, not in the
      order the headers came: whatever the order, the pooled samples are the
      same, only permuted. */
  lemma {:induction false} PoolOrderKeepsRecords(order: seq<string>, ks: seq<string>, groups: map<string, seq<Sample>>)
    requires Covers(ks, groups) && SameKeys(order, ks)
    ensures Covers(order, groups)
    ensures multiset(Records(order, groups)) == multiset(Records(ks, groups))
    decreases |order|
  {
    CoversSameKeys(order, ks, groups);
    SameKeysBothEmpty(order, ks);
    if order != [] {
      var n := |order| - 1;
      var o', k := order[..n], order[n];
      var i: nat :| i < |ks| && ks[i] == k by {
        assert k in order;
      }
      var before, after := ks[..i], ks[i + 1..];
      assert ks == before + [k] + after;
      assert Covers(before, groups) && Covers(after, groups);
      SameKeysWithoutLast(order, ks, i);
      PoolOrderKeepsRecords(o', before + after, groups);
      RecordsAround(before, k, after, groups);
      assert Records(order, groups) == Records(o', groups) + groups[k];
    }
  }

  /** Whatever order the dictionary hands out its keys in, pooling fails or
      succeeds alike. */
  lemma PoolOrderKeepsOutcome(order: seq<string>, ks: seq<string>, groups: map<string, seq<Sample>>)
    requires Covers(ks, groups) && SameKeys(order, ks)
    ensures Covers(order, groups)
    ensures PoolKeys(order, groups).Success? <==> PoolKeys(ks, groups).Success?
  {
    CoversSameKeys(order, ks, groups);
    PoolKeysSpec(order, groups);
    PoolKeysSpec(ks, groups);
    if PoolKeys(ks, groups).Success? {
      forall i | 0 <= i < |order|
        ensures groups[order[i]] != []
      {
        assert order[i] in ks;
      }
    } else {
      var i :| FirstEmptyAt(ks, groups, i);
      assert ks[i] in order;
    }
  }
}
