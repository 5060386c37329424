/** `andwhere` of muttontools/where.py: the indices, or the values, of the
    entries of an integer array that pass one comparison, or two.

    The first comparison selects indices of `data`; the second, when given,
    selects positions within the values the first kept, and those positions
    are mapped back to indices of `data`. The test "==" is carried out as
    ">=" in both stages, as the source does. An unknown test string leaves
    the selection unbound and the next statement raises NameError; a second
    stage with a test but no `val2` raises once there is an entry to compare
    with None, and one with `val2` but no test raises NameError. */
module Where {
  import opened Text

  /** The comparisons. `Eq` is what the source runs for "=="; `Exactly` is
      the equality that test evidently stands for. */
  datatype Test = Lt | Gt | Le | Ge | Eq | Exactly

  /** The test strings the `if`/`elif` chains recognise. */
  function ParseTest(s: string): Option<Test>
  {
    if s == "<" then Some(Lt)
    else if s == ">" then Some(Gt)
    else if s == "<=" then Some(Le)
    else if s == ">=" then Some(Ge)
    else if s == "==" then Some(Eq)
    else None
  }

  /** The comparison each test performs; "==" compares with ">=". */
  predicate Holds(x: int, t: Test, v: int)
  {
    match t
    case Lt => x < v
    case Gt => x > v
    case Le => x <= v
    case Ge => x >= v
    case Eq => x >= v
    case Exactly => x == v
  }

  predicate Increasing(r: seq<nat>)
  {
    forall a, b :: 0 <= a < b < |r| ==> r[a] < r[b]
  }

  predicate InRange(r: seq<nat>, n: nat)
  {
    forall a :: 0 <= a < |r| ==> r[a] < n
  }

  /** `np.where(xs op v)[0]`: the indices whose entry passes, in increasing order. */
  function Select(xs: seq<int>, t: Test, v: int): (r: seq<nat>)
    ensures Increasing(r) && InRange(r, |xs|)
    ensures forall k :: 0 <= k < |xs| ==> (k in r <==> Holds(xs[k], t, v))
    ensures |r| <= |xs|
  {
    if xs == [] then []
    else
      var n := |xs| - 1;
      var front := Select(xs[..n], t, v);
      assert forall k :: 0 <= k < n ==> xs[..n][k] == xs[k];
      front + (if Holds(xs[n], t, v) then [n] else [])
  }

  /** Fancy indexing `xs[idx]`. */
  function Gather<T>(xs: seq<T>, idx: seq<nat>): (r: seq<T>)
    requires InRange(idx, |xs|)
    ensures |r| == |idx| && forall a :: 0 <= a < |idx| ==> r[a] == xs[idx[a]]
  {
    seq(|idx|, a requires 0 <= a < |idx| => xs[idx[a]])
  }

  /** The exceptions the function can raise. */
  datatype Fault =
    | InvalidTest      // NameError: no branch bound indices1 or indices2
    | NoneOperand      // TypeError: comparing with val2 = None

  datatype Outcome = Indices(idx: seq<nat>) | Values(vals: seq<int>) | Raised(fault: Fault)

  /** The source as written, and the source with "==" read as equality. */
  datatype Reading = AsWritten | Intended

  function ParseAs(reading: Reading, s: string): Option<Test>
  {
    if reading == Intended && s == "==" then Some(Exactly) else ParseTest(s)
  }

  /** What `andwhere` returns, or the exception it raises. */
  function AndWhere(data: seq<int>, val1: int, test1: string,
                    val2: Option<int>, test2: Option<string>, returnIndices: bool): Outcome
  {
    AndWhereAs(AsWritten, data, val1, test1, val2, test2, returnIndices)
  }

  /** `andwhere` with "==" meaning equality. */
  function AndWhereIntended(data: seq<int>, val1: int, test1: string,
                            val2: Option<int>, test2: Option<string>, returnIndices: bool): Outcome
  {
    AndWhereAs(Intended, data, val1, test1, val2, test2, returnIndices)
  }

  function AndWhereAs(reading: Reading, data: seq<int>, val1: int, test1: string,
                      val2: Option<int>, test2: Option<string>, returnIndices: bool): Outcome
  {
    match ParseAs(reading, test1)
    case None => Raised(InvalidTest)
    case Some(t1) =>
      var indices1 := Select(data, t1, val1);
      var cut1 := Gather(data, indices1);
      if val2.None? && test2.None? then
        if returnIndices then Indices(indices1) else Values(cut1)
      else if test2.None? || ParseAs(reading, test2.value).None? then Raised(InvalidTest)
      else if val2.None? then
        // numpy compares element by element with None: nothing to compare, nothing raised
        if cut1 == [] then (if returnIndices then Indices([]) else Values([]))
        else Raised(NoneOperand)
      else
        var indices2 := Select(cut1, ParseAs(reading, test2.value).value, val2.value);
        if returnIndices then Indices(Gather(indices1, indices2))
        else Values(Gather(cut1, indices2))
  }

  // ---------------------------------------------------------------------------
  // A reference: one pass with both comparisons

  /** The indices that pass both comparisons, in increasing order. */
  function SelectBoth(xs: seq<int>, t1: Test, v1: int, t2: Test, v2: int): seq<nat>
  {
    if xs == [] then []
    else
      var n := |xs| - 1;
      SelectBoth(xs[..n], t1, v1, t2, v2) + (if Holds(xs[n], t1, v1) && Holds(xs[n], t2, v2) then [n] else [])
  }

  lemma {:induction false} SelectBothSpec(xs: seq<int>, t1: Test, v1: int, t2: Test, v2: int)
    ensures var r := SelectBoth(xs, t1, v1, t2, v2);
      Increasing(r) && InRange(r, |xs|) &&
      forall k :: 0 <= k < |xs| ==> (k in r <==> Holds(xs[k], t1, v1) && Holds(xs[k], t2, v2))
  {
    if xs != [] {
      var n := |xs| - 1;
      SelectBothSpec(xs[..n], t1, v1, t2, v2);
      assert forall k :: 0 <= k < n ==> xs[..n][k] == xs[k];
    }
  }

  /** Increasing index lists with the same members are the same list. */
  lemma {:induction false} IncreasingUnique(a: seq<nat>, b: seq<nat>)
    requires Increasing(a) && Increasing(b)
    requires forall k :: k in a <==> k in b
    ensures a == b
    decreases |a| + |b|
  {
    assert a != [] ==> a[0] in b;
    assert b != [] ==> b[0] in a;
    if a != [] && b != [] {
      var m :| 0 <= m < |b| && b[m] == a[0];
      assert b[0] <= b[m];
      var p :| 0 <= p < |a| && a[p] == b[0];
      assert a[0] <= a[p];
      forall k ensures k in a[1..] <==> k in b[1..] {
        if k in a[1..] {
          var i :| 1 <= i < |a| && a[i] == k;
          assert a[0] < a[i];
          assert k in a && k in b;
          var q :| 0 <= q < |b| && b[q] == k;
          assert q != 0;
          assert b[1..][q - 1] == k;
        }
        if k in b[1..] {
          var i :| 1 <= i < |b| && b[i] == k;
          assert b[0] < b[i];
          assert k in b && k in a;
          var q :| 0 <= q < |a| && a[q] == k;
          assert q != 0;
          assert a[1..][q - 1] == k;
        }
      }
      IncreasingUnique(a[1..], b[1..]);
    }
  }

  // ---------------------------------------------------------------------------
  // Properties

  /** "==" behaves as ">=" in either position. */
  lemma EqualityIsAtLeast(data: seq<int>, val1: int, val2: Option<int>, test2: Option<string>, returnIndices: bool)
    ensures AndWhere(data, val1, "==", val2, test2, returnIndices) == AndWhere(data, val1, ">=", val2, test2, returnIndices)
    ensures AndWhere(data, val1, ">", val2, Some("=="), returnIndices) == AndWhere(data, val1, ">", val2, Some(">="), returnIndices)
  {
    assert forall xs: seq<int>, v :: Select(xs, Eq, v) == Select(xs, Ge, v) by {
      forall xs: seq<int>, v ensures Select(xs, Eq, v) == Select(xs, Ge, v) {
        IncreasingUnique(Select(xs, Eq, v), Select(xs, Ge, v));
      }
    }
  }

  /** One test: the indices of all entries that pass it, or those entries. */
  lemma SingleTest(data: seq<int>, val1: int, t1: string, returnIndices: bool)
    requires ParseTest(t1).Some?
    ensures var t := ParseTest(t1).value;
      var r := AndWhere(data, val1, t1, None, None, returnIndices);
      (returnIndices ==> (r.Indices? && Increasing(r.idx) && InRange(r.idx, |data|) &&
         forall k :: 0 <= k < |data| ==> (k in r.idx <==> Holds(data[k], t, val1)))) &&
      (!returnIndices ==> r == Values(Gather(data, Select(data, t, val1))))
  {
  }

  /** The two stages, for parsed tests: the first stage's indices at the
      positions the second stage keeps. */
  function Staged(data: seq<int>, a: Test, val1: int, b: Test, v2: int): seq<nat>
  {
    var i1 := Select(data, a, val1);
    Gather(i1, Select(Gather(data, i1), b, v2))
  }

  /** An index is kept by the two stages exactly when its entry passes both tests. */
  lemma StagedMembers(data: seq<int>, a: Test, val1: int, b: Test, v2: int)
    ensures forall k :: k in Staged(data, a, val1, b, v2) <==> k in SelectBoth(data, a, val1, b, v2)
  {
    var i1 := Select(data, a, val1);
    var cut1 := Gather(data, i1);
    var i2 := Select(cut1, b, v2);
    var r := Gather(i1, i2);
    SelectBothSpec(data, a, val1, b, v2);
    forall k ensures k in r <==> k in SelectBoth(data, a, val1, b, v2) {
      if k in r {
        var m :| 0 <= m < |r| && r[m] == k;
        assert i1[i2[m]] == k && i2[m] in i2;
      }
      if k in SelectBoth(data, a, val1, b, v2) {
        assert k < |data| && k in i1;
        var p :| 0 <= p < |i1| && i1[p] == k;
        assert cut1[p] == data[k];
        assert p in i2;
        var m :| 0 <= m < |i2| && i2[m] == p;
        assert r[m] == k;
      }
    }
  }

  /** The two stages give the one-pass reference's list. */
  lemma StagedIsBoth(data: seq<int>, a: Test, val1: int, b: Test, v2: int)
    ensures Staged(data, a, val1, b, v2) == SelectBoth(data, a, val1, b, v2)
  {
    var i1 := Select(data, a, val1);
    var i2 := Select(Gather(data, i1), b, v2);
    assert Increasing(Gather(i1, i2));
    StagedMembers(data, a, val1, b, v2);
    SelectBothSpec(data, a, val1, b, v2);
    IncreasingUnique(Staged(data, a, val1, b, v2), SelectBoth(data, a, val1, b, v2));
  }

  /** Two tests: the returned indices are exactly those, in increasing order,
      whose entry passes both comparisons. */
  lemma TwoTests(data: seq<int>, val1: int, t1: string, v2: int, t2: string)
    requires ParseTest(t1).Some? && ParseTest(t2).Some?
    ensures var r := AndWhere(data, val1, t1, Some(v2), Some(t2), true);
      r == Indices(SelectBoth(data, ParseTest(t1).value, val1, ParseTest(t2).value, v2)) &&
      Increasing(r.idx) && InRange(r.idx, |data|) &&
      forall k :: 0 <= k < |data| ==>
        (k in r.idx <==> Holds(data[k], ParseTest(t1).value, val1) && Holds(data[k], ParseTest(t2).value, v2))
  {
    var a := ParseTest(t1).value;
    var b := ParseTest(t2).value;
    assert AndWhere(data, val1, t1, Some(v2), Some(t2), true) == Indices(Staged(data, a, val1, b, v2));
    StagedIsBoth(data, a, val1, b, v2);
    SelectBothSpec(data, a, val1, b, v2);
  }

  /** Two tests, values asked for: the entries of `data` at the indices the
      index form returns, in the same order. */
  lemma TwoTestValues(data: seq<int>, val1: int, t1: string, v2: int, t2: string)
    requires ParseTest(t1).Some? && ParseTest(t2).Some?
    ensures var i := AndWhere(data, val1, t1, Some(v2), Some(t2), true);
      var r := AndWhere(data, val1, t1, Some(v2), Some(t2), false);
      i.Indices? && InRange(i.idx, |data|) && r == Values(Gather(data, i.idx))
  {
    TwoTests(data, val1, t1, v2, t2);
  }

  /** Unknown tests raise, and so does a second stage missing its test, or
      missing its value while the first stage kept some entry; when it kept
      none, there is nothing to compare with None and the result is empty. */
  lemma Faults(data: seq<int>, val1: int, t1: string, val2: Option<int>, t2: Option<string>, returnIndices: bool)
    ensures ParseTest(t1).None? ==> AndWhere(data, val1, t1, val2, t2, returnIndices) == Raised(InvalidTest)
    ensures ParseTest(t1).Some? && val2.Some? && t2.None? ==>
      AndWhere(data, val1, t1, val2, t2, returnIndices) == Raised(InvalidTest)
    ensures (ParseTest(t1).Some? && t2.Some? && ParseTest(t2.value).Some? && val2.None? &&
             Select(data, ParseTest(t1).value, val1) != []) ==>
      AndWhere(data, val1, t1, val2, t2, returnIndices) == Raised(NoneOperand)
    ensures (ParseTest(t1).Some? && t2.Some? && ParseTest(t2.value).Some? && val2.None? &&
             Select(data, ParseTest(t1).value, val1) == []) ==>
      AndWhere(data, val1, t1, val2, t2, returnIndices) == (if returnIndices then Indices([]) else Values([]))
  {
  }

  /** Nothing passes `x > 10` over [5], so comparing the empty cut with None
      raises nothing and no index is returned. */
  lemma NothingToCompare(data: seq<int>)
    requires data == [5]
    ensures AndWhere(data, 10, ">", None, Some("<"), true) == Indices([])
    ensures AndWhere(data, 1, ">", None, Some("<"), true) == Raised(NoneOperand)
  {
    assert ParseTest(">") == Some(Gt) && ParseTest("<") == Some(Lt);
    assert data[..0] == [];
  }

  /** The docstring's example on integers: 1 < x < 3 over [1, 2, 3] keeps index 1. */
  lemma DocExample(data: seq<int>)
    requires data == [1, 2, 3]
    ensures AndWhere(data, 1, ">", Some(3), Some("<"), true) == Indices([1])
  {
    assert ParseTest(">") == Some(Gt) && ParseTest("<") == Some(Lt);
    TwoTests(data, 1, ">", 3, "<");
    var r := AndWhere(data, 1, ">", Some(3), Some("<"), true).idx;
    assert Holds(data[1], Gt, 1) && Holds(data[1], Lt, 3);
    assert !Holds(data[0], Gt, 1) && !Holds(data[2], Lt, 3);
    forall k ensures k in r <==> k in [1] {
      if k in r {
        assert k < 3;
      }
    }
    IncreasingUnique(r, [1]);
  }

  /** The same example asking for values: the entry 2. */
  lemma DocExampleValues(data: seq<int>)
    requires data == [1, 2, 3]
    ensures AndWhere(data, 1, ">", Some(3), Some("<"), false) == Values([2])
  {
    assert ParseTest(">") == Some(Gt) && ParseTest("<") == Some(Lt);
    DocExample(data);
    TwoTestValues(data, 1, ">", 3, "<");
    assert Gather(data, [1]) == [2];
  }

  // ---------------------------------------------------------------------------
  // The "==" test

  /** As written, "==" keeps every entry at least `val1`: over [1, 2] it
      returns both indices although only the first entry equals 1. */
  lemma EqualityAsWritten(data: seq<int>)
    requires data == [1, 2]
    ensures AndWhere(data, 1, "==", None, None, true) == Indices([0, 1]) && data[1] != 1
  {
    assert data[..1] == [1] && data[..1][..0] == [];
  }

  /** Read as equality, "==" keeps exactly the entries equal to `val1`, in
      increasing order of index. */
  lemma IntendedEquality(data: seq<int>, val1: int)
    ensures var r := AndWhereIntended(data, val1, "==", None, None, true);
      r.Indices? && Increasing(r.idx) && InRange(r.idx, |data|) &&
      forall k :: 0 <= k < |data| ==> (k in r.idx <==> data[k] == val1)
  {
    assert ParseAs(Intended, "==") == Some(Exactly);
  }

  /** The correction changes nothing for the other four tests. */
  lemma IntendedElsewhereAsWritten(data: seq<int>, val1: int, test1: string,
                                   val2: Option<int>, test2: Option<string>, returnIndices: bool)
    requires test1 != "==" && (test2.Some? ==> test2.value != "==")
    ensures AndWhereIntended(data, val1, test1, val2, test2, returnIndices) ==
            AndWhere(data, val1, test1, val2, test2, returnIndices)
  {
  }

  /** The corrected reading over [1, 2]: only index 0. */
  lemma IntendedEqualityExample(data: seq<int>)
    requires data == [1, 2]
    ensures AndWhereIntended(data, 1, "==", None, None, true) == Indices([0])
  {
    IntendedEquality(data, 1);
    var r := AndWhereIntended(data, 1, "==", None, None, true).idx;
    forall k ensures k in r <==> k in [0] {
      if k in r {
        assert k < 2;
      }
    }
    IncreasingUnique(r, [0]);
  }
}
