/** Mirage maintenance (d09/src/main.rs): each line is a history of
    readings; repeatedly taking adjacent differences until a row is all
    zero extrapolates the next reading (part one) and the reading before
    the first (part two). */
module Oasis {
  import opened Wrappers

  // ---------------------------------------------------------------------
  // Difference rows

  /** The adjacent differences `v[k + 1] - v[k]`, one shorter than `v`
      (`tuple_windows` on fewer than two readings yields nothing). */
  function Diff(v: seq<int>): (d: seq<int>)
    ensures |d| == if v == [] then 0 else |v| - 1
  {
    if |v| <= 1 then [] else [v[1] - v[0]] + Diff(v[1..])
  }

  /** Each difference is that of its two neighbouring readings. */
  lemma {:induction false} DiffAt(v: seq<int>)
    ensures forall k :: 0 <= k < |Diff(v)| ==> Diff(v)[k] == v[k + 1] - v[k]
  {
    if |v| > 1 {
      DiffAt(v[1..]);
    }
  }

  predicate AllZero(s: seq<int>)
  {
    forall k :: 0 <= k < |s| ==> s[k] == 0
  }

  /** `k` rounds of differences. */
  function DiffN(v: seq<int>, k: nat): seq<int>
    decreases k
  {
    if k == 0 then v else DiffN(Diff(v), k - 1)
  }

  /** Appending a reading appends its difference with the old last one. */
  lemma {:induction false} DiffAppend(v: seq<int>, x: int)
    requires v != []
    ensures Diff(v + [x]) == Diff(v) + [x - v[|v| - 1]]
  {
    if |v| > 1 {
      assert (v + [x])[1..] == v[1..] + [x];
      DiffAppend(v[1..], x);
    } else {
      assert v + [x] == [v[0], x];
      assert [v[0], x][1..] == [x];
    }
  }

  // ---------------------------------------------------------------------
  // Part one: the next reading

  /** The rounds of `handle_part_1_line` from a row: the rounds stop after
      the first all-zero difference row; a difference row that comes out
      empty before that is the panic of `last().unwrap()`. The prediction is
      the row's last reading plus the last readings of the rows below. */
  function Next(v: seq<int>): (r: Option<int>)
    requires v != []
    decreases |v|
  {
    var d := Diff(v);
    if d == [] then None
    else if AllZero(d) then Some(v[|v| - 1])
    else match Next(d)
      case None => None
      case Some(n) => Some(v[|v| - 1] + n)
  }

  /** The number of rounds before the loop stops, if it stops without a
      panic. */
  function Depth(v: seq<int>): (k: Option<nat>)
    requires v != []
    ensures k.Some? ==> k.value >= 1
    decreases |v|
  {
    var d := Diff(v);
    if d == [] then None
    else if AllZero(d) then Some(1)
    else match Depth(d)
      case None => None
      case Some(k) => Some(k + 1)
  }

  /** The loop completes exactly when some difference row is all zero and
      not empty, and then that row is the last one computed. */
  lemma {:induction false} DepthMeaning(v: seq<int>)
    requires v != []
    ensures Depth(v).Some? <==> Next(v).Some?
    ensures Depth(v).Some? ==> DiffN(v, Depth(v).value) != [] && AllZero(DiffN(v, Depth(v).value))
    ensures Depth(v).Some? ==> forall j :: 1 <= j < Depth(v).value ==> !AllZero(DiffN(v, j))
    decreases |v|
  {
    var d := Diff(v);
    if d != [] && !AllZero(d) {
      DepthMeaning(d);
      if Depth(v).Some? {
        forall j | 1 <= j < Depth(v).value
          ensures !AllZero(DiffN(v, j))
        {
          assert DiffN(v, j) == DiffN(d, j - 1);
        }
      }
    }
  }

  /** The prediction is the one reading whose appending keeps the last
      difference row all zero: the sequence extends as the polynomial the
      rows describe. */
  lemma {:induction false} NextKeepsZeroRow(v: seq<int>, x: int)
    requires v != [] && Depth(v).Some?
    ensures AllZero(DiffN(v + [x], Depth(v).value)) <==> Next(v) == Some(x)
    decreases |v|
  {
    var d := Diff(v);
    DiffAppend(v, x);
    var x' := x - v[|v| - 1];
    assert DiffN(v + [x], Depth(v).value) == DiffN(d + [x'], Depth(v).value - 1);
    if AllZero(d) {
      assert DiffN(d + [x'], 0) == d + [x'];
      assert AllZero(d + [x']) <==> x' == 0 by {
        if x' != 0 {
          assert (d + [x'])[|d|] != 0;
        }
      }
    } else {
      NextKeepsZeroRow(d, x');
    }
  }

  // ---------------------------------------------------------------------
  // Part two: the reading before

  /** The rounds of `handle_part_2_line`: the row's first reading minus the
      extrapolation of the row below (the reversed `reduce` with `e - acc`
      over the first readings). */
  function Prev(v: seq<int>): (r: Option<int>)
    requires v != []
    decreases |v|
  {
    var d := Diff(v);
    if d == [] then None
    else if AllZero(d) then Some(v[0])
    else match Prev(d)
      case None => None
      case Some(p) => Some(v[0] - p)
  }

  /** The first readings pushed onto `first_values`, from the input row to
      the all-zero row. */
  function Firsts(v: seq<int>): (r: Option<seq<int>>)
    requires v != []
    ensures r.Some? ==> |r.value| >= 2 && r.value[0] == v[0]
    decreases |v|
  {
    var d := Diff(v);
    if d == [] then None
    else if AllZero(d) then Some([v[0], d[0]])
    else match Firsts(d)
      case None => None
      case Some(f) => Some([v[0]] + f)
  }

  /** The reversed `reduce` with `|acc, e| e - acc`:
      `s[0] - (s[1] - (... - s[|s| - 1]))`. */
  function AltFold(s: seq<int>): int
    requires s != []
  {
    if |s| == 1 then s[0] else s[0] - AltFold(s[1..])
  }

  /** Folding the first readings gives the reading before. */
  lemma {:induction false} FirstsFold(v: seq<int>)
    requires v != []
    ensures Firsts(v).Some? <==> Prev(v).Some?
    ensures Firsts(v).Some? ==> Prev(v) == Some(AltFold(Firsts(v).value))
    decreases |v|
  {
    var d := Diff(v);
    if d != [] {
      if AllZero(d) {
        assert AltFold([v[0], d[0]]) == v[0] - d[0];
      } else {
        FirstsFold(d);
        if Firsts(d).Some? {
          var f := Firsts(d).value;
          assert ([v[0]] + f)[1..] == f;
        }
      }
    }
  }

  function Reverse(s: seq<int>): (r: seq<int>)
    ensures |r| == |s|
    ensures forall k :: 0 <= k < |s| ==> r[k] == s[|s| - 1 - k]
  {
    if s == [] then [] else Reverse(s[1..]) + [s[0]]
  }

  function Negate(s: seq<int>): (r: seq<int>)
    ensures |r| == |s|
    ensures forall k :: 0 <= k < |s| ==> r[k] == -s[k]
  {
    seq(|s|, k requires 0 <= k < |s| => -s[k])
  }

  lemma DiffNegate(v: seq<int>)
    ensures Diff(Negate(v)) == Negate(Diff(v))
  {
    DiffAt(v);
    DiffAt(Negate(v));
    var a := Diff(Negate(v));
    var b := Negate(Diff(v));
    forall k | 0 <= k < |a|
      ensures a[k] == b[k]
    {
      assert a[k] == Negate(v)[k + 1] - Negate(v)[k];
    }
  }

  /** The differences of the reversed readings are the reversed
      differences, negated. */
  lemma DiffReverse(v: seq<int>)
    ensures Diff(Reverse(v)) == Negate(Reverse(Diff(v)))
  {
    var a := Diff(Reverse(v));
    var b := Negate(Reverse(Diff(v)));
    forall k | 0 <= k < |a|
      ensures a[k] == b[k]
    {
      DiffReverseAt(v, k);
    }
  }

  lemma DiffReverseAt(v: seq<int>, k: nat)
    requires k < |Diff(Reverse(v))|
    ensures Diff(Reverse(v))[k] == Negate(Reverse(Diff(v)))[k]
  {
    var n := |v|;
    var r := Reverse(v);
    var d := Diff(v);
    assert |d| == n - 1 && k + 1 < n;
    var j := n - 2 - k;
    DiffAtIndex(r, k);
    DiffAtIndex(v, j);
    assert r[k + 1] == v[j] && r[k] == v[j + 1];
    var rd := Reverse(d);
    assert rd[k] == d[j];
    assert Negate(rd)[k] == -rd[k];
  }

  lemma DiffAtIndex(v: seq<int>, k: nat)
    requires k < |Diff(v)|
    ensures Diff(v)[k] == v[k + 1] - v[k]
  {
    DiffAt(v);
  }

  /** Negating the readings negates the prediction. */
  lemma {:induction false} NextNegate(v: seq<int>)
    requires v != []
    ensures Next(Negate(v)) == match Next(v) case None => None case Some(n) => Some(-n)
    decreases |v|
  {
    var d := Diff(v);
    DiffNegate(v);
    if d != [] && !AllZero(d) {
      assert !AllZero(Negate(d)) by {
        var k :| 0 <= k < |d| && d[k] != 0;
        assert Negate(d)[k] != 0;
      }
      NextNegate(d);
    }
  }

  /** Part two is part one on the reversed history. */
  lemma {:induction false} PrevIsNextOfReverse(v: seq<int>)
    requires v != []
    ensures Prev(v) == Next(Reverse(v))
    decreases |v|
  {
    var d := Diff(v);
    var rv := Reverse(v);
    DiffReverse(v);
    if d != [] && !AllZero(d) {
      assert !AllZero(Negate(Reverse(d))) by {
        var k :| 0 <= k < |d| && d[k] != 0;
        assert Negate(Reverse(d))[|d| - 1 - k] != 0;
      }
      PrevIsNextOfReverse(d);
      NextNegate(Reverse(d));
    }
  }

  /** The reading before is the one whose prepending keeps the last
      difference row all zero. */
  lemma PrevKeepsZeroRow(v: seq<int>, x: int)
    requires v != [] && Depth(Reverse(v)).Some?
    ensures AllZero(DiffN(Reverse(v) + [x], Depth(Reverse(v)).value)) <==> Prev(v) == Some(x)
  {
    PrevIsNextOfReverse(v);
    NextKeepsZeroRow(Reverse(v), x);
  }

  // ---------------------------------------------------------------------
  // The loops

  /** The `tuple_windows` pass: the differences, and whether all of them
      are zero (`is_all_zeros &= diff == 0`). */
  method Differences(values: seq<int>) returns (diffs: seq<int>, allZero: bool)
    ensures diffs == Diff(values) && allZero == AllZero(diffs)
  {
    diffs := [];
    allZero := true;
    if |values| <= 1 {
      return;
    }
    DiffAt(values);
    for k := 0 to |values| - 1
      invariant diffs == Diff(values)[..k]
      invariant allZero == AllZero(diffs)
    {
      var diff := values[k + 1] - values[k];
      assert Diff(values)[..k + 1] == diffs + [diff];
      assert AllZero(diffs + [diff]) <==> AllZero(diffs) && diff == 0 by {
        assert forall j :: 0 <= j < k ==> (diffs + [diff])[j] == diffs[j];
        assert (diffs + [diff])[k] == diff;
      }
      allZero := allZero && diff == 0;
      diffs := diffs + [diff];
    }
    assert Diff(values)[..|values| - 1] == Diff(values);
  }

  /** `handle_part_1_line`: `None` is the panic on an empty line or on a
      difference row that comes out empty. */
  method PredictNext(values: seq<int>) returns (r: Option<int>)
    ensures r == if values == [] then None else Next(values)
  {
    if values == [] {
      return None;
    }
    var row := values;
    var predicted := values[|values| - 1];
    var isAllZeros := false;
    while !isAllZeros
      invariant row != []
      invariant isAllZeros ==> Next(values) == Some(predicted)
      invariant !isAllZeros ==>
        Next(values) == match Next(row) case None => None case Some(n) => Some(n + predicted - row[|row| - 1])
      decreases |row|, if isAllZeros then 0 else 1
    {
      var diffs, allZero := Differences(row);
      if diffs == [] {
        return None;
      }
      isAllZeros := allZero;
      predicted := predicted + diffs[|diffs| - 1];
      row := diffs;
    }
    return Some(predicted);
  }

  /** The loop of `handle_part_2_line`: push the first reading of every
      difference row; `None` is the panic of `first().unwrap()` on an empty
      row. */
  method CollectFirsts(values: seq<int>) returns (r: Option<seq<int>>)
    requires values != []
    ensures r == Firsts(values)
  {
    var row := values;
    var firstValues := [values[0]];
    var isAllZeros := false;
    assert forall f: seq<int> :: [] + f == f;
    while !isAllZeros
      invariant row != [] && firstValues != []
      invariant isAllZeros ==> Firsts(values) == Some(firstValues)
      invariant !isAllZeros ==> firstValues[|firstValues| - 1] == row[0]
      invariant !isAllZeros ==>
        Firsts(values) == match Firsts(row) case None => None case Some(f) => Some(firstValues[..|firstValues| - 1] + f)
      decreases |row|, if isAllZeros then 0 else 1
    {
      var diffs, allZero := Differences(row);
      if diffs == [] {
        return None;
      }
      ghost var prefix := firstValues[..|firstValues| - 1];
      assert firstValues == prefix + [row[0]];
      firstValues := firstValues + [diffs[0]];
      if allZero {
        assert firstValues == prefix + [row[0], diffs[0]];
      } else {
        assert firstValues[..|firstValues| - 1] == prefix + [row[0]];
        assert forall f :: prefix + ([row[0]] + f) == (prefix + [row[0]]) + f;
      }
      isAllZeros := allZero;
      row := diffs;
    }
    return Some(firstValues);
  }

  /** `into_iter().rev().reduce(|acc, e| e - acc)`. */
  method FoldBack(values: seq<int>) returns (acc: int)
    requires values != []
    ensures acc == AltFold(values)
  {
    acc := values[|values| - 1];
    var i := |values| - 1;
    while i > 0
      invariant 0 <= i < |values|
      invariant acc == AltFold(values[i..])
    {
      i := i - 1;
      assert values[i..][1..] == values[i + 1..];
      acc := values[i] - acc;
    }
  }

  /** `handle_part_2_line`: collect the first readings, then fold them
      from the back with `e - acc`. */
  method PredictPrevious(values: seq<int>) returns (r: Option<int>)
    ensures r == if values == [] then None else Prev(values)
  {
    if values == [] {
      return None;
    }
    FirstsFold(values);
    var firstValues := CollectFirsts(values);
    if firstValues.None? {
      return None;
    }
    var acc := FoldBack(firstValues.value);
    return Some(acc);
  }

  // ---------------------------------------------------------------------
  // Totals

  /** The sum over the lines; any failing line fails the whole sum. */
  function Total(lines: seq<seq<int>>, backwards: bool): Option<int>
  {
    if lines == [] then Some(0)
    else
      var here := LineValue(lines[|lines| - 1], backwards);
      match Total(lines[..|lines| - 1], backwards)
      case None => None
      case Some(t) => if here.None? then None else Some(t + here.value)
  }

  /** One line's extrapolation; an empty line is the first `unwrap` panic. */
  function LineValue(line: seq<int>, backwards: bool): Option<int>
  {
    if line == [] then None else if backwards then Prev(line) else Next(line)
  }

  /** The total of three lines that all succeed. */
  lemma TotalOfThree(a: seq<int>, b: seq<int>, c: seq<int>, backwards: bool)
    requires LineValue(a, backwards).Some? && LineValue(b, backwards).Some? && LineValue(c, backwards).Some?
    ensures Total([a, b, c], backwards) ==
      Some(LineValue(a, backwards).value + LineValue(b, backwards).value + LineValue(c, backwards).value)
  {
    var x, y, z := LineValue(a, backwards).value, LineValue(b, backwards).value, LineValue(c, backwards).value;
    assert [a][..0] == [];
    assert Total([a], backwards) == Some(x);
    assert [a, b][..1] == [a];
    assert Total([a, b], backwards) == Some(x + y);
    assert [a, b, c][..2] == [a, b];
  }

  /** The total succeeds exactly when every line does. */
  lemma {:induction false} TotalSucceedsIffEveryLine(lines: seq<seq<int>>, backwards: bool)
    ensures Total(lines, backwards).Some? <==>
      forall i :: 0 <= i < |lines| ==> LineValue(lines[i], backwards).Some?
  {
    if lines != [] {
      TotalSucceedsIffEveryLine(lines[..|lines| - 1], backwards);
    }
  }

  /** `handle_part_1` (`backwards` false) and `handle_part_2` (`backwards`
      true). */
  method Handle(lines: seq<seq<int>>, backwards: bool) returns (r: Option<int>)
    ensures r == Total(lines, backwards)
  {
    var sum := 0;
    for i := 0 to |lines|
      invariant Total(lines[..i], backwards) == Some(sum)
    {
      assert lines[..i + 1][..i] == lines[..i];
      var here;
      if backwards {
        here := PredictPrevious(lines[i]);
      } else {
        here := PredictNext(lines[i]);
      }
      if here.None? {
        assert Total(lines[..i + 1], backwards) == None;
        TotalNoneStays(lines, backwards, i + 1);
        return None;
      }
      sum := sum + here.value;
    }
    assert lines[..|lines|] == lines;
    return Some(sum);
  }

  /** A failing line fails every longer prefix. */
  lemma {:induction false} TotalNoneStays(lines: seq<seq<int>>, backwards: bool, i: nat)
    requires i <= |lines| && Total(lines[..i], backwards).None?
    ensures Total(lines, backwards).None?
    decreases |lines| - i
  {
    if i < |lines| {
      assert lines[..i + 1][..i] == lines[..i];
      TotalNoneStays(lines, backwards, i + 1);
    } else {
      assert lines[..i] == lines;
    }
  }

  // ---------------------------------------------------------------------
  // The examples of the tests

  /** A single reading has no difference to take: `last().unwrap()`
      panics in the first round. */
  lemma SingleReadingFails(x: int)
    ensures Next([x]) == None && Prev([x]) == None
  {
  }

  lemma FirstHistory()
    ensures Next([0, 3, 6, 9, 12, 15]) == Some(18)
    ensures Prev([0, 3, 6, 9, 12, 15]) == Some(-3)
  {
  }

  lemma SecondHistory()
    ensures Next([1, 3, 6, 10, 15, 21]) == Some(28)
    ensures Prev([1, 3, 6, 10, 15, 21]) == Some(0)
  {
  }

  lemma ThirdHistory()
    ensures Next([10, 13, 16, 21, 30, 45]) == Some(68)
    ensures Prev([10, 13, 16, 21, 30, 45]) == Some(5)
  {
  }

  /** The tests of `handle_part_1` and `handle_part_2`. */
  lemma ExampleTotals()
    ensures Total([[0, 3, 6, 9, 12, 15], [1, 3, 6, 10, 15, 21], [10, 13, 16, 21, 30, 45]], false) == Some(114)
    ensures Total([[0, 3, 6, 9, 12, 15], [1, 3, 6, 10, 15, 21], [10, 13, 16, 21, 30, 45]], true) == Some(2)
  {
    FirstHistory();
    SecondHistory();
    ThirdHistory();
    TotalOfThree([0, 3, 6, 9, 12, 15], [1, 3, 6, 10, 15, 21], [10, 13, 16, 21, 30, 45], false);
    TotalOfThree([0, 3, 6, 9, 12, 15], [1, 3, 6, 10, 15, 21], [10, 13, 16, 21, 30, 45], true);
  }
}
