/** Trebuchet calibration (d01/src/main.rs): the calibration value of a line
    is formed from its first and its last decimal digit. */
module Calibration {
  import opened Wrappers

  /** `char::to_digit(10)`: only the ASCII digits have a value. */
  function DigitValue(c: char): (r: Option<nat>)
    ensures r.Some? <==> '0' <= c <= '9'
    ensures r.Some? ==> r.value < 10 && r.value == c as int - '0' as int
  {
    if '0' <= c <= '9' then Some(c as int - '0' as int) else None
  }

  /** The digit values of a line, left to right. */
  function Digits(line: string): (ds: seq<nat>)
    ensures |ds| <= |line|
    ensures forall i :: 0 <= i < |ds| ==> ds[i] < 10
  {
    if line == [] then []
    else
      match DigitValue(line[0])
      case Some(d) => [d] + Digits(line[1..])
      case None => Digits(line[1..])
  }

  /** Digits distribute over concatenation. */
  lemma {:induction false} DigitsAppend(a: string, b: string)
    ensures Digits(a + b) == Digits(a) + Digits(b)
  {
    if a == [] {
      assert a + b == b;
    } else {
      assert (a + b)[0] == a[0];
      assert (a + b)[1..] == a[1..] + b;
      DigitsAppend(a[1..], b);
    }
  }

  /** The calibration value: ten times the first digit plus the last digit,
      or `None` where the source unwraps a missing digit. */
  function Calibration(line: string): (r: Option<nat>)
    ensures r.None? <==> forall k :: 0 <= k < |line| ==> DigitValue(line[k]).None?
    ensures r.Some? ==> r.value <= 99
  {
    var ds := Digits(line);
    NoDigitsNoValues(line);
    if ds == [] then None else Some(10 * ds[0] + ds[|ds| - 1])
  }

  lemma {:induction false} NoDigitsNoValues(line: string)
    ensures Digits(line) == [] <==> forall k :: 0 <= k < |line| ==> DigitValue(line[k]).None?
  {
    if line != [] {
      NoDigitsNoValues(line[1..]);
      assert forall k :: 1 <= k < |line| ==> line[k] == line[1..][k - 1];
    }
  }

  /** `get_calibration_from_line`: one pass over the characters, keeping the
      first digit seen and overwriting the last one. */
  method CalibrationFromLine(line: string) returns (r: Option<nat>)
    ensures r == Calibration(line)
  {
    var first: Option<nat> := None;
    var last: Option<nat> := None;
    for i := 0 to |line|
      invariant var ds := Digits(line[..i]);
        && (ds == [] ==> first.None? && last.None?)
        && (ds != [] ==> first == Some(ds[0]) && last == Some(ds[|ds| - 1]))
    {
      assert line[..i + 1] == line[..i] + [line[i]];
      DigitsAppend(line[..i], [line[i]]);
      var digit := DigitValue(line[i]);
      if digit.Some? {
        last := digit;
        if first == None {
          first := digit;
        }
      }
    }
    assert line[..|line|] == line;
    if first.None? || last.None? {
      return None;
    }
    return Some(first.value * 10 + last.value);
  }

  /** Characters that are not digits do not affect the value, wherever they stand. */
  lemma NonDigitIgnored(a: string, c: char, b: string)
    requires DigitValue(c).None?
    ensures Calibration(a + [c] + b) == Calibration(a + b)
  {
    DigitsAppend(a + [c], b);
    DigitsAppend(a, [c]);
    DigitsAppend(a, b);
    assert Digits([c]) == [];
  }

  /** The digits of a line whose outer parts hold none: the two marked
      digits around those of the middle. */
  lemma DigitsBetween(a: string, d: char, m: string, e: char, b: string)
    requires Digits(a) == [] && Digits(b) == []
    requires '0' <= d <= '9' && '0' <= e <= '9'
    ensures Digits(a + [d] + m + [e] + b) == [d as int - '0' as int] + Digits(m) + [e as int - '0' as int]
  {
    var left := a + [d];
    var mid := left + m;
    var full := mid + [e];
    DigitsAppend(full, b);
    assert Digits(full + b) == Digits(full);
    DigitsAppend(mid, [e]);
    assert Digits([e]) == [e as int - '0' as int];
    DigitsAppend(left, m);
    DigitsAppend(a, [d]);
    assert Digits([d]) == [d as int - '0' as int];
    assert Digits(left) == [d as int - '0' as int];
  }

  /** The value reads the first and the last digit of the line: whatever
      stands between them does not matter. */
  lemma CalibrationReadsEnds(a: string, d: char, m: string, e: char, b: string)
    requires Digits(a) == [] && Digits(b) == []
    requires '0' <= d <= '9' && '0' <= e <= '9'
    ensures Calibration(a + [d] + m + [e] + b) == Some(10 * (d as int - '0' as int) + (e as int - '0' as int))
  {
    DigitsBetween(a, d, m, e, b);
    var ds := Digits(a + [d] + m + [e] + b);
    assert ds[0] == d as int - '0' as int;
    assert ds[|ds| - 1] == e as int - '0' as int;
  }

  /** A line with a single digit `d` is worth `11 * d`. */
  lemma SingleDigit(line: string, d: nat)
    requires Digits(line) == [d]
    ensures Calibration(line) == Some(11 * d)
  {
  }

  /** The four lines of the tests. */
  lemma ExampleOne()
    ensures Calibration("1abc2") == Some(12)
  {
  }

  lemma ExampleTwo()
    ensures Calibration("pqr3stu8vwx") == Some(38)
  {
  }

  lemma ExampleThree()
    ensures Calibration("a1b2c3d4e5f") == Some(15)
  {
  }

  lemma ExampleFour()
    ensures Calibration("treb7uchet") == Some(77)
  {
  }
}
