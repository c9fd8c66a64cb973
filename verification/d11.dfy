/** Cosmic expansion (d11/src/main.rs): galaxies `#` on a grid; every row
    and column without a galaxy counts `expand_size` times, and the answer
    is the sum of the expanded Manhattan distances over all pairs of
    galaxies. */
module CosmicExpansion {
  import opened Wrappers

  /** A galaxy position: row, then column. */
  type Pos = (nat, nat)

  // ---------------------------------------------------------------------
  // Byte offsets

  /** The number of bytes UTF-8 spends on `c`. */
  function Utf8Width(c: char): (w: nat)
    ensures 1 <= w <= 4
    ensures w == 1 <==> c as int < 0x80
  {
    if c as int < 0x80 then 1
    else if c as int < 0x800 then 2
    else if c as int < 0x1_0000 then 3
    else 4
  }

  /** The byte offset of character `k` of `line`, which `char_indices`
      yields beside it: the UTF-8 widths of the characters before it. */
  function ByteOffset(line: string, k: nat): (o: nat)
    requires k <= |line|
    ensures k <= o
  {
    if k == 0 then 0 else ByteOffset(line, k - 1) + Utf8Width(line[k - 1])
  }

  /** Every character of `line` takes one byte. */
  predicate Ascii(line: string)
  {
    forall k :: 0 <= k < |line| ==> line[k] as int < 0x80
  }

  /** Byte offsets and character positions coincide exactly on a line of
      one-byte characters. */
  lemma {:induction false} AsciiOffsets(line: string, n: nat)
    requires n <= |line|
    ensures (forall k :: 0 <= k < n ==> line[k] as int < 0x80) <==> ByteOffset(line, n) == n
  {
    if n > 0 {
      AsciiOffsets(line, n - 1);
    }
  }

  // ---------------------------------------------------------------------
  // The grid

  /** The panics of the scan are excluded: there is a first line (its
      character count sizes `col_is_empty`), and every `#` has a byte
      offset within that count (else `col_is_empty[j]` is out of bounds). */
  predicate Valid(lines: seq<string>)
  {
    lines != [] &&
    forall r, k {:trigger ByteOffset(lines[r], k)} :: 0 <= r < |lines| && 0 <= k < |lines[r]| && lines[r][k] == '#' ==>
      ByteOffset(lines[r], k) < |lines[0]|
  }

  predicate RowEmpty(line: string)
  {
    '#' !in line
  }

  /** No `#` among the first `n` characters of `line` sits at byte offset
      `c`. */
  predicate NoHashBefore(line: string, n: nat, c: nat)
    requires n <= |line|
  {
    n == 0 || (NoHashBefore(line, n - 1, c) && (line[n - 1] == '#' ==> ByteOffset(line, n - 1) != c))
  }

  lemma {:induction false} NoHashBeforeMeaning(line: string, n: nat, c: nat)
    requires n <= |line|
    ensures NoHashBefore(line, n, c) <==>
      forall k {:trigger ByteOffset(line, k)} :: 0 <= k < n && line[k] == '#' ==> ByteOffset(line, k) != c
  {
    if n > 0 {
      NoHashBeforeMeaning(line, n - 1, c);
      if NoHashBefore(line, n, c) {
        forall k | 0 <= k < n && line[k] == '#'
          ensures ByteOffset(line, k) != c
        {
          assert NoHashBefore(line, n - 1, c) && (line[n - 1] == '#' ==> ByteOffset(line, n - 1) != c);
          if k < n - 1 {
            assert 0 <= k < n - 1 && line[k] == '#';
          }
        }
      } else if NoHashBefore(line, n - 1, c) {
        assert line[n - 1] == '#' && ByteOffset(line, n - 1) == c;
      }
    }
  }

  /** Column `c` holds no `#` in the first `rows` lines. */
  predicate ColClear(lines: seq<string>, rows: nat, c: nat)
    requires rows <= |lines|
  {
    rows == 0 || (ColClear(lines, rows - 1, c) && NoHashBefore(lines[rows - 1], |lines[rows - 1]|, c))
  }

  lemma {:induction false} ColClearMeaning(lines: seq<string>, rows: nat, c: nat)
    requires rows <= |lines|
    ensures ColClear(lines, rows, c) <==>
      forall r, k :: 0 <= r < rows && 0 <= k < |lines[r]| && lines[r][k] == '#' ==> ByteOffset(lines[r], k) != c
  {
    if rows > 0 {
      ColClearMeaning(lines, rows - 1, c);
      NoHashBeforeMeaning(lines[rows - 1], |lines[rows - 1]|, c);
    }
  }

  /** The flags of the first `n` rows. */
  function RowFlagsUpTo(lines: seq<string>, n: nat): (f: seq<bool>)
    requires n <= |lines|
    ensures |f| == n
    ensures forall i :: 0 <= i < n ==> (f[i] <==> RowEmpty(lines[i]))
  {
    if n == 0 then [] else RowFlagsUpTo(lines, n - 1) + [RowEmpty(lines[n - 1])]
  }

  /** `row_is_empty` after the scan. */
  function RowFlags(lines: seq<string>): (f: seq<bool>)
    ensures |f| == |lines|
    ensures forall i :: 0 <= i < |lines| ==> (f[i] <==> RowEmpty(lines[i]))
  {
    RowFlagsUpTo(lines, |lines|)
  }

  /** The flags of the first `n` columns. */
  function ColFlagsUpTo(lines: seq<string>, n: nat): (f: seq<bool>)
    ensures |f| == n
    ensures forall c :: 0 <= c < n ==> (f[c] <==> ColClear(lines, |lines|, c))
  {
    if n == 0 then [] else ColFlagsUpTo(lines, n - 1) + [ColClear(lines, |lines|, n - 1)]
  }

  /** `col_is_empty` after the scan: as wide as the first line has
      characters. */
  function ColFlags(lines: seq<string>): (f: seq<bool>)
    requires lines != []
    ensures |f| == |lines[0]|
    ensures forall c :: 0 <= c < |f| ==> (f[c] <==> ColClear(lines, |lines|, c))
  {
    ColFlagsUpTo(lines, |lines[0]|)
  }

  /** The galaxies among the first `n` characters of line `i`, left to
      right, each at its byte offset. */
  function RowGalaxiesUpTo(i: nat, line: string, n: nat): seq<Pos>
    requires n <= |line|
  {
    if n == 0 then []
    else RowGalaxiesUpTo(i, line, n - 1) + (if line[n - 1] == '#' then [(i, ByteOffset(line, n - 1))] else [])
  }

  /** The galaxies of line `i`, left to right. */
  function RowGalaxies(i: nat, line: string): seq<Pos>
  {
    RowGalaxiesUpTo(i, line, |line|)
  }

  /** The galaxies of a line are its `#` characters at their byte offsets,
      left to right, all before the offset of character `n`. */
  lemma {:induction false} RowGalaxiesContents(i: nat, line: string, n: nat)
    requires n <= |line|
    ensures var g := RowGalaxiesUpTo(i, line, n);
      (forall p :: p in g <==>
        p.0 == i && exists k :: 0 <= k < n && line[k] == '#' && ByteOffset(line, k) == p.1) &&
      (forall p :: p in g ==> p.1 < ByteOffset(line, n)) &&
      (forall k :: 0 < k < |g| ==> g[k - 1].1 < g[k].1)
  {
    if n > 0 {
      RowGalaxiesContents(i, line, n - 1);
      var g := RowGalaxiesUpTo(i, line, n - 1);
      var h: seq<Pos> := if line[n - 1] == '#' then [(i, ByteOffset(line, n - 1))] else [];
      forall k | 0 < k < |g + h|
        ensures (g + h)[k - 1].1 < (g + h)[k].1
      {
        if k == |g| {
          assert g[k - 1] in g;
        }
      }
    }
  }

  /** The galaxies of the first `n` lines in row-major order. */
  function GalaxiesUpTo(lines: seq<string>, n: nat): seq<Pos>
    requires n <= |lines|
  {
    if n == 0 then [] else GalaxiesUpTo(lines, n - 1) + RowGalaxies(n - 1, lines[n - 1])
  }

  /** The galaxies of the grid in row-major order, as the scan pushes them. */
  function Galaxies(lines: seq<string>): seq<Pos>
  {
    GalaxiesUpTo(lines, |lines|)
  }

  /** The galaxies are exactly the `#` characters of the grid, each at its
      row and byte offset. */
  lemma {:induction false} GalaxiesContents(lines: seq<string>, n: nat)
    requires n <= |lines|
    ensures forall p :: p in GalaxiesUpTo(lines, n) <==>
      p.0 < n && exists k :: 0 <= k < |lines[p.0]| && lines[p.0][k] == '#' && ByteOffset(lines[p.0], k) == p.1
  {
    if n > 0 {
      GalaxiesContents(lines, n - 1);
      RowGalaxiesContents(n - 1, lines[n - 1], |lines[n - 1]|);
    }
  }

  predicate Before(a: Pos, b: Pos)
  {
    a.0 < b.0 || (a.0 == b.0 && a.1 < b.1)
  }

  /** Strictly increasing in row-major order. */
  predicate RowMajor(g: seq<Pos>)
  {
    forall k :: 0 < k < |g| ==> Before(g[k - 1], g[k])
  }

  /** The galaxies come strictly in row-major order. */
  lemma {:induction false} GalaxiesRowMajor(lines: seq<string>, n: nat)
    requires n <= |lines|
    ensures RowMajor(GalaxiesUpTo(lines, n))
  {
    if n > 0 {
      GalaxiesRowMajor(lines, n - 1);
      GalaxiesContents(lines, n - 1);
      RowGalaxiesContents(n - 1, lines[n - 1], |lines[n - 1]|);
      var g := GalaxiesUpTo(lines, n - 1);
      var h := RowGalaxies(n - 1, lines[n - 1]);
      assert RowMajor(g);
      assert forall p :: p in g ==> p.0 < n - 1;
      forall k | 0 < k < |g + h|
        ensures Before((g + h)[k - 1], (g + h)[k])
      {
        if k < |g| {
          assert (g + h)[k - 1] == g[k - 1] && (g + h)[k] == g[k];
        } else if k == |g| {
          assert (g + h)[k - 1] == g[k - 1] && (g + h)[k] == h[0];
          assert g[k - 1] in g && h[0] in h;
          assert g[k - 1].0 < n - 1 && h[0].0 == n - 1;
        } else {
          assert (g + h)[k - 1] == h[k - |g| - 1] && (g + h)[k] == h[k - |g|];
          assert h[k - |g| - 1] in h && h[k - |g|] in h;
          assert h[k - |g| - 1].1 < h[k - |g|].1;
        }
      }
    }
  }

  /** The scan does not panic exactly when every galaxy lies within the
      first line's character count. */
  lemma ValidIffGalaxiesFit(lines: seq<string>)
    ensures Valid(lines) <==> lines != [] && forall p :: p in Galaxies(lines) ==> p.1 < |lines[0]|
  {
    GalaxiesContents(lines, |lines|);
    if lines != [] && forall p :: p in Galaxies(lines) ==> p.1 < |lines[0]| {
      forall r, k | 0 <= r < |lines| && 0 <= k < |lines[r]| && lines[r][k] == '#'
        ensures ByteOffset(lines[r], k) < |lines[0]|
      {
        assert (r, ByteOffset(lines[r], k)) in Galaxies(lines);
      }
    }
  }

  /** A galaxy's row and column are never flagged empty. */
  lemma GalaxyLinesNotEmpty(lines: seq<string>, p: Pos)
    requires Valid(lines) && p in Galaxies(lines)
    ensures p.0 < |RowFlags(lines)| && !RowFlags(lines)[p.0]
    ensures p.1 < |ColFlags(lines)| && !ColFlags(lines)[p.1]
  {
    GalaxiesContents(lines, |lines|);
    ColClearMeaning(lines, |lines|, p.1);
    var k :| 0 <= k < |lines[p.0]| && lines[p.0][k] == '#' && ByteOffset(lines[p.0], k) == p.1;
    assert lines[p.0][k] in lines[p.0];
  }

  /** A column is flagged empty exactly when no galaxy lies in it. */
  lemma ColFlagsFromGalaxies(lines: seq<string>, c: nat)
    requires lines != [] && c < |lines[0]|
    ensures ColFlags(lines)[c] <==> forall p :: p in Galaxies(lines) ==> p.1 != c
  {
    GalaxiesContents(lines, |lines|);
    ColClearMeaning(lines, |lines|, c);
    if !ColFlags(lines)[c] {
      var r, k :| 0 <= r < |lines| && 0 <= k < |lines[r]| && lines[r][k] == '#' && ByteOffset(lines[r], k) == c;
      assert (r, c) in Galaxies(lines);
    }
  }

  // ---------------------------------------------------------------------
  // Distances

  /** How many flags in `[lo, hi)` are set (`filter(|e| **e).count()` on
      the slice). */
  function CountTrue(flags: seq<bool>, lo: nat, hi: nat): (n: nat)
    ensures n <= hi - lo || hi < lo
    decreases hi - lo
  {
    if lo >= hi then 0
    else (if lo < |flags| && flags[lo] then 1 else 0) + CountTrue(flags, lo + 1, hi)
  }

  /** The distance along one axis: after sorting the two coordinates,
      `hi - lo - empty + expand * empty`. */
  function AxisDist(x: nat, y: nat, flags: seq<bool>, expand: nat): nat
  {
    var lo := if x <= y then x else y;
    var hi := if x <= y then y else x;
    var e := CountTrue(flags, lo, hi);
    (hi - lo - e) + expand * e
  }

  /** The expanded distance between two galaxies. */
  function Dist(a: Pos, b: Pos, rowFlags: seq<bool>, colFlags: seq<bool>, expand: nat): nat
  {
    AxisDist(a.0, b.0, rowFlags, expand) + AxisDist(a.1, b.1, colFlags, expand)
  }

  function Manhattan(a: Pos, b: Pos): nat
  {
    (if a.0 <= b.0 then b.0 - a.0 else a.0 - b.0) + (if a.1 <= b.1 then b.1 - a.1 else a.1 - b.1)
  }

  /** The order within a pair does not matter. */
  lemma DistSymmetric(a: Pos, b: Pos, rowFlags: seq<bool>, colFlags: seq<bool>, expand: nat)
    ensures Dist(a, b, rowFlags, colFlags, expand) == Dist(b, a, rowFlags, colFlags, expand)
  {
  }

  /** Expansion 1 leaves the plain Manhattan distance. */
  lemma ExpandOneIsManhattan(a: Pos, b: Pos, rowFlags: seq<bool>, colFlags: seq<bool>)
    ensures Dist(a, b, rowFlags, colFlags, 1) == Manhattan(a, b)
  {
  }

  /** Past the end of the flags nothing counts. */
  lemma {:induction false} CountBeyond(flags: seq<bool>, lo: nat, hi: nat)
    requires |flags| <= lo
    ensures CountTrue(flags, lo, hi) == 0
    decreases hi - lo
  {
    if lo < hi {
      CountBeyond(flags, lo + 1, hi);
    }
  }

  /** Without empty lines the expansion plays no part. */
  lemma NoEmptyLinesIsManhattan(a: Pos, b: Pos, expand: nat)
    ensures Dist(a, b, [], [], expand) == Manhattan(a, b)
  {
    CountBeyond([], if a.0 <= b.0 then a.0 else b.0, if a.0 <= b.0 then b.0 else a.0);
    CountBeyond([], if a.1 <= b.1 then a.1 else b.1, if a.1 <= b.1 then b.1 else a.1);
  }

  /** The distance is affine in the expansion: the base at 0 plus
      `expand` times the crossings, which is the difference between the
      distances at 1 and 0. */
  lemma DistAffine(a: Pos, b: Pos, rowFlags: seq<bool>, colFlags: seq<bool>, expand: nat)
    ensures Affine(expand, Dist(a, b, rowFlags, colFlags, expand),
      Dist(a, b, rowFlags, colFlags, 0), Dist(a, b, rowFlags, colFlags, 1))
  {
    var er := CountTrue(rowFlags, if a.0 <= b.0 then a.0 else b.0, if a.0 <= b.0 then b.0 else a.0);
    var ec := CountTrue(colFlags, if a.1 <= b.1 then a.1 else b.1, if a.1 <= b.1 then b.1 else a.1);
    assert expand * (er + ec) == expand * er + expand * ec;
    assert expand * (Dist(a, b, rowFlags, colFlags, 0) + er + ec) ==
      expand * Dist(a, b, rowFlags, colFlags, 0) + expand * (er + ec);
  }

  /** A set flag at `lo` counts; an unset one does not. */
  lemma CountFirst(flags: seq<bool>, lo: nat, hi: nat)
    requires lo < hi && lo < |flags| && !flags[lo]
    ensures CountTrue(flags, lo, hi) == CountTrue(flags, lo + 1, hi)
  {
  }

  /** Between two galaxies the half-open span counts exactly the empty
      lines strictly between them, because the first line of the span holds
      a galaxy. */
  lemma HalfOpenIsStrictlyBetween(lines: seq<string>, a: Pos, b: Pos)
    requires Valid(lines) && a in Galaxies(lines) && b in Galaxies(lines)
    ensures var lo := if a.0 <= b.0 then a.0 else b.0; var hi := if a.0 <= b.0 then b.0 else a.0;
      lo < hi ==> CountTrue(RowFlags(lines), lo, hi) == CountTrue(RowFlags(lines), lo + 1, hi)
    ensures var lo := if a.1 <= b.1 then a.1 else b.1; var hi := if a.1 <= b.1 then b.1 else a.1;
      lo < hi ==> CountTrue(ColFlags(lines), lo, hi) == CountTrue(ColFlags(lines), lo + 1, hi)
  {
    GalaxyLinesNotEmpty(lines, a);
    GalaxyLinesNotEmpty(lines, b);
  }

  // ---------------------------------------------------------------------
  // The pair sum

  /** The distances from galaxy `a` to galaxies `a + 1 .. b - 1`. */
  function InnerSum(gs: seq<Pos>, a: nat, b: nat, rowFlags: seq<bool>, colFlags: seq<bool>, expand: nat): nat
    requires a < b <= |gs|
    decreases b
  {
    if b == a + 1 then 0
    else InnerSum(gs, a, b - 1, rowFlags, colFlags, expand) + Dist(gs[a], gs[b - 1], rowFlags, colFlags, expand)
  }

  /** The pairs whose first galaxy is among the first `a`, in the order
      `tuple_combinations` yields them. */
  function OuterSum(gs: seq<Pos>, a: nat, rowFlags: seq<bool>, colFlags: seq<bool>, expand: nat): nat
    requires a <= |gs|
  {
    if a == 0 then 0
    else OuterSum(gs, a - 1, rowFlags, colFlags, expand) + InnerSum(gs, a - 1, |gs|, rowFlags, colFlags, expand)
  }

  /** The sum over all unordered pairs. */
  function PairSum(gs: seq<Pos>, rowFlags: seq<bool>, colFlags: seq<bool>, expand: nat): nat
  {
    OuterSum(gs, |gs|, rowFlags, colFlags, expand)
  }

  /** `x` is affine in the expansion `e`, with `x0` its value at 0 and
      `x1` its value at 1. */
  predicate Affine(e: nat, x: nat, x0: nat, x1: nat)
  {
    x + e * x0 == x0 + e * x1
  }

  /** Affine relations add up. */
  lemma AddAffine(e: nat, x: nat, x0: nat, x1: nat, y: nat, y0: nat, y1: nat)
    requires Affine(e, x, x0, x1) && Affine(e, y, y0, y1)
    ensures Affine(e, x + y, x0 + y0, x1 + y1)
  {
    assert e * (x0 + y0) == e * x0 + e * y0;
    assert e * (x1 + y1) == e * x1 + e * y1;
  }

  lemma {:induction false} InnerAffine(gs: seq<Pos>, a: nat, b: nat, rowFlags: seq<bool>, colFlags: seq<bool>, expand: nat)
    requires a < b <= |gs|
    ensures Affine(expand, InnerSum(gs, a, b, rowFlags, colFlags, expand),
      InnerSum(gs, a, b, rowFlags, colFlags, 0), InnerSum(gs, a, b, rowFlags, colFlags, 1))
    decreases b
  {
    if b > a + 1 {
      InnerAffine(gs, a, b - 1, rowFlags, colFlags, expand);
      DistAffine(gs[a], gs[b - 1], rowFlags, colFlags, expand);
      AddAffine(expand, InnerSum(gs, a, b - 1, rowFlags, colFlags, expand),
        InnerSum(gs, a, b - 1, rowFlags, colFlags, 0), InnerSum(gs, a, b - 1, rowFlags, colFlags, 1),
        Dist(gs[a], gs[b - 1], rowFlags, colFlags, expand),
        Dist(gs[a], gs[b - 1], rowFlags, colFlags, 0), Dist(gs[a], gs[b - 1], rowFlags, colFlags, 1));
    }
  }

  lemma {:induction false} OuterAffine(gs: seq<Pos>, a: nat, rowFlags: seq<bool>, colFlags: seq<bool>, expand: nat)
    requires a <= |gs|
    ensures Affine(expand, OuterSum(gs, a, rowFlags, colFlags, expand),
      OuterSum(gs, a, rowFlags, colFlags, 0), OuterSum(gs, a, rowFlags, colFlags, 1))
  {
    if a > 0 {
      OuterAffine(gs, a - 1, rowFlags, colFlags, expand);
      InnerAffine(gs, a - 1, |gs|, rowFlags, colFlags, expand);
      AddAffine(expand, OuterSum(gs, a - 1, rowFlags, colFlags, expand),
        OuterSum(gs, a - 1, rowFlags, colFlags, 0), OuterSum(gs, a - 1, rowFlags, colFlags, 1),
        InnerSum(gs, a - 1, |gs|, rowFlags, colFlags, expand),
        InnerSum(gs, a - 1, |gs|, rowFlags, colFlags, 0), InnerSum(gs, a - 1, |gs|, rowFlags, colFlags, 1));
    }
  }

  /** The answer is affine in `expand_size`: with `B` the answer at 0 and
      `B + C` the plain Manhattan sum at 1, the answer is `B + expand * C`. */
  lemma PairSumAffine(gs: seq<Pos>, rowFlags: seq<bool>, colFlags: seq<bool>, expand: nat)
    ensures PairSum(gs, rowFlags, colFlags, expand) + expand * PairSum(gs, rowFlags, colFlags, 0) ==
      PairSum(gs, rowFlags, colFlags, 0) + expand * PairSum(gs, rowFlags, colFlags, 1)
  {
    OuterAffine(gs, |gs|, rowFlags, colFlags, expand);
  }

  /** The plain Manhattan distances from galaxy `a` to galaxies `a + 1 .. b - 1`. */
  function ManhattanInner(gs: seq<Pos>, a: nat, b: nat): nat
    requires a < b <= |gs|
    decreases b
  {
    if b == a + 1 then 0 else ManhattanInner(gs, a, b - 1) + Manhattan(gs[a], gs[b - 1])
  }

  /** The plain Manhattan distances of the pairs whose first galaxy is among the first `a`. */
  function ManhattanOuter(gs: seq<Pos>, a: nat): nat
    requires a <= |gs|
  {
    if a == 0 then 0 else ManhattanOuter(gs, a - 1) + ManhattanInner(gs, a - 1, |gs|)
  }

  /** The sum of `Manhattan(gs[i], gs[j])` over all pairs `i < j`. */
  function ManhattanSum(gs: seq<Pos>): nat
  {
    ManhattanOuter(gs, |gs|)
  }

  lemma {:induction false} InnerExpandOne(gs: seq<Pos>, a: nat, b: nat, rowFlags: seq<bool>, colFlags: seq<bool>)
    requires a < b <= |gs|
    ensures InnerSum(gs, a, b, rowFlags, colFlags, 1) == InnerSum(gs, a, b, [], [], 0)
    ensures InnerSum(gs, a, b, rowFlags, colFlags, 1) == ManhattanInner(gs, a, b)
    decreases b
  {
    if b > a + 1 {
      InnerExpandOne(gs, a, b - 1, rowFlags, colFlags);
      ExpandOneIsManhattan(gs[a], gs[b - 1], rowFlags, colFlags);
      NoEmptyLinesIsManhattan(gs[a], gs[b - 1], 0);
    }
  }

  lemma {:induction false} OuterExpandOne(gs: seq<Pos>, a: nat, rowFlags: seq<bool>, colFlags: seq<bool>)
    requires a <= |gs|
    ensures OuterSum(gs, a, rowFlags, colFlags, 1) == OuterSum(gs, a, [], [], 0)
    ensures OuterSum(gs, a, rowFlags, colFlags, 1) == ManhattanOuter(gs, a)
  {
    if a > 0 {
      OuterExpandOne(gs, a - 1, rowFlags, colFlags);
      InnerExpandOne(gs, a - 1, |gs|, rowFlags, colFlags);
    }
  }

  /** With expansion 1 the answer is the plain Manhattan sum over all
      pairs, which is also the answer for the same galaxies when no line is
      empty. */
  lemma PairSumExpandOne(gs: seq<Pos>, rowFlags: seq<bool>, colFlags: seq<bool>)
    ensures PairSum(gs, rowFlags, colFlags, 1) == ManhattanSum(gs)
    ensures PairSum(gs, rowFlags, colFlags, 1) == PairSum(gs, [], [], 0)
  {
    OuterExpandOne(gs, |gs|, rowFlags, colFlags);
  }

  /** The three tests agree with one another: on any grid where expansion
      2 gives 374 and expansion 10 gives 1030, expansion 100 gives 8410. */
  lemma ExpectedValuesConsistent(gs: seq<Pos>, rowFlags: seq<bool>, colFlags: seq<bool>)
    requires PairSum(gs, rowFlags, colFlags, 2) == 374
    requires PairSum(gs, rowFlags, colFlags, 10) == 1030
    ensures PairSum(gs, rowFlags, colFlags, 100) == 8410
  {
    PairSumAffine(gs, rowFlags, colFlags, 2);
    PairSumAffine(gs, rowFlags, colFlags, 10);
    PairSumAffine(gs, rowFlags, colFlags, 100);
  }

  // ---------------------------------------------------------------------
  // The loops of `handle`

  /** One character `ch` of line `i` at byte offset `j`: a `#` is pushed
      as a galaxy and clears the row's flag and its column's flag; `ok` is
      false where the source panics on a `#` at or beyond `cols`. */
  method ScanCell(ch: char, i: nat, j: nat, cols: nat, rowEmpty: array<bool>, colEmpty: array<bool>, galaxies: seq<Pos>)
    returns (pushed: seq<Pos>, ok: bool)
    requires i < rowEmpty.Length && colEmpty.Length == cols && rowEmpty != colEmpty
    modifies rowEmpty, colEmpty
    ensures ok <==> ch != '#' || j < cols
    ensures ok ==> forall k :: 0 <= k < rowEmpty.Length && k != i ==> rowEmpty[k] == old(rowEmpty[k])
    ensures ok ==> rowEmpty[i] == (old(rowEmpty[i]) && ch != '#')
    ensures ok ==> forall c :: 0 <= c < cols ==> colEmpty[c] == (old(colEmpty[c]) && (ch == '#' ==> c != j))
    ensures ok ==> pushed == galaxies + (if ch == '#' then [(i, j)] else [])
  {
    pushed := galaxies;
    ok := true;
    if ch == '#' {
      if j >= cols {
        return pushed, false;
      }
      pushed := pushed + [(i, j)];
      rowEmpty[i] := false;
      colEmpty[j] := false;
    }
  }

  /** The scan of line `i` by `char_indices`: character after character,
      the byte offset advancing by each character's UTF-8 width. */
  method ScanLine(line: string, i: nat, cols: nat, rowEmpty: array<bool>, colEmpty: array<bool>, galaxies: seq<Pos>)
    returns (pushed: seq<Pos>, ok: bool)
    requires i < rowEmpty.Length && colEmpty.Length == cols && rowEmpty != colEmpty
    modifies rowEmpty, colEmpty
    ensures ok <==> forall k {:trigger ByteOffset(line, k)} :: 0 <= k < |line| && line[k] == '#' ==> ByteOffset(line, k) < cols
    ensures ok ==> forall k :: 0 <= k < rowEmpty.Length && k != i ==> rowEmpty[k] == old(rowEmpty[k])
    ensures ok ==> rowEmpty[i] == (old(rowEmpty[i]) && RowEmpty(line))
    ensures ok ==> forall c :: 0 <= c < cols ==>
      colEmpty[c] == (old(colEmpty[c]) && NoHashBefore(line, |line|, c))
    ensures ok ==> pushed == galaxies + RowGalaxies(i, line)
  {
    pushed := galaxies;
    var j := 0;
    for k := 0 to |line|
      invariant j == ByteOffset(line, k)
      invariant forall r :: 0 <= r < rowEmpty.Length && r != i ==> rowEmpty[r] == old(rowEmpty[r])
      invariant rowEmpty[i] == (old(rowEmpty[i]) && RowEmpty(line[..k]))
      invariant forall c :: 0 <= c < cols ==> colEmpty[c] == (old(colEmpty[c]) && NoHashBefore(line, k, c))
      invariant pushed == galaxies + RowGalaxiesUpTo(i, line, k)
      invariant forall kk {:trigger ByteOffset(line, kk)} :: 0 <= kk < k && line[kk] == '#' ==> ByteOffset(line, kk) < cols
    {
      assert line[..k + 1] == line[..k] + [line[k]];
      var cellOk;
      pushed, cellOk := ScanCell(line[k], i, j, cols, rowEmpty, colEmpty, pushed);
      if !cellOk {
        return pushed, false;
      }
      j := j + Utf8Width(line[k]);
    }
    assert line[..|line|] == line;
    ok := true;
  }

  /** The scan of the grid, line after line. `ok` is false where the source
      panics on a `#` whose byte offset reaches the first line's character
      count. */
  method ScanGrid(lines: seq<string>) returns (rowEmpty: array<bool>, colEmpty: array<bool>, galaxies: seq<Pos>, ok: bool)
    requires lines != []
    ensures fresh(rowEmpty) && fresh(colEmpty)
    ensures ok <==> Valid(lines)
    ensures ok ==> rowEmpty[..] == RowFlags(lines) && colEmpty[..] == ColFlags(lines) && galaxies == Galaxies(lines)
  {
    var cols := |lines[0]|;
    rowEmpty := new bool[|lines|](_ => true);
    colEmpty := new bool[cols](_ => true);
    galaxies := [];
    for i := 0 to |lines|
      invariant forall k :: 0 <= k < |lines| ==> rowEmpty[k] == (i <= k || RowEmpty(lines[k]))
      invariant forall c :: 0 <= c < cols ==> colEmpty[c] == ColClear(lines, i, c)
      invariant galaxies == GalaxiesUpTo(lines, i)
      invariant forall r, k {:trigger ByteOffset(lines[r], k)} :: 0 <= r < i && 0 <= k < |lines[r]| && lines[r][k] == '#' ==> ByteOffset(lines[r], k) < cols
    {
      var lineOk;
      galaxies, lineOk := ScanLine(lines[i], i, cols, rowEmpty, colEmpty, galaxies);
      if !lineOk {
        return rowEmpty, colEmpty, galaxies, false;
      }
    }
    RowFlagsFrom(lines, rowEmpty[..]);
    ColFlagsFrom(lines, colEmpty[..]);
    ok := true;
  }

  /** Flags that agree with every row are the row flags. */
  lemma RowFlagsFrom(lines: seq<string>, f: seq<bool>)
    requires |f| == |lines| && forall k :: 0 <= k < |lines| ==> f[k] == RowEmpty(lines[k])
    ensures f == RowFlags(lines)
  {
  }

  /** Flags that agree with every column of the first line's width are the column flags. */
  lemma ColFlagsFrom(lines: seq<string>, f: seq<bool>)
    requires lines != [] && |f| == |lines[0]|
    requires forall c :: 0 <= c < |f| ==> f[c] == ColClear(lines, |lines|, c)
    ensures f == ColFlags(lines)
  {
  }

  /** The `filter(..).count()` over a slice of the flags. */
  method CountEmpty(flags: array<bool>, lo: nat, hi: nat) returns (n: nat)
    requires lo <= hi <= flags.Length
    ensures n == CountTrue(flags[..], lo, hi)
  {
    n := 0;
    var k := hi;
    while k > lo
      invariant lo <= k <= hi
      invariant n == CountTrue(flags[..], k, hi)
      decreases k
    {
      k := k - 1;
      if flags[k] {
        n := n + 1;
      }
    }
  }

  /** One axis of a pair: sort the two coordinates, count the empty lines
      of the half-open span and expand them. */
  method AxisSpan(x: nat, y: nat, empty: array<bool>, expand: nat) returns (d: nat)
    requires x < empty.Length && y < empty.Length
    ensures d == AxisDist(x, y, empty[..], expand)
  {
    var sorted := if x <= y then (x, y) else (y, x);
    var emptyCount := CountEmpty(empty, sorted.0, sorted.1);
    d := sorted.1 - sorted.0 - emptyCount + expand * emptyCount;
  }

  /** One pair: the row span plus the column span. */
  method PairDistance(a: Pos, b: Pos, rowEmpty: array<bool>, colEmpty: array<bool>, expand: nat) returns (d: nat)
    requires a.0 < rowEmpty.Length && b.0 < rowEmpty.Length
    requires a.1 < colEmpty.Length && b.1 < colEmpty.Length
    ensures d == Dist(a, b, rowEmpty[..], colEmpty[..], expand)
  {
    var rows := AxisSpan(a.0, b.0, rowEmpty, expand);
    var cols := AxisSpan(a.1, b.1, colEmpty, expand);
    d := rows + cols;
  }

  /** The loop over `tuple_combinations`: every pair `a < b` in turn adds
      its expanded distance to `res`. */
  method SumPairs(galaxies: seq<Pos>, rowEmpty: array<bool>, colEmpty: array<bool>, expand: nat) returns (res: nat)
    requires forall k :: 0 <= k < |galaxies| ==> galaxies[k].0 < rowEmpty.Length && galaxies[k].1 < colEmpty.Length
    ensures res == PairSum(galaxies, rowEmpty[..], colEmpty[..], expand)
  {
    res := 0;
    for a := 0 to |galaxies|
      invariant res == OuterSum(galaxies, a, rowEmpty[..], colEmpty[..], expand)
    {
      for b := a + 1 to |galaxies|
        invariant res == OuterSum(galaxies, a, rowEmpty[..], colEmpty[..], expand) +
          InnerSum(galaxies, a, b, rowEmpty[..], colEmpty[..], expand)
      {
        var d := PairDistance(galaxies[a], galaxies[b], rowEmpty, colEmpty, expand);
        res := res + d;
      }
    }
  }

  /** `handle`: `None` where the source panics (no first line, or a `#`
      beyond the first line's length); otherwise the pair sum over the
      galaxies in row-major order with the flags of the scan. */
  method Handle(lines: seq<string>, expand: nat) returns (r: Option<nat>)
    ensures r.None? <==> !Valid(lines)
    ensures r.Some? ==> r.value == PairSum(Galaxies(lines), RowFlags(lines), ColFlags(lines), expand)
  {
    if lines == [] {
      return None;
    }
    var rowEmpty, colEmpty, galaxies, ok := ScanGrid(lines);
    if !ok {
      return None;
    }
    forall k | 0 <= k < |galaxies|
      ensures galaxies[k].0 < rowEmpty.Length && galaxies[k].1 < colEmpty.Length
    {
      assert galaxies[k] in Galaxies(lines);
      GalaxyLinesNotEmpty(lines, galaxies[k]);
    }
    var res := SumPairs(galaxies, rowEmpty, colEmpty, expand);
    return Some(res);
  }

  // ---------------------------------------------------------------------
  // The grid of the tests

  /** The grid of the three tests of `handle`. */
  const ExampleGrid: seq<string> := [
    "...#......",
    ".......#..",
    "#.........",
    "..........",
    "......#...",
    ".#........",
    ".........#",
    "..........",
    ".......#..",
    "#...#....."]

  const ExampleGalaxies: seq<Pos> := [(0, 3), (1, 7), (2, 0), (4, 6), (5, 1), (6, 9), (8, 7), (9, 0), (9, 4)]

  /** The galaxies of each line of the test grid. */
  lemma ExampleRow0()
    ensures RowGalaxies(0, ExampleGrid[0]) == [(0, 3)]
  {
    assert RowGalaxiesUpTo(0, "...#......", 10) == [(0, 3)];
  }

  lemma ExampleRow1()
    ensures RowGalaxies(1, ExampleGrid[1]) == [(1, 7)]
  {
    assert RowGalaxiesUpTo(1, ".......#..", 10) == [(1, 7)];
  }

  lemma ExampleRow2()
    ensures RowGalaxies(2, ExampleGrid[2]) == [(2, 0)]
  {
    assert RowGalaxiesUpTo(2, "#.........", 10) == [(2, 0)];
  }

  lemma ExampleRow3()
    ensures RowGalaxies(3, ExampleGrid[3]) == []
  {
    assert RowGalaxiesUpTo(3, "..........", 10) == [];
  }

  lemma ExampleRow4()
    ensures RowGalaxies(4, ExampleGrid[4]) == [(4, 6)]
  {
    assert RowGalaxiesUpTo(4, "......#...", 10) == [(4, 6)];
  }

  lemma ExampleRow5()
    ensures RowGalaxies(5, ExampleGrid[5]) == [(5, 1)]
  {
    assert RowGalaxiesUpTo(5, ".#........", 10) == [(5, 1)];
  }

  lemma ExampleRow6()
    ensures RowGalaxies(6, ExampleGrid[6]) == [(6, 9)]
  {
    assert RowGalaxiesUpTo(6, ".........#", 10) == [(6, 9)];
  }

  lemma ExampleRow7()
    ensures RowGalaxies(7, ExampleGrid[7]) == []
  {
    assert RowGalaxiesUpTo(7, "..........", 10) == [];
  }

  lemma ExampleRow8()
    ensures RowGalaxies(8, ExampleGrid[8]) == [(8, 7)]
  {
    assert RowGalaxiesUpTo(8, ".......#..", 10) == [(8, 7)];
  }

  lemma ExampleRow9()
    ensures RowGalaxies(9, ExampleGrid[9]) == [(9, 0), (9, 4)]
  {
    assert RowGalaxiesUpTo(9, "#...#.....", 10) == [(9, 0), (9, 4)];
  }

  /** One more line read onto the galaxies of the lines above it. */
  lemma GalaxiesStep(lines: seq<string>, n: nat, above: seq<Pos>, row: seq<Pos>)
    requires 0 < n <= |lines|
    requires GalaxiesUpTo(lines, n - 1) == above && RowGalaxies(n - 1, lines[n - 1]) == row
    ensures GalaxiesUpTo(lines, n) == above + row
  {
  }

  /** The galaxies of the first five lines of the test grid, from those
      of each line. */
  lemma ExampleGalaxiesTop(g: seq<string>)
    requires |g| == 10
    requires RowGalaxies(0, g[0]) == [(0, 3)] && RowGalaxies(1, g[1]) == [(1, 7)]
    requires RowGalaxies(2, g[2]) == [(2, 0)] && RowGalaxies(3, g[3]) == []
    requires RowGalaxies(4, g[4]) == [(4, 6)]
    ensures GalaxiesUpTo(g, 5) == [(0, 3), (1, 7), (2, 0), (4, 6)]
  {
    GalaxiesStep(g, 1, [], [(0, 3)]);
    GalaxiesStep(g, 2, [(0, 3)], [(1, 7)]);
    GalaxiesStep(g, 3, [(0, 3), (1, 7)], [(2, 0)]);
    GalaxiesStep(g, 4, [(0, 3), (1, 7), (2, 0)], []);
    GalaxiesStep(g, 5, [(0, 3), (1, 7), (2, 0)], [(4, 6)]);
  }

  /** The first eight lines of the test grid, from the first five and
      each of the next three. */
  lemma ExampleGalaxiesMiddle(g: seq<string>)
    requires |g| == 10 && GalaxiesUpTo(g, 5) == [(0, 3), (1, 7), (2, 0), (4, 6)]
    requires RowGalaxies(5, g[5]) == [(5, 1)]
    requires RowGalaxies(6, g[6]) == [(6, 9)] && RowGalaxies(7, g[7]) == []
    ensures GalaxiesUpTo(g, 8) == [(0, 3), (1, 7), (2, 0), (4, 6), (5, 1), (6, 9)]
  {
    GalaxiesStep(g, 6, [(0, 3), (1, 7), (2, 0), (4, 6)], [(5, 1)]);
    GalaxiesStep(g, 7, [(0, 3), (1, 7), (2, 0), (4, 6), (5, 1)], [(6, 9)]);
    GalaxiesStep(g, 8, [(0, 3), (1, 7), (2, 0), (4, 6), (5, 1), (6, 9)], []);
  }

  /** All ten lines of the test grid, from the first eight and the last
      two. */
  lemma ExampleGalaxiesOf(g: seq<string>)
    requires |g| == 10 && GalaxiesUpTo(g, 8) == [(0, 3), (1, 7), (2, 0), (4, 6), (5, 1), (6, 9)]
    requires RowGalaxies(8, g[8]) == [(8, 7)] && RowGalaxies(9, g[9]) == [(9, 0), (9, 4)]
    ensures Galaxies(g) == ExampleGalaxies
  {
    GalaxiesStep(g, 9, [(0, 3), (1, 7), (2, 0), (4, 6), (5, 1), (6, 9)], [(8, 7)]);
    GalaxiesStep(g, 10, [(0, 3), (1, 7), (2, 0), (4, 6), (5, 1), (6, 9), (8, 7)], [(9, 0), (9, 4)]);
  }

  /** The scan pushes the nine galaxies in row-major order. */
  lemma ExampleGalaxyList()
    ensures Galaxies(ExampleGrid) == ExampleGalaxies
  {
    ExampleRow0();
    ExampleRow1();
    ExampleRow2();
    ExampleRow3();
    ExampleRow4();
    ExampleRow5();
    ExampleRow6();
    ExampleRow7();
    ExampleRow8();
    ExampleRow9();
    ExampleGalaxiesTop(ExampleGrid);
    ExampleGalaxiesMiddle(ExampleGrid);
    ExampleGalaxiesOf(ExampleGrid);
  }

  /** Rows 3 and 7 are empty. */
  lemma ExampleRowFlags()
    ensures RowFlags(ExampleGrid) == [false, false, false, true, false, false, false, true, false, false]
  {
  }

  /** Columns 2, 5 and 8 are empty: no galaxy of the test grid lies in
      them, and one lies in each other column. */
  lemma ExampleColFlags()
    ensures ColFlags(ExampleGrid) == [false, false, true, false, false, true, false, false, true, false]
  {
    ExampleGalaxyList();
    forall c | 0 <= c < 10
      ensures ColFlags(ExampleGrid)[c] <==> forall p :: p in ExampleGalaxies ==> p.1 != c
    {
      ColFlagsFromGalaxies(ExampleGrid, c);
    }
    assert ExampleGalaxies[2].1 == 0 && ExampleGalaxies[4].1 == 1 && ExampleGalaxies[0].1 == 3;
    assert ExampleGalaxies[8].1 == 4 && ExampleGalaxies[3].1 == 6 && ExampleGalaxies[1].1 == 7;
    assert ExampleGalaxies[5].1 == 9;
  }

  /** A two-byte character shifts the columns: in the one-line grid `é#`
      the `#` is the second character but sits at byte offset 2, past the
      two flags of `col_is_empty`, so the scan panics. */
  lemma MultiByteShiftsColumn()
    ensures ByteOffset("\U{E9}#", 1) == 2
    ensures !Valid(["\U{E9}#"])
  {
    var lines := ["\U{E9}#"];
    assert lines[0][1] == '#' && ByteOffset(lines[0], 1) == 2;
  }

  /** The grid of the tests scans without a panic. */
  lemma ExampleValid()
    ensures Valid(ExampleGrid)
  {
    ExampleGalaxyList();
    ValidIffGalaxiesFit(ExampleGrid);
  }
}
