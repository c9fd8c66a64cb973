/** The square loop of the day-10 tests (d10/src/main.rs:223-231 and
    246-254), followed from its text through the parse, the start
    resolution and the trace to both answers. */
module PipeMazeSquare {
  import opened Wrappers
  import opened PipeMaze

  /** The maze text of the square tests, split into lines. */
  const SquareLines: seq<string> := [".....", ".S-7.", ".|.|.", ".L-J.", "....."]

  /** The grid the text parses to. */
  const SquareGrid: seq<seq<Shape>> := [
    [Ground, Ground, Ground, Ground, Ground],
    [Ground, Start, Horizontal, SouthWest, Ground],
    [Ground, Vertical, Ground, Vertical, Ground],
    [Ground, NorthEast, Horizontal, NorthWest, Ground],
    [Ground, Ground, Ground, Ground, Ground]]

  // ---------------------------------------------------------------------
  // The parse

  /** A five-character line without leading whitespace reads as the five
      shapes of its characters. */
  lemma ParseFive(line: string, row: seq<Shape>)
    requires |line| == 5 && |row| == 5 && !IsWhitespace(line[0])
    requires ShapeOf(line[0]) == Some(row[0]) && ShapeOf(line[1]) == Some(row[1])
    requires ShapeOf(line[2]) == Some(row[2]) && ShapeOf(line[3]) == Some(row[3])
    requires ShapeOf(line[4]) == Some(row[4])
    ensures ParseLine(line) == Some(row)
  {
    assert TrimStart(line) == line;
    forall k | 0 <= k < 5
      ensures ShapeOf(line[k]) == Some(row[k])
    {
      assert k == 0 || k == 1 || k == 2 || k == 3 || k == 4;
    }
    assert ParseRow(line).Some?;
    var r := ParseRow(line).value;
    forall k | 0 <= k < 5
      ensures r[k] == row[k]
    {
    }
    assert r == row;
  }

  /** `collect` succeeds with the values when every entry holds one. */
  lemma {:induction false} AllSomeOf<T>(xs: seq<Option<T>>, ys: seq<T>)
    requires |xs| == |ys| && forall i :: 0 <= i < |xs| ==> xs[i] == Some(ys[i])
    ensures AllSome(xs) == Some(ys)
  {
    if xs != [] {
      AllSomeOf(xs[1..], ys[1..]);
      assert ys == [ys[0]] + ys[1..];
    }
  }

  /** Five lines that read as five rows parse to the grid of those rows. */
  lemma ParseFiveLines(l0: string, l1: string, l2: string, l3: string, l4: string,
                       r0: seq<Shape>, r1: seq<Shape>, r2: seq<Shape>, r3: seq<Shape>, r4: seq<Shape>)
    requires ParseLine(l0) == Some(r0) && ParseLine(l1) == Some(r1) && ParseLine(l2) == Some(r2)
    requires ParseLine(l3) == Some(r3) && ParseLine(l4) == Some(r4)
    ensures ParseGrid([l0, l1, l2, l3, l4]) == Ok([r0, r1, r2, r3, r4])
  {
    var lines, g := [l0, l1, l2, l3, l4], [r0, r1, r2, r3, r4];
    var ps := ParsedLines(lines);
    forall i | 0 <= i < 5
      ensures ps[i] == Some(g[i])
    {
      assert i == 0 || i == 1 || i == 2 || i == 3 || i == 4;
    }
    AllSomeOf(ps, g);
  }

  /** A row of ground. */
  lemma SquareLine0()
    ensures ParseLine(".....") == Some([Ground, Ground, Ground, Ground, Ground])
  {
    ParseFive(".....", [Ground, Ground, Ground, Ground, Ground]);
  }

  /** The top edge, with the start. */
  lemma SquareLine1()
    ensures ParseLine(".S-7.") == Some([Ground, Start, Horizontal, SouthWest, Ground])
  {
    ParseFive(".S-7.", [Ground, Start, Horizontal, SouthWest, Ground]);
  }

  /** The two sides. */
  lemma SquareLine2()
    ensures ParseLine(".|.|.") == Some([Ground, Vertical, Ground, Vertical, Ground])
  {
    ParseFive(".|.|.", [Ground, Vertical, Ground, Vertical, Ground]);
  }

  /** The bottom edge. */
  lemma SquareLine3()
    ensures ParseLine(".L-J.") == Some([Ground, NorthEast, Horizontal, NorthWest, Ground])
  {
    ParseFive(".L-J.", [Ground, NorthEast, Horizontal, NorthWest, Ground]);
  }

  /** The square text parses to `SquareGrid`. */
  lemma SquareParses()
    ensures ParseGrid(SquareLines) == Ok(SquareGrid)
  {
    SquareLine0();
    SquareLine1();
    SquareLine2();
    SquareLine3();
    ParseFiveLines(".....", ".S-7.", ".|.|.", ".L-J.", ".....",
      [Ground, Ground, Ground, Ground, Ground],
      [Ground, Start, Horizontal, SouthWest, Ground],
      [Ground, Vertical, Ground, Vertical, Ground],
      [Ground, NorthEast, Horizontal, NorthWest, Ground],
      [Ground, Ground, Ground, Ground, Ground]);
  }

  // ---------------------------------------------------------------------
  // The start

  /** The one `S` is at row 1, column 1. */
  lemma SquareStartCell(p: Pos)
    requires InGrid(SquareGrid, p) && Cell(SquareGrid, p) == Start
    ensures p == Pos(1, 1)
  {
    assert p.row == 0 || p.row == 1 || p.row == 2 || p.row == 3 || p.row == 4;
    assert p.col == 0 || p.col == 1 || p.col == 2 || p.col == 3 || p.col == 4;
  }

  /** A grid with a single `S` queues exactly that one. */
  lemma SingleStart(g: seq<seq<Shape>>, s: Pos)
    requires InGrid(g, s) && Cell(g, s) == Start
    requires forall p :: InGrid(g, p) && Cell(g, p) == Start ==> p == s
    ensures Starts(g) == [s]
  {
    var ps := Starts(g);
    assert s in ps;
    forall i | 0 <= i < |ps|
      ensures ps[i] == s
    {
      assert ps[i] in ps;
    }
    assert |ps| > 1 ==> Before(ps[0], ps[1]);
  }

  /** The queue of starts holds the one `S`. */
  lemma SquareStarts()
    ensures Starts(SquareGrid) == [Pos(1, 1)]
  {
    forall p | InGrid(SquareGrid, p) && Cell(SquareGrid, p) == Start
      ensures p == Pos(1, 1)
    {
      SquareStartCell(p);
    }
    SingleStart(SquareGrid, Pos(1, 1));
  }

  /** South and east connect to the start, north does not: it becomes
      SouthEast. */
  lemma SquareStartResolves()
    ensures StartNeighbours(SquareGrid, Pos(1, 1)) == Ok(Neighbours(false, true, true))
    ensures ResolveStart(false, true, true) == SouthEast
  {
  }

  // ---------------------------------------------------------------------
  // The trace

  /** The distances of the eight loop tiles from the start. */
  const SquareDistances: map<Pos, nat> := map[
    Pos(1, 1) := 0, Pos(1, 2) := 1, Pos(2, 1) := 1, Pos(1, 3) := 2,
    Pos(3, 1) := 2, Pos(2, 3) := 3, Pos(3, 2) := 3, Pos(3, 3) := 4]

  /** The maze the trace leaves: the start rewritten to SouthEast, and
      every loop tile labelled with its distance. */
  const SquareMaze: Maze := [
    [Tile(Ground, None), Tile(Ground, None), Tile(Ground, None), Tile(Ground, None), Tile(Ground, None)],
    [Tile(Ground, None), Tile(SouthEast, Some(0)), Tile(Horizontal, Some(1)), Tile(SouthWest, Some(2)), Tile(Ground, None)],
    [Tile(Ground, None), Tile(Vertical, Some(1)), Tile(Ground, None), Tile(Vertical, Some(3)), Tile(Ground, None)],
    [Tile(Ground, None), Tile(NorthEast, Some(2)), Tile(Horizontal, Some(3)), Tile(NorthWest, Some(4)), Tile(Ground, None)],
    [Tile(Ground, None), Tile(Ground, None), Tile(Ground, None), Tile(Ground, None), Tile(Ground, None)]]

  const SquareTrace: Traced := Traced(SquareMaze, 4)

  /** The labelled tiles are the eight loop tiles, with their distances;
      every tile keeps the parsed shape but the start. */
  lemma SquareCell(p: Pos)
    ensures Labelled(SquareMaze, p) <==> p in SquareDistances
    ensures p in SquareDistances ==> Label(SquareMaze, p) == SquareDistances[p]
    ensures InGrid(SquareMaze, p) <==> InGrid(SquareGrid, p)
    ensures InGrid(SquareMaze, p) ==>
      Cell(SquareMaze, p).shape == if p == Pos(1, 1) then SouthEast else Cell(SquareGrid, p)
    ensures Labelled(SquareMaze, p) ==> IsPipe(Cell(SquareMaze, p).shape)
  {
    if InGrid(SquareMaze, p) {
      assert p.row == 0 || p.row == 1 || p.row == 2 || p.row == 3 || p.row == 4;
      assert p.col == 0 || p.col == 1 || p.col == 2 || p.col == 3 || p.col == 4;
    }
  }

  /** Each edge out of a loop tile of the top row reaches a loop tile at
      most one step further from the start. */
  lemma SquareEdgeTop(p: Pos, t: Pos)
    requires p in SquareDistances && p.row == 1 && InGrid(SquareMaze, p)
    requires t in Targets(Cell(SquareMaze, p).shape, p)
    ensures t in SquareDistances && SquareDistances[t] <= SquareDistances[p] + 1
  {
    if p == Pos(1, 1) {
      assert Cell(SquareMaze, p).shape == SouthEast;
    } else if p == Pos(1, 2) {
      assert Cell(SquareMaze, p).shape == Horizontal;
    } else {
      assert p == Pos(1, 3);
      assert Cell(SquareMaze, p).shape == SouthWest;
    }
  }

  /** The same for the loop tiles below the top row. */
  lemma SquareEdgeBelow(p: Pos, t: Pos)
    requires p in SquareDistances && p.row != 1 && InGrid(SquareMaze, p)
    requires t in Targets(Cell(SquareMaze, p).shape, p)
    ensures t in SquareDistances && SquareDistances[t] <= SquareDistances[p] + 1
  {
    if p == Pos(2, 1) {
      assert Cell(SquareMaze, p).shape == Vertical;
    } else if p == Pos(3, 1) {
      assert Cell(SquareMaze, p).shape == NorthEast;
    } else if p == Pos(2, 3) {
      assert Cell(SquareMaze, p).shape == Vertical;
    } else if p == Pos(3, 2) {
      assert Cell(SquareMaze, p).shape == Horizontal;
    } else {
      assert p == Pos(3, 3);
      assert Cell(SquareMaze, p).shape == NorthWest;
    }
  }

  lemma SquareClosed()
    ensures Closed(SquareMaze)
  {
    forall p, t | Edge(SquareMaze, p, t)
      ensures Labelled(SquareMaze, t) && Label(SquareMaze, t) <= Label(SquareMaze, p) + 1
    {
      SquareCell(p);
      SquareCell(t);
      if p.row == 1 {
        SquareEdgeTop(p, t);
      } else {
        SquareEdgeBelow(p, t);
      }
    }
  }

  /** The tile each loop tile but the start was reached from. */
  lemma SquareParent(t: Pos) returns (p: Pos)
    requires t in SquareDistances && SquareDistances[t] > 0
    ensures p in SquareDistances && SquareDistances[p] + 1 == SquareDistances[t]
    ensures InGrid(SquareMaze, p) && t in Targets(Cell(SquareMaze, p).shape, p)
  {
    if t == Pos(1, 2) || t == Pos(2, 1) {
      p := Pos(1, 1);
      assert Cell(SquareMaze, p).shape == SouthEast;
    } else if t == Pos(1, 3) {
      p := Pos(1, 2);
      assert Cell(SquareMaze, p).shape == Horizontal;
    } else if t == Pos(3, 1) {
      p := Pos(2, 1);
      assert Cell(SquareMaze, p).shape == Vertical;
    } else if t == Pos(2, 3) {
      p := Pos(1, 3);
      assert Cell(SquareMaze, p).shape == SouthWest;
    } else if t == Pos(3, 2) {
      p := Pos(3, 1);
      assert Cell(SquareMaze, p).shape == NorthEast;
    } else {
      assert t == Pos(3, 3);
      p := Pos(2, 3);
      assert Cell(SquareMaze, p).shape == Vertical;
    }
  }

  lemma SquareSupported()
    ensures Supported(SquareMaze)
  {
    forall t | Labelled(SquareMaze, t) && Label(SquareMaze, t) > 0
      ensures exists p :: Edge(SquareMaze, p, t) && Label(SquareMaze, p) + 1 == Label(SquareMaze, t)
    {
      SquareCell(t);
      var p := SquareParent(t);
      SquareCell(p);
      assert Edge(SquareMaze, p, t);
    }
  }

  /** The farthest tile, the corner opposite the start, is 4 steps away. */
  lemma SquareMax()
    ensures IsMaxLabel(SquareMaze, 4)
  {
    forall p | Labelled(SquareMaze, p)
      ensures Label(SquareMaze, p) <= 4
    {
      SquareCell(p);
    }
    SquareCell(Pos(3, 3));
  }

  /** The start carries 0, and no other tile does. */
  lemma SquareZero()
    ensures Labelled(SquareMaze, Pos(1, 1)) && Label(SquareMaze, Pos(1, 1)) == 0
    ensures OnlyStartZero(SquareMaze, Pos(1, 1))
  {
    SquareCell(Pos(1, 1));
    forall p | Labelled(SquareMaze, p) && Label(SquareMaze, p) == 0
      ensures p == Pos(1, 1)
    {
      SquareCell(p);
    }
  }

  /** `m` has the layout of `g`, and every tile keeps its shape in `g` but
      the start, which became `resolved`. */
  ghost predicate KeepsShapes(g: seq<seq<Shape>>, start: Pos, resolved: Shape, m: Maze)
  {
    SameLayout(m, g) &&
    forall p :: InGrid(m, p) ==> Cell(m, p).shape == if p == start then resolved else Cell(g, p)
  }

  /** Only the start carries 0. */
  ghost predicate OnlyStartZero(m: Maze, start: Pos)
  {
    forall p :: Labelled(m, p) && Label(m, p) == 0 ==> p == start
  }

  /** Only pipes are labelled. */
  ghost predicate OnlyPipes(m: Maze)
  {
    forall p :: Labelled(m, p) ==> IsPipe(Cell(m, p).shape)
  }

  /** The parsed shapes survive the trace, the start as SouthEast. */
  lemma SquareShapes()
    ensures KeepsShapes(SquareGrid, Pos(1, 1), SouthEast, SquareMaze)
  {
    forall p | InGrid(SquareMaze, p)
      ensures Cell(SquareMaze, p).shape == if p == Pos(1, 1) then SouthEast else Cell(SquareGrid, p)
    {
      SquareCell(p);
    }
  }

  lemma SquarePipes()
    ensures OnlyPipes(SquareMaze)
  {
    forall p | Labelled(SquareMaze, p)
      ensures IsPipe(Cell(SquareMaze, p).shape)
    {
      SquareCell(p);
    }
  }

  /** The parts of `LoopTraced`, put together. */
  lemma LoopTracedOf(g: seq<seq<Shape>>, start: Pos, resolved: Shape, m: Maze, v: nat)
    requires KeepsShapes(g, start, resolved, m)
    requires Labelled(m, start) && Label(m, start) == 0 && OnlyStartZero(m, start)
    requires OnlyPipes(m) && Closed(m) && Supported(m) && IsMaxLabel(m, v)
    ensures LoopTraced(g, start, resolved, Traced(m, v))
  {
  }

  /** `SquareTrace` is a trace of the parsed square from its start. */
  lemma SquareLoopTraced()
    ensures LoopTraced(SquareGrid, Pos(1, 1), SouthEast, SquareTrace)
  {
    SquareShapes();
    SquarePipes();
    SquareZero();
    SquareClosed();
    SquareSupported();
    SquareMax();
    LoopTracedOf(SquareGrid, Pos(1, 1), SouthEast, SquareMaze, 4);
  }

  // ---------------------------------------------------------------------
  // From the text to the answers

  /** The parts of `TracedFrom`, put together. */
  lemma TracedFromOf(lines: seq<string>, g: seq<seq<Shape>>, start: Pos, nb: Neighbours, t: Traced)
    requires ParseGrid(lines) == Ok(g) && Starts(g) == [start] && InGrid(g, start)
    requires StartNeighbours(g, start) == Ok(nb)
    requires LoopTraced(g, start, ResolveStart(nb.north, nb.south, nb.east), t)
    ensures TracedFrom(lines, t)
  {
  }

  /** `SquareTrace` is a trace of the square text. */
  lemma SquareTracedFrom()
    ensures TracedFrom(SquareLines, SquareTrace)
  {
    SquareParses();
    SquareStarts();
    SquareStartResolves();
    SquareLoopTraced();
    TracedFromOf(SquareLines, SquareGrid, Pos(1, 1), Neighbours(false, true, true), SquareTrace);
  }

  /** The rows the sweep sees in the traced square are the square loop's rows. */
  lemma SquareEffectiveRows()
    ensures EffectiveRows(SquareMaze) == SquareLoopRows()
  {
    var rows, want := EffectiveRows(SquareMaze), SquareLoopRows();
    forall i, j | 0 <= i < 5 && 0 <= j < 5
      ensures rows[i][j] == want[i][j]
    {
      assert rows[i][j] == Effective(SquareMaze[i][j]);
      SquareCell(Pos(i, j));
    }
    forall i | 0 <= i < 5
      ensures rows[i] == want[i]
    {
    }
  }

  /** Whatever trace of the square text is taken, the farthest tile is 4
      steps from the start and the loop encloses one tile: the answers of the
      square tests of both parts. */
  lemma SquareTestAnswers(t: Traced)
    requires TracedFrom(SquareLines, t)
    ensures t.maxDistance == 4
    ensures Interior(EffectiveRows(t.maze)) == Some(1)
  {
    SquareTracedFrom();
    TracedFromIsUnique(SquareLines, t, SquareTrace);
    SquareEffectiveRows();
    SquareLoopEnclosesOne();
  }
}
