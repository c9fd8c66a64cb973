/** Pipe maze (d10/src/main.rs): the character table, the start-shape
    inference, the FIFO trace that labels every loop tile with its distance
    from the start, and the row sweep that counts enclosed tiles. */
module PipeMaze {
  import opened Wrappers

  datatype Shape = Start | Ground | Vertical | Horizontal | NorthEast | NorthWest | SouthEast | SouthWest

  datatype Direction = North | South | East | West

  /** Why a run of the solver aborts: each constructor is one `panic!`,
      `unwrap` or out-of-range index of the Rust code. */
  datatype Panic =
    | UnknownCharacter   // a character outside the tile table
    | MissingStart       // no `S`: `pop_front().unwrap()` on an empty queue
    | OffGrid            // an index outside the grid (including `row - 1` on row 0)
    | StartInLoop        // a popped tile still has shape Start
    | GroundInLoop       // a popped tile is Ground

  predicate IsPipe(s: Shape)
  {
    s != Start && s != Ground
  }

  /** The connector table: the sides of a tile that a shape opens. */
  predicate Opens(s: Shape, d: Direction)
  {
    match s
    case Vertical => d == North || d == South
    case Horizontal => d == East || d == West
    case NorthEast => d == North || d == East
    case NorthWest => d == North || d == West
    case SouthEast => d == South || d == East
    case SouthWest => d == South || d == West
    case _ => false
  }

  function Opposite(d: Direction): Direction
  {
    match d
    case North => South
    case South => North
    case East => West
    case West => East
  }

  // ---------------------------------------------------------------------
  // The character table

  /** The tile of one maze character; every other character panics. */
  function ShapeOf(c: char): (r: Option<Shape>)
    ensures r.Some? <==> c in "|-LJ7F.S"
    ensures r == Some(Start) <==> c == 'S'
    ensures r == Some(Ground) <==> c == '.'
  {
    match c
    case '|' => Some(Vertical)
    case '-' => Some(Horizontal)
    case 'L' => Some(NorthEast)
    case 'J' => Some(NorthWest)
    case '7' => Some(SouthWest)
    case 'F' => Some(SouthEast)
    case '.' => Some(Ground)
    case 'S' => Some(Start)
    case _ => None
  }

  /** The character that draws a shape. */
  function Glyph(s: Shape): char
  {
    match s
    case Vertical => '|'
    case Horizontal => '-'
    case NorthEast => 'L'
    case NorthWest => 'J'
    case SouthWest => '7'
    case SouthEast => 'F'
    case Ground => '.'
    case Start => 'S'
  }

  /** The table is a bijection between the eight characters and the eight shapes. */
  lemma GlyphRoundTrip(s: Shape, c: char)
    ensures ShapeOf(Glyph(s)) == Some(s)
    ensures ShapeOf(c) == Some(s) ==> Glyph(s) == c
  {
  }

  // ---------------------------------------------------------------------
  // The per-shape direction predicates of `Tile`

  function HeadingNorth(s: Shape): (b: bool)
    ensures b <==> Opens(s, North)
  {
    s == Vertical || s == NorthWest || s == NorthEast
  }

  function HeadingSouth(s: Shape): (b: bool)
    ensures b <==> Opens(s, South)
  {
    s == Vertical || s == SouthEast || s == SouthWest
  }

  function HeadingWest(s: Shape): (b: bool)
    ensures b <==> Opens(s, West)
  {
    s == Horizontal || s == NorthWest || s == SouthWest
  }

  // ---------------------------------------------------------------------
  // Positions and grids

  /** A grid position; coordinates are integers so that the step north of
      row 0 is representable (it lies off the grid). */
  datatype Pos = Pos(row: int, col: int)

  function Step(p: Pos, d: Direction): Pos
  {
    match d
    case North => Pos(p.row - 1, p.col)
    case South => Pos(p.row + 1, p.col)
    case East => Pos(p.row, p.col + 1)
    case West => Pos(p.row, p.col - 1)
  }

  /** The neighbours a traced tile sends the trace to, in the source's order. */
  function Targets(s: Shape, p: Pos): (ts: seq<Pos>)
    ensures IsPipe(s) ==> |ts| == 2 && ts[0] != ts[1]
    ensures !IsPipe(s) ==> ts == []
    ensures forall d :: Step(p, d) in ts <==> Opens(s, d)
  {
    match s
    case Vertical => [Step(p, South), Step(p, North)]
    case Horizontal => [Step(p, East), Step(p, West)]
    case NorthEast => [Step(p, North), Step(p, East)]
    case NorthWest => [Step(p, North), Step(p, West)]
    case SouthEast => [Step(p, South), Step(p, East)]
    case SouthWest => [Step(p, South), Step(p, West)]
    case _ => []
  }

  /** Every target is the step towards one of the sides the shape opens. */
  lemma TargetsAreSteps(s: Shape, p: Pos, t: Pos)
    requires t in Targets(s, p)
    ensures exists d :: Opens(s, d) && t == Step(p, d)
  {
    match s
    case Vertical => assert t == Step(p, South) || t == Step(p, North);
    case Horizontal => assert t == Step(p, East) || t == Step(p, West);
    case NorthEast => assert t == Step(p, North) || t == Step(p, East);
    case NorthWest => assert t == Step(p, North) || t == Step(p, West);
    case SouthEast => assert t == Step(p, South) || t == Step(p, East);
    case SouthWest => assert t == Step(p, South) || t == Step(p, West);
  }

  /** The start record's "arrived from" pair is the start position with row
      and column swapped; it is never a neighbour of the start, so neither of
      the start's two targets is filtered out. */
  lemma SwappedPairNotATarget(s: Shape, p: Pos)
    ensures Pos(p.col, p.row) !in Targets(s, p)
  {
    forall d
      ensures Step(p, d) != Pos(p.col, p.row)
    {
    }
  }

  predicate InGrid<T>(g: seq<seq<T>>, p: Pos)
  {
    0 <= p.row < |g| && 0 <= p.col < |g[p.row]|
  }

  function Cell<T>(g: seq<seq<T>>, p: Pos): T
    requires InGrid(g, p)
  {
    g[p.row][p.col]
  }

  /** Two grids with the same rows and row lengths. */
  predicate SameLayout<T, U>(a: seq<seq<T>>, b: seq<seq<U>>)
  {
    |a| == |b| && forall i :: 0 <= i < |a| ==> |a[i]| == |b[i]|
  }

  function Positions<T>(g: seq<seq<T>>): (ps: set<Pos>)
    ensures forall p :: p in ps <==> InGrid(g, p)
  {
    set i, j | 0 <= i < |g| && 0 <= j < |g[i]| :: Pos(i, j)
  }

  // ---------------------------------------------------------------------
  // Parsing

  /** Rust's `char::is_whitespace` (the Unicode White_Space property). */
  predicate IsWhitespace(c: char)
  {
    ('\U{9}' <= c <= '\U{D}') || c == ' ' || c == '\U{85}' || c == '\U{A0}' || c == '\U{1680}'
    || ('\U{2000}' <= c <= '\U{200A}') || c == '\U{2028}' || c == '\U{2029}' || c == '\U{202F}'
    || c == '\U{205F}' || c == '\U{3000}'
  }

  /** `str::trim_start`: the line without its leading whitespace. */
  function TrimStart(line: string): (t: string)
    ensures |t| <= |line| && t == line[|line| - |t|..]
    ensures forall k :: 0 <= k < |line| - |t| ==> IsWhitespace(line[k])
    ensures t == [] || !IsWhitespace(t[0])
  {
    if line != [] && IsWhitespace(line[0]) then TrimStart(line[1..]) else line
  }

  function ParseRow(line: string): (r: Option<seq<Shape>>)
    ensures r.Some? <==> forall k :: 0 <= k < |line| ==> ShapeOf(line[k]).Some?
    ensures r.Some? ==> |r.value| == |line| && forall k :: 0 <= k < |line| ==> ShapeOf(line[k]) == Some(r.value[k])
  {
    if line == [] then Some([])
    else match (ShapeOf(line[0]), ParseRow(line[1..]))
      case (Some(s), Some(rest)) => Some([s] + rest)
      case _ => None
  }

  /** One line of the maze text: trimmed at the start, then read through the
      character table. */
  function ParseLine(line: string): Option<seq<Shape>>
  {
    ParseRow(TrimStart(line))
  }

  /** `collect` of a sequence of optional values: all the values when
      every one is present. */
  function AllSome<T>(xs: seq<Option<T>>): (r: Option<seq<T>>)
    ensures r.Some? ==> |r.value| == |xs|
  {
    if xs == [] then Some([])
    else match (xs[0], AllSome(xs[1..]))
      case (Some(x), Some(rest)) => Some([x] + rest)
      case _ => None
  }

  lemma {:induction false} AllSomeAt<T>(xs: seq<Option<T>>, i: nat)
    requires AllSome(xs).Some? && i < |xs|
    ensures xs[i] == Some(AllSome(xs).value[i])
  {
    if i > 0 {
      AllSomeAt(xs[1..], i - 1);
    }
  }

  lemma {:induction false} AllSomeFails<T>(xs: seq<Option<T>>, i: nat)
    requires i < |xs| && xs[i].None?
    ensures AllSome(xs).None?
  {
    if i > 0 {
      AllSomeFails(xs[1..], i - 1);
    }
  }

  /** Every line of the maze text, read separately. */
  function ParsedLines(lines: seq<string>): (ps: seq<Option<seq<Shape>>>)
    ensures |ps| == |lines| && forall i :: 0 <= i < |lines| ==> ps[i] == ParseLine(lines[i])
  {
    seq(|lines|, i requires 0 <= i < |lines| => ParseLine(lines[i]))
  }

  /** The grid of a maze text already split into lines. */
  function ParseGrid(lines: seq<string>): (r: Result<seq<seq<Shape>>, Panic>)
    ensures r.Err? ==> r.error == UnknownCharacter
    ensures r.Ok? ==> |r.value| == |lines|
  {
    match AllSome(ParsedLines(lines))
    case Some(g) => Ok(g)
    case None => Err(UnknownCharacter)
  }

  /** Row `i` of a parsed grid is line `i` read through the character table. */
  lemma ParseGridRow(lines: seq<string>, i: nat)
    requires ParseGrid(lines).Ok? && i < |lines|
    ensures ParseLine(lines[i]) == Some(ParseGrid(lines).value[i])
  {
    AllSomeAt(ParsedLines(lines), i);
  }

  /** One line outside the character table makes the whole parse fail. */
  lemma ParseGridFails(lines: seq<string>, i: nat)
    requires i < |lines| && ParseLine(lines[i]).None?
    ensures ParseGrid(lines).Err?
  {
    AllSomeFails(ParsedLines(lines), i);
  }

  /** Row-major order on positions. */
  predicate Before(a: Pos, b: Pos)
  {
    a.row < b.row || (a.row == b.row && a.col < b.col)
  }

  function RowStarts(row: seq<Shape>, r: int): (ps: seq<Pos>)
    ensures forall p :: p in ps <==> p.row == r && 0 <= p.col < |row| && row[p.col] == Start
    ensures forall i, j :: 0 <= i < j < |ps| ==> ps[i].row == r && Before(ps[i], ps[j])
    ensures forall i :: 0 <= i < |ps| ==> ps[i].row == r
  {
    if row == [] then []
    else
      var n := |row| - 1;
      RowStarts(row[..n], r) + if row[n] == Start then [Pos(r, n)] else []
  }

  /** The `S` tiles, in the order the parse pushes them onto the queue. */
  function Starts(g: seq<seq<Shape>>): (ps: seq<Pos>)
    ensures forall p :: p in ps <==> InGrid(g, p) && Cell(g, p) == Start
    ensures forall i, j :: 0 <= i < j < |ps| ==> Before(ps[i], ps[j])
    ensures forall i :: 0 <= i < |ps| ==> 0 <= ps[i].row < |g|
  {
    if g == [] then []
    else
      var n := |g| - 1;
      var before := Starts(g[..n]);
      var last := RowStarts(g[n], n);
      assert forall i :: 0 <= i < |before| ==> before[i].row < n;
      before + last
  }

  // ---------------------------------------------------------------------
  // Start resolution

  /** Whether the neighbour on side `d` of `p` connects back to `p`. Off-grid
      neighbours never connect: nothing wraps around. */
  predicate Connects(g: seq<seq<Shape>>, p: Pos, d: Direction)
  {
    InGrid(g, Step(p, d)) && Opens(Cell(g, Step(p, d)), Opposite(d))
  }

  datatype Neighbours = Neighbours(north: bool, south: bool, east: bool)

  /** The three neighbour tests of the start tile. The rows above and below
      are indexed at the start's column without a bounds check, so a shorter
      row there panics; the tile to the east is looked up with `get`. */
  function StartNeighbours(g: seq<seq<Shape>>, start: Pos): (r: Result<Neighbours, Panic>)
    requires InGrid(g, start)
    ensures r.Err? <==>
      (0 < start.row && start.col >= |g[start.row - 1]|) ||
      (start.row + 1 < |g| && start.col >= |g[start.row + 1]|)
    ensures r.Err? ==> r.error == OffGrid
    ensures r.Ok? ==> r.value.north == Connects(g, start, North)
    ensures r.Ok? ==> r.value.south == Connects(g, start, South)
    ensures r.Ok? ==> r.value.east == Connects(g, start, East)
  {
    var row, col := start.row, start.col;
    if 0 < row && col >= |g[row - 1]| then Err(OffGrid)
    else
      var north := 0 < row && HeadingSouth(g[row - 1][col]);
      if row + 1 < |g| && col >= |g[row + 1]| then Err(OffGrid)
      else
        var south := row + 1 < |g| && HeadingNorth(g[row + 1][col]);
        var east := col + 1 < |g[row]| && HeadingWest(g[row][col + 1]);
        Ok(Neighbours(north, south, east))
  }

  /** The shape given to the start tile. West is never inspected: SouthWest
      is what remains when neither north nor east connects. */
  function ResolveStart(north: bool, south: bool, east: bool): (s: Shape)
    ensures IsPipe(s)
    ensures Opens(s, North) == north
    ensures !north && !east ==> s == SouthWest
    ensures north && south ==> s == Vertical
  {
    if north then
      if south then Vertical else if east then NorthEast else NorthWest
    else if east then
      if south then SouthEast else Horizontal
    else SouthWest
  }

  function Count(b: bool): nat
  {
    if b then 1 else 0
  }

  /** When exactly two of the four neighbours connect, the inferred shape
      opens exactly towards those two. */
  lemma ResolveStartMatchesNeighbours(north: bool, south: bool, east: bool, west: bool)
    requires Count(north) + Count(south) + Count(east) + Count(west) == 2
    ensures var s := ResolveStart(north, south, east);
      Opens(s, North) == north && Opens(s, South) == south &&
      Opens(s, East) == east && Opens(s, West) == west
  {
  }

  // ---------------------------------------------------------------------
  // The traced maze

  /** A tile of the maze: its shape and, once traced, its distance. */
  datatype Tile = Tile(shape: Shape, value: Option<nat>)

  type Maze = seq<seq<Tile>>

  predicate Labelled(m: Maze, p: Pos)
  {
    InGrid(m, p) && Cell(m, p).value.Some?
  }

  function Label(m: Maze, p: Pos): nat
    requires Labelled(m, p)
  {
    Cell(m, p).value.value
  }

  /** `t` is one of the two tiles the labelled tile `p` sends the trace to. */
  predicate Edge(m: Maze, p: Pos, t: Pos)
  {
    Labelled(m, p) && t in Targets(Cell(m, p).shape, p)
  }

  /** The freshly parsed maze: no tile labelled yet. */
  function Unlabelled(g: seq<seq<Shape>>): (m: Maze)
    ensures SameLayout(m, g)
    ensures forall p :: InGrid(m, p) <==> InGrid(g, p)
    ensures forall p :: InGrid(g, p) ==> Cell(m, p) == Tile(Cell(g, p), None)
  {
    seq(|g|, i requires 0 <= i < |g| => seq(|g[i]|, j requires 0 <= j < |g[i]| => Tile(g[i][j], None)))
  }

  /** The grid with the tile at `p` replaced. */
  function SetTile(m: Maze, p: Pos, t: Tile): (m': Maze)
    requires InGrid(m, p)
    ensures SameLayout(m', m)
    ensures forall q :: InGrid(m', q) <==> InGrid(m, q)
    ensures forall q :: InGrid(m, q) ==> Cell(m', q) == if q == p then t else Cell(m, q)
  {
    m[p.row := m[p.row][p.col := t]]
  }

  /** Every label is at most `v`, and some tile carries `v`. */
  ghost predicate IsMaxLabel(m: Maze, v: nat)
  {
    (forall p :: Labelled(m, p) ==> Label(m, p) <= v) &&
    exists p :: Labelled(m, p) && Label(m, p) == v
  }

  /** Every edge out of a labelled tile reaches a labelled tile, at most one
      step further from the start. */
  ghost predicate Closed(m: Maze)
  {
    forall p, t :: Edge(m, p, t) ==> Labelled(m, t) && Label(m, t) <= Label(m, p) + 1
  }

  /** Every label but 0 was handed on by a labelled tile one step closer. */
  ghost predicate Supported(m: Maze)
  {
    forall t :: Labelled(m, t) && Label(m, t) > 0 ==>
      exists p :: Edge(m, p, t) && Label(m, p) + 1 == Label(m, t)
  }

  datatype Traced = Traced(maze: Maze, maxDistance: nat)

  /** What the trace promises about the maze it returns. */
  ghost predicate LoopTraced(g: seq<seq<Shape>>, start: Pos, resolved: Shape, t: Traced)
  {
    var m := t.maze;
    && SameLayout(m, g)
    && (forall p :: InGrid(m, p) ==> Cell(m, p).shape == if p == start then resolved else Cell(g, p))
    && Labelled(m, start) && Label(m, start) == 0
    && (forall p :: Labelled(m, p) && Label(m, p) == 0 ==> p == start)
    && (forall p :: Labelled(m, p) ==> IsPipe(Cell(m, p).shape))
    && Closed(m)
    && Supported(m)
    && IsMaxLabel(m, t.maxDistance)
  }

  /** A queued record: where to go, the distance to write there, and the
      position it was reached from. */
  datatype Record = Record(pos: Pos, value: nat, prev: Pos)

  /** The record the start is queued with: distance 0, and as "arrived from"
      the start position with row and column swapped. */
  function StartRecord(start: Pos): Record
  {
    Record(start, 0, Pos(start.col, start.row))
  }

  /** The records a tile labelled by `rec` pushes: its targets except the
      position it was reached from, one step further away. */
  function Successors(ts: seq<Pos>, rec: Record): (out: seq<Record>)
    ensures forall i :: 0 <= i < |out| ==>
      out[i].value == rec.value + 1 && out[i].prev == rec.pos && out[i].pos in ts && out[i].pos != rec.prev
  {
    if ts == [] then []
    else
      var rest := Successors(ts[1..], rec);
      if ts[0] != rec.prev then [Record(ts[0], rec.value + 1, rec.pos)] + rest else rest
  }

  /** No target is lost except the one leading back. */
  lemma {:induction false} SuccessorsCover(ts: seq<Pos>, rec: Record, t: Pos)
    requires t in ts && t != rec.prev
    ensures exists i :: 0 <= i < |Successors(ts, rec)| && Successors(ts, rec)[i].pos == t
  {
    var i := SuccessorOf(ts, rec, t);
  }

  /** The index of the record that `Successors` pushes for the target `t`. */
  lemma {:induction false} SuccessorOf(ts: seq<Pos>, rec: Record, t: Pos) returns (i: nat)
    requires t in ts && t != rec.prev
    ensures i < |Successors(ts, rec)| && Successors(ts, rec)[i].pos == t
  {
    var rest := Successors(ts[1..], rec);
    if ts[0] == t {
      i := 0;
    } else {
      var j := SuccessorOf(ts[1..], rec, t);
      i := if ts[0] != rec.prev then j + 1 else j;
    }
  }

  /** `t` is labelled with at most `bound`. */
  ghost predicate Reached(m: Maze, t: Pos, bound: nat)
  {
    Labelled(m, t) && Label(m, t) <= bound
  }

  /** Some queued record will visit `t` with a distance of at most `bound`. */
  ghost predicate Pending(q: seq<Record>, t: Pos, bound: nat)
  {
    exists i :: 0 <= i < |q| && q[i].pos == t && q[i].value <= bound
  }

  // The loop invariant of the trace, in parts. `from` maps each labelled
  // tile to the position it was reached from; `argmax` holds the largest label.

  ghost predicate ShapesOk(g: seq<seq<Shape>>, start: Pos, resolved: Shape, m: Maze)
  {
    && InGrid(g, start)
    && IsPipe(resolved)
    && SameLayout(m, g)
    && (forall p :: InGrid(m, p) <==> InGrid(g, p))
    && (forall p :: InGrid(m, p) ==> Cell(m, p).shape == if p == start then resolved else Cell(g, p))
  }

  ghost predicate LabelsOk(m: Maze, start: Pos, from: map<Pos, Pos>)
  {
    && (forall p :: p in from <==> Labelled(m, p))
    && (forall p :: Labelled(m, p) ==> IsPipe(Cell(m, p).shape))
    && (start in from ==> from[start] == Pos(start.col, start.row))
    && (forall p :: Labelled(m, p) && Label(m, p) == 0 ==> p == start)
    && ParentsOk(m, from)
  }

  /** Every labelled tile but the start was reached along an edge from its
      recorded predecessor, one step closer to the start. */
  ghost predicate ParentsOk(m: Maze, from: map<Pos, Pos>)
  {
    forall p {:trigger from[p]} :: p in from && Labelled(m, p) && Label(m, p) > 0 ==>
      Edge(m, from[p], p) && Label(m, from[p]) + 1 == Label(m, p)
  }

  ghost predicate RecordsOk(m: Maze, start: Pos, q: seq<Record>)
  {
    forall i :: 0 <= i < |q| ==>
      q[i] == StartRecord(start) ||
      (q[i].value > 0 && Edge(m, q[i].prev, q[i].pos) && Label(m, q[i].prev) + 1 == q[i].value)
  }

  /** The queue is sorted by distance and spans at most one step. */
  ghost predicate Layered(q: seq<Record>)
  {
    && (forall i, j :: 0 <= i <= j < |q| ==> q[i].value <= q[j].value)
    && (forall i :: 0 <= i < |q| ==> q[i].value <= q[0].value + 1)
  }

  /** No label exceeds the distance at the head of the queue. */
  ghost predicate HeadBounds(m: Maze, q: seq<Record>)
  {
    q != [] ==> forall p :: Labelled(m, p) ==> Label(m, p) <= q[0].value
  }

  /** Every edge that does not lead back is done or still queued. */
  ghost predicate Covered(m: Maze, q: seq<Record>, from: map<Pos, Pos>)
  {
    forall p, t :: p in from && Edge(m, p, t) && t != from[p] ==>
      Reached(m, t, Label(m, p) + 1) || Pending(q, t, Label(m, p) + 1)
  }

  ghost predicate MaxOk(m: Maze, maxValue: nat, argmax: Pos)
  {
    && (forall p :: Labelled(m, p) ==> Label(m, p) <= maxValue)
    && (maxValue == 0 || (Labelled(m, argmax) && Label(m, argmax) == maxValue))
  }

  ghost predicate TraceInv(g: seq<seq<Shape>>, start: Pos, resolved: Shape, m: Maze,
                           q: seq<Record>, maxValue: nat, from: map<Pos, Pos>, argmax: Pos)
  {
    && ShapesOk(g, start, resolved, m)
    && LabelsOk(m, start, from)
    && RecordsOk(m, start, q)
    && Layered(q)
    && HeadBounds(m, q)
    && Covered(m, q, from)
    && MaxOk(m, maxValue, argmax)
    && (!Labelled(m, start) ==> q == [StartRecord(start)] && from == map[])
  }

  lemma TraceInvInit(g: seq<seq<Shape>>, start: Pos, resolved: Shape, m: Maze)
    requires InGrid(g, start) && IsPipe(resolved)
    requires m == SetTile(Unlabelled(g), start, Tile(resolved, None))
    ensures TraceInv(g, start, resolved, m, [StartRecord(start)], 0, map[], start)
  {
  }

  /** `m'` is `m` with the unlabelled tile `p` labelled `v`; nothing else changed. */
  ghost predicate Relabelled(m: Maze, p: Pos, v: nat, m': Maze)
  {
    && InGrid(m, p) && !Labelled(m, p)
    && SameLayout(m', m)
    && (forall x :: InGrid(m', x) <==> InGrid(m, x))
    && (forall x :: InGrid(m, x) && x != p ==> Cell(m', x) == Cell(m, x))
    && Cell(m', p) == Cell(m, p).(value := Some(v))
  }

  lemma LabelFrame(m: Maze, p: Pos, v: nat)
    requires InGrid(m, p) && !Labelled(m, p)
    ensures Relabelled(m, p, v, SetTile(m, p, Cell(m, p).(value := Some(v))))
  {
  }

  /** What labelling one tile changes, and what it keeps. */
  lemma RelabelledFacts(m: Maze, p: Pos, v: nat, m': Maze)
    requires Relabelled(m, p, v, m')
    ensures forall x :: InGrid(m, x) ==> Cell(m', x).shape == Cell(m, x).shape
    ensures forall x :: Labelled(m', x) <==> Labelled(m, x) || x == p
    ensures forall x :: Labelled(m, x) ==> Label(m', x) == Label(m, x)
    ensures Labelled(m', p) && Label(m', p) == v
  {
  }

  /** A popped record whose tile is already labelled is dropped. */
  lemma TraceInvDiscard(g: seq<seq<Shape>>, start: Pos, resolved: Shape, m: Maze,
                        q: seq<Record>, maxValue: nat, from: map<Pos, Pos>, argmax: Pos)
    requires TraceInv(g, start, resolved, m, q, maxValue, from, argmax)
    requires q != [] && Labelled(m, q[0].pos)
    ensures TraceInv(g, start, resolved, m, q[1..], maxValue, from, argmax)
  {
    DiscardKeepsCovered(m, q, from);
    DiscardKeepsRecords(m, start, q);
    DiscardKeepsLayers(m, q);
  }

  lemma DiscardKeepsRecords(m: Maze, start: Pos, q: seq<Record>)
    requires RecordsOk(m, start, q) && q != []
    ensures RecordsOk(m, start, q[1..])
  {
    forall i | 0 <= i < |q| - 1
      ensures q[1..][i] == q[i + 1]
    {
    }
  }

  lemma DiscardKeepsLayers(m: Maze, q: seq<Record>)
    requires Layered(q) && HeadBounds(m, q) && q != []
    ensures Layered(q[1..]) && HeadBounds(m, q[1..])
  {
    var q' := q[1..];
    forall i | 0 <= i < |q'|
      ensures q'[i] == q[i + 1]
    {
    }
    if q' != [] {
      assert q[0].value <= q'[0].value;
    }
  }

  lemma DiscardKeepsCovered(m: Maze, q: seq<Record>, from: map<Pos, Pos>)
    requires Covered(m, q, from) && HeadBounds(m, q)
    requires q != [] && Labelled(m, q[0].pos)
    ensures Covered(m, q[1..], from)
  {
    var q' := q[1..];
    forall p, t | p in from && Edge(m, p, t) && t != from[p] && !Reached(m, t, Label(m, p) + 1)
      ensures Pending(q', t, Label(m, p) + 1)
    {
      var i :| 0 <= i < |q| && q[i].pos == t && q[i].value <= Label(m, p) + 1;
      assert i != 0;
      assert q'[i - 1] == q[i];
    }
  }

  /** A popped record whose tile is an unlabelled pipe labels it and queues its successors. */
  lemma TraceInvLabel(g: seq<seq<Shape>>, start: Pos, resolved: Shape, m: Maze,
                      q: seq<Record>, maxValue: nat, from: map<Pos, Pos>, argmax: Pos,
                      m': Maze, q': seq<Record>, maxValue': nat, from': map<Pos, Pos>, argmax': Pos)
    requires TraceInv(g, start, resolved, m, q, maxValue, from, argmax)
    requires q != [] && InGrid(m, q[0].pos) && !Labelled(m, q[0].pos) && IsPipe(Cell(m, q[0].pos).shape)
    requires Relabelled(m, q[0].pos, q[0].value, m')
    requires q' == q[1..] + Successors(Targets(Cell(m, q[0].pos).shape, q[0].pos), q[0])
    requires maxValue' == Max(maxValue, q[0].value)
    requires from' == from[q[0].pos := q[0].prev]
    requires argmax' == if q[0].value >= maxValue then q[0].pos else argmax
    ensures TraceInv(g, start, resolved, m', q', maxValue', from', argmax')
  {
    var rec := q[0];
    var p0 := rec.pos;
    var succ := Successors(Targets(Cell(m, p0).shape, p0), rec);
    assert RecordsOk(m, start, q);
    assert rec == StartRecord(start) || (rec.value > 0 && Edge(m, rec.prev, p0) && Label(m, rec.prev) + 1 == rec.value);
    assert !Labelled(m, start) ==> rec == StartRecord(start);
    assert ShapesOk(g, start, resolved, m') by {
      LabelKeepsShapes(g, start, resolved, m, p0, rec.value, m');
    }
    assert LabelsOk(m', start, from') by {
      LabelKeepsLabels(m, start, rec, from, m');
    }
    assert RecordsOk(m', start, q') by {
      LabelKeepsRecords(m, start, q, m');
    }
    assert Layered(q') && HeadBounds(m', q') by {
      PopPushLayered(q, succ);
      LabelKeepsHeadBounds(m, q, succ, m');
    }
    assert Covered(m', q', from') by {
      LabelKeepsCovered(m, q, from, m');
    }
    assert MaxOk(m', maxValue', argmax') by {
      LabelKeepsMax(m, maxValue, argmax, p0, rec.value, m');
    }
    assert Labelled(m', start) by {
      RelabelledFacts(m, p0, rec.value, m');
    }
  }

  /** Labelling a tile of the grid shrinks the set of unlabelled grid tiles. */
  lemma LabelShrinks(all: set<Pos>, from: map<Pos, Pos>, p: Pos, prev: Pos)
    requires p in all && p !in from
    requires forall k :: k in from ==> k in all
    ensures forall k :: k in from[p := prev] ==> k in all
    ensures |all - from[p := prev].Keys| < |all - from.Keys|
  {
    assert all - from[p := prev].Keys == (all - from.Keys) - {p};
  }

  lemma LabelKeepsShapes(g: seq<seq<Shape>>, start: Pos, resolved: Shape, m: Maze, p: Pos, v: nat, m': Maze)
    requires ShapesOk(g, start, resolved, m) && Relabelled(m, p, v, m')
    ensures ShapesOk(g, start, resolved, m')
  {
    RelabelledFacts(m, p, v, m');
  }

  lemma LabelKeepsMax(m: Maze, maxValue: nat, argmax: Pos, p: Pos, v: nat, m': Maze)
    requires MaxOk(m, maxValue, argmax) && Relabelled(m, p, v, m')
    ensures MaxOk(m', Max(maxValue, v), if v >= maxValue then p else argmax)
  {
    RelabelledFacts(m, p, v, m');
  }

  lemma LabelKeepsLabels(m: Maze, start: Pos, rec: Record, from: map<Pos, Pos>, m': Maze)
    requires LabelsOk(m, start, from)
    requires rec == StartRecord(start) || (rec.value > 0 && Edge(m, rec.prev, rec.pos) && Label(m, rec.prev) + 1 == rec.value)
    requires rec.pos == start ==> rec == StartRecord(start)
    requires Relabelled(m, rec.pos, rec.value, m') && IsPipe(Cell(m, rec.pos).shape)
    ensures LabelsOk(m', start, from[rec.pos := rec.prev])
  {
    LabelKeepsDomain(m, start, rec, from, m');
    LabelKeepsZero(m, start, from, rec, m');
    LabelKeepsParents(m, start, from, rec, m');
  }

  lemma LabelKeepsDomain(m: Maze, start: Pos, rec: Record, from: map<Pos, Pos>, m': Maze)
    requires forall p :: p in from <==> Labelled(m, p)
    requires forall p :: Labelled(m, p) ==> IsPipe(Cell(m, p).shape)
    requires Relabelled(m, rec.pos, rec.value, m') && IsPipe(Cell(m, rec.pos).shape)
    ensures forall p :: p in from[rec.pos := rec.prev] <==> Labelled(m', p)
    ensures forall p :: Labelled(m', p) ==> IsPipe(Cell(m', p).shape)
  {
    RelabelledFacts(m, rec.pos, rec.value, m');
  }

  lemma LabelKeepsZero(m: Maze, start: Pos, from: map<Pos, Pos>, rec: Record, m': Maze)
    requires LabelsOk(m, start, from) && Relabelled(m, rec.pos, rec.value, m')
    requires rec == StartRecord(start) || rec.value > 0
    ensures forall p :: Labelled(m', p) && Label(m', p) == 0 ==> p == start
  {
    RelabelledFacts(m, rec.pos, rec.value, m');
    forall p | Labelled(m', p) && Label(m', p) == 0
      ensures p == start
    {
      if p != rec.pos {
        assert Labelled(m, p) && Label(m, p) == 0;
      }
    }
  }

  lemma LabelKeepsParents(m: Maze, start: Pos, from: map<Pos, Pos>, rec: Record, m': Maze)
    requires LabelsOk(m, start, from) && Relabelled(m, rec.pos, rec.value, m')
    requires rec == StartRecord(start) || (rec.value > 0 && Edge(m, rec.prev, rec.pos) && Label(m, rec.prev) + 1 == rec.value)
    ensures ParentsOk(m', from[rec.pos := rec.prev])
  {
    var from' := from[rec.pos := rec.prev];
    forall p | p in from' && Labelled(m', p) && Label(m', p) > 0
      ensures Edge(m', from'[p], p) && Label(m', from'[p]) + 1 == Label(m', p)
    {
      LabelKeepsParent(m, start, from, rec, m', p);
    }
  }

  lemma LabelKeepsParent(m: Maze, start: Pos, from: map<Pos, Pos>, rec: Record, m': Maze, p: Pos)
    requires LabelsOk(m, start, from) && Relabelled(m, rec.pos, rec.value, m')
    requires rec == StartRecord(start) || (rec.value > 0 && Edge(m, rec.prev, rec.pos) && Label(m, rec.prev) + 1 == rec.value)
    requires p in from[rec.pos := rec.prev] && Labelled(m', p) && Label(m', p) > 0
    ensures var parent := from[rec.pos := rec.prev][p];
      Edge(m', parent, p) && Label(m', parent) + 1 == Label(m', p)
  {
    if p == rec.pos {
      assert Edge(m, rec.prev, rec.pos);
      assert Cell(m', rec.prev) == Cell(m, rec.prev);
    } else {
      assert Labelled(m, p);
      var parent := from[p];
      assert Edge(m, parent, p) && Label(m, parent) + 1 == Label(m, p);
      assert Cell(m', parent) == Cell(m, parent);
    }
  }

  lemma LabelKeepsRecords(m: Maze, start: Pos, q: seq<Record>, m': Maze)
    requires RecordsOk(m, start, q)
    requires q != [] && Relabelled(m, q[0].pos, q[0].value, m')
    ensures RecordsOk(m', start, q[1..] + Successors(Targets(Cell(m, q[0].pos).shape, q[0].pos), q[0]))
  {
    var rec := q[0];
    var succ := Successors(Targets(Cell(m, rec.pos).shape, rec.pos), rec);
    var q' := q[1..] + succ;
    RelabelledFacts(m, rec.pos, rec.value, m');
    forall i | 0 <= i < |q'|
      ensures q'[i] == StartRecord(start) ||
        (q'[i].value > 0 && Edge(m', q'[i].prev, q'[i].pos) && Label(m', q'[i].prev) + 1 == q'[i].value)
    {
      if i < |q| - 1 {
        assert q'[i] == q[i + 1];
      } else {
        assert q'[i] == succ[i - (|q| - 1)];
        assert Edge(m', rec.pos, q'[i].pos);
      }
    }
  }

  /** Popping the head and pushing records one step further keeps the queue layered. */
  lemma PopPushLayered(q: seq<Record>, succ: seq<Record>)
    requires Layered(q) && q != []
    requires forall i :: 0 <= i < |succ| ==> succ[i].value == q[0].value + 1
    ensures Layered(q[1..] + succ)
    ensures q[1..] + succ != [] ==> q[0].value <= (q[1..] + succ)[0].value
  {
    var q' := q[1..] + succ;
    var n := |q| - 1;
    assert forall i :: 0 <= i < n ==> q'[i] == q[i + 1];
    assert forall i :: n <= i < |q'| ==> q'[i] == succ[i - n];
    if q' != [] {
      assert q[0].value <= q'[0].value;
    }
  }

  lemma LabelKeepsHeadBounds(m: Maze, q: seq<Record>, succ: seq<Record>, m': Maze)
    requires HeadBounds(m, q) && q != [] && Relabelled(m, q[0].pos, q[0].value, m')
    requires q[1..] + succ != [] ==> q[0].value <= (q[1..] + succ)[0].value
    ensures HeadBounds(m', q[1..] + succ)
  {
    RelabelledFacts(m, q[0].pos, q[0].value, m');
  }

  lemma LabelKeepsCovered(m: Maze, q: seq<Record>, from: map<Pos, Pos>, m': Maze)
    requires Covered(m, q, from) && HeadBounds(m, q)
    requires forall p :: p in from <==> Labelled(m, p)
    requires q != [] && Relabelled(m, q[0].pos, q[0].value, m')
    ensures Covered(m', q[1..] + Successors(Targets(Cell(m, q[0].pos).shape, q[0].pos), q[0]),
                    from[q[0].pos := q[0].prev])
  {
    var rec := q[0];
    var p0 := rec.pos;
    var q' := q[1..] + Successors(Targets(Cell(m, p0).shape, p0), rec);
    var from' := from[p0 := rec.prev];
    RelabelledFacts(m, p0, rec.value, m');
    forall p, t | p in from' && Edge(m', p, t) && t != from'[p] && !Reached(m', t, Label(m', p) + 1)
      ensures Pending(q', t, Label(m', p) + 1)
    {
      if p == p0 {
        NewEdgePending(m, q, m', t);
      } else {
        assert Edge(m, p, t) && from'[p] == from[p] && Label(m', p) == Label(m, p);
        OldEdgePending(m, q, from, m', p, t);
      }
    }
  }

  /** An edge out of the newly labelled tile is queued by its successors. */
  lemma NewEdgePending(m: Maze, q: seq<Record>, m': Maze, t: Pos)
    requires q != [] && Relabelled(m, q[0].pos, q[0].value, m')
    requires Edge(m', q[0].pos, t) && t != q[0].prev
    ensures Pending(q[1..] + Successors(Targets(Cell(m, q[0].pos).shape, q[0].pos), q[0]), t, q[0].value + 1)
  {
    var rec := q[0];
    var ts := Targets(Cell(m, rec.pos).shape, rec.pos);
    var succ := Successors(ts, rec);
    var q' := q[1..] + succ;
    assert Cell(m', rec.pos).shape == Cell(m, rec.pos).shape;
    var i := SuccessorOf(ts, rec, t);
    assert q'[|q| - 1 + i] == succ[i];
  }

  /** An edge that was pending before the pop and is not yet reached is
      pending behind the popped head. */
  lemma OldEdgePending(m: Maze, q: seq<Record>, from: map<Pos, Pos>, m': Maze, p: Pos, t: Pos)
    requires Covered(m, q, from) && HeadBounds(m, q)
    requires q != [] && Relabelled(m, q[0].pos, q[0].value, m')
    requires p in from && p != q[0].pos && Edge(m, p, t) && t != from[p]
    requires Labelled(m', p) && Label(m', p) == Label(m, p)
    requires !Reached(m', t, Label(m, p) + 1)
    ensures forall succ: seq<Record> :: Pending(q[1..] + succ, t, Label(m, p) + 1)
  {
    RelabelledFacts(m, q[0].pos, q[0].value, m');
    assert !Reached(m, t, Label(m, p) + 1);
    var i :| 0 <= i < |q| && q[i].pos == t && q[i].value <= Label(m, p) + 1;
    assert i != 0;
    forall succ: seq<Record>
      ensures Pending(q[1..] + succ, t, Label(m, p) + 1)
    {
      assert (q[1..] + succ)[i - 1] == q[i];
    }
  }

  lemma TraceInvDone(g: seq<seq<Shape>>, start: Pos, resolved: Shape, m: Maze,
                     maxValue: nat, from: map<Pos, Pos>, argmax: Pos)
    requires TraceInv(g, start, resolved, m, [], maxValue, from, argmax)
    ensures LoopTraced(g, start, resolved, Traced(m, maxValue))
  {
    DoneClosed(m, start, from);
    DoneSupported(m, start, from);
    StartLabelledZero(m, start, from);
    if maxValue == 0 {
      assert Label(m, start) == maxValue;
    }
  }

  /** Only the start record can label the start: any other record would have
      to come from the swapped pair, which is not a neighbour of the start. */
  lemma StartLabelledZero(m: Maze, start: Pos, from: map<Pos, Pos>)
    requires LabelsOk(m, start, from) && Labelled(m, start)
    ensures Label(m, start) == 0
  {
    if Label(m, start) > 0 {
      var swapped := from[start];
      assert Edge(m, swapped, start);
      SwappedPairNotATarget(Cell(m, swapped).shape, swapped);
      assert false;
    }
  }

  lemma DoneClosed(m: Maze, start: Pos, from: map<Pos, Pos>)
    requires LabelsOk(m, start, from) && Covered(m, [], from)
    ensures Closed(m)
  {
    forall p, t | Edge(m, p, t)
      ensures Labelled(m, t) && Label(m, t) <= Label(m, p) + 1
    {
      if t == from[p] {
        if Label(m, p) == 0 {
          SwappedPairNotATarget(Cell(m, p).shape, p);
          assert false;
        }
        assert Label(m, from[p]) + 1 == Label(m, p);
      } else {
        assert !Pending([], t, Label(m, p) + 1);
      }
    }
  }

  lemma DoneSupported(m: Maze, start: Pos, from: map<Pos, Pos>)
    requires LabelsOk(m, start, from)
    ensures Supported(m)
  {
    forall t | Labelled(m, t) && Label(m, t) > 0
      ensures exists p :: Edge(m, p, t) && Label(m, p) + 1 == Label(m, t)
    {
      assert Edge(m, from[t], t);
    }
  }

  /** `parse_maze` after the parse: finds the start, infers its shape, then
      runs the FIFO trace and returns the labelled maze and the largest label. */
  method TraceLoop(g: seq<seq<Shape>>) returns (r: Result<Traced, Panic>)
    ensures r == Err(MissingStart) <==> Starts(g) == []
    ensures |Starts(g)| > 1 ==> r.Err?
    ensures r.Ok? ==>
      && |Starts(g)| == 1
      && var start := Starts(g)[0];
         var nb := StartNeighbours(g, start);
         nb.Ok? && LoopTraced(g, start, ResolveStart(nb.value.north, nb.value.south, nb.value.east), r.value)
  {
    var starts := Starts(g);
    if starts == [] {
      return Err(MissingStart);
    }
    var start := starts[0];
    assert start in starts;
    var nb := StartNeighbours(g, start);
    if nb.Err? {
      return Err(nb.error);
    }
    var resolved := ResolveStart(nb.value.north, nb.value.south, nb.value.east);
    if |starts| > 1 {
      // the queue still holds the other `S` tiles ahead of the start record;
      // the first one popped has shape Start, which panics
      return Err(StartInLoop);
    }
    r := TraceFrom(g, start, resolved);
  }

  /** The FIFO trace from the resolved start: pop a record, drop it when its
      tile is already labelled, otherwise label the tile and queue the
      tiles it leads to. */
  method TraceFrom(g: seq<seq<Shape>>, start: Pos, resolved: Shape) returns (r: Result<Traced, Panic>)
    requires InGrid(g, start) && IsPipe(resolved)
    ensures r.Err? ==> r.error in {OffGrid, StartInLoop, GroundInLoop}
    ensures r.Ok? ==> LoopTraced(g, start, resolved, r.value)
  {
    var m := SetTile(Unlabelled(g), start, Tile(resolved, None));
    var q := [StartRecord(start)];
    var maxValue: nat := 0;
    ghost var from: map<Pos, Pos> := map[];
    ghost var argmax := start;
    ghost var all := Positions(g);
    TraceInvInit(g, start, resolved, m);
    while q != []
      invariant TraceInv(g, start, resolved, m, q, maxValue, from, argmax)
      invariant forall p :: p in from ==> p in all
      decreases |all - from.Keys|, |q|
    {
      var rec := q[0];
      if !InGrid(m, rec.pos) {
        return Err(OffGrid);
      }
      var tile := Cell(m, rec.pos);
      if tile.value.Some? {
        TraceInvDiscard(g, start, resolved, m, q, maxValue, from, argmax);
        q := q[1..];
        continue;
      }
      if tile.shape == Start {
        return Err(StartInLoop);
      }
      if tile.shape == Ground {
        return Err(GroundInLoop);
      }
      var q' := q[1..] + Successors(Targets(tile.shape, rec.pos), rec);
      var m' := SetTile(m, rec.pos, tile.(value := Some(rec.value)));
      ghost var from' := from[rec.pos := rec.prev];
      ghost var argmax' := if rec.value >= maxValue then rec.pos else argmax;
      var maxValue': nat := Max(maxValue, rec.value);
      LabelFrame(m, rec.pos, rec.value);
      TraceInvLabel(g, start, resolved, m, q, maxValue, from, argmax, m', q', maxValue', from', argmax');
      LabelShrinks(all, from, rec.pos, rec.prev);
      q, m, from, argmax, maxValue := q', m', from', argmax', maxValue';
    }
    TraceInvDone(g, start, resolved, m, maxValue, from, argmax);
    return Ok(Traced(m, maxValue));
  }

  // ---------------------------------------------------------------------
  // What the labels mean: distances along the pipes from the start

  /** A walk through the maze: each position is on the grid and sends the
      trace to the next one. */
  ghost predicate Walk(m: Maze, w: seq<Pos>)
  {
    |w| >= 1 &&
    forall i :: 0 <= i < |w| - 1 ==> InGrid(m, w[i]) && w[i + 1] in Targets(Cell(m, w[i]).shape, w[i])
  }

  /** Every label `v` is the length of some walk from the start. */
  lemma {:induction false} LabelHasWalk(m: Maze, start: Pos, t: Pos)
    requires Supported(m)
    requires forall p :: Labelled(m, p) && Label(m, p) == 0 ==> p == start
    requires Labelled(m, t)
    ensures exists w :: Walk(m, w) && w[0] == start && w[|w| - 1] == t && |w| == Label(m, t) + 1
  {
    var w := WalkTo(m, start, t);
  }

  /** The walk that the supporting edges trace back from `t` to the start. */
  lemma {:induction false} WalkTo(m: Maze, start: Pos, t: Pos) returns (w: seq<Pos>)
    requires Supported(m)
    requires forall p :: Labelled(m, p) && Label(m, p) == 0 ==> p == start
    requires Labelled(m, t)
    ensures Walk(m, w) && w[0] == start && w[|w| - 1] == t && |w| == Label(m, t) + 1
    decreases Label(m, t)
  {
    if Label(m, t) == 0 {
      w := [t];
    } else {
      var p :| Edge(m, p, t) && Label(m, p) + 1 == Label(m, t);
      var w0 := WalkTo(m, start, p);
      WalkSnoc(m, w0, t);
      w := w0 + [t];
    }
  }

  /** A walk extends by any target of its last tile. */
  lemma WalkSnoc(m: Maze, w: seq<Pos>, t: Pos)
    requires Walk(m, w) && Edge(m, w[|w| - 1], t)
    ensures Walk(m, w + [t]) && (w + [t])[0] == w[0] && (w + [t])[|w|] == t && |w + [t]| == |w| + 1
  {
    var w' := w + [t];
    forall i | 0 <= i < |w'| - 1
      ensures InGrid(m, w'[i]) && w'[i + 1] in Targets(Cell(m, w'[i]).shape, w'[i])
    {
      if i < |w| - 1 {
        assert w'[i] == w[i] && w'[i + 1] == w[i + 1];
      } else {
        assert w'[i] == w[|w| - 1] && w'[i + 1] == t;
      }
    }
  }

  /** No walk from the start is shorter than the label at its end, and
      every tile a walk reaches is labelled. */
  lemma {:induction false} WalkBoundsLabel(m: Maze, start: Pos, w: seq<Pos>)
    requires Closed(m) && Labelled(m, start) && Label(m, start) == 0
    requires Walk(m, w) && w[0] == start
    ensures Labelled(m, w[|w| - 1]) && Label(m, w[|w| - 1]) <= |w| - 1
    decreases |w|
  {
    if |w| > 1 {
      var w0 := w[..|w| - 1];
      assert Walk(m, w0) by {
        forall i | 0 <= i < |w0| - 1
          ensures InGrid(m, w0[i]) && w0[i + 1] in Targets(Cell(m, w0[i]).shape, w0[i])
        {
          assert w0[i] == w[i] && w0[i + 1] == w[i + 1];
        }
      }
      WalkBoundsLabel(m, start, w0);
      var p := w[|w| - 2];
      assert w0[|w0| - 1] == p;
      assert Edge(m, p, w[|w| - 1]);
    }
  }

  /** The trace labels exactly the tiles reachable from the start, each with
      the length of a shortest walk to it. */
  lemma LabelIsDistance(g: seq<seq<Shape>>, start: Pos, resolved: Shape, tr: Traced, t: Pos)
    requires LoopTraced(g, start, resolved, tr)
    ensures Labelled(tr.maze, t) ==>
      exists w :: Walk(tr.maze, w) && w[0] == start && w[|w| - 1] == t && |w| == Label(tr.maze, t) + 1
    ensures forall w :: Walk(tr.maze, w) && w[0] == start && w[|w| - 1] == t ==>
      Labelled(tr.maze, t) && Label(tr.maze, t) <= |w| - 1
  {
    var m := tr.maze;
    assert Closed(m) && Supported(m) && Labelled(m, start) && Label(m, start) == 0;
    assert forall p :: Labelled(m, p) && Label(m, p) == 0 ==> p == start;
    if Labelled(m, t) {
      var w := WalkTo(m, start, t);
    }
    NoShorterWalk(m, start, t);
  }

  /** In a closed maze no walk from the start reaches `t` in fewer steps than its label. */
  lemma NoShorterWalk(m: Maze, start: Pos, t: Pos)
    requires Closed(m) && Labelled(m, start) && Label(m, start) == 0
    ensures forall w :: Walk(m, w) && w[0] == start && w[|w| - 1] == t ==>
      Labelled(m, t) && Label(m, t) <= |w| - 1
  {
    forall w | Walk(m, w) && w[0] == start && w[|w| - 1] == t
      ensures Labelled(m, t) && Label(m, t) <= |w| - 1
    {
      WalkBoundsLabel(m, start, w);
    }
  }

  /** A walk depends only on the shapes, so it survives between two traced
      mazes of the same grid. */
  lemma WalkTransfers(g: seq<seq<Shape>>, start: Pos, resolved: Shape, a: Traced, b: Traced, w: seq<Pos>)
    requires LoopTraced(g, start, resolved, a) && LoopTraced(g, start, resolved, b)
    requires Walk(a.maze, w)
    ensures Walk(b.maze, w)
  {
    forall i | 0 <= i < |w| - 1
      ensures InGrid(b.maze, w[i]) && w[i + 1] in Targets(Cell(b.maze, w[i]).shape, w[i])
    {
      assert InGrid(a.maze, w[i]);
      assert InGrid(g, w[i]);
    }
  }

  /** A tile labelled in one traced maze is labelled in any other of the
      same grid, with a label no larger. */
  lemma LabelBoundedAcross(g: seq<seq<Shape>>, start: Pos, resolved: Shape, a: Traced, b: Traced, p: Pos)
    requires LoopTraced(g, start, resolved, a) && LoopTraced(g, start, resolved, b)
    requires Labelled(a.maze, p)
    ensures Labelled(b.maze, p) && Label(b.maze, p) <= Label(a.maze, p)
  {
    var w := WalkTo(a.maze, start, p);
    WalkTransfers(g, start, resolved, a, b, w);
    WalkBoundsLabel(b.maze, start, w);
  }

  /** The result of the trace is determined by the grid: any two traced mazes
      of the same grid carry the same labels and the same maximum. */
  lemma TraceIsUnique(g: seq<seq<Shape>>, start: Pos, resolved: Shape, a: Traced, b: Traced)
    requires LoopTraced(g, start, resolved, a) && LoopTraced(g, start, resolved, b)
    ensures forall p :: Labelled(a.maze, p) <==> Labelled(b.maze, p)
    ensures forall p :: Labelled(a.maze, p) ==> Label(a.maze, p) == Label(b.maze, p)
    ensures a.maxDistance == b.maxDistance
  {
    forall p | Labelled(a.maze, p)
      ensures Labelled(b.maze, p) && Label(b.maze, p) <= Label(a.maze, p)
    {
      LabelBoundedAcross(g, start, resolved, a, b, p);
    }
    forall p | Labelled(b.maze, p)
      ensures Labelled(a.maze, p) && Label(a.maze, p) <= Label(b.maze, p)
    {
      LabelBoundedAcross(g, start, resolved, b, a, p);
    }
    MaxLabelDetermined(a.maze, b.maze, a.maxDistance, b.maxDistance);
  }

  /** Two mazes with the same labels have the same largest label. */
  lemma MaxLabelDetermined(ma: Maze, mb: Maze, va: nat, vb: nat)
    requires IsMaxLabel(ma, va) && IsMaxLabel(mb, vb)
    requires forall p :: Labelled(ma, p) <==> Labelled(mb, p)
    requires forall p :: Labelled(ma, p) ==> Label(ma, p) == Label(mb, p)
    ensures va == vb
  {
    var pa :| Labelled(ma, pa) && Label(ma, pa) == va;
    var pb :| Labelled(mb, pb) && Label(mb, pb) == vb;
    assert Label(mb, pa) <= vb;
    assert Label(ma, pb) <= va;
  }

  // ---------------------------------------------------------------------
  // Part 2: the row sweep

  /** The shape the sweep sees: loop tiles keep theirs, every other tile is Ground. */
  function Effective(t: Tile): (s: Shape)
    ensures t.value.None? ==> s == Ground
    ensures t.value.Some? ==> s == t.shape
  {
    if t.value.Some? then t.shape else Ground
  }

  function EffectiveRow(row: seq<Tile>): (s: seq<Shape>)
    ensures |s| == |row| && forall k :: 0 <= k < |row| ==> s[k] == Effective(row[k])
  {
    seq(|row|, k requires 0 <= k < |row| => Effective(row[k]))
  }

  /** How one tile moves the row counter. */
  function Contribution(s: Shape): int
  {
    match s
    case Vertical => 2
    case NorthEast => -1
    case SouthWest => -1
    case SouthEast => 1
    case NorthWest => 1
    case _ => 0
  }

  /** The counter after sweeping `s` from the left. */
  function Counter(s: seq<Shape>): int
  {
    if s == [] then 0 else Counter(s[..|s| - 1]) + Contribution(s[|s| - 1])
  }

  /** Rust's `%` on `i32`: the remainder takes the sign of the dividend. */
  function TruncRem(a: int, b: int): (r: int)
    requires b > 0
    ensures -b < r < b
    ensures a >= 0 ==> r == a % b
    ensures a < 0 ==> r <= 0
  {
    if a >= 0 then a % b else -((-a) % b)
  }

  /** The sweep's test at a Ground tile. */
  predicate Inside(counter: int)
  {
    Abs(TruncRem(counter, 4)) == 2
  }

  /** The test on the truncated remainder is the test `counter ≡ 2 (mod 4)`. */
  lemma InsideIsTwoModFour(c: int)
    ensures Inside(c) <==> c % 4 == 2
  {
    if c < 0 {
      var r := (-c) % 4;
      assert -c == 4 * ((-c) / 4) + r;
      assert c == 4 * (-((-c) / 4) - 1) + (4 - r) || r == 0;
    }
  }

  /** The enclosed tiles of one effective row: `None` where the sweep panics on a Start. */
  function RowInterior(s: seq<Shape>): (r: Option<nat>)
    ensures r.None? <==> Start in s
  {
    if s == [] then Some(0)
    else
      var n := |s| - 1;
      match RowInterior(s[..n])
      case None => None
      case Some(k) =>
        if s[n] == Start then None
        else Some(k + if s[n] == Ground && Inside(Counter(s[..n])) then 1 else 0)
  }

  /** The enclosed tiles of a whole maze, row after row. */
  function Interior(rows: seq<seq<Shape>>): (r: Option<nat>)
    ensures r.None? <==> exists i :: 0 <= i < |rows| && Start in rows[i]
  {
    if rows == [] then Some(0)
    else
      var n := |rows| - 1;
      var before := Interior(rows[..n]);
      var last := RowInterior(rows[n]);
      assert forall i :: 0 <= i < n ==> rows[..n][i] == rows[i];
      if before.Some? && last.Some? then Some(before.value + last.value) else None
  }

  function EffectiveRows(m: Maze): (rows: seq<seq<Shape>>)
    ensures |rows| == |m| && forall i :: 0 <= i < |m| ==> rows[i] == EffectiveRow(m[i])
  {
    seq(|m|, i requires 0 <= i < |m| => EffectiveRow(m[i]))
  }

  /** `handle_part_2` after the trace: sweeps every row left to right with a
      counter that restarts at 0, and counts the Ground tiles it finds inside. */
  method CountEnclosed(m: Maze) returns (r: Option<nat>)
    ensures r == Interior(EffectiveRows(m))
    ensures r.None? <==> exists p :: Labelled(m, p) && Cell(m, p).shape == Start
  {
    ghost var rows := EffectiveRows(m);
    var res := 0;
    var i := 0;
    while i < |m|
      invariant 0 <= i <= |m|
      invariant Interior(rows[..i]) == Some(res)
    {
      var found := SweepRow(m[i]);
      if found.None? {
        RowBlocks(m, i);
        return None;
      }
      InteriorSnoc(rows, i, res, found.value);
      res := res + found.value;
      i := i + 1;
    }
    assert rows[..i] == rows;
    NoStartInRows(m);
    return Some(res);
  }

  /** Adding a row that does not panic adds its enclosed tiles. */
  lemma InteriorSnoc(rows: seq<seq<Shape>>, i: nat, a: nat, b: nat)
    requires i < |rows| && Interior(rows[..i]) == Some(a) && RowInterior(rows[i]) == Some(b)
    ensures Interior(rows[..i + 1]) == Some(a + b)
  {
    assert rows[..i + 1][..i] == rows[..i];
    assert rows[..i + 1][i] == rows[i];
  }

  /** The sweep of one row: the counter starts at 0, moves at every loop
      tile, and each Ground tile it finds inside is counted; a Start panics. */
  method SweepRow(row: seq<Tile>) returns (r: Option<nat>)
    ensures r == RowInterior(EffectiveRow(row))
  {
    ghost var s := EffectiveRow(row);
    var counter := 0;
    var found := 0;
    for j := 0 to |row|
      invariant counter == Counter(s[..j])
      invariant RowInterior(s[..j]) == Some(found)
    {
      var shape := Effective(row[j]);
      assert s[..j + 1] == s[..j] + [shape];
      assert s[..j + 1][..j] == s[..j];
      match shape {
        case Ground =>
          var ab := TruncRem(counter, 4);
          if Abs(ab) == 2 {
            found := found + 1;
          }
        case Vertical => counter := counter + 2;
        case NorthEast => counter := counter - 1;
        case SouthWest => counter := counter - 1;
        case SouthEast => counter := counter + 1;
        case NorthWest => counter := counter + 1;
        case Start =>
          RowInteriorStart(s, j);
          return None;
        case Horizontal =>
      }
    }
    assert s[..|row|] == s;
    return Some(found);
  }

  /** A Start anywhere in a row makes the whole row panic. */
  lemma {:induction false} RowInteriorStart(s: seq<Shape>, j: nat)
    requires j < |s| && s[j] == Start
    ensures RowInterior(s) == None
  {
    assert Start in s;
  }

  /** A row that panics makes the whole sweep panic, and it holds a traced Start. */
  lemma RowBlocks(m: Maze, i: nat)
    requires i < |m| && RowInterior(EffectiveRow(m[i])).None?
    ensures Interior(EffectiveRows(m)) == None
    ensures exists p :: Labelled(m, p) && Cell(m, p).shape == Start
  {
    var s := EffectiveRow(m[i]);
    assert Start in s;
    var j :| 0 <= j < |s| && s[j] == Start;
    StartBlocksRow(m, i, j);
  }

  lemma StartBlocksRow(m: Maze, i: nat, j: nat)
    requires i < |m| && j < |m[i]| && Effective(m[i][j]) == Start
    ensures Interior(EffectiveRows(m)) == None
    ensures exists p :: Labelled(m, p) && Cell(m, p).shape == Start
  {
    var rows := EffectiveRows(m);
    assert rows[i][j] == Start;
    assert Labelled(m, Pos(i, j));
  }

  lemma NoStartInRows(m: Maze)
    requires Interior(EffectiveRows(m)).Some?
    ensures !exists p :: Labelled(m, p) && Cell(m, p).shape == Start
  {
    var rows := EffectiveRows(m);
    forall p | Labelled(m, p)
      ensures Cell(m, p).shape != Start
    {
      assert rows[p.row][p.col] == Effective(Cell(m, p));
    }
  }

  // ---------------------------------------------------------------------
  // Why the sweep works: crossing parity

  /** How many tiles of `s` open to the north: the loop crossings to the left
      of a tile, counting a horizontal run by its north-going ends. */
  function NorthCount(s: seq<Shape>): nat
  {
    if s == [] then 0 else NorthCount(s[..|s| - 1]) + if Opens(s[|s| - 1], North) then 1 else 0
  }

  /** A row whose pipes join up horizontally: no Start, the first tile does
      not open west, and each tile opens east exactly when its right
      neighbour opens west. It is the hypothesis of the crossing argument
      below; no lemma here derives it from `LoopTraced`. */
  ghost predicate RowJoined(s: seq<Shape>)
  {
    && (forall k :: 0 <= k < |s| ==> s[k] != Start)
    && (s != [] ==> !Opens(s[0], West))
    && (forall k :: 0 < k < |s| ==> (Opens(s[k - 1], East) <==> Opens(s[k], West)))
  }

  lemma RowJoinedPrefix(s: seq<Shape>, n: nat)
    requires RowJoined(s) && n <= |s|
    ensures RowJoined(s[..n])
  {
    var pre := s[..n];
    forall k | 0 <= k < |pre|
      ensures pre[k] == s[k]
    {
    }
  }

  lemma ModFourShift(c: int, d: int)
    ensures (c + d) % 4 == (c % 4 + d) % 4
  {
    var q := c / 4;
    assert c == 4 * q + c % 4;
    assert c + d == 4 * q + (c % 4 + d);
  }

  /** Along a joined row, the counter minus twice the north count is 1 mod 4
      inside a horizontal run and 0 mod 4 everywhere else. */
  lemma {:induction false} CounterTracksCrossings(s: seq<Shape>)
    requires RowJoined(s)
    ensures (Counter(s) - 2 * NorthCount(s)) % 4 == if s != [] && Opens(s[|s| - 1], East) then 1 else 0
    decreases |s|
  {
    if s != [] {
      var n := |s| - 1;
      var pre := s[..n];
      RowJoinedPrefix(s, n);
      CounterTracksCrossings(pre);
      var c := Counter(pre) - 2 * NorthCount(pre);
      var d := Contribution(s[n]) - 2 * (if Opens(s[n], North) then 1 else 0);
      assert Counter(s) - 2 * NorthCount(s) == c + d;
      ModFourShift(c, d);
      assert n > 0 ==> pre[n - 1] == s[n - 1];
      assert Opens(s[n], West) <==> (pre != [] && Opens(pre[|pre| - 1], East));
    }
  }

  /** At a Ground tile of a joined row, the sweep's test holds exactly when an
      odd number of loop crossings lie to its left. */
  lemma CrossingRule(s: seq<Shape>, k: nat)
    requires RowJoined(s) && k < |s| && s[k] == Ground
    ensures Inside(Counter(s[..k])) <==> NorthCount(s[..k]) % 2 == 1
  {
    var pre := s[..k];
    RowJoinedPrefix(s, k);
    CounterTracksCrossings(pre);
    if k > 0 {
      assert pre[k - 1] == s[k - 1];
      assert !Opens(s[k], West);
    }
    InsideIsTwoModFour(Counter(pre));
    ParityFromResidue(Counter(pre), NorthCount(pre));
  }

  /** A counter `c` that is `2 n` mod 4 is 2 mod 4 exactly when `n` is odd. */
  lemma ParityFromResidue(c: int, n: nat)
    requires (c - 2 * n) % 4 == 0
    ensures c % 4 == 2 <==> n % 2 == 1
  {
    var j := (c - 2 * n) / 4;
    var h := n / 2;
    assert c == 4 * j + 2 * n;
    assert n == 2 * h + n % 2;
    assert c == 4 * (j + h) + 2 * (n % 2);
  }

  /** The reference count: Ground tiles with an odd number of crossings to the left. */
  function CrossingCount(s: seq<Shape>): nat
  {
    if s == [] then 0
    else
      var n := |s| - 1;
      CrossingCount(s[..n]) + if s[n] == Ground && NorthCount(s[..n]) % 2 == 1 then 1 else 0
  }

  /** On a joined row the sweep counts exactly the tiles the crossing rule puts inside. */
  lemma {:induction false} SweepIsCrossingParity(s: seq<Shape>)
    requires RowJoined(s)
    ensures RowInterior(s) == Some(CrossingCount(s))
    decreases |s|
  {
    if s != [] {
      var n := |s| - 1;
      RowJoinedPrefix(s, n);
      SweepIsCrossingParity(s[..n]);
      if s[n] == Ground {
        CrossingRule(s, n);
      }
    }
  }

  /** The effective rows of the five-by-five square loop of the tests. */
  function SquareLoopRows(): seq<seq<Shape>>
  {
    [ [Ground, Ground, Ground, Ground, Ground],
      [Ground, SouthEast, Horizontal, SouthWest, Ground],
      [Ground, Vertical, Ground, Vertical, Ground],
      [Ground, NorthEast, Horizontal, NorthWest, Ground],
      [Ground, Ground, Ground, Ground, Ground] ]
  }

  /** The sweep finds the one tile the square loop encloses. */
  lemma SquareLoopEnclosesOne()
    ensures Interior(SquareLoopRows()) == Some(1)
  {
    var rows := SquareLoopRows();
    GroundRowEmpty();
    SquareTopRow();
    SquareMiddleRow();
    SquareBottomRow();
    assert rows[..0] == [];
    InteriorSnoc(rows, 0, 0, 0);
    InteriorSnoc(rows, 1, 0, 0);
    InteriorSnoc(rows, 2, 0, 1);
    InteriorSnoc(rows, 3, 1, 0);
    InteriorSnoc(rows, 4, 1, 0);
    assert rows[..5] == rows;
  }

  /** A row of Ground alone encloses nothing. */
  lemma GroundRowEmpty()
    ensures RowInterior([Ground, Ground, Ground, Ground, Ground]) == Some(0)
  {
    assert [Ground, Ground, Ground, Ground, Ground][..4] == [Ground, Ground, Ground, Ground];
    assert [Ground, Ground, Ground, Ground][..3] == [Ground, Ground, Ground];
    assert [Ground, Ground, Ground][..2] == [Ground, Ground];
    assert [Ground, Ground][..1] == [Ground];
    assert [Ground][..0] == [];
  }

  /** The top edge of the square: the sweep stays outside. */
  lemma SquareTopRow()
    ensures RowInterior([Ground, SouthEast, Horizontal, SouthWest, Ground]) == Some(0)
  {
    assert [Ground, SouthEast, Horizontal, SouthWest, Ground][..4] == [Ground, SouthEast, Horizontal, SouthWest];
    assert [Ground, SouthEast, Horizontal, SouthWest][..3] == [Ground, SouthEast, Horizontal];
    assert [Ground, SouthEast, Horizontal][..2] == [Ground, SouthEast];
    assert [Ground, SouthEast][..1] == [Ground];
    assert [Ground][..0] == [];
  }

  /** The middle row: only the tile between the two verticals is inside. */
  lemma SquareMiddleRow()
    ensures RowInterior([Ground, Vertical, Ground, Vertical, Ground]) == Some(1)
  {
    assert [Ground, Vertical, Ground, Vertical, Ground][..4] == [Ground, Vertical, Ground, Vertical];
    assert [Ground, Vertical, Ground, Vertical][..3] == [Ground, Vertical, Ground];
    assert [Ground, Vertical, Ground][..2] == [Ground, Vertical];
    assert [Ground, Vertical][..1] == [Ground];
    assert [Ground][..0] == [];
  }

  /** The bottom edge of the square: the sweep stays outside. */
  lemma SquareBottomRow()
    ensures RowInterior([Ground, NorthEast, Horizontal, NorthWest, Ground]) == Some(0)
  {
    assert [Ground, NorthEast, Horizontal, NorthWest, Ground][..4] == [Ground, NorthEast, Horizontal, NorthWest];
    assert [Ground, NorthEast, Horizontal, NorthWest][..3] == [Ground, NorthEast, Horizontal];
    assert [Ground, NorthEast, Horizontal][..2] == [Ground, NorthEast];
    assert [Ground, NorthEast][..1] == [Ground];
    assert [Ground][..0] == [];
  }

  // ---------------------------------------------------------------------
  // The two answers

  /** `t` is a trace of the maze text `lines`: it parses, has exactly one
      start whose neighbours can be inspected, and `t` is traced from it. */
  ghost predicate TracedFrom(lines: seq<string>, t: Traced)
  {
    && ParseGrid(lines).Ok?
    && var g := ParseGrid(lines).value;
       && |Starts(g)| == 1
       && InGrid(g, Starts(g)[0])
       && var nb := StartNeighbours(g, Starts(g)[0]);
          && nb.Ok?
          && LoopTraced(g, Starts(g)[0], ResolveStart(nb.value.north, nb.value.south, nb.value.east), t)
  }

  /** Two traces of the same text agree, so each answer below is determined by the text. */
  lemma TracedFromIsUnique(lines: seq<string>, a: Traced, b: Traced)
    requires TracedFrom(lines, a) && TracedFrom(lines, b)
    ensures a.maxDistance == b.maxDistance
    ensures EffectiveRows(a.maze) == EffectiveRows(b.maze)
  {
    var g := ParseGrid(lines).value;
    var start := Starts(g)[0];
    var nb := StartNeighbours(g, start);
    var resolved := ResolveStart(nb.value.north, nb.value.south, nb.value.east);
    TraceIsUnique(g, start, resolved, a, b);
    SameLabelsSameRows(g, start, resolved, a, b);
  }

  lemma SameLabelsSameRows(g: seq<seq<Shape>>, start: Pos, resolved: Shape, a: Traced, b: Traced)
    requires LoopTraced(g, start, resolved, a) && LoopTraced(g, start, resolved, b)
    requires forall p :: Labelled(a.maze, p) <==> Labelled(b.maze, p)
    ensures EffectiveRows(a.maze) == EffectiveRows(b.maze)
  {
    TracedSameShapes(g, start, resolved, a, b);
    var ra, rb := EffectiveRows(a.maze), EffectiveRows(b.maze);
    forall i | 0 <= i < |ra|
      ensures ra[i] == rb[i]
    {
      SameLabelsSameRow(a.maze, b.maze, i);
    }
  }

  /** Two mazes with the same layout and the same shape on every tile. */
  ghost predicate SameShapes(ma: Maze, mb: Maze)
  {
    SameLayout(ma, mb) && forall p :: InGrid(ma, p) ==> Cell(ma, p).shape == Cell(mb, p).shape
  }

  lemma TracedSameShapes(g: seq<seq<Shape>>, start: Pos, resolved: Shape, a: Traced, b: Traced)
    requires LoopTraced(g, start, resolved, a) && LoopTraced(g, start, resolved, b)
    ensures SameShapes(a.maze, b.maze)
  {
    forall p | InGrid(a.maze, p)
      ensures Cell(a.maze, p).shape == Cell(b.maze, p).shape
    {
      assert InGrid(g, p);
    }
  }

  lemma SameLabelsSameRow(ma: Maze, mb: Maze, i: nat)
    requires SameShapes(ma, mb) && forall p :: Labelled(ma, p) <==> Labelled(mb, p)
    requires i < |ma|
    ensures EffectiveRow(ma[i]) == EffectiveRow(mb[i])
  {
    var ra, rb := EffectiveRow(ma[i]), EffectiveRow(mb[i]);
    forall j | 0 <= j < |ra|
      ensures ra[j] == rb[j]
    {
      var p := Pos(i, j);
      assert InGrid(ma, p) && InGrid(mb, p);
      assert Labelled(ma, p) <==> Labelled(mb, p);
    }
  }

  /** Every traced tile is a pipe, so the sweep over a traced maze never panics. */
  lemma TracedHasNoStart(g: seq<seq<Shape>>, start: Pos, resolved: Shape, t: Traced)
    requires LoopTraced(g, start, resolved, t)
    ensures !exists p :: Labelled(t.maze, p) && Cell(t.maze, p).shape == Start
  {
  }

  /** `handle_part_1`: the largest distance from the start along the loop. */
  method HandlePart1(lines: seq<string>) returns (r: Result<nat, Panic>)
    ensures ParseGrid(lines).Err? ==> r == Err(UnknownCharacter)
    ensures ParseGrid(lines).Ok? && Starts(ParseGrid(lines).value) == [] ==> r == Err(MissingStart)
    ensures r.Ok? ==> exists t :: TracedFrom(lines, t) && t.maxDistance == r.value
  {
    var parsed := ParseGrid(lines);
    if parsed.Err? {
      return Err(parsed.error);
    }
    var traced := TraceLoop(parsed.value);
    if traced.Err? {
      return Err(traced.error);
    }
    assert TracedFrom(lines, traced.value);
    return Ok(traced.value.maxDistance);
  }

  /** `handle_part_2`: the number of tiles the loop encloses. The sweep never
      meets a Start here, since every traced tile is a pipe. */
  method HandlePart2(lines: seq<string>) returns (r: Result<nat, Panic>)
    ensures ParseGrid(lines).Err? ==> r == Err(UnknownCharacter)
    ensures ParseGrid(lines).Ok? && Starts(ParseGrid(lines).value) == [] ==> r == Err(MissingStart)
    ensures r.Ok? ==> exists t :: TracedFrom(lines, t) && Interior(EffectiveRows(t.maze)) == Some(r.value)
  {
    var parsed := ParseGrid(lines);
    if parsed.Err? {
      return Err(parsed.error);
    }
    var traced := TraceLoop(parsed.value);
    if traced.Err? {
      return Err(traced.error);
    }
    assert TracedFrom(lines, traced.value);
    var g := parsed.value;
    var nb := StartNeighbours(g, Starts(g)[0]);
    TracedHasNoStart(g, Starts(g)[0], ResolveStart(nb.value.north, nb.value.south, nb.value.east), traced.value);
    var count := CountEnclosed(traced.value.maze);
    return Ok(count.value);
  }
}
