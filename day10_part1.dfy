/** Day 10, part 1: reading the pipe sketch into a grid of tiles keyed by
    (row, column), and finding the tiles next to a given one. */
module Day10Part1 {
  import opened Common

  datatype Direction = Up | Down | Left | Right

  /** A pipe joins its two ends. */
  datatype Pipe = Pipe(a: Direction, b: Direction)

  datatype TileItem = PipeItem(pipe: Pipe) | Ground | Start

  /** A position is (row, column). */
  type Position = (nat, nat)

  datatype Tile = Tile(position: Position, item: TileItem)

  type Grid = map<Position, Tile>

  /** parse_pipe; a character that is not a pipe is the panic, here None. */
  function ParsePipe(c: char): (r: Option<Pipe>)
    ensures r.Some? <==> c in "|-LJ7F"
    ensures r.Some? ==> r.value.a != r.value.b
    ensures c == '|' ==> r == Some(Pipe(Up, Down))
  {
    match c
    case '|' => Some(Pipe(Up, Down))
    case '-' => Some(Pipe(Left, Right))
    case 'L' => Some(Pipe(Up, Right))
    case 'J' => Some(Pipe(Up, Left))
    case '7' => Some(Pipe(Down, Left))
    case 'F' => Some(Pipe(Down, Right))
    case _ => None
  }

  /** The sketch's character for each pipe shape. */
  function PipeChar(p: Pipe): char
  {
    match p
    case Pipe(Up, Down) => '|'
    case Pipe(Left, Right) => '-'
    case Pipe(Up, Right) => 'L'
    case Pipe(Up, Left) => 'J'
    case Pipe(Down, Left) => '7'
    case Pipe(Down, Right) => 'F'
    case _ => '?'
  }

  /** Which ends a pipe joins: | north-south, - east-west, L north-east,
      J north-west, 7 south-west, F south-east. */
  predicate Joins(p: Pipe, d: Direction)
  {
    p.a == d || p.b == d
  }

  /** parse_pipe and PipeChar are inverse: every pipe character names one
      shape, and the six shapes are the six unordered pairs of directions
      that the comment table lists. */
  lemma ParsePipeInverse(c: char, p: Pipe)
    ensures ParsePipe(c) == Some(p) ==> PipeChar(p) == c
    ensures PipeChar(p) != '?' ==> ParsePipe(PipeChar(p)) == Some(p)
    ensures ParsePipe(c) == Some(p) ==>
      (c == '|' <==> Joins(p, Up) && Joins(p, Down)) &&
      (c == '-' <==> Joins(p, Left) && Joins(p, Right)) &&
      (c == 'L' <==> Joins(p, Up) && Joins(p, Right)) &&
      (c == 'J' <==> Joins(p, Up) && Joins(p, Left)) &&
      (c == '7' <==> Joins(p, Down) && Joins(p, Left)) &&
      (c == 'F' <==> Joins(p, Down) && Joins(p, Right))
  {
  }

  /** parse_tile_item; any other character is the panic, here None. */
  function ParseTileItem(c: char): (r: Option<TileItem>)
    ensures r.Some? <==> c in "|-LJ7F.S"
    ensures r == Some(Ground) <==> c == '.'
    ensures r == Some(Start) <==> c == 'S'
    ensures (r.Some? && r.value.PipeItem?) <==> ParsePipe(c).Some?
    ensures r.Some? && r.value.PipeItem? ==> ParsePipe(c) == Some(r.value.pipe)
  {
    if ParsePipe(c).Some? then Some(PipeItem(ParsePipe(c).value))
    else if c == '.' then Some(Ground)
    else if c == 'S' then Some(Start)
    else None
  }

  /** (row, col) names a character of the sketch. */
  predicate InSketch(lines: seq<string>, p: Position)
  {
    p.0 < |lines| && p.1 < |lines[p.0]|
  }

  /** Every character of the sketch is a tile character. */
  predicate ValidSketch(lines: seq<string>)
  {
    forall y, x :: 0 <= y < |lines| && 0 <= x < |lines[y]| ==> ParseTileItem(lines[y][x]).Some?
  }

  /** The grid of a sketch: one entry per character, keyed by its
      (row, column), holding a tile at that position made of that
      character. */
  ghost predicate IsGridOf(lines: seq<string>, grid: Grid)
  {
    && (forall p :: p in grid <==> InSketch(lines, p))
    && forall p :: p in grid ==>
         InSketch(lines, p) && grid[p].position == p && ParseTileItem(lines[p.0][p.1]) == Some(grid[p].item)
  }

  /** A sketch has at most one grid. */
  lemma IsGridOfUnique(lines: seq<string>, g1: Grid, g2: Grid)
    requires IsGridOf(lines, g1) && IsGridOf(lines, g2)
    ensures g1 == g2
  {
    assert g1.Keys == g2.Keys;
    forall p | p in g1
      ensures g1[p] == g2[p]
    {
      assert p in g2;
    }
  }

  /** Positions filled before (y, x) in row-major order. */
  predicate Before(p: Position, y: nat, x: nat)
  {
    p.0 < y || (p.0 == y && p.1 < x)
  }

  ghost predicate FilledBefore(lines: seq<string>, grid: Grid, y: nat, x: nat)
  {
    && (forall p :: p in grid <==> InSketch(lines, p) && Before(p, y, x))
    && forall p :: p in grid ==>
         InSketch(lines, p) && grid[p].position == p && ParseTileItem(lines[p.0][p.1]) == Some(grid[p].item)
  }

  /** One row of parse_grid: insert a tile for every character of row y;
      a character that is not a tile is the panic, here None. */
  method ParseRow(lines: seq<string>, y: nat, grid: Grid) returns (r: Option<Grid>)
    requires y < |lines| && FilledBefore(lines, grid, y, 0)
    ensures r.None? ==> exists x :: 0 <= x < |lines[y]| && ParseTileItem(lines[y][x]).None?
    ensures r.Some? ==> FilledBefore(lines, r.value, y + 1, 0)
  {
    var row: Grid := grid;
    for x := 0 to |lines[y]|
      invariant FilledBefore(lines, row, y, x)
    {
      var item := ParseTileItem(lines[y][x]);
      if item.None? {
        return None;
      }
      row := row[(y, x) := Tile((y, x), item.value)];
    }
    assert forall p :: InSketch(lines, p) && Before(p, y, |lines[y]|) <==> InSketch(lines, p) && Before(p, y + 1, 0);
    return Some(row);
  }

  /** parse_grid: one insertion per character, row by row; a character
      that is not a tile is the panic, here None. */
  method ParseGrid(lines: seq<string>) returns (r: Option<Grid>)
    ensures r.Some? <==> ValidSketch(lines)
    ensures r.Some? ==> IsGridOf(lines, r.value)
  {
    var grid: Grid := map[];
    for y := 0 to |lines|
      invariant FilledBefore(lines, grid, y, 0)
    {
      var next := ParseRow(lines, y, grid);
      if next.None? {
        return None;
      }
      grid := next.value;
    }
    assert forall p :: InSketch(lines, p) ==> Before(p, |lines|, 0);
    forall y, x | 0 <= y < |lines| && 0 <= x < |lines[y]|
      ensures ParseTileItem(lines[y][x]).Some?
    {
      assert (y, x) in grid;
    }
    return Some(grid);
  }

  /** The grid of the sketch ".F-" (the test of parse_grid). */
  lemma ParseGridExample(grid: Grid)
    requires IsGridOf([".F-"], grid)
    ensures grid == map[(0, 0) := Tile((0, 0), Ground),
                        (0, 1) := Tile((0, 1), PipeItem(Pipe(Down, Right))),
                        (0, 2) := Tile((0, 2), PipeItem(Pipe(Left, Right)))]
  {
    var lines := [".F-"];
    assert InSketch(lines, (0, 0)) && InSketch(lines, (0, 1)) && InSketch(lines, (0, 2));
    assert forall p :: InSketch(lines, p) <==> p == (0, 0) || p == (0, 1) || p == (0, 2);
  }

  /** The tile at p, if the grid has one. */
  function Probe(grid: Grid, p: Position): (t: seq<Tile>)
    ensures |t| <= 1
  {
    if p in grid then [grid[p]] else []
  }

  /** What adjacent_tiles looks at, in its order: up, down (only while the
      row is below 4), left, right (only while the column is below 4). */
  function BoundedNeighbours(grid: Grid, p: Position): seq<Tile>
  {
    var (y, x) := p;
    (if y > 0 then Probe(grid, (y - 1, x)) else [])
    + (if y < 4 then Probe(grid, (y + 1, x)) else [])
    + (if x > 0 then Probe(grid, (y, x - 1)) else [])
    + (if x < 4 then Probe(grid, (y, x + 1)) else [])
  }

  /** adjacent_tiles, as written. */
  method AdjacentTiles(tile: Tile, grid: Grid) returns (adjacent: seq<Tile>)
    ensures adjacent == BoundedNeighbours(grid, tile.position)
  {
    adjacent := [];
    var (y, x) := tile.position;
    if y > 0 {
      var position := (y - 1, x);
      if position in grid {
        adjacent := adjacent + [grid[position]];
      }
    }
    assert adjacent == (if y > 0 then Probe(grid, (y - 1, x)) else []);
    if y < 4 {
      var position := (y + 1, x);
      if position in grid {
        adjacent := adjacent + [grid[position]];
      }
    }
    assert adjacent == (if y > 0 then Probe(grid, (y - 1, x)) else [])
                     + (if y < 4 then Probe(grid, (y + 1, x)) else []);
    if x > 0 {
      var position := (y, x - 1);
      if position in grid {
        adjacent := adjacent + [grid[position]];
      }
    }
    assert adjacent == (if y > 0 then Probe(grid, (y - 1, x)) else [])
                     + (if y < 4 then Probe(grid, (y + 1, x)) else [])
                     + (if x > 0 then Probe(grid, (y, x - 1)) else []);
    if x < 4 {
      var position := (y, x + 1);
      if position in grid {
        adjacent := adjacent + [grid[position]];
      }
    }
  }

  /** q is one step up, down, left or right of p. */
  predicate Adjacent(p: Position, q: Position)
  {
    (p.1 == q.1 && (p.0 + 1 == q.0 || q.0 + 1 == p.0)) || (p.0 == q.0 && (p.1 + 1 == q.1 || q.1 + 1 == p.1))
  }

  /** Every tile sits under its own position. */
  predicate WellKeyed(grid: Grid)
  {
    forall p :: p in grid ==> grid[p].position == p
  }

  /** adjacent_tiles gives at most four tiles, all of them in the grid and
      next to the tile. */
  lemma BoundedNeighboursInGrid(grid: Grid, p: Position)
    requires WellKeyed(grid)
    ensures |BoundedNeighbours(grid, p)| <= 4
    ensures forall t :: t in BoundedNeighbours(grid, p) ==>
              t.position in grid && grid[t.position] == t && Adjacent(p, t.position)
  {
  }

  /** Every tile of the grid next to p, in the order up, down, left, right:
      the grid itself bounds the search. */
  function Neighbours(grid: Grid, p: Position): seq<Tile>
  {
    var (y, x) := p;
    (if y > 0 then Probe(grid, (y - 1, x)) else [])
    + Probe(grid, (y + 1, x))
    + (if x > 0 then Probe(grid, (y, x - 1)) else [])
    + Probe(grid, (y, x + 1))
  }

  /** The corrected lookup gives exactly the grid's tiles next to p. */
  lemma NeighboursExact(grid: Grid, p: Position, t: Tile)
    requires WellKeyed(grid)
    ensures t in Neighbours(grid, p) <==> t.position in grid && grid[t.position] == t && Adjacent(p, t.position)
  {
    if t.position in grid && grid[t.position] == t && Adjacent(p, t.position) {
      var q := t.position;
      if q == (p.0 + 1, p.1) {
        assert Probe(grid, q) == [t];
      } else if q == (p.0, p.1 + 1) {
        assert Probe(grid, q) == [t];
      } else if p.0 > 0 && q == (p.0 - 1, p.1) {
        assert Probe(grid, q) == [t];
      } else {
        assert Probe(grid, q) == [t];
      }
    }
  }

  /** On a sketch of at most five rows of at most five tiles, as the samples
      are, the bound changes nothing: there is no row 5 or column 5 to
      miss, so the two lookups agree at every position. */
  lemma BoundedAgreesInSample(lines: seq<string>, grid: Grid, p: Position)
    requires IsGridOf(lines, grid)
    requires |lines| <= 5 && forall i :: 0 <= i < |lines| ==> |lines[i]| <= 5
    ensures BoundedNeighbours(grid, p) == Neighbours(grid, p)
  {
    var (y, x) := p;
    if y >= 4 {
      assert !InSketch(lines, (y + 1, x));
    }
    if x >= 4 {
      assert !InSketch(lines, (y, x + 1));
    }
  }

  /** On a sketch of six rows the tile at (4, 0) does not see the tile at
      (5, 0) below it. */
  lemma BoundMissesLowerRow(grid: Grid)
    requires IsGridOf(["|", "|", "|", "|", "|", "|"], grid)
    ensures (5, 0) in grid && (4, 0) in grid
    ensures grid[(5, 0)] !in BoundedNeighbours(grid, (4, 0))
    ensures grid[(5, 0)] in Neighbours(grid, (4, 0))
  {
    var lines := ["|", "|", "|", "|", "|", "|"];
    assert InSketch(lines, (5, 0)) && InSketch(lines, (4, 0)) && InSketch(lines, (3, 0));
    assert grid[(5, 0)].position == (5, 0);
    assert !InSketch(lines, (4, 1));
    assert BoundedNeighbours(grid, (4, 0)) == [grid[(3, 0)]];
  }
}
