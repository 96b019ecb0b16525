/** Day 3, part 2: a gear is a '*' with exactly two numbers around it, and
    its ratio is their product; the answer is the sum of the ratios. The
    pattern `(\d+)|(\*)` finds the same maximal digit runs as part 1 and the
    '*' cells. */
module Day03Part2 {
  import opened Common
  import opened Day03Part1

  /** A '*' cell as (row, column). */
  type Gear = (nat, nat)

  /** is_egnine_number_adjacent: the gear's row lies from one above the
      number's row (clamped at 0) to one below, and its column from one left
      of the number (clamped at 0) to the number's exclusive end. This is
      the same box of cells that part 1's generate_adjacent_keys lists. */
  function IsEngineNumberAdjacent(gear: Gear, n: EngineNumber): (r: bool)
    ensures r <==> Near((gear.1, gear.0), n.row, n.colStart, n.colEnd)
  {
    var (gearRow, gearCol) := gear;
    var rowMin := if n.row > 0 then n.row - 1 else n.row;
    var colMin := if n.colStart > 0 then n.colStart - 1 else n.colStart;
    if gearRow >= rowMin && gearRow <= n.row + 1 then gearCol >= colMin && gearCol <= n.colEnd
    else false
  }

  /** The '*' cells among the first col columns of a line, left to right. */
  function StarsIn(line: string, row: nat, col: nat): seq<Gear>
    requires col <= |line|
  {
    if col == 0 then []
    else StarsIn(line, row, col - 1) + if line[col - 1] == '*' then [(row, col - 1)] else []
  }

  /** The '*' cells of the schematic, row by row. */
  function GearsOf(lines: seq<string>): seq<Gear>
  {
    if lines == [] then []
    else GearsOf(lines[..|lines| - 1]) + StarsIn(lines[|lines| - 1], |lines| - 1, |lines[|lines| - 1]|)
  }

  lemma {:induction false} StarsInExact(line: string, row: nat, col: nat)
    requires col <= |line|
    ensures forall g :: g in StarsIn(line, row, col) <==> g.0 == row && g.1 < col && line[g.1] == '*'
  {
    if col > 0 {
      StarsInExact(line, row, col - 1);
    }
  }

  /** Exactly the '*' cells are gear candidates. */
  lemma {:induction false} GearsOfExact(lines: seq<string>)
    ensures forall g :: g in GearsOf(lines) <==> g.0 < |lines| && g.1 < |lines[g.0]| && lines[g.0][g.1] == '*'
  {
    if lines != [] {
      var init := lines[..|lines| - 1];
      GearsOfExact(init);
      StarsInExact(lines[|lines| - 1], |lines| - 1, |lines[|lines| - 1]|);
      assert forall r :: 0 <= r < |init| ==> init[r] == lines[r];
    }
  }

  /** The positions in the list of the numbers next to the gear, in order. */
  function AdjacentIndices(gear: Gear, numbers: seq<EngineNumber>): seq<nat>
  {
    if numbers == [] then []
    else AdjacentIndices(gear, numbers[..|numbers| - 1])
         + if IsEngineNumberAdjacent(gear, numbers[|numbers| - 1]) then [|numbers| - 1] else []
  }

  /** The filter keeps exactly the adjacent numbers, once each, in order. */
  lemma {:induction false} AdjacentIndicesExact(gear: Gear, numbers: seq<EngineNumber>)
    ensures forall k: nat :: k in AdjacentIndices(gear, numbers) <==> k < |numbers| && IsEngineNumberAdjacent(gear, numbers[k])
    ensures forall a :: 0 <= a < |AdjacentIndices(gear, numbers)| ==>
              AdjacentIndices(gear, numbers)[a] < |numbers| &&
              IsEngineNumberAdjacent(gear, numbers[AdjacentIndices(gear, numbers)[a]])
    ensures forall a, b :: 0 <= a < b < |AdjacentIndices(gear, numbers)| ==>
              AdjacentIndices(gear, numbers)[a] < AdjacentIndices(gear, numbers)[b]
  {
    if numbers != [] {
      var init := numbers[..|numbers| - 1];
      AdjacentIndicesExact(gear, init);
      assert forall k :: 0 <= k < |init| ==> init[k] == numbers[k];
    }
  }

  /** The filter_map of the values of the adjacent numbers. */
  function AdjacentValues(gear: Gear, numbers: seq<EngineNumber>): seq<nat>
  {
    var idx := AdjacentIndices(gear, numbers);
    seq(|idx|, k requires 0 <= k < |idx| => if idx[k] < |numbers| then numbers[idx[k]].value else 0)
  }

  /** A gear's ratio: the product of its two numbers when it has exactly
      two, and nothing otherwise. */
  function GearRatio(gear: Gear, numbers: seq<EngineNumber>): Option<nat>
  {
    var adjacent := AdjacentValues(gear, numbers);
    if |adjacent| == 2 then Some(adjacent[0] * adjacent[1]) else None
  }

  /** Numbers i < j are next to the gear and no other number is. */
  predicate ExactlyTwo(gear: Gear, numbers: seq<EngineNumber>, i: int, j: int)
  {
    && 0 <= i < j < |numbers|
    && IsEngineNumberAdjacent(gear, numbers[i])
    && IsEngineNumberAdjacent(gear, numbers[j])
    && forall k :: 0 <= k < |numbers| && IsEngineNumberAdjacent(gear, numbers[k]) ==> k == i || k == j
  }

  /** A gear has a ratio exactly when exactly two numbers are next to it,
      and the ratio is their product. */
  lemma GearRatioExactlyTwo(gear: Gear, numbers: seq<EngineNumber>)
    ensures GearRatio(gear, numbers).Some? <==> exists i, j :: ExactlyTwo(gear, numbers, i, j)
    ensures forall i, j :: ExactlyTwo(gear, numbers, i, j) ==>
              GearRatio(gear, numbers) == Some(numbers[i].value * numbers[j].value)
  {
    var idx := AdjacentIndices(gear, numbers);
    if |idx| == 2 {
      AdjacentIndicesExact(gear, numbers);
      assert ExactlyTwo(gear, numbers, idx[0], idx[1]);
    }
    forall i, j | ExactlyTwo(gear, numbers, i, j)
      ensures GearRatio(gear, numbers) == Some(numbers[i].value * numbers[j].value)
    {
      PairRatio(gear, numbers, i, j);
    }
  }

  /** With exactly numbers i and j next to it, the filter keeps i and j. */
  lemma PairRatio(gear: Gear, numbers: seq<EngineNumber>, i: int, j: int)
    requires ExactlyTwo(gear, numbers, i, j)
    ensures AdjacentIndices(gear, numbers) == [i, j]
    ensures GearRatio(gear, numbers) == Some(numbers[i].value * numbers[j].value)
  {
    var idx := AdjacentIndices(gear, numbers);
    AdjacentIndicesExact(gear, numbers);
    assert i in idx && j in idx;
    assert forall a :: 0 <= a < |idx| ==> idx[a] == i || idx[a] == j;
    IncreasingOverTwo(idx, i, j);
  }

  /** An increasing list drawn from two values i < j holds each at most
      once. */
  lemma {:induction false} IncreasingOverTwo(idx: seq<nat>, i: int, j: int)
    requires i < j
    requires forall a, b :: 0 <= a < b < |idx| ==> idx[a] < idx[b]
    requires forall a :: 0 <= a < |idx| ==> idx[a] == i || idx[a] == j
    ensures |idx| <= 2
    ensures |idx| == 2 ==> idx == [i, j]
  {
    if |idx| >= 1 {
      var rest := idx[1..];
      assert forall a :: 0 <= a < |rest| ==> rest[a] == idx[a + 1];
      IncreasingOverTwo(rest, i, j);
      assert |idx| >= 2 ==> idx[0] < idx[1];
    }
  }

  /** The sum of the ratios of the gears. */
  function GearSum(gears: seq<Gear>, numbers: seq<EngineNumber>): nat
  {
    if gears == [] then 0
    else
      GearSum(gears[..|gears| - 1], numbers)
      + match GearRatio(gears[|gears| - 1], numbers) case Some(v) => v case None => 0
  }

  /** The answer of part2 for a schematic. */
  function Answer2(lines: seq<string>): nat
  {
    GearSum(GearsOf(lines), NumbersOf(lines))
  }

  /** part2: collect the '*' cells and the numbers line by line, then sum
      the ratios. */
  method Part2(lines: seq<string>) returns (result: nat)
    ensures result == Answer2(lines)
  {
    var gears: seq<Gear> := [];
    var numbers: seq<EngineNumber> := [];
    for row := 0 to |lines|
      invariant numbers == NumbersOf(lines[..row])
      invariant gears == GearsOf(lines[..row])
    {
      assert lines[..row + 1][..row] == lines[..row];
      numbers := numbers + Runs(lines[row], row, 0);
      ghost var before := gears;
      for col := 0 to |lines[row]|
        invariant gears == before + StarsIn(lines[row], row, col)
      {
        if lines[row][col] == '*' {
          gears := gears + [(row, col)];
        }
      }
    }
    assert lines[..|lines|] == lines;
    result := GearSum(gears, numbers);
  }

  /** The sum splits over the gears. */
  lemma {:induction false} GearSumConcat(a: seq<Gear>, b: seq<Gear>, numbers: seq<EngineNumber>)
    ensures GearSum(a + b, numbers) == GearSum(a, numbers) + GearSum(b, numbers)
  {
    if b == [] {
      assert a + b == a;
    } else {
      var b' := b[..|b| - 1];
      assert (a + b)[..|a + b| - 1] == a + b';
      assert (a + b)[|a + b| - 1] == b[|b| - 1];
      GearSumConcat(a, b', numbers);
    }
  }

  /** A '*' is a part 1 symbol, so both numbers of a gear are part
      numbers. */
  lemma GearNumbersAreParts(lines: seq<string>, gear: Gear, i: nat, j: nat)
    requires gear in GearsOf(lines)
    requires ExactlyTwo(gear, NumbersOf(lines), i, j)
    ensures Touches(NumbersOf(lines)[i], SymbolsOf(lines))
    ensures Touches(NumbersOf(lines)[j], SymbolsOf(lines))
  {
    GearsOfExact(lines);
    var key: Key := (gear.1, gear.0);
    assert IsSymbol(lines[gear.0][gear.1]);
    assert key in SymbolsOf(lines);
  }
}
