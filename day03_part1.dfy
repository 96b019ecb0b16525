/** Day 3, part 1: an engine schematic is a list of text lines. Its numbers
    are the maximal runs of digits, each with its row and its columns
    [start, end); its symbols are the characters that are neither digits nor
    '.'. A number is a part number when a symbol lies in the box one cell
    around it, and the answer is the sum of the part numbers. The regular
    expression `(\d+)|([^\d\.])` is modelled by what it extracts: the
    maximal digit runs (`Runs`) and the symbol positions. */
module Day03Part1 {
  import opened Common

  /** A digit run of the schematic: its value, its row, and its columns
      from colStart (included) to colEnd (excluded). */
  datatype EngineNumber = EngineNumber(value: nat, row: nat, colStart: nat, colEnd: nat)

  /** A cell key, (column, row), the order format_key writes them in. */
  type Key = (nat, nat)

  /** format_key: "col,row"; the text splits at its comma into the two
      numbers as written. */
  function FormatKey(col: nat, row: nat): (k: string)
    ensures SplitOn(k, ',') == [ShowNat(col), ShowNat(row)]
  {
    SplitOnPlain(ShowNat(row), ',');
    SplitOnAfterPiece(ShowNat(col), ',', ShowNat(row));
    ShowNat(col) + [','] + ShowNat(row)
  }

  /** The two pieces of a key read back as its column and row, so distinct
      cells never share a key and the model keys its cells by the pair
      itself. */
  lemma FormatKeyInjective(col: nat, row: nat)
    ensures var pieces := SplitOn(FormatKey(col, row), ',');
            ParseNat(pieces[0]) == Some(col) && ParseNat(pieces[1]) == Some(row)
    ensures forall col', row' :: FormatKey(col', row') == FormatKey(col, row) ==> col' == col && row' == row
  {
    ParseShowNat(col);
    ParseShowNat(row);
    forall col': nat, row': nat | FormatKey(col', row') == FormatKey(col, row)
      ensures col' == col && row' == row
    {
      assert [ShowNat(col'), ShowNat(row')] == [ShowNat(col), ShowNat(row)];
      ParseShowNat(col');
      ParseShowNat(row');
    }
  }

  /** What the second group of the pattern matches. */
  predicate IsSymbol(c: char)
  {
    !IsDigit(c) && c != '.'
  }

  /** Columns [s, e) hold a run of digits that cannot be extended either
      way. */
  predicate IsRun(line: string, s: nat, e: nat)
  {
    && s < e <= |line|
    && (forall k :: s <= k < e ==> IsDigit(line[k]))
    && (s == 0 || !IsDigit(line[s - 1]))
    && (e == |line| || !IsDigit(line[e]))
  }

  /** Column i is not in the middle of a run of digits. */
  predicate Boundary(line: string, i: nat)
  {
    i == 0 || i >= |line| || !IsDigit(line[i - 1]) || !IsDigit(line[i])
  }

  /** The numbers the pattern finds in a line from column i on, left to
      right: a greedy digit match wherever a digit starts. */
  function Runs(line: string, row: nat, i: nat): seq<EngineNumber>
    requires i <= |line|
    decreases |line| - i
  {
    if i == |line| then []
    else if IsDigit(line[i]) then
      var e := RunEnd(line, i);
      [EngineNumber(DecimalValue(line[i..e]), row, i, e)] + Runs(line, row, e)
    else Runs(line, row, i + 1)
  }

  /** The number a run stands for. */
  predicate ReadsAs(line: string, n: EngineNumber)
  {
    IsRun(line, n.colStart, n.colEnd) && n.value == DecimalValue(line[n.colStart..n.colEnd])
  }

  /** Started at a boundary, the scan finds exactly the maximal runs of
      digits to its right, each with its decimal value. */
  lemma {:induction false} RunsExact(line: string, row: nat, i: nat)
    requires i <= |line| && Boundary(line, i)
    ensures forall n :: n in Runs(line, row, i) <==> n.row == row && i <= n.colStart && ReadsAs(line, n)
    decreases |line| - i
  {
    if i < |line| {
      if IsDigit(line[i]) {
        var e := RunEnd(line, i);
        RunsExact(line, row, e);
        var first := EngineNumber(DecimalValue(line[i..e]), row, i, e);
        assert Runs(line, row, i) == [first] + Runs(line, row, e);
        assert ReadsAs(line, first);
        forall n: EngineNumber | n.row == row && i <= n.colStart && ReadsAs(line, n)
          ensures n in Runs(line, row, i)
        {
          RunEndIsEnd(line, n.colStart, n.colEnd);
          if n.colStart > i {
            assert !IsDigit(line[n.colStart - 1]);
            assert n in Runs(line, row, e);
          }
        }
      } else {
        RunsExact(line, row, i + 1);
      }
    }
  }

  /** The runs come left to right and do not overlap. */
  lemma {:induction false} RunsOrdered(line: string, row: nat, i: nat)
    requires i <= |line|
    ensures forall n :: n in Runs(line, row, i) ==> i <= n.colStart < n.colEnd <= |line|
    ensures forall j, k :: 0 <= j < k < |Runs(line, row, i)| ==> Runs(line, row, i)[j].colEnd <= Runs(line, row, i)[k].colStart
    decreases |line| - i
  {
    if i < |line| {
      if IsDigit(line[i]) {
        var e := RunEnd(line, i);
        RunsOrdered(line, row, e);
        var rs := Runs(line, row, i);
        assert rs == [rs[0]] + Runs(line, row, e);
        assert forall k :: 0 < k < |rs| ==> rs[k] in Runs(line, row, e);
      } else {
        RunsOrdered(line, row, i + 1);
      }
    }
  }

  /** The numbers of the schematic, row by row. */
  function NumbersOf(lines: seq<string>): seq<EngineNumber>
  {
    if lines == [] then []
    else NumbersOf(lines[..|lines| - 1]) + Runs(lines[|lines| - 1], |lines| - 1, 0)
  }

  /** A number is found exactly when it is a maximal digit run of its row
      read in decimal. */
  lemma {:induction false} NumbersOfExact(lines: seq<string>)
    ensures forall n :: n in NumbersOf(lines) <==> n.row < |lines| && ReadsAs(lines[n.row], n)
  {
    if lines != [] {
      var init := lines[..|lines| - 1];
      NumbersOfExact(init);
      RunsExact(lines[|lines| - 1], |lines| - 1, 0);
      assert forall r :: 0 <= r < |init| ==> init[r] == lines[r];
    }
  }

  /** The symbol cells of the schematic. */
  function SymbolsOf(lines: seq<string>): set<Key>
  {
    set row, col | 0 <= row < |lines| && 0 <= col < |lines[row]| && IsSymbol(lines[row][col]) :: (col, row)
  }

  /** The cells generate_adjacent_keys lists: the columns from one left of
      the run (none left of column 0) through colEnd, in the row above (when
      there is one), the run's row and the row below. */
  predicate Near(k: Key, row: nat, colStart: nat, colEnd: nat)
  {
    && (if colStart > 0 then colStart - 1 else 0) <= k.0 <= colEnd
    && ((row > 0 && k.1 == row - 1) || k.1 == row || k.1 == row + 1)
  }

  /** generate_adjacent_keys: for each column, above (when row > 0), same
      row, below. */
  method GenerateAdjacentKeys(row: nat, colStart: nat, colEnd: nat) returns (keys: seq<Key>)
    ensures forall k :: k in keys <==> Near(k, row, colStart, colEnd)
    ensures var lo := if colStart > 0 then colStart - 1 else 0;
            |keys| == (if colEnd + 1 < lo then 0 else colEnd + 1 - lo) * (if row > 0 then 3 else 2)
  {
    keys := [];
    var lo := if colStart > 0 then colStart - 1 else 0;
    var col := lo;
    while col < colEnd + 1
      invariant lo <= col && (col <= colEnd + 1 || col == lo)
      invariant forall k: Key :: k in keys <==> Near(k, row, colStart, colEnd) && k.0 < col
      invariant |keys| == (col - lo) * (if row > 0 then 3 else 2)
    {
      if row > 0 {
        keys := keys + [(col, row - 1)];
      }
      keys := keys + [(col, row)];
      keys := keys + [(col, row + 1)];
      col := col + 1;
    }
  }

  /** A symbol lies in the box around the number. */
  predicate Touches(n: EngineNumber, symbols: set<Key>)
  {
    exists k :: k in symbols && Near(k, n.row, n.colStart, n.colEnd)
  }

  /** The sum of the numbers that touch a symbol. */
  function PartSum(numbers: seq<EngineNumber>, symbols: set<Key>): nat
  {
    if numbers == [] then 0
    else
      var n := numbers[|numbers| - 1];
      PartSum(numbers[..|numbers| - 1], symbols) + if Touches(n, symbols) then n.value else 0
  }

  /** The values of the numbers, in order. */
  function Values(numbers: seq<EngineNumber>): seq<int>
  {
    if numbers == [] then [] else Values(numbers[..|numbers| - 1]) + [numbers[|numbers| - 1].value]
  }

  /** A number adds its value exactly when it touches a symbol: the sum is
      the whole sum when every number does, 0 when none does, and never
      more than the sum of all the numbers. */
  lemma {:induction false} PartSumCounts(numbers: seq<EngineNumber>, symbols: set<Key>)
    ensures forall n :: PartSum([n], symbols) == if Touches(n, symbols) then n.value else 0
    ensures (forall i :: 0 <= i < |numbers| ==> Touches(numbers[i], symbols)) ==> PartSum(numbers, symbols) == Sum(Values(numbers))
    ensures (forall i :: 0 <= i < |numbers| ==> !Touches(numbers[i], symbols)) ==> PartSum(numbers, symbols) == 0
    ensures PartSum(numbers, symbols) <= Sum(Values(numbers))
  {
    forall n ensures PartSum([n], symbols) == if Touches(n, symbols) then n.value else 0 {
      assert [n][..0] == [];
    }
    if numbers != [] {
      var init := numbers[..|numbers| - 1];
      var last := numbers[|numbers| - 1];
      PartSumCounts(init, symbols);
      assert forall i :: 0 <= i < |init| ==> init[i] == numbers[i];
      SumConcat(Values(init), [last.value]);
    }
  }

  /** The sum splits over the rows: numbers of a schematic split anywhere
      add up separately. */
  lemma {:induction false} PartSumConcat(a: seq<EngineNumber>, b: seq<EngineNumber>, symbols: set<Key>)
    ensures PartSum(a + b, symbols) == PartSum(a, symbols) + PartSum(b, symbols)
  {
    if b == [] {
      assert a + b == a;
    } else {
      var b' := b[..|b| - 1];
      assert (a + b)[..|a + b| - 1] == a + b';
      assert (a + b)[|a + b| - 1] == b[|b| - 1];
      PartSumConcat(a, b', symbols);
    }
  }

  /** A schematic without symbols has no part numbers. */
  lemma NoSymbolsNoParts(lines: seq<string>)
    requires forall row, col :: 0 <= row < |lines| && 0 <= col < |lines[row]| ==> !IsSymbol(lines[row][col])
    ensures Answer(lines) == 0
  {
    assert SymbolsOf(lines) == {};
    PartSumCounts(NumbersOf(lines), {});
  }

  /** The answer of part1 for a schematic. */
  function Answer(lines: seq<string>): nat
  {
    PartSum(NumbersOf(lines), SymbolsOf(lines))
  }

  /** The symbols of the first rows, and of the first columns of the next
      row. */
  function SymbolsUpTo(lines: seq<string>, row: nat, col: nat): set<Key>
    requires row < |lines|
  {
    SymbolsOf(lines[..row]) + set c | 0 <= c < col && c < |lines[row]| && IsSymbol(lines[row][c]) :: (c, row)
  }

  /** part1: collect the numbers and the symbol cells line by line, then
      keep each number that has a symbol among its adjacent keys (stopping
      at the first one) and add them up. */
  method Part1(lines: seq<string>) returns (total: nat)
    ensures total == Answer(lines)
  {
    var symbols: set<Key> := {};
    var numbers: seq<EngineNumber> := [];
    for row := 0 to |lines|
      invariant numbers == NumbersOf(lines[..row])
      invariant symbols == SymbolsOf(lines[..row])
    {
      assert lines[..row + 1][..row] == lines[..row];
      numbers := numbers + Runs(lines[row], row, 0);
      for col := 0 to |lines[row]|
        invariant symbols == SymbolsUpTo(lines, row, col)
      {
        if IsSymbol(lines[row][col]) {
          symbols := symbols + {(col, row)};
        }
      }
      assert SymbolsUpTo(lines, row, |lines[row]|) == SymbolsOf(lines[..row + 1]);
    }
    assert lines[..|lines|] == lines;
    total := 0;
    for i := 0 to |numbers|
      invariant total == PartSum(numbers[..i], symbols)
    {
      var n := numbers[i];
      var keys := GenerateAdjacentKeys(n.row, n.colStart, n.colEnd);
      var isAdjacentSymbol := false;
      for j := 0 to |keys|
        invariant !isAdjacentSymbol ==> forall k :: 0 <= k < j ==> keys[k] !in symbols
        invariant isAdjacentSymbol ==> Touches(n, symbols)
      {
        if keys[j] in symbols {
          isAdjacentSymbol := true;
          break;
        }
      }
      assert isAdjacentSymbol <==> Touches(n, symbols);
      assert numbers[..i + 1][..i] == numbers[..i];
      if isAdjacentSymbol {
        total := total + n.value;
      }
    }
    assert numbers[..|numbers|] == numbers;
  }
}
