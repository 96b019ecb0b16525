/** Day 9, part 1: each line is a history of readings; the program builds
    the table of repeated differences down to a row of zeros (or a row too
    short to difference) and predicts the next reading as the sum of the
    last entries of all rows. */
module Day09Part1 {
  import opened Common

  /** `str::parse::<i64>` on a token: an optional sign and a non-empty run
      of digits. */
  function ParseInt(s: string): (r: Option<int>)
    ensures r.Some? <==> (s != [] && (s[0] == '-' || s[0] == '+') && ParseNat(s[1..]).Some?) || ParseNat(s).Some?
  {
    if s != [] && s[0] == '-' then
      match ParseNat(s[1..])
      case Some(n) =>
        var v: int := 0 - n as int;
        Some(v)
      case None => None
    else if s != [] && s[0] == '+' then
      match ParseNat(s[1..])
      case Some(n) => Some(n)
      case None => None
    else match ParseNat(s)
      case Some(n) => Some(n)
      case None => None
  }

  function ShowInt(i: int): string
  {
    if i < 0 then "-" + ShowNat(-i) else ShowNat(i)
  }

  /** Parsing a printed reading gives it back. */
  lemma ParseShowInt(i: int)
    ensures ParseInt(ShowInt(i)) == Some(i)
  {
    if i < 0 {
      ParseShowNat(-i);
      assert ShowInt(i)[1..] == ShowNat(-i);
    } else {
      ParseShowNat(i);
      assert ShowInt(i)[0] != '-' && ShowInt(i)[0] != '+';
    }
  }

  /** parse_line, on the whitespace-separated tokens of the line: every
      token must be a number. */
  function ParseLine(tokens: seq<string>): (r: Option<seq<int>>)
    ensures r.Some? <==> forall k :: 0 <= k < |tokens| ==> ParseInt(tokens[k]).Some?
    ensures r.Some? ==> |r.value| == |tokens| &&
                        forall k :: 0 <= k < |tokens| ==> ParseInt(tokens[k]) == Some(r.value[k])
  {
    if tokens == [] then Some([])
    else
      var rest := ParseLine(tokens[1..]);
      if ParseInt(tokens[0]).Some? && rest.Some? then Some([ParseInt(tokens[0]).value] + rest.value)
      else None
  }

  /** The test of parse_line: "0 3 6 9 12 15". */
  lemma ParseLineExample()
    ensures ParseLine(["0", "3", "6", "9", "12", "15"]) == Some([0, 3, 6, 9, 12, 15])
  {
    assert DecimalValue("12") == 12 by {
      assert "12"[..1] == "1";
    }
    assert DecimalValue("15") == 15 by {
      assert "15"[..1] == "1";
    }
    var tokens := ["0", "3", "6", "9", "12", "15"];
    var values := [0, 3, 6, 9, 12, 15];
    assert forall k :: 0 <= k < 6 ==> ParseInt(tokens[k]) == Some(values[k]);
    var r := ParseLine(tokens);
    assert r.Some? && |r.value| == 6;
    assert forall k :: 0 <= k < 6 ==> r.value[k] == values[k];
    assert r.value == values;
  }

  predicate AllZero(values: seq<int>)
  {
    forall k :: 0 <= k < |values| ==> values[k] == 0
  }

  /** The differences of neighbouring readings. */
  function Differences(values: seq<int>): seq<int>
  {
    if values == [] then []
    else seq(|values| - 1, k requires 0 <= k < |values| - 1 => values[k + 1] - values[k])
  }

  /** The running sums from a first reading: the inverse of Differences. */
  function Integrate(first: int, d: seq<int>): (v: seq<int>)
    ensures |v| == |d| + 1 && v[0] == first
    decreases |d|
  {
    if d == [] then [first] else [first] + Integrate(first + d[0], d[1..])
  }

  /** A history is its first reading followed by the running sums of its
      differences, and integrating differences gives them back. */
  lemma {:induction false} IntegrateDifferences(values: seq<int>)
    requires |values| >= 1
    ensures Integrate(values[0], Differences(values)) == values
    decreases |values|
  {
    if |values| >= 2 {
      var tail := values[1..];
      var d := Differences(tail);
      IntegrateDifferences(tail);
      DifferencesCons(values);
      IntegrateCons(values[0], values[1] - values[0], d);
      assert values[0] + (values[1] - values[0]) == tail[0];
      assert Integrate(values[0], Differences(values)) == [values[0]] + tail;
      assert [values[0]] + tail == values;
    } else {
      assert Differences(values) == [];
    }
  }

  lemma IntegrateCons(first: int, a: int, rest: seq<int>)
    ensures Integrate(first, [a] + rest) == [first] + Integrate(first + a, rest)
  {
    assert ([a] + rest)[1..] == rest;
  }

  /** The differences of a history of two or more readings: the first
      difference, then the differences of the rest. */
  lemma DifferencesCons(values: seq<int>)
    requires |values| >= 2
    ensures Differences(values) == [values[1] - values[0]] + Differences(values[1..])
  {
    var d := Differences(values);
    var r := [values[1] - values[0]] + Differences(values[1..]);
    assert |d| == |r|;
    forall k | 0 <= k < |d|
      ensures d[k] == r[k]
    {
      if k > 0 {
        assert r[k] == Differences(values[1..])[k - 1];
      }
    }
  }

  lemma {:induction false} DifferencesIntegrate(first: int, d: seq<int>)
    ensures Differences(Integrate(first, d)) == d
    decreases |d|
  {
    if d != [] {
      var rest := Integrate(first + d[0], d[1..]);
      DifferencesIntegrate(first + d[0], d[1..]);
      var v := Integrate(first, d);
      assert v == [first] + rest;
      assert v[1..] == rest && v[1] - v[0] == d[0];
      DifferencesCons(v);
      assert [d[0]] + d[1..] == d;
    }
  }

  /** derive_difference_vector: None when there are fewer than two
      readings or all are zero, else the differences. */
  method DeriveDifferenceVector(values: seq<int>) returns (r: Option<seq<int>>)
    ensures r.None? <==> |values| < 2 || AllZero(values)
    ensures r.Some? ==> r.value == Differences(values)
  {
    if |values| < 2 || forall k :: 0 <= k < |values| ==> values[k] == 0 {
      return None;
    }
    var differences: seq<int> := [];
    for i := 0 to |values| - 1
      invariant |differences| == i
      invariant forall k :: 0 <= k < i ==> differences[k] == values[k + 1] - values[k]
    {
      differences := differences + [values[i + 1] - values[i]];
    }
    DifferencesAre(values, differences);
    return Some(differences);
  }

  /** The table of derive_difference_vectors: the readings, then the
      differences of each row until a row is too short or all zero. */
  function DifferenceRows(values: seq<int>): seq<seq<int>>
    decreases |values|
  {
    if |values| < 2 || AllZero(values) then [values]
    else [values] + DifferenceRows(Differences(values))
  }

  /** The table starts with the readings; each row is the differences of
      the one above, which was long enough and not all zero; the last row
      is all zero or too short; and there are at most as many rows as
      readings (one for no readings). */
  lemma {:induction false} DifferenceRowsShape(values: seq<int>)
    ensures var rows := DifferenceRows(values);
      && |rows| >= 1 && rows[0] == values
      && (forall i :: 0 <= i < |rows| - 1 ==>
            |rows[i]| >= 2 && !AllZero(rows[i]) && rows[i + 1] == Differences(rows[i]))
      && (|rows[|rows| - 1]| < 2 || AllZero(rows[|rows| - 1]))
      && |rows| <= (if |values| == 0 then 1 else |values|)
      && forall i :: 0 <= i < |rows| ==> |rows[i]| + i == |values| || (|values| == 0 && rows[i] == [])
    decreases |values|
  {
    var rows := DifferenceRows(values);
    if |values| < 2 || AllZero(values) {
      assert rows == [values];
    } else {
      var d := Differences(values);
      var tail := DifferenceRows(d);
      DifferenceRowsShape(d);
      assert rows == [values] + tail;
      assert |d| == |values| - 1;
      assert forall i :: 1 <= i < |rows| ==> rows[i] == tail[i - 1];
    }
  }

  /** derive_difference_vectors: rows are pushed until
      derive_difference_vector gives None. Every row is one shorter than the
      one before, so the loop ends. */
  method DeriveDifferenceVectors(values: seq<int>) returns (output: seq<seq<int>>)
    ensures output == DifferenceRows(values)
  {
    output := [values];
    RowsHead(values);
    while true
      invariant |output| >= 1
      invariant DifferenceRows(values) == output + DifferenceRows(output[|output| - 1])[1..]
      decreases |output[|output| - 1]|
    {
      var last := output[|output| - 1];
      var differenceVector := DeriveDifferenceVector(last);
      match differenceVector {
        case Some(d) =>
          RowsMore(last);
          RowsHead(d);
          assert DifferenceRows(last)[1..] == DifferenceRows(d);
          AppendAssoc(output, [d], DifferenceRows(d)[1..]);
          output := output + [d];
        case None =>
          RowsStop(last);
          assert DifferenceRows(last)[1..] == [];
          assert output + [] == output;
          return;
      }
    }
  }

  /** Every table starts with its readings. */
  lemma RowsHead(values: seq<int>)
    ensures |DifferenceRows(values)| >= 1
    ensures DifferenceRows(values) == [values] + DifferenceRows(values)[1..]
  {
  }

  lemma AppendAssoc<T>(a: seq<T>, b: seq<T>, c: seq<T>)
    ensures (a + b) + c == a + (b + c)
  {
  }

  /** The sum of the last entries of the rows. */
  function SumOfLasts(rows: seq<seq<int>>): int
    requires forall i :: 0 <= i < |rows| ==> rows[i] != []
  {
    if rows == [] then 0 else rows[0][|rows[0]| - 1] + SumOfLasts(rows[1..])
  }

  /** predict_next_value: the sum of the rows' last entries (reduced from
      the bottom row up); no rows, or an empty row, is the panic, here
      None. */
  function PredictNextValue(rows: seq<seq<int>>): (r: Option<int>)
    ensures r.None? <==> rows == [] || exists i :: 0 <= i < |rows| && rows[i] == []
  {
    if rows == [] || exists i :: 0 <= i < |rows| && rows[i] == [] then None
    else Some(SumOfLasts(rows))
  }

  /** The prediction for a history. */
  function Next(values: seq<int>): Option<int>
  {
    PredictNextValue(DifferenceRows(values))
  }

  /** A history of readings always has a prediction; an empty one panics.
      The prediction is the last reading plus the prediction for the
      differences, so appending it extends the row of differences by that
      row's own prediction: the table stays consistent. */
  lemma {:induction false} NextExtends(values: seq<int>)
    ensures Next(values).Some? <==> |values| >= 1
    ensures |values| >= 1 && (|values| < 2 || AllZero(values)) ==> Next(values) == Some(values[|values| - 1])
    ensures |values| >= 2 && !AllZero(values) ==>
              Next(Differences(values)).Some? &&
              Next(values) == Some(values[|values| - 1] + Next(Differences(values)).value) &&
              Differences(values + [Next(values).value]) == Differences(values) + [Next(Differences(values)).value]
    decreases |values|
  {
    if |values| >= 2 && !AllZero(values) {
      var d := Differences(values);
      NextExtends(d);
      RowsMore(values);
      PredictCons(values, DifferenceRows(d));
      DifferencesSnoc(values, Next(values).value);
    } else {
      RowsStop(values);
      if |values| >= 1 {
        PredictOne(values);
      } else {
        assert [values][0] == [];
      }
    }
  }

  lemma RowsStop(values: seq<int>)
    requires |values| < 2 || AllZero(values)
    ensures DifferenceRows(values) == [values]
  {
  }

  lemma RowsMore(values: seq<int>)
    requires |values| >= 2 && !AllZero(values)
    ensures DifferenceRows(values) == [values] + DifferenceRows(Differences(values))
  {
  }

  lemma PredictOne(row: seq<int>)
    requires row != []
    ensures PredictNextValue([row]) == Some(row[|row| - 1])
  {
    assert [row][0] == row;
    assert [row][1..] == [];
    assert SumOfLasts([row]) == row[|row| - 1] + SumOfLasts([]);
  }

  /** A row on top of a table adds its last entry to the prediction. */
  lemma PredictCons(row: seq<int>, rows: seq<seq<int>>)
    requires row != [] && PredictNextValue(rows).Some?
    ensures PredictNextValue([row] + rows) == Some(row[|row| - 1] + PredictNextValue(rows).value)
  {
    assert ([row] + rows)[1..] == rows;
    assert forall i :: 0 <= i < |[row] + rows| ==> ([row] + rows)[i] != [] by {
      forall i | 0 <= i < |[row] + rows|
        ensures ([row] + rows)[i] != []
      {
        if i > 0 {
          assert ([row] + rows)[i] == rows[i - 1];
        }
      }
    }
  }

  /** Appending a reading appends its step from the last one. */
  lemma DifferencesSnoc(values: seq<int>, p: int)
    requires |values| >= 1
    ensures Differences(values + [p]) == Differences(values) + [p - values[|values| - 1]]
  {
    var d := Differences(values + [p]);
    var r := Differences(values) + [p - values[|values| - 1]];
    assert |d| == |r|;
    forall k | 0 <= k < |d|
      ensures d[k] == r[k]
    {
      assert (values + [p])[k] == values[k];
    }
  }

  /** When the differences are constant, the prediction continues them. */
  lemma ConstantStepContinues(values: seq<int>, c: int)
    requires |values| >= 2
    requires forall k :: 0 <= k < |Differences(values)| ==> Differences(values)[k] == c
    ensures Next(values) == Some(values[|values| - 1] + c)
  {
    NextExtends(values);
    var d := Differences(values);
    if AllZero(values) {
      assert c == d[0];
    } else {
      ConstantNext(d, c);
    }
  }

  /** A non-empty row of equal entries predicts that entry. */
  lemma ConstantNext(d: seq<int>, c: int)
    requires |d| >= 1 && forall k :: 0 <= k < |d| ==> d[k] == c
    ensures Next(d) == Some(c)
  {
    NextExtends(d);
    if |d| >= 2 && !AllZero(d) {
      var dd := Differences(d);
      assert AllZero(dd);
      NextExtends(dd);
    }
  }

  /** One row of a table worked out: its differences are d. */
  lemma RowsStep(values: seq<int>, d: seq<int>, nonzero: nat)
    requires |values| == |d| + 1 && |d| >= 1
    requires forall k :: 0 <= k < |d| ==> d[k] == values[k + 1] - values[k]
    requires nonzero < |values| && values[nonzero] != 0
    ensures Differences(values) == d
    ensures DifferenceRows(values) == [values] + DifferenceRows(d)
    ensures Next(d).Some? && Next(values) == Some(values[|values| - 1] + Next(d).value)
  {
    DifferencesAre(values, d);
    assert !AllZero(values);
    RowsMore(values);
    NextExtends(values);
  }

  lemma DifferencesAre(values: seq<int>, d: seq<int>)
    requires |values| == |d| + 1
    requires forall k :: 0 <= k < |d| ==> d[k] == values[k + 1] - values[k]
    ensures Differences(values) == d
  {
    var e := Differences(values);
    assert |e| == |d|;
    assert forall k :: 0 <= k < |d| ==> e[k] == d[k];
  }

  /** A row of zeros ends the table and predicts 0. */
  lemma RowsZero(values: seq<int>)
    requires |values| >= 1 && AllZero(values)
    ensures DifferenceRows(values) == [values]
    ensures Next(values) == Some(0)
  {
    NextExtends(values);
  }

  /** The test of derive_difference_vector, and the first table of the
      test of derive_difference_vectors. */
  lemma FirstTable(r0: seq<int>, r1: seq<int>, r2: seq<int>)
    requires r0 == [0, 3, 6, 9, 12, 15] && r1 == [3, 3, 3, 3, 3] && r2 == [0, 0, 0, 0]
    ensures Differences(r0) == r1
    ensures DifferenceRows(r0) == [r0, r1, r2]
    ensures Next(r0) == Some(18)
  {
    assert DifferenceRows(r2) == [r2] && Next(r2) == Some(0) by { RowsZero(r2); }
    assert DifferenceRows(r1) == [r1, r2] && Next(r1) == Some(3) by { RowsStep(r1, r2, 0); }
    assert Differences(r0) == r1 && DifferenceRows(r0) == [r0, r1, r2] && Next(r0) == Some(18) by { RowsStep(r0, r1, 1); }
  }

  /** The second table of the test of derive_difference_vectors. */
  lemma SecondTable(r0: seq<int>, r1: seq<int>, r2: seq<int>, r3: seq<int>)
    requires r0 == [1, 3, 6, 10, 15, 21] && r1 == [2, 3, 4, 5, 6] && r2 == [1, 1, 1, 1] && r3 == [0, 0, 0]
    ensures DifferenceRows(r0) == [r0, r1, r2, r3]
  {
    SecondTableTail(r1, r2, r3);
    RowsStep(r0, r1, 0);
    assert [r0] + [r1, r2, r3] == [r0, r1, r2, r3];
  }

  lemma SecondTableTail(r1: seq<int>, r2: seq<int>, r3: seq<int>)
    requires r1 == [2, 3, 4, 5, 6] && r2 == [1, 1, 1, 1] && r3 == [0, 0, 0]
    ensures DifferenceRows(r1) == [r1, r2, r3]
  {
    RowsZero(r3);
    RowsStep(r2, r3, 0);
    assert [r2] + [r3] == [r2, r3];
    RowsStep(r1, r2, 0);
    assert [r1] + [r2, r3] == [r1, r2, r3];
  }

  /** The second sample line predicts 28. */
  lemma SecondNext(r0: seq<int>, r1: seq<int>, r2: seq<int>, r3: seq<int>)
    requires r0 == [1, 3, 6, 10, 15, 21] && r1 == [2, 3, 4, 5, 6] && r2 == [1, 1, 1, 1] && r3 == [0, 0, 0]
    ensures Next(r0) == Some(28)
  {
    assert Next(r3) == Some(0) by { RowsZero(r3); }
    assert Next(r2) == Some(1) by { RowsStep(r2, r3, 0); }
    assert Next(r1) == Some(7) by { RowsStep(r1, r2, 0); }
    RowsStep(r0, r1, 0);
  }

  /** The third sample line predicts 68. */
  lemma ThirdTable(r0: seq<int>, r1: seq<int>, r2: seq<int>, r3: seq<int>, r4: seq<int>)
    requires r0 == [10, 13, 16, 21, 30, 45] && r1 == [3, 3, 5, 9, 15] && r2 == [0, 2, 4, 6]
    requires r3 == [2, 2, 2] && r4 == [0, 0]
    ensures Next(r0) == Some(68)
  {
    assert Next(r4) == Some(0) by { RowsZero(r4); }
    assert Next(r3) == Some(2) by { RowsStep(r3, r4, 0); }
    assert Next(r2) == Some(8) by { RowsStep(r2, r3, 1); }
    assert Next(r1) == Some(23) by { RowsStep(r1, r2, 0); }
    assert Next(r0) == Some(68) by { RowsStep(r0, r1, 0); }
  }

  /** The test of predict_next_value. */
  lemma PredictExample(r0: seq<int>, r1: seq<int>, r2: seq<int>, r3: seq<int>)
    requires r0 == [1, 3, 6, 10, 15, 21] && r1 == [2, 3, 4, 5, 6] && r2 == [1, 1, 1, 1] && r3 == [0, 0, 0]
    ensures PredictNextValue([r0, r1, r2, r3]) == Some(28)
  {
    PredictOne(r3);
    PredictCons(r2, [r3]);
    assert [r2] + [r3] == [r2, r3];
    PredictCons(r1, [r2, r3]);
    assert [r1] + [r2, r3] == [r1, r2, r3];
    PredictCons(r0, [r1, r2, r3]);
    assert [r0] + [r1, r2, r3] == [r0, r1, r2, r3];
  }

  /** part1: the sum of the predictions of the lines; a line whose
      prediction panics makes the whole answer panic, here None. */
  function Part1(histories: seq<seq<int>>): (r: Option<int>)
    ensures r.Some? <==> forall i :: 0 <= i < |histories| ==> |histories[i]| >= 1
  {
    if histories == [] then Some(0)
    else
      NextExtendsAll(histories[0]);
      var rest := Part1(histories[1..]);
      match Next(histories[0])
      case None => None
      case Some(p) => if rest.Some? then Some(p + rest.value) else None
  }

  lemma NextExtendsAll(values: seq<int>)
    ensures Next(values).Some? <==> |values| >= 1
  {
    NextExtends(values);
  }

  /** Three histories add up their predictions. */
  lemma Part1Three(histories: seq<seq<int>>, x: int, y: int, z: int)
    requires |histories| == 3
    requires Next(histories[0]) == Some(x) && Next(histories[1]) == Some(y) && Next(histories[2]) == Some(z)
    ensures Part1(histories) == Some(x + y + z)
  {
    var t := histories[1..];
    var u := t[1..];
    assert t[0] == histories[1] && u[0] == histories[2] && u[1..] == [];
    assert Part1(u) == Some(z);
    assert Part1(t) == Some(y + z);
  }

  /** The sample: 18 + 28 + 68. */
  lemma Part1Sample(a: seq<int>, b: seq<int>, c: seq<int>)
    requires a == [0, 3, 6, 9, 12, 15] && b == [1, 3, 6, 10, 15, 21] && c == [10, 13, 16, 21, 30, 45]
    ensures Part1([a, b, c]) == Some(114)
  {
    FirstTable(a, [3, 3, 3, 3, 3], [0, 0, 0, 0]);
    SecondNext(b, [2, 3, 4, 5, 6], [1, 1, 1, 1], [0, 0, 0]);
    ThirdTable(c, [3, 3, 5, 9, 15], [0, 2, 4, 6], [2, 2, 2], [0, 0]);
    Part1Three([a, b, c], 18, 28, 68);
  }
}
