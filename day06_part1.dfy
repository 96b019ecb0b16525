/** Day 6, part 1: in a race of `time` milliseconds, holding the button for
    h milliseconds gives speed h for the remaining time - h, and a hold wins
    when the distance beats the record. The answer is the product, over the
    races, of the number of winning holds. The numbers of the two input
    lines are the `(\d+)` matches after the ':'. */
module Day06Part1 {
  import opened Common
  import Day03Part1

  datatype Race = Race(time: nat, recordDistance: nat)

  /** distance_travelled: speed times time. Nothing is covered without speed
      or without time, and at speed 1 or more the boat covers at least one
      millimetre per millisecond. */
  function DistanceTravelled(speed: nat, time: nat): (d: nat)
    ensures d == 0 <==> speed == 0 || time == 0
    ensures speed >= 1 ==> d >= time
  {
    NatProductZero(speed, time);
    speed * time
  }

  /** The tests of distance_travelled. */
  lemma DistanceTravelledExamples()
    ensures DistanceTravelled(1, 6) == 6
    ensures DistanceTravelled(5, 2) == 10
  {
  }

  /** Holding for `hold` milliseconds beats the record. */
  predicate Wins(race: Race, hold: nat)
  {
    1 <= hold < race.time && DistanceTravelled(hold, race.time - hold) > race.recordDistance
  }

  /** The winning holds below n, in increasing order; hold 0 never wins, so
      there are at most n - 1. */
  function Holds(race: Race, n: nat): (hs: seq<nat>)
    ensures |hs| <= if n <= 1 then 0 else n - 1
  {
    if n <= 1 then [] else Holds(race, n - 1) + if Wins(race, n - 1) then [n - 1] else []
  }

  /** The holds winning_holds returns. */
  function WinningHoldsOf(race: Race): seq<nat>
  {
    Holds(race, race.time)
  }

  /** Exactly the winning holds below n, each once, in increasing order. */
  lemma {:induction false} HoldsExact(race: Race, n: nat)
    ensures forall h: nat :: h in Holds(race, n) <==> h < n && Wins(race, h)
    ensures forall a, b :: 0 <= a < b < |Holds(race, n)| ==> Holds(race, n)[a] < Holds(race, n)[b]
  {
    if n > 1 {
      var prev := Holds(race, n - 1);
      HoldsExact(race, n - 1);
      assert forall a :: 0 <= a < |prev| ==> prev[a] in prev;
    }
  }

  /** Race::winning_holds: try every hold from 1 to time - 1 and keep the
      winning ones. */
  method WinningHolds(race: Race) returns (holds: seq<nat>)
    ensures holds == WinningHoldsOf(race)
    ensures forall h: nat :: h in holds <==> Wins(race, h)
    ensures forall a, b :: 0 <= a < b < |holds| ==> holds[a] < holds[b]
  {
    holds := [];
    var hold := 1;
    while hold < race.time
      invariant 1 <= hold && (hold <= race.time || hold == 1)
      invariant holds == Holds(race, hold)
    {
      var distance := DistanceTravelled(hold, race.time - hold);
      if distance > race.recordDistance {
        holds := holds + [hold];
      }
      hold := hold + 1;
    }
    assert Holds(race, 1) == [] == Holds(race, 0);
    HoldsExact(race, race.time);
  }

  /** Swapping the hold and the time left gives the same distance, so the
      winning holds are symmetric about time / 2. */
  lemma WinsSymmetric(race: Race, hold: nat)
    requires hold <= race.time
    ensures Wins(race, hold) <==> Wins(race, race.time - hold)
  {
    assert DistanceTravelled(hold, race.time - hold) == DistanceTravelled(race.time - hold, race.time - (race.time - hold));
  }

  /** a(t - a) - b(t - b) = (a - b)(t - a - b). */
  lemma DistanceGap(a: int, b: int, t: int)
    ensures a * (t - a) - b * (t - b) == (a - b) * (t - a - b)
  {
  }

  lemma MulNonNegative(a: int, b: int)
    requires a >= 0 && b >= 0
    ensures a * b >= 0
  {
  }

  /** From lo to time - lo every hold goes at least as far as lo. */
  lemma BeatsFirst(t: nat, d: nat, lo: nat, h: nat)
    requires lo <= h <= t - lo
    requires lo * (t - lo) > d
    ensures h * (t - h) > d
  {
    DistanceGap(h, lo, t);
    MulNonNegative(h - lo, t - h - lo);
  }

  /** Below lo every hold goes at most as far as lo - 1. */
  lemma ShortOfFirst(t: nat, d: nat, lo: nat, h: nat)
    requires 1 <= lo && 2 * lo <= t && h < lo
    requires (lo - 1) * (t - lo + 1) <= d
    ensures h * (t - h) <= d
  {
    DistanceGap(lo - 1, h, t);
    MulNonNegative(lo - 1 - h, t - (lo - 1) - h);
  }

  /** When lo is the first winning hold and lies in the first half, the
      winning holds are exactly lo .. time - lo. */
  lemma WinsInterval(race: Race, lo: nat)
    requires 1 <= lo && 2 * lo <= race.time
    requires DistanceTravelled(lo, race.time - lo) > race.recordDistance
    requires DistanceTravelled(lo - 1, race.time - lo + 1) <= race.recordDistance
    ensures forall h: nat :: Wins(race, h) <==> lo <= h <= race.time - lo
  {
    var t, d := race.time, race.recordDistance;
    forall h: nat | 1 <= h < t
      ensures Wins(race, h) <==> lo <= h <= t - lo
    {
      if lo <= h <= t - lo {
        BeatsFirst(t, d, lo, h);
      } else if h < lo {
        ShortOfFirst(t, d, lo, h);
      } else {
        ShortOfFirst(t, d, lo, t - h);
        WinsSymmetric(race, h);
      }
    }
  }

  /** The numbers from a to b. */
  function Interval(a: nat, b: int): (s: seq<nat>)
    ensures |s| == if b < a then 0 else b - a + 1
  {
    if b < a then [] else Interval(a, b - 1) + [b]
  }

  /** When the winning holds are lo .. hi, those below n are lo .. n - 1
      (at most hi). */
  lemma {:induction false} HoldsAreInterval(race: Race, lo: nat, hi: nat, n: nat)
    requires 1 <= lo && hi < race.time
    requires forall h: nat :: Wins(race, h) <==> lo <= h <= hi
    ensures Holds(race, n) == Interval(lo, if n - 1 < hi then n - 1 else hi)
  {
    if n > 1 {
      HoldsAreInterval(race, lo, hi, n - 1);
      var top := if n - 1 < hi then n - 1 else hi;
      if lo <= n - 1 <= hi {
        assert Interval(lo, top) == Interval(lo, top - 1) + [top];
      }
    }
  }

  /** The number of winning holds when lo is the first one: time - 2 lo + 1. */
  lemma WinningCount(race: Race, lo: nat)
    requires 1 <= lo && 2 * lo <= race.time
    requires DistanceTravelled(lo, race.time - lo) > race.recordDistance
    requires DistanceTravelled(lo - 1, race.time - lo + 1) <= race.recordDistance
    ensures WinningHoldsOf(race) == Interval(lo, race.time - lo)
    ensures |WinningHoldsOf(race)| == race.time - 2 * lo + 1
  {
    WinsInterval(race, lo);
    HoldsAreInterval(race, lo, race.time - lo, race.time);
  }

  /** The test of winning_holds: time 7, record 9. */
  lemma WinningHoldsExample()
    ensures WinningHoldsOf(Race(7, 9)) == [2, 3, 4, 5]
  {
    WinningCount(Race(7, 9), 2);
    assert Interval(2, 5) == [2, 3, 4, 5];
  }

  /** The fold of part1: the product of the counts, 1 for no races. */
  function Product(races: seq<Race>): nat
  {
    if races == [] then 1 else |WinningHoldsOf(races[0])| * Product(races[1..])
  }

  /** The product is 0 exactly when some race cannot be won. */
  lemma {:induction false} ProductZero(races: seq<Race>)
    ensures Product(races) == 0 <==> exists i :: 0 <= i < |races| && WinningHoldsOf(races[i]) == []
  {
    if races != [] {
      ProductZero(races[1..]);
      assert forall i :: 0 < i < |races| ==> races[1..][i - 1] == races[i];
      assert forall i :: 0 <= i < |races| - 1 ==> races[1..][i] == races[i + 1];
      NatProductZero(|WinningHoldsOf(races[0])|, Product(races[1..]));
    }
  }

  lemma NatProductZero(a: nat, b: nat)
    ensures a * b == 0 <==> a == 0 || b == 0
  {
    if a > 0 && b > 0 {
      assert a * b >= b;
    }
  }

  /** Zip of times and distances: pairs by position, extras dropped. */
  function Zip(times: seq<nat>, distances: seq<nat>): (races: seq<Race>)
    ensures |races| == if |times| < |distances| then |times| else |distances|
    ensures forall i :: 0 <= i < |races| ==> races[i] == Race(times[i], distances[i])
  {
    if times == [] || distances == [] then []
    else [Race(times[0], distances[0])] + Zip(times[1..], distances[1..])
  }

  /** The `(\d+)` matches of a text from column i, left to right. */
  function DigitGroups(s: string, i: nat): (groups: seq<string>)
    requires i <= |s|
    ensures forall k :: 0 <= k < |groups| ==> groups[k] != [] && AllDigits(groups[k])
    decreases |s| - i
  {
    if i == |s| then []
    else if IsDigit(s[i]) then
      var e := RunEnd(s, i);
      [s[i..e]] + DigitGroups(s, e)
    else DigitGroups(s, i + 1)
  }

  /** The matches are the maximal digit runs that the day 3 scan finds. */
  lemma {:induction false} DigitGroupsAreRuns(s: string, i: nat)
    requires i <= |s|
    ensures |DigitGroups(s, i)| == |Day03Part1.Runs(s, 0, i)|
    ensures forall k :: 0 <= k < |DigitGroups(s, i)| ==>
              var n := Day03Part1.Runs(s, 0, i)[k];
              n.colStart < n.colEnd <= |s| && DigitGroups(s, i)[k] == s[n.colStart..n.colEnd] &&
              n.value == DecimalValue(DigitGroups(s, i)[k])
    decreases |s| - i
  {
    if i < |s| {
      if IsDigit(s[i]) {
        DigitGroupsAreRuns(s, RunEnd(s, i));
      } else {
        DigitGroupsAreRuns(s, i + 1);
      }
    }
  }

  /** Every match parses, so the `expect` on it never fires. */
  function Numbers(s: string): (ns: seq<nat>)
    ensures |ns| == |DigitGroups(s, 0)|
    ensures forall k :: 0 <= k < |ns| ==> ParseNat(DigitGroups(s, 0)[k]) == Some(ns[k])
  {
    var groups := DigitGroups(s, 0);
    seq(|groups|, k requires 0 <= k < |groups| => DecimalValue(groups[k]))
  }

  /** The text after the first ':' of a line (split(":").nth(1)), if any. */
  function Field(line: string): (r: Option<string>)
    ensures r.Some? <==> ':' in line
  {
    var parts := SplitOn(line, ':');
    SplitOnNoSeparator(line);
    if |parts| >= 2 then Some(parts[1]) else None
  }

  /** A text splits into one piece exactly when it has no separator. */
  lemma {:induction false} SplitOnNoSeparator(s: string)
    ensures |SplitOn(s, ':')| == 1 <==> ':' !in s
  {
    if s != [] {
      SplitOnNoSeparator(s[1..]);
      assert s == [s[0]] + s[1..];
    }
  }

  /** parse_input: the numbers after the ':' of the first two lines, paired
      up; a missing line or ':' is the panic, here None. */
  function ParseInput(lines: seq<string>): (r: Option<seq<Race>>)
    ensures r.Some? <==> |lines| >= 2 && ':' in lines[0] && ':' in lines[1]
    ensures r.Some? ==>
              var times := Numbers(Field(lines[0]).value);
              var distances := Numbers(Field(lines[1]).value);
              |r.value| == (if |times| < |distances| then |times| else |distances|) &&
              forall i :: 0 <= i < |r.value| ==> r.value[i] == Race(times[i], distances[i])
  {
    if |lines| < 2 then None
    else
      match Field(lines[0])
      case None => None
      case Some(timesText) =>
        match Field(lines[1])
        case None => None
        case Some(distancesText) => Some(Zip(Numbers(timesText), Numbers(distancesText)))
  }

  /** part1 on the parsed races: the answer exists exactly when both lines
      hold a colon, and it is 0 exactly when some race cannot be won. */
  function Part1(lines: seq<string>): (r: Option<nat>)
    ensures r.Some? <==> |lines| >= 2 && ':' in lines[0] && ':' in lines[1]
    ensures r.Some? ==> (r.value == 0 <==> exists i :: 0 <= i < |ParseInput(lines).value| && WinningHoldsOf(ParseInput(lines).value[i]) == [])
  {
    match ParseInput(lines)
    case None => None
    case Some(races) =>
      ProductZero(races);
      Some(Product(races))
  }

  /** The three sample races, won in 4, 8 and 9 ways. */
  lemma SampleCounts()
    ensures |WinningHoldsOf(Race(7, 9))| == 4
    ensures |WinningHoldsOf(Race(15, 40))| == 8
    ensures |WinningHoldsOf(Race(30, 200))| == 9
  {
    WinningCount(Race(7, 9), 2);
    WinningCount(Race(15, 40), 4);
    WinningCount(Race(30, 200), 11);
  }

  /** The test of part1: 4 * 8 * 9. */
  lemma SampleProduct(races: seq<Race>)
    requires races == [Race(7, 9), Race(15, 40), Race(30, 200)]
    ensures Product(races) == 288
  {
    SampleCounts();
    assert races[1..][1..] == [Race(30, 200)];
    assert Product(races[1..][1..]) == 9 * Product([]);
    assert races[1..] == [Race(15, 40), Race(30, 200)];
  }

  /** The text after ':' of a line with one ':'. */
  lemma FieldAfter(head: string, rest: string)
    requires ':' !in head && ':' !in rest
    ensures Field(head + [':'] + rest) == Some(rest)
  {
    SplitOnAfterPiece(head, ':', rest);
    SplitOnPlain(rest, ':');
  }

  /** A digit run from i to e is one match, and the scan goes on at e. */
  lemma GroupAt(s: string, i: nat, e: nat)
    requires i < e <= |s|
    requires forall k :: i <= k < e ==> IsDigit(s[k])
    requires e == |s| || !IsDigit(s[e])
    ensures DigitGroups(s, i) == [s[i..e]] + DigitGroups(s, e)
  {
    RunEndIsEnd(s, i, e);
  }

  /** Columns without digits hold no match. */
  lemma {:induction false} SkipTo(s: string, i: nat, j: nat)
    requires i <= j <= |s|
    requires forall k :: i <= k < j ==> !IsDigit(s[k])
    ensures DigitGroups(s, i) == DigitGroups(s, j)
    decreases j - i
  {
    if i < j {
      SkipTo(s, i + 1, j);
    }
  }

  /** The values of the sample's digit groups. */
  lemma SampleValues()
    ensures DecimalValue("7") == 7 && DecimalValue("15") == 15 && DecimalValue("30") == 30
    ensures DecimalValue("9") == 9 && DecimalValue("40") == 40 && DecimalValue("200") == 200
  {
    assert "7"[..0] == [] && "9"[..0] == [] && "1"[..0] == [] && "3"[..0] == [] && "4"[..0] == [] && "2"[..0] == [];
    assert "15"[..1] == "1" && "30"[..1] == "3" && "40"[..1] == "4" && "20"[..1] == "2";
    assert "200"[..2] == "20";
  }

  /** The numbers of a line whose digit groups are known. */
  lemma NumbersOf(s: string, groups: seq<string>, values: seq<nat>)
    requires DigitGroups(s, 0) == groups && |groups| == |values|
    requires forall k :: 0 <= k < |groups| ==> DecimalValue(groups[k]) == values[k]
    ensures Numbers(s) == values
  {
  }

  /** The numbers of the sample's times line. */
  lemma SampleTimes(s: string)
    requires s == "      7  15   30"
    ensures DigitGroups(s, 0) == ["7", "15", "30"]
    ensures Numbers(s) == [7, 15, 30]
  {
    GroupAt(s, 14, 16);
    assert s[14..16] == "30" && DigitGroups(s, 16) == [];
    SkipTo(s, 11, 14);
    GroupAt(s, 9, 11);
    assert s[9..11] == "15" && DigitGroups(s, 9) == ["15", "30"];
    SkipTo(s, 7, 9);
    GroupAt(s, 6, 7);
    assert s[6..7] == "7" && DigitGroups(s, 6) == ["7", "15", "30"];
    SkipTo(s, 0, 6);
    SampleValues();
    NumbersOf(s, ["7", "15", "30"], [7, 15, 30]);
  }

  /** The numbers of the sample's distances line. */
  lemma SampleDistances(s: string)
    requires s == "  9  40  200"
    ensures DigitGroups(s, 0) == ["9", "40", "200"]
    ensures Numbers(s) == [9, 40, 200]
  {
    GroupAt(s, 9, 12);
    assert s[9..12] == "200" && DigitGroups(s, 12) == [];
    SkipTo(s, 7, 9);
    GroupAt(s, 5, 7);
    assert s[5..7] == "40" && DigitGroups(s, 5) == ["40", "200"];
    SkipTo(s, 3, 5);
    GroupAt(s, 2, 3);
    assert s[2..3] == "9" && DigitGroups(s, 2) == ["9", "40", "200"];
    SkipTo(s, 0, 2);
    SampleValues();
    NumbersOf(s, ["9", "40", "200"], [9, 40, 200]);
  }

  /** Two lines of the form `head:numbers` parse to the zip of their
      numbers. */
  lemma ParseTwoFields(lines: seq<string>, h0: string, r0: string, h1: string, r1: string)
    requires ':' !in h0 && ':' !in r0 && ':' !in h1 && ':' !in r1
    requires lines == [h0 + [':'] + r0, h1 + [':'] + r1]
    ensures ParseInput(lines) == Some(Zip(Numbers(r0), Numbers(r1)))
  {
    FieldAfter(h0, r0);
    FieldAfter(h1, r1);
  }

  /** The test of parse_input on the sample. */
  lemma SampleParse(lines: seq<string>)
    requires lines == ["Time:      7  15   30", "Distance:  9  40  200"]
    ensures ParseInput(lines) == Some([Race(7, 9), Race(15, 40), Race(30, 200)])
  {
    var t, d := "      7  15   30", "  9  40  200";
    assert lines[0] == "Time" + [':'] + t;
    assert lines[1] == "Distance" + [':'] + d;
    assert ':' !in t && ':' !in d && ':' !in "Time" && ':' !in "Distance";
    ParseTwoFields(lines, "Time", t, "Distance", d);
    SampleFields(t, d);
  }

  /** The races of the sample's two number fields. */
  lemma SampleFields(t: string, d: string)
    requires t == "      7  15   30" && d == "  9  40  200"
    ensures Zip(Numbers(t), Numbers(d)) == [Race(7, 9), Race(15, 40), Race(30, 200)]
  {
    SampleTimes(t);
    SampleDistances(d);
    SampleZip(Numbers(t), Numbers(d));
  }

  /** The tests of parse_input and part1 on the sample. */
  lemma SampleInput(lines: seq<string>)
    requires lines == ["Time:      7  15   30", "Distance:  9  40  200"]
    ensures ParseInput(lines) == Some([Race(7, 9), Race(15, 40), Race(30, 200)])
    ensures Part1(lines) == Some(288)
  {
    SampleParse(lines);
    SampleProduct([Race(7, 9), Race(15, 40), Race(30, 200)]);
  }

  /** The sample's numbers paired into races. */
  lemma SampleZip(times: seq<nat>, distances: seq<nat>)
    requires times == [7, 15, 30] && distances == [9, 40, 200]
    ensures Zip(times, distances) == [Race(7, 9), Race(15, 40), Race(30, 200)]
  {
    var z := Zip(times, distances);
    assert |z| == 3;
    assert z[0] == Race(7, 9) && z[1] == Race(15, 40) && z[2] == Race(30, 200);
  }
}
