/** Day 6, part 2: the spaces in each input line are a misreading, so the
    digit groups of a line join into a single number and there is a single
    race; the answer is its number of winning holds. winning_holds and
    distance_travelled are the same as in part 1. */
module Day06Part2 {
  import opened Common
  import opened Day06Part1

  /** The fold `acc + &cap[1]`: the groups written one after another. */
  function Joined(groups: seq<string>): (s: string)
    requires forall k :: 0 <= k < |groups| ==> AllDigits(groups[k])
    ensures AllDigits(s)
  {
    if groups == [] then []
    else
      var init := Joined(groups[..|groups| - 1]);
      assert AllDigits(groups[|groups| - 1]);
      DecimalValueConcat(init, groups[|groups| - 1]);
      init + groups[|groups| - 1]
  }

  /** Joining shifts the digits read so far left by the next group's
      length; with no group the text is empty, so `parse` fails. */
  lemma JoinedValue(groups: seq<string>)
    requires forall k :: 0 <= k < |groups| ==> groups[k] != [] && AllDigits(groups[k])
    ensures groups == [] <==> Joined(groups) == []
    ensures groups != [] ==>
              var init := groups[..|groups| - 1];
              var last := groups[|groups| - 1];
              DecimalValue(Joined(groups)) == DecimalValue(Joined(init)) * Pow10(|last|) + DecimalValue(last)
  {
    if groups != [] {
      DecimalValueConcat(Joined(groups[..|groups| - 1]), groups[|groups| - 1]);
    }
  }

  /** The single number of a line's text: its digit groups joined. */
  function JoinedNumber(s: string): (r: Option<nat>)
    ensures r.Some? <==> DigitGroups(s, 0) != []
    ensures r.Some? ==> r.value == DecimalValue(Joined(DigitGroups(s, 0)))
  {
    JoinedValue(DigitGroups(s, 0));
    ParseNat(Joined(DigitGroups(s, 0)))
  }

  /** parse_input: the race of the first two lines; a missing line or ':',
      or a line without digits, is the panic, here None. */
  function ParseInput2(lines: seq<string>): (r: Option<Race>)
    ensures r.Some? <==> |lines| >= 2 && ':' in lines[0] && ':' in lines[1] &&
                         JoinedNumber(Field(lines[0]).value).Some? && JoinedNumber(Field(lines[1]).value).Some?
    ensures r.Some? ==> r.value == Race(JoinedNumber(Field(lines[0]).value).value, JoinedNumber(Field(lines[1]).value).value)
  {
    if |lines| < 2 then None
    else
      match (Field(lines[0]), Field(lines[1]))
      case (Some(timeText), Some(distanceText)) =>
        (match (JoinedNumber(timeText), JoinedNumber(distanceText))
         case (Some(time), Some(distance)) => Some(Race(time, distance))
         case _ => None)
      case _ => None
  }

  /** part2: the number of winning holds of the one race; it exists exactly
      when the race parses, and it is below the race time, since only holds
      from 1 to time - 1 are tried. */
  function Part2(lines: seq<string>): (r: Option<nat>)
    ensures r.Some? <==> ParseInput2(lines).Some?
    ensures r.Some? ==> r.value == 0 || r.value < ParseInput2(lines).value.time
  {
    match ParseInput2(lines)
    case None => None
    case Some(race) => Some(|WinningHoldsOf(race)|)
  }

  /** Three groups join into their concatenation. */
  lemma JoinedThree(groups: seq<string>, a: string, b: string, c: string)
    requires groups == [a, b, c]
    requires AllDigits(a) && AllDigits(b) && AllDigits(c)
    ensures Joined(groups) == a + b + c
  {
    assert groups[..2] == [a, b] && [a, b][..1] == [a] && [a][..0] == [];
    assert Joined([a]) == [] + a == a;
    assert Joined([a, b]) == a + b;
  }

  /** Two lines of the form `head:text` parse to the race of the joined
      numbers of their texts. */
  lemma ParseTwoJoined(lines: seq<string>, h0: string, r0: string, h1: string, r1: string)
    requires ':' !in h0 && ':' !in r0 && ':' !in h1 && ':' !in r1
    requires lines == [h0 + [':'] + r0, h1 + [':'] + r1]
    requires JoinedNumber(r0).Some? && JoinedNumber(r1).Some?
    ensures ParseInput2(lines) == Some(Race(JoinedNumber(r0).value, JoinedNumber(r1).value))
  {
    FieldAfter(h0, r0);
    FieldAfter(h1, r1);
  }

  /** "7 15 30" reads as 71530. */
  lemma SampleTime(s: string)
    requires s == "      7  15   30"
    ensures JoinedNumber(s) == Some(71530)
  {
    SampleTimes(s);
    SampleValues();
    JoinedThree(DigitGroups(s, 0), "7", "15", "30");
    DecimalValueConcat("7", "15");
    DecimalValueConcat("7" + "15", "30");
    assert Pow10(2) == 100;
  }

  /** "9 40 200" reads as 940200. */
  lemma SampleDistance(s: string)
    requires s == "  9  40  200"
    ensures JoinedNumber(s) == Some(940200)
  {
    SampleDistances(s);
    SampleValues();
    JoinedThree(DigitGroups(s, 0), "9", "40", "200");
    DecimalValueConcat("9", "40");
    DecimalValueConcat("9" + "40", "200");
    assert Pow10(2) == 100 && Pow10(3) == 1000;
  }

  /** The tests of parse_input and part2: race 71530 / 940200, won by the
      holds 14 .. 71516. */
  lemma SampleRace(lines: seq<string>)
    requires lines == ["Time:      7  15   30", "Distance:  9  40  200"]
    ensures ParseInput2(lines) == Some(Race(71530, 940200))
    ensures Part2(lines) == Some(71503)
  {
    var t, d := "      7  15   30", "  9  40  200";
    assert lines[0] == "Time" + [':'] + t;
    assert lines[1] == "Distance" + [':'] + d;
    assert ':' !in t && ':' !in d && ':' !in "Time" && ':' !in "Distance";
    SampleTime(t);
    SampleDistance(d);
    ParseTwoJoined(lines, "Time", t, "Distance", d);
    SampleHolds(Race(71530, 940200));
  }

  /** The sample race is won by the holds 14 .. 71516. */
  lemma SampleHolds(race: Race)
    requires race == Race(71530, 940200)
    ensures |WinningHoldsOf(race)| == 71503
  {
    assert DistanceTravelled(14, 71516) == 1001224;
    assert DistanceTravelled(13, 71517) == 929721;
    WinningCount(race, 14);
  }
}
