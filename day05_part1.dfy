/** Day 5, part 1: every seed number is pushed through the seven almanac
    maps one value at a time, and the answer is the lowest location. */
module Day05Part1 {
  import opened Common
  import Day05Part2

  /** One `dest source range` line of a map. */
  datatype MappingRange = MappingRange(destStart: nat, sourceStart: nat, range: nat)

  /** MappingRange::map_value. The test lets in `source_start + range`
      itself, one past the last value the rule describes. */
  function MapRangeValue(r: MappingRange, v: nat): (m: Option<nat>)
    ensures m.Some? <==> r.sourceStart <= v <= r.sourceStart + r.range
    ensures m.Some? ==> r.destStart <= m.value <= r.destStart + r.range
  {
    if v < r.sourceStart || v > r.sourceStart + r.range then None
    else Some(r.destStart + (v - r.sourceStart))
  }

  /** The same line read as the half-open rule of part 2. */
  function AsTransform(r: MappingRange): (t: Day05Part2.Transform)
    ensures Day05Part2.ValidTransform(t)
  {
    Day05Part2.Transform(Day05Part2.Range(r.sourceStart, r.sourceStart + r.range),
                         Day05Part2.Range(r.destStart, r.destStart + r.range))
  }

  /** Away from the end point `source_start + range`, the inclusive test and
      the half-open map of part 2 agree: a value inside is translated the
      same way, and a value outside is left alone. */
  lemma MapRangeValueHalfOpen(r: MappingRange, v: nat)
    requires v != r.sourceStart + r.range
    ensures MapRangeValue(r, v).Some? <==> Day05Part2.Contains(AsTransform(r).source, v)
    ensures Day05Part2.MapValue(AsTransform(r), v) ==
            if MapRangeValue(r, v).Some? then MapRangeValue(r, v).value else v
  {
  }

  /** At the end point they disagree: 50 98 2 sends 100 to 52, although the
      rule only covers 98 and 99 and part 2 leaves 100 alone. */
  lemma InclusiveEndMapsOnePast()
    ensures MapRangeValue(MappingRange(50, 98, 2), 100) == Some(52)
    ensures Day05Part2.MapValue(AsTransform(MappingRange(50, 98, 2)), 100) == 100
  {
  }

  /** The tests of MappingRange::map_value. */
  lemma MapRangeValueExamples()
    ensures MapRangeValue(MappingRange(50, 98, 2), 99) == Some(51)
    ensures MapRangeValue(MappingRange(50, 98, 2), 20) == None
  {
  }

  /** Reference for Mapping::map_value: the first rule that takes the value
      decides, and a value no rule takes is unchanged. */
  function MappingValue(ranges: seq<MappingRange>, v: nat): nat
  {
    if ranges == [] then v
    else match MapRangeValue(ranges[0], v)
      case Some(m) => m
      case None => MappingValue(ranges[1..], v)
  }

  lemma {:induction false} MappingValueFirstMatch(ranges: seq<MappingRange>, v: nat, j: nat)
    requires j < |ranges| && MapRangeValue(ranges[j], v).Some?
    requires forall i :: 0 <= i < j ==> MapRangeValue(ranges[i], v).None?
    ensures MappingValue(ranges, v) == MapRangeValue(ranges[j], v).value
  {
    if j > 0 {
      MappingValueFirstMatch(ranges[1..], v, j - 1);
    }
  }

  lemma {:induction false} MappingValueNoMatch(ranges: seq<MappingRange>, v: nat)
    requires forall i :: 0 <= i < |ranges| ==> MapRangeValue(ranges[i], v).None?
    ensures MappingValue(ranges, v) == v
  {
    if ranges != [] {
      MappingValueNoMatch(ranges[1..], v);
    }
  }

  /** Whatever the rules, a mapping answers either the value itself or the
      answer of one of its rules. */
  lemma {:induction false} MappingValueIsRuleAnswer(ranges: seq<MappingRange>, v: nat)
    ensures MappingValue(ranges, v) == v ||
            exists i :: 0 <= i < |ranges| && MapRangeValue(ranges[i], v) == Some(MappingValue(ranges, v))
  {
    if ranges != [] && MapRangeValue(ranges[0], v).None? {
      MappingValueIsRuleAnswer(ranges[1..], v);
      if MappingValue(ranges, v) != v {
        var i :| 0 <= i < |ranges| - 1 && MapRangeValue(ranges[1..][i], v) == Some(MappingValue(ranges[1..], v));
        assert MapRangeValue(ranges[i + 1], v) == Some(MappingValue(ranges, v));
      }
    }
  }

  /** Mapping::map_value: a loop over the rules that returns the first
      mapped value. */
  method MappingMapValue(ranges: seq<MappingRange>, v: nat) returns (r: nat)
    ensures r == MappingValue(ranges, v)
  {
    for k := 0 to |ranges|
      invariant MappingValue(ranges[k..], v) == MappingValue(ranges, v)
    {
      assert ranges[k..][1..] == ranges[k + 1..];
      match MapRangeValue(ranges[k], v)
      case Some(m) =>
        return m;
      case None =>
    }
    r := v;
  }

  /** The tests of Mapping::map_value: 99 is taken by the first rule, 20 by none. */
  lemma MappingValueExamples()
    ensures MappingValue([MappingRange(50, 98, 2), MappingRange(52, 50, 48)], 99) == 51
    ensures MappingValue([MappingRange(50, 98, 2), MappingRange(52, 50, 48)], 20) == 20
  {
  }

  /** A seed pushed through the maps, in order. */
  function Location(mappings: seq<seq<MappingRange>>, v: nat): nat
  {
    if mappings == [] then v else Location(mappings[1..], MappingValue(mappings[0], v))
  }

  /** The lowest location of the seeds, None without seeds (where `min()`
      gives None and the `expect` panics). */
  function Lowest(seeds: seq<nat>, mappings: seq<seq<MappingRange>>): (r: Option<nat>)
    ensures r.None? <==> seeds == []
    ensures r.Some? ==> (exists i :: 0 <= i < |seeds| && r.value == Location(mappings, seeds[i]))
                        && forall i :: 0 <= i < |seeds| ==> r.value <= Location(mappings, seeds[i])
  {
    if seeds == [] then None
    else
      var last := Location(mappings, seeds[|seeds| - 1]);
      match Lowest(seeds[..|seeds| - 1], mappings)
      case None => Some(last)
      case Some(m) => Some(if m <= last then m else last)
  }

  /** part1 once the almanac is parsed: each seed's value is reassigned map
      after map, and the smallest result is kept. */
  method Part1(seeds: seq<nat>, mappings: seq<seq<MappingRange>>) returns (r: Option<nat>)
    ensures r == Lowest(seeds, mappings)
  {
    r := None;
    for i := 0 to |seeds|
      invariant r == Lowest(seeds[..i], mappings)
    {
      var value := seeds[i];
      for k := 0 to |mappings|
        invariant Location(mappings[k..], value) == Location(mappings, seeds[i])
      {
        assert mappings[k..][1..] == mappings[k + 1..];
        value := MappingMapValue(mappings[k], value);
      }
      assert mappings[|mappings|..] == [];
      assert seeds[..i + 1][..i] == seeds[..i];
      r := match r
        case None => Some(value)
        case Some(m) => Some(if m <= value then m else value);
    }
    assert seeds[..|seeds|] == seeds;
  }

  // -------- Parsing --------

  /** parse_seeds: the first line, from the 8th character on, split on
      spaces, every piece a number. No line, a line shorter than 7
      characters, or a piece that is not a number panics in the source. */
  function ParseSeeds(lines: seq<string>): (r: Option<seq<nat>>)
    ensures r.Some? <==> lines != [] && |lines[0]| >= 7 && AllNumbers(SplitOn(lines[0][7..], ' '))
    ensures r.Some? ==> var pieces := SplitOn(lines[0][7..], ' ');
                        |r.value| == |pieces| >= 1 &&
                        forall k :: 0 <= k < |pieces| ==> ParseNat(pieces[k]) == Some(r.value[k])
  {
    if lines == [] || |lines[0]| < 7 then None
    else ParseNats(SplitOn(lines[0][7..], ' '))
  }

  /** Every piece is a decimal number. */
  predicate AllNumbers(pieces: seq<string>)
  {
    forall k :: 0 <= k < |pieces| ==> ParseNat(pieces[k]).Some?
  }

  /** A seeds line written out the way the almanac does reads back as the
      same numbers, in order. */
  lemma ParseSeedsRoundTrip(seeds: seq<nat>, rest: seq<string>)
    requires seeds != []
    ensures ParseSeeds(["seeds: " + Join(ShowNats(seeds), ' ')] + rest) == Some(seeds)
  {
    var line := "seeds: " + Join(ShowNats(seeds), ' ');
    assert line[7..] == Join(ShowNats(seeds), ' ');
    forall k, i | 0 <= k < |ShowNats(seeds)| && 0 <= i < |ShowNats(seeds)[k]|
      ensures ShowNats(seeds)[k][i] != ' '
    {
      assert IsDigit(ShowNat(seeds[k])[i]);
    }
    SplitOnJoin(ShowNats(seeds), ' ');
    ParseShowNats(seeds);
  }

  lemma SampleSeedsShown()
    ensures ShowNats([79, 14, 55, 13]) == ["79", "14", "55", "13"]
  {
    assert DigitChar(1) == '1' && DigitChar(3) == '3' && DigitChar(4) == '4';
    assert DigitChar(5) == '5' && DigitChar(7) == '7' && DigitChar(9) == '9';
    assert ShowNat(79) == "79" && ShowNat(14) == "14" && ShowNat(55) == "55" && ShowNat(13) == "13";
  }

  lemma SampleSeedsJoined()
    ensures Join(["79", "14", "55", "13"], ' ') == "79 14 55 13"
  {
    assert Join(["13"], ' ') == "13";
    assert Join(["55", "13"], ' ') == "55 13";
    assert Join(["14", "55", "13"], ' ') == "14 55 13";
  }

  /** The parse_seeds test. */
  lemma ParseSeedsExample()
    ensures ParseSeeds(["seeds: 79 14 55 13"]) == Some([79, 14, 55, 13])
  {
    var seeds: seq<nat> := [79, 14, 55, 13];
    var line := "seeds: 79 14 55 13";
    assert "seeds: " + Join(ShowNats(seeds), ' ') == line by {
      SampleSeedsShown();
      SampleSeedsJoined();
    }
    ParseSeedsRoundTrip(seeds, []);
    assert [line] + [] == [line];
  }

  /** One `dest source range` line of a map block (see Day05Part2.Line). */
  function ParseRangeLine(line: Day05Part2.Line): (r: Option<MappingRange>)
    ensures r.Some? <==> |line| >= 3 && line[0].Some? && line[1].Some? && line[2].Some?
  {
    if |line| >= 3 && line[0].Some? && line[1].Some? && line[2].Some? then
      Some(MappingRange(line[0].value, line[1].value, line[2].value))
    else None
  }

  function RangeLine(r: MappingRange): Day05Part2.Line
  {
    [Some(r.destStart), Some(r.sourceStart), Some(r.range)]
  }

  /** Writing a rule as a line and reading it back gives the rule. */
  lemma ParseRangeLineRoundTrip(r: MappingRange)
    ensures ParseRangeLine(RangeLine(r)) == Some(r)
  {
  }

  /** parse_mappings: rules from `pos` up to a blank line (consumed) or the
      end; a malformed line panics in the source and is None here. */
  method ParseMappings(lines: seq<Day05Part2.Line>, pos: nat) returns (r: Option<(seq<MappingRange>, nat)>)
    requires pos <= |lines|
    ensures r.None? <==> exists k :: pos <= k < Day05Part2.BlockEnd(lines, pos) && ParseRangeLine(lines[k]).None?
    ensures r.Some? ==>
      && |r.value.0| == Day05Part2.BlockEnd(lines, pos) - pos
      && (forall k :: 0 <= k < |r.value.0| ==> ParseRangeLine(lines[pos + k]) == Some(r.value.0[k]))
      && r.value.1 == if Day05Part2.BlockEnd(lines, pos) < |lines| then Day05Part2.BlockEnd(lines, pos) + 1 else |lines|
  {
    var ranges: seq<MappingRange> := [];
    var i := pos;
    while i < |lines|
      invariant pos <= i <= Day05Part2.BlockEnd(lines, pos)
      invariant |ranges| == i - pos
      invariant forall k :: 0 <= k < |ranges| ==> ParseRangeLine(lines[pos + k]) == Some(ranges[k])
    {
      var line := lines[i];
      i := i + 1;
      if line == [] {
        AllRangeLinesParse(lines, pos, i - 1, ranges);
        return Some((ranges, i));
      }
      match ParseRangeLine(line)
      case None =>
        assert pos <= i - 1 < Day05Part2.BlockEnd(lines, pos);
        return None;
      case Some(m) =>
        ranges := ranges + [m];
    }
    AllRangeLinesParse(lines, pos, i, ranges);
    r := Some((ranges, i));
  }

  lemma AllRangeLinesParse(lines: seq<Day05Part2.Line>, pos: nat, e: nat, ranges: seq<MappingRange>)
    requires pos <= e <= |lines| && |ranges| == e - pos
    requires forall k :: 0 <= k < |ranges| ==> ParseRangeLine(lines[pos + k]) == Some(ranges[k])
    ensures forall k :: pos <= k < e ==> ParseRangeLine(lines[k]).Some?
  {
    forall k | pos <= k < e ensures ParseRangeLine(lines[k]).Some? {
      assert ParseRangeLine(lines[pos + (k - pos)]) == Some(ranges[k - pos]);
    }
  }

  /** The parse_mappings test: "50 98 2" and "52 50 48". */
  lemma ParseMappingsExample()
    ensures ParseRangeLine([Some(50), Some(98), Some(2)]) == Some(MappingRange(50, 98, 2))
    ensures ParseRangeLine([Some(52), Some(50), Some(48)]) == Some(MappingRange(52, 50, 48))
  {
  }

  // -------- The sample almanac --------

  function SampleMappings(): seq<seq<MappingRange>>
  {
    [ [MappingRange(50, 98, 2), MappingRange(52, 50, 48)],
      [MappingRange(0, 15, 37), MappingRange(37, 52, 2), MappingRange(39, 0, 15)],
      [MappingRange(49, 53, 8), MappingRange(0, 11, 42), MappingRange(42, 0, 7), MappingRange(57, 7, 4)],
      [MappingRange(88, 18, 7), MappingRange(18, 25, 70)],
      [MappingRange(45, 77, 23), MappingRange(81, 45, 19), MappingRange(68, 64, 13)],
      [MappingRange(0, 69, 1), MappingRange(1, 0, 69)],
      [MappingRange(60, 56, 37), MappingRange(56, 93, 4)] ]
  }

  /** A seed's location, read off the values it takes after each map. */
  lemma {:induction false} LocationByStages(mappings: seq<seq<MappingRange>>, values: seq<nat>)
    requires |values| == |mappings| + 1
    requires forall k :: 0 <= k < |mappings| ==> MappingValue(mappings[k], values[k]) == values[k + 1]
    ensures Location(mappings, values[0]) == values[|mappings|]
  {
    if mappings != [] {
      LocationByStages(mappings[1..], values[1..]);
    }
  }

  lemma SampleLocation(values: seq<nat>)
    requires |values| == 8
    requires forall k :: 0 <= k < 7 ==> MappingValue(SampleMappings()[k], values[k]) == values[k + 1]
    ensures Location(SampleMappings(), values[0]) == values[7]
  {
    LocationByStages(SampleMappings(), values);
  }

  /** The four sample seeds, one map at a time. */
  lemma SampleSeedLocations()
    ensures Location(SampleMappings(), 79) == 82 && Location(SampleMappings(), 14) == 43
    ensures Location(SampleMappings(), 55) == 86 && Location(SampleMappings(), 13) == 35
  {
    SampleSeed79();
    SampleSeed14();
    SampleSeed55();
    SampleSeed13();
  }

  lemma SampleSeed79()
    ensures Location(SampleMappings(), 79) == 82
  {
    SampleLocation([79, 81, 81, 81, 74, 78, 78, 82]);
  }

  lemma SampleSeed14()
    ensures Location(SampleMappings(), 14) == 43
  {
    SampleLocation([14, 14, 53, 49, 42, 42, 43, 43]);
  }

  lemma SampleSeed55()
    ensures Location(SampleMappings(), 55) == 86
  {
    SampleLocation([55, 57, 57, 53, 46, 82, 82, 86]);
  }

  lemma SampleSeed13()
    ensures Location(SampleMappings(), 13) == 35
  {
    SampleLocation([13, 13, 52, 41, 34, 34, 35, 35]);
  }

  /** The seed whose location is lowest gives the answer. */
  lemma LowestAt(seeds: seq<nat>, mappings: seq<seq<MappingRange>>, j: nat)
    requires j < |seeds|
    requires forall i :: 0 <= i < |seeds| ==> Location(mappings, seeds[j]) <= Location(mappings, seeds[i])
    ensures Lowest(seeds, mappings) == Some(Location(mappings, seeds[j]))
  {
  }

  /** Four seeds, the last of which lands lowest. */
  lemma LowestOfFour(seeds: seq<nat>, mappings: seq<seq<MappingRange>>)
    requires |seeds| == 4
    requires Location(mappings, seeds[0]) == 82 && Location(mappings, seeds[1]) == 43
    requires Location(mappings, seeds[2]) == 86 && Location(mappings, seeds[3]) == 35
    ensures Lowest(seeds, mappings) == Some(35)
  {
    LowestAt(seeds, mappings, 3);
  }

  /** The part1 test: seeds 79, 14, 55 and 13 land on 82, 43, 86 and 35. */
  lemma SampleLowest()
    ensures Lowest([79, 14, 55, 13], SampleMappings()) == Some(35)
  {
    SampleSeedLocations();
    LowestOfFour([79, 14, 55, 13], SampleMappings());
  }
}
