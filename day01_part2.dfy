/** Day 1, part 2: a line's digits are also spelled out ("one" .. "nine"),
    and spellings may overlap ("eightwo" holds both 8 and 2). Every suffix
    of the line is tried against the anchored pattern
    `^(\d|one|two|three|four|five|six|seven|eight|nine)`, and the digits of
    the suffixes that match, in order, give the calibration value as in
    part 1. A line without any digit is a panic. */
module Day01Part2 {
  import opened Common
  import Day01Part1

  /** The spelled digits: Words[k] spells k + 1. */
  const Words: seq<string> := ["one", "two", "three", "four", "five", "six", "seven", "eight", "nine"]

  /** spelled_digit_to_int: "one" .. "nine" give 1 .. 9; any other text is
      the panic, here None. */
  function SpelledDigitToInt(digit: string): (r: Option<nat>)
    ensures r.Some? <==> digit in Words
    ensures r.Some? ==> 1 <= r.value <= 9 && Words[r.value - 1] == digit
  {
    if digit == "one" then Some(1)
    else if digit == "two" then Some(2)
    else if digit == "three" then Some(3)
    else if digit == "four" then Some(4)
    else if digit == "five" then Some(5)
    else if digit == "six" then Some(6)
    else if digit == "seven" then Some(7)
    else if digit == "eight" then Some(8)
    else if digit == "nine" then Some(9)
    else None
  }

  /** The spelled digit whose spelling starts with the letters a b, or 0:
      the first two letters already tell the nine words apart. */
  function PairDigit(a: char, b: char): (d: nat)
    ensures d <= 9
  {
    if a == 'o' && b == 'n' then 1
    else if a == 't' && b == 'w' then 2
    else if a == 't' && b == 'h' then 3
    else if a == 'f' && b == 'o' then 4
    else if a == 'f' && b == 'i' then 5
    else if a == 's' && b == 'i' then 6
    else if a == 's' && b == 'e' then 7
    else if a == 'e' && b == 'i' then 8
    else if a == 'n' && b == 'i' then 9
    else 0
  }

  /** What the pattern needs to know of each word: it is at least three
      letters long, starts with a letter, is what spelled_digit_to_int
      reads as k + 1, and its first two letters identify it. */
  lemma WordFacts(k: int)
    requires 0 <= k < |Words|
    ensures |Words[k]| >= 3 && !IsDigit(Words[k][0])
    ensures SpelledDigitToInt(Words[k]) == Some(k + 1)
    ensures PairDigit(Words[k][0], Words[k][1]) == k + 1
  {
    if k == 0 { assert Words[k] == "one"; }
    else if k == 1 { assert Words[k] == "two"; }
    else if k == 2 { assert Words[k] == "three"; }
    else if k == 3 { assert Words[k] == "four"; }
    else if k == 4 { assert Words[k] == "five"; }
    else if k == 5 { assert Words[k] == "six"; }
    else if k == 6 { assert Words[k] == "seven"; }
    else if k == 7 { assert Words[k] == "eight"; }
    else { assert Words[k] == "nine"; }
  }

  /** The spelled words from Words[k] on, tried in order: the first that
      starts s. */
  function WordMatch(s: string, k: nat): (m: Option<string>)
    requires k <= |Words|
    ensures m.Some? ==> exists j :: k <= j < |Words| && m.value == Words[j] && Words[j] <= s
    ensures m.Some? ==> |m.value| >= 3 && SpelledDigitToInt(m.value).Some?
    ensures m.None? ==> forall j :: k <= j < |Words| ==> !(Words[j] <= s)
    decreases |Words| - k
  {
    if k == |Words| then None
    else if Words[k] <= s then WordFacts(k); Some(Words[k])
    else WordMatch(s, k + 1)
  }

  /** The anchored pattern on a suffix: the text it matches, with the
      alternatives tried left to right (a digit first, then the words). */
  function PrefixMatch(s: string): (m: Option<string>)
    ensures m.Some? ==> m.value != [] && m.value <= s
    ensures m.Some? <==> (s != [] && IsDigit(s[0])) || exists k :: 0 <= k < |Words| && Words[k] <= s
  {
    if s != [] && IsDigit(s[0]) then Some(s[..1]) else WordMatch(s, 0)
  }

  /** The matched text read as a digit: a one-character match is parsed,
      a longer one goes through spelled_digit_to_int. Neither `unwrap` nor
      the spelled-digit panic can fail on a match. */
  function SuffixDigit(s: string): (r: Option<nat>)
    requires PrefixMatch(s).Some?
    ensures r.Some? && r.value <= 9
  {
    var m := PrefixMatch(s).value;
    if |m| == 1 then
      assert m == [s[0]] && m[..0] == [];
      assert DecimalValue(m) == DigitValue(s[0]);
      ParseNat(m)
    else SpelledDigitToInt(m)
  }

  /** s starts with the digit d, written or spelled. */
  predicate StartsWith(s: string, d: nat)
  {
    || (s != [] && IsDigit(s[0]) && DigitValue(s[0]) == d)
    || (1 <= d <= 9 && Words[d - 1] <= s)
  }

  /** Two words that both start s are the same word, and then s does not
      start with a written digit. */
  lemma WordsApart(s: string, i: int, j: int)
    requires 0 <= i < |Words| && 0 <= j < |Words|
    requires Words[i] <= s && Words[j] <= s
    ensures i == j
    ensures !IsDigit(s[0])
  {
    WordFacts(i);
    WordFacts(j);
    assert Words[i][0] == s[0] == Words[j][0];
    assert Words[i][1] == s[1] == Words[j][1];
  }

  /** A text starts with at most one digit. */
  lemma StartsWithUnique(s: string, d: nat, e: nat)
    requires StartsWith(s, d) && StartsWith(s, e)
    ensures d == e
  {
    if 1 <= d <= 9 && Words[d - 1] <= s {
      if 1 <= e <= 9 && Words[e - 1] <= s {
        WordsApart(s, d - 1, e - 1);
      } else {
        WordsApart(s, d - 1, d - 1);
      }
    } else if 1 <= e <= 9 && Words[e - 1] <= s {
      WordsApart(s, e - 1, e - 1);
    }
  }

  /** The digit read from a matching suffix is one it starts with. */
  lemma SuffixDigitStarts(s: string)
    requires PrefixMatch(s).Some?
    ensures StartsWith(s, SuffixDigit(s).value)
  {
    if s != [] && IsDigit(s[0]) {
      assert s[..1] == [s[0]] && [s[0]][..0] == [];
    } else {
      var k :| 0 <= k < |Words| && PrefixMatch(s).value == Words[k] && Words[k] <= s;
      WordFacts(k);
    }
  }

  /** A suffix matches exactly when it starts with some digit, and then the
      digit read is the one it starts with. */
  lemma SuffixDigitExact(s: string, d: nat)
    ensures PrefixMatch(s).Some? <==> exists e :: StartsWith(s, e)
    ensures PrefixMatch(s).Some? ==> (SuffixDigit(s) == Some(d) <==> StartsWith(s, d))
  {
    if PrefixMatch(s).Some? {
      SuffixDigitStarts(s);
      if StartsWith(s, d) {
        StartsWithUnique(s, d, SuffixDigit(s).value);
      }
    } else {
      forall e
        ensures !StartsWith(s, e)
      {
        if 1 <= e <= 9 {
          assert !(Words[e - 1] <= s);
        }
      }
    }
  }

  /** The suffix at i starts with neither a written digit nor the first two
      letters of a spelled one (or is too short for a word). */
  predicate BlankAt(line: string, i: nat)
    requires i < |line|
  {
    !IsDigit(line[i]) && (i + 2 >= |line| || PairDigit(line[i], line[i + 1]) == 0)
  }

  /** A blank suffix does not match. */
  lemma BlankNoMatch(line: string, i: nat)
    requires i < |line| && BlankAt(line, i)
    ensures PrefixMatch(line[i..]).None?
  {
    var s := line[i..];
    forall k | 0 <= k < |Words|
      ensures !(Words[k] <= s)
    {
      WordFacts(k);
    }
  }

  /** What the suffix at i contributes: its digit when the pattern
      matches it (the filter, then the map), else nothing. */
  function ReadAt(line: string, i: nat): seq<nat>
    requires i < |line|
  {
    if PrefixMatch(line[i..]).Some? then [SuffixDigit(line[i..]).value] else []
  }

  /** The reads of all the suffixes of a line, one list each. */
  function Reads(line: string): (rs: seq<seq<nat>>)
    ensures |rs| == |line|
  {
    seq(|line|, i requires 0 <= i < |line| => ReadAt(line, i))
  }

  /** The lists written one after another (what `collect` gathers). */
  function Flatten(rs: seq<seq<nat>>): seq<nat>
  {
    if rs == [] then [] else Flatten(rs[..|rs| - 1]) + rs[|rs| - 1]
  }

  lemma {:induction false} FlattenConcat(a: seq<seq<nat>>, b: seq<seq<nat>>)
    ensures Flatten(a + b) == Flatten(a) + Flatten(b)
  {
    if b == [] {
      assert a + b == a;
    } else {
      var b' := b[..|b| - 1];
      FlattenConcat(a, b');
      assert (a + b)[..|a + b| - 1] == a + b';
      assert Flatten(a + b) == (Flatten(a) + Flatten(b')) + b[|b| - 1];
    }
  }

  lemma {:induction false} FlattenEmpty(rs: seq<seq<nat>>)
    ensures Flatten(rs) == [] <==> forall k :: 0 <= k < |rs| ==> rs[k] == []
  {
    if rs != [] {
      var init := rs[..|rs| - 1];
      FlattenEmpty(init);
      assert forall k :: 0 <= k < |init| ==> init[k] == rs[k];
    }
  }

  lemma {:induction false} FlattenBound(rs: seq<seq<nat>>)
    requires forall k, m :: 0 <= k < |rs| && 0 <= m < |rs[k]| ==> rs[k][m] <= 9
    ensures forall m :: 0 <= m < |Flatten(rs)| ==> Flatten(rs)[m] <= 9
  {
    if rs != [] {
      var init := rs[..|rs| - 1];
      assert forall k :: 0 <= k < |init| ==> init[k] == rs[k];
      FlattenBound(init);
    }
  }

  /** The digits read from the suffixes starting at lo .. hi - 1, in order. */
  function Found(line: string, lo: nat, hi: nat): seq<nat>
    requires lo <= hi <= |line|
  {
    Flatten(Reads(line)[lo..hi])
  }

  /** parse_line: ten times the first digit read plus the last; with none
      the `unwrap` panics, here None. */
  function ParseLine(line: string): (r: Option<nat>)
    ensures r.Some? ==> r.value <= 99
  {
    var ds := Found(line, 0, |line|);
    FoundDigits(line, 0, |line|);
    if ds == [] then None else Some(10 * ds[0] + ds[|ds| - 1])
  }

  /** The suffixes read split at any position. */
  lemma FoundConcat(line: string, lo: nat, mid: nat, hi: nat)
    requires lo <= mid <= hi <= |line|
    ensures Found(line, lo, hi) == Found(line, lo, mid) + Found(line, mid, hi)
  {
    var rs := Reads(line);
    assert rs[lo..hi] == rs[lo..mid] + rs[mid..hi];
    FlattenConcat(rs[lo..mid], rs[mid..hi]);
  }

  /** A single suffix reads its own list. */
  lemma FoundOne(line: string, i: nat)
    requires i < |line|
    ensures Found(line, i, i + 1) == ReadAt(line, i)
  {
    var rs := Reads(line)[i..i + 1];
    assert rs == [ReadAt(line, i)];
    assert rs[..0] == [];
    assert Flatten(rs) == Flatten([]) + ReadAt(line, i);
  }

  /** Nothing is read exactly when no suffix matches. */
  lemma FoundEmpty(line: string, lo: nat, hi: nat)
    requires lo <= hi <= |line|
    ensures Found(line, lo, hi) == [] <==> forall i :: lo <= i < hi ==> PrefixMatch(line[i..]).None?
  {
    var rs := Reads(line)[lo..hi];
    FlattenEmpty(rs);
    if forall k :: 0 <= k < |rs| ==> rs[k] == [] {
      forall i | lo <= i < hi
        ensures PrefixMatch(line[i..]).None?
      {
        assert rs[i - lo] == ReadAt(line, i);
      }
    }
  }

  /** Whatever is read is a single digit. */
  lemma FoundDigits(line: string, lo: nat, hi: nat)
    requires lo <= hi <= |line|
    ensures forall k :: 0 <= k < |Found(line, lo, hi)| ==> Found(line, lo, hi)[k] <= 9
  {
    FlattenBound(Reads(line)[lo..hi]);
  }

  /** The first digit read is the one at the first matching suffix. */
  lemma FirstRead(line: string, i: nat, d: nat)
    requires i < |line| && Found(line, 0, i) == [] && ReadAt(line, i) == [d]
    ensures Found(line, 0, |line|) != [] && Found(line, 0, |line|)[0] == d
  {
    FoundConcat(line, 0, i, |line|);
    FoundConcat(line, i, i + 1, |line|);
    FoundOne(line, i);
  }

  /** The last digit read is the one at the last matching suffix. */
  lemma LastRead(line: string, j: nat, e: nat)
    requires j < |line| && Found(line, j + 1, |line|) == [] && ReadAt(line, j) == [e]
    ensures Found(line, 0, |line|) != [] && Found(line, 0, |line|)[|Found(line, 0, |line|)| - 1] == e
  {
    FoundConcat(line, 0, j, |line|);
    FoundConcat(line, j, j + 1, |line|);
    FoundOne(line, j);
    assert Found(line, 0, |line|) == Found(line, 0, j) + [e];
  }

  /** The value of a line is fixed by its first and last matching suffix:
      the suffix at i reads d with nothing before it, the one at j reads e
      with nothing after it. */
  lemma FirstLast(line: string, i: nat, d: nat, j: nat, e: nat)
    requires i < |line| && j < |line|
    requires Found(line, 0, i) == [] && Found(line, j + 1, |line|) == []
    requires ReadAt(line, i) == [d] && ReadAt(line, j) == [e]
    ensures ParseLine(line).Some? && ParseLine(line).value == 10 * d + e
  {
    FirstRead(line, i, d);
    LastRead(line, j, e);
  }

  /** A line panics exactly when none of its suffixes match, and otherwise
      its value has two digits at most. */
  lemma ParseLineBounds(line: string)
    ensures ParseLine(line).None? <==> forall i :: 0 <= i < |line| ==> PrefixMatch(line[i..]).None?
    ensures ParseLine(line).Some? ==> ParseLine(line).value <= 99
  {
    FoundEmpty(line, 0, |line|);
    FoundDigits(line, 0, |line|);
  }

  /** No spelled word starts s. */
  predicate NoWord(s: string)
  {
    forall k :: 0 <= k < |Words| ==> !(Words[k] <= s)
  }

  /** Without spelled words, a suffix reads the digit it starts with. */
  lemma ReadAtWithoutWords(line: string, i: nat)
    requires i < |line| && NoWord(line[i..])
    ensures ReadAt(line, i) == if IsDigit(line[i]) then [DigitValue(line[i])] else []
  {
    var s := line[i..];
    if IsDigit(line[i]) {
      assert s[..1] == [line[i]] && [line[i]][..0] == [];
    }
  }

  /** On a line in which no word is spelled, part 2 reads the digits that
      part 1 reads. */
  lemma {:induction false} WithoutWords(line: string, n: nat)
    requires n <= |line|
    requires forall i :: 0 <= i < |line| ==> NoWord(line[i..])
    ensures Found(line, 0, n) == Day01Part1.Digits(line[..n])
  {
    if n > 0 {
      WithoutWords(line, n - 1);
      assert line[..n][..n - 1] == line[..n - 1];
      FoundConcat(line, 0, n - 1, n);
      FoundOne(line, n - 1);
      ReadAtWithoutWords(line, n - 1);
    }
  }

  /** So such a line has the value of part 1, or panics where part 1 gives 0. */
  lemma WithoutWordsAgrees(line: string)
    requires forall i :: 0 <= i < |line| ==> NoWord(line[i..])
    ensures ParseLine(line).None? <==> Day01Part1.Digits(line) == []
    ensures ParseLine(line).Some? ==> ParseLine(line).value == Day01Part1.LineValue(line)
  {
    WithoutWords(line, |line|);
    assert line[..|line|] == line;
  }

  /** part2: the sum of the line values; a line that panics makes the whole
      sum None. The sum exists exactly when every line has a digit, and it
      is at most 99 per line. */
  function Part2(lines: seq<string>): (r: Option<nat>)
    ensures r.Some? <==> forall k :: 0 <= k < |lines| ==> ParseLine(lines[k]).Some?
    ensures r.Some? ==> r.value <= 99 * |lines|
  {
    if lines == [] then Some(0)
    else
      var init := lines[..|lines| - 1];
      EveryLineSnoc(lines, init);
      match (Part2(init), ParseLine(lines[|lines| - 1]))
      case (Some(total), Some(v)) => Some(total + v)
      case _ => None
  }

  /** Every line has a value exactly when every line but the last has one
      and the last has one too. */
  lemma EveryLineSnoc(lines: seq<string>, init: seq<string>)
    requires lines != [] && init == lines[..|lines| - 1]
    ensures (forall k :: 0 <= k < |lines| ==> ParseLine(lines[k]).Some?) <==>
            (forall k :: 0 <= k < |init| ==> ParseLine(init[k]).Some?) && ParseLine(lines[|lines| - 1]).Some?
  {
    assert forall k :: 0 <= k < |init| ==> init[k] == lines[k];
  }

  /** Blank suffixes read nothing. */
  /** Nothing is read before the first position. */
  lemma NothingBefore(line: string)
    ensures Found(line, 0, 0) == []
  {
    assert Reads(line)[0..0] == [];
  }

  lemma NoneMatch(line: string, lo: nat, hi: nat)
    requires lo <= hi <= |line|
    requires forall k :: lo <= k < hi ==> BlankAt(line, k)
    ensures Found(line, lo, hi) == []
  {
    forall k | lo <= k < hi
      ensures PrefixMatch(line[k..]).None?
    {
      BlankNoMatch(line, k);
    }
    FoundEmpty(line, lo, hi);
  }

  /** The suffix at i starts with the written digit d. */
  lemma DigitAt(line: string, i: nat, d: nat)
    requires i < |line| && IsDigit(line[i]) && DigitValue(line[i]) == d
    ensures ReadAt(line, i) == [d]
  {
    SuffixDigitExact(line[i..], d);
  }

  /** The suffix at i starts with the spelling of d. */
  lemma WordAt(line: string, i: nat, d: nat)
    requires 1 <= d <= 9 && i + |Words[d - 1]| <= |line| && line[i..i + |Words[d - 1]|] == Words[d - 1]
    ensures ReadAt(line, i) == [d]
  {
    assert Words[d - 1] <= line[i..];
    SuffixDigitExact(line[i..], d);
  }

  /** The suffixes of "two1nine" outside its first and last match are
      blank. */
  lemma BlanksTwoOneNine(line: string)
    requires line == "two1nine"
    ensures forall k :: 5 <= k < 8 ==> BlankAt(line, k)
  {
    forall k | 5 <= k < 8
      ensures BlankAt(line, k)
    {
      if k == 5 { assert line[5] == 'i' && line[6] == 'n' && PairDigit('i', 'n') == 0; }
      else if k == 6 { assert line[6] == 'n'; }
      else { assert line[7] == 'e'; }
    }
  }

  /** The test "two1nine" -> 29. */
  lemma ExampleTwoOneNine(line: string)
    requires line == "two1nine"
    ensures ParseLine(line).Some? && ParseLine(line).value == 29
  {
    WordAt(line, 0, 2);
    WordAt(line, 4, 9);
    BlanksTwoOneNine(line);
    NoneMatch(line, 5, 8);
    NothingBefore(line);
    FirstLast(line, 0, 2, 4, 9);
  }

  /** The suffixes of "eightwothree" outside its first and last match are
      blank. */
  lemma BlanksEightWoThree(line: string)
    requires line == "eightwothree"
    ensures forall k :: 8 <= k < 12 ==> BlankAt(line, k)
  {
    forall k | 8 <= k < 12
      ensures BlankAt(line, k)
    {
      if k == 8 { assert line[8] == 'h' && line[9] == 'r' && PairDigit('h', 'r') == 0; }
      else if k == 9 { assert line[9] == 'r' && line[10] == 'e' && PairDigit('r', 'e') == 0; }
      else if k == 10 { assert line[10] == 'e'; }
      else { assert line[11] == 'e'; }
    }
  }

  /** The test "eightwothree" -> 83. */
  lemma ExampleEightWoThree(line: string)
    requires line == "eightwothree"
    ensures ParseLine(line).Some? && ParseLine(line).value == 83
  {
    WordAt(line, 0, 8);
    WordAt(line, 7, 3);
    BlanksEightWoThree(line);
    NoneMatch(line, 8, 12);
    NothingBefore(line);
    FirstLast(line, 0, 8, 7, 3);
  }

  /** The suffixes of "abcone2threexyz" outside its first and last match are
      blank. */
  lemma BlanksAbcOne(line: string)
    requires line == "abcone2threexyz"
    ensures forall k :: 0 <= k < 3 ==> BlankAt(line, k)
    ensures forall k :: 8 <= k < 15 ==> BlankAt(line, k)
  {
    forall k | 0 <= k < 3
      ensures BlankAt(line, k)
    {
      if k == 0 { assert line[0] == 'a' && line[1] == 'b' && PairDigit('a', 'b') == 0; }
      else if k == 1 { assert line[1] == 'b' && line[2] == 'c' && PairDigit('b', 'c') == 0; }
      else { assert line[2] == 'c' && line[3] == 'o' && PairDigit('c', 'o') == 0; }
    }
    forall k | 8 <= k < 15
      ensures BlankAt(line, k)
    {
      if k == 8 { assert line[8] == 'h' && line[9] == 'r' && PairDigit('h', 'r') == 0; }
      else if k == 9 { assert line[9] == 'r' && line[10] == 'e' && PairDigit('r', 'e') == 0; }
      else if k == 10 { assert line[10] == 'e' && line[11] == 'e' && PairDigit('e', 'e') == 0; }
      else if k == 11 { assert line[11] == 'e' && line[12] == 'x' && PairDigit('e', 'x') == 0; }
      else if k == 12 { assert line[12] == 'x' && line[13] == 'y' && PairDigit('x', 'y') == 0; }
      else if k == 13 { assert line[13] == 'y'; }
      else { assert line[14] == 'z'; }
    }
  }

  /** The test "abcone2threexyz" -> 13. */
  lemma ExampleAbcOne(line: string)
    requires line == "abcone2threexyz"
    ensures ParseLine(line).Some? && ParseLine(line).value == 13
  {
    assert line[3..6] == Words[0];
    WordAt(line, 3, 1);
    assert line[7..12] == Words[2];
    WordAt(line, 7, 3);
    BlanksAbcOne(line);
    NoneMatch(line, 0, 3);
    NoneMatch(line, 8, 15);
    FirstLast(line, 3, 1, 7, 3);
  }

  /** The suffixes of "xtwone3four" outside its first and last match are
      blank. */
  lemma BlanksXTwone(line: string)
    requires line == "xtwone3four"
    ensures forall k :: 0 <= k < 1 ==> BlankAt(line, k)
    ensures forall k :: 8 <= k < 11 ==> BlankAt(line, k)
  {
    forall k | 0 <= k < 1
      ensures BlankAt(line, k)
    {
      assert line[0] == 'x' && line[1] == 't' && PairDigit('x', 't') == 0;
    }
    forall k | 8 <= k < 11
      ensures BlankAt(line, k)
    {
      if k == 8 { assert line[8] == 'o' && line[9] == 'u' && PairDigit('o', 'u') == 0; }
      else if k == 9 { assert line[9] == 'u'; }
      else { assert line[10] == 'r'; }
    }
  }

  /** The test "xtwone3four" -> 24. */
  lemma ExampleXTwone(line: string)
    requires line == "xtwone3four"
    ensures ParseLine(line).Some? && ParseLine(line).value == 24
  {
    WordAt(line, 1, 2);
    WordAt(line, 7, 4);
    BlanksXTwone(line);
    NoneMatch(line, 0, 1);
    NoneMatch(line, 8, 11);
    FirstLast(line, 1, 2, 7, 4);
  }

  /** The test "4nineeightseven2" -> 42. */
  lemma ExampleFourNine(line: string)
    requires line == "4nineeightseven2"
    ensures ParseLine(line).Some? && ParseLine(line).value == 42
  {
    DigitAt(line, 0, 4);
    DigitAt(line, 15, 2);
    NothingBefore(line);
    FirstLast(line, 0, 4, 15, 2);
  }

  /** The suffixes of "zoneight234" outside its first and last match are
      blank. */
  lemma BlanksZoneight(line: string)
    requires line == "zoneight234"
    ensures forall k :: 0 <= k < 1 ==> BlankAt(line, k)
  {
    forall k | 0 <= k < 1
      ensures BlankAt(line, k)
    {
      assert line[0] == 'z' && line[1] == 'o' && PairDigit('z', 'o') == 0;
    }
  }

  /** The test "zoneight234" -> 14. */
  lemma ExampleZoneight(line: string)
    requires line == "zoneight234"
    ensures ParseLine(line).Some? && ParseLine(line).value == 14
  {
    WordAt(line, 1, 1);
    DigitAt(line, 10, 4);
    BlanksZoneight(line);
    NoneMatch(line, 0, 1);
    FirstLast(line, 1, 1, 10, 4);
  }

  /** The suffixes of "7pqrstsixteen" outside its first and last match are
      blank. */
  lemma BlanksSevenSixteen(line: string)
    requires line == "7pqrstsixteen"
    ensures forall k :: 7 <= k < 13 ==> BlankAt(line, k)
  {
    forall k | 7 <= k < 13
      ensures BlankAt(line, k)
    {
      if k == 7 { assert line[7] == 'i' && line[8] == 'x' && PairDigit('i', 'x') == 0; }
      else if k == 8 { assert line[8] == 'x' && line[9] == 't' && PairDigit('x', 't') == 0; }
      else if k == 9 { assert line[9] == 't' && line[10] == 'e' && PairDigit('t', 'e') == 0; }
      else if k == 10 { assert line[10] == 'e' && line[11] == 'e' && PairDigit('e', 'e') == 0; }
      else if k == 11 { assert line[11] == 'e'; }
      else { assert line[12] == 'n'; }
    }
  }

  /** The test "7pqrstsixteen" -> 76. */
  lemma ExampleSevenSixteen(line: string)
    requires line == "7pqrstsixteen"
    ensures ParseLine(line).Some? && ParseLine(line).value == 76
  {
    DigitAt(line, 0, 7);
    WordAt(line, 6, 6);
    BlanksSevenSixteen(line);
    NoneMatch(line, 7, 13);
    NothingBefore(line);
    FirstLast(line, 0, 7, 6, 6);
  }

  /** The suffixes of "28gtbkszmrtmnineoneightmx" outside its first and last match are
      blank. */
  lemma BlanksTwentyEight(line: string)
    requires line == "28gtbkszmrtmnineoneightmx"
    ensures forall k :: 19 <= k < 25 ==> BlankAt(line, k)
  {
    forall k | 19 <= k < 25
      ensures BlankAt(line, k)
    {
      if k == 19 { assert line[19] == 'i' && line[20] == 'g' && PairDigit('i', 'g') == 0; }
      else if k == 20 { assert line[20] == 'g' && line[21] == 'h' && PairDigit('g', 'h') == 0; }
      else if k == 21 { assert line[21] == 'h' && line[22] == 't' && PairDigit('h', 't') == 0; }
      else if k == 22 { assert line[22] == 't' && line[23] == 'm' && PairDigit('t', 'm') == 0; }
      else if k == 23 { assert line[23] == 'm'; }
      else { assert line[24] == 'x'; }
    }
  }

  /** The test "28gtbkszmrtmnineoneightmx" -> 28. */
  lemma ExampleTwentyEight(line: string)
    requires line == "28gtbkszmrtmnineoneightmx"
    ensures ParseLine(line).Some? && ParseLine(line).value == 28
  {
    DigitAt(line, 0, 2);
    WordAt(line, 18, 8);
    BlanksTwentyEight(line);
    NoneMatch(line, 19, 25);
    NothingBefore(line);
    FirstLast(line, 0, 2, 18, 8);
  }
}
