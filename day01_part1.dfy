/** Day 1, part 1: each line's calibration value is the number formed by its
    first and last digits (a lone digit counts twice, a line without digits
    counts 0), and the answer is the sum over the lines. */
module Day01Part1 {
  import opened Common

  /** The digits of a line, in order. */
  function Digits(line: string): (ds: seq<nat>)
    ensures forall k :: 0 <= k < |ds| ==> ds[k] <= 9
  {
    if line == [] then []
    else
      var c := line[|line| - 1];
      Digits(line[..|line| - 1]) + if IsDigit(c) then [DigitValue(c)] else []
  }

  /** The calibration value: ten times the first digit plus the last, or 0
      without digits. */
  function LineValue(line: string): nat
  {
    var ds := Digits(line);
    if ds == [] then 0 else 10 * ds[0] + ds[|ds| - 1]
  }

  /** parse_line: one pass over the characters; the first digit fixes both
      digits, every later one replaces the second. */
  method ParseLine(line: string) returns (value: nat)
    ensures value == LineValue(line)
  {
    var firstDigit: Option<nat> := None;
    var secondDigit: Option<nat> := None;
    for i := 0 to |line|
      invariant Digits(line[..i]) == [] ==> firstDigit.None? && secondDigit.None?
      invariant Digits(line[..i]) != [] ==>
                  firstDigit == Some(Digits(line[..i])[0]) &&
                  secondDigit == Some(Digits(line[..i])[|Digits(line[..i])| - 1])
    {
      var c := line[i];
      assert line[..i + 1][..i] == line[..i];
      if IsDigit(c) {
        var num := DigitValue(c);
        if firstDigit.None? {
          firstDigit := Some(num);
          secondDigit := Some(num);
        } else {
          secondDigit := Some(num);
        }
      }
    }
    assert line[..|line|] == line;
    if firstDigit.Some? && secondDigit.Some? {
      return firstDigit.value * 10 + secondDigit.value;
    }
    return 0;
  }

  /** The value is a two-digit number at most; it is 0 when the line has no
      digit, and 11 times the digit when it has one. */
  lemma LineValueBounds(line: string)
    ensures LineValue(line) <= 99
    ensures Digits(line) == [] ==> LineValue(line) == 0
    ensures |Digits(line)| == 1 ==> LineValue(line) == 11 * Digits(line)[0]
  {
  }

  /** Characters that are not digits change nothing. */
  lemma {:induction false} NonDigitsIgnored(a: string, c: char, b: string)
    requires !IsDigit(c)
    ensures Digits(a + [c] + b) == Digits(a + b)
    ensures LineValue(a + [c] + b) == LineValue(a + b)
  {
    if b == [] {
      assert a + [c] + b == a + [c];
      assert (a + [c])[..|a|] == a;
      assert a + b == a;
    } else {
      var b' := b[..|b| - 1];
      NonDigitsIgnored(a, c, b');
      assert (a + [c] + b)[..|a + [c] + b| - 1] == a + [c] + b';
      assert (a + b)[..|a + b| - 1] == a + b';
    }
  }

  /** Digits splits over a concatenation. */
  lemma {:induction false} DigitsConcat(a: string, b: string)
    ensures Digits(a + b) == Digits(a) + Digits(b)
  {
    if b == [] {
      assert a + b == a;
    } else {
      var b' := b[..|b| - 1];
      DigitsConcat(a, b');
      assert (a + b)[..|a + b| - 1] == a + b';
    }
  }

  /** Reading one more character. */
  lemma DigitsStep(line: string, k: nat)
    requires k < |line|
    ensures Digits(line[..k + 1]) == Digits(line[..k]) + if IsDigit(line[k]) then [DigitValue(line[k])] else []
  {
    assert line[..k + 1][..k] == line[..k];
  }

  /** A text without digit characters has no digits. */
  lemma {:induction false} NoDigits(s: string)
    requires forall k :: 0 <= k < |s| ==> !IsDigit(s[k])
    ensures Digits(s) == []
  {
    if s != [] {
      NoDigits(s[..|s| - 1]);
    }
  }

  /** The test "ab1-2c" -> 12. */
  lemma ExampleTwoDigits(line: string)
    requires line == "ab1-2c"
    ensures LineValue(line) == 12
  {
    assert line[..0] == [];
    assert line[0] == 'a';
    DigitsStep(line, 0);
    assert line[1] == 'b';
    DigitsStep(line, 1);
    assert line[2] == '1';
    DigitsStep(line, 2);
    assert line[3] == '-';
    DigitsStep(line, 3);
    assert line[4] == '2';
    DigitsStep(line, 4);
    assert line[5] == 'c';
    DigitsStep(line, 5);
    assert line[..6] == line;
  }

  /** The test "ab1c" -> 11. */
  lemma ExampleOneDigit(line: string)
    requires line == "ab1c"
    ensures LineValue(line) == 11
  {
    assert line[..0] == [];
    assert line[0] == 'a';
    DigitsStep(line, 0);
    assert line[1] == 'b';
    DigitsStep(line, 1);
    assert line[2] == '1';
    DigitsStep(line, 2);
    assert line[3] == 'c';
    DigitsStep(line, 3);
    assert line[..4] == line;
  }

  /** The test "abc" -> 0. */
  lemma ExampleNoDigit(line: string)
    requires line == "abc"
    ensures LineValue(line) == 0
  {
    assert line[..0] == [];
    assert line[0] == 'a';
    DigitsStep(line, 0);
    assert line[1] == 'b';
    DigitsStep(line, 1);
    assert line[2] == 'c';
    DigitsStep(line, 2);
    assert line[..3] == line;
  }

  /** The test "ab1-2-3c" -> 13. */
  lemma ExampleThreeDigits(line: string)
    requires line == "ab1-2-3c"
    ensures LineValue(line) == 13
  {
    assert line[..0] == [];
    assert line[0] == 'a';
    DigitsStep(line, 0);
    assert line[1] == 'b';
    DigitsStep(line, 1);
    assert line[2] == '1';
    DigitsStep(line, 2);
    assert line[3] == '-';
    DigitsStep(line, 3);
    assert line[4] == '2';
    DigitsStep(line, 4);
    assert line[5] == '-';
    DigitsStep(line, 5);
    assert line[6] == '3';
    DigitsStep(line, 6);
    assert line[7] == 'c';
    DigitsStep(line, 7);
    assert line[..8] == line;
  }

  /** part1: the sum of the line values; it is at most 99 per line, and at
      least the value of any one line. */
  function Part1(lines: seq<string>): (r: nat)
    ensures r <= 99 * |lines|
    ensures forall k :: 0 <= k < |lines| ==> LineValue(lines[k]) <= r
  {
    if lines == [] then 0
    else
      var init := lines[..|lines| - 1];
      LineValueBounds(lines[|lines| - 1]);
      assert forall k :: 0 <= k < |init| ==> init[k] == lines[k];
      Part1(init) + LineValue(lines[|lines| - 1])
  }

  /** The answer is at most 99 per line, and splits over the lines. */
  lemma {:induction false} Part1Bounds(lines: seq<string>, more: seq<string>)
    ensures Part1(lines) <= 99 * |lines|
    ensures Part1(lines + more) == Part1(lines) + Part1(more)
  {
    if more == [] {
      assert lines + more == lines;
    } else {
      var more' := more[..|more| - 1];
      Part1Bounds(lines, more');
      assert (lines + more)[..|lines + more| - 1] == lines + more';
    }
  }
}
