/** Day 4, part 1: a scratchcard lists its winning numbers between ':' and
    '|' and the numbers it has after '|'; each number it has that is a
    winning one is a match, a card with m > 0 matches is worth 2^(m-1)
    points, and the answer is the sum of the points of all cards. */
module Day04Part1 {
  import opened Common

  /** The largest `u32`. */
  const MaxU32: nat := 4294967295

  /** `parse::<u32>()`: the value of a decimal spelling, when it fits in 32
      bits; a token that is not one, or whose value does not fit, fails. */
  function ParseU32(token: string): (r: Option<nat>)
    ensures r.Some? <==> ParseNat(token).Some? && ParseNat(token).value <= MaxU32
    ensures r.Some? ==> r == ParseNat(token)
  {
    match ParseNat(token)
    case Some(n) => if n <= MaxU32 then Some(n) else None
    case None => None
  }

  /** The token is the decimal spelling of n, and n fits in 32 bits. */
  predicate Parses(token: string, n: nat)
  {
    ParseU32(token) == Some(n)
  }

  /** Every number fits in 32 bits. */
  predicate Fits(ns: seq<nat>)
  {
    forall k :: 0 <= k < |ns| ==> ns[k] <= MaxU32
  }

  /** The numbers among the tokens, `filter_map(parse().ok())` collected
      into a set: tokens that do not parse (the empty ones between two
      spaces, and numbers beyond 32 bits) are skipped. */
  function WinningSet(tokens: seq<string>): set<nat>
  {
    if tokens == [] then {}
    else WinningSet(tokens[..|tokens| - 1]) + match ParseU32(tokens[|tokens| - 1]) case Some(n) => {n} case None => {}
  }

  /** The winning set holds exactly the numbers some token spells. */
  lemma {:induction false} WinningSetExact(tokens: seq<string>)
    ensures forall n: nat :: n in WinningSet(tokens) <==> exists k :: 0 <= k < |tokens| && Parses(tokens[k], n)
  {
    if tokens != [] {
      var init := tokens[..|tokens| - 1];
      var last := |tokens| - 1;
      WinningSetExact(init);
      forall n: nat ensures n in WinningSet(tokens) <==> exists k :: 0 <= k < |tokens| && Parses(tokens[k], n) {
        if n in WinningSet(init) {
          var k :| 0 <= k < |init| && Parses(init[k], n);
          assert Parses(tokens[k], n);
        }
        if exists k :: 0 <= k < |tokens| && Parses(tokens[k], n) {
          var k :| 0 <= k < |tokens| && Parses(tokens[k], n);
          if k < last {
            assert Parses(init[k], n);
          }
        }
      }
    }
  }

  /** A token counts when it parses to a winning number. */
  predicate IsMatch(token: string, winning: set<nat>)
  {
    ParseU32(token).Some? && ParseU32(token).value in winning
  }

  /** The `filter(..).count()` over the tokens right of '|'. */
  function MatchCount(tokens: seq<string>, winning: set<nat>): (m: nat)
    ensures m <= |tokens|
  {
    if tokens == [] then 0
    else MatchCount(tokens[..|tokens| - 1], winning) + if IsMatch(tokens[|tokens| - 1], winning) then 1 else 0
  }

  /** The positions of the matching tokens. */
  function MatchingPositions(tokens: seq<string>, winning: set<nat>): set<nat>
  {
    set k: nat | k < |tokens| && IsMatch(tokens[k], winning)
  }

  /** The count is the number of matching positions, so it is 0 exactly
      when no token matches. */
  lemma {:induction false} MatchCountExact(tokens: seq<string>, winning: set<nat>)
    ensures MatchCount(tokens, winning) == |MatchingPositions(tokens, winning)|
    ensures MatchCount(tokens, winning) == 0 <==> forall k :: 0 <= k < |tokens| ==> !IsMatch(tokens[k], winning)
  {
    if tokens != [] {
      var init := tokens[..|tokens| - 1];
      MatchCountExact(init, winning);
      MatchingPositionsStep(tokens, winning);
      assert forall k :: 0 <= k < |init| ==> init[k] == tokens[k];
    }
  }

  /** One more token adds its position when it matches. */
  lemma MatchingPositionsStep(tokens: seq<string>, winning: set<nat>)
    requires tokens != []
    ensures var last := |tokens| - 1;
            var before := MatchingPositions(tokens[..last], winning);
            last !in before &&
            MatchingPositions(tokens, winning) == if IsMatch(tokens[last], winning) then before + {last} else before
  {
    var last := |tokens| - 1;
    assert forall k :: 0 <= k < last ==> tokens[..last][k] == tokens[k];
  }

  /** The count splits over the tokens. */
  lemma {:induction false} MatchCountConcat(a: seq<string>, b: seq<string>, winning: set<nat>)
    ensures MatchCount(a + b, winning) == MatchCount(a, winning) + MatchCount(b, winning)
  {
    if b == [] {
      assert a + b == a;
    } else {
      var b' := b[..|b| - 1];
      MatchCountConcat(a, b', winning);
      assert (a + b)[..|a + b| - 1] == a + b';
    }
  }

  /** More winning numbers never give fewer matches. */
  lemma {:induction false} MatchCountMonotone(tokens: seq<string>, w1: set<nat>, w2: set<nat>)
    requires w1 <= w2
    ensures MatchCount(tokens, w1) <= MatchCount(tokens, w2)
  {
    if tokens != [] {
      MatchCountMonotone(tokens[..|tokens| - 1], w1, w2);
    }
  }

  /** An empty token, as a double space leaves, adds no winning number and
      no match. */
  lemma BlankTokenSkipped(a: seq<string>, b: seq<string>, winning: set<nat>)
    ensures WinningSet(a + [[]] + b) == WinningSet(a + b)
    ensures MatchCount(a + [[]] + b, winning) == MatchCount(a + b, winning)
  {
    BlankAddsNoNumber(a, b);
    MatchCountConcat(a + [[]], b, winning);
    MatchCountConcat(a, [[]], winning);
    MatchCountConcat(a, b, winning);
    var blank: seq<string> := [[]];
    assert blank[..0] == [];
  }

  lemma {:induction false} BlankAddsNoNumber(a: seq<string>, b: seq<string>)
    ensures WinningSet(a + [[]] + b) == WinningSet(a + b)
  {
    var x, y := a + [[]] + b, a + b;
    if b == [] {
      assert x[..|x| - 1] == a && x[|x| - 1] == [];
      assert y == a;
    } else {
      var b' := b[..|b| - 1];
      BlankAddsNoNumber(a, b');
      assert x[..|x| - 1] == a + [[]] + b' && x[|x| - 1] == b[|b| - 1];
      assert y[..|y| - 1] == a + b' && y[|y| - 1] == b[|b| - 1];
    }
  }

  /** The matches of one card line, or None where an `expect` panics: a
      line without '|', or without ':' before its first '|'. Only the text
      between the first ':' and the first '|' holds winning numbers, and
      only the text between the first and the second '|' is read for the
      numbers the card has. */
  function CardMatches(line: string): (r: Option<nat>)
    ensures r.Some? <==> '|' in line && ':' in SplitOn(line, '|')[0]
  {
    var sides := SplitOn(line, '|');
    var halves := SplitOn(sides[0], ':');
    SplitOnSeparates(line, '|');
    SplitOnSeparates(sides[0], ':');
    if |sides| < 2 || |halves| < 2 then None
    else Some(MatchCount(SplitOn(sides[1], ' '), WinningSet(SplitOn(halves[1], ' '))))
  }

  /** A line `head:left|right` with no other ':' or '|' matches the
      numbers of right against the numbers of left. */
  lemma CardMatchesShape(line: string, head: string, left: string, right: string)
    requires ':' !in head && '|' !in head && ':' !in left && '|' !in left && '|' !in right
    requires line == head + [':'] + left + ['|'] + right
    ensures CardMatches(line) == Some(MatchCount(SplitOn(right, ' '), WinningSet(SplitOn(left, ' '))))
  {
    var front := head + [':'] + left;
    assert '|' !in front;
    SplitOnAfterPiece(front, '|', right);
    SplitOnPlain(right, '|');
    SplitOnAfterPiece(head, ':', left);
    SplitOnPlain(left, ':');
  }

  function Pow2(n: nat): (p: nat)
    ensures p >= 1
  {
    if n == 0 then 1 else 2 * Pow2(n - 1)
  }

  /** `base.pow(m - 1)` for a card with m > 0 matches; a card without
      matches is filtered out, which adds nothing to the sum. */
  function Points(m: nat): (p: nat)
    ensures p == 0 <==> m == 0
    ensures m > 0 ==> 2 * p == Pow2(m)
  {
    if m > 0 then Pow2(m - 1) else 0
  }

  /** The first match is worth one point and every further match doubles
      the points; only a card without matches is worth nothing. */
  lemma PointsDouble(m: nat)
    ensures Points(0) == 0 && Points(1) == 1
    ensures m >= 1 ==> Points(m + 1) == 2 * Points(m)
    ensures Points(m) == 0 <==> m == 0
    ensures 2 * Points(m) <= Pow2(m)
  {
  }

  /** More matches are worth more points. */
  lemma {:induction false} PointsMonotone(m: nat, n: nat)
    requires m <= n
    ensures Points(m) <= Points(n)
  {
    if m < n {
      PointsMonotone(m, n - 1);
      PointsDouble(n - 1);
    }
  }

  /** The per-line results, in order. */
  function CardsOf(lines: seq<string>): (ms: seq<Option<nat>>)
    ensures |ms| == |lines| && forall k :: 0 <= k < |lines| ==> ms[k] == CardMatches(lines[k])
  {
    seq(|lines|, k requires 0 <= k < |lines| => CardMatches(lines[k]))
  }

  /** The `sum` of the points, None as soon as one card is None. */
  function TotalPoints(ms: seq<Option<nat>>): Option<nat>
  {
    if ms == [] then Some(0)
    else
      match (TotalPoints(ms[..|ms| - 1]), ms[|ms| - 1])
      case (Some(total), Some(m)) => Some(total + Points(m))
      case _ => None
  }

  /** part1: the sum of the points of the cards, or None when a line makes
      an `expect` panic. */
  function Part1(lines: seq<string>): (r: Option<nat>)
    ensures r.Some? <==> forall k :: 0 <= k < |lines| ==> CardMatches(lines[k]).Some?
  {
    TotalPointsExact(CardsOf(lines), []);
    TotalPoints(CardsOf(lines))
  }

  /** The total exists exactly when every card does, and it splits over
      the cards. */
  lemma {:induction false} TotalPointsExact(ms: seq<Option<nat>>, more: seq<Option<nat>>)
    ensures TotalPoints(ms).Some? <==> forall k :: 0 <= k < |ms| ==> ms[k].Some?
    ensures TotalPoints(ms).Some? && TotalPoints(more).Some? ==>
              TotalPoints(ms + more).Some? && TotalPoints(ms + more).value == TotalPoints(ms).value + TotalPoints(more).value
    ensures TotalPoints(ms).None? || TotalPoints(more).None? ==> TotalPoints(ms + more).None?
  {
    if ms != [] {
      var init := ms[..|ms| - 1];
      TotalPointsExact(init, []);
      assert forall k :: 0 <= k < |init| ==> init[k] == ms[k];
    }
    if more == [] {
      assert ms + more == ms;
    } else {
      var more' := more[..|more| - 1];
      TotalPointsExact(ms, more');
      assert (ms + more)[..|ms + more| - 1] == ms + more';
      assert (ms + more)[|ms + more| - 1] == more[|more| - 1];
    }
  }

  /** The answer exists exactly when every line is a card, and it splits
      over the lines. */
  lemma Part1Exact(lines: seq<string>, more: seq<string>)
    ensures Part1(lines).Some? <==> forall k :: 0 <= k < |lines| ==> CardMatches(lines[k]).Some?
    ensures Part1(lines).Some? && Part1(more).Some? ==>
              Part1(lines + more).Some? && Part1(lines + more).value == Part1(lines).value + Part1(more).value
    ensures Part1(lines).None? || Part1(more).None? ==> Part1(lines + more).None?
  {
    var a, b := CardsOf(lines), CardsOf(more);
    TotalPointsExact(a, b);
    forall k | 0 <= k < |lines + more| ensures CardsOf(lines + more)[k] == (a + b)[k] {
      if k < |lines| {
        assert (lines + more)[k] == lines[k];
      } else {
        assert (lines + more)[k] == more[k - |lines|];
      }
    }
    assert CardsOf(lines + more) == a + b;
    assert forall k :: 0 <= k < |lines| ==> (a[k].Some? <==> CardMatches(lines[k]).Some?);
  }

  /** One for a winning number, zero otherwise. */
  function Hit(n: nat, winning: set<nat>): (h: nat)
    ensures h <= 1
  {
    if n in winning then 1 else 0
  }

  /** How many of the numbers a card has are winning ones. */
  function Count(own: seq<nat>, winning: set<nat>): (c: nat)
    ensures c <= |own|
  {
    if own == [] then 0 else Count(own[..|own| - 1], winning) + Hit(own[|own| - 1], winning)
  }

  /** The winning numbers as a set. */
  function SetOf(winning: seq<nat>): (w: set<nat>)
    ensures forall n :: n in w <==> n in winning
  {
    set n | n in winning
  }

  /** A card line written with one space around every number:
      `Card <id>: <winning> | <own>`. */
  function CardLine(id: nat, winning: seq<nat>, own: seq<nat>): string
  {
    "Card " + ShowNat(id) + ":" + Join([[]] + ShowNats(winning) + [[]], ' ') + "|" + Join([[]] + ShowNats(own), ' ')
  }

  /** Printed numbers parse back: the winning set is the set of the
      winning numbers and the count is how many own numbers are in it. */
  lemma {:induction false} ShownMatches(own: seq<nat>, winning: set<nat>)
    requires Fits(own)
    ensures MatchCount(ShowNats(own), winning) == Count(own, winning)
  {
    if own != [] {
      var init := own[..|own| - 1];
      ShownMatches(init, winning);
      assert ShowNats(own)[..|own| - 1] == ShowNats(init);
      ParseShowNat(own[|own| - 1]);
    }
  }

  lemma ShownWinning(winning: seq<nat>)
    requires Fits(winning)
    ensures WinningSet(ShowNats(winning)) == SetOf(winning)
  {
    var ss := ShowNats(winning);
    WinningSetExact(ss);
    forall n: nat ensures n in WinningSet(ss) <==> n in winning {
      if n in winning {
        var k :| 0 <= k < |winning| && winning[k] == n;
        ParseShowNat(n);
        assert Parses(ss[k], n);
      }
      if n in WinningSet(ss) {
        var k :| 0 <= k < |ss| && Parses(ss[k], n);
        ParseShowNat(winning[k]);
        assert n == winning[k];
      }
    }
  }

  /** A printed card line is `head:left|right` with its ':' and '|' only
      there, and left and right the blank-framed tokens. */
  lemma CardLineText(id: nat, winning: seq<nat>, own: seq<nat>)
    ensures var head := "Card " + ShowNat(id);
            var left := Join([[]] + ShowNats(winning) + [[]], ' ');
            var right := Join([[]] + ShowNats(own), ' ');
            && ':' !in head && '|' !in head && ':' !in left && '|' !in left && '|' !in right
            && CardLine(id, winning, own) == head + [':'] + left + ['|'] + right
  {
    var head := "Card " + ShowNat(id);
    var leftParts := [[]] + ShowNats(winning) + [[]];
    var rightParts := [[]] + ShowNats(own);
    assert forall k, i :: 0 <= k < |leftParts| && 0 <= i < |leftParts[k]| ==> IsDigit(leftParts[k][i]);
    assert forall k, i :: 0 <= k < |rightParts| && 0 <= i < |rightParts[k]| ==> IsDigit(rightParts[k][i]);
    JoinAvoids(leftParts, ' ', ':');
    JoinAvoids(leftParts, ' ', '|');
    JoinAvoids(rightParts, ' ', '|');
    assert ':' !in head && '|' !in head by {
      assert forall i :: 0 <= i < |ShowNat(id)| ==> IsDigit(ShowNat(id)[i]);
      assert forall i :: 0 <= i < |head| ==> if i < 5 then head[i] == "Card "[i] else IsDigit(head[i]);
    }
  }

  /** No token holds the character c. */
  predicate Avoids(parts: seq<string>, c: char)
  {
    forall k, i :: 0 <= k < |parts| && 0 <= i < |parts[k]| ==> parts[k][i] != c
  }

  /** Printed numbers, framed by blank tokens, contain no space. */
  lemma ShownPlain(ns: seq<nat>)
    ensures Avoids([[]] + ShowNats(ns) + [[]], ' ')
    ensures Avoids([[]] + ShowNats(ns), ' ')
  {
    var ss := ShowNats(ns);
    assert forall k, i :: 0 <= k < |ss| && 0 <= i < |ss[k]| ==> IsDigit(ss[k][i]);
  }

  /** The text of a printed card line splits into its tokens. */
  lemma CardLineTokens(id: nat, winning: seq<nat>, own: seq<nat>)
    ensures CardMatches(CardLine(id, winning, own)) ==
            Some(MatchCount([[]] + ShowNats(own), WinningSet([[]] + ShowNats(winning) + [[]])))
  {
    var left := Join([[]] + ShowNats(winning) + [[]], ' ');
    var right := Join([[]] + ShowNats(own), ' ');
    CardLineText(id, winning, own);
    CardMatchesShape(CardLine(id, winning, own), "Card " + ShowNat(id), left, right);
    ShownPlain(winning);
    ShownPlain(own);
    SplitOnJoin([[]] + ShowNats(winning) + [[]], ' ');
    SplitOnJoin([[]] + ShowNats(own), ' ');
  }

  /** Blank tokens at the ends, as the spaces after ':' and around '|'
      leave, drop out. */
  lemma BlankEnds(b: seq<string>, w: set<nat>)
    ensures WinningSet([[]] + b + [[]]) == WinningSet(b)
    ensures MatchCount([[]] + b, w) == MatchCount(b, w)
  {
    BlankTokenSkipped([], b + [[]], {});
    BlankTokenSkipped(b, [], {});
    BlankTokenSkipped([], b, w);
    assert [] + [[]] + (b + [[]]) == [[]] + b + [[]];
    assert b + [[]] + [] == b + [[]];
    assert [] + (b + [[]]) == b + [[]];
    assert b + [] == b;
    assert [] + [[]] + b == [[]] + b;
    assert [] + b == b;
  }

  /** The blank tokens around the printed numbers drop out. */
  lemma ShownTokens(winning: seq<nat>, own: seq<nat>, w: set<nat>)
    requires Fits(winning) && Fits(own)
    ensures WinningSet([[]] + ShowNats(winning) + [[]]) == SetOf(winning)
    ensures MatchCount([[]] + ShowNats(own), w) == Count(own, w)
  {
    BlankEnds(ShowNats(winning), {});
    BlankEnds(ShowNats(own), w);
    ShownWinning(winning);
    ShownMatches(own, w);
  }

  /** A card line printed from its numbers, all of them 32-bit, has as
      many matches as there are own numbers among the winning ones. */
  lemma CardLineMatches(id: nat, winning: seq<nat>, own: seq<nat>)
    requires Fits(winning) && Fits(own)
    ensures CardMatches(CardLine(id, winning, own)) == Some(Count(own, SetOf(winning)))
  {
    CardLineTokens(id, winning, own);
    ShownTokens(winning, own, SetOf(winning));
  }

  /** A number beyond 32 bits is dropped on both sides of the '|': the
      card `Card 1: 4294967296 | 4294967296` has no match. */
  lemma OversizedNumberDropped()
    ensures CardMatches(CardLine(1, [MaxU32 + 1], [MaxU32 + 1])) == Some(0)
  {
    var big := ShowNats([MaxU32 + 1]);
    CardLineTokens(1, [MaxU32 + 1], [MaxU32 + 1]);
    BlankEnds(big, {});
    ParseShowNat(MaxU32 + 1);
    assert big == [ShowNat(MaxU32 + 1)];
    assert [ShowNat(MaxU32 + 1)][..0] == [];
    assert WinningSet(big) == {};
  }

  /** Counting one more number. */
  lemma CountStep(own: seq<nat>, w: set<nat>, k: nat)
    requires k < |own|
    ensures Count(own[..k + 1], w) == Count(own[..k], w) + Hit(own[k], w)
  {
    assert own[..k + 1][..k] == own[..k];
  }

  /** Counting over a card of eight own numbers, number by number. */
  lemma CountEight(own: seq<nat>, w: set<nat>)
    requires |own| == 8
    ensures Count(own, w) == Hit(own[0], w) + Hit(own[1], w) + Hit(own[2], w) + Hit(own[3], w)
                             + Hit(own[4], w) + Hit(own[5], w) + Hit(own[6], w) + Hit(own[7], w)
  {
    assert own[..0] == [];
    CountStep(own, w, 0);
    CountStep(own, w, 1);
    CountStep(own, w, 2);
    CountStep(own, w, 3);
    CountStep(own, w, 4);
    CountStep(own, w, 5);
    CountStep(own, w, 6);
    CountStep(own, w, 7);
    assert own[..8] == own;
  }

  /** Card 1 of the sample has 4 matches. */
  lemma SampleCard1(winning: seq<nat>, own: seq<nat>)
    requires winning == [41, 48, 83, 86, 17] && own == [83, 86, 6, 31, 17, 9, 48, 53]
    ensures Count(own, SetOf(winning)) == 4
  {
    var w := {41, 48, 83, 86, 17};
    assert SetOf(winning) == w;
    assert 83 in w && 86 in w && 6 !in w && 31 !in w && 17 in w && 9 !in w && 48 in w && 53 !in w;
    CountEight(own, w);
  }

  /** Card 2 of the sample has 2 matches. */
  lemma SampleCard2(winning: seq<nat>, own: seq<nat>)
    requires winning == [13, 32, 20, 16, 61] && own == [61, 30, 68, 82, 17, 32, 24, 19]
    ensures Count(own, SetOf(winning)) == 2
  {
    var w := {13, 32, 20, 16, 61};
    assert SetOf(winning) == w;
    assert 61 in w && 30 !in w && 68 !in w && 82 !in w && 17 !in w && 32 in w && 24 !in w && 19 !in w;
    CountEight(own, w);
  }

  /** Card 3 of the sample has 2 matches. */
  lemma SampleCard3(winning: seq<nat>, own: seq<nat>)
    requires winning == [1, 21, 53, 59, 44] && own == [69, 82, 63, 72, 16, 21, 14, 1]
    ensures Count(own, SetOf(winning)) == 2
  {
    var w := {1, 21, 53, 59, 44};
    assert SetOf(winning) == w;
    assert 69 !in w && 82 !in w && 63 !in w && 72 !in w && 16 !in w && 21 in w && 14 !in w && 1 in w;
    CountEight(own, w);
  }

  /** Card 4 of the sample has 1 matches. */
  lemma SampleCard4(winning: seq<nat>, own: seq<nat>)
    requires winning == [41, 92, 73, 84, 69] && own == [59, 84, 76, 51, 58, 5, 54, 83]
    ensures Count(own, SetOf(winning)) == 1
  {
    var w := {41, 92, 73, 84, 69};
    assert SetOf(winning) == w;
    assert 59 !in w && 84 in w && 76 !in w && 51 !in w && 58 !in w && 5 !in w && 54 !in w && 83 !in w;
    CountEight(own, w);
  }

  /** Card 5 of the sample has 0 matches. */
  lemma SampleCard5(winning: seq<nat>, own: seq<nat>)
    requires winning == [87, 83, 26, 28, 32] && own == [88, 30, 70, 12, 93, 22, 82, 36]
    ensures Count(own, SetOf(winning)) == 0
  {
    var w := {87, 83, 26, 28, 32};
    assert SetOf(winning) == w;
    assert 88 !in w && 30 !in w && 70 !in w && 12 !in w && 93 !in w && 22 !in w && 82 !in w && 36 !in w;
    CountEight(own, w);
  }

  /** Card 6 of the sample has 0 matches. */
  lemma SampleCard6(winning: seq<nat>, own: seq<nat>)
    requires winning == [31, 18, 13, 56, 72] && own == [74, 77, 10, 23, 35, 67, 36, 11]
    ensures Count(own, SetOf(winning)) == 0
  {
    var w := {31, 18, 13, 56, 72};
    assert SetOf(winning) == w;
    assert 74 !in w && 77 !in w && 10 !in w && 23 !in w && 35 !in w && 67 !in w && 36 !in w && 11 !in w;
    CountEight(own, w);
  }

  /** The numbers of the six cards of the part1 test. */
  predicate SampleNumbers(winning: seq<seq<nat>>, own: seq<seq<nat>>)
  {
    && |winning| == 6 && |own| == 6
    && winning[0] == [41, 48, 83, 86, 17] && own[0] == [83, 86, 6, 31, 17, 9, 48, 53]
    && winning[1] == [13, 32, 20, 16, 61] && own[1] == [61, 30, 68, 82, 17, 32, 24, 19]
    && winning[2] == [1, 21, 53, 59, 44] && own[2] == [69, 82, 63, 72, 16, 21, 14, 1]
    && winning[3] == [41, 92, 73, 84, 69] && own[3] == [59, 84, 76, 51, 58, 5, 54, 83]
    && winning[4] == [87, 83, 26, 28, 32] && own[4] == [88, 30, 70, 12, 93, 22, 82, 36]
    && winning[5] == [31, 18, 13, 56, 72] && own[5] == [74, 77, 10, 23, 35, 67, 36, 11]
  }

  /** The sample numbers all fit in 32 bits. */
  lemma SampleFits(winning: seq<seq<nat>>, own: seq<seq<nat>>)
    requires SampleNumbers(winning, own)
    ensures forall k :: 0 <= k < 6 ==> Fits(winning[k]) && Fits(own[k])
  {
  }

  /** The sample of the part1 test, each card written with single spaces
      (`Card k: <winning> | <own>`): the cards have 4, 2, 2, 1, 0 and 0
      matches and score 8, 2, 2, 1, 0 and 0 points, 13 in all. */
  lemma Sample(lines: seq<string>, winning: seq<seq<nat>>, own: seq<seq<nat>>)
    requires SampleNumbers(winning, own)
    requires |lines| == 6 && forall k :: 0 <= k < 6 ==> lines[k] == CardLine(k + 1, winning[k], own[k])
    ensures Part1(lines).Some? && Part1(lines).value == 13
  {
    SampleMatches(lines, winning, own);
    SampleTotal(CardsOf(lines));
  }

  /** The sample cards have 4, 2, 2, 1, 0 and 0 matches. */
  lemma SampleMatches(lines: seq<string>, winning: seq<seq<nat>>, own: seq<seq<nat>>)
    requires SampleNumbers(winning, own)
    requires |lines| == 6 && forall k :: 0 <= k < 6 ==> lines[k] == CardLine(k + 1, winning[k], own[k])
    ensures CardMatches(lines[0]) == Some(4) && CardMatches(lines[1]) == Some(2)
    ensures CardMatches(lines[2]) == Some(2) && CardMatches(lines[3]) == Some(1)
    ensures CardMatches(lines[4]) == Some(0) && CardMatches(lines[5]) == Some(0)
  {
    SampleFits(winning, own);
    SampleCard1(winning[0], own[0]);
    CardLineMatches(1, winning[0], own[0]);
    SampleCard2(winning[1], own[1]);
    CardLineMatches(2, winning[1], own[1]);
    SampleCard3(winning[2], own[2]);
    CardLineMatches(3, winning[2], own[2]);
    SampleCard4(winning[3], own[3]);
    CardLineMatches(4, winning[3], own[3]);
    SampleCard5(winning[4], own[4]);
    CardLineMatches(5, winning[4], own[4]);
    SampleCard6(winning[5], own[5]);
    CardLineMatches(6, winning[5], own[5]);
  }

  /** The points of the sample cards add up to 13. */
  lemma SampleTotal(ms: seq<Option<nat>>)
    requires |ms| == 6 && ms[0] == Some(4) && ms[1] == Some(2) && ms[2] == Some(2)
    requires ms[3] == Some(1) && ms[4] == Some(0) && ms[5] == Some(0)
    ensures TotalPoints(ms).Some? && TotalPoints(ms).value == 13
  {
    assert Points(4) == 8 && Points(2) == 2 && Points(1) == 1 && Points(0) == 0;
    var p1, p2, p3 := ms[..1], ms[..2], ms[..3];
    var p4, p5 := ms[..4], ms[..5];
    assert p1[..0] == [];
    assert TotalPoints(p1).Some? && TotalPoints(p1).value == 8;
    assert p2[..1] == p1;
    assert TotalPoints(p2).Some? && TotalPoints(p2).value == 10;
    assert p3[..2] == p2;
    assert TotalPoints(p3).Some? && TotalPoints(p3).value == 12;
    assert p4[..3] == p3;
    assert TotalPoints(p4).Some? && TotalPoints(p4).value == 13;
    assert p5[..4] == p4;
    assert TotalPoints(p5).Some? && TotalPoints(p5).value == 13;
    assert ms[..5] == p5;
  }
}
