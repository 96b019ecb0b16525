/** Day 4, part 2: a card with m matches wins one copy of each of the m
    cards after it, copies win like originals, and the answer is how many
    cards, originals and copies, are collected in the end. The source
    works it out with a stack: it starts with one copy of every card, and
    each card popped is collected and pushes the copies it wins. */
module Day04Part2 {
  import opened Common
  import Day04Part1

  /** A card as the pair (card number, matches); card numbers start at 1. */
  type Card = (nat, nat)

  /** Card i of the list has number i + 1. */
  predicate Numbered(cards: seq<Card>)
  {
    forall i :: 0 <= i < |cards| ==> cards[i].0 == i + 1
  }

  /** The `enumerate().map(..)` that numbers the cards, and the `expect`
      panics of their parsing, here None. */
  function NumberCards(ms: seq<Option<nat>>): (r: Option<seq<Card>>)
    ensures r.Some? <==> forall k :: 0 <= k < |ms| ==> ms[k].Some?
    ensures r.Some? ==> |r.value| == |ms| && Numbered(r.value) &&
                        forall k :: 0 <= k < |ms| ==> r.value[k].1 == ms[k].value
  {
    if ms == [] then Some([])
    else
      var init := NumberCards(ms[..|ms| - 1]);
      var last := ms[|ms| - 1];
      assert forall k :: 0 <= k < |ms| - 1 ==> ms[..|ms| - 1][k] == ms[k];
      if init.Some? && last.Some? then Some(init.value + [(|ms|, last.value)]) else None
  }

  /** The cards of the input, line i being card i + 1: they exist exactly
      when every line is a card, and card k has the matches of line k. */
  function ParseCards(lines: seq<string>): (r: Option<seq<Card>>)
    ensures r.Some? <==> forall k :: 0 <= k < |lines| ==> Day04Part1.CardMatches(lines[k]).Some?
    ensures r.Some? ==>
              |r.value| == |lines| && Numbered(r.value) &&
              forall k :: 0 <= k < |lines| ==> Day04Part1.CardMatches(lines[k]) == Some(r.value[k].1)
  {
    NumberCards(Day04Part1.CardsOf(lines))
  }

  function Min(a: nat, b: nat): nat
  {
    if a <= b then a else b
  }

  /** The card numbers that card i + 1 wins copies of, as 0-based
      positions: from i + 1 up to i + m, cut off at the end of the list. */
  function WinEnd(cards: seq<Card>, i: nat): (e: nat)
    requires i < |cards|
    ensures i + 1 <= e <= |cards|
  {
    Min(i + 1 + cards[i].1, |cards|)
  }

  /** How many cards one copy of card i + 1 yields: itself and everything
      the copies it wins yield. */
  function Won(cards: seq<Card>, i: nat): (n: nat)
    requires i < |cards|
    ensures n >= 1
    decreases |cards| - i, 1, 0
  {
    1 + WonRange(cards, i + 1, WinEnd(cards, i))
  }

  /** What the copies of the cards at positions lo .. hi - 1 yield. */
  function WonRange(cards: seq<Card>, lo: nat, hi: nat): (n: nat)
    requires lo <= hi <= |cards|
    ensures n >= hi - lo
    decreases |cards| - lo + 1, 0, hi - lo
  {
    if lo == hi then 0 else WonRange(cards, lo, hi - 1) + Won(cards, hi - 1)
  }

  /** c is a card of the list: the card its number names. */
  predicate IsCard(cards: seq<Card>, c: Card)
  {
    1 <= c.0 <= |cards| && c == cards[c.0 - 1]
  }

  /** Every card on the stack is a card of the list. */
  predicate OfList(cards: seq<Card>, stack: seq<Card>)
  {
    forall j :: 0 <= j < |stack| ==> IsCard(cards, stack[j])
  }

  /** What the cards on the stack still yield. */
  function Pending(cards: seq<Card>, stack: seq<Card>): nat
    requires OfList(cards, stack)
  {
    if stack == [] then 0
    else
      var c := stack[|stack| - 1];
      Pending(cards, stack[..|stack| - 1]) + Won(cards, c.0 - 1)
  }

  /** The answer: what one copy of each card yields. */
  function Total(cards: seq<Card>): nat
    requires Numbered(cards)
  {
    Pending(cards, cards)
  }

  /** Card i + 1 wins copies past the last card: `cards[ndx]` panics. */
  predicate OverflowAt(cards: seq<Card>, i: nat)
    requires i < |cards|
  {
    i + 1 + cards[i].1 > |cards|
  }

  predicate Overflows(cards: seq<Card>)
  {
    exists i :: 0 <= i < |cards| && OverflowAt(cards, i)
  }

  /** The stack splits over a concatenation. */
  lemma {:induction false} PendingConcat(cards: seq<Card>, a: seq<Card>, b: seq<Card>)
    requires OfList(cards, a) && OfList(cards, b)
    ensures OfList(cards, a + b)
    ensures Pending(cards, a + b) == Pending(cards, a) + Pending(cards, b)
  {
    if b == [] {
      assert a + b == a;
    } else {
      var b' := b[..|b| - 1];
      PendingConcat(cards, a, b');
      assert (a + b)[..|a + b| - 1] == a + b';
      assert (a + b)[|a + b| - 1] == b[|b| - 1];
    }
  }

  /** The copies pushed for the positions lo .. hi - 1 yield WonRange. */
  lemma {:induction false} PendingSlice(cards: seq<Card>, lo: nat, hi: nat)
    requires Numbered(cards) && lo <= hi <= |cards|
    ensures OfList(cards, cards[lo..hi])
    ensures Pending(cards, cards[lo..hi]) == WonRange(cards, lo, hi)
  {
    if lo < hi {
      PendingSlice(cards, lo, hi - 1);
      assert cards[lo..hi][..hi - 1 - lo] == cards[lo..hi - 1];
    }
  }

  /** The top card of a stack yields on top of the rest. */
  lemma PendingSnoc(cards: seq<Card>, stack: seq<Card>, base: seq<Card>, card: Card)
    requires OfList(cards, stack) && stack != []
    requires base == stack[..|stack| - 1] && card == stack[|stack| - 1]
    ensures OfList(cards, base)
    ensures Pending(cards, stack) == Pending(cards, base) + Won(cards, card.0 - 1)
  {
    assert IsCard(cards, card);
  }

  /** A card whose copies stay within the list yields itself and what
      those copies yield. */
  lemma WonUnfold(cards: seq<Card>, card: Card)
    requires IsCard(cards, card) && !OverflowAt(cards, card.0 - 1)
    ensures Won(cards, card.0 - 1) == 1 + WonRange(cards, card.0, card.0 + card.1)
  {
  }

  /** The bookkeeping of a pop: the stack before is the rest plus the
      card, the stack after is the rest plus the copies, and the copies
      yield one less than the card. */
  lemma PopArith(cards: seq<Card>, before: seq<Card>, base: seq<Card>, slice: seq<Card>, after: seq<Card>, w: nat)
    requires OfList(cards, before) && OfList(cards, base) && OfList(cards, slice) && OfList(cards, after)
    requires Pending(cards, before) == Pending(cards, base) + w
    requires w == 1 + Pending(cards, slice)
    requires Pending(cards, after) == Pending(cards, base) + Pending(cards, slice)
    ensures Pending(cards, after) + 1 == Pending(cards, before)
  {
  }

  /** The copies a card wins, taken together, yield one less than the
      card itself. */
  lemma CopiesYield(cards: seq<Card>, card: Card)
    requires Numbered(cards) && IsCard(cards, card) && !OverflowAt(cards, card.0 - 1)
    ensures OfList(cards, cards[card.0..card.0 + card.1])
    ensures Won(cards, card.0 - 1) == 1 + Pending(cards, cards[card.0..card.0 + card.1])
  {
    WonUnfold(cards, card);
    PendingSlice(cards, card.0, card.0 + card.1);
  }

  /** Popping a card from the top of a stack and pushing the copies it
      wins leaves one less to collect. */
  lemma PopPending(cards: seq<Card>, before: seq<Card>, after: seq<Card>, card: Card)
    requires Numbered(cards) && IsCard(cards, card) && !OverflowAt(cards, card.0 - 1)
    requires OfList(cards, before) && before != [] && before[|before| - 1] == card
    requires after == before[..|before| - 1] + cards[card.0..card.0 + card.1]
    ensures OfList(cards, after)
    ensures Pending(cards, after) + 1 == Pending(cards, before)
  {
    var base := before[..|before| - 1];
    var slice := cards[card.0..card.0 + card.1];
    PendingSnoc(cards, before, base, card);
    CopiesYield(cards, card);
    PendingConcat(cards, base, slice);
    PopArith(cards, before, base, slice, after, Won(cards, card.0 - 1));
  }

  /** When the stack is down to the original cards, its top is the last of
      them. */
  lemma OriginalTop(cards: seq<Card>, before: seq<Card>, p: nat)
    requires Numbered(cards) && 0 < p <= |cards| && |before| == p && before[..p] == cards[..p]
    ensures before[p - 1] == cards[p - 1] && before[p - 1].0 == p
  {
    assert before[..p][p - 1] == cards[..p][p - 1];
  }

  /** The `if winning_numbers > 0` block: push a copy of each card the
      popped card wins, in order; None where `cards[ndx]` runs past the
      last card. */
  method PushCopies(cards: seq<Card>, stack: seq<Card>, card: Card) returns (r: Option<seq<Card>>)
    requires Numbered(cards) && IsCard(cards, card)
    ensures r.None? <==> OverflowAt(cards, card.0 - 1)
    ensures r.Some? ==> r.value == stack + cards[card.0..card.0 + card.1]
  {
    var cardsToProcess := stack;
    var winningNumbers := card.1;
    if winningNumbers > 0 {
      var nextCardNdx := card.0;
      var lastCardNdx := card.0 + winningNumbers;
      for ndx := nextCardNdx to lastCardNdx
        invariant ndx <= |cards|
        invariant cardsToProcess == stack + cards[nextCardNdx..ndx]
      {
        if ndx >= |cards| {
          return None;
        }
        cardsToProcess := cardsToProcess + [cards[ndx]];
        assert cards[nextCardNdx..ndx + 1] == cards[nextCardNdx..ndx] + [cards[ndx]];
      }
    } else {
      assert cards[card.0..card.0] == [] && stack + [] == stack;
    }
    return Some(cardsToProcess);
  }

  /** After a pop, the original cards still at the bottom of the stack
      are kept, one fewer when the popped card was the last of them. */
  lemma PrefixKept(cards: seq<Card>, before: seq<Card>, base: seq<Card>, after: seq<Card>, p: nat, q: nat)
    requires p <= |cards| && p <= |before| && before[..p] == cards[..p]
    requires before != [] && base == before[..|before| - 1] && |base| <= |after| && after[..|base|] == base
    requires q == (if |before| == p then p - 1 else p)
    ensures q <= |cards| && q <= |after| && after[..q] == cards[..q]
  {
    assert after[..q] == base[..q];
    assert base[..q] == before[..q];
  }

  /** The cards from position p on have been popped without a panic. */
  predicate PoppedSafe(cards: seq<Card>, p: nat)
  {
    forall i :: p <= i < |cards| ==> !OverflowAt(cards, i)
  }

  /** The loop state: the stack holds cards of the list, its first p
      entries are the original cards not yet popped, and what is
      collected plus what the stack still yields is the total. */
  predicate Cascade(cards: seq<Card>, stack: seq<Card>, p: nat, collected: nat)
    requires Numbered(cards)
  {
    && OfList(cards, stack)
    && p <= |cards| && p <= |stack| && stack[..p] == cards[..p]
    && PoppedSafe(cards, p)
    && collected + Pending(cards, stack) == Total(cards)
  }

  /** One round of the loop keeps the loop state and lowers what the
      stack still yields by one. */
  lemma PopStep(cards: seq<Card>, before: seq<Card>, after: seq<Card>, p: nat, collected: nat)
    requires Numbered(cards) && before != [] && Cascade(cards, before, p, collected)
    requires var card := before[|before| - 1];
             1 <= card.0 <= |cards| && !OverflowAt(cards, card.0 - 1) &&
             after == before[..|before| - 1] + cards[card.0..card.0 + card.1]
    ensures Cascade(cards, after, if |before| == p then p - 1 else p, collected + 1)
    ensures Pending(cards, after) < Pending(cards, before)
  {
    var card := before[|before| - 1];
    var i := card.0 - 1;
    var base := before[..|before| - 1];
    assert IsCard(cards, card);
    PopPending(cards, before, after, card);
    var q: nat := if |before| == p then p - 1 else p;
    if |before| == p {
      OriginalTop(cards, before, p);
      assert card.0 == p;
      assert PoppedSafe(cards, p - 1);
    }
    PrefixKept(cards, before, base, after, p, q);
  }

  /** part2's loop: pop a card, collect it, push the copies it wins;
      None where `cards[ndx]` is out of bounds. The collected count is
      the total, and the panic happens exactly when some card wins copies
      past the last card, because every card is on the stack at the
      start. */
  method Collect(cards: seq<Card>) returns (r: Option<nat>)
    requires Numbered(cards)
    ensures r.None? <==> Overflows(cards)
    ensures r.Some? ==> r.value == Total(cards)
  {
    var collected: seq<Card> := [];
    var cardsToProcess := cards;
    assert forall i :: 0 <= i < |cards| ==> IsCard(cards, cards[i]);
    // The first p entries of the stack are the original cards not yet
    // popped.
    ghost var p: nat := |cards|;
    while cardsToProcess != []
      invariant Cascade(cards, cardsToProcess, p, |collected|)
      decreases Pending(cards, cardsToProcess)
    {
      var card := cardsToProcess[|cardsToProcess| - 1];
      assert IsCard(cards, card);
      ghost var before := cardsToProcess;
      cardsToProcess := cardsToProcess[..|cardsToProcess| - 1];
      collected := collected + [card];
      var pushed := PushCopies(cards, cardsToProcess, card);
      if pushed.None? {
        assert OverflowAt(cards, card.0 - 1);
        return None;
      }
      cardsToProcess := pushed.value;
      PopStep(cards, before, cardsToProcess, p, |collected| - 1);
      p := if |before| == p then p - 1 else p;
    }
    assert PoppedSafe(cards, 0);
    return Some(|collected|);
  }

  /** part2: parse the cards, then collect them; None where the source
      panics. */
  method Part2(lines: seq<string>) returns (r: Option<nat>)
    ensures r.Some? <==> ParseCards(lines).Some? && !Overflows(ParseCards(lines).value)
    ensures r.Some? ==> r.value == Total(ParseCards(lines).value)
  {
    var parsed := ParseCards(lines);
    if parsed.None? {
      return None;
    }
    r := Collect(parsed.value);
  }

  /** A stack never yields fewer cards than it holds. */
  lemma {:induction false} PendingAtLeast(cards: seq<Card>, stack: seq<Card>)
    requires OfList(cards, stack)
    ensures Pending(cards, stack) >= |stack|
  {
    if stack != [] {
      PendingAtLeast(cards, stack[..|stack| - 1]);
    }
  }

  /** Every original card is collected, so the answer is at least the
      number of cards. */
  lemma TotalAtLeast(cards: seq<Card>)
    requires Numbered(cards)
    ensures Total(cards) >= |cards|
  {
    assert forall i :: 0 <= i < |cards| ==> IsCard(cards, cards[i]);
    PendingAtLeast(cards, cards);
  }

  /** The card at position pos of the stack can be collected: it is on
      the stack and the copies it wins are all cards of the list. */
  predicate Pickable(cards: seq<Card>, stack: seq<Card>, pos: nat)
  {
    pos < |stack| && 1 <= stack[pos].0 && stack[pos].0 + stack[pos].1 <= |cards|
  }

  /** The stack after collecting the card at position pos: the card is
      taken out and the copies it wins go on top. */
  function Pick(cards: seq<Card>, stack: seq<Card>, pos: nat): (after: seq<Card>)
    requires Pickable(cards, stack, pos)
    ensures |after| == |stack| - 1 + stack[pos].1
  {
    var c := stack[pos];
    stack[..pos] + stack[pos + 1..] + cards[c.0..c.0 + c.1]
  }

  /** Emptying the stack in any order, as the comment on the source's
      stack allows: picks names, round by round, the stack position of
      the card collected next. None where a pick is off the stack or a
      card wins copies past the last card; otherwise the stack left at
      the end. */
  function Run(cards: seq<Card>, stack: seq<Card>, picks: seq<nat>): Option<seq<Card>>
    decreases |picks|
  {
    if picks == [] then Some(stack)
    else if !Pickable(cards, stack, picks[0]) then None
    else Run(cards, Pick(cards, stack, picks[0]), picks[1..])
  }

  /** Taking out the card at any position leaves what the rest of the
      stack yields. */
  lemma PendingRemove(cards: seq<Card>, stack: seq<Card>, pos: nat)
    requires OfList(cards, stack) && pos < |stack|
    ensures OfList(cards, stack[..pos] + stack[pos + 1..])
    ensures Pending(cards, stack[..pos] + stack[pos + 1..]) + Won(cards, stack[pos].0 - 1) == Pending(cards, stack)
  {
    var a, b := stack[..pos], stack[pos + 1..];
    var one: seq<Card> := [stack[pos]];
    assert stack == a + one + b;
    assert OfList(cards, one) && one[..0] == [];
    assert Pending(cards, one) == Won(cards, stack[pos].0 - 1);
    PendingConcat(cards, a, one);
    PendingConcat(cards, a + one, b);
    PendingConcat(cards, a, b);
    assert Pending(cards, stack) == Pending(cards, a) + Pending(cards, one) + Pending(cards, b);
  }

  /** Collecting the card at any position of the stack, not only the
      top, leaves one less to collect. */
  lemma PickPending(cards: seq<Card>, stack: seq<Card>, pos: nat)
    requires Numbered(cards) && OfList(cards, stack) && Pickable(cards, stack, pos)
    ensures OfList(cards, Pick(cards, stack, pos))
    ensures Pending(cards, Pick(cards, stack, pos)) + 1 == Pending(cards, stack)
  {
    var c := stack[pos];
    assert IsCard(cards, c);
    var rest := stack[..pos] + stack[pos + 1..];
    var slice := cards[c.0..c.0 + c.1];
    PendingRemove(cards, stack, pos);
    CopiesYield(cards, c);
    PendingConcat(cards, rest, slice);
    var after := Pick(cards, stack, pos);
    assert after == rest + slice;
    PopArith(cards, stack, rest, slice, after, Won(cards, c.0 - 1));
  }

  /** Processing order does not matter: every order that empties the
      stack collects the same number of cards, what the stack yields. */
  lemma {:induction false} RunCollects(cards: seq<Card>, stack: seq<Card>, picks: seq<nat>)
    requires Numbered(cards) && OfList(cards, stack)
    requires Run(cards, stack, picks) == Some([])
    ensures |picks| == Pending(cards, stack)
    decreases |picks|
  {
    if picks != [] {
      var after := Pick(cards, stack, picks[0]);
      PickPending(cards, stack, picks[0]);
      RunCollects(cards, after, picks[1..]);
    }
  }

  /** The cards of the sample: card k + 1 has 4, 2, 2, 1, 0 and 0
      matches. */
  predicate SampleCards(cards: seq<Card>)
  {
    && |cards| == 6 && Numbered(cards)
    && cards[0].1 == 4 && cards[1].1 == 2 && cards[2].1 == 2
    && cards[3].1 == 1 && cards[4].1 == 0 && cards[5].1 == 0
  }

  /** The test of part2: no card wins past the last one, and the cards
      yield 15, 7, 4, 2, 1 and 1, 30 in all. */
  lemma SampleTotal(cards: seq<Card>)
    requires SampleCards(cards)
    ensures !Overflows(cards)
    ensures Total(cards) == 30
  {
    assert !OverflowAt(cards, 0) && !OverflowAt(cards, 1) && !OverflowAt(cards, 2);
    assert !OverflowAt(cards, 3) && !OverflowAt(cards, 4) && !OverflowAt(cards, 5);
    assert Won(cards, 5) == 1;
    assert Won(cards, 4) == 1;
    assert WonRange(cards, 4, 5) == 1;
    assert Won(cards, 3) == 2;
    assert WonRange(cards, 3, 4) == 2;
    assert WonRange(cards, 3, 5) == 3;
    assert Won(cards, 2) == 4;
    assert WonRange(cards, 2, 3) == 4;
    assert WonRange(cards, 2, 4) == 6;
    assert Won(cards, 1) == 7;
    assert WonRange(cards, 1, 2) == 7;
    assert WonRange(cards, 1, 3) == 11;
    assert WonRange(cards, 1, 4) == 13;
    assert WonRange(cards, 1, 5) == 14;
    assert Won(cards, 0) == 15;
    assert WonRange(cards, 0, 1) == 15;
    assert WonRange(cards, 0, 2) == 22;
    assert WonRange(cards, 0, 3) == 26;
    assert WonRange(cards, 0, 4) == 28;
    assert WonRange(cards, 0, 5) == 29;
    PendingSlice(cards, 0, 6);
    assert cards[0..6] == cards;
    assert WonRange(cards, 0, 6) == 30;
  }

  /** The sample's match counts number into the sample cards. */
  lemma SampleNumbered(ms: seq<Option<nat>>)
    requires |ms| == 6
    requires ms[0] == Some(4) && ms[1] == Some(2) && ms[2] == Some(2)
    requires ms[3] == Some(1) && ms[4] == Some(0) && ms[5] == Some(0)
    ensures NumberCards(ms).Some? && SampleCards(NumberCards(ms).value)
  {
  }

  /** Lines with the sample's match counts parse to the sample cards. */
  lemma SampleParse(lines: seq<string>)
    requires |lines| == 6
    requires Day04Part1.CardMatches(lines[0]) == Some(4) && Day04Part1.CardMatches(lines[1]) == Some(2)
    requires Day04Part1.CardMatches(lines[2]) == Some(2) && Day04Part1.CardMatches(lines[3]) == Some(1)
    requires Day04Part1.CardMatches(lines[4]) == Some(0) && Day04Part1.CardMatches(lines[5]) == Some(0)
    ensures ParseCards(lines).Some? && SampleCards(ParseCards(lines).value)
  {
    SampleNumbered(Day04Part1.CardsOf(lines));
  }

  /** The sample of the part2 test, each card written with single spaces:
      the lines parse to the sample cards, and part2 answers 30. */
  lemma SampleLines(lines: seq<string>, winning: seq<seq<nat>>, own: seq<seq<nat>>)
    requires Day04Part1.SampleNumbers(winning, own)
    requires |lines| == 6 && forall k :: 0 <= k < 6 ==> lines[k] == Day04Part1.CardLine(k + 1, winning[k], own[k])
    ensures ParseCards(lines).Some? && SampleCards(ParseCards(lines).value)
    ensures !Overflows(ParseCards(lines).value) && Total(ParseCards(lines).value) == 30
  {
    Day04Part1.SampleMatches(lines, winning, own);
    SampleParse(lines);
    SampleTotal(ParseCards(lines).value);
  }
}
