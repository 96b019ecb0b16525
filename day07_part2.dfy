/** Day 7, part 2: Camel Cards with jokers. A hand's type counts the
    non-joker cards; hands are ordered by type, then card by card, and the
    winnings are each bid times its rank. */
module Day07Part2 {
  import opened Common

  /** The cards, Jack (the joker) lowest. */
  datatype Card = Jack | Two | Three | Four | Five | Six | Seven | Eight | Nine | Ten | Queen | King | Ace

  /** The discriminants the derived order compares. */
  function Rank(c: Card): (r: nat)
    ensures 1 <= r <= 14
    ensures r == 1 <==> c == Jack
  {
    match c
    case Jack => 1
    case Two => 2
    case Three => 3
    case Four => 4
    case Five => 5
    case Six => 6
    case Seven => 7
    case Eight => 8
    case Nine => 9
    case Ten => 10
    case Queen => 12
    case King => 13
    case Ace => 14
  }

  datatype HandType = HighCard | OnePair | TwoPair | ThreeOfAKind | FullHouse | FourOfAKind | FiveOfAKind

  function TypeRank(t: HandType): (r: nat)
    ensures 1 <= r <= 7
  {
    match t
    case HighCard => 1
    case OnePair => 2
    case TwoPair => 3
    case ThreeOfAKind => 4
    case FullHouse => 5
    case FourOfAKind => 6
    case FiveOfAKind => 7
  }

  datatype Hand = Hand(cards: seq<Card>, bid: nat)

  predicate FiveCards(h: Hand)
  {
    |h.cards| == 5
  }

  // -------- Counting --------

  /** How often a card occurs. */
  function Count(cards: seq<Card>, c: Card): nat
  {
    multiset(cards)[c]
  }

  /** The non-joker card a discriminant stands for (1 is the joker, 11 no card). */
  function NonJokerOfRank(r: int): (c: Option<Card>)
    ensures c.Some? ==> Rank(c.value) == r && c.value != Jack
  {
    if r == 2 then Some(Two)
    else if r == 3 then Some(Three)
    else if r == 4 then Some(Four)
    else if r == 5 then Some(Five)
    else if r == 6 then Some(Six)
    else if r == 7 then Some(Seven)
    else if r == 8 then Some(Eight)
    else if r == 9 then Some(Nine)
    else if r == 10 then Some(Ten)
    else if r == 12 then Some(Queen)
    else if r == 13 then Some(King)
    else if r == 14 then Some(Ace)
    else None
  }

  lemma NonJokerOfRankOf(c: Card)
    ensures c != Jack ==> NonJokerOfRank(Rank(c)) == Some(c)
  {
  }

  /** Group sizes are at least one. */
  predicate Positive(s: seq<nat>)
  {
    forall k :: 0 <= k < |s| ==> s[k] >= 1
  }

  /** The size of the group of the card with discriminant `r`, if it occurs. */
  function Group(cards: seq<Card>, r: int): (g: seq<nat>)
    ensures |g| <= 1 && Positive(g)
  {
    var c := NonJokerOfRank(r);
    if c.Some? && Count(cards, c.value) > 0 then [Count(cards, c.value)] else []
  }

  /** The group sizes of the non-joker cards that occur, by ascending
      discriminant from `r` on. */
  function CountsFrom(cards: seq<Card>, r: int): (vs: seq<nat>)
    decreases 15 - r
    ensures Positive(vs)
  {
    if r > 14 then [] else Group(cards, r) + CountsFrom(cards, r + 1)
  }

  /** The values a count map holds for the cards from discriminant `r` on. */
  function Values(m: map<Card, nat>, r: int): seq<nat>
    decreases 15 - r
  {
    if r > 14 then []
    else
      var c := NonJokerOfRank(r);
      (if c.Some? && c.value in m then [m[c.value]] else []) + Values(m, r + 1)
  }

  lemma CountSnoc(cards: seq<Card>, x: Card, c: Card)
    ensures Count(cards + [x], c) == Count(cards, c) + (if x == c then 1 else 0)
  {
  }

  lemma SumCons(a: nat, s: seq<nat>)
    ensures Sum([a] + s) == a + Sum(s)
  {
    assert ([a] + s)[1..] == s;
  }

  lemma SumSingle(a: nat)
    ensures Sum([a]) == a
  {
    SumCons(a, []);
  }

  /** Adding one card grows its own group by one, or opens it. */
  lemma GroupSnoc(cards: seq<Card>, x: Card, r: int)
    ensures Sum(Group(cards + [x], r)) == Sum(Group(cards, r)) + (if x != Jack && Rank(x) == r then 1 else 0)
    ensures |Group(cards + [x], r)| ==
            |Group(cards, r)| + (if x != Jack && Rank(x) == r && Count(cards, x) == 0 then 1 else 0)
  {
    NonJokerOfRankOf(x);
    var c := NonJokerOfRank(r);
    if c.Some? {
      CountSnoc(cards, x, c.value);
      if Group(cards, r) != [] { SumSingle(Count(cards, c.value)); }
      if Group(cards + [x], r) != [] { SumSingle(Count(cards + [x], c.value)); }
    }
  }

  /** Adding one card adds one to the group sizes when its discriminant is
      at least `r`. */
  lemma {:induction false} CountsFromSnocSum(cards: seq<Card>, x: Card, r: int)
    decreases 15 - r
    ensures Sum(CountsFrom(cards + [x], r)) == Sum(CountsFrom(cards, r)) + (if x != Jack && Rank(x) >= r then 1 else 0)
  {
    if r <= 14 {
      var more := cards + [x];
      var g, t := Group(cards, r), CountsFrom(cards, r + 1);
      var g', t' := Group(more, r), CountsFrom(more, r + 1);
      var here := if x != Jack && Rank(x) == r then 1 else 0;
      var later := if x != Jack && Rank(x) >= r + 1 then 1 else 0;
      assert Sum(CountsFrom(cards, r)) == Sum(g) + Sum(t) by {
        assert CountsFrom(cards, r) == g + t;
        SumConcat(g, t);
      }
      assert Sum(CountsFrom(more, r)) == Sum(g') + Sum(t') by {
        assert CountsFrom(more, r) == g' + t';
        SumConcat(g', t');
      }
      assert Sum(g') == Sum(g) + here by { GroupSnoc(cards, x, r); }
      assert Sum(t') == Sum(t) + later by { CountsFromSnocSum(cards, x, r + 1); }
    }
  }

  /** Adding one card opens a new group when its discriminant is at least
      `r` and it had not occurred yet. */
  lemma {:induction false} CountsFromSnocLength(cards: seq<Card>, x: Card, r: int)
    decreases 15 - r
    ensures |CountsFrom(cards + [x], r)| ==
            |CountsFrom(cards, r)| + (if x != Jack && Rank(x) >= r && Count(cards, x) == 0 then 1 else 0)
  {
    if r <= 14 {
      CountsFromSnocLength(cards, x, r + 1);
      var more := cards + [x];
      var g, t := Group(cards, r), CountsFrom(cards, r + 1);
      var g', t' := Group(more, r), CountsFrom(more, r + 1);
      var here := if x != Jack && Rank(x) == r && Count(cards, x) == 0 then 1 else 0;
      assert |CountsFrom(cards, r)| == |g| + |t| by {
        assert CountsFrom(cards, r) == g + t;
      }
      assert |CountsFrom(more, r)| == |g'| + |t'| by {
        assert CountsFrom(more, r) == g' + t';
      }
      assert |g'| == |g| + here by { GroupSnoc(cards, x, r); }
    }
  }

  lemma CountsFromSnoc(cards: seq<Card>, x: Card, r: int)
    ensures Sum(CountsFrom(cards + [x], r)) == Sum(CountsFrom(cards, r)) + (if x != Jack && Rank(x) >= r then 1 else 0)
    ensures |CountsFrom(cards + [x], r)| ==
            |CountsFrom(cards, r)| + (if x != Jack && Rank(x) >= r && Count(cards, x) == 0 then 1 else 0)
  {
    CountsFromSnocSum(cards, x, r);
    CountsFromSnocLength(cards, x, r);
  }

  /** Every card is a joker or is counted in exactly one group. */
  lemma {:induction false} CountsTotal(cards: seq<Card>)
    ensures Sum(CountsFrom(cards, 2)) + Count(cards, Jack) == |cards|
  {
    if cards != [] {
      var init := cards[..|cards| - 1];
      var x := cards[|cards| - 1];
      assert cards == init + [x];
      CountsTotal(init);
      CountsFromSnoc(init, x, 2);
      CountSnoc(init, x, Jack);
    } else {
      EmptyCounts(2);
    }
  }

  lemma {:induction false} EmptyCounts(r: int)
    decreases 15 - r
    ensures CountsFrom([], r) == []
  {
    if r <= 14 {
      EmptyCounts(r + 1);
    }
  }

  /** A map holding exactly the non-zero counts lists the same values. */
  lemma {:induction false} ValuesAreCounts(m: map<Card, nat>, cards: seq<Card>, r: int)
    requires forall c :: c != Jack ==> (c in m <==> Count(cards, c) > 0)
    requires forall c :: c in m ==> m[c] == Count(cards, c)
    decreases 15 - r
    ensures Values(m, r) == CountsFrom(cards, r)
  {
    if r <= 14 {
      ValuesAreCounts(m, cards, r + 1);
    }
  }

  // -------- Sorting the group sizes --------

  predicate SortedNats(s: seq<nat>)
  {
    forall i, j :: 0 <= i < j < |s| ==> s[i] <= s[j]
  }

  /** One step of insertion sort. */
  function Insert(x: nat, s: seq<nat>): seq<nat>
  {
    if s == [] then [x]
    else if x <= s[0] then [x] + s
    else [s[0]] + Insert(x, s[1..])
  }

  /** Inserting adds `x` to the values, whatever the order. */
  lemma {:induction false} InsertContents(x: nat, s: seq<nat>)
    ensures multiset(Insert(x, s)) == multiset(s) + multiset{x}
    ensures |Insert(x, s)| == |s| + 1 && Sum(Insert(x, s)) == Sum(s) + x
    ensures Insert(x, s)[0] == x || (s != [] && Insert(x, s)[0] == s[0])
  {
    if s == [] {
      SumSingle(x);
    } else if x <= s[0] {
      SumCons(x, s);
    } else {
      var rest := Insert(x, s[1..]);
      InsertContents(x, s[1..]);
      MultisetCons(s);
      SumCons(s[0], rest);
      SumCons(s[0], s[1..]);
    }
  }

  /** Inserting into an ascending list keeps it ascending. */
  lemma {:induction false} InsertSorted(x: nat, s: seq<nat>)
    requires SortedNats(s)
    ensures SortedNats(Insert(x, s))
  {
    if s != [] && x <= s[0] {
      InsertInFront(x, s);
    } else if s != [] {
      InsertSorted(x, s[1..]);
      InsertContents(x, s[1..]);
      InsertBehindHead(x, s, Insert(x, s[1..]));
    }
  }

  lemma InsertInFront(x: nat, s: seq<nat>)
    requires SortedNats(s) && s != [] && x <= s[0]
    ensures SortedNats([x] + s)
  {
    var r := [x] + s;
    forall i, j | 0 <= i < j < |r| ensures r[i] <= r[j] {
      assert r[j] == s[j - 1];
      if i > 0 {
        assert r[i] == s[i - 1];
      } else {
        assert x <= s[0] <= s[j - 1];
      }
    }
  }

  lemma InsertBehindHead(x: nat, s: seq<nat>, rest: seq<nat>)
    requires SortedNats(s) && s != [] && s[0] < x
    requires SortedNats(rest) && rest != [] && (rest[0] == x || (|s| > 1 && rest[0] == s[1]))
    ensures SortedNats([s[0]] + rest)
  {
    var r := [s[0]] + rest;
    forall i, j | 0 <= i < j < |r| ensures r[i] <= r[j] {
      assert r[j] == rest[j - 1];
      if i > 0 {
        assert r[i] == rest[i - 1];
      } else {
        assert s[0] <= rest[0];
        assert rest[0] <= rest[j - 1];
      }
    }
  }

  /** Values that are all at least one stay so under any rearrangement. */
  lemma PositivePerm(s: seq<nat>, t: seq<nat>)
    requires Positive(s) && multiset(t) == multiset(s)
    ensures Positive(t)
  {
    forall k | 0 <= k < |t| ensures t[k] >= 1 {
      assert t[k] in multiset(s);
    }
  }

  lemma MultisetCons<T>(s: seq<T>)
    requires s != []
    ensures multiset(s) == multiset{s[0]} + multiset(s[1..])
  {
    assert s == [s[0]] + s[1..];
  }

  /** `card_counts.sort()`, as insertion sort. */
  function SortNats(s: seq<nat>): seq<nat>
  {
    if s == [] then [] else Insert(s[0], SortNats(s[1..]))
  }

  /** The sorted counts are ascending, the same values, and so have the same sum. */
  lemma {:induction false} SortNatsSpec(s: seq<nat>)
    ensures SortedNats(SortNats(s)) && multiset(SortNats(s)) == multiset(s)
    ensures |SortNats(s)| == |s| && Sum(SortNats(s)) == Sum(s)
  {
    if s != [] {
      SortNatsSpec(s[1..]);
      InsertSorted(s[0], SortNats(s[1..]));
      InsertContents(s[0], SortNats(s[1..]));
      MultisetCons(s);
      SumCons(s[0], s[1..]);
    }
  }

  /** Two ascending lists of the same values are the same list. */
  lemma {:induction false} SortedNatsUnique(s: seq<nat>, t: seq<nat>)
    requires SortedNats(s) && SortedNats(t) && multiset(s) == multiset(t)
    ensures s == t
  {
    assert |s| == |multiset(s)| == |multiset(t)| == |t|;
    if s != [] {
      var i, j := SameElements(s, t);
      assert s[0] <= s[i] == t[0] <= t[j] == s[0];
      DropEqualHeads(s, t);
      SortedNatsUnique(s[1..], t[1..]);
      assert s == [s[0]] + s[1..] && t == [t[0]] + t[1..];
    }
  }

  /** The sorted counts are the one ascending arrangement of the counts. */
  lemma SortNatsIs(s: seq<nat>, t: seq<nat>)
    requires SortedNats(t) && multiset(t) == multiset(s)
    ensures SortNats(s) == t
  {
    SortNatsSpec(s);
    SortedNatsUnique(SortNats(s), t);
  }

  // -------- Hand types --------

  /** The usual type of a hand from its two largest groups. */
  function Classic(largest: nat, second: nat): HandType
  {
    if largest >= 5 then FiveOfAKind
    else if largest == 4 then FourOfAKind
    else if largest == 3 && second >= 2 then FullHouse
    else if largest == 3 then ThreeOfAKind
    else if largest == 2 && second >= 2 then TwoPair
    else if largest == 2 then OnePair
    else HighCard
  }

  /** The joker rule on ascending group sizes: the jokers join the largest group. */
  function JokerRule(vs: seq<nat>, jokers: nat): HandType
  {
    var largest := if |vs| >= 1 then vs[|vs| - 1] else 0;
    var second := if |vs| >= 2 then vs[|vs| - 2] else 0;
    Classic(largest + jokers, second)
  }

  /** The type of a hand under the joker rule. */
  function JokerType(cards: seq<Card>): HandType
  {
    JokerRule(SortNats(CountsFrom(cards, 2)), Count(cards, Jack))
  }

  /** The match of hand_type on the number of distinct non-joker cards and
      their sorted counts; None where it panics. */
  function TableType(n: nat, vs: seq<nat>): Option<HandType>
  {
    if n == 0 || n == 1 then Some(FiveOfAKind)
    else if n == 2 then
      if vs == [1, 1] || vs == [1, 2] || vs == [1, 3] || vs == [1, 4] then Some(FourOfAKind)
      else if vs == [2, 2] || vs == [2, 3] then Some(FullHouse)
      else None
    else if n == 3 then
      if vs == [1, 1, 1] || vs == [1, 1, 2] || vs == [1, 1, 3] then Some(ThreeOfAKind)
      else if vs == [1, 2, 2] then Some(TwoPair)
      else None
    else if n == 4 then Some(OnePair)
    else if n == 5 then Some(HighCard)
    else None
  }

  lemma {:induction false} LengthAtMostSum(vs: seq<nat>)
    requires Positive(vs)
    ensures |vs| <= Sum(vs)
  {
    if vs != [] {
      LengthAtMostSum(vs[1..]);
    }
  }

  /** The table covers every way five cards can group, so none of its
      panics can happen, and it agrees with the joker rule: the jokers
      always join the largest group. */
  lemma TableIsJokerRule(vs: seq<nat>, jokers: nat)
    requires SortedNats(vs) && Positive(vs)
    requires Sum(vs) + jokers == 5
    ensures TableType(|vs|, vs) == Some(JokerRule(vs, jokers))
  {
    LengthAtMostSum(vs);
    if |vs| == 1 {
      SumPrefix(vs, 1);
    } else if |vs| == 2 {
      SumPrefix(vs, 2);
      TableTwo(vs, jokers);
    } else if |vs| == 3 {
      SumPrefix(vs, 3);
      TableThree(vs, jokers);
    } else if |vs| == 4 {
      SumPrefix(vs, 4);
      assert vs[3] + jokers == 2 && vs[2] == 1;
    } else if |vs| == 5 {
      SumPrefix(vs, 5);
      assert vs[4] == 1 && jokers == 0;
    }
  }

  /** The sum of a sequence of up to five values, written out. */
  lemma SumPrefix(vs: seq<nat>, n: nat)
    requires 1 <= n <= 5 && |vs| == n
    ensures Sum(vs) == vs[0] + (if n > 1 then vs[1] else 0) + (if n > 2 then vs[2] else 0)
                        + (if n > 3 then vs[3] else 0) + (if n > 4 then vs[4] else 0)
  {
    var t := vs[1..];
    assert Sum(vs) == vs[0] + Sum(t);
    if n > 1 {
      assert Sum(t) == t[0] + Sum(t[1..]);
      if n > 2 {
        var u := t[1..];
        assert Sum(u) == u[0] + Sum(u[1..]);
        if n > 3 {
          var w := u[1..];
          assert Sum(w) == w[0] + Sum(w[1..]);
          if n > 4 {
            assert Sum(w[1..]) == w[1..][0] + Sum(w[1..][1..]);
          }
        }
      }
    }
  }

  lemma TableTwo(vs: seq<nat>, jokers: nat)
    requires |vs| == 2 && 1 <= vs[0] <= vs[1] && vs[0] + vs[1] + jokers == 5
    ensures TableType(2, vs) == Some(Classic(vs[1] + jokers, vs[0]))
  {
    assert vs == [vs[0], vs[1]];
  }

  lemma TableThree(vs: seq<nat>, jokers: nat)
    requires |vs| == 3 && 1 <= vs[0] <= vs[1] <= vs[2] && vs[0] + vs[1] + vs[2] + jokers == 5
    ensures TableType(3, vs) == Some(Classic(vs[2] + jokers, vs[1]))
  {
    assert vs == [vs[0], vs[1], vs[2]];
  }

  /** The count map hand_type builds, one card at a time. */
  function CountMap(cards: seq<Card>): map<Card, nat>
  {
    if cards == [] then map[]
    else
      var m := CountMap(cards[..|cards| - 1]);
      var x := cards[|cards| - 1];
      if x == Jack then m else m[x := (if x in m then m[x] else 0) + 1]
  }

  /** The map holds the count of every card but the joker that occurs. */
  lemma {:induction false} CountMapCounts(cards: seq<Card>)
    ensures forall c :: c in CountMap(cards) <==> c != Jack && Count(cards, c) > 0
    ensures forall c :: c in CountMap(cards) ==> CountMap(cards)[c] == Count(cards, c)
    ensures |CountMap(cards)| == |CountsFrom(cards, 2)|
  {
    if cards == [] {
      EmptyCounts(2);
    } else {
      var init := cards[..|cards| - 1];
      var x := cards[|cards| - 1];
      assert cards == init + [x];
      CountMapCounts(init);
      CountMapStep(init, x);
      CountsFromSnoc(init, x, 2);
    }
  }

  lemma CountMapStep(init: seq<Card>, x: Card)
    requires forall c :: c in CountMap(init) <==> c != Jack && Count(init, c) > 0
    requires forall c :: c in CountMap(init) ==> CountMap(init)[c] == Count(init, c)
    ensures forall c :: c in CountMap(init + [x]) <==> c != Jack && Count(init + [x], c) > 0
    ensures forall c :: c in CountMap(init + [x]) ==> CountMap(init + [x])[c] == Count(init + [x], c)
    ensures |CountMap(init + [x])| == |CountMap(init)| + (if x != Jack && Count(init, x) == 0 then 1 else 0)
  {
    assert (init + [x])[..|init|] == init;
    forall c ensures Count(init + [x], c) == Count(init, c) + (if x == c then 1 else 0) {
      CountSnoc(init, x, c);
    }
  }

  /** What the table makes of the counted map is the joker rule. */
  lemma TableOfCountMap(cards: seq<Card>)
    requires |cards| == 5
    ensures TableType(|CountMap(cards)|, SortNats(Values(CountMap(cards), 2))) == Some(JokerType(cards))
  {
    var m := CountMap(cards);
    CountMapCounts(cards);
    ValuesAreCounts(m, cards, 2);
    assert Values(m, 2) == CountsFrom(cards, 2);
    var vs := SortNats(CountsFrom(cards, 2));
    SortNatsSpec(CountsFrom(cards, 2));
    PositivePerm(CountsFrom(cards, 2), vs);
    assert |m| == |vs|;
    CountsTotal(cards);
    TableIsJokerRule(vs, Count(cards, Jack));
  }

  /** Hand::hand_type: count the non-joker cards in a map, then decide by
      the number of distinct cards and their sorted counts. */
  method HandTypeOf(cards: seq<Card>) returns (t: HandType)
    requires |cards| == 5
    ensures t == JokerType(cards)
  {
    var counts: map<Card, nat> := map[];
    for i := 0 to 5
      invariant counts == CountMap(cards[..i])
    {
      var card := cards[i];
      assert cards[..i + 1][..i] == cards[..i];
      if card != Jack {
        var count := if card in counts then counts[card] else 0;
        counts := counts[card := count + 1];
      }
    }
    assert cards[..5] == cards;
    TableOfCountMap(cards);
    var vs := SortNats(Values(counts, 2));
    t := TableType(|counts|, vs).value;
  }

  /** The counts never include the joker: a hand of jokers alone, or of
      jokers and one other card, is five of a kind. */
  lemma JokersAreWild(cards: seq<Card>)
    requires cards == [Jack, Jack, Jack, Jack, Jack]
    ensures JokerType(cards) == FiveOfAKind
  {
    JokersAreWildPresent(cards);
    JokerTypeOfPresent(cards, [], [], []);
  }

  lemma JokersAreWildPresent(cards: seq<Card>)
    requires cards == [Jack, Jack, Jack, Jack, Jack]
    ensures Count(cards, Jack) == 5
    ensures Present(cards, [], 2)
  {
    forall c | Count(cards, c) > 0 ensures c == Jack {
      assert c in multiset(cards);
    }
  }

  lemma JokersJoinPair(cards: seq<Card>)
    requires cards == [Jack, Two, Jack, Two, Jack]
    ensures JokerType(cards) == FiveOfAKind
  {
    JokersJoinPairPresent(cards);
    JokerTypeOfPresent(cards, [Two], [2], [2]);
  }

  lemma JokersJoinPairPresent(cards: seq<Card>)
    requires cards == [Jack, Two, Jack, Two, Jack]
    ensures Count(cards, Jack) == 3 && Count(cards, Two) == 2
    ensures Present(cards, [Two], 2)
  {
    forall c | Count(cards, c) > 0 ensures c == Jack || c == Two {
      assert c in multiset(cards);
    }
  }

  // -------- Ordering --------

  datatype Ordering = Less | Equal | Greater

  /** Card by card: the first position where the cards differ decides. */
  predicate CardsLess(x: seq<Card>, y: seq<Card>)
  {
    x != [] && y != [] && (Rank(x[0]) < Rank(y[0]) || (x[0] == y[0] && CardsLess(x[1..], y[1..])))
  }

  /** Hand::cmp as a strict order: type first, then the cards. */
  predicate HandLess(x: seq<Card>, y: seq<Card>)
  {
    TypeRank(JokerType(x)) < TypeRank(JokerType(y))
    || (TypeRank(JokerType(x)) == TypeRank(JokerType(y)) && CardsLess(x, y))
  }

  lemma RankInjective(a: Card, b: Card)
    ensures Rank(a) == Rank(b) ==> a == b
  {
  }

  lemma {:induction false} CardsLessAt(x: seq<Card>, y: seq<Card>, i: nat)
    requires i < |x| && i < |y| && x[..i] == y[..i]
    ensures Rank(x[i]) < Rank(y[i]) ==> CardsLess(x, y)
  {
    if i > 0 {
      assert x[0] == x[..i][0] == y[..i][0] == y[0];
      assert x[1..][..i - 1] == x[..i][1..] == y[..i][1..] == y[1..][..i - 1];
      CardsLessAt(x[1..], y[1..], i - 1);
    }
  }

  lemma {:induction false} CardsLessAsymmetric(x: seq<Card>, y: seq<Card>)
    ensures !(CardsLess(x, y) && CardsLess(y, x))
  {
    if x != [] && y != [] && x[0] == y[0] {
      CardsLessAsymmetric(x[1..], y[1..]);
    }
  }

  lemma {:induction false} CardsLessTransitive(x: seq<Card>, y: seq<Card>, z: seq<Card>)
    requires CardsLess(x, y) && CardsLess(y, z)
    ensures CardsLess(x, z)
  {
    if x[0] == y[0] && y[0] == z[0] {
      CardsLessTransitive(x[1..], y[1..], z[1..]);
    }
  }

  lemma {:induction false} CardsLessTotal(x: seq<Card>, y: seq<Card>)
    requires |x| == |y| && x != y
    ensures CardsLess(x, y) || CardsLess(y, x)
  {
    if x[0] == y[0] {
      assert x == [x[0]] + x[1..] && y == [y[0]] + y[1..];
      CardsLessTotal(x[1..], y[1..]);
    } else {
      RankInjective(x[0], y[0]);
    }
  }

  /** Hand::cmp orders hands strictly and totally: distinct card sequences
      of equal length are always ranked one way round, never both. */
  lemma HandLessStrictTotal(x: seq<Card>, y: seq<Card>, z: seq<Card>)
    ensures !HandLess(x, x)
    ensures !(HandLess(x, y) && HandLess(y, x))
    ensures HandLess(x, y) && HandLess(y, z) ==> HandLess(x, z)
    ensures |x| == |y| && x != y ==> HandLess(x, y) || HandLess(y, x)
  {
    CardsLessAsymmetric(x, x);
    CardsLessAsymmetric(x, y);
    if HandLess(x, y) && HandLess(y, z) && CardsLess(x, y) && CardsLess(y, z) {
      CardsLessTransitive(x, y, z);
    }
    if |x| == |y| && x != y {
      CardsLessTotal(x, y);
    }
  }

  /** Hand::cmp: compare the types, then the cards position by position;
      equal card sequences panic, which is None here. */
  method Compare(a: Hand, b: Hand) returns (o: Option<Ordering>)
    requires FiveCards(a) && FiveCards(b)
    ensures o.None? <==> a.cards == b.cards
    ensures o == Some(Less) <==> HandLess(a.cards, b.cards)
    ensures o == Some(Greater) <==> HandLess(b.cards, a.cards)
    ensures o != Some(Equal)
  {
    HandLessStrictTotal(a.cards, b.cards, b.cards);
    var ta := HandTypeOf(a.cards);
    var tb := HandTypeOf(b.cards);
    if TypeRank(ta) < TypeRank(tb) {
      return Some(Less);
    } else if TypeRank(ta) > TypeRank(tb) {
      return Some(Greater);
    }
    for i := 0 to 5
      invariant a.cards[..i] == b.cards[..i]
    {
      if Rank(a.cards[i]) < Rank(b.cards[i]) {
        CardsLessAt(a.cards, b.cards, i);
        return Some(Less);
      } else if Rank(a.cards[i]) > Rank(b.cards[i]) {
        CardsLessAt(b.cards, a.cards, i);
        return Some(Greater);
      }
      RankInjective(a.cards[i], b.cards[i]);
      PrefixStep(a.cards, b.cards, i);
    }
    PrefixWhole(a.cards, b.cards);
    o := None;
  }

  /** Equal prefixes followed by equal entries are longer equal prefixes. */
  lemma PrefixStep<T>(x: seq<T>, y: seq<T>, i: nat)
    requires i < |x| && i < |y| && x[..i] == y[..i] && x[i] == y[i]
    ensures x[..i + 1] == y[..i + 1]
  {
    assert x[..i + 1] == x[..i] + [x[i]];
    assert y[..i + 1] == y[..i] + [y[i]];
  }

  lemma PrefixWhole<T>(x: seq<T>, y: seq<T>)
    requires |x| == |y| && x[..|x|] == y[..|y|]
    ensures x == y
  {
    assert x[..|x|] == x && y[..|y|] == y;
  }

  // -------- Sorting by a strict order --------

  /** `less` is irreflexive and transitive. */
  ghost predicate StrictOrder<T(!new)>(less: (T, T) -> bool)
  {
    (forall a :: !less(a, a))
    && (forall a, b, c :: less(a, b) && less(b, c) ==> less(a, c))
  }

  /** Any two entries at different positions are ranked one way round. */
  predicate Comparable<T>(less: (T, T) -> bool, s: seq<T>)
  {
    forall i, j :: 0 <= i < j < |s| ==> less(s[i], s[j]) || less(s[j], s[i])
  }

  predicate SortedBy<T>(less: (T, T) -> bool, s: seq<T>)
  {
    forall i, j :: 0 <= i < j < |s| ==> less(s[i], s[j])
  }

  /** Insert into a strictly sorted list an element comparable with every entry. */
  function InsertBy<T(!new)>(less: (T, T) -> bool, x: T, s: seq<T>): (r: seq<T>)
    requires StrictOrder(less) && SortedBy(less, s)
    requires forall i :: 0 <= i < |s| ==> less(x, s[i]) || less(s[i], x)
    ensures SortedBy(less, r) && multiset(r) == multiset(s) + multiset{x}
    ensures r[0] == x || (s != [] && r[0] == s[0])
  {
    if s == [] then [x]
    else if less(x, s[0]) then
      assert SortedBy(less, [x] + s) by {
        forall i, j | 0 <= i < j < |[x] + s| ensures less(([x] + s)[i], ([x] + s)[j]) {
          if i == 0 && j > 1 {
            assert less(s[0], s[j - 1]);
          }
        }
      }
      [x] + s
    else
      var rest := InsertBy(less, x, s[1..]);
      InsertByBehindHead(less, x, s, rest);
      [s[0]] + rest
  }

  lemma InsertByBehindHead<T(!new)>(less: (T, T) -> bool, x: T, s: seq<T>, rest: seq<T>)
    requires StrictOrder(less) && SortedBy(less, s) && s != [] && less(s[0], x)
    requires SortedBy(less, rest) && multiset(rest) == multiset(s[1..]) + multiset{x}
    requires rest != [] && (rest[0] == x || (|s| > 1 && rest[0] == s[1]))
    ensures SortedBy(less, [s[0]] + rest) && multiset([s[0]] + rest) == multiset(s) + multiset{x}
  {
    var r := [s[0]] + rest;
    forall i, j | 0 <= i < j < |r| ensures less(r[i], r[j]) {
      assert r[j] == rest[j - 1];
      if i > 0 {
        assert r[i] == rest[i - 1];
      } else {
        assert less(s[0], rest[0]);
        if j > 1 {
          assert less(rest[0], rest[j - 1]);
        }
      }
    }
    MultisetCons(s);
  }

  /** A stand-in for the library sort: ascending under `less`. */
  function SortBy<T(!new)>(less: (T, T) -> bool, s: seq<T>): (r: seq<T>)
    requires StrictOrder(less) && Comparable(less, s)
    ensures SortedBy(less, r) && multiset(r) == multiset(s)
  {
    if s == [] then []
    else
      MultisetCons(s);
      var rest := SortBy(less, s[1..]);
      forall k | 0 <= k < |rest| ensures less(s[0], rest[k]) || less(rest[k], s[0]) {
        assert rest[k] in multiset(s[1..]);
        var m :| 0 <= m < |s[1..]| && s[1..][m] == rest[k];
        assert s[m + 1] == rest[k];
      }
      InsertBy(less, s[0], rest)
  }

  /** Two strictly sorted lists of the same elements are the same list:
      the result does not depend on the sorting algorithm. */
  lemma {:induction false} SortedUnique<T(!new)>(less: (T, T) -> bool, s: seq<T>, t: seq<T>)
    requires StrictOrder(less) && SortedBy(less, s) && SortedBy(less, t) && multiset(s) == multiset(t)
    ensures s == t
  {
    if s != [] {
      var i, j := SameElements(s, t);
      assert s[0] == t[0];
      DropEqualHeads(s, t);
      SortedUnique(less, s[1..], t[1..]);
    }
  }

  /** Where the heads of two lists with the same elements sit in the other. */
  lemma SameElements<T>(s: seq<T>, t: seq<T>) returns (i: nat, j: nat)
    requires s != [] && multiset(s) == multiset(t)
    ensures i < |s| && s[i] == t[0] && j < |t| && t[j] == s[0]
  {
    assert |t| == |multiset(t)| == |multiset(s)| == |s|;
    assert s[0] in multiset(t) && t[0] in multiset(s);
    i :| 0 <= i < |s| && s[i] == t[0];
    j :| 0 <= j < |t| && t[j] == s[0];
  }

  lemma DropEqualHeads<T>(s: seq<T>, t: seq<T>)
    requires s != [] && t != [] && s[0] == t[0] && multiset(s) == multiset(t)
    ensures multiset(s[1..]) == multiset(t[1..])
  {
    MultisetCons(s);
    MultisetCons(t);
    assert multiset(s[1..]) == multiset(s) - multiset{s[0]};
    assert multiset(t[1..]) == multiset(t) - multiset{t[0]};
  }

  // -------- Sorting hands and the winnings (part2) --------

  /** Hand::cmp on whole hands (the bid plays no part). */
  function ByHand(a: Hand, b: Hand): bool
  {
    HandLess(a.cards, b.cards)
  }

  predicate DistinctCards(hs: seq<Hand>)
  {
    forall i, j :: 0 <= i < j < |hs| ==> hs[i].cards != hs[j].cards
  }

  predicate AllFiveCards(hs: seq<Hand>)
  {
    forall i :: 0 <= i < |hs| ==> FiveCards(hs[i])
  }

  lemma ByHandStrict()
    ensures StrictOrder(ByHand)
  {
    forall a: Hand, b: Hand, c: Hand | ByHand(a, b) && ByHand(b, c) ensures ByHand(a, c) {
      HandLessStrictTotal(a.cards, b.cards, c.cards);
    }
    forall a: Hand ensures !ByHand(a, a) {
      HandLessStrictTotal(a.cards, a.cards, a.cards);
    }
  }

  /** Five-card hands with distinct card sequences are all ranked. */
  lemma ByHandComparable(hs: seq<Hand>)
    requires AllFiveCards(hs) && DistinctCards(hs)
    ensures Comparable(ByHand, hs)
  {
    forall i, j | 0 <= i < j < |hs| ensures ByHand(hs[i], hs[j]) || ByHand(hs[j], hs[i]) {
      HandLessStrictTotal(hs[i].cards, hs[j].cards, hs[j].cards);
    }
  }

  /** Each bid times its 1-based rank. */
  function Winnings(hs: seq<Hand>): nat
  {
    if hs == [] then 0 else Winnings(hs[..|hs| - 1]) + hs[|hs| - 1].bid * |hs|
  }

  /** part2 on parsed hands: sort, then sum bid times rank. Equal card
      sequences make Hand::cmp panic during the sort, which is None. */
  function TotalWinnings(hs: seq<Hand>): (r: Option<nat>)
    requires AllFiveCards(hs)
    ensures r.Some? <==> DistinctCards(hs)
    ensures r.Some? ==> forall s :: SortedBy(ByHand, s) && multiset(s) == multiset(hs) ==> r.value == Winnings(s)
  {
    if DistinctCards(hs) then
      ByHandStrict();
      ByHandComparable(hs);
      var sorted := SortBy(ByHand, hs);
      forall s | SortedBy(ByHand, s) && multiset(s) == multiset(hs) ensures Winnings(sorted) == Winnings(s) {
        SortedUnique(ByHand, sorted, s);
      }
      Some(Winnings(sorted))
    else None
  }

  // -------- Parsing --------

  /** parse_card; None where it panics. A card letter parses to the card it
      names, and any other character is the panic. */
  function ParseCard(ch: char): (r: Option<Card>)
    ensures r.Some? <==> ch in "23456789TJQKA"
    ensures r.Some? ==> CardChar(r.value) == ch
  {
    match ch
    case '2' => Some(Two)
    case '3' => Some(Three)
    case '4' => Some(Four)
    case '5' => Some(Five)
    case '6' => Some(Six)
    case '7' => Some(Seven)
    case '8' => Some(Eight)
    case '9' => Some(Nine)
    case 'T' => Some(Ten)
    case 'J' => Some(Jack)
    case 'Q' => Some(Queen)
    case 'K' => Some(King)
    case 'A' => Some(Ace)
    case _ => None
  }

  function CardChar(c: Card): char
  {
    match c
    case Two => '2'
    case Three => '3'
    case Four => '4'
    case Five => '5'
    case Six => '6'
    case Seven => '7'
    case Eight => '8'
    case Nine => '9'
    case Ten => 'T'
    case Jack => 'J'
    case Queen => 'Q'
    case King => 'K'
    case Ace => 'A'
  }

  /** parse_card accepts exactly the thirteen card letters, one per card. */
  lemma ParseCardIffCardChar(ch: char, c: Card)
    ensures ParseCard(ch) == Some(c) <==> CardChar(c) == ch
  {
  }

  /** parse_cards: every character a card and exactly five of them. */
  function ParseCards(s: string): (r: Option<seq<Card>>)
    ensures r.Some? <==> |s| == 5 && forall i :: 0 <= i < |s| ==> ParseCard(s[i]).Some?
    ensures r.Some? ==> |r.value| == 5 && forall i :: 0 <= i < 5 ==> ParseCard(s[i]) == Some(r.value[i])
  {
    if |s| == 5 && forall i :: 0 <= i < |s| ==> ParseCard(s[i]).Some? then
      Some(seq(5, i requires 0 <= i < 5 => ParseCard(s[i]).value))
    else None
  }

  function CardsText(cards: seq<Card>): (s: string)
    ensures |s| == |cards| && forall i :: 0 <= i < |s| ==> s[i] == CardChar(cards[i])
  {
    if cards == [] then [] else [CardChar(cards[0])] + CardsText(cards[1..])
  }

  /** parse_hand: the cards, a space, the bid. A hand is read exactly when
      the first space-separated piece is five card letters and the second a
      number; its cards are then spelled by the first piece, letter for
      letter, and its bid is the second. Pieces after the second are
      ignored. */
  function ParseHand(line: string): (r: Option<Hand>)
    ensures var parts := SplitOn(line, ' ');
            r.Some? <==> |parts| >= 2 && ParseCards(parts[0]).Some? && ParseNat(parts[1]).Some?
    ensures r.Some? ==> var parts := SplitOn(line, ' ');
                        FiveCards(r.value) && CardsText(r.value.cards) == parts[0] &&
                        ParseNat(parts[1]) == Some(r.value.bid)
  {
    var parts := SplitOn(line, ' ');
    if |parts| < 2 then None
    else match (ParseCards(parts[0]), ParseNat(parts[1]))
      case (Some(cards), Some(bid)) =>
        CardsSpellPiece(parts[0], cards);
        Some(Hand(cards, bid))
      case _ => None
  }

  /** The cards parse_cards reads are spelled by the text it read them
      from. */
  lemma CardsSpellPiece(piece: string, cards: seq<Card>)
    requires ParseCards(piece) == Some(cards)
    ensures CardsText(cards) == piece
  {
    forall i | 0 <= i < |piece| ensures CardsText(cards)[i] == piece[i] {
      assert ParseCard(piece[i]) == Some(cards[i]);
    }
  }

  function HandText(h: Hand): string
  {
    CardsText(h.cards) + [' '] + ShowNat(h.bid)
  }

  /** A hand written out reads back as the same hand. */
  lemma ParseHandRoundTrip(h: Hand)
    requires FiveCards(h)
    ensures ParseHand(HandText(h)) == Some(h)
  {
    var parts := [CardsText(h.cards), ShowNat(h.bid)];
    assert Join(parts, ' ') == HandText(h);
    forall k, i | 0 <= k < |parts| && 0 <= i < |parts[k]| ensures parts[k][i] != ' ' {
      if k == 1 {
        assert IsDigit(parts[k][i]);
      }
    }
    SplitOnJoin(parts, ' ');
    ShowNatValue(h.bid);
    forall i | 0 <= i < 5 ensures ParseCard(CardsText(h.cards)[i]) == Some(h.cards[i]) {
      ParseCardIffCardChar(CardsText(h.cards)[i], h.cards[i]);
    }
    var cards := ParseCards(CardsText(h.cards)).value;
    assert cards == h.cards by {
      forall i | 0 <= i < 5 ensures cards[i] == h.cards[i] {
        ParseCardIffCardChar(CardsText(h.cards)[i], cards[i]);
      }
    }
  }

  /** part2 on the lines of the input: defined exactly when every line is a
      hand and no two hands hold the same cards, and then the sum of bid
      times rank over the hands sorted by strength. */
  function Part2(lines: seq<string>): (r: Option<nat>)
    ensures r.Some? <==> ParseHands(lines).Some? && DistinctCards(ParseHands(lines).value)
    ensures r.Some? ==> forall i :: 0 <= i < |lines| ==> ParseHand(lines[i]).Some?
    ensures r.Some? ==> forall s :: SortedBy(ByHand, s) && multiset(s) == multiset(ParseHands(lines).value) ==> r.value == Winnings(s)
  {
    match ParseHands(lines)
    case None => None
    case Some(hs) => TotalWinnings(hs)
  }

  function ParseHands(lines: seq<string>): (r: Option<seq<Hand>>)
    ensures r.Some? ==> |r.value| == |lines| && AllFiveCards(r.value)
    ensures r.Some? ==> forall i :: 0 <= i < |lines| ==> ParseHand(lines[i]) == Some(r.value[i])
    ensures r.None? ==> exists i :: 0 <= i < |lines| && ParseHand(lines[i]).None?
  {
    if lines == [] then Some([])
    else match (ParseHand(lines[0]), ParseHands(lines[1..]))
      case (Some(h), Some(hs)) =>
        assert |h.cards| == 5;
        Some([h] + hs)
      case (None, _) => None
      case (_, None) =>
        assert exists i :: 0 <= i < |lines| && ParseHand(lines[i]).None? by {
          var i :| 0 <= i < |lines| - 1 && ParseHand(lines[1..][i]).None?;
          assert ParseHand(lines[i + 1]).None?;
        }
        None
  }

  // -------- The tests --------

  /** The parse_hand test. */
  lemma ParseHandExample(line: string)
    requires line == "32T3K 765"
    ensures ParseHand(line) == Some(Hand([Three, Two, Ten, Three, King], 765))
  {
    var h := Hand([Three, Two, Ten, Three, King], 765);
    ExampleHandText(h);
    ParseHandRoundTrip(h);
  }

  lemma ExampleHandText(h: Hand)
    requires h == Hand([Three, Two, Ten, Three, King], 765)
    ensures HandText(h) == "32T3K 765"
  {
    assert ShowNat(765) == "765" by {
      assert DigitChar(7) == '7' && DigitChar(6) == '6' && DigitChar(5) == '5';
    }
    assert CardsText(h.cards) == "32T3K";
  }

  /** The counts of the cards `cs`, in that order. */
  function CountsOf(cards: seq<Card>, cs: seq<Card>): seq<nat>
  {
    if cs == [] then [] else [Count(cards, cs[0])] + CountsOf(cards, cs[1..])
  }

  /** Entry by entry, the counts of the cards of `cs`. */
  lemma {:induction false} CountsOfAt(cards: seq<Card>, cs: seq<Card>)
    ensures |CountsOf(cards, cs)| == |cs|
    ensures forall i :: 0 <= i < |cs| ==> CountsOf(cards, cs)[i] == Count(cards, cs[i])
  {
    if cs != [] {
      CountsOfAt(cards, cs[1..]);
    }
  }

  /** Discriminants from `r` on at which no card occurs add no group. */
  lemma {:induction false} CountsFromSkip(cards: seq<Card>, r: int, r2: int)
    requires r <= r2 <= 15
    requires forall c :: c != Jack && r <= Rank(c) < r2 ==> Count(cards, c) == 0
    decreases r2 - r
    ensures CountsFrom(cards, r) == CountsFrom(cards, r2)
  {
    if r < r2 {
      assert Group(cards, r) == [];
      CountsFromSkip(cards, r + 1, r2);
    }
  }

  /** `cs` lists, by ascending discriminant from `r` on, exactly the
      non-joker cards that occur. */
  ghost predicate Present(cards: seq<Card>, cs: seq<Card>, r: int)
  {
    2 <= r <= 15
    && (forall i, j :: 0 <= i < j < |cs| ==> Rank(cs[i]) < Rank(cs[j]))
    && (forall i :: 0 <= i < |cs| ==> cs[i] != Jack && Rank(cs[i]) >= r && Count(cards, cs[i]) > 0)
    && (forall c :: c != Jack && Rank(c) >= r && Count(cards, c) > 0 ==> c in cs)
  }

  /** The group sizes of such cards are their counts. */
  lemma {:induction false} CountsFromPresent(cards: seq<Card>, cs: seq<Card>, r: int)
    requires Present(cards, cs, r)
    ensures CountsFrom(cards, r) == CountsOf(cards, cs)
  {
    if cs == [] {
      CountsFromSkip(cards, r, 15);
    } else {
      var c, k := cs[0], Rank(cs[0]);
      var rest := CountsOf(cards, cs[1..]);
      PresentTail(cards, cs, r);
      assert CountsFrom(cards, r) == CountsFrom(cards, k) by { CountsFromSkip(cards, r, k); }
      assert Group(cards, k) == [Count(cards, c)] by { NonJokerOfRankOf(c); }
      assert CountsFrom(cards, k + 1) == rest by { CountsFromPresent(cards, cs[1..], k + 1); }
      assert CountsFrom(cards, k) == [Count(cards, c)] + rest;
    }
  }

  lemma PresentTail(cards: seq<Card>, cs: seq<Card>, r: int)
    requires Present(cards, cs, r) && cs != []
    ensures forall d :: d != Jack && r <= Rank(d) < Rank(cs[0]) ==> Count(cards, d) == 0
    ensures Present(cards, cs[1..], Rank(cs[0]) + 1)
  {
    assert forall i :: 0 <= i < |cs| ==> Rank(cs[i]) >= Rank(cs[0]);
    forall d | d != Jack && Rank(d) >= Rank(cs[0]) + 1 && Count(cards, d) > 0 ensures d in cs[1..] {
      var i :| 0 <= i < |cs| && cs[i] == d;
      assert i != 0;
    }
  }

  /** The joker rule applied to the counts of the cards that occur. */
  lemma JokerTypeOfPresent(cards: seq<Card>, cs: seq<Card>, counts: seq<nat>, sorted: seq<nat>)
    requires Present(cards, cs, 2)
    requires |counts| == |cs| && forall i :: 0 <= i < |cs| ==> Count(cards, cs[i]) == counts[i]
    requires SortedNats(sorted) && multiset(sorted) == multiset(counts)
    ensures JokerType(cards) == JokerRule(sorted, Count(cards, Jack))
  {
    CountsFromPresent(cards, cs, 2);
    CountsOfAt(cards, cs);
    assert CountsOf(cards, cs) == counts;
    SortNatsIs(counts, sorted);
  }

  lemma TypeOfFourThrees(cards: seq<Card>)
    requires cards == [Three, Three, Three, Three, Two]
    ensures JokerType(cards) == FourOfAKind
  {
    TypeOfFourThreesPresent(cards);
    JokerTypeOfPresent(cards, [Two, Three], [1, 4], [1, 4]);
  }

  lemma TypeOfFourThreesPresent(cards: seq<Card>)
    requires cards == [Three, Three, Three, Three, Two]
    ensures Count(cards, Two) == 1 && Count(cards, Three) == 4 && Count(cards, Jack) == 0
    ensures Present(cards, [Two, Three], 2)
  {
    forall c | Count(cards, c) > 0 ensures c == Two || c == Three {
      assert c in multiset(cards);
    }
  }

  lemma TypeOfFourAces(cards: seq<Card>)
    requires cards == [Two, Ace, Ace, Ace, Ace]
    ensures JokerType(cards) == FourOfAKind
  {
    TypeOfFourAcesPresent(cards);
    JokerTypeOfPresent(cards, [Two, Ace], [1, 4], [1, 4]);
  }

  lemma TypeOfFourAcesPresent(cards: seq<Card>)
    requires cards == [Two, Ace, Ace, Ace, Ace]
    ensures Count(cards, Two) == 1 && Count(cards, Ace) == 4 && Count(cards, Jack) == 0
    ensures Present(cards, [Two, Ace], 2)
  {
    forall c | Count(cards, c) > 0 ensures c == Two || c == Ace {
      assert c in multiset(cards);
    }
  }

  /** The ordering test: 33332 beats 2AAAA on the first card. */
  lemma OrderingExample(x: seq<Card>, y: seq<Card>)
    requires x == [Two, Ace, Ace, Ace, Ace] && y == [Three, Three, Three, Three, Two]
    ensures HandLess(x, y) && !HandLess(y, x)
  {
    TypeOfFourThrees(y);
    TypeOfFourAces(x);
    HandLessStrictTotal(x, y, y);
  }

  /** The sample hands: 32T3K is one pair. */
  lemma TypeOf32T3K(cards: seq<Card>)
    requires cards == [Three, Two, Ten, Three, King]
    ensures JokerType(cards) == OnePair
  {
    TypeOf32T3KPresent(cards);
    JokerTypeOfPresent(cards, [Two, Three, Ten, King], [1, 2, 1, 1], [1, 1, 1, 2]);
  }

  lemma TypeOf32T3KPresent(cards: seq<Card>)
    requires cards == [Three, Two, Ten, Three, King]
    ensures Count(cards, Two) == 1 && Count(cards, Three) == 2 && Count(cards, Ten) == 1 && Count(cards, King) == 1 && Count(cards, Jack) == 0
    ensures Present(cards, [Two, Three, Ten, King], 2)
  {
    forall c | Count(cards, c) > 0 ensures c == Two || c == Three || c == Ten || c == King {
      assert c in multiset(cards);
    }
  }

  /** T55J5: the joker joins the fives. */
  lemma TypeOfT55J5(cards: seq<Card>)
    requires cards == [Ten, Five, Five, Jack, Five]
    ensures JokerType(cards) == FourOfAKind
  {
    TypeOfT55J5Present(cards);
    JokerTypeOfPresent(cards, [Five, Ten], [3, 1], [1, 3]);
  }

  lemma TypeOfT55J5Present(cards: seq<Card>)
    requires cards == [Ten, Five, Five, Jack, Five]
    ensures Count(cards, Five) == 3 && Count(cards, Ten) == 1 && Count(cards, Jack) == 1
    ensures Present(cards, [Five, Ten], 2)
  {
    forall c | Count(cards, c) > 0 ensures c == Five || c == Ten || c == Jack {
      assert c in multiset(cards);
    }
  }

  /** KK677 is two pair. */
  lemma TypeOfKK677(cards: seq<Card>)
    requires cards == [King, King, Six, Seven, Seven]
    ensures JokerType(cards) == TwoPair
  {
    TypeOfKK677Present(cards);
    JokerTypeOfPresent(cards, [Six, Seven, King], [1, 2, 2], [1, 2, 2]);
  }

  lemma TypeOfKK677Present(cards: seq<Card>)
    requires cards == [King, King, Six, Seven, Seven]
    ensures Count(cards, Six) == 1 && Count(cards, Seven) == 2 && Count(cards, King) == 2 && Count(cards, Jack) == 0
    ensures Present(cards, [Six, Seven, King], 2)
  {
    forall c | Count(cards, c) > 0 ensures c == Six || c == Seven || c == King {
      assert c in multiset(cards);
    }
  }

  /** KTJJT: both jokers join the tens. */
  lemma TypeOfKTJJT(cards: seq<Card>)
    requires cards == [King, Ten, Jack, Jack, Ten]
    ensures JokerType(cards) == FourOfAKind
  {
    TypeOfKTJJTPresent(cards);
    JokerTypeOfPresent(cards, [Ten, King], [2, 1], [1, 2]);
  }

  lemma TypeOfKTJJTPresent(cards: seq<Card>)
    requires cards == [King, Ten, Jack, Jack, Ten]
    ensures Count(cards, Ten) == 2 && Count(cards, King) == 1 && Count(cards, Jack) == 2
    ensures Present(cards, [Ten, King], 2)
  {
    forall c | Count(cards, c) > 0 ensures c == Ten || c == King || c == Jack {
      assert c in multiset(cards);
    }
  }

  /** QQQJA: the joker joins the queens. */
  lemma TypeOfQQQJA(cards: seq<Card>)
    requires cards == [Queen, Queen, Queen, Jack, Ace]
    ensures JokerType(cards) == FourOfAKind
  {
    TypeOfQQQJAPresent(cards);
    JokerTypeOfPresent(cards, [Queen, Ace], [3, 1], [1, 3]);
  }

  lemma TypeOfQQQJAPresent(cards: seq<Card>)
    requires cards == [Queen, Queen, Queen, Jack, Ace]
    ensures Count(cards, Queen) == 3 && Count(cards, Ace) == 1 && Count(cards, Jack) == 1
    ensures Present(cards, [Queen, Ace], 2)
  {
    forall c | Count(cards, c) > 0 ensures c == Queen || c == Ace || c == Jack {
      assert c in multiset(cards);
    }
  }
}
