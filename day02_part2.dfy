/** Day 2, part 2: the fewest cubes of each colour that make a game
    possible, and the "power" of that set, the product of its three counts.
    Games, hands and the hand parser are those of part 1. */
module Day02Part2 {
  import opened Common
  import opened Day02Part1

  /** The largest count of a colour over the hands, or 0 for no hands. */
  function MaxCount(hands: seq<Cubes>, colour: Colour): nat
  {
    if hands == [] then 0
    else
      var m := MaxCount(hands[..|hands| - 1], colour);
      var c := Count(hands[|hands| - 1], colour);
      if c > m then c else m
  }

  /** The maximum bounds every hand, and it is one of the hands' counts
      (or 0, the starting value). */
  lemma {:induction false} MaxCountIsMax(hands: seq<Cubes>, colour: Colour)
    ensures forall i :: 0 <= i < |hands| ==> Count(hands[i], colour) <= MaxCount(hands, colour)
    ensures MaxCount(hands, colour) == 0 || exists i :: 0 <= i < |hands| && Count(hands[i], colour) == MaxCount(hands, colour)
  {
    if hands != [] {
      var init := hands[..|hands| - 1];
      MaxCountIsMax(init, colour);
      assert forall i :: 0 <= i < |init| ==> init[i] == hands[i];
    }
  }

  /** The largest count over one hand is that hand's count. */
  lemma MaxCountOne(hands: seq<Cubes>)
    ensures |hands| == 1 ==> forall colour :: MaxCount(hands, colour) == Count(hands[0], colour)
  {
    assert hands[..0] == [];
  }

  /** The smallest bag with which the game is possible (MinBagIsLeast):
      empty for no hands, and the hand itself for a single hand. */
  function MinBag(game: Game): (bag: Cubes)
    ensures game.hands == [] ==> bag == Cubes(0, 0, 0)
    ensures |game.hands| == 1 ==> bag == game.hands[0]
  {
    MaxCountOne(game.hands);
    Cubes(MaxCount(game.hands, Red), MaxCount(game.hands, Blue), MaxCount(game.hands, Green))
  }

  /** The bag MinBag gives makes the game possible, and no smaller bag in
      any colour does. */
  lemma MinBagIsLeast(game: Game, bag: Cubes)
    ensures GameValid(game, MinBag(game))
    ensures GameValid(game, bag) <==>
            game.hands == [] || (MinBag(game).red <= bag.red && MinBag(game).blue <= bag.blue && MinBag(game).green <= bag.green)
  {
    MaxCountIsMax(game.hands, Red);
    MaxCountIsMax(game.hands, Blue);
    MaxCountIsMax(game.hands, Green);
    if game.hands != [] && GameValid(game, bag) {
      forall colour
        ensures MaxCount(game.hands, colour) <= Count(bag, colour)
      {
        MaxCountIsMax(game.hands, colour);
        if MaxCount(game.hands, colour) != 0 {
          var i :| 0 <= i < |game.hands| && Count(game.hands[i], colour) == MaxCount(game.hands, colour);
          assert IsHandValid(game.hands[i], bag);
        }
      }
      assert MaxCount(game.hands, Red) <= Count(bag, Red);
      assert MaxCount(game.hands, Blue) <= Count(bag, Blue);
      assert MaxCount(game.hands, Green) <= Count(bag, Green);
    }
  }

  /** The power of a set of cubes. */
  function Power(c: Cubes): nat
  {
    c.red * c.blue * c.green
  }

  /** A colour that never shows makes the power 0. */
  lemma PowerZero(game: Game)
    ensures (forall i :: 0 <= i < |game.hands| ==> game.hands[i].red == 0) ==> Power(MinBag(game)) == 0
    ensures (forall i :: 0 <= i < |game.hands| ==> game.hands[i].blue == 0) ==> Power(MinBag(game)) == 0
    ensures (forall i :: 0 <= i < |game.hands| ==> game.hands[i].green == 0) ==> Power(MinBag(game)) == 0
  {
    MaxCountIsMax(game.hands, Red);
    MaxCountIsMax(game.hands, Blue);
    MaxCountIsMax(game.hands, Green);
  }

  /** calculate_power_set: min_bag starts at 0 and each colour climbs to
      the largest count any hand shows. */
  method CalculatePowerSet(game: Game) returns (power: nat)
    ensures power == Power(MinBag(game))
  {
    var minBag := Cubes(0, 0, 0);
    for i := 0 to |game.hands|
      invariant minBag == MinBag(Game(game.id, game.hands[..i]))
    {
      var hand := game.hands[i];
      assert game.hands[..i + 1][..i] == game.hands[..i];
      if hand.red > minBag.red {
        minBag := minBag.(red := hand.red);
      }
      if hand.blue > minBag.blue {
        minBag := minBag.(blue := hand.blue);
      }
      if hand.green > minBag.green {
        minBag := minBag.(green := hand.green);
      }
    }
    assert game.hands[..|game.hands|] == game.hands;
    power := minBag.red * minBag.blue * minBag.green;
  }

  /** part2: the sum of the powers of the games, when every line is a
      game; no game's power exceeds it. */
  function Part2(lines: seq<string>): (r: Option<nat>)
    ensures r.Some? <==> forall i :: 0 <= i < |lines| ==> ParseInputLine(lines[i]).Some?
    ensures r.Some? ==> forall i :: 0 <= i < |lines| ==> Power(MinBag(ParseInputLine(lines[i]).value)) <= r.value
  {
    match ParseGames(lines)
    case None => None
    case Some(games) =>
      PowerSumBounds(games);
      Some(PowerSum(games))
  }

  /** The sum of the powers of the games. */
  function PowerSum(games: seq<Game>): nat
  {
    if games == [] then 0 else PowerSum(games[..|games| - 1]) + Power(MinBag(games[|games| - 1]))
  }

  /** Every game's power is part of the sum. */
  lemma {:induction false} PowerSumBounds(games: seq<Game>)
    ensures forall i :: 0 <= i < |games| ==> Power(MinBag(games[i])) <= PowerSum(games)
  {
    if games != [] {
      var init := games[..|games| - 1];
      PowerSumBounds(init);
      assert forall i :: 0 <= i < |init| ==> init[i] == games[i];
    }
  }

  /** The sum splits over a concatenation of game lists. */
  lemma {:induction false} Part2Concat(a: seq<Game>, b: seq<Game>)
    ensures PowerSum(a + b) == PowerSum(a) + PowerSum(b)
  {
    if b == [] {
      assert a + b == a;
    } else {
      var b' := b[..|b| - 1];
      assert (a + b)[..|a + b| - 1] == a + b';
      assert (a + b)[|a + b| - 1] == b[|b| - 1];
      Part2Concat(a, b');
    }
  }

  /** The power of the game whose hands are h1, h2, h3. */
  lemma PowerOfThree(h1: Cubes, h2: Cubes, h3: Cubes, game: Game)
    requires game.hands == [h1, h2, h3]
    ensures MinBag(game).red == Max3(h1.red, h2.red, h3.red)
    ensures MinBag(game).blue == Max3(h1.blue, h2.blue, h3.blue)
    ensures MinBag(game).green == Max3(h1.green, h2.green, h3.green)
  {
    var hs := game.hands;
    assert hs[..2] == [h1, h2];
    assert hs[..2][..1] == [h1];
    assert hs[..2][..1][..0] == [];
    forall colour
      ensures MaxCount(hs, colour) == Max3(Count(h1, colour), Count(h2, colour), Count(h3, colour))
    {
      assert MaxCount([h1], colour) == Count(h1, colour);
    }
    assert MaxCount(hs, Red) == Max3(Count(h1, Red), Count(h2, Red), Count(h3, Red));
    assert MaxCount(hs, Blue) == Max3(Count(h1, Blue), Count(h2, Blue), Count(h3, Blue));
    assert MaxCount(hs, Green) == Max3(Count(h1, Green), Count(h2, Green), Count(h3, Green));
  }

  function Max3(a: nat, b: nat, c: nat): nat
  {
    var m := if b > a then b else a;
    if c > m then c else m
  }

  /** The hands of the three tests of calculate_power_set. */
  const GameOne := [[Token(3, Blue), Token(4, Red)], [Token(1, Red), Token(2, Green), Token(6, Blue)], [Token(2, Green)]]
  const GameTwo := [[Token(1, Blue), Token(2, Green)], [Token(3, Green), Token(4, Blue), Token(1, Red)], [Token(1, Green), Token(1, Blue)]]
  const GameThree := [[Token(8, Green), Token(6, Blue), Token(20, Red)], [Token(5, Blue), Token(4, Red), Token(13, Green)], [Token(5, Green), Token(1, Red)]]

  /** The three tests of calculate_power_set, on their lines (written here
      in pieces: one per `N colour`, each hand in parentheses, and the ';'
      between hands): each line is a game, and its minimal bag has power
      48, 12 and 1560. */
  lemma PowerExampleOne(line: string)
    requires line == "Game 1:" + (" 3 blue" + ", 4 red") + ";" + (" 1 red" + ", 2 green" + ", 6 blue") + ";" + " 2 green"
    ensures ParseInputLine(line).Some? && Power(MinBag(ParseInputLine(line).value)) == 48
  {
    GameOneParses(line);
    GameOnePower();
  }

  lemma PowerExampleTwo(line: string)
    requires line == "Game 2:" + (" 1 blue" + ", 2 green") + ";" + (" 3 green" + ", 4 blue" + ", 1 red") + ";" + (" 1 green" + ", 1 blue")
    ensures ParseInputLine(line).Some? && Power(MinBag(ParseInputLine(line).value)) == 12
  {
    GameTwoParses(line);
    GameTwoPower();
  }

  lemma PowerExampleThree(line: string)
    requires line == "Game 3:" + (" 8 green" + ", 6 blue" + ", 20 red") + ";" + (" 5 blue" + ", 4 red" + ", 13 green") + ";" + (" 5 green" + ", 1 red")
    ensures ParseInputLine(line).Some? && Power(MinBag(ParseInputLine(line).value)) == 1560
  {
    GameThreeParses(line);
    GameThreePower();
  }

  lemma GameOneParses(line: string)
    requires line == "Game 1:" + (" 3 blue" + ", 4 red") + ";" + (" 1 red" + ", 2 green" + ", 6 blue") + ";" + " 2 green"
    ensures ParseInputLine(line) == Some(Game(1, HandsOf(GameOne)))
  {
    GameOneText();
    ParseGameText(1, GameOne);
  }

  lemma GameOnePower()
    ensures Power(MinBag(Game(1, HandsOf(GameOne)))) == 48
  {
    GameOneHands();
    assert HandsOf(GameOne) == [Cubes(4, 3, 0), Cubes(1, 6, 2), Cubes(0, 0, 2)];
    PowerOfThree(Cubes(4, 3, 0), Cubes(1, 6, 2), Cubes(0, 0, 2), Game(1, HandsOf(GameOne)));
  }

  lemma GameTwoParses(line: string)
    requires line == "Game 2:" + (" 1 blue" + ", 2 green") + ";" + (" 3 green" + ", 4 blue" + ", 1 red") + ";" + (" 1 green" + ", 1 blue")
    ensures ParseInputLine(line) == Some(Game(2, HandsOf(GameTwo)))
  {
    GameTwoText();
    ParseGameText(2, GameTwo);
  }

  lemma GameTwoPower()
    ensures Power(MinBag(Game(2, HandsOf(GameTwo)))) == 12
  {
    GameTwoHands();
    assert HandsOf(GameTwo) == [Cubes(0, 1, 2), Cubes(1, 4, 3), Cubes(0, 1, 1)];
    PowerOfThree(Cubes(0, 1, 2), Cubes(1, 4, 3), Cubes(0, 1, 1), Game(2, HandsOf(GameTwo)));
  }

  lemma GameThreeParses(line: string)
    requires line == "Game 3:" + (" 8 green" + ", 6 blue" + ", 20 red") + ";" + (" 5 blue" + ", 4 red" + ", 13 green") + ";" + (" 5 green" + ", 1 red")
    ensures ParseInputLine(line) == Some(Game(3, HandsOf(GameThree)))
  {
    GameThreeText();
    ParseGameText(3, GameThree);
  }

  lemma GameThreePower()
    ensures Power(MinBag(Game(3, HandsOf(GameThree)))) == 1560
  {
    GameThreeHands();
    assert HandsOf(GameThree) == [Cubes(20, 6, 8), Cubes(4, 5, 13), Cubes(1, 0, 5)];
    PowerOfThree(Cubes(20, 6, 8), Cubes(4, 5, 13), Cubes(1, 0, 5), Game(3, HandsOf(GameThree)));
  }

  lemma GameOneHand0()
    ensures HandText(GameOne[0]) == " 3 blue" + ", 4 red"
  {
    HandTextTwo(Token(3, Blue), Token(4, Red));
    assert ShowNat(3) == "3";
    assert [' '] + TokenText(Token(3, Blue)) == " 3 blue";
    assert ShowNat(4) == "4";
    assert [','] + [' '] + TokenText(Token(4, Red)) == ", 4 red";
  }

  lemma GameOneHand1()
    ensures HandText(GameOne[1]) == " 1 red" + ", 2 green" + ", 6 blue"
  {
    HandTextThree(Token(1, Red), Token(2, Green), Token(6, Blue));
    assert ShowNat(1) == "1";
    assert [' '] + TokenText(Token(1, Red)) == " 1 red";
    assert ShowNat(2) == "2";
    assert [','] + [' '] + TokenText(Token(2, Green)) == ", 2 green";
    assert ShowNat(6) == "6";
    assert [','] + [' '] + TokenText(Token(6, Blue)) == ", 6 blue";
  }

  lemma GameOneHand2()
    ensures HandText(GameOne[2]) == " 2 green"
  {
    HandTextOne(Token(2, Green));
    assert ShowNat(2) == "2";
    assert [' '] + TokenText(Token(2, Green)) == " 2 green";
  }

  lemma GameOneText()
    ensures GameText(1, GameOne) == "Game 1:" + (" 3 blue" + ", 4 red") + ";" + (" 1 red" + ", 2 green" + ", 6 blue") + ";" + " 2 green"
  {
    GameTextThree(1, GameOne[0], GameOne[1], GameOne[2]);
    assert [GameOne[0], GameOne[1], GameOne[2]] == GameOne;
    GameOneHand0();
    GameOneHand1();
    GameOneHand2();
    assert "Game " + ShowNat(1) + [':'] == "Game 1:";
  }

  lemma GameTwoHand0()
    ensures HandText(GameTwo[0]) == " 1 blue" + ", 2 green"
  {
    HandTextTwo(Token(1, Blue), Token(2, Green));
    assert ShowNat(1) == "1";
    assert [' '] + TokenText(Token(1, Blue)) == " 1 blue";
    assert ShowNat(2) == "2";
    assert [','] + [' '] + TokenText(Token(2, Green)) == ", 2 green";
  }

  lemma GameTwoHand1()
    ensures HandText(GameTwo[1]) == " 3 green" + ", 4 blue" + ", 1 red"
  {
    HandTextThree(Token(3, Green), Token(4, Blue), Token(1, Red));
    assert ShowNat(3) == "3";
    assert [' '] + TokenText(Token(3, Green)) == " 3 green";
    assert ShowNat(4) == "4";
    assert [','] + [' '] + TokenText(Token(4, Blue)) == ", 4 blue";
    assert ShowNat(1) == "1";
    assert [','] + [' '] + TokenText(Token(1, Red)) == ", 1 red";
  }

  lemma GameTwoHand2()
    ensures HandText(GameTwo[2]) == " 1 green" + ", 1 blue"
  {
    HandTextTwo(Token(1, Green), Token(1, Blue));
    assert ShowNat(1) == "1";
    assert [' '] + TokenText(Token(1, Green)) == " 1 green";
    assert ShowNat(1) == "1";
    assert [','] + [' '] + TokenText(Token(1, Blue)) == ", 1 blue";
  }

  lemma GameTwoText()
    ensures GameText(2, GameTwo) == "Game 2:" + (" 1 blue" + ", 2 green") + ";" + (" 3 green" + ", 4 blue" + ", 1 red") + ";" + (" 1 green" + ", 1 blue")
  {
    GameTextThree(2, GameTwo[0], GameTwo[1], GameTwo[2]);
    assert [GameTwo[0], GameTwo[1], GameTwo[2]] == GameTwo;
    GameTwoHand0();
    GameTwoHand1();
    GameTwoHand2();
    assert "Game " + ShowNat(2) + [':'] == "Game 2:";
  }

  lemma GameThreeHand0()
    ensures HandText(GameThree[0]) == " 8 green" + ", 6 blue" + ", 20 red"
  {
    HandTextThree(Token(8, Green), Token(6, Blue), Token(20, Red));
    assert ShowNat(8) == "8";
    assert [' '] + TokenText(Token(8, Green)) == " 8 green";
    assert ShowNat(6) == "6";
    assert [','] + [' '] + TokenText(Token(6, Blue)) == ", 6 blue";
    assert ShowNat(20) == "20" by {
      assert ShowNat(2) == "2";
    }
    assert [','] + [' '] + TokenText(Token(20, Red)) == ", 20 red";
  }

  lemma GameThreeHand1()
    ensures HandText(GameThree[1]) == " 5 blue" + ", 4 red" + ", 13 green"
  {
    HandTextThree(Token(5, Blue), Token(4, Red), Token(13, Green));
    assert ShowNat(5) == "5";
    assert [' '] + TokenText(Token(5, Blue)) == " 5 blue";
    assert ShowNat(4) == "4";
    assert [','] + [' '] + TokenText(Token(4, Red)) == ", 4 red";
    assert ShowNat(13) == "13" by {
      assert ShowNat(1) == "1";
    }
    assert [','] + [' '] + TokenText(Token(13, Green)) == ", 13 green";
  }

  lemma GameThreeHand2()
    ensures HandText(GameThree[2]) == " 5 green" + ", 1 red"
  {
    HandTextTwo(Token(5, Green), Token(1, Red));
    assert ShowNat(5) == "5";
    assert [' '] + TokenText(Token(5, Green)) == " 5 green";
    assert ShowNat(1) == "1";
    assert [','] + [' '] + TokenText(Token(1, Red)) == ", 1 red";
  }

  lemma GameThreeText()
    ensures GameText(3, GameThree) == "Game 3:" + (" 8 green" + ", 6 blue" + ", 20 red") + ";" + (" 5 blue" + ", 4 red" + ", 13 green") + ";" + (" 5 green" + ", 1 red")
  {
    GameTextThree(3, GameThree[0], GameThree[1], GameThree[2]);
    assert [GameThree[0], GameThree[1], GameThree[2]] == GameThree;
    GameThreeHand0();
    GameThreeHand1();
    GameThreeHand2();
    assert "Game " + ShowNat(3) + [':'] == "Game 3:";
  }

  /** A written game of three hands, piece by piece. */
  lemma GameTextThree(id: nat, h0: seq<Token>, h1: seq<Token>, h2: seq<Token>)
    ensures GameText(id, [h0, h1, h2]) ==
              "Game " + ShowNat(id) + [':'] + HandText(h0) + [';'] + HandText(h1) + [';'] + HandText(h2)
  {
    var texts := HandTexts([h0, h1, h2]);
    HandTextsThree(h0, h1, h2);
    JoinThree("Game " + ShowNat(id) + [':'], texts, HandText(h0), HandText(h1), HandText(h2));
  }

  lemma HandTextsThree(h0: seq<Token>, h1: seq<Token>, h2: seq<Token>)
    ensures HandTexts([h0, h1, h2]) == [HandText(h0), HandText(h1), HandText(h2)]
  {
    var hands := [h0, h1, h2];
    var texts := HandTexts(hands);
    assert texts[0] == HandText(hands[0]);
    assert texts[1] == HandText(hands[1]);
    assert texts[2] == HandText(hands[2]);
  }

  /** Three pieces joined with ';', after a prefix. */
  lemma JoinThree(prefix: string, texts: seq<string>, a: string, b: string, c: string)
    requires texts == [a, b, c]
    ensures prefix + Join(texts, ';') == prefix + a + [';'] + b + [';'] + c
  {
    assert texts[1..] == [b, c];
    assert texts[1..][1..] == [c];
    assert Join([c], ';') == c;
    assert Join([b, c], ';') == b + [';'] + c;
    assert Join(texts, ';') == a + [';'] + (b + [';'] + c);
  }

  lemma GameOneHands()
    ensures HandOf([Token(3, Blue), Token(4, Red)]) == Cubes(4, 3, 0)
    ensures HandOf([Token(1, Red), Token(2, Green), Token(6, Blue)]) == Cubes(1, 6, 2)
    ensures HandOf([Token(2, Green)]) == Cubes(0, 0, 2)
  {
    HandTwo(Token(3, Blue), Token(4, Red));
    HandThree(Token(1, Red), Token(2, Green), Token(6, Blue));
    HandOne(Token(2, Green));
  }

  lemma GameTwoHands()
    ensures HandOf([Token(1, Blue), Token(2, Green)]) == Cubes(0, 1, 2)
    ensures HandOf([Token(3, Green), Token(4, Blue), Token(1, Red)]) == Cubes(1, 4, 3)
    ensures HandOf([Token(1, Green), Token(1, Blue)]) == Cubes(0, 1, 1)
  {
    HandTwo(Token(1, Blue), Token(2, Green));
    HandThree(Token(3, Green), Token(4, Blue), Token(1, Red));
    HandTwo(Token(1, Green), Token(1, Blue));
  }

  lemma GameThreeHands()
    ensures HandOf([Token(8, Green), Token(6, Blue), Token(20, Red)]) == Cubes(20, 6, 8)
    ensures HandOf([Token(5, Blue), Token(4, Red), Token(13, Green)]) == Cubes(4, 5, 13)
    ensures HandOf([Token(5, Green), Token(1, Red)]) == Cubes(1, 0, 5)
  {
    HandThree(Token(8, Green), Token(6, Blue), Token(20, Red));
    HandThree(Token(5, Blue), Token(4, Red), Token(13, Green));
    HandTwo(Token(5, Green), Token(1, Red));
  }

  /** The last token of each colour decides, for hands of one to three
      tokens. */
  lemma HandOne(t1: Token)
    ensures forall colour :: LastCount([t1], colour) == if t1.colour == colour then t1.count else 0
  {
    assert [t1][..0] == [];
  }

  lemma HandTwo(t1: Token, t2: Token)
    ensures forall colour :: LastCount([t1, t2], colour) ==
              (if t2.colour == colour then t2.count else if t1.colour == colour then t1.count else 0)
  {
    assert [t1, t2][..1] == [t1];
    HandOne(t1);
  }

  lemma HandThree(t1: Token, t2: Token, t3: Token)
    ensures forall colour :: LastCount([t1, t2, t3], colour) ==
              (if t3.colour == colour then t3.count else if t2.colour == colour then t2.count
               else if t1.colour == colour then t1.count else 0)
  {
    assert [t1, t2, t3][..2] == [t1, t2];
    HandTwo(t1, t2);
  }
}
