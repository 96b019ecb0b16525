/** Day 2, part 1: a game is a list of hands of coloured cubes drawn from a
    bag; a game is possible when no hand shows more cubes of a colour than
    the bag holds, and the answer is the sum of the ids of the possible
    games. A line is read as the two regular expressions of the source
    read it: the header `Game N:`, then one hand per `;`-separated piece,
    each hand the `N colour` matches in its piece. */
module Day02Part1 {
  import opened Common

  datatype Colour = Red | Blue | Green

  /** A number of cubes of each colour (a hand, or the bag). */
  datatype Cubes = Cubes(red: nat, blue: nat, green: nat)

  /** One `N colour` match inside a hand. */
  datatype Token = Token(count: nat, colour: Colour)

  datatype Game = Game(id: nat, hands: seq<Cubes>)

  function Count(c: Cubes, colour: Colour): nat
  {
    match colour
    case Red => c.red
    case Blue => c.blue
    case Green => c.green
  }

  /** is_hand_valid: a hand is possible exactly when, for every colour, it
      shows no more cubes than the bag holds. */
  function IsHandValid(hand: Cubes, bag: Cubes): (r: bool)
    ensures r <==> forall colour :: Count(hand, colour) <= Count(bag, colour)
  {
    assert Count(hand, Red) == hand.red && Count(bag, Red) == bag.red;
    assert Count(hand, Blue) == hand.blue && Count(bag, Blue) == bag.blue;
    assert Count(hand, Green) == hand.green && Count(bag, Green) == bag.green;
    hand.red <= bag.red && hand.blue <= bag.blue && hand.green <= bag.green
  }

  /** The tests of is_hand_valid. */
  lemma IsHandValidExamples()
    ensures IsHandValid(Cubes(1, 1, 1), Cubes(1, 1, 1))
    ensures !IsHandValid(Cubes(2, 1, 1), Cubes(1, 1, 1))
  {
  }

  /** is_game_valid: the first hand that does not fit decides. */
  method IsGameValid(game: Game, bag: Cubes) returns (r: bool)
    ensures r <==> forall i :: 0 <= i < |game.hands| ==> IsHandValid(game.hands[i], bag)
  {
    for i := 0 to |game.hands|
      invariant forall k :: 0 <= k < i ==> IsHandValid(game.hands[k], bag)
    {
      if !IsHandValid(game.hands[i], bag) {
        return false;
      }
    }
    return true;
  }

  /** The same test as a value, for the fold of part1. */
  predicate GameValid(game: Game, bag: Cubes)
  {
    forall i :: 0 <= i < |game.hands| ==> IsHandValid(game.hands[i], bag)
  }

  /** The test of is_game_valid: one hand too many red spoils the game. */
  lemma GameValidExample()
    ensures !GameValid(Game(1, [Cubes(2, 1, 1), Cubes(1, 1, 1)]), Cubes(1, 1, 1))
    ensures GameValid(Game(2, []), Cubes(0, 0, 0))
  {
    assert !IsHandValid(Game(1, [Cubes(2, 1, 1), Cubes(1, 1, 1)]).hands[0], Cubes(1, 1, 1));
  }

  /** No token after position i has the colour. */
  predicate NoneAfter(tokens: seq<Token>, colour: Colour, i: nat)
  {
    forall k :: i < k < |tokens| ==> tokens[k].colour != colour
  }

  /** The count of the last token of a colour, or 0 when there is none. */
  function LastCount(tokens: seq<Token>, colour: Colour): nat
  {
    if tokens == [] then 0
    else if tokens[|tokens| - 1].colour == colour then tokens[|tokens| - 1].count
    else LastCount(tokens[..|tokens| - 1], colour)
  }

  /** The cubes a hand shows: each colour as its last token says. */
  function HandOf(tokens: seq<Token>): Cubes
  {
    Cubes(LastCount(tokens, Red), LastCount(tokens, Blue), LastCount(tokens, Green))
  }

  /** A colour without a token counts 0. */
  lemma {:induction false} LastCountAbsent(tokens: seq<Token>, colour: Colour)
    requires forall i :: 0 <= i < |tokens| ==> tokens[i].colour != colour
    ensures LastCount(tokens, colour) == 0
  {
    if tokens != [] {
      var init := tokens[..|tokens| - 1];
      assert forall i :: 0 <= i < |init| ==> init[i] == tokens[i];
      LastCountAbsent(init, colour);
    }
  }

  /** The token at i is the last of its colour, so its count is the one kept. */
  lemma {:induction false} LastCountAt(tokens: seq<Token>, colour: Colour, i: nat)
    requires i < |tokens| && tokens[i].colour == colour && NoneAfter(tokens, colour, i)
    ensures LastCount(tokens, colour) == tokens[i].count
  {
    var last := |tokens| - 1;
    if i < last {
      var init := tokens[..last];
      assert tokens[last].colour != colour;
      assert init[i] == tokens[i];
      assert NoneAfter(init, colour, i) by {
        forall k | i < k < |init| ensures init[k].colour != colour {
          assert init[k] == tokens[k];
        }
      }
      LastCountAt(init, colour, i);
    }
  }

  /** The last token of a colour wins, and a colour without a token counts
      0. */
  lemma {:induction false} LastCountIsLast(tokens: seq<Token>, colour: Colour)
    ensures (forall i :: 0 <= i < |tokens| ==> tokens[i].colour != colour) ==> LastCount(tokens, colour) == 0
    ensures forall i :: 0 <= i < |tokens| && tokens[i].colour == colour && NoneAfter(tokens, colour, i) ==>
              LastCount(tokens, colour) == tokens[i].count
  {
    if forall i :: 0 <= i < |tokens| ==> tokens[i].colour != colour {
      LastCountAbsent(tokens, colour);
    }
    forall i | 0 <= i < |tokens| && tokens[i].colour == colour && NoneAfter(tokens, colour, i)
      ensures LastCount(tokens, colour) == tokens[i].count
    {
      LastCountAt(tokens, colour, i);
    }
  }

  /** parse_hand: all colours start at 0, and each match of the hand
      pattern in the piece, left to right, overwrites its colour. */
  method ParseHand(piece: string) returns (cubes: Cubes)
    ensures cubes == HandOf(Tokens(piece))
    ensures forall colour :: Count(cubes, colour) == LastCount(Tokens(piece), colour)
  {
    var tokens := Tokens(piece);
    cubes := Cubes(0, 0, 0);
    for i := 0 to |tokens|
      invariant cubes == HandOf(tokens[..i])
    {
      var t := tokens[i];
      assert tokens[..i + 1] == tokens[..i] + [t];
      match t.colour
      case Red => cubes := cubes.(red := t.count);
      case Blue => cubes := cubes.(blue := t.count);
      case Green => cubes := cubes.(green := t.count);
    }
    assert tokens[..|tokens|] == tokens;
  }

  /** The first test of parse_hand: "1 red" gives 1/0/0. */
  lemma ParseHandSingleColour(piece: string)
    requires piece == "1 red"
    ensures HandOf(Tokens(piece)) == Cubes(1, 0, 0)
  {
    var r1 := Token(1, Red);
    assert ShowNat(1) == "1";
    assert piece == TokenText(r1) + [];
    TokensAfterText(r1, []);
    HandsOfExamples();
  }

  /** The second test of parse_hand, its string written in pieces cut
      before each ',': "1 red, 2 blue, 3 green" gives 1/2/3. */
  lemma ParseHandMultipleColours(piece: string)
    requires piece == "1 red" + ", 2 blue" + ", 3 green"
    ensures HandOf(Tokens(piece)) == Cubes(1, 2, 3)
  {
    var r1, b2, g3 := Token(1, Red), Token(2, Blue), Token(3, Green);
    var more := HandText([b2, g3]);
    BlueGreenText();
    assert ShowNat(1) == "1";
    assert TokenText(r1) == "1 red";
    assert piece == TokenText(r1) + ([','] + more);
    TokensAfterText(r1, [','] + more);
    TokensSkip(',', more);
    TokensHandText([b2, g3]);
    HandsOfExamples();
  }

  lemma BlueGreenText()
    ensures [','] + HandText([Token(2, Blue), Token(3, Green)]) == ", 2 blue" + ", 3 green"
  {
    HandTextTwo(Token(2, Blue), Token(3, Green));
    assert ShowNat(2) == "2" && ShowNat(3) == "3";
    assert [','] + [' '] + TokenText(Token(2, Blue)) == ", 2 blue";
    assert [','] + [' '] + TokenText(Token(3, Green)) == ", 3 green";
  }

  /** The hands of the two tests, as tokens. */
  lemma HandsOfExamples()
    ensures HandOf([Token(1, Red)] + []) == Cubes(1, 0, 0)
    ensures HandOf([Token(1, Red)] + [Token(2, Blue), Token(3, Green)]) == Cubes(1, 2, 3)
  {
    var t := [Token(1, Red), Token(2, Blue), Token(3, Green)];
    assert [Token(1, Red)] + [Token(2, Blue), Token(3, Green)] == t;
    assert t[..2] == [Token(1, Red), Token(2, Blue)];
    assert t[..2][..1] == [Token(1, Red)];
    assert [Token(1, Red)] + [] == [Token(1, Red)];
    assert [Token(1, Red)][..0] == [];
  }

  /** The colour words of the hand pattern. */
  function ColourName(colour: Colour): string
  {
    match colour
    case Red => "red"
    case Blue => "blue"
    case Green => "green"
  }

  /** The colour whose word s starts with, if any (no colour word is a
      prefix of another, so the order of the alternatives does not matter). */
  function ColourAt(s: string): Option<Colour>
  {
    if |s| >= 3 && s[..3] == "red" then Some(Red)
    else if |s| >= 5 && s[..5] == "green" then Some(Green)
    else if |s| >= 4 && s[..4] == "blue" then Some(Blue)
    else None
  }

  /** The match of the hand pattern `(\d+) (red|green|blue)` at the front of
      s, with its length: a run of digits, one space and a colour word. The
      digit run is the whole run, since a space cannot follow a shorter
      one. */
  function MatchAt(s: string): (m: Option<(Token, nat)>)
    ensures m.Some? ==>
              var w := ColourName(m.value.0.colour);
              var e := m.value.1 - |w| - 1;
              0 < e && m.value.1 <= |s| && AllDigits(s[..e]) && s[e..m.value.1] == [' '] + w &&
              m.value.0.count == DecimalValue(s[..e])
  {
    var e := RunEnd(s, 0);
    if e == 0 || e == |s| || s[e] != ' ' then None
    else
      match ColourAt(s[e + 1..])
      case None => None
      case Some(c) =>
        ColourAtPrefix(s[e + 1..], c);
        SpaceThen(s, e, ColourName(c));
        RunIsDigits(s, e);
        Some((Token(DecimalValue(s[..e]), c), e + 1 + |ColourName(c)|))
  }

  /** A space at e followed by w is the text from e to the end of w. */
  lemma SpaceThen(s: string, e: nat, w: string)
    requires e < |s| && s[e] == ' ' && |w| <= |s| - e - 1 && s[e + 1..][..|w|] == w
    ensures s[e..e + 1 + |w|] == [' '] + w
  {
    assert s[e..e + 1 + |w|] == [' '] + s[e + 1..][..|w|];
  }

  /** ColourAt finds the colour whose word starts the text. */
  lemma ColourAtPrefix(t: string, c: Colour)
    requires ColourAt(t) == Some(c)
    ensures |ColourName(c)| <= |t| && t[..|ColourName(c)|] == ColourName(c)
  {
  }

  /** The text before the end of the leading digit run is all digits. */
  lemma RunIsDigits(s: string, e: nat)
    requires e <= |s| && e == RunEnd(s, 0)
    ensures AllDigits(s[..e])
  {
    forall k | 0 <= k < e ensures IsDigit(s[..e][k]) {
      assert s[..e][k] == s[k];
    }
  }

  /** Every run of digits followed by a space and a colour word is a match,
      whatever follows it. */
  lemma MatchAtSpelling(digits: string, colour: Colour, rest: string)
    requires digits != [] && AllDigits(digits)
    ensures MatchAt(digits + [' '] + ColourName(colour) + rest) ==
              Some((Token(DecimalValue(digits), colour), |digits| + 1 + |ColourName(colour)|))
  {
    var w := ColourName(colour);
    var s := digits + [' '] + w + rest;
    var e := |digits|;
    SpellingParts(digits, w, rest);
    RunEndIsEnd(s, 0, e);
    ColourAtName(colour, rest);
    MatchAtWhen(s, e, colour);
  }

  /** A digit run ending at e, a space and a colour word make a match. */
  lemma MatchAtWhen(s: string, e: nat, colour: Colour)
    requires 0 < e < |s| && RunEnd(s, 0) == e && s[e] == ' ' && ColourAt(s[e + 1..]) == Some(colour)
    ensures MatchAt(s) == Some((Token(DecimalValue(s[..e]), colour), e + 1 + |ColourName(colour)|))
  {
  }

  /** Where the digits, the space and the word of a spelled token sit. */
  lemma SpellingParts(digits: string, w: string, rest: string)
    ensures var s := digits + [' '] + w + rest;
            s[..|digits|] == digits && s[|digits|] == ' ' && s[|digits| + 1..] == w + rest
  {
    var s := digits + [' '] + w + rest;
    assert s == (digits + [' ']) + (w + rest);
  }

  /** A colour word is read as its colour, whatever follows it. */
  lemma ColourAtName(colour: Colour, rest: string)
    ensures ColourAt(ColourName(colour) + rest) == Some(colour)
  {
    var s := ColourName(colour) + rest;
    match colour
    case Red =>
      assert s[..3] == "red";
    case Green =>
      assert s[0] == 'g';
      assert s[..5] == "green";
    case Blue =>
      assert s[0] == 'b';
      assert s[..4] == "blue";
  }

  /** The successive matches of the hand pattern in s, left to right and
      without overlap, as `captures_iter` finds them. */
  function Tokens(s: string): seq<Token>
    decreases |s|
  {
    if s == [] then []
    else
      match MatchAt(s)
      case Some(m) => [m.0] + Tokens(s[m.1..])
      case None => Tokens(s[1..])
  }

  /** A character that cannot start a run of digits is passed over. */
  lemma TokensSkip(c: char, rest: string)
    requires !IsDigit(c)
    ensures Tokens([c] + rest) == Tokens(rest)
  {
    var s := [c] + rest;
    assert RunEnd(s, 0) == 0;
    assert s[1..] == rest;
  }

  /** The decimal spelling of a token as the puzzle writes it, `N colour`. */
  function TokenText(t: Token): string
  {
    ShowNat(t.count) + [' '] + ColourName(t.colour)
  }

  /** A written token is matched, and the search goes on right after it. */
  lemma TokensAfterText(t: Token, rest: string)
    ensures Tokens(TokenText(t) + rest) == [t] + Tokens(rest)
  {
    var s := TokenText(t) + rest;
    MatchAtSpelling(ShowNat(t.count), t.colour, rest);
    ShowNatValue(t.count);
    assert s == ShowNat(t.count) + [' '] + ColourName(t.colour) + rest;
    assert s[|TokenText(t)|..] == rest;
  }

  /** A hand as the puzzle writes it: each token after a space, the tokens
      separated by commas, as in " 3 blue, 4 red". */
  function HandText(tokens: seq<Token>): string
  {
    if tokens == [] then []
    else if |tokens| == 1 then [' '] + TokenText(tokens[0])
    else [' '] + TokenText(tokens[0]) + [','] + HandText(tokens[1..])
  }

  /** A written hand of one, two or three tokens, piece by piece. */
  lemma HandTextOne(a: Token)
    ensures HandText([a]) == [' '] + TokenText(a)
  {
  }

  lemma HandTextTwo(a: Token, b: Token)
    ensures HandText([a, b]) == [' '] + TokenText(a) + ([','] + [' '] + TokenText(b))
  {
    assert [a, b][1..] == [b];
  }

  lemma HandTextThree(a: Token, b: Token, c: Token)
    ensures HandText([a, b, c]) == [' '] + TokenText(a) + ([','] + [' '] + TokenText(b)) + ([','] + [' '] + TokenText(c))
  {
    assert [a, b, c][1..] == [b, c];
    HandTextTwo(b, c);
  }

  /** The hand pattern reads a written hand back token for token. */
  lemma {:induction false} TokensHandText(tokens: seq<Token>)
    ensures Tokens(HandText(tokens)) == tokens
  {
    if |tokens| == 1 {
      TokensHandTextOne(tokens[0]);
      assert [tokens[0]] == tokens;
    } else if |tokens| > 1 {
      TokensHandText(tokens[1..]);
      TokensHandTextCons(tokens[0], tokens[1..]);
      assert [tokens[0]] + tokens[1..] == tokens;
    }
  }

  lemma TokensHandTextOne(t: Token)
    ensures Tokens(HandText([t])) == [t]
  {
    TokensSkip(' ', TokenText(t));
    TokensAfterText(t, []);
    assert TokenText(t) + [] == TokenText(t);
  }

  lemma TokensHandTextCons(t: Token, rest: seq<Token>)
    requires rest != [] && Tokens(HandText(rest)) == rest
    ensures Tokens(HandText([t] + rest)) == [t] + rest
  {
    var more := HandText(rest);
    HandTextPrefix(t, rest);
    TokensSkip(' ', TokenText(t) + ([','] + more));
    TokensAfterText(t, [','] + more);
    TokensSkip(',', more);
  }

  lemma HandTextPrefix(t: Token, rest: seq<Token>)
    requires rest != []
    ensures HandText([t] + rest) == [' '] + (TokenText(t) + ([','] + HandText(rest)))
  {
    assert ([t] + rest)[1..] == rest;
  }

  /** A written hand holds digits, lower-case letters, spaces and commas
      only. */
  lemma {:induction false} HandTextAvoids(tokens: seq<Token>, c: char)
    requires !IsDigit(c) && !('a' <= c <= 'z') && c != ' ' && c != ','
    ensures c !in HandText(tokens)
  {
    if tokens != [] {
      var t := tokens[0];
      assert c !in ShowNat(t.count);
      assert c !in ColourName(t.colour);
      assert c !in TokenText(t);
      if |tokens| > 1 {
        HandTextAvoids(tokens[1..], c);
      }
    }
  }

  /** The cubes of each hand, from the tokens of each hand. */
  function HandsOf(pieces: seq<seq<Token>>): seq<Cubes>
  {
    seq(|pieces|, i requires 0 <= i < |pieces| => HandOf(pieces[i]))
  }

  /** The tokens of each `;`-separated piece. */
  function TokensOf(pieces: seq<string>): seq<seq<Token>>
  {
    seq(|pieces|, i requires 0 <= i < |pieces| => Tokens(pieces[i]))
  }

  /** The pattern `^Game (\d+):(.*)$` matches with its digits ending at k:
      the line starts with "Game ", then digits up to k, then ':', and no
      line break follows (`.` does not match one). */
  predicate HeaderEnds(line: string, k: nat)
  {
    5 < k < |line| && line[..5] == "Game " &&
    (forall i :: 5 <= i < k ==> IsDigit(line[i])) && line[k] == ':' && '\n' !in line[k + 1..]
  }

  /** parse_input_line: the id is the number after "Game ", and each
      `;`-separated piece after the ':' is one hand, made of the matches of
      the hand pattern in that piece. A line the header pattern does not
      match is the source's unwrap panic. */
  function ParseInputLine(line: string): (g: Option<Game>)
    ensures g.Some? <==> exists k: nat :: HeaderEnds(line, k)
    ensures forall k: nat :: HeaderEnds(line, k) ==>
              g == Some(Game(DecimalValue(line[5..k]), HandsOf(TokensOf(SplitOn(line[k + 1..], ';')))))
  {
    if |line| < 5 || line[..5] != "Game " then None
    else
      var k := RunEnd(line, 5);
      if k == 5 || k == |line| || line[k] != ':' || '\n' in line[k + 1..] then None
      else
        assert HeaderEnds(line, k);
        Some(Game(DecimalValue(line[5..k]), HandsOf(TokensOf(SplitOn(line[k + 1..], ';')))))
  }

  /** A game as the puzzle writes it: "Game ", the id, ':' and the hands
      separated by ';'. */
  function GameText(id: nat, hands: seq<seq<Token>>): string
    requires |hands| >= 1
  {
    "Game " + ShowNat(id) + [':'] + Join(HandTexts(hands), ';')
  }

  function HandTexts(hands: seq<seq<Token>>): seq<string>
  {
    seq(|hands|, i requires 0 <= i < |hands| => HandText(hands[i]))
  }

  /** A written game parses back: its id, and one hand per written hand,
      each colour as its last token says. */
  lemma ParseGameText(id: nat, hands: seq<seq<Token>>)
    requires |hands| >= 1
    ensures ParseInputLine(GameText(id, hands)) == Some(Game(id, HandsOf(hands)))
  {
    GameTextHeader(id, hands);
    SplitOnJoin(HandTexts(hands), ';');
    ShowNatValue(id);
    TokensOfHandTexts(hands);
  }

  /** The header of a written game ends after the id, and the hands follow
      the ':'. */
  lemma GameTextHeader(id: nat, hands: seq<seq<Token>>)
    requires |hands| >= 1
    ensures var line, k := GameText(id, hands), 5 + |ShowNat(id)|;
            HeaderEnds(line, k) && line[5..k] == ShowNat(id) && line[k + 1..] == Join(HandTexts(hands), ';') &&
            forall j :: 0 <= j < |hands| ==> ';' !in HandTexts(hands)[j]
  {
    var texts := HandTexts(hands);
    var rest := Join(texts, ';');
    var line := GameText(id, hands);
    var k := 5 + |ShowNat(id)|;
    forall j | 0 <= j < |texts|
      ensures ';' !in texts[j] && '\n' !in texts[j]
    {
      HandTextAvoids(hands[j], ';');
      HandTextAvoids(hands[j], '\n');
    }
    JoinAvoids(texts, ';', '\n');
    assert line[5..k] == ShowNat(id);
    assert line[k + 1..] == rest;
  }

  /** The hand pattern reads each written hand back. */
  lemma TokensOfHandTexts(hands: seq<seq<Token>>)
    ensures TokensOf(HandTexts(hands)) == hands
  {
    forall j | 0 <= j < |hands|
      ensures TokensOf(HandTexts(hands))[j] == hands[j]
    {
      TokensHandText(hands[j]);
    }
  }

  /** Every line of the input, as parse_input_line reads it; None when one
      of them is not a game. */
  function ParseGames(lines: seq<string>): (r: Option<seq<Game>>)
    ensures r.Some? <==> forall i :: 0 <= i < |lines| ==> ParseInputLine(lines[i]).Some?
    ensures r.Some? ==> |r.value| == |lines| && forall i :: 0 <= i < |lines| ==> ParseInputLine(lines[i]) == Some(r.value[i])
  {
    if lines == [] then Some([])
    else
      var rest := ParseGames(lines[1..]);
      if ParseInputLine(lines[0]).Some? && rest.Some? then Some([ParseInputLine(lines[0]).value] + rest.value)
      else None
  }

  /** part1: the sum of the ids of the possible games, when every line is
      a game; it is at most the sum of all ids, and reaches it when every
      game is possible. */
  function Part1(lines: seq<string>, bag: Cubes): (r: Option<nat>)
    ensures r.Some? <==> forall i :: 0 <= i < |lines| ==> ParseInputLine(lines[i]).Some?
    ensures r.Some? ==> r.value <= Ids(ParseGames(lines).value)
    ensures r.Some? && (forall i :: 0 <= i < |lines| ==> GameValid(ParseInputLine(lines[i]).value, bag)) ==>
              r.value == Ids(ParseGames(lines).value)
  {
    match ParseGames(lines)
    case None => None
    case Some(games) =>
      Part1Bounds(games, bag);
      Some(PossibleIds(games, bag))
  }

  /** The sum of the ids of the possible games. */
  function PossibleIds(games: seq<Game>, bag: Cubes): nat
  {
    if games == [] then 0
    else PossibleIds(games[..|games| - 1], bag) + if GameValid(games[|games| - 1], bag) then games[|games| - 1].id else 0
  }

  /** The sum splits over a concatenation of game lists. */
  lemma {:induction false} Part1Concat(a: seq<Game>, b: seq<Game>, bag: Cubes)
    ensures PossibleIds(a + b, bag) == PossibleIds(a, bag) + PossibleIds(b, bag)
  {
    if b == [] {
      assert a + b == a;
    } else {
      var b' := b[..|b| - 1];
      assert (a + b)[..|a + b| - 1] == a + b';
      assert (a + b)[|a + b| - 1] == b[|b| - 1];
      Part1Concat(a, b', bag);
    }
  }

  /** A game counts its id exactly when it is possible, and the answer is
      at most the sum of all ids. */
  lemma {:induction false} Part1Bounds(games: seq<Game>, bag: Cubes)
    ensures PossibleIds([], bag) == 0
    ensures forall g :: PossibleIds([g], bag) == if GameValid(g, bag) then g.id else 0
    ensures (forall i :: 0 <= i < |games| ==> GameValid(games[i], bag)) ==> PossibleIds(games, bag) == Ids(games)
    ensures PossibleIds(games, bag) <= Ids(games)
  {
    forall g
      ensures PossibleIds([g], bag) == if GameValid(g, bag) then g.id else 0
    {
      assert [g][..0] == [];
    }
    if games != [] {
      var init := games[..|games| - 1];
      Part1Bounds(init, bag);
      assert forall i :: 0 <= i < |init| ==> init[i] == games[i];
    }
  }

  function Ids(games: seq<Game>): nat
  {
    if games == [] then 0 else Ids(games[..|games| - 1]) + games[|games| - 1].id
  }
}
