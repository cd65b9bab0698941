/**
 * The nine-slot Texas hold'em board of poker_mcts_updated.py and of its earlier
 * version poker_mcts.py. Slots 0-1 hold the machine's cards, 2-6 the community
 * cards (2-4 the flop, 5 the turn, 6 the river) and 7-8 the opponent's cards.
 * The two files differ in the reward's sign, the starting stacks and the hands
 * the winner functions score; `Version` selects between them.
 */
module Holdem {
  import opened Wrappers
  import opened Lists
  import opened Cards
  import opened Hands
  import opened Board

  datatype Version = Updated | Original

  /**
   * The numbers behind the two `random.choice(deck)` calls of `_find_winner`,
   * as a function of the card slots it evaluates.
   */
  type Draws = seq<Option<Card>> -> (nat, nat)

  predicate NineSlots(b: PokerBoard) {
    |b.tup| == 9
  }

  /** Each player's stack in `new_poker_board`. */
  function StartingStack(v: Version): int {
    match v
    case Updated => 30
    case Original => 20
  }

  /** `new_poker_board()`: nine empty slots, the opponent to act, an empty pot. */
  function NewPokerBoard(v: Version): (b: PokerBoard)
    ensures NineSlots(b) && forall i :: 0 <= i < 9 ==> b.tup[i].None?
    ensures !b.turn && !b.terminal && b.winner.None? && b.folded == Nobody
    ensures b.moneyMachine == b.moneyOpp == StartingStack(v) && b.moneyMiddle == 0
  {
    PokerBoard(seq(9, i => None), false, None, false, StartingStack(v), 0, StartingStack(v),
      false, false, false, false, 0, 0, Nobody)
  }

  /**
   * `reward`: a RuntimeError on a board still in play; otherwise the pot, with
   * the sign depending on who won and on the version.
   */
  function Reward(b: PokerBoard, v: Version): (r: Result<int, string>)
    ensures r.Ok? <==> b.terminal
    ensures r.Ok? && b.winner == Some(true) ==> r.value == (if v == Updated then -b.moneyMiddle else b.moneyMiddle)
    ensures r.Ok? && b.winner != Some(true) ==> r.value == (if v == Updated then b.moneyMiddle else -b.moneyMiddle)
  {
    if !b.terminal then Err("RuntimeError")
    else if b.winner == Some(true) then
      (match v case Updated => Ok(-b.moneyMiddle) case Original => Ok(b.moneyMiddle))
    else
      (match v case Updated => Ok(b.moneyMiddle) case Original => Ok(-b.moneyMiddle))
  }

  /**
   * `check_board_terminal` (poker_mcts_updated.py): on a finished board the pot
   * goes to the winner and is emptied; a board in play comes back unchanged.
   */
  function CheckBoardTerminal(b: PokerBoard): (r: (bool, PokerBoard))
    ensures r.0 == b.terminal
    ensures !b.terminal ==> r.1 == b
    ensures b.terminal ==> r.1.moneyMiddle == 0 && r.1 == b.(moneyMachine := r.1.moneyMachine, moneyOpp := r.1.moneyOpp, moneyMiddle := 0)
    ensures b.terminal && b.winner == Some(true) ==> r.1.moneyMachine == b.moneyMachine + b.moneyMiddle && r.1.moneyOpp == b.moneyOpp
    ensures b.terminal && b.winner == Some(false) ==> r.1.moneyOpp == b.moneyOpp + b.moneyMiddle && r.1.moneyMachine == b.moneyMachine
    ensures Settled(b) ==> Chips(r.1) == Chips(b)
    ensures !Settled(b) ==> Chips(r.1) == Chips(b) - b.moneyMiddle
  {
    if b.terminal then
      match b.winner
      case Some(true) => (true, b.(moneyMachine := b.moneyMiddle + b.moneyMachine, moneyMiddle := 0))
      case Some(false) => (true, b.(moneyOpp := b.moneyMiddle + b.moneyOpp, moneyMiddle := 0))
      case None => (true, b.(moneyMiddle := 0))
    else (false, b)
  }

  /** `assign_cards_to_middle(index, card)` with the card given: it fills the slot and passes the turn. */
  function AssignCardsToMiddle(b: PokerBoard, index: nat, card: Card): (r: PokerBoard)
    ensures |r.tup| == if index < |b.tup| then |b.tup| else |b.tup| + 1
    ensures index < |b.tup| ==> r.tup[index] == Some(card)
    ensures forall i :: 0 <= i < |b.tup| && i != index ==> r.tup[i] == b.tup[i]
    ensures r == b.(tup := r.tup, turn := !b.turn)
  {
    var tup := if index < |b.tup| then b.tup[index := Some(card)] else b.tup + [Some(card)];
    b.(tup := tup, turn := !b.turn)
  }

  // ---------------------------------------------------------------------------
  // Deciding the winner

  /**
   * The opponent's seven cards in the showdown of `_find_winner`: two cards drawn
   * at random from the deck without the seven dealt cards (with replacement:
   * the first is not removed before the second is drawn), then the board.
   */
  function OppSeven(tup: seq<Option<Card>>, draws: Draws): (opp: seq<Card>)
    requires |tup| == 9 && DistinctDeckCards(tup[..7])
    ensures |opp| == 7 && opp[2..] == Known(tup[..7])[2..]
    ensures forall i :: 0 <= i < 7 ==> ValidCard(opp[i])
    ensures opp[0] !in Known(tup[..7]) && opp[1] !in Known(tup[..7])
  {
    RemoveFromDeckSucceeds(tup[..7]);
    RemoveFromDeckRest(tup[..7]);
    var rest := RemoveAll(Deck(), tup[..7]).value;
    var (d1, d2) := draws(tup);
    [Choice(rest, d1), Choice(rest, d2)] + Known(tup[..7])[2..]
  }

  /**
   * The showdown of `_find_winner` once the river is dealt: the seven dealt cards
   * come out of a fresh deck (a ValueError if one is missing or repeated) and
   * the machine's cards are compared with the opponent's.
   */
  function RandomShowdown(tup: seq<Option<Card>>, v: Version, draws: Draws): (r: Result<bool, string>)
    requires |tup| == 9
    ensures r.Ok? <==> DistinctDeckCards(tup[..7])
  {
    RemoveFromDeckSucceeds(tup[..7]);
    match RemoveAll(Deck(), tup[..7])
    case None => Err("ValueError")
    case Some(_) =>
      var machine := Known(tup[..7]);
      var opp := OppSeven(tup, draws);
      ValidRanks(machine);
      ValidRanks(opp);
      Ok(Compare(machine, opp, v))
  }

  /**
   * The two score loops and the final `score_machine >= score_opp`: the updated
   * file scores every `combinations(hand, 5)` row, the original scores the
   * whole hand (its first five cards) once per row.
   */
  function Compare(machine: seq<Card>, opp: seq<Card>, v: Version): bool
    requires |machine| == 7 && |opp| == 7
    requires forall i :: 0 <= i < 7 ==> RankOf(machine[i]).Some? && RankOf(opp[i]).Some?
  {
    match v
    case Updated =>
      BestOfCombinations(machine) >= BestOfCombinations(opp)
    case Original =>
      var rows := |Combinations(machine, 5)|;
      BestScore(Repeat(machine, rows)) >= BestScore(Repeat(opp, rows))
  }

  /** `_find_winner(tup, folded)`: a fold decides; before the river there is no winner yet. */
  function FindWinner(tup: seq<Option<Card>>, folded: Folded, v: Version, draws: Draws): (r: Result<Option<bool>, string>)
    requires |tup| == 9
    ensures folded != Nobody ==> r == Ok(FoldWinner(folded))
    ensures folded == Nobody && tup[6].None? ==> r == Ok(None)
    ensures folded == Nobody && tup[6].Some? ==> (r.Ok? <==> DistinctDeckCards(tup[..7])) && (r.Ok? ==> r.value.Some?)
  {
    match folded
    case Opponent => Ok(Some(true))
    case Machine => Ok(Some(false))
    case Nobody =>
      if tup[6].None? then Ok(None)
      else match RandomShowdown(tup, v, draws)
        case Err(e) => Err(e)
        case Ok(w) => Ok(Some(w))
  }

  /**
   * In the updated file the machine wins the showdown exactly when some five of
   * its seven cards score at least as much as every five of the opponent's seven:
   * a best-of-21 comparison in which the machine wins ties.
   */
  lemma UpdatedShowdownIsBestOfSeven(tup: seq<Option<Card>>, draws: Draws)
    requires |tup| == 9 && DistinctDeckCards(tup[..7])
    ensures AllReadable(Combinations(Known(tup[..7]), 5)) && AllReadable(Combinations(OppSeven(tup, draws), 5))
    ensures RandomShowdown(tup, Updated, draws) == Ok(true) <==>
      exists k :: 0 <= k < |Combinations(Known(tup[..7]), 5)| &&
        Dominates(Combinations(OppSeven(tup, draws), 5), Combinations(Known(tup[..7]), 5)[k])
  {
    var machine, opp := Known(tup[..7]), OppSeven(tup, draws);
    ValidRanks(machine);
    ValidRanks(opp);
    assert RandomShowdown(tup, Updated, draws) == Ok(BestOfCombinations(machine) >= BestOfCombinations(opp));
    BestIffDominates(machine, opp);
  }

  /**
   * The original file's showdown scores the whole seven-card list on each of its
   * 21 rounds, so it compares the five cards `score_hand` reads: the machine's
   * two cards with the flop against the two drawn cards with the flop.
   */
  lemma OriginalShowdownScoresFirstFive(tup: seq<Option<Card>>, draws: Draws)
    requires |tup| == 9 && DistinctDeckCards(tup[..7])
    ensures Readable(Known(tup[..7])) && Readable(OppSeven(tup, draws))
    ensures RandomShowdown(tup, Original, draws) == Ok(ScoreHand(Known(tup[..7])) >= ScoreHand(OppSeven(tup, draws)))
  {
    var machine, opp := Known(tup[..7]), OppSeven(tup, draws);
    ValidRanks(machine);
    ValidRanks(opp);
    assert RandomShowdown(tup, Original, draws) == Ok(Compare(machine, opp, Original));
    OriginalCompareFirstFive(machine, opp);
  }

  /** Scoring a seven-card list once per row compares the first five cards of each. */
  lemma OriginalCompareFirstFive(machine: seq<Card>, opp: seq<Card>)
    requires |machine| == 7 && |opp| == 7
    requires forall i :: 0 <= i < 7 ==> ValidCard(machine[i]) && ValidCard(opp[i])
    ensures forall i :: 0 <= i < 7 ==> RankOf(machine[i]).Some? && RankOf(opp[i]).Some?
    ensures Readable(machine) && Readable(opp)
    ensures Compare(machine, opp, Original) == (ScoreHand(machine) >= ScoreHand(opp))
  {
    ValidRanks(machine);
    ValidRanks(opp);
    CombinationsNonEmpty(machine, 5);
    var rows := |Combinations(machine, 5)|;
    RepeatedBest(machine, rows);
    RepeatedBest(opp, rows);
  }

  /** The slots `_find_winner_real` hands to `score_hand` in each version. */
  function ScoredSlots(v: Version): nat {
    match v
    case Updated => 9
    case Original => 7
  }

  /** Every slot `score_hand` reads holds a readable card. */
  predicate ScoredReadable(tup: seq<Option<Card>>, v: Version)
    requires |tup| == 9
  {
    forall i :: 0 <= i < ScoredSlots(v) ==> ReadableSlot(tup[i])
  }

  /** Readable slots hold cards whose ranks parse. */
  lemma ReadableKnown(slots: seq<Option<Card>>)
    requires forall i :: 0 <= i < |slots| ==> ReadableSlot(slots[i])
    ensures Filled(slots) && forall i :: 0 <= i < |slots| ==> RankOf(Known(slots)[i]).Some?
  {
  }

  /**
   * The original comparison of `_find_winner_real`: on each of its 21 rounds it
   * scores the whole lists, of which `score_hand` reads the first five cards,
   * `tup[0..5]` against `tup[2..7]`.
   */
  function OriginalRealWins(seven: seq<Option<Card>>): bool
    requires |seven| == 7 && forall i :: 0 <= i < 7 ==> ReadableSlot(seven[i])
  {
    ReadableKnown(seven[..5]);
    ReadableKnown(seven[2..]);
    var rows := |Combinations(seven, 5)|;
    BestScore(Repeat(Known(seven[..5]), rows)) >= BestScore(Repeat(Known(seven[2..]), rows))
  }

  /**
   * The showdown of `_find_winner_real`, with the opponent's real cards in slots
   * 7-8; `score_hand` raises on an empty slot or a rank that does not parse. The
   * updated file compares the best five of `tup[0..7]` with the best five of
   * `tup[2..9]`.
   */
  function RealShowdown(tup: seq<Option<Card>>, v: Version): (r: Result<bool, string>)
    requires |tup| == 9
    ensures r.Ok? <==> ScoredReadable(tup, v)
  {
    if !ScoredReadable(tup, v) then Err("score_hand raised")
    else match v
      case Updated =>
        ReadableKnown(tup[..7]);
        ReadableKnown(tup[2..]);
        Ok(Compare(Known(tup[..7]), Known(tup[2..]), Updated))
      case Original =>
        Ok(OriginalRealWins(tup[..7]))
  }

  /** `_find_winner_real(tup, folded)`: the winner of the game played with the opponent's real cards. */
  method FindWinnerReal(tup: seq<Option<Card>>, folded: Folded, v: Version) returns (r: Result<Option<bool>, string>)
    requires |tup| == 9
    ensures folded != Nobody ==> r == Ok(FoldWinner(folded))
    ensures folded == Nobody && tup[6].None? ==> r == Ok(None)
    ensures folded == Nobody && tup[6].Some? ==>
      (r.Ok? <==> RealShowdown(tup, v).Ok?) && (r.Ok? ==> r.value == Some(RealShowdown(tup, v).value))
  {
    if folded == Opponent {
      return Ok(Some(true));
    } else if folded == Machine {
      return Ok(Some(false));
    }
    if tup[6].None? {
      return Ok(None);
    }
    if exists i :: 0 <= i < ScoredSlots(v) && !ReadableSlot(tup[i]) {
      return Err("score_hand raised");
    }
    var scoreMachine, scoreOpp;
    if v == Updated {
      ReadableKnown(tup[..7]);
      ReadableKnown(tup[2..]);
      var machine, opp := Known(tup[..7]), Known(tup[2..]);
      CombinationsReadable(machine);
      CombinationsReadable(opp);
      scoreMachine := BestScoreLoop(Combinations(machine, 5));
      scoreOpp := BestScoreLoop(Combinations(opp, 5));
    } else {
      var seven := tup[..7];
      ReadableKnown(seven[..5]);
      ReadableKnown(seven[2..]);
      var rows := |Combinations(seven, 5)|;
      scoreMachine := BestScoreLoop(Repeat(Known(seven[..5]), rows));
      scoreOpp := BestScoreLoop(Repeat(Known(seven[2..]), rows));
    }
    r := Ok(Some(scoreMachine >= scoreOpp));
  }

  /** The cards of a board whose nine slots hold distinct deck cards. */
  predicate FullDeal(tup: seq<Option<Card>>) {
    |tup| == 9 && DistinctDeckCards(tup)
  }

  /** Both players' seven cards of a full deal are deck cards. */
  lemma FullDealCards(tup: seq<Option<Card>>)
    requires FullDeal(tup)
    ensures ScoredReadable(tup, Updated) && Filled(tup[..7]) && Filled(tup[2..])
    ensures forall i :: 0 <= i < 7 ==> ValidCard(Known(tup[..7])[i]) && ValidCard(Known(tup[2..])[i])
  {
    forall i | 0 <= i < 9 ensures ReadableSlot(tup[i]) {
      ValidCardParts(Known(tup)[i]);
    }
    forall i | 0 <= i < 7 ensures ValidCard(Known(tup[..7])[i]) && ValidCard(Known(tup[2..])[i]) {
      assert tup[..7][i] == tup[i] && tup[2..][i] == tup[i + 2];
    }
  }

  /**
   * With the opponent's real cards, the updated showdown is the best-of-seven
   * comparison: the machine wins exactly when some five of its seven cards score
   * at least every five of the opponent's seven `tup[2..9]`.
   */
  lemma RealShowdownIsBestOfSeven(tup: seq<Option<Card>>)
    requires FullDeal(tup)
    ensures Filled(tup[..7]) && Filled(tup[2..])
    ensures AllReadable(Combinations(Known(tup[..7]), 5)) && AllReadable(Combinations(Known(tup[2..]), 5))
    ensures RealShowdown(tup, Updated) == Ok(true) <==>
      exists k :: 0 <= k < |Combinations(Known(tup[..7]), 5)| &&
        Dominates(Combinations(Known(tup[2..]), 5), Combinations(Known(tup[..7]), 5)[k])
  {
    FullDealCards(tup);
    var machine, opp := Known(tup[..7]), Known(tup[2..]);
    BestIffDominates(machine, opp);
    assert RealShowdown(tup, Updated) == Ok(Compare(machine, opp, Updated));
  }

  /**
   * The original `_find_winner_real` never looks at the opponent's real cards:
   * replacing slots 7 and 8 by anything leaves the outcome unchanged.
   */
  lemma OriginalRealIgnoresOpponentCards(tup: seq<Option<Card>>, c7: Option<Card>, c8: Option<Card>)
    requires |tup| == 9
    ensures RealShowdown(tup[7 := c7][8 := c8], Original) == RealShowdown(tup, Original)
  {
    var other := tup[7 := c7][8 := c8];
    assert other[..7] == tup[..7];
    assert ScoredReadable(other, Original) == ScoredReadable(tup, Original);
  }

  // ---------------------------------------------------------------------------
  // Moves

  /**
   * `make_move(action, amount, real)`: the bet, then the winner. With `real` (here `live`)
   * only a fold decides; otherwise `_find_winner` does, which plays out a random
   * showdown once the river is dealt.
   */
  function MakeMove(b: PokerBoard, action: Action, amount: int, live: bool, v: Version, draws: Draws): (r: Result<PokerBoard, string>)
    requires NineSlots(b)
    ensures live || action == Fold || b.tup[6].None? ==> r.Ok?
    ensures r.Ok? ==> NineSlots(r.value) && Chips(r.value) == Chips(b) && r.value.turn == !b.turn && Settled(r.value)
    ensures r.Ok? ==> r.value == Bet(b, action, amount).(winner := r.value.winner, terminal := r.value.winner.Some?)
    ensures r.Ok? && (live || b.tup[6].None?) ==> r.value.winner == FoldWinner(r.value.folded)
    ensures action == Fold ==> r.Ok? && r.value.terminal && r.value.winner == Some(!b.turn)
    ensures !live && action != Fold && b.tup[6].Some? ==>
      (r.Ok? <==> DistinctDeckCards(b.tup[..7])) && (r.Ok? ==> r.value.terminal)
  {
    var s := Bet(b, action, amount);
    var w := if live then Ok(FoldWinner(s.folded)) else FindWinner(b.tup, s.folded, v, draws);
    match w
    case Err(e) => Err(e)
    case Ok(winner) => Ok(s.(winner := winner, terminal := winner.Some?))
  }

  /** The move `find_children` makes for one offer: `board.make_move(action, amount)`. */
  function Move(b: PokerBoard, o: Offer, v: Version, draws: Draws): Result<PokerBoard, string>
    requires NineSlots(b)
  {
    MakeMove(b, o.action, o.amount, false, v, draws)
  }

  /** Whether the player to move has raised in this betting round. */
  function MoverRaised(b: PokerBoard): bool {
    if b.turn then b.raisedMa else b.raisedOpp
  }

  function OtherRaised(b: PokerBoard): bool {
    if b.turn then b.raisedOpp else b.raisedMa
  }

  /** What the player to move must add to match the other player's raises. */
  function Deficit(b: PokerBoard): int {
    if b.turn then b.raisedMoneyOpp - b.raisedMoneyMa else b.raisedMoneyMa - b.raisedMoneyOpp
  }

  /** The other player has raised and the mover has not matched it. */
  predicate Facing(b: PokerBoard) {
    (OtherRaised(b) && MoverRaised(b) && Deficit(b) > 0) || (OtherRaised(b) && !MoverRaised(b))
  }

  /**
   * The mover may check. The two sides test different flags: the machine needs
   * the opponent not to have raised, the opponent needs not to have raised itself.
   */
  predicate MayCheck(b: PokerBoard) {
    if b.turn then !b.raisedOpp && (!b.checkedMa || !b.raisedMa)
    else !b.raisedOpp && (!b.checkedOpp || !b.raisedOpp)
  }

  /** The mover may open the raising: it has not raised and has chips. */
  predicate MayRaise(b: PokerBoard) {
    !MoverRaised(b) && MoverStack(b) > 0
  }

  /** Python's `int(x / 5)`, which truncates toward zero. */
  function TruncDiv5(x: int): (q: int)
    ensures x >= 0 ==> 0 <= 5 * q <= x < 5 * q + 5
    ensures x < 0 ==> q <= 0
  {
    if x >= 0 then x / 5 else -((-x) / 5)
  }

  /** `for intervall in range(1, n + 1)`: raises of 5, 10, ..., 5n. */
  function Ladder(n: int): (r: seq<Offer>)
    ensures |r| == if n > 0 then n else 0
    ensures forall i :: 0 <= i < |r| ==> r[i] == Offer(Raise, 5 * (i + 1))
  {
    seq(if n > 0 then n else 0, i => Offer(Raise, 5 * (i + 1)))
  }

  /**
   * The calls `find_children` makes on a board in a betting round. Facing a
   * raise, the mover calls (the deficit, or its whole stack when that is
   * smaller) or folds; otherwise it checks and, unless it has raised already,
   * raises any multiple of 5 up to the smaller stack.
   */
  function Offers(b: PokerBoard): seq<Offer> {
    if Facing(b) then
      [Offer(Raise, MinInt(Deficit(b), MoverStack(b))), Offer(Fold, 0)]
    else if MayCheck(b) then
      [Offer(Check, 0)] + (if MayRaise(b) then Ladder(TruncDiv5(MinInt(MoverStack(b), OtherStack(b)))) else [])
    else []
  }

  /** The result of each offer's move. */
  function MoveResults(b: PokerBoard, offers: seq<Offer>, v: Version, draws: Draws): (r: seq<Result<PokerBoard, string>>)
    requires NineSlots(b)
    ensures |r| == |offers| && forall k :: 0 <= k < |offers| ==> r[k] == Move(b, offers[k], v, draws)
  {
    seq(|offers|, k requires 0 <= k < |offers| => Move(b, offers[k], v, draws))
  }

  /** `moves.add(board.make_move(...))` for each offer in turn. */
  function Apply(b: PokerBoard, offers: seq<Offer>, v: Version, draws: Draws): Result<set<PokerBoard>, string>
    requires NineSlots(b)
  {
    Gather(MoveResults(b, offers, v, draws))
  }

  // ---------------------------------------------------------------------------
  // Revealing the community cards

  /** The slots `assign_cards_to_middle_all_combinations` takes out of a fresh deck. */
  function AlreadyDealt(tup: seq<Option<Card>>, index: nat): seq<Option<Card>>
    requires |tup| == 9
  {
    tup[..5] + (if index == 6 then [tup[5]] else [])
  }

  /** A new betting round: the turn passes, nobody has checked or raised, nobody has won. */
  function NewRound(b: PokerBoard, tup: seq<Option<Card>>): PokerBoard {
    b.(tup := tup, turn := !b.turn, winner := None, terminal := false,
       raisedOpp := false, checkedOpp := false, raisedMa := false, checkedMa := false)
  }

  /** The child for one card placed in slot `index`; the river ends the game in a showdown. */
  function Placed(b: PokerBoard, index: nat, card: Card, v: Version, draws: Draws): Result<PokerBoard, string>
    requires NineSlots(b) && index < 9
  {
    var tup := b.tup[index := Some(card)];
    if index == 6 then
      match FindWinner(tup, Nobody, v, draws)
      case Err(e) => Err(e)
      case Ok(w) => Ok(NewRound(b, tup).(winner := w, terminal := true))
    else Ok(NewRound(b, tup))
  }

  /** `for random_card in deck: moves.add(...)`. */
  function PlaceEach(b: PokerBoard, index: nat, cards: seq<Card>, v: Version, draws: Draws): Result<set<PokerBoard>, string>
    requires NineSlots(b) && index < 9
  {
    Gather(PlaceResults(b, index, cards, v, draws))
  }

  /** The result of placing each card. */
  function PlaceResults(b: PokerBoard, index: nat, cards: seq<Card>, v: Version, draws: Draws): (r: seq<Result<PokerBoard, string>>)
    requires NineSlots(b) && index < 9
    ensures |r| == |cards| && forall k :: 0 <= k < |cards| ==> r[k] == Placed(b, index, cards[k], v, draws)
  {
    seq(|cards|, k requires 0 <= k < |cards| => Placed(b, index, cards[k], v, draws))
  }

  /**
   * `assign_cards_to_middle_all_combinations(index)`: every way to deal the next
   * card(s) from the deck without the cards already out (a ValueError if one of
   * those is missing). Index 1 deals slots 5 and 6 together, one child per pair.
   */
  function AllCombinations(b: PokerBoard, index: nat, v: Version, draws: Draws): (r: Result<set<PokerBoard>, string>)
    requires NineSlots(b) && index < 9
  {
    match RemoveAll(Deck(), AlreadyDealt(b.tup, index))
    case None => Err("ValueError")
    case Some(rest) =>
      if index == 1 then
        CombinationRows(rest, 2);
        Ok(set row | row in Combinations(rest, 2) :: NewRound(b, b.tup[5 := Some(row[0])][6 := Some(row[1])]))
      else PlaceEach(b, index, rest, v, draws)
  }

  /** One card dealt into slot 5 or 6: it opens a new round, and the river also decides the winner. */
  lemma PlacedSpec(b: PokerBoard, index: nat, card: Card, v: Version, draws: Draws)
    requires NineSlots(b) && (index == 5 || index == 6)
    requires DistinctDeckCards(AlreadyDealt(b.tup, index)) && ValidCard(card) && card !in Known(AlreadyDealt(b.tup, index))
    ensures Placed(b, index, card, v, draws).Ok?
    ensures var c := Placed(b, index, card, v, draws).value;
      && c.tup == b.tup[index := Some(card)]
      && c == NewRound(b, c.tup).(winner := c.winner, terminal := c.terminal)
      && DistinctDeckCards(c.tup[..index + 1])
      && (c.terminal <==> index == 6) && (c.winner.Some? <==> index == 6)
  {
    var already := AlreadyDealt(b.tup, index);
    var tup := b.tup[index := Some(card)];
    assert tup[..index + 1] == already + [Some(card)];
    ExtendDistinct(already, card);
  }

  /** Placing each of the deck cards not yet out: every child opens a round, and none fails. */
  lemma PlaceAll(b: PokerBoard, index: nat, rest: seq<Card>, v: Version, draws: Draws)
    requires NineSlots(b) && (index == 5 || index == 6) && DistinctDeckCards(AlreadyDealt(b.tup, index))
    requires forall card :: card in rest ==> ValidCard(card) && card !in Known(AlreadyDealt(b.tup, index))
    ensures PlaceEach(b, index, rest, v, draws).Ok?
    ensures forall c :: c in PlaceEach(b, index, rest, v, draws).value ==>
      && NineSlots(c) && c.tup == b.tup[index := c.tup[index]] && c.tup[index].Some? && c.tup[index].value in rest
      && c == NewRound(b, c.tup).(winner := c.winner, terminal := c.terminal)
      && DistinctDeckCards(c.tup[..index + 1])
      && (c.terminal <==> index == 6) && (c.winner.Some? <==> index == 6)
  {
    var results := PlaceResults(b, index, rest, v, draws);
    forall k | 0 <= k < |rest| ensures results[k].Ok? {
      PlacedSpec(b, index, rest[k], v, draws);
    }
    GatherSpec(results);
    forall c | c in Gather(results).value
      ensures NineSlots(c) && c.tup == b.tup[index := c.tup[index]] && c.tup[index].Some? && c.tup[index].value in rest
      ensures c == NewRound(b, c.tup).(winner := c.winner, terminal := c.terminal)
      ensures DistinctDeckCards(c.tup[..index + 1])
      ensures (c.terminal <==> index == 6) && (c.winner.Some? <==> index == 6)
    {
      var k :| 0 <= k < |results| && results[k] == Ok(c);
      PlacedSpec(b, index, rest[k], v, draws);
    }
  }

  /** Every card of `rest` is placed in some child. */
  lemma PlaceCovers(b: PokerBoard, index: nat, rest: seq<Card>, card: Card, v: Version, draws: Draws)
    requires NineSlots(b) && (index == 5 || index == 6) && DistinctDeckCards(AlreadyDealt(b.tup, index))
    requires forall card :: card in rest ==> ValidCard(card) && card !in Known(AlreadyDealt(b.tup, index))
    requires card in rest
    ensures PlaceEach(b, index, rest, v, draws).Ok?
    ensures exists c :: c in PlaceEach(b, index, rest, v, draws).value && c.tup == b.tup[index := Some(card)]
  {
    PlaceAll(b, index, rest, v, draws);
    var results := PlaceResults(b, index, rest, v, draws);
    GatherSpec(results);
    var k :| 0 <= k < |rest| && rest[k] == card;
    PlacedSpec(b, index, card, v, draws);
    assert results[k] == Ok(results[k].value);
  }

  /**
   * Dealing the turn (index 5) or the river (index 6) succeeds exactly when the
   * cards already out are distinct deck cards; there is then one child for
   * every deck card not yet out, and no other.
   */
  lemma DealOne(b: PokerBoard, index: nat, v: Version, draws: Draws)
    requires NineSlots(b) && (index == 5 || index == 6)
    ensures AllCombinations(b, index, v, draws).Ok? <==> DistinctDeckCards(AlreadyDealt(b.tup, index))
    ensures AllCombinations(b, index, v, draws).Ok? ==> forall c :: c in AllCombinations(b, index, v, draws).value ==>
      && NineSlots(c) && c.tup == b.tup[index := c.tup[index]]
      && c == NewRound(b, c.tup).(winner := c.winner, terminal := c.terminal)
      && DistinctDeckCards(c.tup[..index + 1])
      && (c.terminal <==> index == 6) && (c.winner.Some? <==> index == 6)
    ensures AllCombinations(b, index, v, draws).Ok? ==> forall card ::
      (exists c :: c in AllCombinations(b, index, v, draws).value && c.tup[index] == Some(card)) <==>
      ValidCard(card) && card !in Known(AlreadyDealt(b.tup, index))
  {
    var already := AlreadyDealt(b.tup, index);
    RemoveFromDeckSucceeds(already);
    if DistinctDeckCards(already) {
      RemoveFromDeckRest(already);
      var rest := RemoveAll(Deck(), already).value;
      assert AllCombinations(b, index, v, draws) == PlaceEach(b, index, rest, v, draws);
      PlaceAll(b, index, rest, v, draws);
      forall card | card in rest
        ensures exists c :: c in PlaceEach(b, index, rest, v, draws).value && c.tup[index] == Some(card)
      {
        PlaceCovers(b, index, rest, card, v, draws);
      }
    }
  }

  lemma BothDealt(tup: seq<Option<Card>>, x: Card, y: Card)
    requires |tup| == 9
    ensures tup[5 := Some(x)][6 := Some(y)][..7] == tup[..5] + [Some(x)] + [Some(y)]
    ensures tup[5 := Some(x)][6 := Some(y)][..5] == tup[..5] && tup[5 := Some(x)][6 := Some(y)][7..] == tup[7..]
  {
  }

  /** Slots 5 and 6 of `c` hold `x` and `y`, in some order. */
  predicate PairIs(c: PokerBoard, x: Card, y: Card) {
    NineSlots(c) && {c.tup[5], c.tup[6]} == {Some(x), Some(y)}
  }

  /** Every pair of deck cards not yet out is dealt into slots 5 and 6 by some child of the all-in deal. */
  lemma AllInCovers(b: PokerBoard, v: Version, draws: Draws, x: Card, y: Card)
    requires NineSlots(b) && DistinctDeckCards(b.tup[..5])
    requires ValidCard(x) && ValidCard(y) && x != y && x !in Known(b.tup[..5]) && y !in Known(b.tup[..5])
    ensures AllCombinations(b, 1, v, draws).Ok?
    ensures exists c :: c in AllCombinations(b, 1, v, draws).value && PairIs(c, x, y)
  {
    var already := AlreadyDealt(b.tup, 1);
    assert already == b.tup[..5];
    RemoveFromDeckSucceeds(already);
    RemoveFromDeckRest(already);
    var rest := RemoveAll(Deck(), already).value;
    var row := PairRow(rest, x, y);
    var c := NewRound(b, b.tup[5 := Some(row[0])][6 := Some(row[1])]);
    assert c in AllCombinations(b, 1, v, draws).value;
    PairOfRow(b, row, x, y);
  }

  /** The child dealing `row` has the row's cards in slots 5 and 6. */
  lemma PairOfRow(b: PokerBoard, row: seq<Card>, x: Card, y: Card)
    requires NineSlots(b) && |row| == 2
    requires {Some(row[0]), Some(row[1])} == {Some(x), Some(y)}
    ensures PairIs(NewRound(b, b.tup[5 := Some(row[0])][6 := Some(row[1])]), x, y)
  {
    var c := NewRound(b, b.tup[5 := Some(row[0])][6 := Some(row[1])]);
    assert c.tup[5] == Some(row[0]) && c.tup[6] == Some(row[1]);
  }

  /** A row of `combinations(rest, 2)` holding exactly the two given cards. */
  lemma PairRow(rest: seq<Card>, x: Card, y: Card) returns (row: seq<Card>)
    requires Distinct(rest) && x in rest && y in rest && x != y
    ensures row in Combinations(rest, 2) && |row| == 2
    ensures {Some(row[0]), Some(row[1])} == {Some(x), Some(y)}
  {
    CombinationCovers(rest, [x, y]);
    row :| row in Combinations(rest, 2) && forall w :: w in row <==> w in [x, y];
    CombinationsExact(rest, 2, row);
    PairMembers(row, x, y);
  }

  /** A two-card row with the same members as `[x, y]` deals the same two slots. */
  lemma PairMembers(row: seq<Card>, x: Card, y: Card)
    requires |row| == 2 && forall w :: w in row <==> w in [x, y]
    ensures {Some(row[0]), Some(row[1])} == {Some(x), Some(y)}
  {
    assert row == [row[0], row[1]];
    assert row[0] in [x, y] && row[1] in [x, y];
    assert x in row && y in row;
    SamePair(row[0], row[1], x, y);
  }

  /** Two pairs of cards, each member of one among the other's, give the same set of dealt slots. */
  lemma SamePair(a: Card, b: Card, x: Card, y: Card)
    requires (a == x || a == y) && (b == x || b == y)
    requires (x == a || x == b) && (y == a || y == b)
    ensures {Some(a), Some(b)} == {Some(x), Some(y)}
  {
  }

  /**
   * With one player all in, the two remaining community cards are dealt at once:
   * one child per pair of deck cards not yet out, each opening a new round with
   * the same stacks and pot.
   */
  lemma AllInDeal(b: PokerBoard, v: Version, draws: Draws)
    requires NineSlots(b)
    ensures AllCombinations(b, 1, v, draws).Ok? <==> DistinctDeckCards(b.tup[..5])
    ensures AllCombinations(b, 1, v, draws).Ok? ==> forall c :: c in AllCombinations(b, 1, v, draws).value ==>
      && NineSlots(c) && c.tup[..5] == b.tup[..5] && c.tup[7..] == b.tup[7..]
      && DistinctDeckCards(c.tup[..7])
      && c == NewRound(b, c.tup)
    ensures DistinctDeckCards(b.tup[..5]) ==> forall x, y ::
      ValidCard(x) && ValidCard(y) && x != y && x !in Known(b.tup[..5]) && y !in Known(b.tup[..5]) ==>
      exists c :: c in AllCombinations(b, 1, v, draws).value && PairIs(c, x, y)
  {
    var already := AlreadyDealt(b.tup, 1);
    assert already == b.tup[..5];
    RemoveFromDeckSucceeds(already);
    if DistinctDeckCards(already) {
      forall x, y | ValidCard(x) && ValidCard(y) && x != y && x !in Known(b.tup[..5]) && y !in Known(b.tup[..5])
        ensures exists c :: c in AllCombinations(b, 1, v, draws).value && PairIs(c, x, y)
      {
        AllInCovers(b, v, draws, x, y);
      }
      RemoveFromDeckRest(already);
      var rest := RemoveAll(Deck(), already).value;
      CombinationRows(rest, 2);
      forall c | c in AllCombinations(b, 1, v, draws).value
        ensures NineSlots(c) && c.tup[..5] == b.tup[..5] && c.tup[7..] == b.tup[7..]
        ensures DistinctDeckCards(c.tup[..7]) && c == NewRound(b, c.tup)
      {
        var row :| row in Combinations(rest, 2) && c == NewRound(b, b.tup[5 := Some(row[0])][6 := Some(row[1])]);
        SubmultisetDistinct(row, rest);
        assert row[0] in row && row[1] in row;
        ExtendDistinct(already, row[0]);
        var six := already + [Some(row[0])];
        assert Known(six)[..5] == Known(already);
        ExtendDistinct(six, row[1]);
        BothDealt(b.tup, row[0], row[1]);
      }
    }
  }

  // ---------------------------------------------------------------------------
  // find_children

  /** Either stack is empty and the raises are level: `find_children` deals the rest of the board. */
  predicate AllIn(b: PokerBoard) {
    (b.moneyOpp == 0 || b.moneyMachine == 0) && b.raisedMoneyOpp == b.raisedMoneyMa
  }

  /** Both players checked, or both raised the same amount: the betting round is over. */
  predicate RoundOver(b: PokerBoard) {
    (b.checkedOpp && b.checkedMa) || (b.raisedOpp && b.raisedMa && b.raisedMoneyOpp == b.raisedMoneyMa)
  }

  /**
   * `find_children`: deal the rest of the board when a player is all in; deal
   * the turn, the river or decide the showdown when a round is over; no moves
   * on a finished board; otherwise the moves of the betting round.
   */
  function Children(b: PokerBoard, v: Version, draws: Draws): Result<set<PokerBoard>, string>
    requires NineSlots(b)
  {
    if AllIn(b) then AllCombinations(b, 1, v, draws)
    else if RoundOver(b) && b.tup[5].None? then AllCombinations(b, 5, v, draws)
    else if RoundOver(b) && b.tup[6].None? then AllCombinations(b, 6, v, draws)
    else if RoundOver(b) then
      match FindWinner(b.tup, Nobody, v, draws)
      case Err(e) => Err(e)
      case Ok(w) => Ok({b.(winner := w, terminal := true)})
    else if b.terminal then Ok({})
    else Apply(b, Offers(b), v, draws)
  }

  /** The moves `find_children` collects are exactly the results of its offers, unless one fails. */
  lemma ApplyMembers(b: PokerBoard, offers: seq<Offer>, v: Version, draws: Draws)
    requires NineSlots(b)
    ensures Apply(b, offers, v, draws).Ok? <==> forall k :: 0 <= k < |offers| ==> Move(b, offers[k], v, draws).Ok?
    ensures Apply(b, offers, v, draws).Ok? ==> forall c :: c in Apply(b, offers, v, draws).value <==>
      exists k :: 0 <= k < |offers| && Move(b, offers[k], v, draws) == Ok(c)
  {
    var results := MoveResults(b, offers, v, draws);
    GatherSpec(results);
    if Apply(b, offers, v, draws).Ok? {
      forall c ensures c in Apply(b, offers, v, draws).value <==> exists k :: 0 <= k < |offers| && Move(b, offers[k], v, draws) == Ok(c) {
        if c in Apply(b, offers, v, draws).value {
          var k :| 0 <= k < |results| && results[k] == Ok(c);
        }
      }
    }
  }

  /** The child of a move before the river: only a fold decides the game. */
  function BeforeRiver(b: PokerBoard, o: Offer): PokerBoard {
    var s := Bet(b, o.action, o.amount);
    s.(winner := FoldWinner(s.folded), terminal := s.folded != Nobody)
  }

  /** Before the river no move fails, and each move's child is decided by the bet alone. */
  lemma ApplyBeforeRiver(b: PokerBoard, offers: seq<Offer>, v: Version, draws: Draws)
    requires NineSlots(b) && b.tup[6].None?
    ensures Apply(b, offers, v, draws) == Ok(set k | 0 <= k < |offers| :: BeforeRiver(b, offers[k]))
  {
    var results := MoveResults(b, offers, v, draws);
    forall k | 0 <= k < |offers| ensures results[k] == Ok(BeforeRiver(b, offers[k])) {
      assert results[k] == MakeMove(b, offers[k].action, offers[k].amount, false, v, draws);
    }
    assert results == BetResults(b, offers);
    GatherBets(b, offers);
    assert Apply(b, offers, v, draws) == Gather(results);
  }

  /** Each offer's bet, as a move that succeeds. */
  function BetResults(b: PokerBoard, offers: seq<Offer>): (r: seq<Result<PokerBoard, string>>)
    ensures |r| == |offers| && forall k :: 0 <= k < |offers| ==> r[k] == Ok(BeforeRiver(b, offers[k]))
  {
    seq(|offers|, k requires 0 <= k < |offers| => Ok(BeforeRiver(b, offers[k])))
  }

  /** Moves that all succeed with their bets gather into the set of those bets. */
  lemma GatherBets(b: PokerBoard, offers: seq<Offer>)
    ensures Gather(BetResults(b, offers)) == Ok(set k | 0 <= k < |offers| :: BeforeRiver(b, offers[k]))
  {
    var results := BetResults(b, offers);
    GatherSpec(results);
    var kids := set k | 0 <= k < |offers| :: BeforeRiver(b, offers[k]);
    assert Gather(results).Ok?;
    forall c | c in Gather(results).value ensures c in kids {
      var k :| 0 <= k < |results| && results[k] == Ok(c);
    }
    forall c | c in kids ensures c in Gather(results).value {
      var k :| 0 <= k < |offers| && c == BeforeRiver(b, offers[k]);
      assert results[k] == Ok(c);
    }
    assert Gather(results).value == kids;
  }

  /**
   * Every child keeps the nine slots and every chip, and a finished child
   * always has a winner, so `check_board_terminal` pays its pot out in full.
   */
  lemma ChildrenInvariant(b: PokerBoard, v: Version, draws: Draws)
    requires NineSlots(b)
    ensures Children(b, v, draws).Ok? ==> forall c :: c in Children(b, v, draws).value ==>
      NineSlots(c) && Chips(c) == Chips(b) && Settled(c)
  {
    if AllIn(b) {
      DealInvariant(b, 1, v, draws);
    } else if RoundOver(b) && b.tup[5].None? {
      DealInvariant(b, 5, v, draws);
    } else if RoundOver(b) && b.tup[6].None? {
      DealInvariant(b, 6, v, draws);
    } else if RoundOver(b) || b.terminal {
    } else {
      BettingChildren(b, v, draws);
      ApplyInvariant(b, Offers(b), v, draws);
    }
  }

  /** Every deal keeps the nine slots and every chip, and settles its winner. */
  lemma DealInvariant(b: PokerBoard, index: nat, v: Version, draws: Draws)
    requires NineSlots(b) && (index == 1 || index == 5 || index == 6)
    ensures AllCombinations(b, index, v, draws).Ok? ==> forall c :: c in AllCombinations(b, index, v, draws).value ==>
      NineSlots(c) && Chips(c) == Chips(b) && Settled(c)
  {
    if index == 1 {
      AllInDeal(b, v, draws);
    } else {
      DealOne(b, index, v, draws);
    }
  }

  /** Every move of a betting round keeps the nine slots and every chip, and settles its winner. */
  lemma ApplyInvariant(b: PokerBoard, offers: seq<Offer>, v: Version, draws: Draws)
    requires NineSlots(b)
    ensures Apply(b, offers, v, draws).Ok? ==> forall c :: c in Apply(b, offers, v, draws).value ==>
      NineSlots(c) && Chips(c) == Chips(b) && Settled(c)
  {
    ApplyMembers(b, offers, v, draws);
  }

  /** In a betting round `find_children` makes the moves `Offers` lists. */
  lemma BettingChildren(b: PokerBoard, v: Version, draws: Draws)
    requires NineSlots(b) && !AllIn(b) && !RoundOver(b) && !b.terminal
    ensures Children(b, v, draws) == Apply(b, Offers(b), v, draws)
  {
  }

  /**
   * Facing a raise before the river, the mover has exactly two moves: fold, which
   * ends the game for the other player, or call with the deficit or its whole
   * stack, whichever is smaller.
   */
  lemma FacingChildren(b: PokerBoard, v: Version, draws: Draws)
    requires NineSlots(b) && b.tup[6].None? && !AllIn(b) && !RoundOver(b) && !b.terminal && Facing(b)
    ensures Children(b, v, draws).Ok? && |Children(b, v, draws).value| == 2
    ensures forall c :: c in Children(b, v, draws).value ==> Chips(c) == Chips(b) && c.turn == !b.turn
    ensures exists c :: c in Children(b, v, draws).value && c.terminal && c.winner == Some(!b.turn) && c.moneyMiddle == b.moneyMiddle
    ensures exists c :: c in Children(b, v, draws).value && !c.terminal && c.moneyMiddle == b.moneyMiddle + MinInt(Deficit(b), MoverStack(b)) &&
                        OtherStack(c) == MoverStack(b) - MinInt(Deficit(b), MoverStack(b))
  {
    var offers := [Offer(Raise, MinInt(Deficit(b), MoverStack(b))), Offer(Fold, 0)];
    assert Offers(b) == offers;
    BettingChildren(b, v, draws);
    ApplyBeforeRiver(b, offers, v, draws);
    PairOfChildren(b, offers);
    FacingBets(b);
    assert Children(b, v, draws) == Ok({BeforeRiver(b, offers[0]), BeforeRiver(b, offers[1])});
  }

  /** The call and the fold of a board facing a raise. */
  lemma FacingBets(b: PokerBoard)
    requires Facing(b)
    ensures var call := BeforeRiver(b, Offer(Raise, MinInt(Deficit(b), MoverStack(b))));
      && Chips(call) == Chips(b) && call.turn == !b.turn && !call.terminal
      && call.moneyMiddle == b.moneyMiddle + MinInt(Deficit(b), MoverStack(b))
      && OtherStack(call) == MoverStack(b) - MinInt(Deficit(b), MoverStack(b))
    ensures var fold := BeforeRiver(b, Offer(Fold, 0));
      && Chips(fold) == Chips(b) && fold.turn == !b.turn
      && fold.terminal && fold.winner == Some(!b.turn) && fold.moneyMiddle == b.moneyMiddle
  {
  }

  /** Two offers give the set of their two children. */
  lemma PairOfChildren(b: PokerBoard, offers: seq<Offer>)
    requires |offers| == 2
    ensures (set k | 0 <= k < |offers| :: BeforeRiver(b, offers[k])) == {BeforeRiver(b, offers[0]), BeforeRiver(b, offers[1])}
  {
    var kids := set k | 0 <= k < |offers| :: BeforeRiver(b, offers[k]);
    assert BeforeRiver(b, offers[0]) in kids;
    assert BeforeRiver(b, offers[1]) in kids;
  }

  /** The child of the `k`-th open move: a check for `k` = 0, a raise of `5k` otherwise. */
  lemma OpenMove(b: PokerBoard, k: nat)
    requires !Facing(b) && MayCheck(b) && k < |Offers(b)|
    ensures var c := BeforeRiver(b, Offers(b)[k]);
      && !c.terminal && Chips(c) == Chips(b) && c.turn == !b.turn
      && (k == 0 ==> c.moneyMiddle == b.moneyMiddle && c.folded == Nobody && (if b.turn then c.checkedMa else c.checkedOpp))
      && (k > 0 ==> c.moneyMiddle == b.moneyMiddle + 5 * k && RaiseAllowed(b, 5 * k))
  {
    var offers := Offers(b);
    if k > 0 {
      var m := MinInt(MoverStack(b), OtherStack(b));
      assert MayRaise(b) && offers == [Offer(Check, 0)] + Ladder(TruncDiv5(m));
      assert offers[k] == Offer(Raise, 5 * k);
      LadderBound(m, k);
    }
  }

  /** A raise among the open moves adds a positive multiple of 5 no larger than either stack. */
  lemma OpenRaiseBounded(b: PokerBoard, c: PokerBoard)
    requires !Facing(b) && MayCheck(b)
    requires c in set k | 0 <= k < |Offers(b)| :: BeforeRiver(b, Offers(b)[k])
    ensures !c.terminal && Chips(c) == Chips(b) && c.turn == !b.turn
    ensures c.moneyMiddle != b.moneyMiddle ==> RaiseAllowed(b, c.moneyMiddle - b.moneyMiddle)
  {
    var k :| 0 <= k < |Offers(b)| && c == BeforeRiver(b, Offers(b)[k]);
    OpenMove(b, k);
    if k > 0 {
      assert c.moneyMiddle - b.moneyMiddle == 5 * k;
    }
  }

  /** Every multiple of 5 up to the smaller stack is offered as a raise to a player who may raise. */
  lemma OpenRaiseOffered(b: PokerBoard, a: int)
    requires !Facing(b) && MayCheck(b) && RaiseAllowed(b, a)
    ensures RaisesBy(set k | 0 <= k < |Offers(b)| :: BeforeRiver(b, Offers(b)[k]), b, a)
  {
    var m := MinInt(MoverStack(b), OtherStack(b));
    var j := a / 5;
    assert 1 <= j <= TruncDiv5(m);
    assert Offers(b) == [Offer(Check, 0)] + Ladder(TruncDiv5(m));
    OpenMove(b, j);
    var c := BeforeRiver(b, Offers(b)[j]);
    assert c in set k | 0 <= k < |Offers(b)| :: BeforeRiver(b, Offers(b)[k]);
  }

  /** Some child has `a` more chips in the pot. */
  predicate RaisesBy(kids: set<PokerBoard>, b: PokerBoard, a: int) {
    exists c :: c in kids && c.moneyMiddle == b.moneyMiddle + a
  }

  /** A raise of `a` is open to the mover: it has not raised, and `a` is a positive multiple of 5 covered by both stacks. */
  predicate RaiseAllowed(b: PokerBoard, a: int) {
    MayRaise(b) && a > 0 && a % 5 == 0 && a <= MoverStack(b) && a <= OtherStack(b)
  }

  /**
   * Not facing a raise before the river, a player who may check has the check
   * and, if it has not raised yet and has chips, a raise of every positive
   * multiple of 5 up to the smaller stack, and no other move; none of them ends
   * the game.
   */
  lemma OpenChildren(b: PokerBoard, v: Version, draws: Draws)
    requires NineSlots(b) && b.tup[6].None? && !AllIn(b) && !RoundOver(b) && !b.terminal && !Facing(b) && MayCheck(b)
    ensures Children(b, v, draws).Ok?
    ensures forall c :: c in Children(b, v, draws).value ==> !c.terminal && Chips(c) == Chips(b) && c.turn == !b.turn
    ensures exists c :: c in Children(b, v, draws).value && c.moneyMiddle == b.moneyMiddle &&
                        c.folded == Nobody && (if b.turn then c.checkedMa else c.checkedOpp)
    ensures forall a :: a != 0 ==> (RaisesBy(Children(b, v, draws).value, b, a) <==> RaiseAllowed(b, a))
  {
    BettingChildren(b, v, draws);
    ApplyBeforeRiver(b, Offers(b), v, draws);
    var kids := set k | 0 <= k < |Offers(b)| :: BeforeRiver(b, Offers(b)[k]);
    assert Children(b, v, draws).value == kids;
    OpenMove(b, 0);
    assert BeforeRiver(b, Offers(b)[0]) in kids;
    forall c | c in kids ensures !c.terminal && Chips(c) == Chips(b) && c.turn == !b.turn {
      OpenRaiseBounded(b, c);
    }
    OpenRaises(b);
  }

  /** The open moves raise by exactly the allowed amounts. */
  lemma OpenRaises(b: PokerBoard)
    requires !Facing(b) && MayCheck(b)
    ensures forall a :: a != 0 ==>
      (RaisesBy(set k | 0 <= k < |Offers(b)| :: BeforeRiver(b, Offers(b)[k]), b, a) <==> RaiseAllowed(b, a))
  {
    var kids := set k | 0 <= k < |Offers(b)| :: BeforeRiver(b, Offers(b)[k]);
    forall a | a != 0 ensures RaisesBy(kids, b, a) <==> RaiseAllowed(b, a) {
      if RaisesBy(kids, b, a) {
        var c :| c in kids && c.moneyMiddle == b.moneyMiddle + a;
        OpenRaiseBounded(b, c);
      }
      if RaiseAllowed(b, a) {
        OpenRaiseOffered(b, a);
      }
    }
  }

  lemma LadderBound(m: int, k: int)
    requires 1 <= k <= TruncDiv5(m)
    ensures 0 < 5 * k <= m && (5 * k) % 5 == 0
  {
  }

  /** With a player all in, every child is all in again and still in play: `find_children` never finishes such a game. */
  lemma AllInChildren(b: PokerBoard, v: Version, draws: Draws)
    requires NineSlots(b) && AllIn(b)
    ensures Children(b, v, draws).Ok? <==> DistinctDeckCards(b.tup[..5])
    ensures Children(b, v, draws).Ok? ==> forall c :: c in Children(b, v, draws).value ==>
      && NineSlots(c) && AllIn(c) && !c.terminal && c.winner.None? && c.turn == !b.turn
      && c.tup[..5] == b.tup[..5] && DistinctDeckCards(c.tup[..7])
      && c.moneyMachine == b.moneyMachine && c.moneyMiddle == b.moneyMiddle && c.moneyOpp == b.moneyOpp
  {
    AllInDeal(b, v, draws);
  }

  /** When a round ends before the river is out, `find_children` deals the next card. */
  lemma RoundOverDeals(b: PokerBoard, v: Version, draws: Draws)
    requires NineSlots(b) && !AllIn(b) && RoundOver(b) && (b.tup[5].None? || b.tup[6].None?)
    ensures Children(b, v, draws) == AllCombinations(b, if b.tup[5].None? then 5 else 6, v, draws)
  {
  }

  /**
   * When a round ends with the river out, `find_children` has one child: the
   * same board, finished, with the showdown's winner.
   */
  lemma ShowdownChild(b: PokerBoard, v: Version, draws: Draws)
    requires NineSlots(b) && !AllIn(b) && RoundOver(b) && b.tup[5].Some? && b.tup[6].Some?
    ensures Children(b, v, draws).Ok? <==> DistinctDeckCards(b.tup[..7])
    ensures Children(b, v, draws).Ok? ==> exists w :: Children(b, v, draws).value == {b.(winner := Some(w), terminal := true)}
  {
    if DistinctDeckCards(b.tup[..7]) {
      var w := FindWinner(b.tup, Nobody, v, draws).value.value;
      assert Children(b, v, draws).value == {b.(winner := Some(w), terminal := true)};
    }
  }

  /**
   * A board on which the machine, facing a raise of 10 with 5 chips, calls all
   * in: the raises are not level, so it is not an all-in board.
   */
  function ShortCall(): (b: PokerBoard)
    ensures NineSlots(b) && Facing(b) && MoverStack(b) < Deficit(b)
  {
    PokerBoard(seq(9, i => None), true, None, false, 5, 10, 20, true, false, false, false, 10, 0, Nobody)
  }

  /**
   * After a short all-in call the opponent can neither call, check nor raise and
   * no card is dealt, yet the game is not over: `find_children` gives a board
   * in play no children.
   */
  lemma ShortCallStalls(v: Version, draws: Draws)
    ensures Children(ShortCall(), v, draws).Ok?
    ensures exists c :: c in Children(ShortCall(), v, draws).value && NineSlots(c) && !c.terminal && Children(c, v, draws) == Ok({})
  {
    var c := BeforeRiver(ShortCall(), Offer(Raise, 5));
    ShortCallCalls(v, draws);
    ShortCallChild();
    StalledChildren(c, v, draws);
  }

  /** The machine's only moves on the short-call board are calling all in and folding. */
  lemma ShortCallCalls(v: Version, draws: Draws)
    ensures Children(ShortCall(), v, draws).Ok?
    ensures BeforeRiver(ShortCall(), Offer(Raise, 5)) in Children(ShortCall(), v, draws).value
  {
    var b := ShortCall();
    var offers := [Offer(Raise, 5), Offer(Fold, 0)];
    assert Offers(b) == offers by {
      assert Facing(b) && MinInt(Deficit(b), MoverStack(b)) == 5;
    }
    BettingChildren(b, v, draws);
    ApplyBeforeRiver(b, offers, v, draws);
    PairOfChildren(b, offers);
  }

  /** The machine's short call leaves the opponent facing nothing, with nothing to check. */
  lemma ShortCallChild()
    ensures var c := BeforeRiver(ShortCall(), Offer(Raise, 5));
      NineSlots(c) && !c.terminal && !AllIn(c) && !RoundOver(c) && Offers(c) == []
  {
    var c := BeforeRiver(ShortCall(), Offer(Raise, 5));
    assert c == PokerBoard(seq(9, i => None), false, None, false, 0, 15, 20, true, false, true, false, 10, 5, Nobody);
    assert !Facing(c) && !MayCheck(c);
  }

  lemma StalledChildren(c: PokerBoard, v: Version, draws: Draws)
    requires NineSlots(c) && !AllIn(c) && !RoundOver(c) && !c.terminal && Offers(c) == []
    ensures Children(c, v, draws) == Ok({})
  {
    BettingChildren(c, v, draws);
    assert MoveResults(c, [], v, draws) == [];
  }
}
