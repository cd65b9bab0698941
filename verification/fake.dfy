/**
 * The seven-slot board of poker_mcts_fake.py: slots 0-1 hold the machine's
 * cards, 2-4 the three community cards, 5-6 the opponent's cards, all dealt in
 * the open. Its `_find_winner` is deterministic: once the third community card
 * is out it compares `tup[0..5]` with `tup[2..7]`. Betting reuses the nine-slot
 * board's step and tests; the raise menu is fixed.
 */
module PokerFake {
  import opened Wrappers
  import opened Cards
  import opened Hands
  import opened Board
  import opened Lists
  import H = Holdem

  predicate SevenSlots(b: PokerBoard) {
    |b.tup| == 7
  }

  /** `new_poker_board()`: seven empty slots, 15 chips each, an empty pot, the opponent to act. */
  function NewPokerBoard(): (b: PokerBoard)
    ensures SevenSlots(b) && forall i :: 0 <= i < 7 ==> b.tup[i].None?
    ensures !b.turn && !b.terminal && b.winner.None? && b.folded == Nobody
    ensures b.moneyMachine == b.moneyOpp == 15 && b.moneyMiddle == 0 && b.raisedMoneyMa == b.raisedMoneyOpp == 0
    ensures !b.raisedOpp && !b.checkedOpp && !b.raisedMa && !b.checkedMa
  {
    PokerBoard(seq(7, i => None), false, None, false, 15, 0, 15, false, false, false, false, 0, 0, Nobody)
  }

  /**
   * `reward()`: the pot when the machine won, minus the pot otherwise, and an
   * error on a board still in play; the sign of poker_mcts.py, the opposite of
   * poker_mcts_updated.py.
   */
  function Reward(b: PokerBoard): (r: Result<int, string>)
    ensures r.Ok? <==> b.terminal
    ensures r.Ok? ==> r.value == if b.winner == Some(true) then b.moneyMiddle else -b.moneyMiddle
    ensures r == H.Reward(b, H.Original)
    ensures r.Ok? ==> r.value == -H.Reward(b, H.Updated).value
  {
    if !b.terminal then Err("RuntimeError")
    else if b.winner == Some(true) then Ok(b.moneyMiddle)
    else Ok(-b.moneyMiddle)
  }

  /** Every slot holds a card whose rank `score_hand` can parse. */
  predicate ShowdownReadable(tup: seq<Option<Card>>) {
    forall i :: 0 <= i < |tup| ==> ReadableSlot(tup[i])
  }

  /**
   * `_find_winner(tup, folded)`: a fold decides; before the third community card
   * there is no winner; then `tup[0..5]` against `tup[2..7]`, ties to the machine.
   * `score_hand` raises on an empty slot or an unparsable rank.
   */
  function FindWinner(tup: seq<Option<Card>>, folded: Folded): (r: Result<Option<bool>, string>)
    requires |tup| == 7
    ensures folded != Nobody ==> r == Ok(FoldWinner(folded))
    ensures folded == Nobody ==> (r.Ok? <==> tup[4].None? || ShowdownReadable(tup))
    ensures folded == Nobody && r.Ok? ==> (r.value.Some? <==> tup[4].Some?)
  {
    match folded
    case Opponent => Ok(Some(true))
    case Machine => Ok(Some(false))
    case Nobody =>
      if tup[4].None? then Ok(None)
      else if !ShowdownReadable(tup) then Err("score_hand raised")
      else
        H.ReadableKnown(tup[..5]);
        H.ReadableKnown(tup[2..]);
        Ok(Some(ScoreHand(Known(tup[..5])) >= ScoreHand(Known(tup[2..]))))
  }

  /**
   * The machine wins the showdown exactly when its two cards with the board
   * score at least as much as the opponent's two cards with the board.
   */
  lemma ShowdownComparesFives(tup: seq<Option<Card>>)
    requires |tup| == 7 && tup[4].Some? && ShowdownReadable(tup)
    ensures Readable(Known(tup[..5])) && Readable(Known(tup[2..]))
    ensures FindWinner(tup, Nobody) == Ok(Some(true)) <==> ScoreHand(Known(tup[..5])) >= ScoreHand(Known(tup[2..]))
    ensures FindWinner(tup, Nobody) == Ok(Some(false)) <==> ScoreHand(Known(tup[..5])) < ScoreHand(Known(tup[2..]))
  {
    H.ReadableKnown(tup[..5]);
    H.ReadableKnown(tup[2..]);
  }

  /**
   * The real-card showdown of poker_mcts.py decides as this file's `_find_winner`
   * does on the first seven slots: both score `tup[0..5]` against `tup[2..7]`.
   */
  lemma OriginalRealIsFakeShowdown(tup: seq<Option<Card>>)
    requires |tup| == 9 && DistinctDeckCards(tup[..7])
    ensures FindWinner(tup[..7], Nobody).Ok? && FindWinner(tup[..7], Nobody).value.Some?
    ensures H.RealShowdown(tup, H.Original) == Ok(FindWinner(tup[..7], Nobody).value.value)
  {
    var seven := tup[..7];
    SevenSlotsAgree(seven);
    forall i | 0 <= i < 7 ensures ReadableSlot(tup[i]) {
      assert seven[i] == tup[i];
    }
    OriginalRealOnSeven(tup);
  }

  /** On seven dealt cards both showdowns give the same answer. */
  lemma SevenSlotsAgree(seven: seq<Option<Card>>)
    requires |seven| == 7 && DistinctDeckCards(seven)
    ensures forall i :: 0 <= i < 7 ==> ReadableSlot(seven[i])
    ensures FindWinner(seven, Nobody) == Ok(Some(H.OriginalRealWins(seven)))
  {
    OriginalWinsFirstFive(seven);
    assert seven[4].Some? && ShowdownReadable(seven);
    FakeShowdownOnSeven(seven);
  }

  lemma OriginalRealOnSeven(tup: seq<Option<Card>>)
    requires |tup| == 9 && forall i :: 0 <= i < 7 ==> ReadableSlot(tup[i])
    ensures H.RealShowdown(tup, H.Original) == Ok(H.OriginalRealWins(tup[..7]))
  {
    forall i | 0 <= i < H.ScoredSlots(H.Original) ensures ReadableSlot(tup[i]) {
    }
  }

  lemma FakeShowdownOnSeven(seven: seq<Option<Card>>)
    requires |seven| == 7 && seven[4].Some? && ShowdownReadable(seven)
    ensures Filled(seven[..5]) && Filled(seven[2..])
    ensures Readable(Known(seven[..5])) && Readable(Known(seven[2..]))
    ensures FindWinner(seven, Nobody) == Ok(Some(ScoreHand(Known(seven[..5])) >= ScoreHand(Known(seven[2..]))))
  {
    H.ReadableKnown(seven[..5]);
    H.ReadableKnown(seven[2..]);
  }

  /** The original loop scores the same two five-card lists on every round. */
  lemma OriginalWinsFirstFive(seven: seq<Option<Card>>)
    requires |seven| == 7 && DistinctDeckCards(seven)
    ensures forall i :: 0 <= i < 7 ==> ReadableSlot(seven[i])
    ensures Readable(Known(seven[..5])) && Readable(Known(seven[2..]))
    ensures H.OriginalRealWins(seven) == (ScoreHand(Known(seven[..5])) >= ScoreHand(Known(seven[2..])))
  {
    var cards := Known(seven);
    ValidRanks(cards);
    var first, last := Known(seven[..5]), Known(seven[2..]);
    assert first == cards[..5] && last == cards[2..];
    var rows := |Combinations(seven, 5)|;
    CombinationsNonEmpty(seven, 5);
    RepeatedBest(first, rows);
    RepeatedBest(last, rows);
  }

  /**
   * `make_move(action, raised_mon)`: the bet, then `_find_winner` on the board
   * as it stands, so every move made once the third community card is out ends
   * the game.
   */
  function MakeMove(b: PokerBoard, action: Action, amount: int): (r: Result<PokerBoard, string>)
    requires SevenSlots(b)
    ensures r.Ok? ==> SevenSlots(r.value) && r.value.tup == b.tup && Chips(r.value) == Chips(b) && r.value.turn == !b.turn && Settled(r.value)
    ensures r.Ok? ==> r.value == Bet(b, action, amount).(winner := r.value.winner, terminal := r.value.winner.Some?)
    ensures action == Fold ==> r.Ok? && r.value.terminal && r.value.winner == Some(!b.turn)
    ensures action != Fold ==> (r.Ok? <==> b.tup[4].None? || ShowdownReadable(b.tup))
    ensures action != Fold && r.Ok? ==> (r.value.terminal <==> b.tup[4].Some?)
  {
    var s := Bet(b, action, amount);
    match FindWinner(b.tup, s.folded)
    case Err(e) => Err(e)
    case Ok(w) => Ok(s.(winner := w, terminal := w.Some?))
  }

  /** The fixed raise menu: 5, 10 and 15 above 10 chips, 5 and 10 above 5, 5 above 0. */
  function Menu(stack: int): seq<Offer> {
    if stack > 10 then [Offer(Raise, 5), Offer(Raise, 10), Offer(Raise, 15)]
    else if stack > 5 then [Offer(Raise, 5), Offer(Raise, 10)]
    else if stack > 0 then [Offer(Raise, 5)]
    else []
  }

  /**
   * The calls `find_children` makes in a betting round. Facing a raise it calls
   * the deficit and folds; a mover short of the deficit reaches an undefined
   * name (`money_machine`, `money_opp`) instead. Free to check, it checks and,
   * when the machine has not raised (for either player) and the mover has chips,
   * raises from the menu.
   */
  function Offers(b: PokerBoard): Result<seq<Offer>, string> {
    if H.Facing(b) then
      if MoverStack(b) >= H.Deficit(b) then Ok([Offer(Raise, H.Deficit(b)), Offer(Fold, 0)])
      else Err("NameError")
    else if H.MayCheck(b) then
      Ok([Offer(Check, 0)] + (if !b.raisedMa && MoverStack(b) > 0 then Menu(MoverStack(b)) else []))
    else Ok([])
  }

  function MoveResults(b: PokerBoard, offers: seq<Offer>): (r: seq<Result<PokerBoard, string>>)
    requires SevenSlots(b)
    ensures |r| == |offers| && forall k :: 0 <= k < |offers| ==> r[k] == MakeMove(b, offers[k].action, offers[k].amount)
  {
    seq(|offers|, k requires 0 <= k < |offers| => MakeMove(b, offers[k].action, offers[k].amount))
  }

  /** The slots `assign_cards_to_middle_all_combinations` takes out of a fresh deck. */
  function AlreadyDealt(tup: seq<Option<Card>>, index: nat): seq<Option<Card>>
    requires |tup| == 7
  {
    [tup[0], tup[1], tup[5], tup[6]] + (if index >= 3 then [tup[2]] else []) + (if index == 4 then [tup[3]] else [])
  }

  /** The three community cards of a row. */
  function Flop(tup: seq<Option<Card>>, row: seq<Card>): seq<Option<Card>>
    requires |tup| == 7 && |row| == 3
  {
    tup[2 := Some(row[0])][3 := Some(row[1])][4 := Some(row[2])]
  }

  /** The child for one card placed in slot `index`; the third community card decides the winner. */
  function Placed(b: PokerBoard, index: nat, card: Card): Result<PokerBoard, string>
    requires SevenSlots(b) && index < 7
  {
    var tup := b.tup[index := Some(card)];
    if index == 4 then
      match FindWinner(tup, Nobody)
      case Err(e) => Err(e)
      case Ok(w) => Ok(H.NewRound(b, tup).(winner := w, terminal := true))
    else Ok(H.NewRound(b, tup))
  }

  function PlaceResults(b: PokerBoard, index: nat, cards: seq<Card>): (r: seq<Result<PokerBoard, string>>)
    requires SevenSlots(b) && index < 7
    ensures |r| == |cards| && forall k :: 0 <= k < |cards| ==> r[k] == Placed(b, index, cards[k])
  {
    seq(|cards|, k requires 0 <= k < |cards| => Placed(b, index, cards[k]))
  }

  /**
   * `assign_cards_to_middle_all_combinations(index)`: every way to deal from the
   * deck without the cards out (a ValueError if one is missing). Index 1 deals
   * the three community cards at once, one child per triple.
   */
  function AllCombinations(b: PokerBoard, index: nat): Result<set<PokerBoard>, string>
    requires SevenSlots(b) && index < 7
  {
    match RemoveAll(Deck(), AlreadyDealt(b.tup, index))
    case None => Err("ValueError")
    case Some(rest) =>
      if index == 1 then
        CombinationRows(rest, 3);
        Ok(set row | row in Combinations(rest, 3) :: H.NewRound(b, Flop(b.tup, row)))
      else Gather(PlaceResults(b, index, rest))
  }

  /**
   * `find_children`: deal the flop when a player is all in; deal the next
   * community card when a round is over; with all three out, `_find_winner` runs
   * and then an undefined name is reached; no moves on a finished board;
   * otherwise the moves of the betting round.
   */
  function Children(b: PokerBoard): Result<set<PokerBoard>, string>
    requires SevenSlots(b)
  {
    if H.AllIn(b) then AllCombinations(b, 1)
    else if H.RoundOver(b) && b.tup[2].None? then AllCombinations(b, 2)
    else if H.RoundOver(b) && b.tup[3].None? then AllCombinations(b, 3)
    else if H.RoundOver(b) && b.tup[4].None? then AllCombinations(b, 4)
    else if H.RoundOver(b) then
      match FindWinner(b.tup, Nobody)
      case Err(e) => Err(e)
      case Ok(_) => Err("NameError")
    else if b.terminal then Ok({})
    else match Offers(b)
      case Err(e) => Err(e)
      case Ok(offers) => Gather(MoveResults(b, offers))
  }

  // ---------------------------------------------------------------------------
  // What find_children yields

  /** Before the third community card no move fails, and only a fold decides the game. */
  lemma MovesBeforeShowdown(b: PokerBoard, offers: seq<Offer>)
    requires SevenSlots(b) && b.tup[4].None?
    ensures Gather(MoveResults(b, offers)) == Ok(set k | 0 <= k < |offers| :: H.BeforeRiver(b, offers[k]))
  {
    var results := MoveResults(b, offers);
    forall k | 0 <= k < |offers| ensures results[k] == Ok(H.BeforeRiver(b, offers[k])) {
      assert results[k] == MakeMove(b, offers[k].action, offers[k].amount);
      MoveBeforeShowdown(b, offers[k]);
    }
    assert results == H.BetResults(b, offers);
    H.GatherBets(b, offers);
  }

  /** A single move before the third community card is the bet and nothing more. */
  lemma MoveBeforeShowdown(b: PokerBoard, offer: Offer)
    requires SevenSlots(b) && b.tup[4].None?
    ensures MakeMove(b, offer.action, offer.amount) == Ok(H.BeforeRiver(b, offer))
  {
  }

  /**
   * `find_children` stops at an undefined name when the mover cannot cover the
   * deficit, and when a round ends with the three community cards out.
   */
  lemma NameErrors(b: PokerBoard)
    requires SevenSlots(b) && !H.AllIn(b)
    ensures !H.RoundOver(b) && !b.terminal && H.Facing(b) && MoverStack(b) < H.Deficit(b) ==> Children(b) == Err("NameError")
    ensures H.RoundOver(b) && b.tup[2].Some? && b.tup[3].Some? && b.tup[4].Some? && ShowdownReadable(b.tup) ==>
      Children(b) == Err("NameError")
  {
  }

  /** In a betting round before the showdown the children are the moves on offer. */
  lemma BettingChildren(b: PokerBoard)
    requires SevenSlots(b) && b.tup[4].None? && !H.AllIn(b) && !H.RoundOver(b) && !b.terminal && Offers(b).Ok?
    ensures Children(b) == Ok(set k | 0 <= k < |Offers(b).value| :: H.BeforeRiver(b, Offers(b).value[k]))
  {
    MovesBeforeShowdown(b, Offers(b).value);
  }

  /**
   * Facing a raise it can cover before the showdown, the mover has exactly two
   * moves: fold, which ends the game for the other player, and call the deficit.
   */
  lemma FacingChildren(b: PokerBoard)
    requires SevenSlots(b) && b.tup[4].None? && !H.AllIn(b) && !H.RoundOver(b) && !b.terminal
    requires H.Facing(b) && MoverStack(b) >= H.Deficit(b)
    ensures Children(b).Ok? && |Children(b).value| == 2
    ensures forall c :: c in Children(b).value ==> Chips(c) == Chips(b) && c.turn == !b.turn
    ensures exists c :: c in Children(b).value && c.terminal && c.winner == Some(!b.turn) && c.moneyMiddle == b.moneyMiddle
    ensures exists c :: c in Children(b).value && !c.terminal && c.moneyMiddle == b.moneyMiddle + H.Deficit(b) &&
                        OtherStack(c) == MoverStack(b) - H.Deficit(b)
  {
    var offers := [Offer(Raise, H.Deficit(b)), Offer(Fold, 0)];
    assert Offers(b) == Ok(offers);
    BettingChildren(b);
    H.PairOfChildren(b, offers);
    assert MinInt(H.Deficit(b), MoverStack(b)) == H.Deficit(b);
    H.FacingBets(b);
    assert Children(b) == Ok({H.BeforeRiver(b, offers[0]), H.BeforeRiver(b, offers[1])});
  }

  /** The menu in words: 5 when the mover has chips, 10 above 5 chips, 15 above 10. */
  predicate MenuAllowed(b: PokerBoard, a: int) {
    !b.raisedMa && MoverStack(b) > 0 && (a == 5 || (a == 10 && MoverStack(b) > 5) || (a == 15 && MoverStack(b) > 10))
  }

  /** The `k`-th open offer: a check for `k` = 0, a raise of `5 * k` from the menu otherwise. */
  lemma OpenOffer(b: PokerBoard, k: nat)
    requires !H.Facing(b) && H.MayCheck(b) && k < |Offers(b).value|
    ensures k == 0 ==> Offers(b).value[k] == Offer(Check, 0)
    ensures k > 0 ==> Offers(b).value[k] == Offer(Raise, 5 * k) && MenuAllowed(b, 5 * k)
  {
  }

  /** The child of the `k`-th open move: a check for `k` = 0, a menu raise otherwise. */
  lemma OpenMove(b: PokerBoard, k: nat)
    requires !H.Facing(b) && H.MayCheck(b) && k < |Offers(b).value|
    ensures var c := H.BeforeRiver(b, Offers(b).value[k]);
      && !c.terminal && Chips(c) == Chips(b) && c.turn == !b.turn
      && (k == 0 ==> c.moneyMiddle == b.moneyMiddle && c.folded == Nobody)
      && (k > 0 ==> c.moneyMiddle == b.moneyMiddle + 5 * k && MenuAllowed(b, 5 * k))
  {
    OpenOffer(b, k);
  }

  /** A raise among the open moves is one the menu allows. */
  lemma OpenRaiseBounded(b: PokerBoard, c: PokerBoard)
    requires !H.Facing(b) && H.MayCheck(b)
    requires c in set k | 0 <= k < |Offers(b).value| :: H.BeforeRiver(b, Offers(b).value[k])
    ensures !c.terminal && Chips(c) == Chips(b) && c.turn == !b.turn
    ensures c.moneyMiddle != b.moneyMiddle ==> MenuAllowed(b, c.moneyMiddle - b.moneyMiddle)
  {
    var k :| 0 <= k < |Offers(b).value| && c == H.BeforeRiver(b, Offers(b).value[k]);
    OpenMove(b, k);
  }

  /** Every raise the menu allows is on offer. */
  lemma OpenRaiseOffered(b: PokerBoard, a: int)
    requires !H.Facing(b) && H.MayCheck(b) && MenuAllowed(b, a)
    ensures H.RaisesBy(set k | 0 <= k < |Offers(b).value| :: H.BeforeRiver(b, Offers(b).value[k]), b, a)
  {
    var j := a / 5;
    assert j < |Offers(b).value|;
    OpenMove(b, j);
    var c := H.BeforeRiver(b, Offers(b).value[j]);
    assert c in set k | 0 <= k < |Offers(b).value| :: H.BeforeRiver(b, Offers(b).value[k]);
  }

  /**
   * Free to check before the showdown, the mover has the check and the raises
   * of the fixed menu (when the machine has not raised and the mover has chips),
   * and no other move; none of them ends the game.
   */
  lemma OpenChildren(b: PokerBoard)
    requires SevenSlots(b) && b.tup[4].None? && !H.AllIn(b) && !H.RoundOver(b) && !b.terminal
    requires !H.Facing(b) && H.MayCheck(b)
    ensures Children(b).Ok?
    ensures forall c :: c in Children(b).value ==> !c.terminal && Chips(c) == Chips(b) && c.turn == !b.turn
    ensures exists c :: c in Children(b).value && c.moneyMiddle == b.moneyMiddle && c.folded == Nobody
    ensures forall a :: a != 0 ==> (H.RaisesBy(Children(b).value, b, a) <==> MenuAllowed(b, a))
  {
    BettingChildren(b);
    var kids := set k | 0 <= k < |Offers(b).value| :: H.BeforeRiver(b, Offers(b).value[k]);
    assert Children(b).value == kids;
    OpenMove(b, 0);
    assert H.BeforeRiver(b, Offers(b).value[0]) in kids;
    forall c | c in kids ensures !c.terminal && Chips(c) == Chips(b) && c.turn == !b.turn {
      OpenRaiseBounded(b, c);
    }
    forall a | a != 0 ensures H.RaisesBy(kids, b, a) <==> MenuAllowed(b, a) {
      if H.RaisesBy(kids, b, a) {
        var c :| c in kids && c.moneyMiddle == b.moneyMiddle + a;
        OpenRaiseBounded(b, c);
      }
      if MenuAllowed(b, a) {
        OpenRaiseOffered(b, a);
      }
    }
  }

  /**
   * A machine with 11 chips and nothing raised is offered a raise of 15: the
   * menu does not look at the stack beyond its thresholds, so a child has the
   * machine's stack below zero.
   */
  lemma MenuOverdraws()
    ensures var b := PokerBoard(seq(7, i => None), true, None, false, 11, 0, 15, false, false, false, false, 0, 0, Nobody);
      Children(b).Ok? && exists c :: c in Children(b).value && c.moneyMachine == -4
  {
    var b := PokerBoard(seq(7, i => None), true, None, false, 11, 0, 15, false, false, false, false, 0, 0, Nobody);
    OpenChildren(b);
    assert MenuAllowed(b, 15);
    var c :| c in Children(b).value && c.moneyMiddle == b.moneyMiddle + 15;
    assert Chips(c) == Chips(b);
  }

  // ---------------------------------------------------------------------------
  // What assign_cards_to_middle_all_combinations deals

  /** With the other six slots holding distinct deck cards, any deck card as the third community card makes a scorable showdown. */
  lemma RiverReadable(b: PokerBoard, card: Card)
    requires SevenSlots(b) && DistinctDeckCards(AlreadyDealt(b.tup, 4)) && ValidCard(card)
    ensures ShowdownReadable(b.tup[4 := Some(card)])
  {
    var already := AlreadyDealt(b.tup, 4);
    var ks := Known(already);
    ValidRanks(ks);
    ValidRanks([card]);
    var tup := b.tup[4 := Some(card)];
    forall i | 0 <= i < 7 ensures ReadableSlot(tup[i]) {
      if i != 4 {
        var j := if i < 2 then i else if i == 2 then 4 else if i == 3 then 5 else i - 3;
        assert tup[i] == already[j] == Some(ks[j]);
      } else {
        assert [card][0] == card;
      }
    }
  }

  /** One card dealt into a community slot opens a new round; the third one also decides the winner. */
  lemma PlacedSpec(b: PokerBoard, index: nat, card: Card)
    requires SevenSlots(b) && 2 <= index <= 4
    requires DistinctDeckCards(AlreadyDealt(b.tup, index)) && ValidCard(card) && card !in Known(AlreadyDealt(b.tup, index))
    ensures Placed(b, index, card).Ok?
    ensures var c := Placed(b, index, card).value;
      && SevenSlots(c) && c.tup == b.tup[index := Some(card)]
      && c == H.NewRound(b, c.tup).(winner := c.winner, terminal := c.terminal)
      && DistinctDeckCards(AlreadyDealt(b.tup, index) + [Some(card)])
      && (c.terminal <==> index == 4) && (c.winner.Some? <==> index == 4)
  {
    ExtendDistinct(AlreadyDealt(b.tup, index), card);
    if index == 4 {
      RiverReadable(b, card);
    }
  }

  /** Placing each deck card not yet out: none fails, and every child is one card placed. */
  lemma PlaceAll(b: PokerBoard, index: nat, rest: seq<Card>)
    requires SevenSlots(b) && 2 <= index <= 4 && DistinctDeckCards(AlreadyDealt(b.tup, index))
    requires forall card :: card in rest ==> ValidCard(card) && card !in Known(AlreadyDealt(b.tup, index))
    ensures Gather(PlaceResults(b, index, rest)).Ok?
    ensures forall c :: c in Gather(PlaceResults(b, index, rest)).value ==>
      && SevenSlots(c) && c.tup == b.tup[index := c.tup[index]] && c.tup[index].Some? && c.tup[index].value in rest
      && c == H.NewRound(b, c.tup).(winner := c.winner, terminal := c.terminal)
      && DistinctDeckCards(AlreadyDealt(b.tup, index) + [c.tup[index]])
      && (c.terminal <==> index == 4) && (c.winner.Some? <==> index == 4)
  {
    var results := PlaceResults(b, index, rest);
    forall k | 0 <= k < |rest| ensures results[k].Ok? {
      PlacedSpec(b, index, rest[k]);
    }
    GatherSpec(results);
    forall c | c in Gather(results).value
      ensures SevenSlots(c) && c.tup == b.tup[index := c.tup[index]] && c.tup[index].Some? && c.tup[index].value in rest
      ensures c == H.NewRound(b, c.tup).(winner := c.winner, terminal := c.terminal)
      ensures DistinctDeckCards(AlreadyDealt(b.tup, index) + [c.tup[index]])
      ensures (c.terminal <==> index == 4) && (c.winner.Some? <==> index == 4)
    {
      var k :| 0 <= k < |results| && results[k] == Ok(c);
      PlacedSpec(b, index, rest[k]);
    }
  }

  /** Every card of `rest` is placed in some child. */
  lemma PlaceCovers(b: PokerBoard, index: nat, rest: seq<Card>, card: Card)
    requires SevenSlots(b) && 2 <= index <= 4 && DistinctDeckCards(AlreadyDealt(b.tup, index))
    requires forall card :: card in rest ==> ValidCard(card) && card !in Known(AlreadyDealt(b.tup, index))
    requires card in rest
    ensures Gather(PlaceResults(b, index, rest)).Ok?
    ensures exists c :: c in Gather(PlaceResults(b, index, rest)).value && c.tup == b.tup[index := Some(card)]
  {
    PlaceAll(b, index, rest);
    var results := PlaceResults(b, index, rest);
    GatherSpec(results);
    var k :| 0 <= k < |rest| && rest[k] == card;
    PlacedSpec(b, index, card);
    assert results[k] == Ok(results[k].value);
  }

  /**
   * Dealing one community card (index 2, 3 or 4) succeeds exactly when the cards
   * already out are distinct deck cards; there is then one child for every deck
   * card not yet out, and no other.
   */
  lemma DealOne(b: PokerBoard, index: nat)
    requires SevenSlots(b) && 2 <= index <= 4
    ensures AllCombinations(b, index).Ok? <==> DistinctDeckCards(AlreadyDealt(b.tup, index))
    ensures AllCombinations(b, index).Ok? ==> forall c :: c in AllCombinations(b, index).value ==>
      && SevenSlots(c) && c.tup == b.tup[index := c.tup[index]]
      && c == H.NewRound(b, c.tup).(winner := c.winner, terminal := c.terminal)
      && DistinctDeckCards(AlreadyDealt(b.tup, index) + [c.tup[index]])
      && (c.terminal <==> index == 4) && (c.winner.Some? <==> index == 4)
    ensures AllCombinations(b, index).Ok? ==> forall card ::
      (exists c :: c in AllCombinations(b, index).value && c.tup[index] == Some(card)) <==>
      ValidCard(card) && card !in Known(AlreadyDealt(b.tup, index))
  {
    var already := AlreadyDealt(b.tup, index);
    RemoveFromDeckSucceeds(already);
    if DistinctDeckCards(already) {
      RemoveFromDeckRest(already);
      var rest := RemoveAll(Deck(), already).value;
      assert AllCombinations(b, index) == Gather(PlaceResults(b, index, rest));
      PlaceAll(b, index, rest);
      forall card | card in rest
        ensures exists c :: c in Gather(PlaceResults(b, index, rest)).value && c.tup[index] == Some(card)
      {
        PlaceCovers(b, index, rest, card);
      }
    }
  }

  lemma FlopDealt(tup: seq<Option<Card>>, row: seq<Card>)
    requires |tup| == 7 && |row| == 3
    ensures AlreadyDealt(Flop(tup, row), 4) + [Flop(tup, row)[4]] ==
            AlreadyDealt(tup, 1) + [Some(row[0])] + [Some(row[1])] + [Some(row[2])]
    ensures Flop(tup, row)[..2] == tup[..2] && Flop(tup, row)[5..] == tup[5..]
  {
  }

  /**
   * With a player all in, the three community cards are dealt at once: one
   * child per triple of deck cards not yet out, each opening a new round with
   * the same stacks and pot, the seven cards on the board distinct.
   */
  lemma FlopDeal(b: PokerBoard)
    requires SevenSlots(b)
    ensures AllCombinations(b, 1).Ok? <==> DistinctDeckCards(AlreadyDealt(b.tup, 1))
    ensures AllCombinations(b, 1).Ok? ==> forall c :: c in AllCombinations(b, 1).value ==>
      && SevenSlots(c) && c.tup[..2] == b.tup[..2] && c.tup[5..] == b.tup[5..]
      && DistinctDeckCards(AlreadyDealt(c.tup, 4) + [c.tup[4]])
      && c == H.NewRound(b, c.tup)
    ensures DistinctDeckCards(AlreadyDealt(b.tup, 1)) ==> forall x, y, z ::
      ValidCard(x) && ValidCard(y) && ValidCard(z) && x != y && y != z && x != z &&
      x !in Known(AlreadyDealt(b.tup, 1)) && y !in Known(AlreadyDealt(b.tup, 1)) && z !in Known(AlreadyDealt(b.tup, 1)) ==>
      exists c :: c in AllCombinations(b, 1).value && FlopIs(c, x, y, z)
  {
    var already := AlreadyDealt(b.tup, 1);
    RemoveFromDeckSucceeds(already);
    if DistinctDeckCards(already) {
      forall x, y, z | ValidCard(x) && ValidCard(y) && ValidCard(z) && x != y && y != z && x != z &&
        x !in Known(already) && y !in Known(already) && z !in Known(already)
        ensures exists c :: c in AllCombinations(b, 1).value && FlopIs(c, x, y, z)
      {
        FlopCovers(b, x, y, z);
      }
      RemoveFromDeckRest(already);
      var rest := RemoveAll(Deck(), already).value;
      CombinationRows(rest, 3);
      forall c | c in AllCombinations(b, 1).value
        ensures SevenSlots(c) && c.tup[..2] == b.tup[..2] && c.tup[5..] == b.tup[5..]
        ensures DistinctDeckCards(AlreadyDealt(c.tup, 4) + [c.tup[4]]) && c == H.NewRound(b, c.tup)
      {
        var row :| row in Combinations(rest, 3) && c == H.NewRound(b, Flop(b.tup, row));
        FlopDistinct(already, rest, row);
        FlopDealt(b.tup, row);
      }
    }
  }

  /** The three community cards of `c` are `x`, `y` and `z`, in some order. */
  predicate FlopIs(c: PokerBoard, x: Card, y: Card, z: Card) {
    SevenSlots(c) && {c.tup[2], c.tup[3], c.tup[4]} == {Some(x), Some(y), Some(z)}
  }

  /** Every triple of deck cards not yet out is dealt into slots 2 to 4 by some child of the all-in deal. */
  lemma FlopCovers(b: PokerBoard, x: Card, y: Card, z: Card)
    requires SevenSlots(b) && DistinctDeckCards(AlreadyDealt(b.tup, 1))
    requires ValidCard(x) && ValidCard(y) && ValidCard(z) && x != y && y != z && x != z
    requires x !in Known(AlreadyDealt(b.tup, 1)) && y !in Known(AlreadyDealt(b.tup, 1)) && z !in Known(AlreadyDealt(b.tup, 1))
    ensures AllCombinations(b, 1).Ok?
    ensures exists c :: c in AllCombinations(b, 1).value && FlopIs(c, x, y, z)
  {
    var already := AlreadyDealt(b.tup, 1);
    RemoveFromDeckSucceeds(already);
    RemoveFromDeckRest(already);
    var rest := RemoveAll(Deck(), already).value;
    var row := TripleRow(rest, x, y, z);
    var c := H.NewRound(b, Flop(b.tup, row));
    assert c in AllCombinations(b, 1).value;
    FlopOfRow(b, row, x, y, z);
  }

  /** The child dealing `row` has the row's cards as its community cards. */
  lemma FlopOfRow(b: PokerBoard, row: seq<Card>, x: Card, y: Card, z: Card)
    requires SevenSlots(b) && |row| == 3
    requires {Some(row[0]), Some(row[1]), Some(row[2])} == {Some(x), Some(y), Some(z)}
    ensures FlopIs(H.NewRound(b, Flop(b.tup, row)), x, y, z)
  {
    var c := H.NewRound(b, Flop(b.tup, row));
    assert c.tup[2] == Some(row[0]) && c.tup[3] == Some(row[1]) && c.tup[4] == Some(row[2]);
  }

  /** A row of `combinations(rest, 3)` holding exactly the three given cards. */
  lemma TripleRow(rest: seq<Card>, x: Card, y: Card, z: Card) returns (row: seq<Card>)
    requires Distinct(rest) && x in rest && y in rest && z in rest && x != y && y != z && x != z
    ensures row in Combinations(rest, 3) && |row| == 3
    ensures {Some(row[0]), Some(row[1]), Some(row[2])} == {Some(x), Some(y), Some(z)}
  {
    CombinationCovers(rest, [x, y, z]);
    row :| row in Combinations(rest, 3) && forall w :: w in row <==> w in [x, y, z];
    CombinationsExact(rest, 3, row);
    TripleMembers(row, x, y, z);
  }

  /** A three-card row with the same members as `[x, y, z]` deals the same three slots. */
  lemma TripleMembers(row: seq<Card>, x: Card, y: Card, z: Card)
    requires |row| == 3 && forall w :: w in row <==> w in [x, y, z]
    ensures {Some(row[0]), Some(row[1]), Some(row[2])} == {Some(x), Some(y), Some(z)}
  {
    var a, b, c := row[0], row[1], row[2];
    assert row == [a, b, c];
    assert a in [x, y, z] && b in [x, y, z] && c in [x, y, z];
    assert x in row && y in row && z in row;
    SameTriple(a, b, c, x, y, z);
  }

  /** Two triples of cards, each member of one among the other's, give the same set of dealt slots. */
  lemma SameTriple(a: Card, b: Card, c: Card, x: Card, y: Card, z: Card)
    requires a == x || a == y || a == z
    requires b == x || b == y || b == z
    requires c == x || c == y || c == z
    requires x == a || x == b || x == c
    requires y == a || y == b || y == c
    requires z == a || z == b || z == c
    ensures {Some(a), Some(b), Some(c)} == {Some(x), Some(y), Some(z)}
  {
  }

  /** Three distinct cards from the rest of the deck extend the dealt cards without repetition. */
  lemma FlopDistinct(already: seq<Option<Card>>, rest: seq<Card>, row: seq<Card>)
    requires DistinctDeckCards(already) && Distinct(rest) && |row| == 3 && multiset(row) <= multiset(rest)
    requires forall c :: c in rest ==> ValidCard(c) && c !in Known(already)
    ensures DistinctDeckCards(already + [Some(row[0])] + [Some(row[1])] + [Some(row[2])])
  {
    SubmultisetDistinct(row, rest);
    assert row[0] in row && row[1] in row && row[2] in row;
    ExtendDistinct(already, row[0]);
    var one := already + [Some(row[0])];
    assert Known(one)[..|already|] == Known(already);
    ExtendDistinct(one, row[1]);
    var two := one + [Some(row[1])];
    assert Known(two)[..|already|] == Known(already);
    ExtendDistinct(two, row[2]);
  }

  /**
   * Every child `find_children` returns has seven slots, the same chips in play,
   * and a winner if it is finished.
   */
  lemma ChildrenInvariant(b: PokerBoard)
    requires SevenSlots(b)
    ensures Children(b).Ok? ==> forall c :: c in Children(b).value ==> SevenSlots(c) && Chips(c) == Chips(b) && Settled(c)
  {
    if H.AllIn(b) {
      FlopDeal(b);
    } else if H.RoundOver(b) && b.tup[2].None? {
      DealOne(b, 2);
    } else if H.RoundOver(b) && b.tup[3].None? {
      DealOne(b, 3);
    } else if H.RoundOver(b) && b.tup[4].None? {
      DealOne(b, 4);
    } else if H.RoundOver(b) || b.terminal {
    } else if Offers(b).Ok? {
      var results := MoveResults(b, Offers(b).value);
      GatherSpec(results);
      if Gather(results).Ok? {
        forall c | c in Gather(results).value ensures SevenSlots(c) && Chips(c) == Chips(b) && Settled(c) {
          var k :| 0 <= k < |results| && results[k] == Ok(c);
        }
      }
    }
  }
}
