/**
 * `find_children` and `assign_cards_to_middle_all_combinations` of the nine-slot
 * board as the loops they are: each adds the children one by one to a set, and
 * the first exception raised (a card missing from the deck, a failed showdown)
 * ends it. Each method computes exactly its specification function in Holdem;
 * the loops of `assign_cards_to_middle_all_combinations` are methods of their own.
 */
module HoldemSearch {
  import opened Wrappers
  import opened Cards
  import opened Board
  import opened Holdem

  /** `for combi_possibilities in combi: moves.add(...)`: slots 5 and 6 from each pair. */
  method DealPairs(b: PokerBoard, combi: seq<seq<Card>>) returns (moves: set<PokerBoard>)
    requires NineSlots(b) && forall row :: row in combi ==> |row| == 2
    ensures moves == set row | row in combi :: NewRound(b, b.tup[5 := Some(row[0])][6 := Some(row[1])])
  {
    moves := {};
    for k := 0 to |combi|
      invariant moves == set j | 0 <= j < k :: NewRound(b, b.tup[5 := Some(combi[j][0])][6 := Some(combi[j][1])])
    {
      var tup := b.tup[5 := Some(combi[k][0])][6 := Some(combi[k][1])];
      moves := moves + {NewRound(b, tup)};
    }
    ghost var spec := set row | row in combi :: NewRound(b, b.tup[5 := Some(row[0])][6 := Some(row[1])]);
    forall c | c in spec ensures c in moves {
      var row :| row in combi && c == NewRound(b, b.tup[5 := Some(row[0])][6 := Some(row[1])]);
      var j :| 0 <= j < |combi| && combi[j] == row;
    }
  }

  /** `for random_card in deck: moves.add(...)`, the river also deciding the showdown. */
  method DealEach(b: PokerBoard, index: nat, deck: seq<Card>, v: Version, draws: Draws) returns (r: Result<set<PokerBoard>, string>)
    requires NineSlots(b) && index < 9
    ensures r == PlaceEach(b, index, deck, v, draws)
  {
    var moves: set<PokerBoard> := {};
    ghost var all := PlaceResults(b, index, deck, v, draws);
    for k := 0 to |deck|
      invariant Gather(all[..k]).Ok? && Gather(all[..k]).value == moves
    {
      var tup := b.tup[index := Some(deck[k])];
      GatherStep(all, k);
      if index == 6 {
        match FindWinner(tup, Nobody, v, draws)
        case Err(e) =>
          return Err(e);
        case Ok(w) =>
          moves := moves + {NewRound(b, tup).(winner := w, terminal := true)};
      } else {
        moves := moves + {NewRound(b, tup)};
      }
    }
    assert all[..|deck|] == all;
    r := Ok(moves);
  }

  /**
   * `assign_cards_to_middle_all_combinations(index)`: take the dealt cards out of
   * a fresh deck, then add one child per pair (index 1) or per card.
   */
  method AssignAllCombinations(b: PokerBoard, index: nat, v: Version, draws: Draws) returns (r: Result<set<PokerBoard>, string>)
    requires NineSlots(b) && index < 9
    ensures r == AllCombinations(b, index, v, draws)
  {
    var full := BuildDeck();
    var removed := RemoveDealt(full, AlreadyDealt(b.tup, index));
    if removed.None? {
      return Err("ValueError");
    }
    var deck := removed.value;
    if index == 1 {
      CombinationRows(deck, 2);
      var moves := DealPairs(b, Combinations(deck, 2));
      return Ok(moves);
    }
    r := DealEach(b, index, deck, v, draws);
  }

  /** Facing a raise: call (all in when short), then fold. */
  method FacingMoves(b: PokerBoard, v: Version, draws: Draws) returns (r: Result<set<PokerBoard>, string>)
    requires NineSlots(b) && Facing(b)
    ensures r == Apply(b, Offers(b), v, draws)
  {
    ghost var all := MoveResults(b, Offers(b), v, draws);
    assert Apply(b, Offers(b), v, draws) == Gather(all);
    assert all[..0] == [] && Gather(all[..0]) == Ok({});
    var amount := if MoverStack(b) >= Deficit(b) then Deficit(b) else MoverStack(b);
    var call := MakeMove(b, Raise, amount, false, v, draws);
    assert all[0] == call;
    GatherStep(all, 0);
    if call.Err? {
      return Err(call.error);
    }
    var fold := MakeMove(b, Fold, 0, false, v, draws);
    assert all[1] == fold;
    GatherStep(all, 1);
    assert all[..2] == all;
    assert Gather(all).value == {call.value, fold.value};
    r := Ok({call.value, fold.value});
  }

  /** Free to check: check and, when allowed, raise 5, 10, ... up to the smaller stack. */
  method OpenMoves(b: PokerBoard, v: Version, draws: Draws) returns (r: Result<set<PokerBoard>, string>)
    requires NineSlots(b) && !Facing(b) && MayCheck(b)
    ensures r == Apply(b, Offers(b), v, draws)
  {
    ghost var all := MoveResults(b, Offers(b), v, draws);
    assert Apply(b, Offers(b), v, draws) == Gather(all);
    assert all[..0] == [] && Gather(all[..0]) == Ok({});
    var check := MakeMove(b, Check, 0, false, v, draws);
    OpenResults(b, v, draws);
    GatherStep(all, 0);
    if check.Err? {
      return Err(check.error);
    }
    assert Gather(all[..1]).value == {check.value};
    if MayRaise(b) {
      var n := if MoverStack(b) <= OtherStack(b) then TruncDiv5(MoverStack(b)) else TruncDiv5(OtherStack(b));
      r := RaiseLadder(b, n, v, draws, all, {check.value});
    } else {
      assert all[..1] == all;
      r := Ok({check.value});
    }
  }

  /** The results of the offers on a board free to check: the check, then the raises 5, 10, ... */
  lemma OpenResults(b: PokerBoard, v: Version, draws: Draws)
    requires NineSlots(b) && !Facing(b) && MayCheck(b)
    ensures var all := MoveResults(b, Offers(b), v, draws);
      && |all| == 1 + (if MayRaise(b) then (var n := TruncDiv5(MinInt(MoverStack(b), OtherStack(b))); if n > 0 then n else 0) else 0)
      && all[0] == MakeMove(b, Check, 0, false, v, draws)
      && forall k :: 1 <= k < |all| ==> all[k] == MakeMove(b, Raise, 5 * k, false, v, draws)
  {
    var offers := Offers(b);
    var all := MoveResults(b, offers, v, draws);
    forall k | 1 <= k < |all| ensures all[k] == MakeMove(b, Raise, 5 * k, false, v, draws) {
      assert offers[k] == Offer(Raise, 5 * k);
    }
  }

  /** `for intervall in range(1, n + 1): moves.add(board.make_move('R', 5 * intervall))`. */
  method RaiseLadder(b: PokerBoard, n: int, v: Version, draws: Draws, ghost all: seq<Result<PokerBoard, string>>, moves0: set<PokerBoard>)
    returns (r: Result<set<PokerBoard>, string>)
    requires NineSlots(b) && |all| == 1 + (if n > 0 then n else 0)
    requires forall k :: 1 <= k < |all| ==> all[k] == MakeMove(b, Raise, 5 * k, false, v, draws)
    requires Gather(all[..1]).Ok? && Gather(all[..1]).value == moves0
    ensures r == Gather(all)
  {
    var moves := moves0;
    var i := 1;
    while i <= n
      invariant 1 <= i <= |all|
      invariant Gather(all[..i]).Ok? && Gather(all[..i]).value == moves
    {
      var raise := MakeMove(b, Raise, 5 * i, false, v, draws);
      GatherStep(all, i);
      if raise.Err? {
        return Err(raise.error);
      }
      moves := moves + {raise.value};
      i := i + 1;
    }
    assert all[..i] == all;
    r := Ok(moves);
  }

  /** The betting branch of `find_children`: the moves of the offers on this board. */
  method BettingMoves(b: PokerBoard, v: Version, draws: Draws) returns (r: Result<set<PokerBoard>, string>)
    requires NineSlots(b)
    ensures r == Apply(b, Offers(b), v, draws)
  {
    if Facing(b) {
      r := FacingMoves(b, v, draws);
    } else if MayCheck(b) {
      r := OpenMoves(b, v, draws);
    } else {
      assert MoveResults(b, Offers(b), v, draws) == [];
      r := Ok({});
    }
  }

  /** `find_children`, branch by branch. */
  method FindChildren(b: PokerBoard, v: Version, draws: Draws) returns (r: Result<set<PokerBoard>, string>)
    requires NineSlots(b)
    ensures r == Children(b, v, draws)
  {
    if AllIn(b) {
      r := AssignAllCombinations(b, 1, v, draws);
      return;
    }
    if RoundOver(b) {
      if b.tup[5].None? {
        r := AssignAllCombinations(b, 5, v, draws);
        return;
      } else if b.tup[6].None? {
        r := AssignAllCombinations(b, 6, v, draws);
        return;
      } else {
        match FindWinner(b.tup, Nobody, v, draws)
        case Err(e) =>
          return Err(e);
        case Ok(w) =>
          return Ok({b.(winner := w, terminal := true)});
      }
    }
    if b.terminal {
      return Ok({});
    }
    r := BettingMoves(b, v, draws);
  }
}
