/**
 * `assign_cards_to_middle_all_combinations` of the seven-slot board as the loops
 * it is: the dealt cards are taken out of a fresh deck, then each triple or each
 * card adds one child to a set, the first exception ending the loop. Each method
 * computes exactly its specification function in PokerFake.
 */
module PokerFakeSearch {
  import opened Wrappers
  import opened Cards
  import opened Board
  import opened PokerFake
  import H = Holdem

  /** `for combi_possibilities in combi: moves.add(...)`: slots 2, 3 and 4 from each triple. */
  method DealFlops(b: PokerBoard, combi: seq<seq<Card>>) returns (moves: set<PokerBoard>)
    requires SevenSlots(b) && forall row :: row in combi ==> |row| == 3
    ensures moves == set row | row in combi :: H.NewRound(b, Flop(b.tup, row))
  {
    moves := {};
    for k := 0 to |combi|
      invariant moves == set j | 0 <= j < k :: H.NewRound(b, Flop(b.tup, combi[j]))
    {
      var tup := b.tup[2 := Some(combi[k][0])];
      tup := tup[3 := Some(combi[k][1])];
      tup := tup[4 := Some(combi[k][2])];
      moves := moves + {H.NewRound(b, tup)};
    }
    ghost var spec := set row | row in combi :: H.NewRound(b, Flop(b.tup, row));
    forall c | c in spec ensures c in moves {
      var row :| row in combi && c == H.NewRound(b, Flop(b.tup, row));
      var j :| 0 <= j < |combi| && combi[j] == row;
    }
  }

  /** `for random_card in deck: moves.add(...)`, the third community card also deciding the winner. */
  method DealEach(b: PokerBoard, index: nat, deck: seq<Card>) returns (r: Result<set<PokerBoard>, string>)
    requires SevenSlots(b) && index < 7
    ensures r == Gather(PlaceResults(b, index, deck))
  {
    var moves: set<PokerBoard> := {};
    ghost var all := PlaceResults(b, index, deck);
    for k := 0 to |deck|
      invariant Gather(all[..k]).Ok? && Gather(all[..k]).value == moves
    {
      var tup := b.tup[index := Some(deck[k])];
      GatherStep(all, k);
      if index == 4 {
        match FindWinner(tup, Nobody)
        case Err(e) =>
          return Err(e);
        case Ok(w) =>
          moves := moves + {H.NewRound(b, tup).(winner := w, terminal := true)};
      } else {
        moves := moves + {H.NewRound(b, tup)};
      }
    }
    assert all[..|deck|] == all;
    r := Ok(moves);
  }

  /**
   * `assign_cards_to_middle_all_combinations(index)`: take the cards out of a
   * fresh deck, then add one child per triple (index 1) or per card.
   */
  method AssignAllCombinations(b: PokerBoard, index: nat) returns (r: Result<set<PokerBoard>, string>)
    requires SevenSlots(b) && index < 7
    ensures r == AllCombinations(b, index)
  {
    var full := BuildDeck();
    var removed := RemoveDealt(full, AlreadyDealt(b.tup, index));
    if removed.None? {
      return Err("ValueError");
    }
    var deck := removed.value;
    if index == 1 {
      CombinationRows(deck, 3);
      var moves := DealFlops(b, Combinations(deck, 3));
      return Ok(moves);
    }
    r := DealEach(b, index, deck);
  }
}
