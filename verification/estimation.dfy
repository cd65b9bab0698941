/**
 * `assign_cards_for_estimation(board, deck)` of the nine-slot board: the cards
 * on the table are taken out of the caller's deck, and two random cards from
 * what is left become the machine's guessed hand in slots 0 and 1. Only the
 * first of the two is taken out of the caller's deck.
 */
module Estimation {
  import opened Wrappers
  import opened Lists
  import opened Cards
  import opened Board
  import opened Holdem

  /** The slots removed from the deck: the five first always, the turn and river when dealt. */
  function EstimationSlots(tup: seq<Option<Card>>): seq<Option<Card>>
    requires |tup| == 9
  {
    tup[..5] + (if tup[5].Some? then [tup[5]] else []) + (if tup[6].Some? then [tup[6]] else [])
  }

  /**
   * `for c in slots: deck.remove(c)` on the caller's list: what the list holds
   * when the loop ends, and whether it ended without a ValueError.
   */
  function Drain(deck: seq<Card>, slots: seq<Option<Card>>): (seq<Card>, bool)
    decreases |slots|
  {
    if slots == [] then (deck, true)
    else match RemoveSlot(deck, slots[0])
      case None => (deck, false)
      case Some(d) => Drain(d, slots[1..])
  }

  /** Removing in place ends without error exactly when removing into a copy does, with the same list. */
  lemma {:induction false} DrainRemoves(deck: seq<Card>, slots: seq<Option<Card>>)
    ensures Drain(deck, slots).1 <==> RemoveAll(deck, slots).Some?
    ensures Drain(deck, slots).1 ==> Drain(deck, slots).0 == RemoveAll(deck, slots).value
    decreases |slots|
  {
    if slots != [] {
      match RemoveSlot(deck, slots[0])
      case None =>
      case Some(d) => DrainRemoves(d, slots[1..]);
    }
  }

  /**
   * The guessed hand and the caller's deck afterwards. A slot missing from the
   * deck is a ValueError, an empty deck for `random.choice` an IndexError.
   */
  function EstimationDeal(b: PokerBoard, deck: seq<Card>, d1: nat, d2: nat): (Result<PokerBoard, string>, seq<Card>)
    requires NineSlots(b)
  {
    var (rest, ok) := Drain(deck, EstimationSlots(b.tup));
    if !ok then (Err("ValueError"), rest)
    else if rest == [] then (Err("IndexError"), rest)
    else
      var c1 := Choice(rest, d1);
      var rest1 := Remove(rest, c1).value;
      if rest1 == [] then (Err("IndexError"), rest1)
      else (Ok(b.(tup := b.tup[0 := Some(c1)][1 := Some(Choice(rest1, d2))])), rest1)
  }

  /** The caller's list that `assign_cards_for_estimation` removes cards from. */
  class DeckList {
    var cards: seq<Card>

    constructor(cards: seq<Card>)
      ensures this.cards == cards
    {
      this.cards := cards;
    }

    /** `deck.remove(c)`: the first `c` goes, or a ValueError leaves the list as it was. */
    method Take(c: Card) returns (ok: bool)
      modifies this
      ensures ok <==> c in old(cards)
      ensures cards == if ok then Remove(old(cards), c).value else old(cards)
    {
      var r := Remove(cards, c);
      ok := r.Some?;
      if ok {
        cards := r.value;
      }
    }

    /** `deck.remove(c)` for the slots in turn, stopping at the first ValueError. */
    method TakeAll(slots: seq<Option<Card>>) returns (ok: bool)
      modifies this
      ensures (cards, ok) == Drain(old(cards), slots)
    {
      var i := 0;
      while i < |slots|
        invariant 0 <= i <= |slots|
        invariant Drain(old(cards), slots) == Drain(cards, slots[i..])
      {
        assert slots[i..][1..] == slots[i + 1..];
        if slots[i].None? {
          return false;
        }
        ok := Take(slots[i].value);
        if !ok {
          return;
        }
        i := i + 1;
      }
      assert slots[i..] == [];
      ok := true;
    }
  }

  /** `assign_cards_for_estimation(board, deck)`, the two `random.choice` draws given as `d1` and `d2`. */
  method AssignCardsForEstimation(b: PokerBoard, deck: DeckList, d1: nat, d2: nat) returns (r: Result<PokerBoard, string>)
    requires NineSlots(b)
    modifies deck
    ensures (r, deck.cards) == EstimationDeal(b, old(deck.cards), d1, d2)
  {
    var ok := deck.TakeAll(EstimationSlots(b.tup));
    if !ok {
      return Err("ValueError");
    }
    if deck.cards == [] {
      return Err("IndexError");
    }
    var c1 := Choice(deck.cards, d1);
    var _ := deck.Take(c1);
    if deck.cards == [] {
      return Err("IndexError");
    }
    var c2 := Choice(deck.cards, d2);
    r := Ok(b.(tup := b.tup[0 := Some(c1)][1 := Some(c2)]));
  }

  /**
   * On a fresh deck with the cards on the table distinct deck cards, the deal
   * succeeds: the guessed hand is two different deck cards, neither of them on
   * the table nor the machine's own, and nothing else on the board changes.
   * The first guessed card has left the caller's deck; the second is still in it.
   */
  lemma FreshDeckDeal(b: PokerBoard, d1: nat, d2: nat)
    requires NineSlots(b) && DistinctDeckCards(EstimationSlots(b.tup))
    ensures EstimationDeal(b, Deck(), d1, d2).0.Ok?
    ensures var (r, after) := EstimationDeal(b, Deck(), d1, d2);
      var c := r.value;
      && c == b.(tup := c.tup) && |c.tup| == 9 && c.tup[2..] == b.tup[2..]
      && c.tup[0].Some? && c.tup[1].Some? && c.tup[0] != c.tup[1]
      && ValidCard(c.tup[0].value) && ValidCard(c.tup[1].value)
      && c.tup[0].value !in Known(EstimationSlots(b.tup)) && c.tup[1].value !in Known(EstimationSlots(b.tup))
      && c.tup[0].value !in after && c.tup[1].value in after
      && |after| + |EstimationSlots(b.tup)| == 51
  {
    var slots := EstimationSlots(b.tup);
    DrainRemoves(Deck(), slots);
    RemoveFromDeckSucceeds(slots);
    RemoveFromDeckRest(slots);
    var rest := RemoveAll(Deck(), slots).value;
    assert |rest| >= 45;
    var c1 := Choice(rest, d1);
    var rest1 := Remove(rest, c1).value;
    assert |rest1| == |rest| - 1 by {
      assert |multiset(rest1)| == |multiset(rest)| - 1;
    }
    var c2 := Choice(rest1, d2);
    assert c2 in multiset(rest1);
    assert c2 in rest;
    DistinctMultiplicity(rest, c1);
    assert c1 !in multiset(rest1);
    assert c2 != c1;
  }

  /**
   * On any deck the deal fails exactly when a slot on the table is empty or
   * missing from the deck (ValueError), or fewer than two cards are left
   * (IndexError).
   */
  lemma DealErrors(b: PokerBoard, deck: seq<Card>, d1: nat, d2: nat)
    requires NineSlots(b)
    ensures var slots := EstimationSlots(b.tup);
      && (EstimationDeal(b, deck, d1, d2).0 == Err("ValueError") <==> RemoveAll(deck, slots).None?)
      && (EstimationDeal(b, deck, d1, d2).0 == Err("IndexError") <==> RemoveAll(deck, slots).Some? && |RemoveAll(deck, slots).value| < 2)
  {
    var slots := EstimationSlots(b.tup);
    DrainRemoves(deck, slots);
    if RemoveAll(deck, slots).Some? {
      var rest := RemoveAll(deck, slots).value;
      if rest != [] {
        var c1 := Choice(rest, d1);
        var rest1 := Remove(rest, c1).value;
        assert |rest1| == |rest| - 1 by {
          assert |multiset(rest1)| == |multiset(rest)| - 1;
        }
      }
    }
  }
}
