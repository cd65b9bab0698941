/**
 * What the three poker files share: the 14-field `PokerBoard` namedtuple, the
 * betting half of `make_move` (identical in all three), `list.remove` on a deck,
 * and the best-score loop the winner functions run over hand scores.
 */
module Board {
  import opened Wrappers
  import opened Lists
  import opened Cards
  import opened Hands

  /** `folded`: None, 'ma' (the machine folded) or 'opp' (the opponent folded). */
  datatype Folded = Nobody | Machine | Opponent

  /** The `action` argument of `make_move`: 'R', 'C' or 'F'. */
  datatype Action = Raise | Check | Fold

  /** One `board.make_move(action, amount)` call that `find_children` issues. */
  datatype Offer = Offer(action: Action, amount: int)

  /**
   * The namedtuple `PokerBoard`. `turn` is True when the machine moves; `tup`
   * holds the card slots, `None` for a card not dealt yet.
   */
  datatype PokerBoard = PokerBoard(
    tup: seq<Option<Card>>,
    turn: bool,
    winner: Option<bool>,
    terminal: bool,
    moneyMachine: int,
    moneyMiddle: int,
    moneyOpp: int,
    raisedOpp: bool,
    checkedOpp: bool,
    raisedMa: bool,
    checkedMa: bool,
    raisedMoneyOpp: int,
    raisedMoneyMa: int,
    folded: Folded)

  /** All chips on the table: both stacks and the pot. */
  function Chips(b: PokerBoard): int {
    b.moneyMachine + b.moneyMiddle + b.moneyOpp
  }

  /** The stack of the player to move. */
  function MoverStack(b: PokerBoard): int {
    if b.turn then b.moneyMachine else b.moneyOpp
  }

  /** The stack of the player waiting. */
  function OtherStack(b: PokerBoard): int {
    if b.turn then b.moneyOpp else b.moneyMachine
  }

  function MinInt(x: int, y: int): int {
    if x <= y then x else y
  }

  /**
   * The part of `make_move` before the winner is decided: the new stacks, pot,
   * flags and `folded`, with the turn passed on. `winner` and `terminal` are
   * carried over; each file's `make_move` then sets them.
   */
  function Bet(b: PokerBoard, action: Action, amount: int): (r: PokerBoard)
    ensures Chips(r) == Chips(b)
    ensures r.tup == b.tup && r.turn == !b.turn
    ensures action == Raise ==> r.moneyMiddle == b.moneyMiddle + amount && MoverStack(r) == OtherStack(b)
    ensures action == Raise ==> OtherStack(r) == MoverStack(b) - amount && r.folded == Nobody
    ensures action != Raise ==> r.moneyMachine == b.moneyMachine && r.moneyOpp == b.moneyOpp && r.moneyMiddle == b.moneyMiddle
    ensures r.raisedMoneyMa + r.raisedMoneyOpp == b.raisedMoneyMa + b.raisedMoneyOpp + (if action == Raise then amount else 0)
    ensures action == Fold ==> r.folded == (if b.turn then Machine else Opponent)
    ensures action == Check ==> r.folded == Nobody
    ensures r.winner == b.winner && r.terminal == b.terminal
    // A raise goes to the mover's raised total and clears both checks.
    ensures action == Raise ==>
      && !r.checkedMa && !r.checkedOpp
      && (if b.turn
          then r.raisedMoneyMa == b.raisedMoneyMa + amount && r.raisedMoneyOpp == b.raisedMoneyOpp
               && r.raisedMa && r.raisedOpp == b.raisedOpp
          else r.raisedMoneyOpp == b.raisedMoneyOpp + amount && r.raisedMoneyMa == b.raisedMoneyMa
               && r.raisedOpp && r.raisedMa == b.raisedMa)
    // A check marks the mover as checked and no longer raised; the other player's flags stay.
    ensures action == Check ==>
      && r.raisedMoneyMa == b.raisedMoneyMa && r.raisedMoneyOpp == b.raisedMoneyOpp
      && (if b.turn
          then r.checkedMa && !r.raisedMa && r.checkedOpp == b.checkedOpp && r.raisedOpp == b.raisedOpp
          else r.checkedOpp && !r.raisedOpp && r.checkedMa == b.checkedMa && r.raisedMa == b.raisedMa)
    // A fold clears both checks and keeps the raise flags and totals.
    ensures action == Fold ==>
      && !r.checkedMa && !r.checkedOpp && r.raisedMa == b.raisedMa && r.raisedOpp == b.raisedOpp
      && r.raisedMoneyMa == b.raisedMoneyMa && r.raisedMoneyOpp == b.raisedMoneyOpp
  {
    match action
    case Raise =>
      if b.turn then
        b.(turn := false, checkedMa := false, checkedOpp := false, folded := Nobody,
           raisedMa := true, raisedMoneyMa := b.raisedMoneyMa + amount,
           moneyMachine := b.moneyMachine - amount, moneyMiddle := amount + b.moneyMiddle)
      else
        b.(turn := true, checkedMa := false, checkedOpp := false, folded := Nobody,
           raisedOpp := true, raisedMoneyOpp := b.raisedMoneyOpp + amount,
           moneyOpp := b.moneyOpp - amount, moneyMiddle := b.moneyMiddle + amount)
    case Check =>
      if b.turn then
        b.(turn := false, folded := Nobody, checkedMa := true, raisedMa := false)
      else
        b.(turn := true, folded := Nobody, checkedOpp := true, raisedOpp := false)
    case Fold =>
      b.(turn := !b.turn, checkedMa := false, checkedOpp := false,
         folded := if b.turn then Machine else Opponent)
  }

  /** The winner a fold decides: the opponent folding means the machine won. */
  function FoldWinner(f: Folded): (w: Option<bool>)
    ensures w.Some? <==> f != Nobody
    ensures w == Some(true) <==> f == Opponent
  {
    match f
    case Nobody => None
    case Machine => Some(false)
    case Opponent => Some(true)
  }

  /** A finished board has a winner (what `check_board_terminal` needs to pay the pot). */
  predicate Settled(b: PokerBoard) {
    b.terminal ==> b.winner.Some?
  }

  /**
   * `moves.add(...)` over a loop of moves, each of which may raise: the first
   * error ends the loop and is what the caller sees.
   */
  function Gather(results: seq<Result<PokerBoard, string>>): Result<set<PokerBoard>, string>
    decreases |results|
  {
    if results == [] then Ok({})
    else match Gather(results[..|results| - 1])
      case Err(e) => Err(e)
      case Ok(moves) =>
        match results[|results| - 1]
        case Err(e) => Err(e)
        case Ok(c) => Ok(moves + {c})
  }

  /** The set gathered holds exactly the moves made, unless one fails; then the first failure is reported. */
  lemma {:induction false} GatherSpec(results: seq<Result<PokerBoard, string>>)
    ensures Gather(results).Ok? <==> forall k :: 0 <= k < |results| ==> results[k].Ok?
    ensures Gather(results).Ok? ==> forall c :: c in Gather(results).value <==> Ok(c) in results
    ensures Gather(results).Err? ==> exists k :: 0 <= k < |results| && results[k] == Err(Gather(results).error) &&
                                              forall j :: 0 <= j < k ==> results[j].Ok?
    decreases |results|
  {
    if results != [] {
      var init := results[..|results| - 1];
      GatherSpec(init);
      assert forall k :: 0 <= k < |init| ==> init[k] == results[k];
      assert results == init + [results[|results| - 1]];
    }
  }

  /** One more move gathered. */
  lemma GatherAppend(results: seq<Result<PokerBoard, string>>, x: Result<PokerBoard, string>)
    ensures Gather(results + [x]) ==
      if Gather(results).Err? then Gather(results)
      else if x.Err? then Err(x.error)
      else Ok(Gather(results).value + {x.value})
  {
    assert (results + [x])[..|results|] == results;
  }

  /** Once a move has failed, the moves after it change nothing. */
  lemma {:induction false} GatherErrPrefix(results: seq<Result<PokerBoard, string>>, more: seq<Result<PokerBoard, string>>)
    requires Gather(results).Err?
    ensures Gather(results + more) == Gather(results)
    decreases |more|
  {
    if more != [] {
      var init := more[..|more| - 1];
      GatherErrPrefix(results, init);
      assert results + more == (results + init) + [more[|more| - 1]];
      GatherAppend(results + init, more[|more| - 1]);
    } else {
      assert results + more == results;
    }
  }

  /**
   * One more step of a loop that adds results in order: the next result is added,
   * or its error ends the loop with the error the whole gathering reports.
   */
  lemma GatherStep(all: seq<Result<PokerBoard, string>>, k: nat)
    requires k < |all| && Gather(all[..k]).Ok?
    ensures all[k].Ok? ==> Gather(all[..k + 1]).Ok? && Gather(all[..k + 1]).value == Gather(all[..k]).value + {all[k].value}
    ensures all[k].Err? ==> Gather(all) == Err(all[k].error)
  {
    assert all[..k + 1] == all[..k] + [all[k]];
    GatherAppend(all[..k], all[k]);
    if all[k].Err? {
      GatherErrPrefix(all[..k + 1], all[k + 1..]);
      assert all[..k + 1] + all[k + 1..] == all;
    }
  }

  // ---------------------------------------------------------------------------
  // list.remove on a deck of card strings

  /** `deck.remove(c)`: drops the first `c`, or `None` where Python raises ValueError. */
  function Remove(deck: seq<Card>, c: Card): (r: Option<seq<Card>>)
    ensures r.Some? <==> c in deck
    ensures r.Some? ==> multiset(r.value) == multiset(deck) - multiset{c}
  {
    if deck == [] then None
    else if deck[0] == c then
      assert deck == [deck[0]] + deck[1..];
      Some(deck[1..])
    else
      assert deck == [deck[0]] + deck[1..];
      match Remove(deck[1..], c)
      case None => None
      case Some(rest) => Some([deck[0]] + rest)
  }

  /** `deck.remove(tup[i])`: an empty slot (`None`) is not in the deck either. */
  function RemoveSlot(deck: seq<Card>, slot: Option<Card>): Option<seq<Card>> {
    if slot.None? then None else Remove(deck, slot.value)
  }

  /** Every slot holds a card. */
  predicate Filled(slots: seq<Option<Card>>) {
    forall i :: 0 <= i < |slots| ==> slots[i].Some?
  }

  /** The cards of filled slots. */
  function Known(slots: seq<Option<Card>>): (r: seq<Card>)
    requires Filled(slots)
    ensures |r| == |slots|
    ensures forall i :: 0 <= i < |slots| ==> slots[i] == Some(r[i])
  {
    seq(|slots|, i requires 0 <= i < |slots| => slots[i].value)
  }

  /** `for c in slots: deck.remove(c)`, stopping at the first ValueError. */
  function RemoveAll(deck: seq<Card>, slots: seq<Option<Card>>): Option<seq<Card>>
    decreases |slots|
  {
    if slots == [] then Some(deck)
    else match RemoveSlot(deck, slots[0])
      case None => None
      case Some(d) => RemoveAll(d, slots[1..])
  }

  /** `for c in slots: deck.remove(c)` on a deck of its own, stopping at the first ValueError. */
  method RemoveDealt(deck: seq<Card>, already: seq<Option<Card>>) returns (r: Option<seq<Card>>)
    ensures r == RemoveAll(deck, already)
  {
    var rest := deck;
    var i := 0;
    while i < |already|
      invariant 0 <= i <= |already|
      invariant RemoveAll(deck, already) == RemoveAll(rest, already[i..])
    {
      assert already[i..][1..] == already[i + 1..];
      match RemoveSlot(rest, already[i])
      case None =>
        return None;
      case Some(d) =>
        rest := d;
      i := i + 1;
    }
    assert already[i..] == [];
    r := Some(rest);
  }

  /**
   * Removing the cards of `slots` one by one succeeds exactly when every slot
   * holds a card and the deck holds them all (with multiplicity); what is left
   * is the deck without them.
   */
  lemma {:induction false} RemoveAllSpec(deck: seq<Card>, slots: seq<Option<Card>>)
    ensures RemoveAll(deck, slots).Some? <==> Filled(slots) && multiset(Known(slots)) <= multiset(deck)
    ensures RemoveAll(deck, slots).Some? ==> multiset(RemoveAll(deck, slots).value) == multiset(deck) - multiset(Known(slots))
    decreases |slots|
  {
    if slots == [] {
      assert Known(slots) == [];
    } else if slots[0].None? {
      assert !Filled(slots);
    } else {
      var c, tail := slots[0].value, slots[1..];
      assert Filled(slots) <==> Filled(tail) by {
        if Filled(tail) {
          forall i | 0 <= i < |slots| ensures slots[i].Some? {
            if i > 0 { assert slots[i] == tail[i - 1]; }
          }
        }
      }
      if c !in deck {
        if Filled(slots) {
          assert Known(slots)[0] == c;
          assert c in multiset(Known(slots));
        }
      } else {
        var d := Remove(deck, c).value;
        RemoveAllSpec(d, tail);
        if Filled(slots) {
          assert Known(slots) == [c] + Known(tail);
          SubtractOne(multiset(Known(tail)), multiset(deck), c);
        }
      }
    }
  }

  /** Multiset arithmetic for taking one `c` out first. */
  lemma SubtractOne<T>(a: multiset<T>, m: multiset<T>, c: T)
    requires c in m
    ensures multiset{c} + a <= m <==> a <= m - multiset{c}
    ensures (m - multiset{c}) - a == m - (multiset{c} + a)
  {
    if multiset{c} + a <= m {
      forall x ensures a[x] <= (m - multiset{c})[x] {
        assert (multiset{c} + a)[x] <= m[x];
      }
    }
    if a <= m - multiset{c} {
      forall x ensures (multiset{c} + a)[x] <= m[x] {
        assert a[x] <= (m - multiset{c})[x];
      }
    }
  }

  /** A value repeated in `s` has multiplicity at least two. */
  lemma Repeated2<T>(s: seq<T>, i: nat, j: nat)
    requires i < j < |s| && s[i] == s[j]
    ensures multiset(s)[s[i]] >= 2
  {
    assert s == s[..i] + [s[i]] + s[i + 1..j] + [s[j]] + s[j + 1..];
  }

  /** A list whose multiset fits into a repetition-free list repeats nothing and draws from it. */
  lemma SubmultisetDistinct<T>(s: seq<T>, d: seq<T>)
    requires Distinct(d) && multiset(s) <= multiset(d)
    ensures Distinct(s)
    ensures forall x :: x in s ==> x in d
  {
    forall i, j | 0 <= i < j < |s| ensures s[i] != s[j] {
      if s[i] == s[j] {
        Repeated2(s, i, j);
        assert s[i] in multiset(d);
        var k :| 0 <= k < |d| && d[k] == s[i];
        CountDistinctOne(d, k);
        CountMultiset(d, s[i]);
        assert false;
      }
    }
    forall x | x in s ensures x in d {
      assert x in multiset(s);
    }
  }

  /** A repetition-free list holds each of its values exactly once. */
  lemma DistinctMultiplicity<T>(d: seq<T>, x: T)
    requires Distinct(d)
    ensures multiset(d)[x] == if x in d then 1 else 0
  {
    CountMultiset(d, x);
    if x in d {
      var k :| 0 <= k < |d| && d[k] == x;
      CountDistinctOne(d, k);
    } else {
      CountAbsent(d, x);
    }
  }

  /** Filled slots whose cards are distinct deck cards. */
  predicate DistinctDeckCards(slots: seq<Option<Card>>) {
    Filled(slots) && Distinct(Known(slots)) && forall i :: 0 <= i < |slots| ==> ValidCard(Known(slots)[i])
  }

  /** Dealing one more deck card that is not yet out keeps the dealt cards distinct. */
  lemma ExtendDistinct(slots: seq<Option<Card>>, c: Card)
    requires DistinctDeckCards(slots) && ValidCard(c) && c !in Known(slots)
    ensures DistinctDeckCards(slots + [Some(c)]) && Known(slots + [Some(c)]) == Known(slots) + [c]
  {
    var ext := slots + [Some(c)];
    assert Filled(ext);
    assert Known(ext) == Known(slots) + [c];
  }

  /** Taking cards out of the 52-card deck succeeds exactly when the slots hold distinct deck cards. */
  lemma RemoveFromDeckSucceeds(slots: seq<Option<Card>>)
    ensures RemoveAll(Deck(), slots).Some? <==> DistinctDeckCards(slots)
  {
    DeckContents();
    RemoveAllSpec(Deck(), slots);
    if Filled(slots) {
      var ks := Known(slots);
      if multiset(ks) <= multiset(Deck()) {
        SubmultisetDistinct(ks, Deck());
      } else if DistinctDeckCards(slots) {
        forall c ensures multiset(ks)[c] <= multiset(Deck())[c] {
          DistinctMultiplicity(ks, c);
          DistinctMultiplicity(Deck(), c);
        }
        assert false;
      }
    }
  }

  /** What is left after taking the slots' cards out of the deck: every other deck card, once. */
  lemma RemoveFromDeckRest(slots: seq<Option<Card>>)
    requires RemoveAll(Deck(), slots).Some?
    ensures Filled(slots)
    ensures Distinct(RemoveAll(Deck(), slots).value)
    ensures forall c :: c in RemoveAll(Deck(), slots).value <==> ValidCard(c) && c !in Known(slots)
    ensures |RemoveAll(Deck(), slots).value| + |slots| == 52
  {
    DeckContents();
    RemoveAllSpec(Deck(), slots);
    var ks := Known(slots);
    var rest := RemoveAll(Deck(), slots).value;
    assert multiset(rest + ks) == multiset(Deck()) by {
      forall x ensures multiset(rest + ks)[x] == multiset(Deck())[x] {
        assert multiset(rest + ks) == multiset(rest) + multiset(ks);
      }
    }
    assert |multiset(rest + ks)| == |rest + ks|;
    SubmultisetDistinct(ks, Deck());
    SubmultisetDistinct(rest, Deck());
    forall c ensures c in rest <==> ValidCard(c) && c !in ks {
      DistinctMultiplicity(ks, c);
      DistinctMultiplicity(Deck(), c);
      assert c in rest <==> multiset(rest)[c] > 0;
    }
  }

  // ---------------------------------------------------------------------------
  // The best-score loop of the winner functions

  /** A slot that `score_hand` can read: a dealt card whose rank parses. */
  predicate ReadableSlot(slot: Option<Card>) {
    slot.Some? && RankOf(slot.value).Some?
  }

  /** Every hand in `hands` can be scored. */
  predicate AllReadable(hands: seq<seq<Card>>) {
    forall k :: 0 <= k < |hands| ==> Readable(hands[k])
  }

  /** The score of each hand, in order. */
  function Scores(hands: seq<seq<Card>>): (r: seq<real>)
    requires AllReadable(hands)
    ensures |r| == |hands| && forall k :: 0 <= k < |hands| ==> r[k] == ScoreHand(hands[k])
  {
    seq(|hands|, k requires 0 <= k < |hands| && AllReadable(hands) => ScoreHand(hands[k]))
  }

  /** What `score = 0; for s in xs: if s > score: score = s` ends with. */
  function Best(xs: seq<real>): (r: real)
    ensures r >= 0.0
    ensures forall k :: 0 <= k < |xs| ==> xs[k] <= r
    ensures r == 0.0 || exists k :: 0 <= k < |xs| && r == xs[k]
  {
    if xs == [] then 0.0
    else
      var init := xs[..|xs| - 1];
      var prev := Best(init);
      assert forall k :: 0 <= k < |init| ==> xs[k] == init[k];
      if xs[|xs| - 1] > prev then xs[|xs| - 1] else prev
  }

  /**
   * The value the loop `score = 0; for c in hands: if score_hand(c) > score: score = ...`
   * ends with: the best score, or 0 when nothing beats 0.
   */
  function BestScore(hands: seq<seq<Card>>): (r: real)
    requires AllReadable(hands)
    ensures r >= 0.0
    ensures forall k :: 0 <= k < |hands| ==> ScoreHand(hands[k]) <= r
    ensures r == 0.0 || exists k :: 0 <= k < |hands| && r == ScoreHand(hands[k])
  {
    var scores := Scores(hands);
    var r := Best(scores);
    assert r == 0.0 || exists k :: 0 <= k < |scores| && r == scores[k];
    r
  }

  /** The loop itself, proved to end with `BestScore`. */
  method BestScoreLoop(hands: seq<seq<Card>>) returns (best: real)
    requires AllReadable(hands)
    ensures best == BestScore(hands)
  {
    ghost var scores := Scores(hands);
    best := 0.0;
    for k := 0 to |hands|
      invariant best == Best(scores[..k])
    {
      assert scores[..k + 1][..k] == scores[..k];
      var s := ScoreHand(hands[k]);
      assert scores[..k + 1][k] == s;
      if s > best {
        best := s;
      }
    }
    assert scores[..|hands|] == scores;
  }

  /** Every hand of five deck cards scores above zero. */
  lemma DeckHandPositive(hand: seq<Card>)
    requires DeckHand(hand)
    ensures Readable(hand) && ScoreHand(hand) > 0.0
  {
    DeckHandRanks(hand);
    var suited, ns := Suited(hand), Numbers(hand);
    ScoreInBand(suited, ns);
    FloorPositive(Category5(suited, ns));
  }

  lemma FloorPositive(c: Category)
    ensures Floor(c) > 0.0
  {
  }

  /** Every row of `combinations(arr, 5)` of readable cards can be scored. */
  lemma CombinationsReadable(arr: seq<Card>)
    requires forall i :: 0 <= i < |arr| ==> RankOf(arr[i]).Some?
    ensures AllReadable(Combinations(arr, 5))
  {
    CombinationRows(arr, 5);
    forall k | 0 <= k < |Combinations(arr, 5)| ensures Readable(Combinations(arr, 5)[k]) {
      var row := Combinations(arr, 5)[k];
      forall i | 0 <= i < 5 ensures RankOf(row[i]).Some? {
        assert row[i] in multiset(arr);
      }
    }
  }

  /** The best 5-of-n score of `arr`: the loop run over `combinations(arr, 5)`. */
  function BestOfCombinations(arr: seq<Card>): (r: real)
    requires forall i :: 0 <= i < |arr| ==> RankOf(arr[i]).Some?
  {
    CombinationsReadable(arr);
    BestScore(Combinations(arr, 5))
  }

  /** Every deck card's rank parses. */
  lemma ValidRanks(arr: seq<Card>)
    requires forall i :: 0 <= i < |arr| ==> ValidCard(arr[i])
    ensures forall i :: 0 <= i < |arr| ==> RankOf(arr[i]).Some?
  {
    forall i | 0 <= i < |arr| ensures RankOf(arr[i]).Some? {
      ValidCardParts(arr[i]);
    }
  }

  /** The best score over `combinations(arr, 5)` is at least the score of any five cards of `arr` in order. */
  lemma BestOfCombinationsBound(arr: seq<Card>, row: seq<Card>)
    requires forall i :: 0 <= i < |arr| ==> RankOf(arr[i]).Some?
    requires |row| == 5 && IsSubsequence(row, arr)
    ensures Readable(row) && ScoreHand(row) <= BestOfCombinations(arr)
  {
    CombinationsReadable(arr);
    CombinationsExact(arr, 5, row);
    var k :| 0 <= k < |Combinations(arr, 5)| && Combinations(arr, 5)[k] == row;
  }

  /** With at least five deck cards the best score is the score of one of the rows, not the initial 0. */
  lemma BestOfCombinationsAttained(arr: seq<Card>)
    requires forall i :: 0 <= i < |arr| ==> ValidCard(arr[i])
    requires |arr| >= 5
    ensures forall i :: 0 <= i < |arr| ==> RankOf(arr[i]).Some?
    ensures AllReadable(Combinations(arr, 5))
    ensures exists k :: 0 <= k < |Combinations(arr, 5)| && BestOfCombinations(arr) == ScoreHand(Combinations(arr, 5)[k])
  {
    ValidRanks(arr);
    PrefixSubsequence(arr, 5);
    BestOfCombinationsBound(arr, arr[..5]);
    assert DeckHand(arr[..5]);
    DeckHandPositive(arr[..5]);
    CombinationsReadable(arr);
  }

  /** The first `n` elements of a list are a subsequence of it. */
  lemma {:induction false} PrefixSubsequence<T>(arr: seq<T>, n: nat)
    requires n <= |arr|
    ensures IsSubsequence(arr[..n], arr)
  {
    if n > 0 {
      PrefixSubsequence(arr[1..], n - 1);
      assert arr[..n][1..] == arr[1..][..n - 1];
    }
  }

  /** Scoring the same hand once per row, as the loop does when it ignores the row. */
  function Repeat(hand: seq<Card>, n: nat): (r: seq<seq<Card>>)
    ensures |r| == n && forall k :: 0 <= k < n ==> r[k] == hand
  {
    seq(n, k => hand)
  }

  /** A loop that scores the same deck hand on every one of its `n > 0` rounds ends with that score. */
  lemma {:induction false} RepeatedBest(hand: seq<Card>, n: nat)
    requires DeckHand(hand) && n > 0
    ensures Readable(hand) && AllReadable(Repeat(hand, n))
    ensures BestScore(Repeat(hand, n)) == ScoreHand(hand)
  {
    DeckHandPositive(hand);
    var r := Repeat(hand, n);
    assert r[0] == hand;
  }

  /** `C(m, n)` is positive when `n <= m`. */
  lemma {:induction false} BinomialPositive(m: nat, n: nat)
    requires n <= m
    ensures Binomial(m, n) > 0
  {
    if n > 0 {
      BinomialPositive(m - 1, n - 1);
    }
  }

  /** `combinations(arr, n)` yields at least one row when `n <= len(arr)`. */
  lemma CombinationsNonEmpty<T>(arr: seq<T>, n: nat)
    requires n <= |arr|
    ensures |Combinations(arr, n)| > 0
  {
    CombinationsCount(arr, n);
    BinomialPositive(|arr|, n);
  }

  /** No row of `rows` scores more than `hand`. */
  predicate Dominates(rows: seq<seq<Card>>, hand: seq<Card>)
    requires AllReadable(rows) && Readable(hand)
  {
    forall k :: 0 <= k < |rows| ==> ScoreHand(rows[k]) <= ScoreHand(hand)
  }

  /**
   * Comparing best five-card scores: `a`'s best is at least `b`'s exactly when
   * some five of `a`'s cards score at least every five of `b`'s.
   */
  lemma BestIffDominates(a: seq<Card>, b: seq<Card>)
    requires |a| >= 5 && |b| >= 5
    requires forall i :: 0 <= i < |a| ==> ValidCard(a[i])
    requires forall i :: 0 <= i < |b| ==> ValidCard(b[i])
    ensures forall i :: 0 <= i < |a| ==> RankOf(a[i]).Some?
    ensures forall i :: 0 <= i < |b| ==> RankOf(b[i]).Some?
    ensures AllReadable(Combinations(a, 5)) && AllReadable(Combinations(b, 5))
    ensures BestOfCombinations(a) >= BestOfCombinations(b) <==>
      exists k :: 0 <= k < |Combinations(a, 5)| && Dominates(Combinations(b, 5), Combinations(a, 5)[k])
  {
    BestOfCombinationsAttained(a);
    BestOfCombinationsAttained(b);
    var arows, brows := Combinations(a, 5), Combinations(b, 5);
    if BestOfCombinations(a) >= BestOfCombinations(b) {
      var k :| 0 <= k < |arows| && BestOfCombinations(a) == ScoreHand(arows[k]);
      assert Dominates(brows, arows[k]);
    }
    if exists k :: 0 <= k < |arows| && Dominates(brows, arows[k]) {
      var k :| 0 <= k < |arows| && Dominates(brows, arows[k]);
      var j :| 0 <= j < |brows| && BestOfCombinations(b) == ScoreHand(brows[j]);
      assert ScoreHand(brows[j]) <= ScoreHand(arows[k]);
    }
  }
}
