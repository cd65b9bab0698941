# HRS_poker in Dafny

A model of a heads-up poker player built on Monte Carlo tree search, with
proofs about the model. The system has three parts:

- a generic tree searcher that keeps, for every game state it meets, a total
  reward `Q`, a visit count `N` and the recorded children, and improves them by
  rollouts (select, expand, simulate, backpropagate);
- a five-card hand evaluator over card strings such as `"H10"` (suit letter,
  then decimal rank), with the 52-card deck and the k-of-n enumeration used to
  pick the best five of seven cards;
- three versions of the poker game state (a 14-field `PokerBoard` tuple): the
  nine-slot Texas hold'em board of `poker_mcts_updated.py`, its earlier version
  `poker_mcts.py`, and the seven-slot simplified board of `poker_mcts_fake.py`.

Modules, one file each:

| file | module | holds |
|---|---|---|
| wrappers.dfy | Wrappers | `Option` and `Result` (Python exceptions become `Err` strings) |
| lists.dfy | Lists | `list.count`, `max`, `min`, `list.index`, `sorted(reverse=True)`, `random.choice` with its draw given |
| cards.dfy | Cards | card strings, `str`/`int` round trip, `build_deck`, `combinations` |
| hands.dfy | Hands | `score_hand` and the `check_*` helpers, with exact reals |
| mcts.dfy | MonteCarloTreeSearch | the `MCTS` class over a `Game` record of node operations, and `machine_decision` |
| board.dfy | Board | the `PokerBoard` datatype, the betting half of `make_move`, `deck.remove`, the best-score loop |
| holdem.dfy | Holdem | the nine-slot board; `Version` = `Updated` (poker_mcts_updated.py) or `Original` (poker_mcts.py) |
| holdem_search.dfy | HoldemSearch | the loops of the nine-slot `find_children` and `assign_cards_to_middle_all_combinations` |
| estimation.dfy | Estimation | `assign_cards_for_estimation` removing cards from the caller's list in place |
| fake.dfy | PokerFake | the seven-slot board |
| fake_search.dfy | PokerFakeSearch | the loops of the seven-slot `assign_cards_to_middle_all_combinations` |

Randomness is given as inputs. A `random.choice` takes a draw number, the
opponent's two random cards in the nine-slot `_find_winner` come from a `Draws`
function of the card slots, and `find_random_child` is a game operation taking
a draw that may fail, as the Python method may raise. Each property holds for
every draw. The tree searcher takes the iteration order of a Python set as the
game's `enumerate` function. It also takes a `height` measure that every
recorded move lowers, which stands for the fact that games end. The random
playout of `_simulate` catches a failing draw, stays at the same node and
still flips the reward, so it may loop forever; the model runs it for at most
a given number of rounds (`fuel`) and reports when it has not ended.

## Model

| member | source | states |
|---|---|---|
| MonteCarloTreeSearch.MCTS.constructor | monte_carlo_tree_search.py:15-20 | a new searcher has empty `Q`, `N` and `children`, no rollouts, and exploration weight 20 |
| MonteCarloTreeSearch.MCTS.ListScores | monte_carlo_tree_search.py:37-39 | the scores list holds, position by position, minus infinity for an unvisited child and `Q/N` otherwise |
| MonteCarloTreeSearch.MCTS.Choose | monte_carlo_tree_search.py:22-49 | an error on a terminal node; for an unexpanded node a random child, or the error `find_random_child` raises; otherwise a recorded child whose average reward is at least every sibling's, visited whenever some sibling is, and an error only when the recorded set is empty |
| MonteCarloTreeSearch.BestIndex | monte_carlo_tree_search.py:49 | `max` with a key returns the first position holding a largest value |
| MonteCarloTreeSearch.BestAmong | monte_carlo_tree_search.py:49 | the running `max` over a prefix keeps the first largest value: it beats all earlier ones strictly |
| MonteCarloTreeSearch.SortDescDescending | monte_carlo_tree_search.py:71 | `sorted(scores, reverse=True)` is a descending permutation of the scores |
| MonteCarloTreeSearch.SortedHead | monte_carlo_tree_search.py:71-72 | the head of the descending scores is the score of the best action |
| MonteCarloTreeSearch.RankedIndex | monte_carlo_tree_search.py:74-78 | `scores.index(sorted[k])` is the first child holding the k-th largest score |
| MonteCarloTreeSearch.Pick | monte_carlo_tree_search.py:80-114 | a child index is picked exactly for levels 1, 2 and 3, and it is a valid index |
| MonteCarloTreeSearch.PickLevel3 | monte_carlo_tree_search.py:90-93 | level 3 plays a child of highest score, as `choose` does |
| MonteCarloTreeSearch.PickLevel2 | monte_carlo_tree_search.py:95-102 | level 2 plays the best action or the first child holding the second largest score |
| MonteCarloTreeSearch.PickLevel1 | monte_carlo_tree_search.py:104-114 | level 1 plays the only child when there is one, otherwise a child holding the second or third largest score |
| MonteCarloTreeSearch.TiedTopRepeatsBest | monte_carlo_tree_search.py:73-102 | when the two top scores tie, the "second best action" is the best action, so level 2 always plays it |
| MonteCarloTreeSearch.NoobAvoidsStrictBest | monte_carlo_tree_search.py:104-114 | with a strictly best child and at least two children, level 1 never plays the best child |
| MonteCarloTreeSearch.MCTS.ChooseEstimateWithLevel | monte_carlo_tree_search.py:52-114 | as `choose` on terminal and unexpanded nodes; otherwise the child at the index the level picks among the children in iteration order, nothing for another level, and always a recorded child |
| MonteCarloTreeSearch.MCTS.SelectExpand | monte_carlo_tree_search.py:122-126 | the selected path starts at the node, follows recorded children without repeats, and ends at a node that was unexpanded or childless and no higher than the node; only that node is newly expanded, with its game children, and `Q`, `N` are untouched |
| MonteCarloTreeSearch.MCTS.DoRollout | monte_carlo_tree_search.py:117-130 | the rollout's path starts at the node, follows recorded children and ends at a node that was unexpanded or childless, no higher than the node; that last node is expanded and no other expansion changes; the rollout ends exactly when the simulation from that node does, and then every node gains one visit per occurrence on the path and the alternating reward of the simulation, so the root gains one visit; otherwise `Q` and `N` are unchanged |
| MonteCarloTreeSearch.MCTS.Select | monte_carlo_tree_search.py:132-149 | a non-empty path from the node in which each node is a recorded child of the one before, every node but the last two has all children expanded, and the last is unexpanded or childless |
| MonteCarloTreeSearch.MCTS.LinkedDistinct | monte_carlo_tree_search.py:132-149 | a path of recorded children never repeats a node |
| MonteCarloTreeSearch.MCTS.Expand | monte_carlo_tree_search.py:151-155 | records the node's children only if not yet recorded (so a second call changes nothing) and leaves `Q`, `N` untouched |
| MonteCarloTreeSearch.MCTS.Simulate | monte_carlo_tree_search.py:157-176 | the loop returns the reward of the playout `Simulation` describes (a caught failure keeps the node and still flips the reward), or nothing when that playout has not ended within the fuel |
| MonteCarloTreeSearch.Simulation | monte_carlo_tree_search.py:157-176 | a playout that ends stops at a terminal node within the fuel; a terminal start ends at once after no rounds |
| MonteCarloTreeSearch.SimulationEnds | monte_carlo_tree_search.py:160-176 | when `find_random_child` never raises and the fuel covers the node's height, the playout ends |
| MonteCarloTreeSearch.AlwaysFailingNeverEnds | monte_carlo_tree_search.py:168-176 | on a node in play where `find_random_child` raises for every draw, the loop never ends, whatever the fuel |
| MonteCarloTreeSearch.FailureInvertsReward | monte_carlo_tree_search.py:168-176 | a caught failure on the first draw flips the returned reward: it is one minus what the rest of the playout alone returns |
| MonteCarloTreeSearch.MCTS.Backpropagate | monte_carlo_tree_search.py:178-183 | every node gains one visit per occurrence on the path and the alternating reward; every other node is unchanged |
| MonteCarloTreeSearch.GainAlternates | monte_carlo_tree_search.py:180-183 | on a path without repetitions the leaf gains `r`, its parent `1 - r`, the grandparent `r`, and so on |
| MonteCarloTreeSearch.GainAbsent | monte_carlo_tree_search.py:180-183 | a node off the path gains nothing |
| MonteCarloTreeSearch.MCTS.UctSelect | monte_carlo_tree_search.py:185-199 | a recorded child whose upper confidence bound is at least every sibling's |
| MonteCarloTreeSearch.MachineDecision | poker_mcts_updated.py:562-568 | when every simulation ends (always, when no draw fails and the fuel covers the board's height), the root has 300 more visits and is expanded, so the answer is a child of highest average reward, and an error exactly for a terminal or childless board |
| Cards.ParseDecimal | cards_test.py:82 | `int(s)` on ASCII digits succeeds exactly for a non-empty string of digits; Cards.DecimalRoundTrip gives its value |
| Cards.DecimalRoundTrip | cards_test.py:82 | `int(str(n)) == n` |
| Cards.CardRoundTrip | cards_test.py:81-82 | for a card built as suit plus `str(rank)`, `[:1]` gives the suit back and `int([1:])` the rank |
| Cards.RankOf | cards_test.py:82 | no contract of its own; Cards.CardRoundTrip and Cards.ValidCardParts state it on built and deck cards |
| Cards.MakeCardInjective | cards_test.py:14 | two built cards are equal exactly when suit and rank are |
| Cards.Deck | cards_test.py:8-16 | no contract of its own; Cards.DeckContents and Cards.DeckIsComplete state its contents |
| Cards.BuildDeck | cards_test.py:8-16 | the nested loops build exactly the deck value, ranks outer and suits inner |
| Cards.DeckContents | cards_test.py:8-16 | the deck holds 52 distinct cards, and a card is in it exactly when its suit is H, S, C or D and its rank 2 to 14 |
| Cards.ValidCardParts | cards_test.py:81-82 | a deck card splits into its suit letter and a rank between 2 and 14 |
| Cards.DeckIsComplete | cards_test.py:12-15 | every suit-and-rank pair is in the deck |
| Cards.Combinations | cards_test.py:18-22 | no contract of its own; Cards.CombinationsCount, Cards.CombinationsExact and Cards.CombinationRows state it |
| Cards.CombinationsCount | cards_test.py:18-22 | `combinations(arr, n)` yields C(len(arr), n) rows |
| Cards.CombinationsExact | cards_test.py:18-22 | a row is produced exactly when it is an n-element subsequence of `arr` in original order |
| Cards.CombinationRows | cards_test.py:18-22 | every row has n elements, all drawn from `arr` |
| Cards.CombinationCovers | cards_test.py:18-22 | every choice of distinct elements of a list without repetitions appears, up to order, as a row for its size |
| Lists.CountMultiset | cards_test.py:83 | `s.count(v)` is the multiplicity of `v` |
| Lists.Max | cards_test.py:85 | `max` is an element no smaller than any other |
| Lists.Min | cards_test.py:85 | `min` is an element no larger than any other |
| Lists.IndexOf | monte_carlo_tree_search.py:75 | `index` gives the first position holding the value |
| Lists.SortDescSorted | cards_test.py:148 | `sorted(reverse=True)` is in descending order and a permutation of its input |
| Lists.SortDescInts | cards_test.py:148 | on integers it is the one descending arrangement of the input |
| Lists.Choice | monte_carlo_tree_search.py:102 | `random.choice` returns an element of the list |
| Hands.Repetitions | cards_test.py:83-84 | `[s.count(i) for i in s]` holds each element's count |
| Hands.FullHouseCountsIff | cards_test.py:125 | `sorted(rnum) == [2,2,3,3,3]` holds exactly when three counts are 3 and two are 2 |
| Hands.LastWithCount | cards_test.py:25-29 | the loop's last assignment is found exactly when some value has the count, and it has that count |
| Hands.CheckFourOfAKind | cards_test.py:24-31 | no contract of its own; Hands.FourOfAKindScore states its value for four of rank q and one of rank k |
| Hands.CheckFullHouse | cards_test.py:33-40 | no contract of its own; Hands.FullHouseScore states its value |
| Hands.CheckThreeOfAKind | cards_test.py:42-50 | no contract of its own; Hands.ThreeOfAKindScore states its value |
| Hands.CheckTwoPair | cards_test.py:52-62 | no contract of its own; Hands.TwoPairScore states its value |
| Hands.CheckPair | cards_test.py:64-74 | no contract of its own; Hands.PairScore states its value |
| Hands.Category5 | cards_test.py:83-149 | no contract of its own; the branch taken, in the source's order, is stated for each hand shape by the `...Score` lemmas below (each names the category) |
| Hands.Score5 | cards_test.py:88-149 | no contract of its own; the `...Score` lemmas below give the score of each hand shape, Hands.ScoreInBand its range |
| Hands.ScoreHand | cards_test.py:79-152 | no contract of its own; Hands.HandOrder orders it on two deck hands, Hands.SuitedIff states its `5 in rlet` test, and the `...Score` lemmas give its value through Hands.Score5 |
| Hands.FourOfAKindScore | cards_test.py:24-31 | four cards of rank q and one of rank k score 105 + q + k/100, whatever the suits |
| Hands.FullHouseScore | cards_test.py:33-40 | three of rank t and two of rank p score 90 + t + p/100 |
| Hands.ThreeOfAKindScore | cards_test.py:42-50 | three of rank t and single cards a > b score 45 + t + a + b/1000 |
| Hands.TwoPairScore | cards_test.py:52-62 | pairs p > q and single card k score 30 + p + q/100 + k/1000 |
| Hands.PairScore | cards_test.py:64-74 | a pair p and single cards a > b > c score 15 + p + a/100 + b/1000 + c/10000 |
| Hands.StraightFlushScore | cards_test.py:88-96 | same-suit consecutive ranks score 135 when they read 14, 13, 12, 11, 10 in hand order, else 120 + top rank |
| Hands.FlushScore | cards_test.py:117-119 | same-suit different ranks that are not consecutive score 75 + top rank/100 |
| Hands.StraightScore | cards_test.py:141-143 | consecutive different ranks of mixed suits score 65 + top rank |
| Hands.HighCardScore | cards_test.py:146-149 | five different non-consecutive ranks of mixed suits score a + b/100 + c/1000 + d/10000 + e/100000 |
| Hands.ScoreInBand | cards_test.py:79-152 | with ranks 2 to 14 every score lies in the band of its category |
| Hands.BandFour | cards_test.py:121-123 | a four of a kind scores between 107.02 and 119.14 |
| Hands.BandFullHouse | cards_test.py:125-127 | a full house scores between 92.02 and 104.14 |
| Hands.BandThree | cards_test.py:129-131 | a three of a kind scores between 49.002 and 73.014 |
| Hands.BandTwoPair | cards_test.py:133-135 | a two pair scores between 32.022 and 44.154 |
| Hands.BandPair | cards_test.py:137-139 | a pair scores between 17.0222 and 29.1554 |
| Hands.BandHighCard | cards_test.py:146-149 | a high card scores between 2.02222 and 14.15554 |
| Hands.BandsSeparate | cards_test.py:79-152 | for categories in strength order, apart from the two overlapping pairs, the weaker band lies wholly below the stronger |
| Hands.ScoreOrder | cards_test.py:79-152 | a hand of a category that outranks another's scores strictly more |
| Hands.HandOrder | cards_test.py:79-152 | between two five-card deck hands, the outranking category scores more |
| Hands.ThreeOfAKindCanBeatStraight | cards_test.py:129-144 | three aces with king and queen outscore the six-high straight |
| Hands.StraightCanBeatFlush | cards_test.py:117-144 | the ace-high straight outscores every flush |
| Hands.SuitedIff | cards_test.py:84-88 | `5 in rlet` holds exactly when all five suits are equal |
| Hands.DeckHandRanks | cards_test.py:81-82 | five deck cards are readable and their ranks run from 2 to 14 |
| Hands.RoyalFlushDependsOnOrder | cards_test.py:89-96 | hearts 14 down to 10 score 135, the same cards from 10 up to 14 score 134 |
| Hands.WheelIsHighCard | cards_test.py:141-149 | ace, 2, 3, 4, 5 of mixed suits is a high card worth 14.05432, since the ace counts only as 14 |
| Board.Bet | poker_mcts_updated.py:436-509 | a raise moves exactly the amount from the mover's stack to the pot and to the mover's raised total, sets the mover's raised flag and clears both checked flags; a check sets the mover's checked flag and clears its raised flag; a fold clears both checked flags and records who folded; check and fold move no chips; the other player's flags and total stay, chips are conserved, cards, winner and finished flag kept, and the turn passes |
| Board.FoldWinner | poker_mcts_updated.py:1009-1012 | a fold decides the winner: the opponent folding means the machine won |
| Board.GatherSpec | poker_mcts_updated.py:119-120 | the set of moves added holds exactly the moves made, unless one raised; then the first error is what the caller sees |
| Board.GatherStep | poker_mcts_updated.py:119-120 | one more `moves.add`: the move is added, or its error ends the loop |
| Board.Remove | poker_mcts_updated.py:385 | `deck.remove(c)` succeeds exactly when `c` is in the deck and takes out one copy |
| Board.RemoveAllSpec | poker_mcts_updated.py:384-385 | removing the dealt slots succeeds exactly when every slot holds a card and the deck holds them all; the rest is the deck without them |
| Board.RemoveDealt | poker_mcts_updated.py:384-385 | the removal loop computes exactly that |
| Board.RemoveFromDeckSucceeds | poker_mcts_updated.py:368-385 | taking slots out of a fresh deck succeeds exactly when they hold distinct deck cards |
| Board.RemoveFromDeckRest | poker_mcts_updated.py:368-385 | what is left is every other deck card, once, and 52 cards in all with the slots |
| Board.Best | poker_mcts_updated.py:985-992 | the loop's best score is at least every score and is one of them or the initial 0 |
| Board.BestScore | poker_mcts_updated.py:985-992 | the same over the hand scores |
| Board.BestScoreLoop | poker_mcts_updated.py:985-992 | the loop itself ends with the best score |
| Board.DeckHandPositive | poker_mcts_updated.py:985-992 | every five deck cards score above 0, so the initial 0 never survives |
| Board.BestOfCombinationsBound | poker_mcts_updated.py:981-992 | the best over `combinations(arr, 5)` is at least the score of any five cards of `arr` |
| Board.BestOfCombinationsAttained | poker_mcts_updated.py:981-992 | with five or more deck cards the best is the score of some row |
| Board.BestIffDominates | poker_mcts_updated.py:981-1007 | one best-of-five is at least another exactly when some five of the first score at least every five of the second |
| Board.RepeatedBest | poker_mcts.py:1071-1078 | a loop scoring the same hand on every round ends with that hand's score |
| Holdem.NewPokerBoard | poker_mcts_updated.py:1081-1083 | nine empty slots, the opponent to act, no winner, empty pot, both stacks at the version's start (30 updated, 20 in poker_mcts.py:1105) |
| Holdem.Reward | poker_mcts_updated.py:269-283 | an error exactly on a board in play; otherwise minus the pot when the machine won and the pot otherwise, with the opposite sign in poker_mcts.py:270-288 |
| Holdem.CheckBoardTerminal | poker_mcts_updated.py:814-832 | a finished board pays the pot to the winner and empties it, conserving chips when it has a winner; a board in play comes back unchanged |
| Holdem.AssignCardsToMiddle | poker_mcts_updated.py:410-430 | the given card fills the slot, other slots and fields stay, and the turn passes |
| Holdem.OppSeven | poker_mcts_updated.py:963-975 | the opponent's seven cards: two deck cards not dealt, then the five community cards |
| Holdem.RandomShowdown | poker_mcts_updated.py:959-1007 | the showdown succeeds exactly when the seven dealt cards are distinct deck cards |
| Holdem.FindWinner | poker_mcts_updated.py:945-1016 | a fold decides; no winner before the river; then a winner exactly when the dealt cards are distinct deck cards |
| Holdem.Compare | poker_mcts_updated.py:981-1007 | no contract of its own; Holdem.UpdatedShowdownIsBestOfSeven states the updated comparison and Holdem.OriginalCompareFirstFive the original one |
| Holdem.UpdatedShowdownIsBestOfSeven | poker_mcts_updated.py:981-1007 | the machine wins exactly when some five of its seven cards score at least every five of the opponent's seven |
| Holdem.OriginalShowdownScoresFirstFive | poker_mcts.py:1006-1030 | the original showdown compares the first five of the machine's seven cards with the first five of the opponent's |
| Holdem.OriginalCompareFirstFive | poker_mcts.py:1009-1030 | scoring the whole seven-card list once per row compares the first five cards of each |
| Holdem.RealShowdown | poker_mcts_updated.py:1033-1068 | the real showdown succeeds exactly when every scored slot holds a readable card |
| Holdem.FindWinnerReal | poker_mcts_updated.py:1018-1079 | a fold decides; no winner before the river; otherwise the real showdown's answer or its error |
| Holdem.RealShowdownIsBestOfSeven | poker_mcts_updated.py:1036-1068 | on a full deal the machine wins exactly when some five of `tup[0..7]` score at least every five of `tup[2..9]` |
| Holdem.OriginalRealIgnoresOpponentCards | poker_mcts.py:1064-1092 | the original real showdown gives the same answer whatever slots 7 and 8 hold |
| Holdem.MakeMove | poker_mcts_updated.py:432-524 | the bet, then the winner: a fold decides, with `real` or before the river only a fold does, and after the river a showdown that fails on repeated or foreign cards; chips conserved, turn passed, finished exactly when there is a winner |
| Holdem.TruncDiv5 | poker_mcts_updated.py:114 | `int(x/5)` is the largest multiple count not exceeding a non-negative `x` |
| Holdem.Ladder | poker_mcts_updated.py:119-120 | the raises of 5, 10, ..., 5n in order |
| Holdem.Offers | poker_mcts_updated.py:90-151 | no contract of its own; Holdem.FacingChildren, Holdem.OpenMove, Holdem.OpenRaiseBounded and Holdem.OpenRaiseOffered state the calls it lists |
| Holdem.Apply | poker_mcts_updated.py:94-151 | no contract of its own; Holdem.ApplyMembers states it |
| Holdem.ApplyMembers | poker_mcts_updated.py:94-151 | the collected moves are exactly the moves of the offers, unless one fails |
| Holdem.ApplyBeforeRiver | poker_mcts_updated.py:511-524 | before the river no move fails and each child is decided by the bet alone |
| Holdem.GatherBets | poker_mcts_updated.py:119-120 | moves that all succeed gather into the set of their children |
| Holdem.Placed | poker_mcts_updated.py:399-406 | no contract of its own; Holdem.PlacedSpec and Holdem.PlaceAll state it |
| Holdem.AllCombinations | poker_mcts_updated.py:354-408 | no contract of its own; Holdem.DealOne and Holdem.AllInDeal state it, both directions: each child deals undealt cards, and every undealt card (index 5, 6) or pair of undealt cards (index 1) is dealt by some child |
| Holdem.PlacedSpec | poker_mcts_updated.py:399-406 | a deck card not yet out placed in slot 5 or 6 opens a new round, keeps the dealt cards distinct, and the river also decides the winner |
| Holdem.PlaceAll | poker_mcts_updated.py:399-406 | placing every card not yet out fails for none, and every child is one such card placed |
| Holdem.PlaceCovers | poker_mcts_updated.py:399-406 | every card not yet out is placed in some child |
| Holdem.DealOne | poker_mcts_updated.py:354-408 | dealing the turn or river succeeds exactly when the cards out are distinct deck cards, with one child for each deck card not yet out and no other |
| Holdem.AllInDeal | poker_mcts_updated.py:387-397 | index 1 deals slots 5 and 6 together: every child is a new round with stacks and pot unchanged and seven distinct cards out, and every pair of cards not yet out is dealt by some child |
| Holdem.AllInCovers | poker_mcts_updated.py:387-397 | a given pair of distinct deck cards not yet out lands in slots 5 and 6, in some order, of some all-in child |
| Holdem.ChildrenInvariant | poker_mcts_updated.py:52-151 | every child keeps nine slots and every chip, and a finished child has a winner |
| Holdem.DealInvariant | poker_mcts_updated.py:354-408 | the same for every deal |
| Holdem.ApplyInvariant | poker_mcts_updated.py:94-151 | the same for every move of a betting round |
| Holdem.Children | poker_mcts_updated.py:52-151 | no contract of its own; Holdem.ChildrenInvariant, Holdem.BettingChildren, Holdem.FacingChildren, Holdem.OpenChildren, Holdem.AllInChildren, Holdem.RoundOverDeals and Holdem.ShowdownChild state it |
| Holdem.BettingChildren | poker_mcts_updated.py:90-151 | in a betting round the children are the moves of the offers |
| Holdem.FacingChildren | poker_mcts_updated.py:95-104 | facing a raise before the river, exactly two children: the fold, which ends the game for the other player, and the call of min(deficit, stack); stated before the river, betting after it is covered through Holdem.Offers, Holdem.ApplyMembers and Holdem.MakeMove |
| Holdem.FacingBets | poker_mcts_updated.py:95-104 | the call moves min(deficit, stack) into the pot; the fold ends the game for the other player |
| Holdem.PairOfChildren | poker_mcts_updated.py:99-104 | two offers give the set of their two children |
| Holdem.OpenMove | poker_mcts_updated.py:107-120 | the k-th open move is the check for k = 0 and an allowed raise of 5k otherwise |
| Holdem.OpenRaiseBounded | poker_mcts_updated.py:107-120 | every open raise is a positive multiple of 5 covered by both stacks |
| Holdem.OpenRaiseOffered | poker_mcts_updated.py:107-120 | every such raise is offered to a player who may raise |
| Holdem.OpenChildren | poker_mcts_updated.py:107-149 | not facing a raise before the river: the check, and a raise of exactly each allowed amount, none ending the game; stated before the river, betting after it is covered through Holdem.Offers, Holdem.ApplyMembers and Holdem.MakeMove |
| Holdem.AllInChildren | poker_mcts_updated.py:57-62 | with a player all in every child is all in again and in play, with the flop kept and the seven cards distinct |
| Holdem.RoundOverDeals | poker_mcts_updated.py:64-80 | a round ending before the river deals the next card |
| Holdem.ShowdownChild | poker_mcts_updated.py:82-88 | a round ending with the river out has one child: the same board, finished, with a winner |
| Holdem.ShortCall | poker_mcts_updated.py:98-101 | a board on which the machine faces a raise larger than its stack |
| Holdem.ShortCallCalls | poker_mcts_updated.py:98-104 | there the machine's call is its whole stack of 5 |
| Holdem.ShortCallStalls | poker_mcts_updated.py:94-151 | after that short call the opponent has no move at all, though the game is not over |
| HoldemSearch.DealPairs | poker_mcts_updated.py:391-395 | the loop adds exactly one new-round child per pair, cards in slots 5 and 6 |
| HoldemSearch.DealEach | poker_mcts_updated.py:399-406 | the loop computes the placement of each card, stopping at the first error |
| HoldemSearch.AssignAllCombinations | poker_mcts_updated.py:354-408 | the method computes `assign_cards_to_middle_all_combinations` as specified |
| HoldemSearch.FacingMoves | poker_mcts_updated.py:95-104 | the call and the fold, collected as specified |
| HoldemSearch.OpenMoves | poker_mcts_updated.py:107-120 | the check and the raise ladder, collected as specified |
| HoldemSearch.OpenResults | poker_mcts_updated.py:107-120 | the open offers are the check, then raises of 5, 10, ... up to the smaller stack |
| HoldemSearch.RaiseLadder | poker_mcts_updated.py:119-120 | the raise loop gathers exactly the raise results |
| HoldemSearch.BettingMoves | poker_mcts_updated.py:94-149 | the betting branch collects the moves of the offers |
| HoldemSearch.FindChildren | poker_mcts_updated.py:52-151 | the method computes `find_children` as specified, in either version |
| Estimation.DrainRemoves | poker_mcts_updated.py:318-328 | removing in place ends without error exactly when removing from a copy does, with the same list |
| Estimation.DeckList.constructor | poker_mcts_updated.py:310 | the list holds the given cards |
| Estimation.DeckList.Take | poker_mcts_updated.py:332 | `deck.remove(c)` succeeds exactly when `c` is there, and takes out its first copy |
| Estimation.DeckList.TakeAll | poker_mcts_updated.py:318-328 | removes the slots' cards in turn, stopping at the first error |
| Estimation.AssignCardsForEstimation | poker_mcts_updated.py:310-340 | the guessed hand and the caller's list afterwards are those of the specification |
| Estimation.FreshDeckDeal | poker_mcts_updated.py:310-340 | on a fresh deck the guess is two different deck cards not on the table, only slots 0 and 1 change, the first guessed card leaves the list and the second stays |
| Estimation.DealErrors | poker_mcts_updated.py:318-337 | a ValueError exactly when a slot is missing from the deck, an IndexError exactly when fewer than two cards are left |
| PokerFake.NewPokerBoard | poker_mcts_fake.py:713-714 | seven empty slots, 15 chips each, an empty pot, all flags false, the opponent to act |
| PokerFake.Reward | poker_mcts_fake.py:308-326 | an error exactly on a board in play; the pot when the machine won, minus it otherwise, as poker_mcts.py and opposite to the updated file |
| PokerFake.FindWinner | poker_mcts_fake.py:675-711 | a fold decides; no winner before the third community card; then a winner, or an error on an unreadable slot |
| PokerFake.ShowdownComparesFives | poker_mcts_fake.py:686-700 | the machine wins exactly when `tup[0..5]` scores at least `tup[2..7]` |
| PokerFake.OriginalRealIsFakeShowdown | poker_mcts.py:1060-1092 | the original real showdown decides as this file's `_find_winner` on the first seven slots |
| PokerFake.OriginalWinsFirstFive | poker_mcts.py:1071-1087 | the original loops score the same two five-card lists on every round |
| PokerFake.MakeMove | poker_mcts_fake.py:422-511 | the bet, then `_find_winner`: a fold decides, and every other move after the third community card ends the game; chips conserved, turn passed |
| PokerFake.MovesBeforeShowdown | poker_mcts_fake.py:500-511 | before the third community card no move fails and only a fold decides |
| PokerFake.MoveBeforeShowdown | poker_mcts_fake.py:500-511 | one such move is the bet alone |
| PokerFake.NameErrors | poker_mcts_fake.py:98-162 | a mover short of the deficit, or a round ending with all community cards out, reaches an undefined name |
| PokerFake.Children | poker_mcts_fake.py:52-182 | no contract of its own; PokerFake.ChildrenInvariant, PokerFake.BettingChildren, PokerFake.FacingChildren, PokerFake.OpenChildren, PokerFake.FlopDeal and PokerFake.NameErrors state it |
| PokerFake.Offers | poker_mcts_fake.py:114-182 | no contract of its own; PokerFake.FacingChildren, PokerFake.OpenOffer and PokerFake.NameErrors state the calls it lists |
| PokerFake.BettingChildren | poker_mcts_fake.py:114-182 | in a betting round before the showdown the children are the moves on offer |
| PokerFake.FacingChildren | poker_mcts_fake.py:119-129 | facing a raise it can cover, exactly two children: the call of the deficit and the fold |
| PokerFake.OpenOffer | poker_mcts_fake.py:132-148 | the k-th open offer is the check for k = 0, otherwise a menu raise of 5k |
| PokerFake.OpenMove | poker_mcts_fake.py:132-148 | the k-th open child: the check, or a menu raise of 5k |
| PokerFake.OpenRaiseBounded | poker_mcts_fake.py:132-148 | every open raise is one the menu allows |
| PokerFake.OpenRaiseOffered | poker_mcts_fake.py:132-148 | every raise the menu allows is offered |
| PokerFake.OpenChildren | poker_mcts_fake.py:132-180 | not facing a raise: the check and exactly the menu raises (5 above 0 chips, 10 above 5, 15 above 10), none ending the game |
| PokerFake.Menu | poker_mcts_fake.py:136-141 | no contract of its own; PokerFake.OpenRaiseBounded, PokerFake.OpenRaiseOffered and PokerFake.MenuOverdraws state it |
| PokerFake.MenuOverdraws | poker_mcts_fake.py:136-141 | a machine with 11 chips is offered a raise of 15, leaving a stack of -4 |
| PokerFake.RiverReadable | poker_mcts_fake.py:395-400 | any deck card as the third community card, the others distinct deck cards, makes a scorable showdown |
| PokerFake.Placed | poker_mcts_fake.py:395-402 | no contract of its own; PokerFake.PlacedSpec and PokerFake.PlaceAll state it |
| PokerFake.AllCombinations | poker_mcts_fake.py:348-404 | no contract of its own; PokerFake.DealOne and PokerFake.FlopDeal state it, both directions: each child deals undealt cards, and every undealt card (index 2 to 4) or triple of undealt cards (index 1) is dealt by some child |
| PokerFake.PlacedSpec | poker_mcts_fake.py:395-402 | a card not yet out placed in a community slot opens a new round; the third also decides the winner |
| PokerFake.PlaceAll | poker_mcts_fake.py:395-404 | placing every card not yet out fails for none, and every child is one such card placed |
| PokerFake.PlaceCovers | poker_mcts_fake.py:395-404 | every card not yet out is placed in some child |
| PokerFake.DealOne | poker_mcts_fake.py:348-404 | dealing a community card succeeds exactly when the cards out are distinct deck cards, one child for each card not yet out and no other |
| PokerFake.FlopDeal | poker_mcts_fake.py:383-393 | all in, the three community cards are dealt at once: every child is a new round with the hands kept and seven distinct cards, and every triple of cards not yet out is dealt by some child |
| PokerFake.FlopCovers | poker_mcts_fake.py:383-393 | a given triple of distinct deck cards not yet out lands in slots 2 to 4, in some order, of some all-in child |
| PokerFake.FlopDistinct | poker_mcts_fake.py:383-393 | three distinct cards from the rest of the deck extend the dealt cards without repetition |
| PokerFake.ChildrenInvariant | poker_mcts_fake.py:52-182 | every child keeps seven slots and every chip, and a finished child has a winner |
| PokerFakeSearch.DealFlops | poker_mcts_fake.py:386-391 | the loop adds exactly one new-round child per triple, cards in slots 2, 3, 4 |
| PokerFakeSearch.DealEach | poker_mcts_fake.py:395-402 | the loop computes the placement of each card, stopping at the first error |
| PokerFakeSearch.AssignAllCombinations | poker_mcts_fake.py:348-404 | the method computes `assign_cards_to_middle_all_combinations` as specified |

## Left out

- Console input and output, `play_game`, `get_opponents_real_cards`, `check_if_open_new_card` and `opponent_estimation`'s messages: interactive code, not game logic.
- Timeouts (`func_timeout`, `signal`, `timeout_decorator`): deadline plumbing outside the model.
- `find_random_child`, `assign_cards` and `assign_cards_to_middle` without a card: random dealing. The searcher takes the random child as a game operation with a draw that may fail; only the given-card path of `assign_cards_to_middle` is modelled.
- MonteCarloTreeSearch.MCTS.Simulate: a playout that never ends (a node on which `find_random_child` keeps raising) is cut off after `fuel` rounds and reported as nothing, where the source loops forever; the printed error message is not modelled.
- MonteCarloTreeSearch.MCTS.DoRollout: a rollout whose simulation is cut off returns with the leaf expanded and `Q`, `N` unchanged, and need not keep the searcher's consistency invariant; the source never returns from it.
- MonteCarloTreeSearch.MachineDecision: when a rollout is cut off it stops and reports `SimulationRunsOn` instead of hanging.
- Python's `int()` also accepts surrounding whitespace, a sign, underscores between digits and non-ASCII digits; `Cards.ParseDecimal` reads only ASCII digit strings, so such typed-in cards count as unreadable.
- The random opponent cards of the nine-slot `_find_winner` and the `random.choice` picks: given as draws, and every property holds for all of them.
- MonteCarloTreeSearch.MCTS.UctSelect: `log` and `sqrt` are floating point, so the bound is a function parameter `uct`; the model states only that the choice maximises it.
- Python float rounding of scores and of `Q/N`: scores and averages are exact reals, so `*1000` comparisons are plain comparisons.
- The iteration order of Python sets: it is the game's `enumerate` function, and `max` ties are stated as "some maximiser".
- Node hashing and equality: nodes are Dafny values with built-in equality.
- The termination of games: the searcher assumes a `height` that every recorded move and every successful random move lowers. The poker boards are not plugged into the searcher, since a finished showdown child of the nine-slot board can equal its parent.
- `handvalues` and the script at the end of cards_test.py, and the numpy internals of `combinations`: only its `itertools.combinations` meaning is modelled.
- `cards.CardScores` is not part of this model; cards_test.py stands in for it. Its `score_hand` returning a pair is modelled as returning the score.
- Exceptions: every error is an `Err` value carrying the Python exception's name; messages and tracebacks are not modelled.
- `is_terminal` is the `terminal` field, read directly.
- `copy.deepcopy` in `opponent_estimation`: boards are values.

## Findings

| source | as written | input that shows it | evidently intended | confidence | as-written member | corrected member |
|---|---|---|---|---|---|---|
| poker_mcts.py:1071-1087 | each round of `_find_winner_real` scores the whole `machine_hand` / `opp_hand` list instead of the row `c_h` / `c_o`, and `score_hand` reads only its first five cards | any full deal in which the opponent's real cards in slots 7-8 (say two aces) make its hand better: the answer is the same as with any other two cards there | the best five of `tup[0..7]` against the best five of `tup[2..9]`, as poker_mcts_updated.py does | not executed | Holdem.OriginalRealIgnoresOpponentCards | Holdem.RealShowdownIsBestOfSeven |
| poker_mcts.py:1009-1025 | each round of `_find_winner` scores the whole seven-card list, so only the first five cards of each side count | a river deal in which the machine's best five use the turn or the river card: those cards are never scored | the best five of each player's seven cards, as poker_mcts_updated.py does | not executed | Holdem.OriginalShowdownScoresFirstFive | Holdem.UpdatedShowdownIsBestOfSeven |
