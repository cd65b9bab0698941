/**
 * The five-card evaluator of cards_test.py: `score_hand` classifies the first five
 * cards of a hand and scores them with one closed formula per category; the
 * `check_*` helpers hold the formulas for the categories with repeated ranks.
 * Scores are exact reals.
 */
module Hands {
  import opened Wrappers
  import opened Lists
  import opened Cards

  /** What `score_hand` needs to run: five cards whose text after the suit is a number. */
  predicate Readable(hand: seq<Card>) {
    |hand| >= 5 && forall i :: 0 <= i < 5 ==> RankOf(hand[i]).Some?
  }

  /** Five cards of the deck (the hands the poker files score). */
  predicate DeckHand(hand: seq<Card>) {
    |hand| >= 5 && forall i :: 0 <= i < 5 ==> ValidCard(hand[i])
  }

  /** `letters = [hand[i][:1] for i in range(5)]` */
  function Letters(hand: seq<Card>): (r: seq<string>)
    requires |hand| >= 5
    ensures |r| == 5
  {
    seq(5, i requires 0 <= i < 5 => SuitOf(hand[i]))
  }

  /** `numbers = [int(hand[i][1:]) for i in range(5)]` */
  function Numbers(hand: seq<Card>): (r: seq<int>)
    requires Readable(hand)
    ensures |r| == 5
  {
    seq(5, i requires 0 <= i < 5 => RankOf(hand[i]).value)
  }

  /** `[s.count(i) for i in s]` (`rnum` and `rlet`). */
  function Repetitions<T(==)>(s: seq<T>): (r: seq<nat>)
    ensures |r| == |s|
    ensures forall i :: 0 <= i < |s| ==> r[i] == Count(s, s[i])
  {
    seq(|s|, i requires 0 <= i < |s| => Count(s, s[i]))
  }

  /** `sorted(rnum) == [2,2,3,3,3]`, compared as the equivalent multisets. */
  predicate FullHouseCounts(rnum: seq<nat>) {
    multiset(rnum) == multiset([2, 2, 3, 3, 3])
  }

  /** Five counts sort to `[2, 2, 3, 3, 3]` exactly when three are 3 and two are 2. */
  lemma FullHouseCountsIff(rnum: seq<nat>)
    requires |rnum| == 5
    ensures FullHouseCounts(rnum) <==> Count(rnum, 3) == 3 && Count(rnum, 2) == 2
  {
    var pattern: seq<nat> := [2, 2, 3, 3, 3];
    PatternCounts();
    CountMultiset(rnum, 3);
    CountMultiset(rnum, 2);
    if Count(rnum, 3) == 3 && Count(rnum, 2) == 2 {
      CountsFullHouse(rnum);
    }
  }

  lemma CountsFullHouse(rnum: seq<nat>)
    requires |rnum| == 5 && Count(rnum, 3) == 3 && Count(rnum, 2) == 2
    ensures FullHouseCounts(rnum)
  {
    var pattern: seq<nat> := [2, 2, 3, 3, 3];
    PatternCounts();
    forall v ensures multiset(rnum)[v] == multiset(pattern)[v] {
      CountMultiset(rnum, v);
      CountMultiset(pattern, v);
      if v != 2 && v != 3 {
        OtherCountsAbsent(rnum, v);
      }
    }
    assert multiset(rnum) == multiset(pattern);
  }

  lemma PatternCounts()
    ensures var pattern: seq<nat> := [2, 2, 3, 3, 3];
      && multiset(pattern)[3] == 3 && multiset(pattern)[2] == 2
      && forall v :: v != 2 && v != 3 ==> Count(pattern, v) == 0
  {
    var pattern: seq<nat> := [2, 2, 3, 3, 3];
    CountFiveAt(pattern, 3);
    CountFiveAt(pattern, 2);
    CountMultiset(pattern, 3);
    CountMultiset(pattern, 2);
    forall v | v != 2 && v != 3 ensures Count(pattern, v) == 0 {
      CountAbsent(pattern, v);
    }
  }

  /** Five counts of which three are 3 and two are 2 hold no other value. */
  lemma OtherCountsAbsent(rnum: seq<nat>, v: nat)
    requires |rnum| == 5 && Count(rnum, 3) == 3 && Count(rnum, 2) == 2 && v != 2 && v != 3
    ensures Count(rnum, v) == 0
  {
    CountFiveAt(rnum, 3);
    CountFiveAt(rnum, 2);
    CountFiveAt(rnum, v);
  }

  /** The last element of `ns` (in loop order) whose count in `all` is `c`. */
  function LastWithCount(ns: seq<int>, all: seq<int>, c: nat): (r: Option<int>)
    ensures r.Some? <==> exists i :: 0 <= i < |ns| && Count(all, ns[i]) == c
    ensures r.Some? ==> r.value in ns && Count(all, r.value) == c
  {
    if ns == [] then None
    else match LastWithCount(ns[1..], all, c)
      case Some(v) => Some(v)
      case None =>
        if Count(all, ns[0]) == c then Some(ns[0])
        else
          assert forall i :: 1 <= i < |ns| ==> ns[i] == ns[1..][i - 1];
          None
  }

  /** The elements of `ns` (in order) whose count in `all` is (`keep`) or is not (`!keep`) `c`. */
  function FilterCount(ns: seq<int>, all: seq<int>, c: nat, keep: bool): (r: seq<int>)
    ensures |r| <= |ns|
  {
    if ns == [] then []
    else
      var rest := FilterCount(ns[1..], all, c, keep);
      if (Count(all, ns[0]) == c) == keep then [ns[0]] + rest else rest
  }

  /** A filter keeps every copy of the values it keeps and nothing else. */
  lemma {:induction false} FilterMultiset(ns: seq<int>, all: seq<int>, c: nat, keep: bool)
    ensures forall x :: (multiset(FilterCount(ns, all, c, keep))[x] ==
      if (Count(all, x) == c) == keep then multiset(ns)[x] else 0)
  {
    if ns != [] {
      FilterMultiset(ns[1..], all, c, keep);
      assert ns == [ns[0]] + ns[1..];
    }
  }

  lemma {:induction false} FilterSubset(ns: seq<int>, all: seq<int>, c: nat, keep: bool)
    ensures forall x :: x in FilterCount(ns, all, c, keep) ==> x in ns
  {
    if ns != [] {
      FilterSubset(ns[1..], all, c, keep);
      assert forall x :: x in ns[1..] ==> x in ns;
    }
  }

  lemma FilterMember(ns: seq<int>, all: seq<int>, c: nat, keep: bool, x: int)
    requires x in multiset(FilterCount(ns, all, c, keep))
    ensures x in ns
  {
    FilterSubset(ns, all, c, keep);
    assert x in FilterCount(ns, all, c, keep);
  }

  /** How many of exactly five numbers a filter keeps, written out. */
  lemma FilterLengthFive(ns: seq<int>, all: seq<int>, c: nat, keep: bool)
    requires |ns| == 5
    ensures |FilterCount(ns, all, c, keep)| ==
      Ind((Count(all, ns[0]) == c) == keep) + Ind((Count(all, ns[1]) == c) == keep)
      + Ind((Count(all, ns[2]) == c) == keep) + Ind((Count(all, ns[3]) == c) == keep)
      + Ind((Count(all, ns[4]) == c) == keep)
  {
    var t1, t2, t3, t4 := ns[1..], ns[2..], ns[3..], ns[4..];
    assert t1[1..] == t2 && t2[1..] == t3 && t3[1..] == t4 && t4[1..] == [];
    assert t1[0] == ns[1] && t2[0] == ns[2] && t3[0] == ns[3] && t4[0] == ns[4];
    assert |FilterCount(t4, all, c, keep)| == Ind((Count(all, ns[4]) == c) == keep);
    assert |FilterCount(t3, all, c, keep)| == Ind((Count(all, ns[3]) == c) == keep) + |FilterCount(t4, all, c, keep)|;
    assert |FilterCount(t2, all, c, keep)| == Ind((Count(all, ns[2]) == c) == keep) + |FilterCount(t3, all, c, keep)|;
    assert |FilterCount(t1, all, c, keep)| == Ind((Count(all, ns[1]) == c) == keep) + |FilterCount(t2, all, c, keep)|;
  }

  /** Counting over exactly five cards, written out. */
  lemma CountFiveAt<T>(s: seq<T>, v: T)
    requires |s| == 5
    ensures Count(s, v) == Ind(s[0] == v) + Ind(s[1] == v) + Ind(s[2] == v) + Ind(s[3] == v) + Ind(s[4] == v)
  {
    calc {
      Count(s, v);
      Ind(s[0] == v) + Count(s[1..], v);
      { assert s[1..][0] == s[1] && s[1..][1..] == s[2..]; }
      Ind(s[0] == v) + Ind(s[1] == v) + Count(s[2..], v);
      { assert s[2..][0] == s[2] && s[2..][1..] == s[3..]; }
      Ind(s[0] == v) + Ind(s[1] == v) + Ind(s[2] == v) + Count(s[3..], v);
      { assert s[3..][0] == s[3] && s[3..][1..] == s[4..]; }
      Ind(s[0] == v) + Ind(s[1] == v) + Ind(s[2] == v) + Ind(s[3] == v) + Count(s[4..], v);
      { assert s[4..][0] == s[4] && s[4..][1..] == []; }
      Ind(s[0] == v) + Ind(s[1] == v) + Ind(s[2] == v) + Ind(s[3] == v) + Ind(s[4] == v);
    }
  }

  lemma CountFive<T>(s: seq<T>)
    requires |s| == 5
    ensures forall v :: Count(s, v) == Ind(s[0] == v) + Ind(s[1] == v) + Ind(s[2] == v) + Ind(s[3] == v) + Ind(s[4] == v)
  {
    forall v ensures Count(s, v) == Ind(s[0] == v) + Ind(s[1] == v) + Ind(s[2] == v) + Ind(s[3] == v) + Ind(s[4] == v) {
      CountFiveAt(s, v);
    }
  }

  function Ind(b: bool): nat { if b then 1 else 0 }

  /** `check_four_of_a_kind`: the value seen four times plus the odd card in hundredths. */
  function CheckFourOfAKind(ns: seq<int>): real
    requires LastWithCount(ns, ns, 4).Some? && LastWithCount(ns, ns, 1).Some?
  {
    105.0 + LastWithCount(ns, ns, 4).value as real + LastWithCount(ns, ns, 1).value as real / 100.0
  }

  /** `check_full_house`: the triple's value plus the pair's value in hundredths. */
  function CheckFullHouse(ns: seq<int>): real
    requires LastWithCount(ns, ns, 3).Some? && LastWithCount(ns, ns, 2).Some?
  {
    90.0 + LastWithCount(ns, ns, 3).value as real + LastWithCount(ns, ns, 2).value as real / 100.0
  }

  /** `check_three_of_a_kind`: the triple, the higher other card, the lower one in thousandths. */
  function CheckThreeOfAKind(ns: seq<int>): real
    requires LastWithCount(ns, ns, 3).Some? && |FilterCount(ns, ns, 3, false)| > 0
  {
    var cards := FilterCount(ns, ns, 3, false);
    45.0 + LastWithCount(ns, ns, 3).value as real + Max(cards) as real + Min(cards) as real / 1000.0
  }

  /**
   * `check_two_pair`: the higher pair, the lower pair in hundredths, the odd card in
   * thousandths. The source re-sorts `cards` after every append; sorting once at the
   * end gives the same list.
   */
  function CheckTwoPair(ns: seq<int>): real
    requires |FilterCount(ns, ns, 2, true)| > 0 && |FilterCount(ns, ns, 1, true)| > 0
  {
    var pairs := FilterCount(ns, ns, 2, true);
    var cards := SortDesc(FilterCount(ns, ns, 1, true), IntGe);
    assert |cards| == |multiset(cards)|;
    30.0 + Max(pairs) as real + Min(pairs) as real / 100.0 + cards[0] as real / 1000.0
  }

  /** `check_pair`: the first paired value, then the three single cards from high to low. */
  function CheckPair(ns: seq<int>): real
    requires |FilterCount(ns, ns, 2, true)| > 0 && |FilterCount(ns, ns, 1, true)| >= 3
  {
    var pair := FilterCount(ns, ns, 2, true);
    var cards := SortDesc(FilterCount(ns, ns, 1, true), IntGe);
    assert |cards| == |multiset(cards)|;
    15.0 + pair[0] as real + cards[0] as real / 100.0 + cards[1] as real / 1000.0
      + cards[2] as real / 10000.0
  }

  /** The categories `score_hand` tells apart, best first. */
  datatype Category =
    | RoyalFlush | StraightFlush | FourOfAKind | FullHouse | Flush
    | Straight | ThreeOfAKind | TwoPair | Pair | HighCard

  /**
   * The tests on repeated ranks, which `score_hand` makes in the same order in its
   * same-suit branch and in its other branch.
   */
  function Repeated(rnum: seq<nat>): Option<Category> {
    if 4 in rnum then Some(FourOfAKind)
    else if FullHouseCounts(rnum) then Some(FullHouse)
    else if 3 in rnum then Some(ThreeOfAKind)
    else if Count(rnum, 2) == 4 then Some(TwoPair)
    else if Count(rnum, 2) == 2 then Some(Pair)
    else None
  }

  /** `5 in rlet`: all five suits are the same. */
  predicate Suited(hand: seq<Card>)
    requires |hand| >= 5
  {
    5 in Repetitions(Letters(hand))
  }

  /** The branch of `score_hand` five ranks take, tested in the source's order. */
  function Category5(suited: bool, ns: seq<int>): Category
    requires |ns| == 5
  {
    var rnum := Repetitions(ns);
    var dif := Max(ns) - Min(ns);
    if suited then
      if ns == [14, 13, 12, 11, 10] then RoyalFlush
      else if dif == 4 && Max(rnum) == 1 then StraightFlush
      else Repeated(rnum).GetOr(Flush)
    else Repeated(rnum).GetOr(if dif == 4 then Straight else HighCard)
  }

  /** The category `score_hand` gives a hand. */
  function Classify(hand: seq<Card>): Category
    requires Readable(hand)
  {
    Category5(Suited(hand), Numbers(hand))
  }

  /** The repetition counts of five numbers, written out. */
  lemma RepetitionsFive(ns: seq<int>)
    requires |ns| == 5
    ensures forall i :: 0 <= i < 5 ==> (Count(ns, ns[i]) ==
      Ind(ns[0] == ns[i]) + Ind(ns[1] == ns[i]) + Ind(ns[2] == ns[i]) + Ind(ns[3] == ns[i]) + Ind(ns[4] == ns[i]))
    ensures forall v :: (Count(Repetitions(ns), v) ==
      Ind(Count(ns, ns[0]) == v) + Ind(Count(ns, ns[1]) == v) + Ind(Count(ns, ns[2]) == v)
      + Ind(Count(ns, ns[3]) == v) + Ind(Count(ns, ns[4]) == v))
    ensures forall v :: v in Repetitions(ns) <==> Count(Repetitions(ns), v) > 0
  {
    CountFive(ns);
    RepetitionsCounted(ns);
    RepetitionsMembers(ns);
  }

  lemma RepetitionsCounted(ns: seq<int>)
    requires |ns| == 5
    ensures forall v :: (Count(Repetitions(ns), v) ==
      Ind(Count(ns, ns[0]) == v) + Ind(Count(ns, ns[1]) == v) + Ind(Count(ns, ns[2]) == v)
      + Ind(Count(ns, ns[3]) == v) + Ind(Count(ns, ns[4]) == v))
  {
    var rnum := Repetitions(ns);
    assert rnum[0] == Count(ns, ns[0]) && rnum[1] == Count(ns, ns[1]) && rnum[2] == Count(ns, ns[2]);
    assert rnum[3] == Count(ns, ns[3]) && rnum[4] == Count(ns, ns[4]);
    CountFive(rnum);
  }

  lemma RepetitionsMembers(ns: seq<int>)
    ensures forall v :: v in Repetitions(ns) <==> Count(Repetitions(ns), v) > 0
  {
    var rnum := Repetitions(ns);
    CountsMultiset(rnum);
  }

  lemma FourShape(ns: seq<int>)
    requires |ns| == 5 && 4 in Repetitions(ns)
    ensures LastWithCount(ns, ns, 4).Some? && LastWithCount(ns, ns, 1).Some?
  {
    RepetitionsFive(ns);
    var k :| 0 <= k < 5 && Count(ns, ns[k]) == 1;
  }

  lemma FullHouseShape(ns: seq<int>)
    requires |ns| == 5 && FullHouseCounts(Repetitions(ns))
    ensures LastWithCount(ns, ns, 3).Some? && LastWithCount(ns, ns, 2).Some?
  {
    var rnum := Repetitions(ns);
    CountedValueOccurs(rnum, [2, 2, 3, 3, 3], 3, 2);
    CountedValueOccurs(rnum, [2, 2, 3, 3, 3], 2, 0);
    var i :| 0 <= i < |rnum| && rnum[i] == 3;
    var j :| 0 <= j < |rnum| && rnum[j] == 2;
    assert Count(ns, ns[i]) == 3 && Count(ns, ns[j]) == 2;
  }

  lemma CountedValueOccurs(s: seq<nat>, t: seq<nat>, v: nat, k: nat)
    requires multiset(s) == multiset(t) && k < |t| && t[k] == v
    ensures v in s
  {
    assert v in multiset(t);
  }

  lemma ThreeShape(ns: seq<int>)
    requires |ns| == 5 && 3 in Repetitions(ns)
    ensures LastWithCount(ns, ns, 3).Some? && |FilterCount(ns, ns, 3, false)| > 0
  {
    RepetitionsFive(ns);
    FilterLengthFive(ns, ns, 3, false);
  }

  lemma TwoPairShape(ns: seq<int>)
    requires |ns| == 5 && Count(Repetitions(ns), 2) == 4
    ensures |FilterCount(ns, ns, 2, true)| > 0 && |FilterCount(ns, ns, 1, true)| > 0
  {
    RepetitionsFive(ns);
    FilterLengthFive(ns, ns, 2, true);
    FilterLengthFive(ns, ns, 1, true);
  }

  lemma PairShape(ns: seq<int>)
    requires |ns| == 5 && Count(Repetitions(ns), 2) == 2
    requires 3 !in Repetitions(ns) && 4 !in Repetitions(ns)
    ensures |FilterCount(ns, ns, 2, true)| > 0 && |FilterCount(ns, ns, 1, true)| >= 3
  {
    RepetitionsFive(ns);
    FilterLengthFive(ns, ns, 2, true);
    FilterLengthFive(ns, ns, 1, true);
  }

  /** Each category with repeated ranks meets its helper's precondition. */
  lemma RepeatedShape(ns: seq<int>)
    requires |ns| == 5
    ensures match Repeated(Repetitions(ns))
      case Some(FourOfAKind) => LastWithCount(ns, ns, 4).Some? && LastWithCount(ns, ns, 1).Some?
      case Some(FullHouse) => LastWithCount(ns, ns, 3).Some? && LastWithCount(ns, ns, 2).Some?
      case Some(ThreeOfAKind) => LastWithCount(ns, ns, 3).Some? && |FilterCount(ns, ns, 3, false)| > 0
      case Some(TwoPair) => |FilterCount(ns, ns, 2, true)| > 0 && |FilterCount(ns, ns, 1, true)| > 0
      case Some(Pair) => |FilterCount(ns, ns, 2, true)| > 0 && |FilterCount(ns, ns, 1, true)| >= 3
      case _ => true
  {
    match Repeated(Repetitions(ns))
    case Some(FourOfAKind) => FourShape(ns);
    case Some(FullHouse) => FullHouseShape(ns);
    case Some(ThreeOfAKind) => ThreeShape(ns);
    case Some(TwoPair) => TwoPairShape(ns);
    case Some(Pair) => PairShape(ns);
    case _ =>
  }

  /** A category with repeated ranks is the one the repetition tests found. */
  lemma ClassifiedRepeated(suited: bool, ns: seq<int>)
    requires |ns| == 5
    requires Category5(suited, ns) in {FourOfAKind, FullHouse, ThreeOfAKind, TwoPair, Pair}
    ensures Repeated(Repetitions(ns)) == Some(Category5(suited, ns))
  {
  }

  /** The score of five ranks, given whether their suits are all the same. */
  function Score5(suited: bool, ns: seq<int>): real
    requires |ns| == 5
  {
    match Category5(suited, ns)
    case RoyalFlush => 135.0
    case StraightFlush => 120.0 + Max(ns) as real
    case FourOfAKind => ClassifiedRepeated(suited, ns); RepeatedShape(ns); CheckFourOfAKind(ns)
    case FullHouse => ClassifiedRepeated(suited, ns); RepeatedShape(ns); CheckFullHouse(ns)
    case ThreeOfAKind => ClassifiedRepeated(suited, ns); RepeatedShape(ns); CheckThreeOfAKind(ns)
    case TwoPair => ClassifiedRepeated(suited, ns); RepeatedShape(ns); CheckTwoPair(ns)
    case Pair => ClassifiedRepeated(suited, ns); RepeatedShape(ns); CheckPair(ns)
    case Flush => 75.0 + Max(ns) as real / 100.0
    case Straight => 65.0 + Max(ns) as real
    case HighCard =>
      var n := SortDesc(ns, IntGe);
      assert |n| == |multiset(n)| == |multiset(ns)| == 5;
      n[0] as real + n[1] as real / 100.0 + n[2] as real / 1000.0 + n[3] as real / 10000.0
        + n[4] as real / 100000.0
  }

  /** `score_hand`: the score of the first five cards of `hand`. */
  function ScoreHand(hand: seq<Card>): real
    requires Readable(hand)
  {
    Score5(Suited(hand), Numbers(hand))
  }

  // Proof helpers: each category's score is its `check_*` function or literal
  // formula, kept apart so that a proof about one category does not unfold the
  // others. What a score means for a hand of given ranks is stated by the
  // `...Score` lemmas below.

  lemma FourFormula(suited: bool, ns: seq<int>)
    requires |ns| == 5 && Category5(suited, ns) == FourOfAKind
    ensures LastWithCount(ns, ns, 4).Some? && LastWithCount(ns, ns, 1).Some?
    ensures Score5(suited, ns) == CheckFourOfAKind(ns)
  {
    ClassifiedRepeated(suited, ns);
    RepeatedShape(ns);
  }

  lemma FullHouseFormula(suited: bool, ns: seq<int>)
    requires |ns| == 5 && Category5(suited, ns) == FullHouse
    ensures LastWithCount(ns, ns, 3).Some? && LastWithCount(ns, ns, 2).Some?
    ensures Score5(suited, ns) == CheckFullHouse(ns)
  {
    ClassifiedRepeated(suited, ns);
    RepeatedShape(ns);
  }

  lemma TwoPairFormula(suited: bool, ns: seq<int>)
    requires |ns| == 5 && Category5(suited, ns) == TwoPair
    ensures |FilterCount(ns, ns, 2, true)| > 0 && |FilterCount(ns, ns, 1, true)| > 0
    ensures Score5(suited, ns) == CheckTwoPair(ns)
  {
    ClassifiedRepeated(suited, ns);
    RepeatedShape(ns);
  }

  lemma PairFormula(suited: bool, ns: seq<int>)
    requires |ns| == 5 && Category5(suited, ns) == Pair
    ensures |FilterCount(ns, ns, 2, true)| > 0 && |FilterCount(ns, ns, 1, true)| >= 3
    ensures Score5(suited, ns) == CheckPair(ns)
  {
    ClassifiedRepeated(suited, ns);
    RepeatedShape(ns);
  }

  lemma RunFormula(suited: bool, ns: seq<int>)
    requires |ns| == 5
    ensures Category5(suited, ns) == RoyalFlush ==> Score5(suited, ns) == 135.0
    ensures Category5(suited, ns) == StraightFlush ==> Score5(suited, ns) == 120.0 + Max(ns) as real
    ensures Category5(suited, ns) == Flush ==> Score5(suited, ns) == 75.0 + Max(ns) as real / 100.0
    ensures Category5(suited, ns) == Straight ==> Score5(suited, ns) == 65.0 + Max(ns) as real
  {
  }

  lemma HighCardFormula(suited: bool, ns: seq<int>)
    requires |ns| == 5 && Category5(suited, ns) == HighCard
    ensures var n := SortDesc(ns, IntGe);
      && |n| == 5
      && Score5(suited, ns) == n[0] as real + n[1] as real / 100.0 + n[2] as real / 1000.0
           + n[3] as real / 10000.0 + n[4] as real / 100000.0
  {
  }

  /** The ranks of the one hand the source scores as a royal flush repeat nothing. */
  lemma RoyalRanksRepetitions()
    ensures Repetitions([14, 13, 12, 11, 10]) == [1, 1, 1, 1, 1]
  {
    var ns := [14, 13, 12, 11, 10];
    CountFive(ns);
    assert Count(ns, 14) == 1 && Count(ns, 13) == 1 && Count(ns, 12) == 1;
    assert Count(ns, 11) == 1 && Count(ns, 10) == 1;
  }

  /** Four cards of rank `q` and one of rank `k` score 105 + q + k/100. */
  lemma FourOfAKindScore(suited: bool, ns: seq<int>, q: int, k: int)
    requires |ns| == 5 && q != k
    requires multiset(ns) == multiset([q, q, q, q, k])
    ensures Category5(suited, ns) == FourOfAKind
    ensures Score5(suited, ns) == 105.0 + q as real + k as real / 100.0
  {
    CountsMultiset(ns);
    FourClassified(suited, ns, q);
    FourFormula(suited, ns);
    var four := LastWithCount(ns, ns, 4).value;
    var card := LastWithCount(ns, ns, 1).value;
    assert Count(ns, four) == 4 && Count(ns, card) == 1;
  }

  lemma FourClassified(suited: bool, ns: seq<int>, q: int)
    requires |ns| == 5 && Count(ns, q) == 4
    ensures Category5(suited, ns) == FourOfAKind
  {
    var rnum := Repetitions(ns);
    CountMultiset(ns, q);
    assert q in multiset(ns);
    var i :| 0 <= i < 5 && ns[i] == q;
    assert rnum[i] == 4;
    assert 4 in rnum;
    RepeatedCategory(suited, ns, q);
  }

  /** Lists with the same elements count every value alike. */
  lemma SameCounts(ns: seq<int>, ranks: seq<int>, v: int)
    requires multiset(ns) == multiset(ranks)
    ensures Count(ns, v) == Count(ranks, v)
  {
    CountMultiset(ns, v);
    CountMultiset(ranks, v);
  }

  lemma CountedMember(ns: seq<int>, v: int)
    requires Count(ns, v) > 0
    ensures v in ns
  {
    CountMultiset(ns, v);
  }

  lemma CountedFound(ns: seq<int>, c: nat, v: int)
    requires Count(ns, v) == c && v in ns
    ensures LastWithCount(ns, ns, c).Some?
  {
    var k :| 0 <= k < |ns| && ns[k] == v;
  }

  /** Three cards of rank `t` and two of rank `p` score 90 + t + p/100. */
  lemma FullHouseScore(suited: bool, ns: seq<int>, t: int, p: int)
    requires |ns| == 5 && t != p
    requires multiset(ns) == multiset([t, t, t, p, p])
    ensures Category5(suited, ns) == FullHouse
    ensures Score5(suited, ns) == 90.0 + t as real + p as real / 100.0
  {
    FullHouseCounts5(ns, t, p);
    FullHouseClassified(suited, ns, t, p);
    FullHouseFormula(suited, ns);
    FullHouseValues(ns, t, p);
  }

  lemma FullHouseValues(ns: seq<int>, t: int, p: int)
    requires |ns| == 5 && t != p
    requires multiset(ns) == multiset([t, t, t, p, p])
    requires Count(ns, t) == 3 && Count(ns, p) == 2 && t in ns && p in ns
    ensures LastWithCount(ns, ns, 3) == Some(t) && LastWithCount(ns, ns, 2) == Some(p)
  {
    var ranks := [t, t, t, p, p];
    CountedFound(ns, 3, t);
    CountedFound(ns, 2, p);
    var full := LastWithCount(ns, ns, 3).value;
    var pair := LastWithCount(ns, ns, 2).value;
    SameCounts(ns, ranks, full);
    CountFiveAt(ranks, full);
    SameCounts(ns, ranks, pair);
    CountFiveAt(ranks, pair);
  }

  lemma FullHouseCounts5(ns: seq<int>, t: int, p: int)
    requires |ns| == 5 && t != p
    requires multiset(ns) == multiset([t, t, t, p, p])
    ensures Count(ns, t) == 3 && Count(ns, p) == 2 && t in ns && p in ns
    ensures forall i :: 0 <= i < 5 ==> Repetitions(ns)[i] == if ns[i] == t then 3 else 2
  {
    var ranks := [t, t, t, p, p];
    SameCounts(ns, ranks, t);
    CountFiveAt(ranks, t);
    SameCounts(ns, ranks, p);
    CountFiveAt(ranks, p);
    CountedMember(ns, t);
    CountedMember(ns, p);
    forall i | 0 <= i < 5 ensures Repetitions(ns)[i] == if ns[i] == t then 3 else 2 {
      assert ns[i] in multiset(ranks);
    }
  }

  lemma FullHouseClassified(suited: bool, ns: seq<int>, t: int, p: int)
    requires |ns| == 5 && t != p && Count(ns, t) == 3 && t in ns
    requires forall i :: 0 <= i < 5 ==> Repetitions(ns)[i] == if ns[i] == t then 3 else 2
    ensures Category5(suited, ns) == FullHouse
  {
    var rnum := Repetitions(ns);
    CountFiveAt(ns, t);
    CountFiveAt(rnum, 3);
    CountFiveAt(rnum, 2);
    CountFiveAt(rnum, 4);
    FullHouseCountsIff(rnum);
    CountMultiset(rnum, 4);
    RepeatedCategory(suited, ns, t);
  }

  /** When the ranks repeat, the flush tests before the repetition tests do not apply. */
  lemma RepeatedCategory(suited: bool, ns: seq<int>, v: int)
    requires |ns| == 5 && Count(ns, v) >= 2 && v in ns && Repeated(Repetitions(ns)).Some?
    ensures Category5(suited, ns) == Repeated(Repetitions(ns)).value
  {
    NotRoyalRanks(ns, v);
    var k :| 0 <= k < 5 && ns[k] == v;
    assert Repetitions(ns)[k] >= 2;
  }

  /** Ranks with a repeated value are not the royal flush ranks. */
  lemma NotRoyalRanks(ns: seq<int>, v: int)
    requires Count(ns, v) >= 2
    ensures ns != [14, 13, 12, 11, 10]
  {
    if ns == [14, 13, 12, 11, 10] {
      CountFiveAt(ns, v);
    }
  }

  /** Three cards of rank `t` and single cards `a > b` score 45 + t + a + b/1000. */
  lemma ThreeOfAKindScore(suited: bool, ns: seq<int>, t: int, a: int, b: int)
    requires |ns| == 5 && t != a && t != b && a > b
    requires multiset(ns) == multiset([t, t, t, a, b])
    ensures Category5(suited, ns) == ThreeOfAKind
    ensures Score5(suited, ns) == 45.0 + t as real + a as real + b as real / 1000.0
  {
    ThreeCategory(suited, ns, t, a, b);
    ThreeFormula(suited, ns);
    ThreeValues(ns, t, a, b);
  }

  /** A three of a kind is scored by `check_three_of_a_kind`. */
  lemma ThreeFormula(suited: bool, ns: seq<int>)
    requires |ns| == 5 && Category5(suited, ns) == ThreeOfAKind
    ensures LastWithCount(ns, ns, 3).Some? && |FilterCount(ns, ns, 3, false)| > 0
    ensures Score5(suited, ns) == CheckThreeOfAKind(ns)
  {
    ClassifiedRepeated(suited, ns);
    RepeatedShape(ns);
  }

  lemma ThreeCategory(suited: bool, ns: seq<int>, t: int, a: int, b: int)
    requires |ns| == 5 && t != a && t != b && a > b
    requires multiset(ns) == multiset([t, t, t, a, b])
    ensures Category5(suited, ns) == ThreeOfAKind && Count(ns, t) == 3 && t in ns
  {
    ThreeCounts5(ns, t, a, b);
    ThreeClassified(suited, ns, t);
  }

  lemma ThreeValues(ns: seq<int>, t: int, a: int, b: int)
    requires |ns| == 5 && t != a && t != b && a > b
    requires multiset(ns) == multiset([t, t, t, a, b])
    requires Count(ns, t) == 3 && t in ns
    ensures LastWithCount(ns, ns, 3) == Some(t)
    ensures var cards := FilterCount(ns, ns, 3, false); |cards| > 0 && Max(cards) == a && Min(cards) == b
  {
    var ranks := [t, t, t, a, b];
    CountedFound(ns, 3, t);
    var three := LastWithCount(ns, ns, 3).value;
    SameCounts(ns, ranks, three);
    CountFiveAt(ranks, three);
    var cards := FilterCount(ns, ns, 3, false);
    ThreeKickers(ns, t, a, b);
    assert a in multiset(cards) && b in multiset(cards);
    assert Max(cards) in multiset(cards) && Min(cards) in multiset(cards);
  }

  lemma ThreeKickers(ns: seq<int>, t: int, a: int, b: int)
    requires |ns| == 5 && t != a && t != b && a != b
    requires multiset(ns) == multiset([t, t, t, a, b])
    ensures multiset(FilterCount(ns, ns, 3, false)) == multiset([a, b])
  {
    FilterMultiset(ns, ns, 3, false);
    ThreeMultiplicities(t, a, b);
    assert multiset([a, b]) == multiset{a} + multiset{b};
    forall x ensures multiset(FilterCount(ns, ns, 3, false))[x] == multiset([a, b])[x] {
      CountMultiset(ns, x);
    }
  }

  lemma ThreeMultiplicities(t: int, a: int, b: int)
    requires t != a && t != b && a != b
    ensures forall x :: multiset([t, t, t, a, b])[x] == if x == t then 3 else if x == a || x == b then 1 else 0
  {
    assert multiset([t, t, t, a, b]) == multiset{t, t, t} + multiset{a} + multiset{b};
  }

  lemma ThreeCounts5(ns: seq<int>, t: int, a: int, b: int)
    requires |ns| == 5 && t != a && t != b && a != b
    requires multiset(ns) == multiset([t, t, t, a, b])
    ensures Count(ns, t) == 3 && t in ns
    ensures forall i :: 0 <= i < 5 ==> Repetitions(ns)[i] == if ns[i] == t then 3 else 1
  {
    var ranks := [t, t, t, a, b];
    SameCounts(ns, ranks, t);
    CountFiveAt(ranks, t);
    SameCounts(ns, ranks, a);
    CountFiveAt(ranks, a);
    SameCounts(ns, ranks, b);
    CountFiveAt(ranks, b);
    CountedMember(ns, t);
    forall i | 0 <= i < 5 ensures Repetitions(ns)[i] == if ns[i] == t then 3 else 1 {
      assert ns[i] in multiset(ranks);
    }
  }

  lemma ThreeClassified(suited: bool, ns: seq<int>, t: int)
    requires |ns| == 5 && Count(ns, t) == 3 && t in ns
    requires forall i :: 0 <= i < 5 ==> Repetitions(ns)[i] == if ns[i] == t then 3 else 1
    ensures Category5(suited, ns) == ThreeOfAKind
  {
    var rnum := Repetitions(ns);
    var k :| 0 <= k < 5 && ns[k] == t;
    assert rnum[k] == 3;
    CountFiveAt(rnum, 2);
    CountFiveAt(rnum, 4);
    FullHouseCountsIff(rnum);
    CountMultiset(rnum, 4);
    RepeatedCategory(suited, ns, t);
  }

  /** Pairs of ranks `p > q` and a single card `k` score 30 + p + q/100 + k/1000. */
  lemma TwoPairScore(suited: bool, ns: seq<int>, p: int, q: int, k: int)
    requires |ns| == 5 && p > q && k != p && k != q
    requires multiset(ns) == multiset([p, p, q, q, k])
    ensures Category5(suited, ns) == TwoPair
    ensures Score5(suited, ns) == 30.0 + p as real + q as real / 100.0 + k as real / 1000.0
  {
    TwoPairCategory(suited, ns, p, q, k);
    TwoPairFormula(suited, ns);
    TwoPairValues(ns, p, q, k);
  }

  lemma TwoPairCategory(suited: bool, ns: seq<int>, p: int, q: int, k: int)
    requires |ns| == 5 && p > q && k != p && k != q
    requires multiset(ns) == multiset([p, p, q, q, k])
    ensures Category5(suited, ns) == TwoPair
  {
    TwoPairCounts5(ns, p, q, k);
    TwoPairClassified(suited, ns, p, k);
  }

  lemma TwoPairCounts5(ns: seq<int>, p: int, q: int, k: int)
    requires |ns| == 5 && p != q && k != p && k != q
    requires multiset(ns) == multiset([p, p, q, q, k])
    ensures Count(ns, p) == 2 && Count(ns, k) == 1 && p in ns
    ensures forall i :: 0 <= i < 5 ==> Repetitions(ns)[i] == if ns[i] == k then 1 else 2
  {
    var ranks := [p, p, q, q, k];
    SameCounts(ns, ranks, p);
    CountFiveAt(ranks, p);
    SameCounts(ns, ranks, q);
    CountFiveAt(ranks, q);
    SameCounts(ns, ranks, k);
    CountFiveAt(ranks, k);
    CountedMember(ns, p);
    forall i | 0 <= i < 5 ensures Repetitions(ns)[i] == if ns[i] == k then 1 else 2 {
      assert ns[i] in multiset(ranks);
    }
  }

  lemma TwoPairClassified(suited: bool, ns: seq<int>, p: int, k: int)
    requires |ns| == 5 && Count(ns, p) == 2 && Count(ns, k) == 1 && p in ns
    requires forall i :: 0 <= i < 5 ==> Repetitions(ns)[i] == if ns[i] == k then 1 else 2
    ensures Category5(suited, ns) == TwoPair
  {
    var rnum := Repetitions(ns);
    CountFiveAt(ns, k);
    CountFiveAt(rnum, 2);
    CountFiveAt(rnum, 3);
    CountFiveAt(rnum, 4);
    FullHouseCountsIff(rnum);
    CountMultiset(rnum, 3);
    CountMultiset(rnum, 4);
    RepeatedCategory(suited, ns, p);
  }

  lemma TwoPairValues(ns: seq<int>, p: int, q: int, k: int)
    requires |ns| == 5 && p > q && k != p && k != q
    requires multiset(ns) == multiset([p, p, q, q, k])
    ensures var pairs := FilterCount(ns, ns, 2, true); |pairs| > 0 && Max(pairs) == p && Min(pairs) == q
    ensures var cards := SortDesc(FilterCount(ns, ns, 1, true), IntGe); |cards| > 0 && cards[0] == k
  {
    var pairs := FilterCount(ns, ns, 2, true);
    var singles := FilterCount(ns, ns, 1, true);
    TwoPairGroups(ns, p, q, k);
    assert p in multiset(pairs) && q in multiset(pairs);
    assert Max(pairs) in multiset(pairs) && Min(pairs) in multiset(pairs);
    var cards := SortDesc(singles, IntGe);
    assert |cards| == |multiset(cards)| == 1;
    assert cards[0] in multiset(cards);
  }

  lemma TwoPairGroups(ns: seq<int>, p: int, q: int, k: int)
    requires |ns| == 5 && p != q && k != p && k != q
    requires multiset(ns) == multiset([p, p, q, q, k])
    ensures multiset(FilterCount(ns, ns, 2, true)) == multiset([p, p, q, q])
    ensures multiset(FilterCount(ns, ns, 1, true)) == multiset([k])
  {
    TwoPairMultiplicities(p, q, k);
    TwoPairPairs(ns, p, q, k);
    TwoPairSingle(ns, p, q, k);
  }

  lemma TwoPairPairs(ns: seq<int>, p: int, q: int, k: int)
    requires p != q && k != p && k != q
    requires forall x :: multiset(ns)[x] == if x == p || x == q then 2 else if x == k then 1 else 0
    ensures multiset(FilterCount(ns, ns, 2, true)) == multiset([p, p, q, q])
  {
    FilterMultiset(ns, ns, 2, true);
    assert multiset([p, p, q, q]) == multiset{p, p} + multiset{q, q};
    forall x ensures multiset(FilterCount(ns, ns, 2, true))[x] == multiset([p, p, q, q])[x] {
      CountMultiset(ns, x);
    }
  }

  lemma TwoPairSingle(ns: seq<int>, p: int, q: int, k: int)
    requires p != q && k != p && k != q
    requires forall x :: multiset(ns)[x] == if x == p || x == q then 2 else if x == k then 1 else 0
    ensures multiset(FilterCount(ns, ns, 1, true)) == multiset([k])
  {
    FilterMultiset(ns, ns, 1, true);
    forall x ensures multiset(FilterCount(ns, ns, 1, true))[x] == multiset([k])[x] {
      CountMultiset(ns, x);
    }
  }

  lemma TwoPairMultiplicities(p: int, q: int, k: int)
    requires p != q && k != p && k != q
    ensures forall x :: multiset([p, p, q, q, k])[x] == if x == p || x == q then 2 else if x == k then 1 else 0
  {
    assert multiset([p, p, q, q, k]) == multiset{p, p} + multiset{q, q} + multiset{k};
  }

  /** A pair of rank `p` and single cards `a > b > c` score 15 + p + a/100 + b/1000 + c/10000. */
  lemma PairScore(suited: bool, ns: seq<int>, p: int, a: int, b: int, c: int)
    requires |ns| == 5 && a > b > c && p != a && p != b && p != c
    requires multiset(ns) == multiset([p, p, a, b, c])
    ensures Category5(suited, ns) == Pair
    ensures Score5(suited, ns) ==
      15.0 + p as real + a as real / 100.0 + b as real / 1000.0 + c as real / 10000.0
  {
    PairCategory(suited, ns, p, a, b, c);
    PairFormula(suited, ns);
    PairValues(ns, p, a, b, c);
  }

  lemma PairCategory(suited: bool, ns: seq<int>, p: int, a: int, b: int, c: int)
    requires |ns| == 5 && a > b > c && p != a && p != b && p != c
    requires multiset(ns) == multiset([p, p, a, b, c])
    ensures Category5(suited, ns) == Pair
  {
    PairCounts5(ns, p, a, b, c);
    PairClassified(suited, ns, p);
  }

  lemma PairCounts5(ns: seq<int>, p: int, a: int, b: int, c: int)
    requires |ns| == 5 && a > b > c && p != a && p != b && p != c
    requires multiset(ns) == multiset([p, p, a, b, c])
    ensures Count(ns, p) == 2 && p in ns
    ensures forall i :: 0 <= i < 5 ==> Repetitions(ns)[i] == if ns[i] == p then 2 else 1
  {
    var ranks := [p, p, a, b, c];
    PairValueCounts(ns, p, a, b, c);
    CountedMember(ns, p);
    forall i | 0 <= i < 5 ensures Repetitions(ns)[i] == if ns[i] == p then 2 else 1 {
      assert ns[i] in multiset(ranks);
    }
  }

  lemma PairValueCounts(ns: seq<int>, p: int, a: int, b: int, c: int)
    requires |ns| == 5 && a > b > c && p != a && p != b && p != c
    requires multiset(ns) == multiset([p, p, a, b, c])
    ensures Count(ns, p) == 2 && Count(ns, a) == 1 && Count(ns, b) == 1 && Count(ns, c) == 1
  {
    var ranks := [p, p, a, b, c];
    PairMultiplicities(p, a, b, c);
    MultisetCount(ns, ranks, p);
    MultisetCount(ns, ranks, a);
    MultisetCount(ns, ranks, b);
    MultisetCount(ns, ranks, c);
  }

  lemma PairMultiplicities(p: int, a: int, b: int, c: int)
    requires a > b > c && p != a && p != b && p != c
    ensures forall x :: multiset([p, p, a, b, c])[x] == if x == p then 2 else if x == a || x == b || x == c then 1 else 0
  {
    assert multiset([p, p, a, b, c]) == multiset{p, p} + multiset{a} + multiset{b} + multiset{c};
  }

  /** Lists with the same elements count every value as its multiplicity. */
  lemma MultisetCount(ns: seq<int>, ranks: seq<int>, v: int)
    requires multiset(ns) == multiset(ranks)
    ensures Count(ns, v) == multiset(ranks)[v]
  {
    CountMultiset(ns, v);
  }

  lemma PairClassified(suited: bool, ns: seq<int>, p: int)
    requires |ns| == 5 && Count(ns, p) == 2 && p in ns
    requires forall i :: 0 <= i < 5 ==> Repetitions(ns)[i] == if ns[i] == p then 2 else 1
    ensures Category5(suited, ns) == Pair
  {
    var rnum := Repetitions(ns);
    CountFiveAt(ns, p);
    CountFiveAt(rnum, 2);
    CountFiveAt(rnum, 3);
    CountFiveAt(rnum, 4);
    FullHouseCountsIff(rnum);
    CountMultiset(rnum, 3);
    CountMultiset(rnum, 4);
    RepeatedCategory(suited, ns, p);
  }

  lemma PairValues(ns: seq<int>, p: int, a: int, b: int, c: int)
    requires |ns| == 5 && a > b > c && p != a && p != b && p != c
    requires multiset(ns) == multiset([p, p, a, b, c])
    ensures var pair := FilterCount(ns, ns, 2, true); |pair| > 0 && pair[0] == p
    ensures SortDesc(FilterCount(ns, ns, 1, true), IntGe) == [a, b, c]
  {
    PairGroup(ns, p, a, b, c);
    PairSingles(ns, p, a, b, c);
    var pair := FilterCount(ns, ns, 2, true);
    assert |pair| == |multiset(pair)| == 2;
    assert pair[0] in multiset(pair);
    SortDescInts(FilterCount(ns, ns, 1, true), [a, b, c]);
  }

  lemma PairGroup(ns: seq<int>, p: int, a: int, b: int, c: int)
    requires |ns| == 5 && a > b > c && p != a && p != b && p != c
    requires multiset(ns) == multiset([p, p, a, b, c])
    ensures multiset(FilterCount(ns, ns, 2, true)) == multiset([p, p])
  {
    FilterMultiset(ns, ns, 2, true);
    PairMultiplicities(p, a, b, c);
    assert multiset([p, p]) == multiset{p, p};
    forall x ensures multiset(FilterCount(ns, ns, 2, true))[x] == multiset([p, p])[x] {
      CountMultiset(ns, x);
    }
  }

  lemma PairSingles(ns: seq<int>, p: int, a: int, b: int, c: int)
    requires |ns| == 5 && a > b > c && p != a && p != b && p != c
    requires multiset(ns) == multiset([p, p, a, b, c])
    ensures multiset(FilterCount(ns, ns, 1, true)) == multiset([a, b, c])
  {
    PairMultiplicities(p, a, b, c);
    SinglesOfPair(ns, p, a, b, c);
  }

  lemma SinglesOfPair(ns: seq<int>, p: int, a: int, b: int, c: int)
    requires a > b > c && p != a && p != b && p != c
    requires forall x :: multiset(ns)[x] == if x == p then 2 else if x == a || x == b || x == c then 1 else 0
    ensures multiset(FilterCount(ns, ns, 1, true)) == multiset([a, b, c])
  {
    FilterMultiset(ns, ns, 1, true);
    assert multiset([a, b, c]) == multiset{a} + multiset{b} + multiset{c};
    forall x ensures multiset(FilterCount(ns, ns, 1, true))[x] == multiset([a, b, c])[x] {
      CountMultiset(ns, x);
    }
  }

  /** Five different ranks `a > b > c > d > e` repeat nothing. */
  lemma DistinctRanks5(ns: seq<int>, a: int, b: int, c: int, d: int, e: int)
    requires |ns| == 5 && a > b > c > d > e
    requires multiset(ns) == multiset([a, b, c, d, e])
    ensures forall i :: 0 <= i < 5 ==> Repetitions(ns)[i] == 1
    ensures Max(ns) == a && Min(ns) == e
  {
    var ranks := [a, b, c, d, e];
    forall i | 0 <= i < 5 ensures Repetitions(ns)[i] == 1 {
      assert ns[i] in multiset(ranks);
      SameCounts(ns, ranks, ns[i]);
      CountFiveAt(ranks, ns[i]);
    }
    assert a in multiset(ns) && e in multiset(ns);
    assert Max(ns) in multiset(ranks) && Min(ns) in multiset(ranks);
  }

  lemma DistinctRepeated(ns: seq<int>)
    requires |ns| == 5 && forall i :: 0 <= i < 5 ==> Repetitions(ns)[i] == 1
    ensures Repeated(Repetitions(ns)) == None && Max(Repetitions(ns)) == 1
  {
    var rnum := Repetitions(ns);
    CountFiveAt(rnum, 2);
    CountFiveAt(rnum, 3);
    CountFiveAt(rnum, 4);
    CountMultiset(rnum, 3);
    CountMultiset(rnum, 4);
    FullHouseCountsIff(rnum);
  }

  /** The categories five different ranks can fall in. */
  lemma DistinctCategory(suited: bool, ns: seq<int>, a: int, e: int)
    requires |ns| == 5 && forall i :: 0 <= i < 5 ==> Repetitions(ns)[i] == 1
    requires Max(ns) == a && Min(ns) == e
    ensures Category5(suited, ns) ==
      if suited then
        if ns == [14, 13, 12, 11, 10] then RoyalFlush
        else if a - e == 4 then StraightFlush
        else Flush
      else if a - e == 4 then Straight
      else HighCard
  {
    DistinctRepeated(ns);
    if ns == [14, 13, 12, 11, 10] {
      RoyalRanksSpread(ns);
    }
  }

  /** The category of five different ranks `a > b > c > d > e`, and its top rank. */
  lemma DistinctClassified(suited: bool, ns: seq<int>, a: int, b: int, c: int, d: int, e: int)
    requires |ns| == 5 && a > b > c > d > e
    requires multiset(ns) == multiset([a, b, c, d, e])
    ensures Max(ns) == a
    ensures suited && a - e == 4 ==> Category5(suited, ns) == if ns == [14, 13, 12, 11, 10] then RoyalFlush else StraightFlush
    ensures suited && a - e != 4 ==> Category5(suited, ns) == Flush
    ensures !suited && a - e == 4 ==> Category5(suited, ns) == Straight
    ensures !suited && a - e != 4 ==> Category5(suited, ns) == HighCard
  {
    DistinctRanks5(ns, a, b, c, d, e);
    DistinctCategory(suited, ns, a, e);
    if ns == [14, 13, 12, 11, 10] {
      RoyalRanksSpread(ns);
    }
  }

  lemma RoyalRanksSpread(ns: seq<int>)
    requires ns == [14, 13, 12, 11, 10]
    ensures Max(ns) - Min(ns) == 4
  {
    assert 14 in ns && 10 in ns;
  }

  /**
   * Five same-suit cards of consecutive ranks: 135 when the ranks read exactly
   * 14, 13, 12, 11, 10 in hand order, otherwise a straight flush worth 120 + the top rank.
   */
  lemma StraightFlushScore(ns: seq<int>, a: int, b: int, c: int, d: int, e: int)
    requires |ns| == 5 && a > b > c > d > e && a - e == 4
    requires multiset(ns) == multiset([a, b, c, d, e])
    ensures Category5(true, ns) == if ns == [14, 13, 12, 11, 10] then RoyalFlush else StraightFlush
    ensures Score5(true, ns) == if ns == [14, 13, 12, 11, 10] then 135.0 else 120.0 + a as real
  {
    DistinctClassified(true, ns, a, b, c, d, e);
    RunFormula(true, ns);
  }

  /** Five same-suit cards of different, not consecutive ranks: 75 + the top rank / 100. */
  lemma FlushScore(ns: seq<int>, a: int, b: int, c: int, d: int, e: int)
    requires |ns| == 5 && a > b > c > d > e && a - e != 4
    requires multiset(ns) == multiset([a, b, c, d, e])
    ensures Category5(true, ns) == Flush
    ensures Score5(true, ns) == 75.0 + a as real / 100.0
  {
    DistinctClassified(true, ns, a, b, c, d, e);
    RunFormula(true, ns);
  }

  /** Five consecutive ranks, not all of one suit: 65 + the top rank. */
  lemma StraightScore(ns: seq<int>, a: int, b: int, c: int, d: int, e: int)
    requires |ns| == 5 && a > b > c > d > e && a - e == 4
    requires multiset(ns) == multiset([a, b, c, d, e])
    ensures Category5(false, ns) == Straight
    ensures Score5(false, ns) == 65.0 + a as real
  {
    DistinctClassified(false, ns, a, b, c, d, e);
    RunFormula(false, ns);
  }

  /**
   * Five different, not consecutive ranks, not all of one suit: the ranks from high to
   * low in units, hundredths, thousandths, ten-thousandths and hundred-thousandths.
   */
  lemma HighCardScore(ns: seq<int>, a: int, b: int, c: int, d: int, e: int)
    requires |ns| == 5 && a > b > c > d > e && a - e != 4
    requires multiset(ns) == multiset([a, b, c, d, e])
    ensures Category5(false, ns) == HighCard
    ensures Score5(false, ns) == a as real + b as real / 100.0 + c as real / 1000.0
      + d as real / 10000.0 + e as real / 100000.0
  {
    DistinctClassified(false, ns, a, b, c, d, e);
    HighCardFormula(suited := false, ns := ns);
    HighCardOrder(ns, a, b, c, d, e);
  }

  lemma HighCardOrder(ns: seq<int>, a: int, b: int, c: int, d: int, e: int)
    requires a > b > c > d > e && multiset(ns) == multiset([a, b, c, d, e])
    ensures SortDesc(ns, IntGe) == [a, b, c, d, e]
  {
    var t := [a, b, c, d, e];
    forall i, j | 0 <= i < j < 5 ensures IntGe(t[i], t[j]) {
    }
    SortDescInts(ns, t);
  }

  /** The lowest score a category reaches with ranks 2 to 14. */
  function Floor(c: Category): real {
    match c
    case RoyalFlush => 135.0
    case StraightFlush => 126.0
    case FourOfAKind => 107.02
    case FullHouse => 92.02
    case Flush => 75.02
    case Straight => 71.0
    case ThreeOfAKind => 49.002
    case TwoPair => 32.022
    case Pair => 17.0222
    case HighCard => 2.02222
  }

  /** The highest score a category reaches with ranks 2 to 14. */
  function Ceiling(c: Category): real {
    match c
    case RoyalFlush => 135.0
    case StraightFlush => 134.0
    case FourOfAKind => 119.14
    case FullHouse => 104.14
    case Flush => 75.14
    case Straight => 79.0
    case ThreeOfAKind => 73.014
    case TwoPair => 44.154
    case Pair => 29.1554
    case HighCard => 14.15554
  }

  predicate RanksInRange(ns: seq<int>) {
    forall i :: 0 <= i < |ns| ==> LowRank <= ns[i] <= HighRank
  }

  /** With ranks from 2 to 14 every score lies in its category's band. */
  lemma ScoreInBand(suited: bool, ns: seq<int>)
    requires |ns| == 5 && RanksInRange(ns)
    ensures Floor(Category5(suited, ns)) <= Score5(suited, ns) <= Ceiling(Category5(suited, ns))
  {
    match Category5(suited, ns)
    case RoyalFlush =>
    case StraightFlush => BandRun(suited, ns);
    case Straight => BandRun(suited, ns);
    case Flush =>
    case FourOfAKind => BandFour(suited, ns);
    case FullHouse => BandFullHouse(suited, ns);
    case ThreeOfAKind => BandThree(suited, ns);
    case TwoPair => BandTwoPair(suited, ns);
    case Pair => BandPair(suited, ns);
    case HighCard => BandHighCard(suited, ns);
  }

  lemma BandRun(suited: bool, ns: seq<int>)
    requires |ns| == 5 && RanksInRange(ns) && Category5(suited, ns) in {StraightFlush, Straight}
    ensures Floor(Category5(suited, ns)) <= Score5(suited, ns) <= Ceiling(Category5(suited, ns))
  {
    assert Max(ns) - Min(ns) == 4;
  }

  lemma BandFour(suited: bool, ns: seq<int>)
    requires |ns| == 5 && RanksInRange(ns) && Category5(suited, ns) == FourOfAKind
    ensures 107.02 <= Score5(suited, ns) <= 119.14
  {
    ClassifiedRepeated(suited, ns);
    RepeatedShape(ns);
  }

  lemma BandFullHouse(suited: bool, ns: seq<int>)
    requires |ns| == 5 && RanksInRange(ns) && Category5(suited, ns) == FullHouse
    ensures 92.02 <= Score5(suited, ns) <= 104.14
  {
    ClassifiedRepeated(suited, ns);
    RepeatedShape(ns);
  }

  lemma BandThree(suited: bool, ns: seq<int>)
    requires |ns| == 5 && RanksInRange(ns) && Category5(suited, ns) == ThreeOfAKind
    ensures 49.002 <= Score5(suited, ns) <= 73.014
  {
    ClassifiedRepeated(suited, ns);
    RepeatedShape(ns);
    var cards := FilterCount(ns, ns, 3, false);
    FilterSubset(ns, ns, 3, false);
    assert Max(cards) in ns && Min(cards) in ns;
  }

  lemma BandTwoPair(suited: bool, ns: seq<int>)
    requires |ns| == 5 && RanksInRange(ns) && Category5(suited, ns) == TwoPair
    ensures 32.022 <= Score5(suited, ns) <= 44.154
  {
    ClassifiedRepeated(suited, ns);
    RepeatedShape(ns);
    var pairs := FilterCount(ns, ns, 2, true);
    var singles := FilterCount(ns, ns, 1, true);
    FilterSubset(ns, ns, 2, true);
    FilterSubset(ns, ns, 1, true);
    var cards := SortDesc(singles, IntGe);
    assert |cards| == |multiset(cards)|;
    assert cards[0] in multiset(singles);
    assert Max(pairs) in ns && Min(pairs) in ns && cards[0] in ns;
  }

  lemma BandPair(suited: bool, ns: seq<int>)
    requires |ns| == 5 && RanksInRange(ns) && Category5(suited, ns) == Pair
    ensures 17.0222 <= Score5(suited, ns) <= 29.1554
  {
    ClassifiedRepeated(suited, ns);
    RepeatedShape(ns);
    PairParts(ns);
  }

  lemma PairParts(ns: seq<int>)
    requires RanksInRange(ns)
    requires |FilterCount(ns, ns, 2, true)| > 0 && |FilterCount(ns, ns, 1, true)| >= 3
    ensures var pair := FilterCount(ns, ns, 2, true); LowRank <= pair[0] <= HighRank
    ensures var cards := SortDesc(FilterCount(ns, ns, 1, true), IntGe);
      |cards| >= 3 && forall i :: 0 <= i < 3 ==> LowRank <= cards[i] <= HighRank
  {
    var pair := FilterCount(ns, ns, 2, true);
    var singles := FilterCount(ns, ns, 1, true);
    FilterSubset(ns, ns, 2, true);
    FilterSubset(ns, ns, 1, true);
    assert pair[0] in pair;
    var cards := SortDesc(singles, IntGe);
    assert |cards| == |multiset(cards)|;
    forall i | 0 <= i < 3 ensures LowRank <= cards[i] <= HighRank {
      assert cards[i] in multiset(singles);
      FilterMember(ns, ns, 1, true, cards[i]);
    }
  }

  lemma BandHighCard(suited: bool, ns: seq<int>)
    requires |ns| == 5 && RanksInRange(ns) && Category5(suited, ns) == HighCard
    ensures 2.02222 <= Score5(suited, ns) <= 14.15554
  {
    var n := SortDesc(ns, IntGe);
    assert |n| == |multiset(n)|;
    forall i | 0 <= i < 5 ensures LowRank <= n[i] <= HighRank {
      assert n[i] in multiset(ns);
    }
  }

  /** Position of a category in the order the scores rank them, weakest first. */
  function Strength(c: Category): nat {
    match c
    case HighCard => 0
    case Pair => 1
    case TwoPair => 2
    case ThreeOfAKind => 3
    case Straight => 4
    case Flush => 5
    case FullHouse => 6
    case FourOfAKind => 7
    case StraightFlush => 8
    case RoyalFlush => 9
  }

  /**
   * `c1` beats `c2` whatever the ranks: every pair of categories in strength order
   * except a straight over three of a kind and a flush over a straight, whose score
   * ranges overlap.
   */
  predicate Outranks(c1: Category, c2: Category) {
    && Strength(c1) > Strength(c2)
    && !(c1 == Straight && c2 == ThreeOfAKind)
    && !(c1 == Flush && c2 == Straight)
  }

  lemma BandsSeparate(c1: Category, c2: Category)
    requires Outranks(c1, c2)
    ensures Floor(c1) > Ceiling(c2)
  {
  }

  /** A hand of a category that outranks another's scores strictly more. */
  lemma ScoreOrder(s1: bool, ns1: seq<int>, s2: bool, ns2: seq<int>)
    requires |ns1| == 5 && RanksInRange(ns1) && |ns2| == 5 && RanksInRange(ns2)
    requires Outranks(Category5(s1, ns1), Category5(s2, ns2))
    ensures Score5(s1, ns1) > Score5(s2, ns2)
  {
    ScoreInBand(s1, ns1);
    ScoreInBand(s2, ns2);
    BandsSeparate(Category5(s1, ns1), Category5(s2, ns2));
  }

  /** Three aces with a king and a queen outscore the six-high straight. */
  lemma ThreeOfAKindCanBeatStraight()
    ensures Category5(false, [14, 14, 14, 13, 12]) == ThreeOfAKind
    ensures Category5(false, [6, 5, 4, 3, 2]) == Straight
    ensures Score5(false, [14, 14, 14, 13, 12]) > Score5(false, [6, 5, 4, 3, 2])
  {
    ThreeOfAKindScore(false, [14, 14, 14, 13, 12], 14, 13, 12);
    StraightScore([6, 5, 4, 3, 2], 6, 5, 4, 3, 2);
  }

  /** The ace-high straight outscores every flush. */
  lemma StraightCanBeatFlush(ns: seq<int>)
    requires |ns| == 5 && RanksInRange(ns) && Category5(true, ns) == Flush
    ensures Category5(false, [14, 13, 12, 11, 10]) == Straight
    ensures Score5(false, [14, 13, 12, 11, 10]) > Score5(true, ns)
  {
    StraightScore([14, 13, 12, 11, 10], 14, 13, 12, 11, 10);
    ScoreInBand(true, ns);
  }

  /** `5 in rlet` holds exactly when the five suits are equal. */
  lemma SuitedIff(hand: seq<Card>)
    requires |hand| >= 5
    ensures Suited(hand) <==> forall i :: 0 <= i < 5 ==> SuitOf(hand[i]) == SuitOf(hand[0])
  {
    var letters := Letters(hand);
    var rlet := Repetitions(letters);
    if forall i :: 0 <= i < 5 ==> SuitOf(hand[i]) == SuitOf(hand[0]) {
      CountFiveAt(letters, letters[0]);
      assert rlet[0] == 5;
    }
    if Suited(hand) {
      var k :| 0 <= k < 5 && rlet[k] == 5;
      CountFiveAt(letters, letters[k]);
    }
  }

  /** Five deck cards are readable and their ranks run from 2 to 14. */
  lemma DeckHandRanks(hand: seq<Card>)
    requires DeckHand(hand)
    ensures Readable(hand) && RanksInRange(Numbers(hand))
  {
    forall i | 0 <= i < 5 ensures RankOf(hand[i]).Some? && LowRank <= RankOf(hand[i]).value <= HighRank {
      ValidCardParts(hand[i]);
    }
  }

  /** Between two five-card hands from the deck, the outranking category scores more. */
  lemma HandOrder(h1: seq<Card>, h2: seq<Card>)
    requires DeckHand(h1) && DeckHand(h2)
    ensures Readable(h1) && Readable(h2)
    ensures Outranks(Classify(h1), Classify(h2)) ==> ScoreHand(h1) > ScoreHand(h2)
  {
    DeckHandRanks(h1);
    DeckHandRanks(h2);
    if Outranks(Classify(h1), Classify(h2)) {
      ScoreOrder(Suited(h1), Numbers(h1), Suited(h2), Numbers(h2));
    }
  }

  /** The hand whose i-th card has suit `suits[i]` and rank `ranks[i]`. */
  function MakeHand(suits: seq<char>, ranks: seq<nat>): (hand: seq<Card>)
    requires |suits| == |ranks|
    ensures |hand| == |ranks|
  {
    seq(|ranks|, i requires 0 <= i < |ranks| => MakeCard(suits[i], ranks[i]))
  }

  lemma MadeHand(suits: seq<char>, ranks: seq<nat>)
    requires |suits| == |ranks| == 5
    ensures Readable(MakeHand(suits, ranks)) && Numbers(MakeHand(suits, ranks)) == ranks
    ensures Suited(MakeHand(suits, ranks)) <==> forall i :: 0 <= i < 5 ==> suits[i] == suits[0]
  {
    var hand := MakeHand(suits, ranks);
    forall i | 0 <= i < 5 ensures RankOf(hand[i]) == Some(ranks[i]) && SuitOf(hand[i]) == [suits[i]] {
      CardRoundTrip(suits[i], ranks[i]);
    }
    SuitedIff(hand);
  }

  /**
   * The royal flush test compares the ranks in hand order: hearts 14 down to 10 score
   * 135, the same cards from 10 up to 14 score 134 as a straight flush.
   */
  lemma RoyalFlushDependsOnOrder()
    ensures Readable(MakeHand("HHHHH", [14, 13, 12, 11, 10]))
    ensures Readable(MakeHand("HHHHH", [10, 11, 12, 13, 14]))
    ensures ScoreHand(MakeHand("HHHHH", [14, 13, 12, 11, 10])) == 135.0
    ensures ScoreHand(MakeHand("HHHHH", [10, 11, 12, 13, 14])) == 134.0
  {
    DescendingHearts();
    AscendingHearts();
  }

  lemma DescendingHearts()
    ensures Readable(MakeHand("HHHHH", [14, 13, 12, 11, 10]))
    ensures ScoreHand(MakeHand("HHHHH", [14, 13, 12, 11, 10])) == 135.0
  {
    MadeHand("HHHHH", [14, 13, 12, 11, 10]);
    DescendingRoyalRanks();
  }

  lemma AscendingHearts()
    ensures Readable(MakeHand("HHHHH", [10, 11, 12, 13, 14]))
    ensures ScoreHand(MakeHand("HHHHH", [10, 11, 12, 13, 14])) == 134.0
  {
    MadeHand("HHHHH", [10, 11, 12, 13, 14]);
    AscendingRoyalRanks();
  }

  lemma DescendingRoyalRanks()
    ensures Score5(true, [14, 13, 12, 11, 10]) == 135.0
  {
    StraightFlushScore([14, 13, 12, 11, 10], 14, 13, 12, 11, 10);
  }

  lemma AscendingRoyalRanks()
    ensures Score5(true, [10, 11, 12, 13, 14]) == 134.0
  {
    var up := [10, 11, 12, 13, 14];
    AscendingRoyalMultiset();
    StraightFlushScore(up, 14, 13, 12, 11, 10);
  }

  lemma AscendingRoyalMultiset()
    ensures multiset([10, 11, 12, 13, 14]) == multiset([14, 13, 12, 11, 10])
  {
    assert multiset([10, 11, 12, 13, 14]) == multiset{10, 11, 12, 13, 14};
    assert multiset([14, 13, 12, 11, 10]) == multiset{14, 13, 12, 11, 10};
  }

  /** Ace, 2, 3, 4, 5 of mixed suits is no straight: the ace counts only as 14. */
  lemma WheelIsHighCard()
    ensures Readable(MakeHand("HSCDH", [14, 2, 3, 4, 5]))
    ensures Classify(MakeHand("HSCDH", [14, 2, 3, 4, 5])) == HighCard
    ensures ScoreHand(MakeHand("HSCDH", [14, 2, 3, 4, 5])) == 14.05432
  {
    MadeHand("HSCDH", [14, 2, 3, 4, 5]);
    assert !Suited(MakeHand("HSCDH", [14, 2, 3, 4, 5])) by {
      assert "HSCDH"[1] != "HSCDH"[0];
    }
    WheelRanks();
  }

  lemma WheelRanks()
    ensures Category5(false, [14, 2, 3, 4, 5]) == HighCard
    ensures Score5(false, [14, 2, 3, 4, 5]) == 14.05432
  {
    WheelMultiset();
    HighCardScore([14, 2, 3, 4, 5], 14, 5, 4, 3, 2);
  }

  lemma WheelMultiset()
    ensures multiset([14, 2, 3, 4, 5]) == multiset([14, 5, 4, 3, 2])
  {
    assert multiset([14, 2, 3, 4, 5]) == multiset{14, 2, 3, 4, 5};
    assert multiset([14, 5, 4, 3, 2]) == multiset{14, 5, 4, 3, 2};
  }
}
