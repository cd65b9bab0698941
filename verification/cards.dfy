/**
 * Cards as the source writes them: a suit letter followed by the decimal rank,
 * `s + str(i)` (cards_test.py), the 52-card deck `build_deck`, and the
 * `itertools.combinations` enumeration behind `combinations`.
 */
module Cards {
  import opened Wrappers
  import opened Lists

  /** A card string such as "H10" or "S2". */
  type Card = string

  /** `suits = ['H','S','C','D']` in build-deck order. */
  const Suits: seq<char> := ['H', 'S', 'C', 'D']

  /** Lowest and highest rank, `range(2, 15)`. */
  const LowRank: int := 2
  const HighRank: int := 14

  predicate IsDigit(c: char) { '0' <= c <= '9' }

  function DigitChar(d: nat): (c: char)
    requires d < 10
    ensures IsDigit(c)
  {
    (48 + d) as char
  }

  function DigitValue(c: char): (d: nat)
    requires IsDigit(c)
    ensures d < 10 && DigitChar(d) == c
  {
    (c as int - 48)
  }

  /** `str(n)` for a natural number. */
  function Decimal(n: nat): (s: string)
    ensures |s| > 0
    ensures forall i :: 0 <= i < |s| ==> IsDigit(s[i])
  {
    if n < 10 then [DigitChar(n)] else Decimal(n / 10) + [DigitChar(n % 10)]
  }

  /**
   * `int(s)` on ASCII decimal digits: the value of a non-empty digit string,
   * `None` for any other string. Python's `int` also accepts surrounding
   * whitespace, a sign, underscores between digits and non-ASCII digits;
   * those forms are read here as unparsable.
   */
  function ParseDecimal(s: string): (r: Option<nat>)
    ensures r.Some? <==> (|s| > 0 && forall i :: 0 <= i < |s| ==> IsDigit(s[i]))
  {
    if |s| == 0 || !IsDigit(s[|s| - 1]) then None
    else if |s| == 1 then Some(DigitValue(s[0]))
    else match ParseDecimal(s[..|s| - 1])
      case None =>
        assert !IsDigit(s[..|s| - 1][0]) || exists i :: 0 <= i < |s| - 1 && !IsDigit(s[i]);
        None
      case Some(v) => Some(10 * v + DigitValue(s[|s| - 1]))
  }

  /** Parsing what `str` printed gives the number back. */
  lemma {:induction false} DecimalRoundTrip(n: nat)
    ensures ParseDecimal(Decimal(n)) == Some(n)
  {
    if n >= 10 {
      var s := Decimal(n);
      assert s[..|s| - 1] == Decimal(n / 10);
      DecimalRoundTrip(n / 10);
    }
  }

  /** `card = s + str(i)` (cards_test.py). */
  function MakeCard(suit: char, rank: nat): Card {
    [suit] + Decimal(rank)
  }

  /** `card[:1]`: the suit part, as a string of at most one letter. */
  function SuitOf(c: Card): string {
    if |c| == 0 then [] else c[..1]
  }

  /** `int(card[1:])` on ASCII digits: the rank, or `None` for anything else. */
  function RankOf(c: Card): Option<nat> {
    if |c| == 0 then ParseDecimal([]) else ParseDecimal(c[1..])
  }

  /** Splitting a built card recovers the suit and the rank it was built from. */
  lemma CardRoundTrip(suit: char, rank: nat)
    ensures SuitOf(MakeCard(suit, rank)) == [suit]
    ensures RankOf(MakeCard(suit, rank)) == Some(rank)
  {
    assert MakeCard(suit, rank)[1..] == Decimal(rank);
    DecimalRoundTrip(rank);
  }

  /** Two built cards are equal exactly when suit and rank are. */
  lemma MakeCardInjective(s1: char, r1: nat, s2: char, r2: nat)
    ensures MakeCard(s1, r1) == MakeCard(s2, r2) <==> s1 == s2 && r1 == r2
  {
    CardRoundTrip(s1, r1);
    CardRoundTrip(s2, r2);
  }

  /** The card at position `k` of `build_deck()`: ranks outer, suits inner. */
  function DeckCard(k: nat): Card {
    MakeCard(Suits[k % 4], LowRank + k / 4)
  }

  /** The value `build_deck()` returns. */
  function Deck(): seq<Card> {
    seq(52, k requires 0 <= k < 52 => DeckCard(k))
  }

  /** `build_deck` (cards_test.py): two nested loops appending `s + str(i)`. */
  method BuildDeck() returns (deck: seq<Card>)
    ensures deck == Deck()
  {
    deck := [];
    for i := LowRank to HighRank + 1
      invariant |deck| == 4 * (i - LowRank)
      invariant forall k :: 0 <= k < |deck| ==> deck[k] == DeckCard(k)
    {
      for j := 0 to |Suits|
        invariant |deck| == 4 * (i - LowRank) + j
        invariant forall k :: 0 <= k < |deck| ==> deck[k] == DeckCard(k)
      {
        ghost var k := |deck|;
        assert k % 4 == j && LowRank + k / 4 == i;
        deck := deck + [MakeCard(Suits[j], i)];
      }
    }
  }

  /** A card of the deck: a suit among `Suits` and a rank between 2 and 14. */
  predicate ValidCard(c: Card) {
    exists k :: 0 <= k < 52 && c == DeckCard(k)
  }

  /** The deck holds 52 distinct cards, each a valid suit letter and rank. */
  lemma DeckContents()
    ensures |Deck()| == 52
    ensures Distinct(Deck())
    ensures forall c :: c in Deck() <==> ValidCard(c)
  {
    forall i, j | 0 <= i < j < 52 ensures DeckCard(i) != DeckCard(j) {
      MakeCardInjective(Suits[i % 4], LowRank + i / 4, Suits[j % 4], LowRank + j / 4);
    }
    forall c ensures c in Deck() <==> ValidCard(c) {
      if c in Deck() {
        var k :| 0 <= k < 52 && Deck()[k] == c;
        assert c == DeckCard(k);
      }
      if ValidCard(c) {
        var k :| 0 <= k < 52 && c == DeckCard(k);
        assert Deck()[k] == c;
      }
    }
  }

  /** Every card of the deck parses to its suit letter and a rank in 2..14. */
  lemma ValidCardParts(c: Card)
    requires ValidCard(c)
    ensures SuitOf(c) == [c[0]] && c[0] in Suits
    ensures RankOf(c).Some? && LowRank <= RankOf(c).value <= HighRank
  {
    var k :| 0 <= k < 52 && c == DeckCard(k);
    CardRoundTrip(Suits[k % 4], LowRank + k / 4);
  }

  /** Every suit-and-rank pair is in the deck. */
  lemma DeckIsComplete(suit: char, rank: int)
    requires suit in Suits && LowRank <= rank <= HighRank
    ensures MakeCard(suit, rank) in Deck()
  {
    var j :| 0 <= j < 4 && Suits[j] == suit;
    var k := 4 * (rank - LowRank) + j;
    assert DeckCard(k) == MakeCard(suit, rank);
    assert Deck()[k] == MakeCard(suit, rank);
  }

  // ---------------------------------------------------------------------------
  // combinations(arr, n): itertools.combinations, lexicographic in positions

  /** Puts `x` in front of every row. */
  function PrependAll<T>(x: T, rows: seq<seq<T>>): (r: seq<seq<T>>)
    ensures |r| == |rows|
    ensures forall i :: 0 <= i < |r| ==> r[i] == [x] + rows[i]
  {
    if rows == [] then [] else [[x] + rows[0]] + PrependAll(x, rows[1..])
  }

  /** `combinations(arr, n)`: every n-element selection of `arr` in original order. */
  function Combinations<T>(arr: seq<T>, n: nat): seq<seq<T>>
    decreases |arr|
  {
    if n == 0 then [[]]
    else if |arr| < n then []
    else PrependAll(arr[0], Combinations(arr[1..], n - 1)) + Combinations(arr[1..], n)
  }

  /** `row` can be obtained from `arr` by deleting elements. */
  predicate IsSubsequence<T(==)>(row: seq<T>, arr: seq<T>)
    decreases |arr|
  {
    if row == [] then true
    else if arr == [] then false
    else (row[0] == arr[0] && IsSubsequence(row[1..], arr[1..])) || IsSubsequence(row, arr[1..])
  }

  /** Pascal's triangle: `C(m, n)`. */
  function Binomial(m: nat, n: nat): nat {
    if n == 0 then 1 else if m == 0 then 0 else Binomial(m - 1, n - 1) + Binomial(m - 1, n)
  }

  /** `combinations(arr, n)` yields `C(len(arr), n)` rows. */
  lemma {:induction false} CombinationsCount<T>(arr: seq<T>, n: nat)
    ensures |Combinations(arr, n)| == Binomial(|arr|, n)
    decreases |arr|
  {
    if n == 0 {
    } else if |arr| < n {
      BinomialZero(|arr|, n);
    } else {
      var tail := arr[1..];
      CombinationsCount(tail, n - 1);
      CombinationsCount(tail, n);
      CombinationsSplit(arr, tail, n);
    }
  }

  /** One step of Pascal's rule on the rows themselves. */
  lemma CombinationsSplit<T>(arr: seq<T>, tail: seq<T>, n: nat)
    requires 0 < n <= |arr| && tail == arr[1..]
    requires |Combinations(tail, n - 1)| == Binomial(|tail|, n - 1)
    requires |Combinations(tail, n)| == Binomial(|tail|, n)
    ensures |Combinations(arr, n)| == Binomial(|arr|, n)
  {
  }

  lemma {:induction false} BinomialZero(m: nat, n: nat)
    requires m < n
    ensures Binomial(m, n) == 0
  {
    if m > 0 {
      BinomialZero(m - 1, n - 1);
      BinomialZero(m - 1, n);
    }
  }

  /** A row is produced exactly when it is an n-element subsequence of `arr`. */
  lemma {:induction false} CombinationsExact<T>(arr: seq<T>, n: nat, row: seq<T>)
    ensures row in Combinations(arr, n) <==> |row| == n && IsSubsequence(row, arr)
    decreases |arr|
  {
    if n == 0 {
      assert row == [] <==> |row| == 0;
    } else if |arr| < n {
      if |row| == n && IsSubsequence(row, arr) {
        SubsequenceLength(row, arr);
      }
    } else {
      var withHead := PrependAll(arr[0], Combinations(arr[1..], n - 1));
      var without := Combinations(arr[1..], n);
      CombinationsExact(arr[1..], n, row);
      if row != [] {
        CombinationsExact(arr[1..], n - 1, row[1..]);
        if row in withHead {
          var i :| 0 <= i < |withHead| && withHead[i] == row;
          assert row[1..] == Combinations(arr[1..], n - 1)[i];
        }
        if row[0] == arr[0] && |row| == n && IsSubsequence(row[1..], arr[1..]) {
          var i :| 0 <= i < |Combinations(arr[1..], n - 1)| && Combinations(arr[1..], n - 1)[i] == row[1..];
          assert withHead[i] == row;
        }
      }
    }
  }

  lemma {:induction false} SubsequenceLength<T>(row: seq<T>, arr: seq<T>)
    requires IsSubsequence(row, arr)
    ensures |row| <= |arr|
    decreases |arr|
  {
    if row != [] {
      if row[0] == arr[0] && IsSubsequence(row[1..], arr[1..]) {
        SubsequenceLength(row[1..], arr[1..]);
      } else {
        SubsequenceLength(row, arr[1..]);
      }
    }
  }

  /** Every row of `combinations(arr, n)` has exactly `n` elements, all taken from `arr`. */
  lemma CombinationRows<T>(arr: seq<T>, n: nat)
    ensures forall row :: row in Combinations(arr, n) ==> |row| == n && multiset(row) <= multiset(arr)
  {
    forall row | row in Combinations(arr, n) ensures |row| == n && multiset(row) <= multiset(arr) {
      CombinationsExact(arr, n, row);
      SubsequenceMultiset(row, arr);
    }
  }

  lemma {:induction false} SubsequenceMultiset<T>(row: seq<T>, arr: seq<T>)
    requires IsSubsequence(row, arr)
    ensures multiset(row) <= multiset(arr)
    decreases |arr|
  {
    if row != [] {
      assert arr == [arr[0]] + arr[1..];
      if row[0] == arr[0] && IsSubsequence(row[1..], arr[1..]) {
        assert row == [row[0]] + row[1..];
        SubsequenceMultiset(row[1..], arr[1..]);
      } else {
        SubsequenceMultiset(row, arr[1..]);
      }
    }
  }

  /** The elements of `arr` that lie in `s`, in their order in `arr`. */
  function Among<T(==,!new)>(arr: seq<T>, s: set<T>): (r: seq<T>)
    ensures forall v :: v in r <==> v in arr && v in s
    ensures IsSubsequence(r, arr)
    ensures Distinct(arr) ==> Distinct(r)
    decreases |arr|
  {
    if arr == [] then []
    else
      var tail := Among(arr[1..], s);
      if arr[0] in s then
        assert ([arr[0]] + tail)[1..] == tail;
        assert Distinct(arr) ==> arr[0] !in arr[1..] by {
          if Distinct(arr) {
            forall j | 0 <= j < |arr[1..]| ensures arr[1..][j] != arr[0] {
              assert arr[1..][j] == arr[j + 1];
            }
          }
        }
        [arr[0]] + tail
      else tail
  }

  /** A list without repetitions has as many elements as its set of members. */
  lemma {:induction false} DistinctMembers<T>(r: seq<T>)
    requires Distinct(r)
    ensures |set v | v in r| == |r|
  {
    if r != [] {
      assert Distinct(r[1..]) by {
        forall i, j | 0 <= i < j < |r[1..]| ensures r[1..][i] != r[1..][j] {
          assert r[1..][i] == r[i + 1] && r[1..][j] == r[j + 1];
        }
      }
      DistinctMembers(r[1..]);
      assert (set v | v in r) == {r[0]} + (set v | v in r[1..]);
      assert r[0] !in r[1..] by {
        forall j | 0 <= j < |r[1..]| ensures r[1..][j] != r[0] {
          assert r[1..][j] == r[j + 1];
        }
      }
    }
  }

  /**
   * Any choice of distinct elements of a list without repetitions is, up to
   * order, some row of `combinations(arr, n)` for its size `n`.
   */
  lemma CombinationCovers<T(!new)>(arr: seq<T>, pick: seq<T>)
    requires Distinct(arr) && Distinct(pick) && forall v :: v in pick ==> v in arr
    ensures exists row :: row in Combinations(arr, |pick|) && forall v :: v in row <==> v in pick
  {
    var s := set v | v in pick;
    var row := Among(arr, s);
    assert (set v | v in row) == s;
    DistinctMembers(row);
    DistinctMembers(pick);
    CombinationsExact(arr, |pick|, row);
  }
}
