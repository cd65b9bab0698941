/**
 * The Monte Carlo tree searcher of `monte_carlo_tree_search.py`: a class
 * holding the total reward `Q`, the visit count `N` and the recorded
 * `children` of every node it has met, updated in place by rollouts.
 *
 * A game is given by the operations of the abstract `Node` class, collected
 * in a `Game` record. Random choices (`find_random_child`, `random.choice`)
 * take an explicit draw, and the iteration order of a Python set of nodes is
 * the game's `enumerate` function.
 */
module MonteCarloTreeSearch {
  import opened Wrappers
  import opened Lists

  /**
   * The operations a node offers. `randomChild` is `None` where
   * `find_random_child` raises. `height` is a measure that every recorded
   * move strictly lowers; it stands for the fact that every game played with
   * this searcher ends.
   */
  datatype Game<!Node> = Game(
    findChildren: Node -> set<Node>,
    isTerminal: Node -> bool,
    reward: Node -> int,
    randomChild: (Node, nat) -> Option<Node>,
    enumerate: set<Node> -> seq<Node>,
    height: Node -> nat)

  /** The error `find_random_child` raises, where the searcher lets it through. */
  const RandomChildFailed: string := "find_random_child raised"

  /** What the model reports where `machine_decision` would never return. */
  const SimulationRunsOn: string := "simulation did not end"

  /** `q` lists the elements of `s`, each once. */
  ghost predicate Enumerates<Node(!new)>(q: seq<Node>, s: set<Node>) {
    Distinct(q) && (forall x :: x in q <==> x in s)
  }

  /** Moves lower the height, and `enumerate` lists a set. */
  ghost predicate WellFormed<Node(!new)>(g: Game<Node>) {
    && (forall n, c :: c in g.findChildren(n) ==> g.height(c) < g.height(n))
    && (forall n, d :: !g.isTerminal(n) && g.randomChild(n, d).Some? ==> g.height(g.randomChild(n, d).value) < g.height(n))
    && (forall s :: Enumerates(g.enumerate(s), s))
  }

  /** Where a simulation ends: the terminal node and the number of times the loop ran. */
  datatype Playout<Node> = Playout(last: Node, rounds: nat)

  /**
   * The loop of `_simulate` from `n`, run at most `fuel` times: each round
   * draws `randomChild` with draw `seed + k` and moves to that child, or stays
   * at the same node when `find_random_child` raises (the source catches the
   * exception). `None` when no terminal node is reached within `fuel` rounds.
   */
  function Simulation<Node>(g: Game<Node>, n: Node, seed: nat, fuel: nat): (r: Option<Playout<Node>>)
    ensures r.Some? ==> g.isTerminal(r.value.last) && r.value.rounds <= fuel
    ensures g.isTerminal(n) ==> r == Some(Playout(n, 0))
    decreases fuel
  {
    if g.isTerminal(n) then Some(Playout(n, 0))
    else if fuel == 0 then None
    else
      var next := if g.randomChild(n, seed).Some? then g.randomChild(n, seed).value else n;
      match Simulation(g, next, seed + 1, fuel - 1)
      case None => None
      case Some(p) => Some(Playout(p.last, p.rounds + 1))
  }

  /**
   * The value `_simulate` returns for a playout: `invert_reward` starts true
   * and flips every round, so the terminal reward is inverted after an even
   * number of rounds.
   */
  function PlayoutReward<Node>(g: Game<Node>, p: Playout<Node>): int {
    if p.rounds % 2 == 0 then 1 - g.reward(p.last) else g.reward(p.last)
  }

  /** `find_random_child` never raises on a node in play. */
  ghost predicate NeverFails<Node(!new)>(g: Game<Node>) {
    forall n, d :: !g.isTerminal(n) ==> g.randomChild(n, d).Some?
  }

  /** When no draw fails, a simulation ends within `height` rounds: the source's loop terminates. */
  lemma {:induction false} SimulationEnds<Node(!new)>(g: Game<Node>, n: Node, seed: nat, fuel: nat)
    requires WellFormed(g)
    ensures NeverFails(g) && g.height(n) <= fuel ==> Simulation(g, n, seed, fuel).Some?
    decreases fuel
  {
    if NeverFails(g) && g.height(n) <= fuel && !g.isTerminal(n) {
      var c := g.randomChild(n, seed).value;
      SimulationEnds(g, c, seed + 1, fuel - 1);
    }
  }

  /**
   * A node in play on which `find_random_child` raises for every draw: the
   * exception is caught on every round and the loop never ends.
   */
  lemma {:induction false} AlwaysFailingNeverEnds<Node(!new)>(g: Game<Node>, n: Node, seed: nat, fuel: nat)
    requires !g.isTerminal(n)
    requires forall d :: g.randomChild(n, d).None?
    ensures Simulation(g, n, seed, fuel).None?
    decreases fuel
  {
    if fuel > 0 {
      AlwaysFailingNeverEnds(g, n, seed + 1, fuel - 1);
    }
  }

  /**
   * A caught exception still flips `invert_reward`: the simulation that
   * fails on its first draw and then continues returns one minus what the
   * continuation alone would return.
   */
  lemma FailureInvertsReward<Node>(g: Game<Node>, n: Node, seed: nat, fuel: nat)
    requires !g.isTerminal(n) && g.randomChild(n, seed).None?
    requires Simulation(g, n, seed + 1, fuel).Some?
    ensures Simulation(g, n, seed, fuel + 1).Some?
    ensures PlayoutReward(g, Simulation(g, n, seed, fuel + 1).value)
         == 1 - PlayoutReward(g, Simulation(g, n, seed + 1, fuel).value)
  {
    var p := Simulation(g, n, seed + 1, fuel).value;
    assert Simulation(g, n, seed, fuel + 1) == Some(Playout(p.last, p.rounds + 1));
  }

  /**
   * The reward credited `k` places above the leaf of a path: the leaf gets
   * `r`, its parent `1 - r`, and so on ("1 for me is 0 for my enemy").
   */
  function RewardAt(r: int, k: nat): int {
    if k % 2 == 0 then r else 1 - r
  }

  /** The total reward `n` receives when `r` is propagated up `path`. */
  function Gain<Node(==)>(path: seq<Node>, n: Node, r: int): int {
    if path == [] then 0
    else (if path[0] == n then RewardAt(r, |path| - 1) else 0) + Gain(path[1..], n, r)
  }

  lemma {:induction false} GainAbsent<Node>(path: seq<Node>, n: Node, r: int)
    requires n !in path
    ensures Gain(path, n, r) == 0
  {
    if path != [] {
      assert n !in path[1..];
      GainAbsent(path[1..], n, r);
    }
  }

  /** On a path without repetitions the rewards alternate from the leaf upwards. */
  lemma {:induction false} GainAlternates<Node>(path: seq<Node>, i: nat, r: int)
    requires Distinct(path) && i < |path|
    ensures Gain(path, path[i], r) == RewardAt(r, |path| - 1 - i)
  {
    if i == 0 {
      assert path[0] !in path[1..] by {
        forall j | 0 <= j < |path[1..]| ensures path[1..][j] != path[0] {
          assert path[1..][j] == path[j + 1];
        }
      }
      GainAbsent(path[1..], path[0], r);
    } else {
      assert path[1..][i - 1] == path[i];
      GainAlternates(path[1..], i - 1, r);
    }
  }

  /** The value `choose` ranks children by: minus infinity for an unvisited node, else the average reward. */
  datatype Mean = NegInf | Avg(value: real)

  /** Python's `>=` on such values. */
  function MeanGe(a: Mean, b: Mean): bool {
    b.NegInf? || (a.Avg? && a.value >= b.value)
  }

  /** Python's `>` on such values. */
  function MeanGt(a: Mean, b: Mean): bool {
    a.Avg? && (b.NegInf? || a.value > b.value)
  }

  lemma MeanGeTotal()
    ensures TotalOrder(MeanGe)
  {
  }

  /**
   * `max` over the first `n` values: the first position holding a largest
   * value, since `max` replaces its candidate only on a strict increase.
   */
  function BestAmong(s: seq<Mean>, n: nat): (i: nat)
    requires 0 < n <= |s|
    ensures i < n
    ensures forall j :: 0 <= j < n ==> MeanGe(s[i], s[j])
    ensures forall j :: 0 <= j < i ==> MeanGt(s[i], s[j])
  {
    if n == 1 then 0
    else
      var k := BestAmong(s, n - 1);
      if MeanGt(s[n - 1], s[k]) then n - 1 else k
  }

  /** `max(range(|s|), key=s.__getitem__)`. */
  function BestIndex(s: seq<Mean>): (i: nat)
    requires |s| > 0
    ensures i < |s|
    ensures forall j :: 0 <= j < |s| ==> MeanGe(s[i], s[j])
    ensures forall j :: 0 <= j < i ==> MeanGt(s[i], s[j])
  {
    BestAmong(s, |s|)
  }

  /** `sorted` is `scores` arranged in descending order. */
  ghost predicate DescendingOf(scores: seq<Mean>, sorted: seq<Mean>) {
    SortedBy(sorted, MeanGe) && multiset(sorted) == multiset(scores)
  }

  /** `sorted(scores, reverse=True)` arranges the scores in descending order. */
  lemma SortDescDescending(scores: seq<Mean>)
    ensures DescendingOf(scores, SortDesc(scores, MeanGe))
  {
    MeanGeTotal();
    SortDescSorted(scores, MeanGe);
  }

  /** The head of a descending arrangement is the largest value, held first at `BestIndex(s)`. */
  lemma SortedHead(s: seq<Mean>, t: seq<Mean>)
    requires |s| > 0 && DescendingOf(s, t)
    ensures |t| == |s|
    ensures t[0] == s[BestIndex(s)]
  {
    assert |t| == |multiset(t)| == |multiset(s)| == |s|;
    var b := BestIndex(s);
    assert t[0] in multiset(s);
    assert MeanGe(s[b], t[0]);
    assert s[b] in multiset(t);
    var k :| 0 <= k < |t| && t[k] == s[b];
    if k > 0 {
      assert MeanGe(t[0], t[k]);
    }
  }

  /**
   * `scores.index(sorted[k])`: the first position holding the `k`-th entry
   * of the descending arrangement.
   */
  function RankedIndex(scores: seq<Mean>, sorted: seq<Mean>, k: nat): (i: nat)
    requires k < |sorted| && multiset(sorted) == multiset(scores)
    ensures i < |scores| && scores[i] == sorted[k]
    ensures forall j :: 0 <= j < i ==> scores[j] != sorted[k]
  {
    assert sorted[k] in multiset(scores) by {
      assert sorted[k] in multiset(sorted);
    }
    IndexOf(scores, sorted[k])
  }

  /**
   * The index `choose_estimate_with_level` picks among the scores of the
   * children listed in iteration order, given their descending arrangement
   * `sorted`: the best at level 3; one of the best and the second best at
   * level 2; one of the second and third best at level 1 (the best when there
   * is a single child); nothing otherwise. Since "second best" is the first
   * child whose score equals `sorted[1]`, it can coincide with the best, and
   * likewise for the third.
   */
  function Pick(scores: seq<Mean>, sorted: seq<Mean>, level: int, draw: nat): (r: Option<nat>)
    requires |scores| > 0 && |sorted| == |scores| && multiset(sorted) == multiset(scores)
    ensures r.Some? <==> 1 <= level <= 3
    ensures r.Some? ==> r.value < |scores|
  {
    var best := BestIndex(scores);
    if level == 3 then Some(best)
    else if level == 2 then
      Some(if |scores| >= 2 then Choice([best, RankedIndex(scores, sorted, 1)], draw) else Choice([best], draw))
    else if level == 1 then
      Some(if |scores| >= 3 then Choice([RankedIndex(scores, sorted, 1), RankedIndex(scores, sorted, 2)], draw)
           else if |scores| == 2 then Choice([RankedIndex(scores, sorted, 1)], draw)
           else Choice([best], draw))
    else None
  }

  /** Level 3 plays a child of highest score, as `choose` does. */
  lemma PickLevel3(scores: seq<Mean>, sorted: seq<Mean>, draw: nat)
    requires |scores| > 0 && |sorted| == |scores| && multiset(sorted) == multiset(scores)
    ensures Pick(scores, sorted, 3, draw).Some?
    ensures forall j :: 0 <= j < |scores| ==> MeanGe(scores[Pick(scores, sorted, 3, draw).value], scores[j])
  {
  }

  /** Level 2 plays the best child or the first one holding the second largest score. */
  lemma PickLevel2(scores: seq<Mean>, sorted: seq<Mean>, draw: nat)
    requires |scores| > 0 && |sorted| == |scores| && multiset(sorted) == multiset(scores)
    ensures var p := Pick(scores, sorted, 2, draw).value;
      p == BestIndex(scores) || (|scores| >= 2 && scores[p] == sorted[1])
  {
  }

  /**
   * Level 1 plays the only child when there is one, and otherwise a child
   * holding the second or third largest score.
   */
  lemma PickLevel1(scores: seq<Mean>, sorted: seq<Mean>, draw: nat)
    requires |scores| > 0 && |sorted| == |scores| && multiset(sorted) == multiset(scores)
    ensures |scores| == 1 ==> Pick(scores, sorted, 1, draw) == Some(0)
    ensures |scores| >= 2 ==>
      var p := Pick(scores, sorted, 1, draw).value;
      scores[p] == sorted[1] || (|scores| >= 3 && scores[p] == sorted[2])
  {
  }

  /** With the two top scores equal, the first child holding the second score is the best child. */
  lemma TopTieIndex(scores: seq<Mean>, sorted: seq<Mean>)
    requires |scores| >= 2 && |sorted| == |scores| && DescendingOf(scores, sorted)
    requires sorted[1] == sorted[0]
    ensures RankedIndex(scores, sorted, 1) == BestIndex(scores)
  {
    SortedHead(scores, sorted);
    var b := BestIndex(scores);
    var i := RankedIndex(scores, sorted, 1);
    assert scores[i] == scores[b];
    assert i <= b;
  }

  /**
   * When the two top scores are equal, the "second best action" is the best
   * action itself, so level 2 always plays the best action.
   */
  lemma TiedTopRepeatsBest(scores: seq<Mean>, sorted: seq<Mean>, draw: nat)
    requires |scores| >= 2 && |sorted| == |scores| && DescendingOf(scores, sorted)
    requires sorted[1] == sorted[0]
    ensures Pick(scores, sorted, 2, draw) == Some(BestIndex(scores))
  {
    TopTieIndex(scores, sorted);
    var b := BestIndex(scores);
    assert Choice([b, b], draw) == b;
  }

  /**
   * When one child scores strictly more than all others, level 1 never plays
   * it.
   */
  lemma NoobAvoidsStrictBest(scores: seq<Mean>, sorted: seq<Mean>, draw: nat)
    requires |scores| >= 2 && |sorted| == |scores| && DescendingOf(scores, sorted)
    requires MeanGt(sorted[0], sorted[1])
    ensures Pick(scores, sorted, 1, draw).value != BestIndex(scores)
  {
    SortedHead(scores, sorted);
    var b := BestIndex(scores);
    assert scores[RankedIndex(scores, sorted, 1)] != scores[b];
    if |scores| >= 3 {
      assert MeanGe(sorted[1], sorted[2]);
      assert scores[RankedIndex(scores, sorted, 2)] != scores[b];
    }
  }

  /** The searcher: `Q`, `N` and `children` as in the source, `tmp` counts rollouts. */
  class MCTS<Node(==,!new)> {
    var Q: map<Node, int>
    var N: map<Node, nat>
    var children: map<Node, set<Node>>
    var tmp: nat
    const explorationWeight: int
    const game: Game<Node>
    /**
     * The upper confidence bound `Q[n]/N[n] + w*sqrt(log(N[parent])/N[n])`
     * as a function of `w`, `Q[n]`, `N[n]` and `N[parent]`.
     */
    const uct: (int, int, nat, nat) -> real

    /** The game is well formed, recorded children are the game's, and every expanded node has been visited. */
    ghost predicate Valid()
      reads this
    {
      && WellFormed(game)
      && (forall n :: n in children ==> children[n] == game.findChildren(n))
      && (forall n :: n in children ==> Visits(n) > 0)
    }

    /** `self.N[n]` of the `defaultdict`. */
    function Visits(n: Node): nat
      reads this`N
    {
      if n in N then N[n] else 0
    }

    /** `self.Q[n]` of the `defaultdict`. */
    function Total(n: Node): int
      reads this`Q
    {
      if n in Q then Q[n] else 0
    }

    /** The `score` of `choose`. */
    function Score(n: Node): Mean
      reads this`N, this`Q
    {
      if Visits(n) == 0 then NegInf else Avg(Total(n) as real / Visits(n) as real)
    }

    /** The scores of `items`, in order. */
    function ScoresOf(items: seq<Node>): (r: seq<Mean>)
      reads this`N, this`Q
      ensures |r| == |items|
    {
      if items == [] then [] else ScoresOf(items[..|items| - 1]) + [Score(items[|items| - 1])]
    }

    constructor(game: Game<Node>, uct: (int, int, nat, nat) -> real)
      requires WellFormed(game)
      ensures Valid()
      ensures Q == map[] && N == map[] && children == map[] && tmp == 0
      ensures explorationWeight == 20 && this.game == game && this.uct == uct
    {
      Q := map[];
      N := map[];
      children := map[];
      explorationWeight := 20;
      tmp := 0;
      this.game := game;
      this.uct := uct;
    }

    /** The scores of the listed children, built one by one. */
    method ListScores(items: seq<Node>) returns (scores: seq<Mean>)
      ensures scores == ScoresOf(items)
      ensures forall i :: 0 <= i < |items| ==> scores[i] == Score(items[i])
    {
      scores := [];
      var k := 0;
      while k < |items|
        invariant 0 <= k <= |items|
        invariant scores == ScoresOf(items[..k])
        invariant forall i :: 0 <= i < k ==> scores[i] == Score(items[i])
      {
        assert items[..k + 1][..k] == items[..k];
        scores := scores + [Score(items[k])];
        k := k + 1;
      }
      assert items[..k] == items;
    }

    /** A listing of a set is empty exactly when the set is. */
    lemma EnumeratesEmpty(q: seq<Node>, s: set<Node>)
      requires Enumerates(q, s)
      ensures q == [] <==> s == {}
    {
      if s != {} {
        var x :| x in s;
        assert x in q;
      }
      if q != [] {
        assert q[0] in s;
      }
    }

    /**
     * `choose`: an error on a terminal node, a random child of a node never
     * expanded, and otherwise a child of highest average reward, where an
     * unvisited child ranks below every visited one.
     */
    method Choose(node: Node, draw: nat) returns (r: Result<Node, string>)
      requires Valid()
      ensures game.isTerminal(node) ==> r.Err?
      ensures !game.isTerminal(node) && node !in children ==>
        r == if game.randomChild(node, draw).Some? then Ok(game.randomChild(node, draw).value) else Err(RandomChildFailed)
      ensures !game.isTerminal(node) && node in children ==> (r.Ok? <==> children[node] != {})
      ensures r.Ok? && node in children ==>
        && r.value in children[node]
        && (forall m :: m in children[node] ==> MeanGe(Score(r.value), Score(m)))
      ensures r.Ok? && node in children && (exists m :: m in children[node] && Visits(m) > 0) ==>
        Visits(r.value) > 0
    {
      if game.isTerminal(node) {
        return Err("choose called on terminal node");
      }
      if node !in children {
        var c := game.randomChild(node, draw);
        return if c.Some? then Ok(c.value) else Err(RandomChildFailed);
      }
      var items := game.enumerate(children[node]);
      EnumeratesEmpty(items, children[node]);
      var scores := ListScores(items);
      if |scores| == 0 {
        return Err("max() arg is an empty sequence");
      }
      var b := BestIndex(scores);
      r := Ok(items[b]);
      forall m | m in children[node] ensures MeanGe(Score(items[b]), Score(m)) {
        assert m in items;
        var j :| 0 <= j < |items| && items[j] == m;
        assert MeanGe(scores[b], scores[j]);
      }
    }

    /**
     * `choose_estimate_with_level`: as `choose` for terminal and unexpanded
     * nodes; otherwise the child at the index `Pick` gives, among the children
     * in iteration order, or nothing for a level other than 1, 2 and 3.
     */
    method ChooseEstimateWithLevel(node: Node, level: int, draw: nat) returns (r: Result<Option<Node>, string>)
      requires Valid()
      ensures game.isTerminal(node) ==> r.Err?
      ensures !game.isTerminal(node) && node !in children ==>
        r == if game.randomChild(node, draw).Some? then Ok(Some(game.randomChild(node, draw).value)) else Err(RandomChildFailed)
      ensures !game.isTerminal(node) && node in children ==> (r.Ok? <==> children[node] != {})
      ensures r.Ok? && node in children ==>
        var items := game.enumerate(children[node]);
        var p := Pick(ScoresOf(items), SortDesc(ScoresOf(items), MeanGe), level, draw);
        r.value == if p.Some? then Some(items[p.value]) else None
      ensures r.Ok? && r.value.Some? && node in children ==> r.value.value in children[node]
    {
      if game.isTerminal(node) {
        return Err("choose called on terminal node");
      }
      if node !in children {
        var c := game.randomChild(node, draw);
        return if c.Some? then Ok(Some(c.value)) else Err(RandomChildFailed);
      }
      var items := game.enumerate(children[node]);
      EnumeratesEmpty(items, children[node]);
      var scores := ListScores(items);
      if |scores| == 0 {
        return Err("max() arg is an empty sequence");
      }
      var sorted := SortDesc(scores, MeanGe);
      var p := Pick(scores, sorted, level, draw);
      if p.Some? {
        r := Ok(Some(items[p.value]));
      } else {
        r := Ok(None);
      }
    }

    /** `_expand`: record the children of `node` unless already recorded. */
    method Expand(node: Node)
      modifies this
      ensures children == if node in old(children) then old(children) else old(children)[node := game.findChildren(node)]
      ensures Q == old(Q) && N == old(N) && tmp == old(tmp)
    {
      if node in children {
        return;
      }
      children := children[node := game.findChildren(node)];
    }

    /**
     * `_uct_select`: a child of highest upper confidence bound. The source
     * asserts that every child is expanded; the logarithm and the divisions
     * need `node` and its children visited.
     */
    method UctSelect(node: Node) returns (c: Node)
      requires Valid()
      requires node in children && children[node] != {}
      requires children[node] <= children.Keys
      ensures c in children[node]
      ensures forall m :: m in children[node] ==>
        uct(explorationWeight, Total(m), Visits(m), Visits(node)) <=
        uct(explorationWeight, Total(c), Visits(c), Visits(node))
    {
      var items := game.enumerate(children[node]);
      EnumeratesEmpty(items, children[node]);
      var bounds: seq<Mean> := [];
      var k := 0;
      while k < |items|
        invariant 0 <= k <= |items| && |bounds| == k
        invariant forall i :: 0 <= i < k ==>
          bounds[i] == Avg(uct(explorationWeight, Total(items[i]), Visits(items[i]), Visits(node)))
      {
        bounds := bounds + [Avg(uct(explorationWeight, Total(items[k]), Visits(items[k]), Visits(node)))];
        k := k + 1;
      }
      var b := BestIndex(bounds);
      c := items[b];
      forall m | m in children[node]
        ensures uct(explorationWeight, Total(m), Visits(m), Visits(node)) <=
                uct(explorationWeight, Total(c), Visits(c), Visits(node))
      {
        assert m in items;
        var j :| 0 <= j < |items| && items[j] == m;
        assert MeanGe(bounds[b], bounds[j]);
      }
    }

    /** `b` is a recorded child of `a`, and all of `a`'s children are expanded. */
    ghost predicate Descends(a: Node, b: Node)
      reads this
    {
      a in children && children[a] <= children.Keys && b in children[a]
    }

    /** Each node of `path` after the first is a recorded child of the one before. */
    ghost predicate Linked(path: seq<Node>)
      reads this
    {
      forall k :: 0 <= k < |path| - 1 ==> path[k] in children && path[k + 1] in children[path[k]]
    }

    /**
     * `_select`: the path from `node` down through expanded nodes whose
     * children are all expanded, ending at an unexpanded or childless node
     * (possibly one unexpanded child of the last expanded node).
     */
    method Select(node: Node) returns (path: seq<Node>)
      requires Valid()
      ensures |path| > 0 && path[0] == node
      ensures Linked(path)
      ensures forall i :: 0 <= i < |path| - 2 ==> children[path[i]] <= children.Keys
      ensures path[|path| - 1] !in children || children[path[|path| - 1]] == {}
    {
      path := [];
      var cur := node;
      while true
        invariant |path| == 0 ==> cur == node
        invariant |path| > 0 ==> path[0] == node && Descends(path[|path| - 1], cur)
        invariant forall i :: 0 <= i < |path| - 1 ==> Descends(path[i], path[i + 1])
        decreases game.height(cur)
      {
        path := path + [cur];
        assert forall i :: 0 <= i < |path| - 1 ==> Descends(path[i], path[i + 1]);
        if cur !in children || children[cur] == {} {
          forall i | 0 <= i < |path| - 1 ensures path[i] in children && path[i + 1] in children[path[i]] {
            assert Descends(path[i], path[i + 1]);
          }
          forall i | 0 <= i < |path| - 2 ensures children[path[i]] <= children.Keys {
            assert Descends(path[i], path[i + 1]);
          }
          return;
        }
        var unexplored := children[cur] - children.Keys;
        if unexplored != {} {
          var order := game.enumerate(unexplored);
          EnumeratesEmpty(order, unexplored);
          var n := order[0];
          assert n in unexplored;
          path := path + [n];
          assert forall i :: 0 <= i < |path| - 2 ==> Descends(path[i], path[i + 1]);
          forall i | 0 <= i < |path| - 1 ensures path[i] in children && path[i + 1] in children[path[i]] {
            if i < |path| - 2 {
              assert Descends(path[i], path[i + 1]);
            }
          }
          forall i | 0 <= i < |path| - 2 ensures children[path[i]] <= children.Keys {
            assert Descends(path[i], path[i + 1]);
          }
          return;
        }
        assert children[cur] <= children.Keys by {
          forall x | x in children[cur] ensures x in children.Keys {
            assert x !in unexplored;
          }
        }
        var next := UctSelect(cur);
        cur := next;
      }
    }

    /** Along a path of recorded children the height falls strictly. */
    lemma {:induction false} LinkedHeights(path: seq<Node>, i: nat, j: nat)
      requires Valid()
      requires Linked(path)
      requires i < j < |path|
      ensures game.height(path[j]) < game.height(path[i])
      decreases j - i
    {
      assert path[j - 1] in children && path[j] in children[path[j - 1]];
      if j > i + 1 {
        LinkedHeights(path, i, j - 1);
      }
    }

    /** A path of recorded children visits no node twice. */
    lemma LinkedDistinct(path: seq<Node>)
      requires Valid()
      requires Linked(path)
      ensures Distinct(path)
    {
      forall i, j | 0 <= i < j < |path| ensures path[i] != path[j] {
        LinkedHeights(path, i, j);
      }
    }

    /**
     * `_simulate`: play random moves to the end, at most `fuel` rounds; the
     * result is the terminal reward after an odd number of rounds and one
     * minus it after an even number. `None` when the loop is still running
     * after `fuel` rounds.
     */
    method Simulate(node: Node, seed: nat, fuel: nat) returns (r: Option<int>)
      ensures r == if Simulation(game, node, seed, fuel).Some?
                   then Some(PlayoutReward(game, Simulation(game, node, seed, fuel).value))
                   else None
    {
      var invert := true;
      var cur := node;
      var s := seed;
      var f := fuel;
      ghost var k := 0;
      while true
        invariant s == seed + k && f + k == fuel
        invariant invert == (k % 2 == 0)
        invariant Simulation(game, node, seed, fuel) ==
          if Simulation(game, cur, s, f).Some?
          then Some(Playout(Simulation(game, cur, s, f).value.last, Simulation(game, cur, s, f).value.rounds + k))
          else None
        decreases f
      {
        if game.isTerminal(cur) {
          var reward := game.reward(cur);
          return Some(if invert then 1 - reward else reward);
        }
        if f == 0 {
          return None;
        }
        var next := game.randomChild(cur, s);
        if next.Some? {
          cur := next.value;
        }
        invert := !invert;
        s := s + 1;
        f := f - 1;
        k := k + 1;
      }
    }

    /**
     * `_backpropagate`: every node on the path gains one visit per
     * occurrence, and the rewards credited alternate from the leaf upwards.
     */
    method Backpropagate(path: seq<Node>, reward: int)
      modifies this
      ensures forall n :: Visits(n) == old(Visits(n)) + Count(path, n)
      ensures forall n :: Total(n) == old(Total(n)) + Gain(path, n, reward)
      ensures children == old(children) && tmp == old(tmp)
    {
      var i := |path|;
      var r := reward;
      while i > 0
        invariant 0 <= i <= |path|
        invariant r == RewardAt(reward, |path| - i)
        invariant forall n :: Visits(n) == old(Visits(n)) + Count(path[i..], n)
        invariant forall n :: Total(n) == old(Total(n)) + Gain(path[i..], n, reward)
        invariant children == old(children) && tmp == old(tmp)
      {
        var node := path[i - 1];
        assert path[i - 1..][1..] == path[i..];
        N := N[node := Visits(node) + 1];
        Q := Q[node := Total(node) + r];
        r := 1 - r;
        i := i - 1;
      }
    }

    /**
     * The first half of `do_rollout`: `_select` from `node`, then `_expand`
     * the last node of the path.
     */
    method SelectExpand(node: Node) returns (path: seq<Node>)
      requires Valid()
      modifies this
      ensures |path| > 0 && path[0] == node && Distinct(path)
      ensures old(Linked(path)) && Linked(path)
      ensures path[|path| - 1] !in old(children) || old(children[path[|path| - 1]]) == {}
      ensures children == if path[|path| - 1] in old(children) then old(children)
                          else old(children)[path[|path| - 1] := game.findChildren(path[|path| - 1])]
      ensures Q == old(Q) && N == old(N) && tmp == old(tmp)
      ensures game.height(path[|path| - 1]) <= game.height(node)
      ensures node in children
      ensures forall n :: n in children ==> children[n] == game.findChildren(n)
      ensures forall n :: n in children && n != path[|path| - 1] ==> Visits(n) > 0
    {
      path := Select(node);
      LinkedDistinct(path);
      if |path| > 1 {
        LinkedHeights(path, 0, |path| - 1);
        assert path[0] in children;
      }
      Expand(path[|path| - 1]);
      assert forall n :: n in children ==> n == path[|path| - 1] || n in old(children);
    }

    /**
     * `do_rollout`: one more rollout from `node`, with the simulation cut off
     * after `fuel` rounds. `path` is what `_select` returns and `reward` what
     * `_simulate` returns for its last node; when the simulation ends every
     * node gains a visit per occurrence on the path and the alternating
     * reward, and when it does not (`ended` false) no `Q` or `N` changes.
     * The last node of the path is expanded and no other expansion changes.
     */
    method DoRollout(node: Node, seed: nat, fuel: nat) returns (ended: bool, ghost path: seq<Node>, ghost reward: int)
      requires Valid()
      modifies this
      ensures ended ==> Valid()
      ensures tmp == old(tmp) + 1
      ensures |path| > 0 && path[0] == node && old(Linked(path))
      ensures path[|path| - 1] !in old(children) || old(children[path[|path| - 1]]) == {}
      ensures children == if path[|path| - 1] in old(children) then old(children)
                          else old(children)[path[|path| - 1] := game.findChildren(path[|path| - 1])]
      ensures game.height(path[|path| - 1]) <= game.height(node)
      ensures ended <==> Simulation(game, path[|path| - 1], seed, fuel).Some?
      ensures ended ==> reward == PlayoutReward(game, Simulation(game, path[|path| - 1], seed, fuel).value)
      ensures ended ==> forall n :: Visits(n) == old(Visits(n)) + Count(path, n)
      ensures ended ==> forall n :: Total(n) == old(Total(n)) + Gain(path, n, reward)
      ensures ended ==> Visits(node) == old(Visits(node)) + 1 && node in children
      ensures !ended ==> N == old(N) && Q == old(Q)
    {
      tmp := tmp + 1;
      var visited := SelectExpand(node);
      path := visited;
      var leaf := visited[|visited| - 1];
      var r := Simulate(leaf, seed, fuel);
      if r.None? {
        ended := false;
        reward := 0;
        return;
      }
      ended := true;
      reward := r.value;
      Backpropagate(visited, r.value);
      CountDistinctOne(visited, 0);
      CountDistinctOne(visited, |visited| - 1);
    }
  }

  /**
   * `machine_decision`: 300 rollouts from the board, then `choose`. The board
   * is expanded by then, so the answer is never a random child: it is a child
   * of highest average reward, or an error for a terminal or childless board.
   * A rollout whose simulation does not end within `fuel` rounds stands for
   * the source never returning (`ended` false); that cannot happen when no
   * draw fails and `fuel` covers the board's height.
   */
  method MachineDecision<Node(==,!new)>(tree: MCTS<Node>, board: Node, seeds: seq<nat>, fuel: nat, draw: nat)
    returns (ended: bool, r: Result<Node, string>)
    requires tree.Valid() && |seeds| == 300
    modifies tree
    ensures NeverFails(tree.game) && tree.game.height(board) <= fuel ==> ended
    ensures !ended ==> r == Err(SimulationRunsOn)
    ensures ended ==>
      && tree.Valid()
      && tree.tmp == old(tree.tmp) + 300
      && tree.Visits(board) == old(tree.Visits(board)) + 300
      && (tree.game.isTerminal(board) || tree.game.findChildren(board) == {} <==> r.Err?)
    ensures r.Ok? ==>
      && r.value in tree.game.findChildren(board)
      && (forall m :: m in tree.game.findChildren(board) ==> MeanGe(tree.Score(r.value), tree.Score(m)))
  {
    var i := 0;
    while i < 300
      invariant 0 <= i <= 300
      invariant tree.Valid()
      invariant tree.tmp == old(tree.tmp) + i
      invariant tree.Visits(board) == old(tree.Visits(board)) + i
      invariant i > 0 ==> board in tree.children
    {
      assert WellFormed(tree.game);
      var rolled, path, reward := tree.DoRollout(board, seeds[i], fuel);
      if !rolled {
        SimulationEnds(tree.game, path[|path| - 1], seeds[i], fuel);
        return false, Err(SimulationRunsOn);
      }
      i := i + 1;
    }
    ended := true;
    r := tree.Choose(board, draw);
  }
}
