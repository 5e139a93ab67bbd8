/** The selection rule of the weighted round-robin balancer, on values: the two
    persistent counters form a cursor, one iteration of the selection loop is
    `Advance`, and a selection runs `Advance` until it lands on a server whose
    weight reaches the cursor's weight. */
module WeightedRoundRobin {
  import opened Basics

  datatype Cursor = Cursor(index: nat, weight: int)

  function Max(w: seq<int>): (m: int)
    requires |w| > 0
    ensures m in w
    ensures forall i :: 0 <= i < |w| ==> w[i] <= m
  {
    if |w| == 1 then w[0] else
      var rest := Max(w[1..]);
      assert w == [w[0]] + w[1..];
      if rest >= w[0] then rest else w[0]
  }

  function Sum(w: seq<int>): int {
    if w == [] then 0 else w[0] + Sum(w[1..])
  }

  function Advance(w: seq<int>, c: Cursor): Cursor
    requires |w| > 0
  {
    var index := (c.index + 1) % |w|;
    if index != 0 then Cursor(index, c.weight) else
    var lowered := if c.weight - 1 > 0 then c.weight - 1 else 0;
    Cursor(0, if lowered <= 0 then Max(w) else lowered)
  }

  predicate Hit(w: seq<int>, c: Cursor)
    requires c.index < |w|
  {
    w[c.index] >= c.weight
  }

  // ---------------------------------------------------------------------------
  // Termination, for every non-empty list of integer weights and every cursor
  // ---------------------------------------------------------------------------

  /** How many times the index must wrap before the cursor's weight is at most
      the largest weight. */
  function Rounds(w: seq<int>, weight: int): nat
    requires |w| > 0
  {
    var floor := if Max(w) > 0 then Max(w) else 0;
    if weight <= Max(w) then 0
    else if weight - floor > 1 then weight - floor
    else 1
  }

  function FirstMax(w: seq<int>): (k: nat)
    requires |w| > 0
    ensures k < |w| && w[k] == Max(w)
  {
    IndexOf(w, Max(w))
  }

  function IndexOf(w: seq<int>, x: int): (k: nat)
    requires x in w
    ensures k < |w| && w[k] == x
  {
    if w[0] == x then 0 else 1 + IndexOf(w[1..], x)
  }

  /** An upper bound on the iterations that remain. */
  function Rank(w: seq<int>, c: Cursor): nat
    requires |w| > 0
  {
    RankAt(w, c.weight, c.index % |w|)
  }

  lemma NextIndex(i: nat, n: nat)
    requires n > 0
    ensures (i + 1) % n == if i % n == n - 1 then 0 else i % n + 1
  {
    var r := (i + 1) % n;
    var d := (i + 1) / n - i / n;
    assert n * d == i % n + 1 - r by {
      assert i + 1 == n * ((i + 1) / n) + r && i == n * (i / n) + i % n;
    }
    assert d >= 2 ==> n * d >= 2 * n;
    assert d < 0 ==> n * d + n <= 0;
  }

  /** `Advance` with the remainder written out as a wrap. */
  lemma AdvanceWraps(w: seq<int>, c: Cursor)
    requires |w| > 0
    ensures var i, c' := c.index % |w|, Advance(w, c);
            && (i < |w| - 1 ==> c' == Cursor(i + 1, c.weight))
            && (i == |w| - 1 ==> c' == Cursor(0, if c.weight - 1 > 0 then c.weight - 1 else Max(w)))
  {
    NextIndex(c.index, |w|);
  }

  lemma SmallMod(i: nat, n: nat)
    requires i < n
    ensures i % n == i
  {
  }

  lemma RankDecreases(w: seq<int>, c: Cursor)
    requires |w| > 0
    requires !Hit(w, Advance(w, c))
    ensures Rank(w, Advance(w, c)) < Rank(w, c)
  {
    AdvanceWraps(w, c);
    var c' := Advance(w, c);
    SmallMod(c'.index, |w|);
    RankDecreasesFrom(w, c.weight, c.index % |w|, c');
  }

  /** `Rank` of a cursor with weight `weight` whose index is `i` modulo the length. */
  function RankAt(w: seq<int>, weight: int, i: nat): nat
    requires i < |w|
  {
    RankValue(|w|, FirstMax(w), Rounds(w, weight), i)
  }

  /** The rank for `n` servers of which `m` is the first of the largest weight. */
  function RankValue(n: nat, m: nat, rounds: nat, i: nat): nat
    requires i < n && m < n
  {
    if rounds == 0 then
      if i < m then m - i else m - i + n
    else
      (n - i) + Times(rounds - 1, n) + m
  }

  /** The product, as a sum, so that a step of it is a step of addition. */
  function Times(k: nat, n: nat): nat {
    if k == 0 then 0 else n + Times(k - 1, n)
  }

  lemma {:induction false} TimesIsProduct(k: nat, n: nat)
    ensures Times(k, n) == k * n
  {
    if k > 0 {
      TimesIsProduct(k - 1, n);
      assert k * n == (k - 1) * n + n;
    }
  }

  /** The next index has a lower rank, unless it is `m` with no round to go. */
  lemma RankFallsInRound(n: nat, m: nat, rounds: nat, i: nat)
    requires i < n - 1 && m < n && (rounds == 0 ==> i + 1 != m)
    ensures RankValue(n, m, rounds, i + 1) < RankValue(n, m, rounds, i)
  {
  }

  /** So does a wrap, which uses up a round. */
  lemma RankFallsAtWrap(n: nat, m: nat, rounds: nat)
    requires 0 < n && m < n && (rounds <= 1 ==> m != 0)
    ensures RankValue(n, m, if rounds == 0 then 0 else rounds - 1, 0) < RankValue(n, m, rounds, n - 1)
  {
  }

  lemma RoundsFall(w: seq<int>, weight: int)
    requires |w| > 0
    ensures Rounds(w, if weight - 1 > 0 then weight - 1 else Max(w)) ==
            if Rounds(w, weight) == 0 then 0 else Rounds(w, weight) - 1
  {
  }

  lemma RankDecreasesFrom(w: seq<int>, weight: int, i: nat, c: Cursor)
    requires i < |w|
    requires i < |w| - 1 ==> c == Cursor(i + 1, weight)
    requires i == |w| - 1 ==> c == Cursor(0, if weight - 1 > 0 then weight - 1 else Max(w))
    requires !Hit(w, c)
    ensures RankAt(w, c.weight, c.index) < RankAt(w, weight, i)
  {
    var m := FirstMax(w);
    assert Rounds(w, c.weight) == 0 ==> c.index != m;
    if i < |w| - 1 {
      RankFallsInRound(|w|, m, Rounds(w, weight), i);
    } else {
      RoundsFall(w, weight);
      RankFallsAtWrap(|w|, m, Rounds(w, weight));
    }
  }

  /** The cursor a selection leaves behind; its index is the chosen server. */
  function Select(w: seq<int>, c: Cursor): (r: Cursor)
    requires |w| > 0
    ensures r.index < |w| && w[r.index] >= r.weight
    decreases Rank(w, c)
  {
    var next := Advance(w, c);
    if Hit(w, next) then next else
    RankDecreases(w, c);
    Select(w, next)
  }

  /** The iterations one selection takes. */
  function Iterations(w: seq<int>, c: Cursor): nat
    requires |w| > 0
    decreases Rank(w, c)
  {
    var next := Advance(w, c);
    if Hit(w, next) then 1 else
    RankDecreases(w, c);
    1 + Iterations(w, next)
  }

  lemma RankAtBounded(w: seq<int>, weight: int, i: nat)
    requires i < |w|
    ensures RankAt(w, weight, i) <= |w| * (1 + Rounds(w, weight))
  {
    var n, rounds := |w|, Rounds(w, weight);
    TimesIsProduct(1 + rounds, n);
    assert n * (1 + rounds) == Times(1 + rounds, n);
    assert rounds > 0 ==> Times(1 + rounds, n) == n + (n + Times(rounds - 1, n));
  }

  /** Selection always ends, whatever list the counters were left by. */
  lemma SelectionIsBounded(w: seq<int>, c: Cursor)
    requires |w| > 0
    ensures Iterations(w, c) <= |w| * (1 + Rounds(w, c.weight))
  {
    IterationsWithinRank(w, c);
    RankAtBounded(w, c.weight, c.index % |w|);
  }

  lemma {:induction false} IterationsWithinRank(w: seq<int>, c: Cursor)
    requires |w| > 0
    ensures Iterations(w, c) <= Rank(w, c)
    decreases Rank(w, c)
  {
    if !Hit(w, Advance(w, c)) {
      RankDecreases(w, c);
      IterationsWithinRank(w, Advance(w, c));
    }
  }

  // ---------------------------------------------------------------------------
  // Runs of selections, and of loop iterations
  // ---------------------------------------------------------------------------

  /** The servers chosen by the next `k` selections. */
  function Selections(w: seq<int>, c: Cursor, k: nat): seq<nat>
    requires |w| > 0
    decreases k
  {
    if k == 0 then [] else
    var r := Select(w, c);
    [r.index] + Selections(w, r, k - 1)
  }

  function AfterSelections(w: seq<int>, c: Cursor, k: nat): Cursor
    requires |w| > 0
    decreases k
  {
    if k == 0 then c else AfterSelections(w, Select(w, c), k - 1)
  }

  lemma {:induction false} SelectionsSplit(w: seq<int>, c: Cursor, a: nat, b: nat)
    requires |w| > 0
    ensures Selections(w, c, a + b) == Selections(w, c, a) + Selections(w, AfterSelections(w, c, a), b)
    decreases a
  {
    if a > 0 {
      SelectionsSplit(w, Select(w, c), a - 1, b);
    }
  }

  /** The servers hit during the next `t` loop iterations. */
  function HitsIn(w: seq<int>, c: Cursor, t: nat): seq<nat>
    requires |w| > 0
    decreases t
  {
    if t == 0 then [] else
    var next := Advance(w, c);
    (if Hit(w, next) then [next.index] else []) + HitsIn(w, next, t - 1)
  }

  function AdvanceBy(w: seq<int>, c: Cursor, t: nat): Cursor
    requires |w| > 0
    decreases t
  {
    if t == 0 then c else AdvanceBy(w, Advance(w, c), t - 1)
  }

  /** None of the iterations before the last lands on a server whose weight reaches
      the cursor's. */
  ghost predicate NoneBefore(w: seq<int>, c: Cursor, t: nat)
    requires |w| > 0
  {
    forall s :: 1 <= s < t ==>
      var d := AdvanceBy(w, c, s);
      d.index < |w| && w[d.index] < d.weight
  }

  /** A selection stops at the first iteration, counted from whatever cursor was left
      behind, that lands on a server whose weight reaches the cursor's. */
  lemma {:induction false} SelectIsFirst(w: seq<int>, c: Cursor) returns (t: nat)
    requires |w| > 0
    ensures t >= 1 && Select(w, c) == AdvanceBy(w, c, t)
    ensures Select(w, c).index < |w| && w[Select(w, c).index] >= Select(w, c).weight
    ensures NoneBefore(w, c, t)
    decreases Rank(w, c)
  {
    var next := Advance(w, c);
    assert AdvanceBy(w, c, 1) == AdvanceBy(w, next, 0) == next;
    if w[next.index] >= next.weight {
      t := 1;
    } else {
      RankDecreases(w, c);
      t := SelectIsFirst(w, next);
      forall s | 1 <= s < t + 1
        ensures AdvanceBy(w, c, s).index < |w| && w[AdvanceBy(w, c, s).index] < AdvanceBy(w, c, s).weight
      {
        assert AdvanceBy(w, c, s) == AdvanceBy(w, next, s - 1);
      }
      t := t + 1;
    }
  }

  /** And only that one: no other iteration has this property. */
  lemma FirstIsSelect(w: seq<int>, c: Cursor, t: nat)
    requires |w| > 0 && t >= 1 && NoneBefore(w, c, t)
    requires AdvanceBy(w, c, t).index < |w| && w[AdvanceBy(w, c, t).index] >= AdvanceBy(w, c, t).weight
    ensures Select(w, c) == AdvanceBy(w, c, t)
  {
    var first := SelectIsFirst(w, c);
  }

  lemma {:induction false} HitsSplit(w: seq<int>, c: Cursor, a: nat, b: nat)
    requires |w| > 0
    ensures HitsIn(w, c, a + b) == HitsIn(w, c, a) + HitsIn(w, AdvanceBy(w, c, a), b)
    decreases a
  {
    if a > 0 {
      HitsSplit(w, Advance(w, c), a - 1, b);
    }
  }

  lemma {:induction false} AdvanceBySplit(w: seq<int>, c: Cursor, a: nat, b: nat)
    requires |w| > 0
    ensures AdvanceBy(w, c, a + b) == AdvanceBy(w, AdvanceBy(w, c, a), b)
    decreases a
  {
    if a > 0 {
      AdvanceBySplit(w, Advance(w, c), a - 1, b);
    }
  }

  /** Selections are exactly the hits along the iterations. */
  lemma {:induction false} SelectionsAreHits(w: seq<int>, c: Cursor, t: nat)
    requires |w| > 0
    ensures Selections(w, c, |HitsIn(w, c, t)|) == HitsIn(w, c, t)
    decreases t
  {
    if t > 0 {
      SelectionsAreHits(w, Advance(w, c), t - 1);
    }
  }

  lemma {:induction false} HitsInRange(w: seq<int>, c: Cursor, t: nat)
    requires |w| > 0
    ensures forall x :: x in HitsIn(w, c, t) ==> x < |w|
    decreases t
  {
    if t > 0 {
      HitsInRange(w, Advance(w, c), t - 1);
    }
  }

  // ---------------------------------------------------------------------------
  // Fairness: one cycle visits every pair of a server and a weight in 1..max
  // ---------------------------------------------------------------------------

  predicate NonNegative(w: seq<int>) {
    forall i :: 0 <= i < |w| ==> w[i] >= 0
  }

  /** Non-negative weights that are not all zero. */
  predicate Usable(w: seq<int>) {
    |w| > 0 && NonNegative(w) && Max(w) > 0
  }

  predicate InCycle(w: seq<int>, c: Cursor)
    requires Usable(w)
  {
    c.index < |w| && 1 <= c.weight <= Max(w)
  }

  /** Iterations left until the cycle's last pair, (last server, weight 1). */
  function Left(w: seq<int>, c: Cursor): nat
    requires Usable(w) && InCycle(w, c)
    decreases c.weight
  {
    if c.weight == 1 then |w| - 1 - c.index else |w| + Left(w, Cursor(c.index, c.weight - 1))
  }

  lemma {:induction false} LeftFromIndex(w: seq<int>, c: Cursor)
    requires Usable(w) && InCycle(w, c)
    ensures Left(w, c) == Left(w, Cursor(0, c.weight)) - c.index
    decreases c.weight
  {
    if c.weight > 1 {
      LeftFromIndex(w, Cursor(c.index, c.weight - 1));
    }
  }

  /** Hits of server `i` left in the cycle. */
  function HitsLeft(w: seq<int>, c: Cursor, i: nat): nat
    requires Usable(w) && InCycle(w, c) && i < |w|
  {
    (if i > c.index && w[i] >= c.weight then 1 else 0) + (if w[i] < c.weight - 1 then w[i] else c.weight - 1)
  }

  lemma AdvanceInCycle(w: seq<int>, c: Cursor)
    requires Usable(w) && InCycle(w, c)
    ensures InCycle(w, Advance(w, c))
    ensures Advance(w, c) ==
            if c.index < |w| - 1 then Cursor(c.index + 1, c.weight)
            else if c.weight > 1 then Cursor(0, c.weight - 1)
            else Cursor(0, Max(w))
  {
    AdvanceWraps(w, c);
    SmallMod(c.index, |w|);
  }

  lemma LeftStep(w: seq<int>, c: Cursor)
    requires Usable(w) && InCycle(w, c)
    requires Left(w, c) > 0
    ensures InCycle(w, Advance(w, c)) && Left(w, Advance(w, c)) == Left(w, c) - 1
  {
    AdvanceInCycle(w, c);
    LeftFromIndex(w, c);
    LeftFromIndex(w, Advance(w, c));
    if c.index == |w| - 1 {
      LeftFromIndex(w, Cursor(c.index, c.weight - 1));
    }
  }

  lemma HitsLeftStep(w: seq<int>, c: Cursor, i: nat)
    requires Usable(w) && InCycle(w, c) && i < |w|
    requires c != Cursor(|w| - 1, 1)
    ensures InCycle(w, Advance(w, c))
    ensures HitsLeft(w, c, i) == HitsLeft(w, Advance(w, c), i) + Count(HitsIn(w, c, 1), i)
  {
    AdvanceInCycle(w, c);
    assert HitsIn(w, Advance(w, c), 0) == [];
    var next := Advance(w, c);
    assert HitsIn(w, c, 1) == if Hit(w, next) then [next.index] else [];
  }

  lemma LeftZero(w: seq<int>, c: Cursor)
    requires Usable(w) && InCycle(w, c)
    ensures Left(w, c) == 0 <==> c == Cursor(|w| - 1, 1)
  {
  }

  lemma {:induction false} ToEnd(w: seq<int>, c: Cursor, i: nat)
    requires Usable(w) && InCycle(w, c) && i < |w|
    ensures AdvanceBy(w, c, Left(w, c)) == Cursor(|w| - 1, 1)
    ensures Count(HitsIn(w, c, Left(w, c)), i) == HitsLeft(w, c, i)
    decreases Left(w, c)
  {
    LeftZero(w, c);
    if Left(w, c) > 0 {
      LeftStep(w, c);
      HitsLeftStep(w, c, i);
      ToEnd(w, Advance(w, c), i);
      HitsSplit(w, c, 1, Left(w, c) - 1);
      CountConcat(HitsIn(w, c, 1), HitsIn(w, Advance(w, c), Left(w, c) - 1), i);
    }
  }

  /** Every cursor of the cycle lies on the path from the cycle's first pair. */
  lemma {:induction false} FromStart(w: seq<int>, c: Cursor)
    requires Usable(w) && InCycle(w, c)
    ensures var first := Cursor(0, Max(w));
            Left(w, c) <= Left(w, first) && AdvanceBy(w, first, Left(w, first) - Left(w, c)) == c
    decreases Max(w) - c.weight, c.index
  {
    var first := Cursor(0, Max(w));
    if c == first {
    } else {
      var prev := if c.index > 0 then Cursor(c.index - 1, c.weight) else Cursor(|w| - 1, c.weight + 1);
      FromStart(w, prev);
      AdvanceInCycle(w, prev);
      LeftZero(w, prev);
      LeftStep(w, prev);
      AdvanceBySplit(w, first, Left(w, first) - Left(w, prev), 1);
      assert AdvanceBy(w, prev, 1) == AdvanceBy(w, Advance(w, prev), 0);
    }
  }

  /** From the last pair of the cycle, `b` iterations past its first pair. */
  lemma OverSeam(w: seq<int>, b: nat, i: nat)
    requires Usable(w) && i < |w|
    ensures Count(HitsIn(w, Cursor(|w| - 1, 1), 1 + b), i) ==
            (if i == 0 && w[0] >= Max(w) then 1 else 0) + Count(HitsIn(w, Cursor(0, Max(w)), b), i)
  {
    var last := Cursor(|w| - 1, 1);
    AdvanceInCycle(w, last);
    HitsSplit(w, last, 1, b);
    assert HitsIn(w, Cursor(0, Max(w)), 0) == [];
    assert AdvanceBy(w, last, 1) == AdvanceBy(w, Cursor(0, Max(w)), 0);
    CountConcat(HitsIn(w, last, 1), HitsIn(w, Cursor(0, Max(w)), b), i);
  }

  lemma CountHitsSplit(w: seq<int>, c: Cursor, a: nat, b: nat, i: nat)
    requires |w| > 0
    ensures Count(HitsIn(w, c, a + b), i) == Count(HitsIn(w, c, a), i) + Count(HitsIn(w, AdvanceBy(w, c, a), b), i)
  {
    HitsSplit(w, c, a, b);
    CountConcat(HitsIn(w, c, a), HitsIn(w, AdvanceBy(w, c, a), b), i);
  }

  /** If `c` lies `b` iterations after the cycle's first pair and `a` before its
      last, a round trip from `c` hits what the path from first to last does,
      and the first pair itself. */
  lemma RoundTrip(w: seq<int>, c: Cursor, a: nat, b: nat, i: nat)
    requires Usable(w) && i < |w|
    requires AdvanceBy(w, c, a) == Cursor(|w| - 1, 1)
    requires AdvanceBy(w, Cursor(0, Max(w)), b) == c
    ensures Count(HitsIn(w, c, a + (1 + b)), i) ==
            Count(HitsIn(w, Cursor(0, Max(w)), b + a), i) + if i == 0 && w[0] >= Max(w) then 1 else 0
  {
    CountHitsSplit(w, c, a, 1 + b, i);
    OverSeam(w, b, i);
    CountHitsSplit(w, Cursor(0, Max(w)), b, a, i);
  }

  lemma CycleCount(w: seq<int>, c: Cursor, i: nat, a: nat, total: nat)
    requires Usable(w) && i < |w| && a <= total
    requires AdvanceBy(w, c, a) == Cursor(|w| - 1, 1)
    requires AdvanceBy(w, Cursor(0, Max(w)), total - a) == c
    requires Count(HitsIn(w, Cursor(0, Max(w)), total), i) == HitsLeft(w, Cursor(0, Max(w)), i)
    ensures Count(HitsIn(w, c, total + 1), i) == w[i]
  {
    RoundTrip(w, c, a, total - a, i);
    assert a + (1 + (total - a)) == total + 1 && (total - a) + a == total;
  }

  /** A whole cycle of iterations, started anywhere in it, hits server `i`
      exactly `w[i]` times. */
  lemma CycleIsFair(w: seq<int>, c: Cursor, i: nat)
    requires Usable(w) && InCycle(w, c) && i < |w|
    ensures Count(HitsIn(w, c, Left(w, Cursor(0, Max(w))) + 1), i) == w[i]
  {
    var a, total := PlaceInCycle(w, c, i);
    CycleCount(w, c, i, a, total);
  }

  /** How far `c` is from the end of the cycle, and how long the cycle is. */
  lemma PlaceInCycle(w: seq<int>, c: Cursor, i: nat) returns (a: nat, total: nat)
    requires Usable(w) && InCycle(w, c) && i < |w|
    ensures total == Left(w, Cursor(0, Max(w))) && a <= total
    ensures AdvanceBy(w, c, a) == Cursor(|w| - 1, 1)
    ensures AdvanceBy(w, Cursor(0, Max(w)), total - a) == c
    ensures Count(HitsIn(w, Cursor(0, Max(w)), total), i) == HitsLeft(w, Cursor(0, Max(w)), i)
  {
    a, total := Left(w, c), Left(w, Cursor(0, Max(w)));
    FromStart(w, c);
    ToEnd(w, c, i);
    ToEnd(w, Cursor(0, Max(w)), i);
  }

  function CountsBelow(s: seq<nat>, n: nat): nat {
    if n == 0 then 0 else
    var i: nat := n - 1;
    CountsBelow(s, i) + Count(s, i)
  }

  lemma {:induction false} CountsBelowStep(s: seq<nat>, n: nat)
    requires s != []
    ensures CountsBelow(s, n) == CountsBelow(s[1..], n) + if s[0] < n then 1 else 0
  {
    if n > 0 {
      CountsBelowStep(s, n - 1);
    }
  }

  lemma {:induction false} LengthIsSumOfCounts(s: seq<nat>, n: nat)
    requires forall x :: x in s ==> x < n
    ensures |s| == CountsBelow(s, n)
  {
    if s == [] {
      NoCounts(n);
    } else {
      CountsBelowStep(s, n);
      assert s[0] in s && forall x :: x in s[1..] ==> x in s;
      LengthIsSumOfCounts(s[1..], n);
    }
  }

  lemma {:induction false} NoCounts(n: nat)
    ensures CountsBelow([], n) == 0
  {
    if n > 0 {
      NoCounts(n - 1);
    }
  }

  lemma {:induction false} SumLast(w: seq<int>)
    requires |w| > 0
    ensures Sum(w) == Sum(w[..|w| - 1]) + w[|w| - 1]
  {
    if |w| > 1 {
      SumLast(w[1..]);
      assert w[1..][..|w| - 2] == w[..|w| - 1][1..];
    }
  }

  lemma {:induction false} CountsMatchWeights(s: seq<nat>, w: seq<int>, n: nat)
    requires n <= |w|
    requires forall i: nat :: i < n ==> Count(s, i) == w[i]
    ensures CountsBelow(s, n) == Sum(w[..n])
  {
    if n > 0 {
      CountsMatchWeights(s, w, n - 1);
      SumLast(w[..n]);
      assert w[..n][..n - 1] == w[..n - 1];
    }
  }

  lemma {:induction false} SumNonNegative(w: seq<int>)
    requires NonNegative(w)
    ensures Sum(w) >= 0
  {
    if w != [] {
      SumNonNegative(w[1..]);
    }
  }

  /** From any cursor with weight in 1..max, the next `Sum(w)` selections choose
      every server `i` exactly `w[i]` times, and leave such a cursor again. */
  lemma WindowIsFair(w: seq<int>, c: Cursor, i: nat)
    requires Usable(w) && InCycle(w, c) && i < |w|
    ensures Sum(w) >= 0
    ensures Count(Selections(w, c, Sum(w)), i) == w[i]
  {
    var t := Left(w, Cursor(0, Max(w))) + 1;
    var hits := HitsIn(w, c, t);
    forall j: nat | j < |w| ensures Count(hits, j) == w[j] {
      CycleIsFair(w, c, j);
    }
    HitsInRange(w, c, t);
    LengthIsSumOfCounts(hits, |w|);
    CountsMatchWeights(hits, w, |w|);
    assert w[..|w|] == w;
    SelectionsAreHits(w, c, t);
  }

  lemma {:induction false} SelectInCycle(w: seq<int>, c: Cursor)
    requires Usable(w) && InCycle(w, c)
    ensures InCycle(w, Select(w, c))
    decreases Rank(w, c)
  {
    AdvanceInCycle(w, c);
    if !Hit(w, Advance(w, c)) {
      RankDecreases(w, c);
      SelectInCycle(w, Advance(w, c));
    }
  }

  lemma {:induction false} AfterSelectionsInCycle(w: seq<int>, c: Cursor, k: nat)
    requires Usable(w) && InCycle(w, c)
    ensures InCycle(w, AfterSelections(w, c, k))
    decreases k
  {
    if k > 0 {
      SelectInCycle(w, c);
      AfterSelectionsInCycle(w, Select(w, c), k - 1);
    }
  }

  /** Any window of `k * Sum(w)` selections gives server `i` exactly `k * w[i]`. */
  lemma {:induction false} WindowsAreFair(w: seq<int>, c: Cursor, k: nat, i: nat)
    requires Usable(w) && InCycle(w, c) && i < |w|
    ensures k * Sum(w) >= 0
    ensures Count(Selections(w, c, k * Sum(w)), i) == k * w[i]
    decreases k
  {
    SumNonNegative(w);
    if k > 0 {
      var c' := AfterSelections(w, c, Sum(w));
      AfterSelectionsInCycle(w, c, Sum(w));
      WindowIsFair(w, c, i);
      WindowsAreFair(w, c', k - 1, i);
      assert k * Sum(w) == Sum(w) + (k - 1) * Sum(w);
      SelectionsSplit(w, c, Sum(w), (k - 1) * Sum(w));
      CountConcat(Selections(w, c, Sum(w)), Selections(w, c', (k - 1) * Sum(w)), i);
      assert k * w[i] == w[i] + (k - 1) * w[i];
    }
  }

  // ---------------------------------------------------------------------------
  // Fairness from the reset counters (0, 0)
  // ---------------------------------------------------------------------------

  /** A selection that hits at once, and the ones after it. */
  lemma SelectAtOnce(w: seq<int>, c: Cursor, next: Cursor, k: nat)
    requires |w| > 0 && next == Advance(w, c) && Hit(w, next)
    ensures Selections(w, c, k + 1) == [next.index] + Selections(w, next, k)
    ensures AfterSelections(w, c, k + 1) == AfterSelections(w, next, k)
  {
  }

  lemma CountCons(x: nat, s: seq<nat>, i: nat)
    ensures Count([x] + s, i) == Count(s, i) + if x == i then 1 else 0
  {
    assert ([x] + s)[1..] == s;
  }

  /** With weight 0 the cursor takes the remaining servers one after another. */
  lemma {:induction false} FirstPass(w: seq<int>, j: nat, i: nat)
    requires Usable(w) && j < |w| && i < |w|
    ensures AfterSelections(w, Cursor(j, 0), |w| - 1 - j) == Cursor(|w| - 1, 0)
    ensures Count(Selections(w, Cursor(j, 0), |w| - 1 - j), i) == if i > j then 1 else 0
    decreases |w| - j
  {
    if j < |w| - 1 {
      AdvanceWraps(w, Cursor(j, 0));
      SmallMod(j, |w|);
      FirstPass(w, j + 1, i);
      SelectAtOnce(w, Cursor(j, 0), Cursor(j + 1, 0), |w| - 2 - j);
      CountCons(j + 1, Selections(w, Cursor(j + 1, 0), |w| - 2 - j), i);
    }
  }

  /** At the seam a cursor of weight 0 behaves as one of weight 1. */
  lemma SeamJoins(w: seq<int>, k: nat)
    requires Usable(w)
    ensures Selections(w, Cursor(|w| - 1, 0), k) == Selections(w, Cursor(|w| - 1, 1), k)
  {
    AdvanceWraps(w, Cursor(|w| - 1, 0));
    AdvanceWraps(w, Cursor(|w| - 1, 1));
    SmallMod(|w| - 1, |w|);
    assert Advance(w, Cursor(|w| - 1, 0)) == Advance(w, Cursor(|w| - 1, 1));
    assert Select(w, Cursor(|w| - 1, 0)) == Select(w, Cursor(|w| - 1, 1));
  }

  lemma CountSelectionsSplit(w: seq<int>, c: Cursor, a: nat, b: nat, i: nat)
    requires |w| > 0
    ensures Count(Selections(w, c, a + b), i) ==
            Count(Selections(w, c, a), i) + Count(Selections(w, AfterSelections(w, c, a), b), i)
  {
    SelectionsSplit(w, c, a, b);
    CountConcat(Selections(w, c, a), Selections(w, AfterSelections(w, c, a), b), i);
  }

  lemma AfterFirstPass(w: seq<int>, k: nat, i: nat)
    requires Usable(w) && i < |w|
    ensures Count(Selections(w, Cursor(0, 0), |w| - 1 + k), i) ==
            Count(Selections(w, Cursor(|w| - 1, 1), k), i) + if i > 0 then 1 else 0
  {
    var n := |w| - 1;
    FirstPass(w, 0, i);
    SeamJoins(w, k);
    CountThrough(w, Cursor(0, 0), n, Cursor(n, 0), Cursor(n, 1), k, i);
  }

  /** Selections counted through a cursor that goes on like another. */
  lemma CountThrough(w: seq<int>, c: Cursor, a: nat, mid: Cursor, other: Cursor, b: nat, i: nat)
    requires |w| > 0 && AfterSelections(w, c, a) == mid
    requires Selections(w, mid, b) == Selections(w, other, b)
    ensures Count(Selections(w, c, a + b), i) == Count(Selections(w, c, a), i) + Count(Selections(w, other, b), i)
  {
    CountSelectionsSplit(w, c, a, b, i);
  }

  /** After a reset, n - 1 + k * Sum(w) selections have chosen server `i` exactly
      `k * w[i]` times, plus once more for every server but the first. */
  lemma FairFromReset(w: seq<int>, k: nat, i: nat)
    requires Usable(w) && i < |w|
    ensures k * Sum(w) >= 0
    ensures Count(Selections(w, Cursor(0, 0), |w| - 1 + k * Sum(w)), i) == k * w[i] + if i > 0 then 1 else 0
  {
    WindowsAreFair(w, Cursor(|w| - 1, 1), k, i);
    AfterFirstPass(w, k * Sum(w), i);
  }

  // ---------------------------------------------------------------------------
  // Plain round robin
  // ---------------------------------------------------------------------------

  /** The remainder, as a wrap. */
  function Wrapped(i: nat, n: nat): (r: nat)
    requires n > 0
    ensures r < n
  {
    if i < n then i else Wrapped(i - n, n)
  }

  lemma {:induction false} WrappedQuotient(i: nat, n: nat) returns (q: nat)
    requires n > 0
    ensures i == q * n + Wrapped(i, n)
  {
    q := 0;
    if i >= n {
      q := WrappedQuotient(i - n, n);
      assert (q + 1) * n == q * n + n;
      q := q + 1;
    }
  }

  lemma WrappedIsRemainder(i: nat, n: nat)
    requires n > 0
    ensures Wrapped(i, n) == i % n
  {
    var q := WrappedQuotient(i, n);
    SameRemainder(i / n, i % n, q, Wrapped(i, n), n);
  }

  lemma SameRemainder(q: int, r: nat, q': int, r': nat, n: nat)
    requires r < n && r' < n && q * n + r == q' * n + r'
    ensures r == r'
  {
    var d := q - q';
    assert d * n == r' - r;
    assert d >= 1 ==> d * n >= n;
    assert d <= -1 ==> d * n <= -1 * n;
  }

  /** The next `t` choices among `n` servers when the shared index is at `start`. */
  function Turns(n: nat, start: nat, t: nat): seq<nat>
    requires n > 0
    decreases t
  {
    if t == 0 then [] else [Wrapped(start, n)] + Turns(n, start + 1, t - 1)
  }

  lemma {:induction false} TurnsExtend(n: nat, start: nat, t: nat)
    requires n > 0
    ensures |Turns(n, start, t)| == t && Turns(n, start, t + 1) == Turns(n, start, t) + [Wrapped(start + t, n)]
    decreases t
  {
    if t > 0 {
      TurnsExtend(n, start + 1, t - 1);
      Regroup([Wrapped(start, n)], Turns(n, start + 1, t - 1), [Wrapped(start + t, n)]);
    } else {
      assert Turns(n, start, 1) == [Wrapped(start, n)] + Turns(n, start + 1, 0);
    }
  }

  lemma {:induction false} TurnsCount(n: nat, start: nat, t: nat, i: nat)
    requires i < n && t <= n
    ensures var r := start % n;
            Count(Turns(n, start, t), i) == if r <= i < r + t || i + n < r + t then 1 else 0
    decreases t
  {
    if t > 0 {
      NextIndex(start, n);
      WrappedIsRemainder(start, n);
      TurnsCount(n, start + 1, t - 1, i);
      assert Turns(n, start, t)[1..] == Turns(n, start + 1, t - 1);
    }
  }

  /** From any index left behind, `n` choices take every one of `n` servers once. */
  lemma RoundRobinIsFair(n: nat, start: nat, i: nat)
    requires i < n
    ensures Count(Turns(n, start, n), i) == 1
  {
    TurnsCount(n, start, n, i);
  }
}
