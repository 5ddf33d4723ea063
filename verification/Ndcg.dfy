/** The ranking score of `eval/agent-memory/compatibility.js`. The logarithm to base two is a parameter of
    which only its value at two and its growth are used. */
module Ndcg {
  import opened Numbers

  type Logarithm = nat -> real

  ghost predicate Log2(log: Logarithm) {
    && log(2) == 1.0
    && forall m: nat, n: nat :: 2 <= m < n ==> log(m) < log(n)
  }

  /** What a gain at this position is worth. */
  function Discount(log: Logarithm, index: nat): real
    requires Log2(log)
  {
    if index == 0 then 1.0
    else
      assert log(index + 1) >= 1.0;
      1.0 / log(index + 1)
  }

  /** The sum over the gains, from the first on. */
  function Dcg(log: Logarithm, gains: seq<bool>): real
    requires Log2(log)
  {
    if gains == [] then 0.0
    else
      var last := |gains| - 1;
      Dcg(log, gains[..last]) + if gains[last] then Discount(log, last) else 0.0
  }

  function Gains(ranked: seq<string>, relevant: set<string>, k: nat): (gains: seq<bool>)
    ensures |gains| == Min(k, |ranked|)
    ensures forall i :: 0 <= i < |gains| ==> gains[i] == (ranked[i] in relevant)
  {
    seq(Min(k, |ranked|), i requires 0 <= i < Min(k, |ranked|) => ranked[i] in relevant)
  }

  function AllGains(n: nat): (gains: seq<bool>)
    ensures |gains| == n
    ensures forall i :: 0 <= i < n ==> gains[i]
  {
    seq(n, _ => true)
  }

  function NdcgAt(log: Logarithm, ranked: seq<string>, relevant: set<string>, k: nat): real
    requires Log2(log)
  {
    var ideal := Dcg(log, AllGains(Min(k, |relevant|)));
    if ideal == 0.0 then 0.0 else Dcg(log, Gains(ranked, relevant, k)) / ideal
  }

  // ---------------------------------------------------------------------------------------
  // Discounts
  // ---------------------------------------------------------------------------------------

  lemma DiscountPositive(log: Logarithm, i: nat)
    requires Log2(log)
    ensures Discount(log, i) > 0.0
  {
  }

  lemma Reciprocal(x: real, y: real)
    requires 0.0 < x < y
    ensures 1.0 / y < 1.0 / x
  {
    assert 1.0 / x - 1.0 / y == (y - x) / (x * y);
  }

  /** Discounts never grow, and after the second position they shrink. */
  lemma DiscountShrinks(log: Logarithm, i: nat, j: nat)
    requires Log2(log) && i <= j
    ensures Discount(log, j) <= Discount(log, i)
    ensures Discount(log, j) == Discount(log, i) <==> i == j || (i == 0 && j == 1)
  {
    if i == 0 && j > 1 {
      Reciprocal(1.0, log(j + 1));
    } else if 0 < i < j {
      assert log(i + 1) >= 1.0;
      Reciprocal(log(i + 1), log(j + 1));
    }
  }

  /** The first position counts in full, every other by the inverse of the logarithm of its number. */
  lemma DiscountInverse(log: Logarithm, i: nat)
    requires Log2(log)
    ensures Discount(log, i) * (if i == 0 then 1.0 else log(i + 1)) == 1.0
  {
  }

  /** The sum of the first `n` discounts. */
  ghost function Ideal(log: Logarithm, n: nat): real
    requires Log2(log)
  {
    if n == 0 then 0.0 else Ideal(log, n - 1) + Discount(log, n - 1)
  }

  lemma {:induction false} IdealIsDcg(log: Logarithm, n: nat)
    requires Log2(log)
    ensures Dcg(log, AllGains(n)) == Ideal(log, n)
  {
    if n > 0 {
      IdealIsDcg(log, n - 1);
      assert AllGains(n)[..n - 1] == AllGains(n - 1);
    }
  }

  lemma {:induction false} IdealGrows(log: Logarithm, m: nat, n: nat)
    requires Log2(log) && m <= n
    ensures Ideal(log, m) <= Ideal(log, n)
    ensures m < n ==> Ideal(log, m) < Ideal(log, n)
  {
    if m < n {
      DiscountPositive(log, n - 1);
      IdealGrows(log, m, n - 1);
    }
  }

  // ---------------------------------------------------------------------------------------
  // The best arrangement
  // ---------------------------------------------------------------------------------------

  ghost function Count(gains: seq<bool>): nat {
    if gains == [] then 0 else Count(gains[..|gains| - 1]) + if gains[|gains| - 1] then 1 else 0
  }

  lemma {:induction false} CountBounded(gains: seq<bool>)
    ensures Count(gains) <= |gains|
    ensures Count(gains) == |gains| <==> forall i :: 0 <= i < |gains| ==> gains[i]
    ensures Count(gains) == 0 <==> forall i :: 0 <= i < |gains| ==> !gains[i]
  {
    if gains != [] {
      var init := gains[..|gains| - 1];
      CountBounded(init);
      assert forall i :: 0 <= i < |init| ==> init[i] == gains[i];
    }
  }

  /** The gains stand as far in front as they can: at the first positions, or a single one at the second
      position, which is worth as much as the first. */
  ghost predicate InFront(gains: seq<bool>) {
    || (forall i :: 0 <= i < |gains| ==> (gains[i] <==> i < Count(gains)))
    || (|gains| >= 2 && Count(gains) == 1 && gains[1])
  }

  /** Moving gains to the front never hurts, and helps unless they are there already. */
  ghost predicate BestInFront(log: Logarithm, gains: seq<bool>)
    requires Log2(log)
  {
    && 0.0 <= Dcg(log, gains) <= Ideal(log, Count(gains))
    && (Dcg(log, gains) == Ideal(log, Count(gains)) <==> InFront(gains))
  }

  lemma DcgSnoc(log: Logarithm, init: seq<bool>, gain: bool)
    requires Log2(log)
    ensures Dcg(log, init + [gain]) == Dcg(log, init) + if gain then Discount(log, |init|) else 0.0
  {
    assert (init + [gain])[..|init|] == init;
  }

  lemma FrontSnoc(log: Logarithm, init: seq<bool>, gain: bool)
    requires Log2(log) && BestInFront(log, init)
    ensures BestInFront(log, init + [gain])
  {
    CountBounded(init);
    CountSnoc(init, gain);
    InFrontSnoc(init, gain);
    DcgSnoc(log, init, gain);
    DiscountPositive(log, |init|);
    DiscountShrinks(log, Count(init), |init|);
  }

  lemma {:induction false} FrontIsBest(log: Logarithm, gains: seq<bool>)
    requires Log2(log)
    ensures BestInFront(log, gains)
  {
    if gains != [] {
      var last := |gains| - 1;
      FrontIsBest(log, gains[..last]);
      FrontSnoc(log, gains[..last], gains[last]);
      assert gains == gains[..last] + [gains[last]];
    }
  }

  lemma CountSnoc(init: seq<bool>, gain: bool)
    ensures Count(init + [gain]) == Count(init) + if gain then 1 else 0
  {
    assert (init + [gain])[..|init|] == init;
  }

  lemma InFrontSnoc(init: seq<bool>, gain: bool)
    ensures InFront(init + [gain]) <==>
              InFront(init) && (gain ==> Count(init) == |init| || (Count(init) == 0 && |init| == 1))
  {
    if InFront(init + [gain]) {
      FrontBefore(init, gain);
    } else if InFront(init) && (gain ==> Count(init) == |init| || (Count(init) == 0 && |init| == 1)) {
      FrontAfter(init, gain);
    }
  }

  lemma FrontAfter(init: seq<bool>, gain: bool)
    requires InFront(init) && (gain ==> Count(init) == |init| || (Count(init) == 0 && |init| == 1))
    ensures InFront(init + [gain])
  {
    var gains := init + [gain];
    CountSnoc(init, gain);
    CountBounded(init);
    assert forall i :: 0 <= i < |init| ==> gains[i] == init[i];
    assert gains[|init|] == gain;
  }

  lemma FrontBefore(init: seq<bool>, gain: bool)
    requires InFront(init + [gain])
    ensures InFront(init) && (gain ==> Count(init) == |init| || (Count(init) == 0 && |init| == 1))
  {
    var gains := init + [gain];
    CountSnoc(init, gain);
    CountBounded(init);
    CountBounded(gains);
    assert forall i :: 0 <= i < |init| ==> gains[i] == init[i];
    assert gains[|init|] == gain;
  }

  // ---------------------------------------------------------------------------------------
  // Counting relevant results
  // ---------------------------------------------------------------------------------------

  ghost predicate Distinct(ids: seq<string>) {
    forall i, j :: 0 <= i < j < |ids| ==> ids[i] != ids[j]
  }

  /** The ids that are read: the first `k`. */
  function Top(ranked: seq<string>, k: nat): seq<string> {
    ranked[..Min(k, |ranked|)]
  }

  function IdsOf(list: seq<string>): set<string> {
    set id | id in list
  }

  /** The relevant ids among the first `n`. */
  ghost function Hits(ranked: seq<string>, relevant: set<string>, n: nat): set<string>
    requires n <= |ranked|
  {
    set i | 0 <= i < n && ranked[i] in relevant :: ranked[i]
  }

  lemma HitsSnoc(ranked: seq<string>, relevant: set<string>, n: nat)
    requires Distinct(ranked) && 0 < n <= |ranked|
    ensures |Hits(ranked, relevant, n)| == |Hits(ranked, relevant, n - 1)| + if ranked[n - 1] in relevant then 1 else 0
  {
    var before := Hits(ranked, relevant, n - 1);
    if ranked[n - 1] in relevant {
      assert Hits(ranked, relevant, n) == before + {ranked[n - 1]};
      assert ranked[n - 1] !in before;
    } else {
      assert Hits(ranked, relevant, n) == before;
    }
  }

  lemma GainsSnoc(ranked: seq<string>, relevant: set<string>, n: nat)
    requires 0 < n <= |ranked|
    ensures Gains(ranked, relevant, n) == Gains(ranked, relevant, n - 1) + [ranked[n - 1] in relevant]
  {
  }

  lemma {:induction false} CountIsHits(ranked: seq<string>, relevant: set<string>, n: nat)
    requires Distinct(ranked) && n <= |ranked|
    ensures Count(Gains(ranked, relevant, n)) == |Hits(ranked, relevant, n)|
    decreases n
  {
    if n > 0 {
      CountIsHits(ranked, relevant, n - 1);
      GainsSnoc(ranked, relevant, n);
      CountSnoc(Gains(ranked, relevant, n - 1), ranked[n - 1] in relevant);
      HitsSnoc(ranked, relevant, n);
    } else {
      assert Hits(ranked, relevant, 0) == {};
    }
  }

  lemma SubsetSize(a: set<string>, b: set<string>)
    requires a <= b
    ensures |a| <= |b|
  {
    assert b == a + (b - a);
  }

  lemma CountAtMostIdeal(ranked: seq<string>, relevant: set<string>, k: nat)
    requires Distinct(Top(ranked, k))
    ensures Count(Gains(ranked, relevant, k)) <= Min(k, |relevant|)
  {
    var top := Top(ranked, k);
    assert Gains(ranked, relevant, k) == Gains(top, relevant, |top|);
    CountIsHits(top, relevant, |top|);
    SubsetSize(Hits(top, relevant, |top|), relevant);
    CountBounded(Gains(top, relevant, |top|));
  }

  // ---------------------------------------------------------------------------------------
  // The score
  // ---------------------------------------------------------------------------------------

  lemma Quotient(a: real, b: real)
    requires 0.0 <= a <= b && b > 0.0
    ensures 0.0 <= a / b <= 1.0
    ensures a / b == 1.0 <==> a == b
  {
    assert a / b * b == a;
  }

  /** All of the first `n` ranked ids are relevant. */
  ghost predicate Leads(ranked: seq<string>, relevant: set<string>, n: nat) {
    n <= |ranked| && forall i :: 0 <= i < n ==> ranked[i] in relevant
  }

  lemma ScoreIs(log: Logarithm, ranked: seq<string>, relevant: set<string>, k: nat)
    requires Log2(log) && Distinct(Top(ranked, k))
    ensures var m := Min(k, |relevant|);
            && 0.0 <= NdcgAt(log, ranked, relevant, k) <= 1.0
            && (NdcgAt(log, ranked, relevant, k) == 1.0 <==>
                  m > 0 && Count(Gains(ranked, relevant, k)) == m && InFront(Gains(ranked, relevant, k)))
  {
    var gains, m := Gains(ranked, relevant, k), Min(k, |relevant|);
    IdealIsDcg(log, m);
    CountAtMostIdeal(ranked, relevant, k);
    IdealGrows(log, Count(gains), m);
    IdealGrows(log, 0, m);
    FrontIsBest(log, gains);
    if m > 0 {
      Quotient(Dcg(log, gains), Ideal(log, m));
    }
  }

  /** If the ids that are read are distinct, the score lies between 0 and 1. It is 1 if and only if there is something to find
      and the first results are all relevant, as many as could be; or just one could be, and it comes
      second. */
  lemma ScoreBounds(log: Logarithm, ranked: seq<string>, relevant: set<string>, k: nat)
    requires Log2(log) && Distinct(Top(ranked, k))
    ensures var m, score := Min(k, |relevant|), NdcgAt(log, ranked, relevant, k);
            && 0.0 <= score <= 1.0
            && (score == 1.0 <==>
                  m > 0 && (Leads(ranked, relevant, m)
                            || (m == 1 && k >= 2 && |ranked| >= 2 && ranked[1] in relevant)))
  {
    ScoreIs(log, ranked, relevant, k);
    var gains, m := Gains(ranked, relevant, k), Min(k, |relevant|);
    CountAtMostIdeal(ranked, relevant, k);
    if m > 0 && Leads(ranked, relevant, m) {
      LeadCounts(gains, m);
    }
    if m == 1 && |gains| >= 2 && gains[1] {
      CountBounded(gains);
    }
    if Count(gains) == m && InFront(gains) {
      CountBounded(gains);
    }
  }

  lemma {:induction false} CountOfPrefix(gains: seq<bool>, n: nat)
    requires n <= |gains|
    ensures Count(gains[..n]) <= Count(gains)
    ensures Count(gains[..n]) == Count(gains) ==> forall i :: n <= i < |gains| ==> !gains[i]
    decreases |gains|
  {
    if n < |gains| {
      var init := gains[..|gains| - 1];
      CountOfPrefix(init, n);
      assert init[..n] == gains[..n];
      assert forall i :: 0 <= i < |init| ==> init[i] == gains[i];
    } else {
      assert gains[..n] == gains;
    }
  }

  lemma LeadCounts(gains: seq<bool>, m: nat)
    requires m <= |gains| && Count(gains) <= m
    requires forall i :: 0 <= i < m ==> gains[i]
    ensures Count(gains) == m && InFront(gains)
  {
    CountBounded(gains[..m]);
    CountOfPrefix(gains, m);
  }

  /** With all ids that are read relevant, a repeated one makes the score exceed one. */
  lemma RepeatExceedsOne(log: Logarithm, ranked: seq<string>, k: nat)
    requires Log2(log) && !Distinct(Top(ranked, k))
    ensures NdcgAt(log, ranked, IdsOf(Top(ranked, k)), k) > 1.0
  {
    var top := Top(ranked, k);
    var relevant := IdsOf(top);
    var n := |top|;
    var i, j :| 0 <= i < j < n && top[i] == top[j];
    RepeatShrinks(top, relevant, i, j);
    assert Gains(ranked, relevant, k) == AllGains(n) by {
      assert forall x :: 0 <= x < n ==> ranked[x] == top[x] && top[x] in relevant;
    }
    assert top[0] in relevant;
    var m := Min(k, |relevant|);
    IdealIsDcg(log, n);
    IdealIsDcg(log, m);
    IdealGrows(log, 0, m);
    IdealGrows(log, m, n);
    Exceeds(Ideal(log, n), Ideal(log, m));
  }

  lemma Exceeds(a: real, b: real)
    requires 0.0 < b < a
    ensures a / b > 1.0
  {
    assert a / b * b == a;
  }

  /** A list with a repeat has fewer different ids than places. */
  lemma RepeatShrinks(top: seq<string>, ids: set<string>, i: nat, j: nat)
    requires i < j < |top| && top[i] == top[j]
    requires forall id :: id in ids <==> id in top
    ensures |ids| < |top|
  {
    var rest := top[..j] + top[j + 1..];
    assert forall id :: id in ids ==> id in rest by {
      forall id | id in ids
        ensures id in rest
      {
        var x :| 0 <= x < |top| && top[x] == id;
        assert x < j ==> rest[x] == id;
        assert x == j ==> rest[i] == id;
        assert x > j ==> rest[x - 1] == id;
      }
    }
    DifferentIds(rest, ids);
  }

  lemma {:induction false} DifferentIds(list: seq<string>, ids: set<string>)
    requires forall id :: id in ids ==> id in list
    ensures |ids| <= |list|
  {
    if list == [] {
      assert ids == {};
    } else {
      var last := list[|list| - 1];
      DifferentIds(list[..|list| - 1], ids - {last});
      SubsetSize(ids, (ids - {last}) + {last});
    }
  }

  /** The score is at most 1 whatever is relevant if and only if no id is read twice. */
  lemma AtMostOneIff(log: Logarithm, ranked: seq<string>, k: nat)
    requires Log2(log)
    ensures Distinct(Top(ranked, k)) <==> forall relevant :: NdcgAt(log, ranked, relevant, k) <= 1.0
  {
    if Distinct(Top(ranked, k)) {
      forall relevant
        ensures NdcgAt(log, ranked, relevant, k) <= 1.0
      {
        ScoreBounds(log, ranked, relevant, k);
      }
    } else {
      RepeatExceedsOne(log, ranked, k);
    }
  }

  /** The concrete case: an id that is ranked twice counts twice. */
  lemma RepeatedIdExceedsOne(log: Logarithm) returns (ranked: seq<string>, relevant: set<string>)
    requires Log2(log)
    ensures ranked == ["a", "a"] && relevant == {"a"}
    ensures NdcgAt(log, ranked, relevant, 2) == 2.0
  {
    ranked, relevant := ["a", "a"], {"a"};
    var gains := Gains(ranked, relevant, 2);
    assert gains[..1][..0] == [] && gains[..1][0] && gains[1];
    assert Dcg(log, gains[..1]) == 1.0;
    IdealIsDcg(log, 1);
  }

  /** The worth of the relevant ones among the first `n` ids. */
  ghost function Worth(log: Logarithm, ranked: seq<string>, relevant: set<string>, n: nat): real
    requires Log2(log) && n <= |ranked|
  {
    if n == 0 then 0.0
    else Worth(log, ranked, relevant, n - 1) + if ranked[n - 1] in relevant then Discount(log, n - 1) else 0.0
  }

  lemma {:induction false} WorthIsDcg(log: Logarithm, ranked: seq<string>, relevant: set<string>, n: nat)
    requires Log2(log) && n <= |ranked|
    ensures Dcg(log, Gains(ranked, relevant, n)) == Worth(log, ranked, relevant, n)
  {
    if n > 0 {
      WorthIsDcg(log, ranked, relevant, n - 1);
      GainsSnoc(ranked, relevant, n);
      DcgSnoc(log, Gains(ranked, relevant, n - 1), ranked[n - 1] in relevant);
    }
  }

  /** A score measures what was gained by the best that can be. */
  ghost predicate Measures(score: real, gained: real, best: real) {
    best > 0.0 && score * best == gained
  }

  lemma QuotientMeasures(gained: real, best: real)
    requires best > 0.0
    ensures Measures(gained / best, gained, best)
  {
  }

  lemma ScoreQuotient(log: Logarithm, ranked: seq<string>, relevant: set<string>, k: nat, gained: real, best: real)
    requires Log2(log) && best == Dcg(log, AllGains(Min(k, |relevant|))) && gained == Dcg(log, Gains(ranked, relevant, k))
    ensures if best == 0.0 then NdcgAt(log, ranked, relevant, k) == 0.0
            else best > 0.0 ==> Measures(NdcgAt(log, ranked, relevant, k), gained, best)
  {
    if best > 0.0 {
      QuotientMeasures(gained, best);
    }
  }

  /** The score is the worth of the relevant ones among the first `k` ids, measured by the worth of as many relevant
      ones in front as there can be; without anything relevant, or with no ids asked for, it is nothing. */
  lemma ScoreMeans(log: Logarithm, ranked: seq<string>, relevant: set<string>, k: nat)
    requires Log2(log)
    ensures var score, best := NdcgAt(log, ranked, relevant, k), Ideal(log, Min(k, |relevant|));
            if Min(k, |relevant|) == 0 then score == 0.0
            else Measures(score, Worth(log, ranked, relevant, Min(k, |ranked|)), best)
  {
    var n := Min(k, |relevant|);
    IdealIsDcg(log, n);
    IdealGrows(log, 0, n);
    WorthIsDcg(log, ranked, relevant, Min(k, |ranked|));
    assert Gains(ranked, relevant, k) == Gains(ranked, relevant, Min(k, |ranked|));
    ScoreQuotient(log, ranked, relevant, k, Worth(log, ranked, relevant, Min(k, |ranked|)), Ideal(log, n));
  }
}
