/** Routing one order over a merged book: the smart sweep, its cost, and the pro-rata sweep. */
module Routing {
  import opened Options

  // ---- Integer sums ----

  function Sum(s: seq<int>): int {
    if s == [] then 0 else Sum(s[..|s| - 1]) + s[|s| - 1]
  }

  lemma {:induction false} SumUpdate(s: seq<int>, i: nat, v: int)
    requires i < |s|
    ensures Sum(s[i := v]) == Sum(s) - s[i] + v
  {
    var front := s[..|s| - 1];
    if i == |s| - 1 {
      assert s[i := v][..|s| - 1] == front;
    } else {
      SumUpdate(front, i, v);
      assert s[i := v][..|s| - 1] == front[i := v];
    }
  }

  lemma SumSnoc(s: seq<int>, x: int)
    ensures Sum(s + [x]) == Sum(s) + x
  {
    assert (s + [x])[..|s|] == s;
  }

  lemma {:induction false} SumAtMost(a: seq<int>, b: seq<int>)
    requires |a| == |b| && forall i | 0 <= i < |a| :: a[i] <= b[i]
    ensures Sum(a) <= Sum(b)
  {
    if a != [] {
      SumAtMost(a[..|a| - 1], b[..|b| - 1]);
    }
  }

  function Zeroes(n: nat): (s: seq<int>)
    ensures |s| == n && forall i | 0 <= i < n :: s[i] == 0
  {
    seq(n, _ => 0)
  }

  lemma {:induction false} SumZeroes(s: seq<int>)
    requires forall i | 0 <= i < |s| :: s[i] == 0
    ensures Sum(s) == 0
  {
    if s != [] {
      SumZeroes(s[..|s| - 1]);
    }
  }

  function MinInt(a: int, b: int): int { if a < b then a else b }

  // ---- Buying cheapest first costs least ----

  /** The value of the amounts at the prices. */
  function Value(prices: seq<int>, amounts: seq<int>): int
    requires |prices| == |amounts|
  {
    if prices == [] then 0
    else Value(prices[..|prices| - 1], amounts[..|amounts| - 1]) + prices[|prices| - 1] * amounts[|amounts| - 1]
  }

  /** Amounts within the caps. */
  predicate Within(amounts: seq<int>, caps: seq<int>) {
    |amounts| == |caps| && forall l | 0 <= l < |caps| :: 0 <= amounts[l] <= caps[l]
  }

  /** No level gives anything unless all levels before it are exhausted. */
  predicate Greedy(amounts: seq<int>, caps: seq<int>) {
    Within(amounts, caps) && forall k, l | 0 <= k < l < |caps| && amounts[l] > 0 :: amounts[k] == caps[k]
  }

  /** Keys rise along the levels that offer anything. */
  predicate Rising(keys: seq<int>, caps: seq<int>) {
    |keys| == |caps| && forall k, l | 0 <= k < l < |caps| && caps[k] > 0 && caps[l] > 0 :: keys[k] <= keys[l]
  }

  lemma TermGap(key: int, pivot: int, g: int, t: int)
    requires (g <= t && key <= pivot) || (g >= t && key >= pivot) || g == t
    ensures key * g - key * t >= pivot * g - pivot * t
  {
    assert (key - pivot) * (g - t) >= 0;
  }

  /** Level by level, whatever one gains on the pivot price by moving amounts, one loses. */
  lemma {:induction false} ValueGap(keys: seq<int>, g: seq<int>, t: seq<int>, pivot: int)
    requires |keys| == |g| == |t|
    requires forall l | 0 <= l < |keys| ::
               (g[l] <= t[l] && keys[l] <= pivot) || (g[l] >= t[l] && keys[l] >= pivot) || g[l] == t[l]
    ensures Value(keys, g) - Value(keys, t) >= pivot * Sum(g) - pivot * Sum(t)
  {
    if keys != [] {
      var n := |keys| - 1;
      ValueGap(keys[..n], g[..n], t[..n], pivot);
      TermGap(keys[n], pivot, g[n], t[n]);
      assert pivot * Sum(g) == pivot * Sum(g[..n]) + pivot * g[n];
      assert pivot * Sum(t) == pivot * Sum(t[..n]) + pivot * t[n];
    }
  }

  /** The last level that gives anything, if one does. */
  lemma {:induction false} LastUsed(t: seq<int>) returns (s: int)
    requires forall l | 0 <= l < |t| :: t[l] >= 0
    ensures -1 <= s < |t| && (s >= 0 ==> t[s] > 0) && forall l | s < l < |t| :: t[l] == 0
  {
    s := |t| - 1;
    if t != [] && t[|t| - 1] == 0 {
      s := LastUsed(t[..|t| - 1]);
    }
  }

  lemma {:induction false} NothingBought(g: seq<int>, i: nat)
    requires (forall l | 0 <= l < |g| :: g[l] >= 0) && Sum(g) == 0 && i < |g|
    ensures g[i] == 0
  {
    SumAtMost(Zeroes(|g|), g[i := 0]);
    SumZeroes(Zeroes(|g|));
    SumUpdate(g, i, 0);
  }

  /** Taking the levels in the order of their keys is worth no more than any other way to get the same total. */
  lemma GreedyCheapest(keys: seq<int>, caps: seq<int>, t: seq<int>, g: seq<int>)
    requires Rising(keys, caps) && Greedy(t, caps) && Within(g, caps) && Sum(g) == Sum(t)
    ensures Value(keys, t) <= Value(keys, g)
  {
    var s := LastUsed(t);
    if s == -1 {
      SumZeroes(t);
      forall l | 0 <= l < |g| ensures g[l] == t[l] {
        NothingBought(g, l);
      }
      assert g == t;
    } else {
      ValueGap(keys, g, t, keys[s]);
    }
  }

  // ---- The merged book as a sweep sees it ----

  const INVALID_PRICE: int := 0x7FFF_FFFF_FFFF_FFFF

  /** What one venue displays at one level. */
  datatype Quote = Quote(venue: nat, quantity: int)

  datatype Level = Level(price: int, total: int, quotes: seq<Quote>)

  datatype VenueScore = VenueScore(venue: nat, available: bool, fillRate: real, latency: real)

  /** The venue's slice so far: its worst price and its total. */
  datatype Alloc = Alloc(worstPrice: int, total: int)

  function Total(allocations: map<nat, Alloc>, v: nat): int { if v in allocations then allocations[v].total else 0 }

  function LatencyQuality(s: VenueScore): real {
    var latency := if s.latency > 0.0 then s.latency else 1000.0;
    0.4 * s.fillRate + 0.6 * (1000.0 / latency)
  }

  /** Venue a is faster than venue b and fills no less often. */
  predicate Faster(a: VenueScore, b: VenueScore) { 0.0 < a.latency < b.latency && a.fillRate >= b.fillRate }

  lemma QuotientFalls(x: real, a: real, b: real)
    requires x > 0.0 && 0.0 < a < b
    ensures x / a > x / b
  {
    var p, q := x / a, x / b;
    assert q > 0.0 && p * a == x == q * b;
    assert (p - q) * a == q * (b - a) > 0.0;
  }

  /** What quality weighs: a faster venue that fills no less often has strictly more of it; a fill rate counts four
      tenths; at a fill rate of zero, quality and latency multiply to 600; an unknown latency counts as 1000. */
  lemma QualityWeighs(a: VenueScore, b: VenueScore, rate: real)
    ensures Faster(a, b) ==> LatencyQuality(a) > LatencyQuality(b)
    ensures LatencyQuality(a.(fillRate := a.fillRate + rate)) == LatencyQuality(a) + 0.4 * rate
    ensures a.latency > 0.0 ==> LatencyQuality(a.(fillRate := 0.0)) * a.latency == 600.0
    ensures a.latency <= 0.0 ==> LatencyQuality(a) == LatencyQuality(a.(latency := 1000.0))
    ensures a.latency == 1000.0 && a.fillRate == 1.0 ==> LatencyQuality(a) == 1.0
  {
    if Faster(a, b) {
      QuotientFalls(1000.0, a.latency, b.latency);
    }
  }

  predicate Usable(l: Level) { l.price != INVALID_PRICE && l.total > 0 }

  predicate Beyond(l: Level, isBuy: bool, worst: int) { if isBuy then l.price > worst else l.price < worst }

  /** How many leading levels a sweep reaches before one lies beyond the worst acceptable price. */
  function Reach(levels: seq<Level>, isBuy: bool, worst: int): (k: nat)
    ensures k <= |levels| && (forall l | 0 <= l < k :: !(Usable(levels[l]) && Beyond(levels[l], isBuy, worst)))
    ensures k < |levels| ==> Usable(levels[k]) && Beyond(levels[k], isBuy, worst)
  {
    if levels == [] then 0
    else
      var k := Reach(levels[..|levels| - 1], isBuy, worst);
      if k == |levels| - 1 && !(Usable(levels[k]) && Beyond(levels[k], isBuy, worst)) then k + 1 else k
  }

  /** What quote i of a level offers a sweep: its quantity, if its venue takes orders. */
  function Offer(l: Level, venues: set<nat>, i: nat): int
    requires i < |l.quotes|
  {
    if l.price != INVALID_PRICE && l.total > 0 && l.quotes[i].quantity > 0 && l.quotes[i].venue in venues
    then l.quotes[i].quantity else 0
  }

  function Offers(l: Level, venues: set<nat>): (os: seq<int>)
    ensures |os| == |l.quotes| && forall i | 0 <= i < |os| :: os[i] == Offer(l, venues, i) >= 0
  {
    seq(|l.quotes|, i requires 0 <= i < |l.quotes| => Offer(l, venues, i))
  }

  /** The total every level offers, nothing from level `reach` on. */
  function Caps(levels: seq<Level>, venues: set<nat>, reach: nat): (caps: seq<int>)
    ensures |caps| == |levels|
    ensures forall l | 0 <= l < |caps| :: caps[l] == if l < reach then Sum(Offers(levels[l], venues)) else 0
  {
    seq(|levels|, l requires 0 <= l < |levels| => if l < reach then Sum(Offers(levels[l], venues)) else 0)
  }

  /** What is bought of every quote. */
  type Grid = seq<seq<int>>

  predicate Shaped(grid: Grid, levels: seq<Level>) {
    |grid| == |levels| && forall l | 0 <= l < |levels| :: |grid[l]| == |levels[l].quotes|
  }

  /** No quote gives more than it offers, and levels out of reach give nothing. */
  predicate Feasible(grid: Grid, levels: seq<Level>, venues: set<nat>, reach: nat) {
    && Shaped(grid, levels)
    && forall l, i | 0 <= l < |levels| && 0 <= i < |levels[l].quotes| ::
         0 <= grid[l][i] <= if l < reach then Offer(levels[l], venues, i) else 0
  }

  function LevelTotals(grid: Grid): (ts: seq<int>)
    ensures |ts| == |grid| && forall l | 0 <= l < |grid| :: ts[l] == Sum(grid[l])
  {
    seq(|grid|, l requires 0 <= l < |grid| => Sum(grid[l]))
  }

  /** Price for a buyer, its negative for a seller: what a sweep keeps low. */
  function Keys(levels: seq<Level>, isBuy: bool): (keys: seq<int>)
    ensures |keys| == |levels|
    ensures forall l | 0 <= l < |levels| :: keys[l] == if isBuy then levels[l].price else -levels[l].price
  {
    seq(|levels|, l requires 0 <= l < |levels| => if isBuy then levels[l].price else -levels[l].price)
  }

  /** Best price first, among the levels that can be used. */
  predicate Sorted(levels: seq<Level>, isBuy: bool) {
    forall k, l | 0 <= k < l < |levels| && Usable(levels[k]) && Usable(levels[l]) ::
      if isBuy then levels[k].price <= levels[l].price else levels[k].price >= levels[l].price
  }

  /** What the purchase costs a buyer at the levels' prices, or, negated, what it earns a seller. */
  function Cost(grid: Grid, levels: seq<Level>, isBuy: bool): int
    requires |grid| == |levels|
  {
    Value(Keys(levels, isBuy), LevelTotals(grid))
  }

  lemma OffersNothing(l: Level, venues: set<nat>)
    requires !Usable(l)
    ensures Sum(Offers(l, venues)) == 0
  {
    SumZeroes(Offers(l, venues));
  }

  lemma OffersNonneg(l: Level, venues: set<nat>)
    ensures Sum(Offers(l, venues)) >= 0
  {
    SumZeroes(Zeroes(|l.quotes|));
    SumAtMost(Zeroes(|l.quotes|), Offers(l, venues));
  }

  /** A feasible purchase stays within what the levels offer in all. */
  lemma FeasibleWithin(grid: Grid, levels: seq<Level>, venues: set<nat>, reach: nat)
    requires Feasible(grid, levels, venues, reach)
    ensures Within(LevelTotals(grid), Caps(levels, venues, reach))
  {
    forall l | 0 <= l < |levels| ensures 0 <= Sum(grid[l]) <= Caps(levels, venues, reach)[l] {
      SumZeroes(Zeroes(|grid[l]|));
      SumAtMost(Zeroes(|grid[l]|), grid[l]);
      if l < reach {
        SumAtMost(grid[l], Offers(levels[l], venues));
      } else {
        SumAtMost(grid[l], Zeroes(|grid[l]|));
      }
    }
  }

  /** A sweep in price order costs no more than any feasible way to buy the same quantity. */
  lemma SweepCheapest(grid: Grid, other: Grid, levels: seq<Level>, venues: set<nat>, reach: nat, isBuy: bool)
    requires Feasible(grid, levels, venues, reach) && Feasible(other, levels, venues, reach)
    requires Greedy(LevelTotals(grid), Caps(levels, venues, reach)) && Sorted(levels, isBuy)
    requires Sum(LevelTotals(other)) == Sum(LevelTotals(grid))
    ensures Cost(grid, levels, isBuy) <= Cost(other, levels, isBuy)
  {
    var keys, caps := Keys(levels, isBuy), Caps(levels, venues, reach);
    FeasibleWithin(other, levels, venues, reach);
    forall k, l | 0 <= k < l < |caps| && caps[k] > 0 && caps[l] > 0 ensures keys[k] <= keys[l] {
      if !Usable(levels[k]) {
        OffersNothing(levels[k], venues);
      }
      if !Usable(levels[l]) {
        OffersNothing(levels[l], venues);
      }
    }
    GreedyCheapest(keys, caps, LevelTotals(grid), LevelTotals(other));
  }

  // ---- One level of the smart sweep ----

  /** A quote that can be used, and where it stands in its level. */
  datatype Candidate = Candidate(index: nat, venue: nat, available: int, quality: real)

  /** The candidates are the usable quotes of the level, each once. */
  predicate Lists(cs: seq<Candidate>, l: Level, venues: set<nat>) {
    && (forall j | 0 <= j < |cs| :: cs[j].index < |l.quotes| && cs[j].venue == l.quotes[cs[j].index].venue
                                    && 0 < cs[j].available == Offer(l, venues, cs[j].index))
    && (forall j, k | 0 <= j < k < |cs| :: cs[j].index != cs[k].index)
    && (forall i | 0 <= i < |l.quotes| && Offer(l, venues, i) > 0 :: IsListed(cs, i))
  }

  predicate IsListed(cs: seq<Candidate>, i: nat) { exists j :: 0 <= j < |cs| && cs[j].index == i }

  /** Every candidate's quality is that of its venue. */
  predicate Scored(cs: seq<Candidate>, scores: map<nat, VenueScore>) {
    forall j | 0 <= j < |cs| :: cs[j].venue in scores && cs[j].quality == LatencyQuality(scores[cs[j].venue])
  }

  /** Fastest venues first. */
  predicate Descending(cs: seq<Candidate>) { forall j, k | 0 <= j < k < |cs| :: cs[j].quality >= cs[k].quality }

  method CollectCandidates(l: Level, scores: map<nat, VenueScore>) returns (cs: seq<Candidate>)
    requires Usable(l) && |l.quotes| <= 16
    ensures Lists(cs, l, scores.Keys) && Scored(cs, scores)
  {
    cs := [];
    var v := 0;
    while v < |l.quotes| && |cs| < 16
      invariant v <= |l.quotes| && |cs| <= v && Scored(cs, scores)
      invariant forall j | 0 <= j < |cs| :: cs[j].index < v && cs[j].venue == l.quotes[cs[j].index].venue
                                            && 0 < cs[j].available == Offer(l, scores.Keys, cs[j].index)
      invariant forall j, k | 0 <= j < k < |cs| :: cs[j].index != cs[k].index
      invariant forall i | 0 <= i < v && Offer(l, scores.Keys, i) > 0 :: IsListed(cs, i)
    {
      var q := l.quotes[v];
      if q.quantity > 0 && q.venue in scores {
        ghost var before := cs;
        cs := cs + [Candidate(v, q.venue, q.quantity, LatencyQuality(scores[q.venue]))];
        forall i | 0 <= i < v + 1 && Offer(l, scores.Keys, i) > 0 ensures IsListed(cs, i) {
          if i < v {
            assert IsListed(before, i);
            var j :| 0 <= j < |before| && before[j].index == i;
            assert cs[j].index == i;
          } else {
            assert cs[|before|].index == i;
          }
        }
      }
      v := v + 1;
    }
  }

  /** One candidate put in its place. */
  method InsertByQuality(cs: seq<Candidate>, c: Candidate) returns (out: seq<Candidate>, at: nat)
    requires Descending(cs)
    ensures Descending(out) && at <= |cs| && out == cs[..at] + [c] + cs[at..]
  {
    at := |cs|;
    while at > 0 && cs[at - 1].quality < c.quality
      invariant at <= |cs| && forall j | at <= j < |cs| :: cs[j].quality < c.quality
    {
      at := at - 1;
    }
    out := cs[..at] + [c] + cs[at..];
  }

  /** Sorts the candidates, best quality first. */
  method SortByQuality(cs: seq<Candidate>, ghost l: Level, ghost scores: map<nat, VenueScore>)
    returns (out: seq<Candidate>)
    requires Lists(cs, l, scores.Keys) && Scored(cs, scores)
    ensures Lists(out, l, scores.Keys) && Scored(out, scores) && Descending(out)
  {
    out := [];
    var k := 0;
    while k < |cs|
      invariant k <= |cs| == k + (|cs| - k) && Descending(out)
      invariant SameCandidates(cs[..k], out)
    {
      ghost var before := out;
      var at;
      out, at := InsertByQuality(out, cs[k]);
      InsertedSame(cs, k, before, out, at);
      k := k + 1;
    }
    assert cs[..k] == cs;
    SameLists(cs, out, l, scores.Keys);
    SameScores(cs, out, scores);
  }

  lemma SameScores(a: seq<Candidate>, b: seq<Candidate>, scores: map<nat, VenueScore>)
    requires Scored(a, scores) && SameCandidates(a, b)
    ensures Scored(b, scores)
  {
    forall j | 0 <= j < |b| ensures b[j] in a {
      assert b[j] in multiset(b);
      assert b[j] in multiset(a);
    }
  }

  /** The same candidates in another order. */
  ghost predicate SameCandidates(a: seq<Candidate>, b: seq<Candidate>) { multiset(a) == multiset(b) }

  lemma InsertedSame(cs: seq<Candidate>, k: nat, before: seq<Candidate>, out: seq<Candidate>, at: nat)
    requires k < |cs| && at <= |before| && SameCandidates(cs[..k], before)
    requires out == before[..at] + [cs[k]] + before[at..]
    ensures SameCandidates(cs[..k + 1], out)
  {
    assert cs[..k + 1] == cs[..k] + [cs[k]];
    assert before == before[..at] + before[at..];
  }

  lemma SameLists(a: seq<Candidate>, b: seq<Candidate>, l: Level, venues: set<nat>)
    requires Lists(a, l, venues) && SameCandidates(a, b)
    ensures Lists(b, l, venues)
  {
    forall j | 0 <= j < |b| ensures b[j] in a {
      assert b[j] in multiset(b);
      assert b[j] in multiset(a);
    }
    forall j, k | 0 <= j < k < |b| ensures b[j].index != b[k].index {
      if b[j].index == b[k].index {
        var p :| 0 <= p < |a| && a[p] == b[j];
        var q :| 0 <= q < |a| && a[q] == b[k];
        assert p == q;
        Twice(b, j, k);
        Once(a, p);
      }
    }
    forall i | 0 <= i < |l.quotes| && Offer(l, venues, i) > 0 ensures IsListed(b, i) {
      assert IsListed(a, i);
      var j :| 0 <= j < |a| && a[j].index == i;
      assert a[j] in multiset(b);
    }
  }

  lemma Twice(b: seq<Candidate>, j: nat, k: nat)
    requires j < k < |b| && b[j] == b[k]
    ensures multiset(b)[b[j]] >= 2
  {
    assert b == b[..j] + [b[j]] + b[j + 1..k] + [b[k]] + b[k + 1..];
  }

  lemma Once(a: seq<Candidate>, p: nat)
    requires p < |a| && forall j, k | 0 <= j < k < |a| :: a[j] != a[k]
    ensures multiset(a)[a[p]] == 1
  {
    assert a == a[..p] + [a[p]] + a[p + 1..];
    assert a[p] !in a[..p] && a[p] !in a[p + 1..];
  }

  /** What a row of the grid gives one venue. */
  function Masked(l: Level, row: seq<int>, v: nat): (m: seq<int>)
    requires |row| == |l.quotes|
    ensures |m| == |row| && forall i | 0 <= i < |row| :: m[i] == if l.quotes[i].venue == v then row[i] else 0
  {
    seq(|row|, i requires 0 <= i < |row| => if l.quotes[i].venue == v then row[i] else 0)
  }

  function VenueSum(levels: seq<Level>, grid: Grid, v: nat): int
    requires |grid| <= |levels| && forall l | 0 <= l < |grid| :: |grid[l]| == |levels[l].quotes|
  {
    if grid == [] then 0
    else VenueSum(levels, grid[..|grid| - 1], v) + Sum(Masked(levels[|grid| - 1], grid[|grid| - 1], v))
  }

  lemma MaskedUpdate(l: Level, row: seq<int>, i: nat, x: int, v: nat)
    requires |row| == |l.quotes| && i < |row|
    ensures Sum(Masked(l, row[i := row[i] + x], v)) == Sum(Masked(l, row, v)) + if l.quotes[i].venue == v then x else 0
  {
    var m := Masked(l, row, v);
    var y := m[i] + if l.quotes[i].venue == v then x else 0;
    assert Masked(l, row[i := row[i] + x], v) == m[i := y];
    SumUpdate(m, i, y);
  }

  lemma MaskedZeroes(l: Level, v: nat)
    ensures Sum(Masked(l, Zeroes(|l.quotes|), v)) == 0
  {
    SumZeroes(Masked(l, Zeroes(|l.quotes|), v));
  }

  /** What the level has given so far: the candidates before i in full as long as something is still wanted. */
  ghost predicate Filling(l: Level, venues: set<nat>, cs: seq<Candidate>, i: nat, wanted: int, remaining: int,
                          row: seq<int>) {
    && i <= |cs| && remaining >= 0 && |row| == |l.quotes| && Sum(row) == wanted - remaining
    && (forall k | 0 <= k < |row| :: 0 <= row[k] <= Offer(l, venues, k))
    && (forall j | i <= j < |cs| && cs[j].index < |row| :: row[cs[j].index] == 0)
    && (remaining > 0 ==> forall j | 0 <= j < i && cs[j].index < |row| :: row[cs[j].index] == cs[j].available)
    && Drained(cs, row)
  }

  /** No candidate gives anything unless all before it are exhausted. */
  predicate Drained(cs: seq<Candidate>, row: seq<int>) {
    forall j, k | 0 <= j < k < |cs| && cs[j].index < |row| && cs[k].index < |row| && row[cs[k].index] > 0 ::
      row[cs[j].index] == cs[j].available
  }

  /** A quote gives something only when all quotes of better quality are exhausted, and so all that are faster and fill
      no less often. */
  ghost predicate BestFirst(l: Level, scores: map<nat, VenueScore>, row: seq<int>)
    requires |row| == |l.quotes|
  {
    forall i, k | 0 <= i < |row| && 0 <= k < |row| && row[k] > 0 && Offer(l, scores.Keys, i) > 0
                  && l.quotes[k].venue in scores ::
      var a, b := scores[l.quotes[i].venue], scores[l.quotes[k].venue];
      Faster(a, b) || LatencyQuality(a) > LatencyQuality(b) ==> row[i] == Offer(l, scores.Keys, i)
  }

  lemma DrainedBestFirst(l: Level, scores: map<nat, VenueScore>, cs: seq<Candidate>, row: seq<int>)
    requires Lists(cs, l, scores.Keys) && Scored(cs, scores) && Descending(cs) && Drained(cs, row)
    requires |row| == |l.quotes| && forall k | 0 <= k < |row| :: 0 <= row[k] <= Offer(l, scores.Keys, k)
    ensures BestFirst(l, scores, row)
  {
    forall i, k | 0 <= i < |row| && 0 <= k < |row| && row[k] > 0 && Offer(l, scores.Keys, i) > 0
                  && l.quotes[k].venue in scores
      ensures var a, b := scores[l.quotes[i].venue], scores[l.quotes[k].venue];
              Faster(a, b) || LatencyQuality(a) > LatencyQuality(b) ==> row[i] == Offer(l, scores.Keys, i)
    {
      assert IsListed(cs, i) && IsListed(cs, k);
      var p :| 0 <= p < |cs| && cs[p].index == i;
      var q :| 0 <= q < |cs| && cs[q].index == k;
      QualityWeighs(scores[cs[p].venue], scores[cs[q].venue], 0.0);
      if q < p {
        assert cs[q].quality >= cs[p].quality;
      }
    }
  }

  lemma FillStep(l: Level, venues: set<nat>, cs: seq<Candidate>, i: nat, wanted: int, remaining: int, row: seq<int>)
    requires Lists(cs, l, venues) && Filling(l, venues, cs, i, wanted, remaining, row) && i < |cs|
    ensures var q := MinInt(remaining, cs[i].available);
            Filling(l, venues, cs, i + 1, wanted, remaining - q, row[cs[i].index := q])
  {
    var q := MinInt(remaining, cs[i].available);
    SumUpdate(row, cs[i].index, q);
    DrainedStep(cs, row, i, q);
    hide Drained, Sum;
  }

  lemma DrainedStep(cs: seq<Candidate>, row: seq<int>, i: nat, q: int)
    requires i < |cs| && cs[i].index < |row| && forall j, k | 0 <= j < k < |cs| :: cs[j].index != cs[k].index
    requires Drained(cs, row) && forall j | i <= j < |cs| && cs[j].index < |row| :: row[cs[j].index] == 0
    requires q > 0 ==> forall j | 0 <= j < i && cs[j].index < |row| :: row[cs[j].index] == cs[j].available
    ensures Drained(cs, row[cs[i].index := q])
  {}

  /** A level gives the smaller of what is wanted and what it offers. */
  lemma Filled(l: Level, venues: set<nat>, cs: seq<Candidate>, i: nat, wanted: int, remaining: int, row: seq<int>)
    requires Lists(cs, l, venues) && Filling(l, venues, cs, i, wanted, remaining, row) && (remaining == 0 || i == |cs|)
    ensures Sum(row) == MinInt(wanted, Sum(Offers(l, venues)))
  {
    SumAtMost(row, Offers(l, venues));
    if remaining > 0 {
      forall k | 0 <= k < |row| ensures row[k] == Offer(l, venues, k) {
        if Offer(l, venues, k) > 0 {
          assert IsListed(cs, k);
        }
      }
      assert row == Offers(l, venues);
    }
  }

  /** The slices after a level gave the row: every venue's total grew by its part, at this level's price. */
  ghost predicate Allocated(before: map<nat, Alloc>, after: map<nat, Alloc>, l: Level, row: seq<int>)
    requires |row| == |l.quotes|
  {
    && (forall v: nat :: Total(after, v) == Total(before, v) + Sum(Masked(l, row, v)))
    && (forall v | v in before :: v in after)
    && (forall v | v in after :: (v in before && after[v] == before[v]) || after[v].worstPrice == l.price)
  }

  /** Fills from the candidates in turn. */
  method FillLevel(l: Level, cs: seq<Candidate>, wanted: int, before: map<nat, Alloc>, ghost venues: set<nat>)
    returns (remaining: int, after: map<nat, Alloc>, ghost row: seq<int>)
    requires Lists(cs, l, venues) && wanted >= 0
    ensures |row| == |l.quotes| && (forall k | 0 <= k < |row| :: 0 <= row[k] <= Offer(l, venues, k))
    ensures remaining == wanted - MinInt(wanted, Sum(Offers(l, venues))) == wanted - Sum(row)
    ensures Allocated(before, after, l, row) && Drained(cs, row)
  {
    hide Allocated, Offers, Placing, Filling, Lists, Offer, Sum, Drained, Total, MinInt;
    remaining, after := wanted, before;
    row := PlaceNone(l, venues, cs, wanted, before);
    var i := 0;
    while i < |cs| && remaining > 0
      invariant i <= |cs| && Placing(l, venues, cs, i, wanted, remaining, before, after, row)
    {
      var c := cs[i];
      var q := MinInt(remaining, c.available);
      row := PlaceOne(l, venues, cs, i, wanted, remaining, before, after, row);
      after := after[c.venue := Alloc(l.price, Total(after, c.venue) + q)];
      remaining := remaining - q;
      i := i + 1;
    }
    PlacedEnd(l, venues, cs, i, wanted, remaining, before, after, row);
  }

  /** What is filled and what is allocated so far. */
  ghost predicate Placing(l: Level, venues: set<nat>, cs: seq<Candidate>, i: nat, wanted: int, remaining: int,
                          before: map<nat, Alloc>, after: map<nat, Alloc>, row: seq<int>) {
    Filling(l, venues, cs, i, wanted, remaining, row) && Allocated(before, after, l, row)
  }

  lemma PlaceOne(l: Level, venues: set<nat>, cs: seq<Candidate>, i: nat, wanted: int, remaining: int,
                 before: map<nat, Alloc>, after: map<nat, Alloc>, row: seq<int>) returns (row': seq<int>)
    requires Lists(cs, l, venues) && i < |cs| && Placing(l, venues, cs, i, wanted, remaining, before, after, row)
    ensures var c := cs[i];
            var q := MinInt(remaining, c.available);
            Placing(l, venues, cs, i + 1, wanted, remaining - q, before,
                    after[c.venue := Alloc(l.price, Total(after, c.venue) + q)], row')
  {
    var index, q := cs[i].index, MinInt(remaining, cs[i].available);
    FillStep(l, venues, cs, i, wanted, remaining, row);
    AllocateFirst(before, after, l, row, index, q);
    hide Allocated;
    row' := row[index := q];
  }

  lemma PlaceNone(l: Level, venues: set<nat>, cs: seq<Candidate>, wanted: int, before: map<nat, Alloc>)
    returns (row: seq<int>)
    requires Lists(cs, l, venues) && wanted >= 0
    ensures Placing(l, venues, cs, 0, wanted, wanted, before, before, row)
  {
    row := Zeroes(|l.quotes|);
    SumZeroes(row);
    NothingAllocated(before, l);
    hide Allocated;
  }

  lemma PlacedEnd(l: Level, venues: set<nat>, cs: seq<Candidate>, i: nat, wanted: int, remaining: int,
                  before: map<nat, Alloc>, after: map<nat, Alloc>, row: seq<int>)
    requires Lists(cs, l, venues) && Placing(l, venues, cs, i, wanted, remaining, before, after, row) && wanted >= 0
    requires i == |cs| || remaining <= 0
    ensures |row| == |l.quotes| && (forall k | 0 <= k < |row| :: 0 <= row[k] <= Offer(l, venues, k))
    ensures Sum(row) == MinInt(wanted, Sum(Offers(l, venues))) && remaining == wanted - Sum(row)
    ensures Allocated(before, after, l, row) && Drained(cs, row)
  {
    Filled(l, venues, cs, i, wanted, remaining, row);
  }

  lemma AllocateStep(before: map<nat, Alloc>, after: map<nat, Alloc>, l: Level, row: seq<int>, i: nat, q: int)
    requires |row| == |l.quotes| && i < |row| && Allocated(before, after, l, row)
    ensures var v := l.quotes[i].venue;
            Allocated(before, after[v := Alloc(l.price, Total(after, v) + q)], l, row[i := row[i] + q])
  {
    forall v: nat
      ensures Sum(Masked(l, row[i := row[i] + q], v)) ==
              Sum(Masked(l, row, v)) + if l.quotes[i].venue == v then q else 0
    {
      MaskedUpdate(l, row, i, q, v);
    }
  }

  /** The first quantity put on a quote. */
  lemma AllocateFirst(before: map<nat, Alloc>, after: map<nat, Alloc>, l: Level, row: seq<int>, i: nat, q: int)
    requires |row| == |l.quotes| && i < |row| && row[i] == 0 && Allocated(before, after, l, row)
    ensures var v := l.quotes[i].venue;
            Allocated(before, after[v := Alloc(l.price, Total(after, v) + q)], l, row[i := q])
  {
    AllocateStep(before, after, l, row, i, q);
    assert row[i] + q == q;
  }

  // ---- The smart sweep ----

  /** The sweep after k levels: they gave the rows, all they offer as long as something is still wanted. */
  ghost predicate Sweeping(levels: seq<Level>, venues: set<nat>, reach: nat, leaves: int, remaining: int, grid: Grid,
                           allocations: map<nat, Alloc>)
  {
    && RowsOk(levels, venues, reach, grid)
    && remaining >= 0 && Sum(LevelTotals(grid)) == leaves - remaining
    && Exhausting(LevelTotals(grid), Caps(levels, venues, reach)[..|grid|], remaining)
    && Tallied(levels, grid, allocations)
  }

  predicate RowsOk(levels: seq<Level>, venues: set<nat>, reach: nat, grid: Grid) {
    && |grid| <= |levels| && (forall l | 0 <= l < |grid| :: |grid[l]| == |levels[l].quotes|)
    && (forall l, i | 0 <= l < |grid| && 0 <= i < |grid[l]| ::
          0 <= grid[l][i] <= if l < reach then Offer(levels[l], venues, i) else 0)
  }

  /** Levels in turn give all they have for as long as anything is wanted. */
  predicate Exhausting(ts: seq<int>, caps: seq<int>, remaining: int) {
    Greedy(ts, caps) && (remaining > 0 ==> ts == caps)
  }

  lemma ExhaustMore(ts: seq<int>, caps: seq<int>, remaining: int, cap: int)
    requires Exhausting(ts, caps, remaining) && remaining >= 0 && cap >= 0
    ensures Exhausting(ts + [MinInt(remaining, cap)], caps + [cap], remaining - MinInt(remaining, cap))
  {}

  /** One more level. */
  lemma SweepStep(levels: seq<Level>, venues: set<nat>, reach: nat, leaves: int, remaining: int, grid: Grid,
                  allocations: map<nat, Alloc>, after: map<nat, Alloc>, row: seq<int>)
    requires Sweeping(levels, venues, reach, leaves, remaining, grid, allocations) && |grid| < |levels|
    requires var l := levels[|grid|];
             && |row| == |l.quotes|
             && (forall i | 0 <= i < |row| :: 0 <= row[i] <= if |grid| < reach then Offer(l, venues, i) else 0)
             && Sum(row) == MinInt(remaining, Caps(levels, venues, reach)[|grid|])
             && Allocated(allocations, after, l, row) && (after == allocations || Usable(l))
    ensures Sweeping(levels, venues, reach, leaves, remaining - Sum(row), grid + [row], after)
  {
    OffersNonneg(levels[|grid|], venues);
    TotalsSnoc(grid, Caps(levels, venues, reach), leaves, remaining, row);
    RowsSnoc(levels, venues, reach, grid, row);
    TallySnoc(levels, grid, allocations, after, row);
  }

  lemma TotalsSnoc(grid: Grid, caps: seq<int>, leaves: int, remaining: int, row: seq<int>)
    requires |grid| < |caps| && remaining >= 0 && caps[|grid|] >= 0 && Sum(row) == MinInt(remaining, caps[|grid|])
    requires Sum(LevelTotals(grid)) == leaves - remaining && Exhausting(LevelTotals(grid), caps[..|grid|], remaining)
    ensures Sum(LevelTotals(grid + [row])) == leaves - (remaining - Sum(row))
    ensures Exhausting(LevelTotals(grid + [row]), caps[..|grid + [row]|], remaining - Sum(row))
  {
    var k, ts := |grid|, LevelTotals(grid);
    assert LevelTotals(grid + [row]) == ts + [Sum(row)];
    assert caps[..k + 1] == caps[..k] + [caps[k]];
    ExhaustMore(ts, caps[..k], remaining, caps[k]);
    SumSnoc(ts, Sum(row));
  }

  lemma RowsSnoc(levels: seq<Level>, venues: set<nat>, reach: nat, grid: Grid, row: seq<int>)
    requires RowsOk(levels, venues, reach, grid) && |grid| < |levels| && |row| == |levels[|grid|].quotes|
    requires forall i | 0 <= i < |row| :: 0 <= row[i] <= if |grid| < reach then Offer(levels[|grid|], venues, i) else 0
    ensures RowsOk(levels, venues, reach, grid + [row])
  {}

  /** Every venue's slice totals what the rows give it, at the price of the last level that gave it something, or of a
      later one. */
  ghost predicate Tallied(levels: seq<Level>, grid: Grid, allocations: map<nat, Alloc>)
    requires |grid| <= |levels| && forall l | 0 <= l < |grid| :: |grid[l]| == |levels[l].quotes|
  {
    && (forall v: nat :: Total(allocations, v) == VenueSum(levels, grid, v))
    && (forall v, l | v in allocations && 0 <= l < |grid| && GivesVenue(levels, grid, l, v) ::
          PricedFrom(levels, l, |grid|, allocations[v].worstPrice))
  }

  predicate GivesVenue(levels: seq<Level>, grid: Grid, l: nat, v: nat)
    requires l < |grid| <= |levels| && |grid[l]| == |levels[l].quotes|
  {
    Sum(Masked(levels[l], grid[l], v)) > 0
  }

  /** The price of one of the levels from l to n. */
  predicate PricedFrom(levels: seq<Level>, l: nat, n: nat, price: int)
    requires n <= |levels|
  {
    exists m :: l <= m < n && Usable(levels[m]) && levels[m].price == price
  }

  lemma TallySnoc(levels: seq<Level>, grid: Grid, allocations: map<nat, Alloc>, after: map<nat, Alloc>, row: seq<int>)
    requires |grid| < |levels| && (forall l | 0 <= l < |grid| :: |grid[l]| == |levels[l].quotes|)
    requires |row| == |levels[|grid|].quotes|
    requires Tallied(levels, grid, allocations) && Allocated(allocations, after, levels[|grid|], row)
    requires after == allocations || Usable(levels[|grid|])
    ensures Tallied(levels, grid + [row], after)
  {
    var n, grid' := |grid|, grid + [row];
    forall v: nat ensures Total(after, v) == VenueSum(levels, grid', v) {
      assert grid'[..n] == grid;
    }
    forall v, l | v in after && 0 <= l < n + 1 && GivesVenue(levels, grid', l, v)
      ensures PricedFrom(levels, l, n + 1, after[v].worstPrice)
    {
      PriceKept(levels, grid, allocations, after, row, v, l);
    }
  }

  lemma PriceKept(levels: seq<Level>, grid: Grid, allocations: map<nat, Alloc>, after: map<nat, Alloc>, row: seq<int>,
                  v: nat, l: nat)
    requires |grid| < |levels| && (forall l | 0 <= l < |grid| :: |grid[l]| == |levels[l].quotes|)
    requires |row| == |levels[|grid|].quotes| && (after == allocations || Usable(levels[|grid|]))
    requires Tallied(levels, grid, allocations) && Allocated(allocations, after, levels[|grid|], row)
    requires v in after && l <= |grid| && GivesVenue(levels, grid + [row], l, v)
    ensures PricedFrom(levels, l, |grid| + 1, after[v].worstPrice)
  {
    var n := |grid|;
    if v in allocations && after[v] == allocations[v] {
      assert Total(after, v) == Total(allocations, v) + Sum(Masked(levels[n], row, v));
      assert l != n;
      assert GivesVenue(levels, grid, l, v);
      var m :| l <= m < n && Usable(levels[m]) && levels[m].price == allocations[v].worstPrice;
      assert l <= m < n + 1;
    } else {
      assert Usable(levels[n]) && levels[n].price == after[v].worstPrice;
    }
  }

  /** On a sorted book a slice's price accepts every level that gave its venue something. */
  lemma SlicePriceAccepts(levels: seq<Level>, grid: Grid, allocations: map<nat, Alloc>, isBuy: bool, v: nat, l: nat)
    requires |grid| <= |levels| && (forall l | 0 <= l < |grid| :: |grid[l]| == |levels[l].quotes|)
    requires Tallied(levels, grid, allocations) && Sorted(levels, isBuy) && v in allocations
    requires l < |grid| && Usable(levels[l]) && GivesVenue(levels, grid, l, v)
    ensures if isBuy then levels[l].price <= allocations[v].worstPrice else levels[l].price >= allocations[v].worstPrice
  {
    var m :| l <= m < |grid| && Usable(levels[m]) && levels[m].price == allocations[v].worstPrice;
    if l < m {
      assert Keys(levels, isBuy)[l] <= Keys(levels, isBuy)[m];
    }
  }

  /** A level that gives nothing, because it is out of reach, offers nothing, or nothing is wanted any more. */
  lemma SweepSkip(levels: seq<Level>, venues: set<nat>, reach: nat, leaves: int, remaining: int, grid: Grid,
                  allocations: map<nat, Alloc>)
    requires Sweeping(levels, venues, reach, leaves, remaining, grid, allocations) && |grid| < |levels|
    requires remaining == 0 || |grid| >= reach || !Usable(levels[|grid|])
    ensures Sweeping(levels, venues, reach, leaves, remaining, grid + [Zeroes(|levels[|grid|].quotes|)], allocations)
  {
    var l := levels[|grid|];
    var row := Zeroes(|l.quotes|);
    SumZeroes(row);
    OffersNonneg(l, venues);
    if !Usable(l) {
      OffersNothing(l, venues);
    }
    NothingAllocated(allocations, l);
    SweepStep(levels, venues, reach, leaves, remaining, grid, allocations, allocations, row);
  }

  /** No slice's price is beyond the worst acceptable one. */
  predicate InBand(allocations: map<nat, Alloc>, isBuy: bool, worst: int) {
    forall v | v in allocations :: if isBuy then allocations[v].worstPrice <= worst
                                   else allocations[v].worstPrice >= worst
  }

  lemma BandKept(before: map<nat, Alloc>, after: map<nat, Alloc>, l: Level, row: seq<int>, isBuy: bool, worst: int)
    requires |row| == |l.quotes| && Allocated(before, after, l, row) && InBand(before, isBuy, worst)
    requires !Beyond(l, isBuy, worst)
    ensures InBand(after, isBuy, worst)
  {}

  /** One level gives from its best venues first. */
  method SweepLevel(l: Level, scores: map<nat, VenueScore>, wanted: int, before: map<nat, Alloc>)
    returns (remaining: int, after: map<nat, Alloc>, ghost row: seq<int>)
    requires Usable(l) && |l.quotes| <= 16 && wanted >= 0
    ensures |row| == |l.quotes| && (forall k | 0 <= k < |row| :: 0 <= row[k] <= Offer(l, scores.Keys, k))
    ensures remaining == wanted - MinInt(wanted, Sum(Offers(l, scores.Keys))) == wanted - Sum(row)
    ensures Allocated(before, after, l, row) && BestFirst(l, scores, row)
  {
    var cs := CollectCandidates(l, scores);
    cs := SortByQuality(cs, l, scores);
    remaining, after, row := FillLevel(l, cs, wanted, before, scores.Keys);
    DrainedBestFirst(l, scores, cs, row);
    hide Allocated, Offers, BestFirst, Drained, Lists, Scored, Descending;
  }

  /** Levels in turn, best price first, within the worst acceptable price and as long as anything is wanted. */
  method SweepLevels(leaves: int, levels: seq<Level>, scores: map<nat, VenueScore>, isBuy: bool, worst: int)
    returns (byVenue: map<nat, Alloc>, ghost grid: Grid, ghost remaining: int)
    requires leaves >= 0 && forall l | 0 <= l < |levels| :: |levels[l].quotes| <= 16
    ensures InBand(byVenue, isBuy, worst) && |grid| == |levels|
    ensures Sweeping(levels, scores.Keys, Reach(levels, isBuy, worst), leaves, remaining, grid, byVenue)
    ensures AllBestFirst(levels, scores, grid)
  {
    ghost var reach, venues := Reach(levels, isBuy, worst), scores.Keys;
    var left := leaves;
    byVenue, grid := map[], [];
    hide Sweeping, Allocated, Offers, InBand, AllBestFirst, BestFirst, Reach;
    SweepStart(levels, scores, reach, leaves, isBuy, worst);
    var k := 0;
    while k < |levels| && left > 0 && !(Usable(levels[k]) && Beyond(levels[k], isBuy, worst))
      invariant k <= reach && |grid| == k && left >= 0 && InBand(byVenue, isBuy, worst)
      invariant Sweeping(levels, venues, reach, leaves, left, grid, byVenue) && AllBestFirst(levels, scores, grid)
    {
      if !Usable(levels[k]) {
        grid := SkipLevel(levels, scores, reach, leaves, left, grid, byVenue);
      } else {
        ghost var before, wanted := byVenue, left;
        ghost var row;
        left, byVenue, row := SweepLevel(levels[k], scores, left, byVenue);
        SweepFilled(levels, venues, reach, leaves, wanted, grid, before, byVenue, row);
        BestFirstOn(levels, scores, grid, row);
        BandKept(before, byVenue, levels[k], row, isBuy, worst);
        grid := grid + [row];
      }
      k := k + 1;
    }
    remaining := left;
    grid := SweepRest(levels, scores, reach, leaves, remaining, grid, byVenue);
  }

  /** The levels after the last one that gives anything. */
  lemma SweepRest(levels: seq<Level>, scores: map<nat, VenueScore>, reach: nat, leaves: int, remaining: int, grid: Grid,
                  allocations: map<nat, Alloc>) returns (grid': Grid)
    requires Sweeping(levels, scores.Keys, reach, leaves, remaining, grid, allocations)
    requires |grid| <= |levels| && (remaining <= 0 || |grid| >= reach) && AllBestFirst(levels, scores, grid)
    ensures Sweeping(levels, scores.Keys, reach, leaves, remaining, grid', allocations) && |grid'| == |levels|
    ensures AllBestFirst(levels, scores, grid')
    decreases |levels| - |grid|
  {
    if |grid| == |levels| {
      grid' := grid;
    } else {
      var more := SkipLevel(levels, scores, reach, leaves, remaining, grid, allocations);
      grid' := SweepRest(levels, scores, reach, leaves, remaining, more, allocations);
    }
  }

  /** A level that gives nothing. */
  lemma SkipLevel(levels: seq<Level>, scores: map<nat, VenueScore>, reach: nat, leaves: int, remaining: int, grid: Grid,
                  allocations: map<nat, Alloc>) returns (grid': Grid)
    requires Sweeping(levels, scores.Keys, reach, leaves, remaining, grid, allocations) && |grid| < |levels|
    requires remaining == 0 || |grid| >= reach || !Usable(levels[|grid|])
    requires AllBestFirst(levels, scores, grid)
    ensures Sweeping(levels, scores.Keys, reach, leaves, remaining, grid', allocations) && |grid'| == |grid| + 1
    ensures AllBestFirst(levels, scores, grid')
  {
    grid' := grid + [Zeroes(|levels[|grid|].quotes|)];
    SweepSkip(levels, scores.Keys, reach, leaves, remaining, grid, allocations);
    NothingBestFirst(levels[|grid|], scores);
    BestFirstOn(levels, scores, grid, Zeroes(|levels[|grid|].quotes|));
  }

  lemma BestFirstOn(levels: seq<Level>, scores: map<nat, VenueScore>, grid: Grid, row: seq<int>)
    requires AllBestFirst(levels, scores, grid) && |grid| < |levels|
    requires |row| == |levels[|grid|].quotes| && BestFirst(levels[|grid|], scores, row)
    ensures AllBestFirst(levels, scores, grid + [row])
  {
    hide BestFirst;
  }

  ghost predicate AllBestFirst(levels: seq<Level>, scores: map<nat, VenueScore>, grid: Grid) {
    && |grid| <= |levels|
    && forall l | 0 <= l < |grid| :: |grid[l]| == |levels[l].quotes| && BestFirst(levels[l], scores, grid[l])
  }

  lemma NothingBestFirst(l: Level, scores: map<nat, VenueScore>)
    ensures BestFirst(l, scores, Zeroes(|l.quotes|))
  {}

  /** The slices are the venues' totals of a grid that takes as much as is wanted and offered within the worst
      acceptable price, from no quote more than it displays, at no more cost than any other way to take that much, and
      within a level from the best venues first. */
  ghost predicate SweptBy(slices: seq<VenueSlice>, allocations: map<nat, Alloc>, grid: Grid, leaves: int,
                          levels: seq<Level>, scores: map<nat, VenueScore>, isBuy: bool, worst: int) {
    var reach, venues := Reach(levels, isBuy, worst), scores.Keys;
    && Feasible(grid, levels, venues, reach)
    && Sum(LevelTotals(grid)) == MinInt(leaves, Sum(Caps(levels, venues, reach)))
    && (Sorted(levels, isBuy) ==> Cheapest(grid, levels, venues, reach, isBuy))
    && Tallied(levels, grid, allocations) && InBand(allocations, isBuy, worst) && AllBestFirst(levels, scores, grid)
    && AreSlices(slices, allocations, 1, isBuy)
  }

  ghost predicate Cheapest(grid: Grid, levels: seq<Level>, venues: set<nat>, reach: nat, isBuy: bool)
    requires Feasible(grid, levels, venues, reach)
  {
    forall other: Grid | Feasible(other, levels, venues, reach) && Sum(LevelTotals(other)) == Sum(LevelTotals(grid)) ::
      Cost(grid, levels, isBuy) <= Cost(other, levels, isBuy)
  }

  ghost predicate Swept(slices: seq<VenueSlice>, leaves: int, levels: seq<Level>, scores: map<nat, VenueScore>,
                        isBuy: bool, worst: int) {
    exists allocations: map<nat, Alloc>, grid: Grid ::
      SweptBy(slices, allocations, grid, leaves, levels, scores, isBuy, worst)
  }

  /** The immediate-or-cancel sweep. */
  method SweepIoc(leaves: int, levels: seq<Level>, scores: map<nat, VenueScore>, isBuy: bool, worst: int)
    returns (slices: seq<VenueSlice>)
    requires leaves >= 0 && forall l | 0 <= l < |levels| :: |levels[l].quotes| <= 16
    ensures Swept(slices, leaves, levels, scores, isBuy, worst)
  {
    hide AreSlices, InBand, Sweeping, Tallied, Cheapest, AllBestFirst;
    var byVenue;
    ghost var grid, remaining;
    byVenue, grid, remaining := SweepLevels(leaves, levels, scores, isBuy, worst);
    SweepEnd(levels, scores.Keys, Reach(levels, isBuy, worst), leaves, remaining, grid, byVenue, isBuy);
    slices := MakeSlices(byVenue, 1, isBuy);
    assert SweptBy(slices, byVenue, grid, leaves, levels, scores, isBuy, worst);
  }

  lemma SweepFilled(levels: seq<Level>, venues: set<nat>, reach: nat, leaves: int, remaining: int, grid: Grid,
                    allocations: map<nat, Alloc>, after: map<nat, Alloc>, row: seq<int>)
    requires Sweeping(levels, venues, reach, leaves, remaining, grid, allocations) && |grid| < |levels|
    requires |grid| < reach
    requires var l := levels[|grid|];
             && |row| == |l.quotes| && (forall i | 0 <= i < |row| :: 0 <= row[i] <= Offer(l, venues, i))
             && Sum(row) == MinInt(remaining, Sum(Offers(l, venues)))
             && Allocated(allocations, after, l, row) && Usable(l)
    ensures Sweeping(levels, venues, reach, leaves, remaining - Sum(row), grid + [row], after)
  {
    SweepStep(levels, venues, reach, leaves, remaining, grid, allocations, after, row);
  }

  lemma SweepStart(levels: seq<Level>, scores: map<nat, VenueScore>, reach: nat, leaves: int, isBuy: bool, worst: int)
    requires leaves >= 0
    ensures Sweeping(levels, scores.Keys, reach, leaves, leaves, [], map[])
    ensures AllBestFirst(levels, scores, []) && InBand(map[], isBuy, worst)
  {}

  lemma SweepEnd(levels: seq<Level>, venues: set<nat>, reach: nat, leaves: int, remaining: int, grid: Grid,
                 allocations: map<nat, Alloc>, isBuy: bool)
    requires Sweeping(levels, venues, reach, leaves, remaining, grid, allocations) && |grid| == |levels|
    ensures Feasible(grid, levels, venues, reach) && Tallied(levels, grid, allocations)
    ensures Sum(LevelTotals(grid)) == MinInt(leaves, Sum(Caps(levels, venues, reach)))
    ensures Sorted(levels, isBuy) ==> Cheapest(grid, levels, venues, reach, isBuy)
  {
    var caps := Caps(levels, venues, reach);
    assert caps[..|levels|] == caps;
    SumAtMost(LevelTotals(grid), caps);
    if Sorted(levels, isBuy) {
      forall other: Grid | Feasible(other, levels, venues, reach) && Sum(LevelTotals(other)) == Sum(LevelTotals(grid))
        ensures Cost(grid, levels, isBuy) <= Cost(other, levels, isBuy) {
        SweepCheapest(grid, other, levels, venues, reach, isBuy);
      }
    }
  }

  // ---- The slices ----

  /** The most slices one decision has. */
  const MAX_SLICES: nat := 10

  datatype VenueSlice = VenueSlice(venue: nat, price: int, quantity: int)

  predicate Worthwhile(allocations: map<nat, Alloc>, v: nat, minSlice: int) {
    v in allocations && allocations[v].total >= minSlice
  }

  predicate SliceOf(s: VenueSlice, allocations: map<nat, Alloc>, minSlice: int) {
    && Worthwhile(allocations, s.venue, minSlice)
    && s.price == allocations[s.venue].worstPrice && s.quantity == allocations[s.venue].total
  }

  predicate HasSlice(slices: seq<VenueSlice>, v: nat) { exists i :: 0 <= i < |slices| && slices[i].venue == v }

  /** Slices of different venues, each all that its venue is allocated. */
  predicate SlicesFrom(slices: seq<VenueSlice>, allocations: map<nat, Alloc>, minSlice: int) {
    && |slices| <= MAX_SLICES && (forall i | 0 <= i < |slices| :: SliceOf(slices[i], allocations, minSlice))
    && (forall i, j | 0 <= i < j < |slices| :: slices[i].venue != slices[j].venue)
  }

  /** Best price first. */
  predicate PricesInOrder(slices: seq<VenueSlice>, isBuy: bool) {
    forall i, j | 0 <= i < j < |slices| ::
      if isBuy then slices[i].price <= slices[j].price else slices[i].price >= slices[j].price
  }

  /** One slice for every venue whose allocation is not too small, unless there are more than a decision may have. */
  ghost predicate AreSlices(slices: seq<VenueSlice>, allocations: map<nat, Alloc>, minSlice: int, isBuy: bool) {
    && SlicesFrom(slices, allocations, minSlice) && PricesInOrder(slices, isBuy)
    && (|slices| == MAX_SLICES || forall v | Worthwhile(allocations, v, minSlice) :: HasSlice(slices, v))
  }

  /** Turns allocations into slices, in no particular order, and sorts them. */
  method MakeSlices(allocations: map<nat, Alloc>, minSlice: int, isBuy: bool) returns (slices: seq<VenueSlice>)
    ensures AreSlices(slices, allocations, minSlice, isBuy)
  {
    slices := [];
    var rest := allocations.Keys;
    while rest != {}
      invariant rest <= allocations.Keys && SlicesFrom(slices, allocations, minSlice)
      invariant forall i | 0 <= i < |slices| :: slices[i].venue !in rest
      invariant forall v | Worthwhile(allocations, v, minSlice) && v !in rest :: HasSlice(slices, v)
      decreases |rest|
    {
      var v :| v in rest;
      rest := rest - {v};
      if allocations[v].total < minSlice {
        continue;
      }
      if |slices| >= MAX_SLICES {
        break;
      }
      MoreSlices(slices, VenueSlice(v, allocations[v].worstPrice, allocations[v].total));
      slices := slices + [VenueSlice(v, allocations[v].worstPrice, allocations[v].total)];
    }
    slices := SortSlices(slices, allocations, minSlice, isBuy);
  }

  lemma MoreSlices(slices: seq<VenueSlice>, s: VenueSlice)
    ensures forall v :: HasSlice(slices + [s], v) <==> v == s.venue || HasSlice(slices, v)
  {
    forall v ensures HasSlice(slices + [s], v) <==> v == s.venue || HasSlice(slices, v) {
      assert (slices + [s])[|slices|] == s;
      if HasSlice(slices, v) {
        var i :| 0 <= i < |slices| && slices[i].venue == v;
        assert (slices + [s])[i].venue == v;
      }
    }
  }

  /** The same venues, each once. */
  ghost predicate SameVenues(s: seq<VenueSlice>, t: seq<VenueSlice>) {
    |s| == |t| && forall v :: HasSlice(s, v) <==> HasSlice(t, v)
  }

  method SortSlices(slices: seq<VenueSlice>, ghost allocations: map<nat, Alloc>, ghost minSlice: int, isBuy: bool)
    returns (out: seq<VenueSlice>)
    requires SlicesFrom(slices, allocations, minSlice)
    ensures SlicesFrom(out, allocations, minSlice) && PricesInOrder(out, isBuy) && SameVenues(out, slices)
  {
    out := [];
    for k := 0 to |slices|
      invariant SlicesFrom(out, allocations, minSlice) && PricesInOrder(out, isBuy) && SameVenues(out, slices[..k])
    {
      var s := slices[k];
      assert !HasSlice(slices[..k], s.venue);
      ghost var before := out;
      var at := 0;
      while at < |out| && if isBuy then out[at].price <= s.price else out[at].price >= s.price
        invariant at <= |out|
        invariant forall i | 0 <= i < at :: if isBuy then out[i].price <= s.price else out[i].price >= s.price
      {
        at := at + 1;
      }
      out := out[..at] + [s] + out[at..];
      SlicePut(before, s, at, out, allocations, minSlice, isBuy);
      assert slices[..k + 1] == slices[..k] + [s];
      MoreSlices(slices[..k], s);
    }
    assert slices[..|slices|] == slices;
  }

  lemma SlicePutKeeps(before: seq<VenueSlice>, s: VenueSlice, at: nat, after: seq<VenueSlice>,
                      allocations: map<nat, Alloc>, minSlice: int)
    requires at <= |before| < MAX_SLICES && after == before[..at] + [s] + before[at..]
    requires SlicesFrom(before, allocations, minSlice) && !HasSlice(before, s.venue)
    requires SliceOf(s, allocations, minSlice)
    ensures SlicesFrom(after, allocations, minSlice)
  {
    forall i | 0 <= i < |after|
      ensures after[i] == if i < at then before[i] else if i == at then s else before[i - 1]
    {}
    hide SliceOf;
  }

  lemma SlicePutOrdered(before: seq<VenueSlice>, s: VenueSlice, at: nat, after: seq<VenueSlice>, isBuy: bool)
    requires at <= |before| && after == before[..at] + [s] + before[at..] && PricesInOrder(before, isBuy)
    requires forall i | 0 <= i < at :: if isBuy then before[i].price <= s.price else before[i].price >= s.price
    requires at < |before| ==> if isBuy then before[at].price > s.price else before[at].price < s.price
    ensures PricesInOrder(after, isBuy)
  {
    forall i | 0 <= i < |after|
      ensures after[i] == if i < at then before[i] else if i == at then s else before[i - 1]
    {}
    forall i | at <= i < |before| ensures if isBuy then before[i].price >= s.price else before[i].price <= s.price {
      assert at < i ==> if isBuy then before[at].price <= before[i].price else before[at].price >= before[i].price;
    }
  }

  lemma SlicePut(before: seq<VenueSlice>, s: VenueSlice, at: nat, after: seq<VenueSlice>, allocations: map<nat, Alloc>,
                 minSlice: int, isBuy: bool)
    requires at <= |before| < MAX_SLICES && after == before[..at] + [s] + before[at..]
    requires SlicesFrom(before, allocations, minSlice) && PricesInOrder(before, isBuy) && !HasSlice(before, s.venue)
    requires SliceOf(s, allocations, minSlice)
    requires forall i | 0 <= i < at :: if isBuy then before[i].price <= s.price else before[i].price >= s.price
    requires at < |before| ==> if isBuy then before[at].price > s.price else before[at].price < s.price
    ensures SlicesFrom(after, allocations, minSlice) && PricesInOrder(after, isBuy)
    ensures forall v :: HasSlice(after, v) <==> v == s.venue || HasSlice(before, v)
  {
    SlicePutKeeps(before, s, at, after, allocations, minSlice);
    SlicePutOrdered(before, s, at, after, isBuy);
    hide SlicesFrom, PricesInOrder;
    forall v ensures HasSlice(after, v) <==> v == s.venue || HasSlice(before, v) {
      assert after[at] == s;
      if HasSlice(before, v) {
        var i :| 0 <= i < |before| && before[i].venue == v;
        assert after[if i < at then i else i + 1] == before[i];
      }
    }
  }

  // ---- Fill-or-kill at one venue ----

  /** Everything the levels in reach offer. */
  function OfferGrid(levels: seq<Level>, venues: set<nat>, k: nat): (g: Grid)
    requires k <= |levels|
    ensures |g| == k && forall l | 0 <= l < k :: g[l] == Offers(levels[l], venues)
  {
    seq(k, l requires 0 <= l < k => Offers(levels[l], venues))
  }

  /** What one venue displays within the worst acceptable price. */
  function Displayed(levels: seq<Level>, venues: set<nat>, isBuy: bool, worst: int, v: nat): int {
    VenueSum(levels, OfferGrid(levels, venues, Reach(levels, isBuy, worst)), v)
  }

  /** Adds what each venue offers at one level to its candidate. */
  method TallyLevel(l: Level, scores: map<nat, VenueScore>, before: map<nat, Alloc>) returns (after: map<nat, Alloc>)
    requires Usable(l)
    ensures Allocated(before, after, l, Offers(l, scores.Keys))
  {
    after := before;
    ghost var row := Zeroes(|l.quotes|);
    forall v: nat ensures Sum(Masked(l, row, v)) == 0 {
      MaskedZeroes(l, v);
    }
    var i := 0;
    while i < |l.quotes|
      invariant i <= |l.quotes| == |row|
      invariant forall k | 0 <= k < |row| :: row[k] == if k < i then Offer(l, scores.Keys, k) else 0
      invariant Allocated(before, after, l, row)
    {
      var q := l.quotes[i];
      if q.quantity > 0 && q.venue in scores {
        AllocateFirst(before, after, l, row, i, q.quantity);
        after := after[q.venue := Alloc(l.price, Total(after, q.venue) + q.quantity)];
        row := row[i := q.quantity];
      }
      i := i + 1;
    }
    assert row == Offers(l, scores.Keys);
  }

  lemma OfferGridMore(levels: seq<Level>, venues: set<nat>, k: nat, v: nat)
    requires k < |levels|
    ensures VenueSum(levels, OfferGrid(levels, venues, k + 1), v) ==
            VenueSum(levels, OfferGrid(levels, venues, k), v) + Sum(Masked(levels[k], Offers(levels[k], venues), v))
  {
    assert OfferGrid(levels, venues, k + 1)[..k] == OfferGrid(levels, venues, k);
  }

  lemma OffersNothingThere(before: map<nat, Alloc>, l: Level, venues: set<nat>)
    requires !Usable(l)
    ensures Allocated(before, before, l, Offers(l, venues))
  {
    forall v: nat ensures Sum(Masked(l, Offers(l, venues), v)) == 0 {
      SumZeroes(Masked(l, Offers(l, venues), v));
    }
  }

  /** What the venues offer at one more level, tallied. */
  lemma TallyMore(levels: seq<Level>, venues: set<nat>, k: nat, before: map<nat, Alloc>, after: map<nat, Alloc>)
    requires k < |levels| && Tallied(levels, OfferGrid(levels, venues, k), before)
    requires Allocated(before, after, levels[k], Offers(levels[k], venues)) && (after == before || Usable(levels[k]))
    ensures Tallied(levels, OfferGrid(levels, venues, k + 1), after)
  {
    TallySnoc(levels, OfferGrid(levels, venues, k), before, after, Offers(levels[k], venues));
    assert OfferGrid(levels, venues, k + 1) == OfferGrid(levels, venues, k) + [Offers(levels[k], venues)];
  }

  /** Every venue's total over the levels in reach, with its worst price. */
  method TallyVenues(levels: seq<Level>, scores: map<nat, VenueScore>, isBuy: bool, worst: int)
    returns (candidates: map<nat, Alloc>)
    ensures Tallied(levels, OfferGrid(levels, scores.Keys, Reach(levels, isBuy, worst)), candidates)
    ensures InBand(candidates, isBuy, worst)
  {
    candidates := map[];
    hide Tallied, Allocated, InBand;
    TallyNone(levels, scores.Keys, isBuy, worst);
    var k := 0;
    while k < |levels| && !(Usable(levels[k]) && Beyond(levels[k], isBuy, worst))
      invariant k <= Reach(levels, isBuy, worst) && InBand(candidates, isBuy, worst)
      invariant Tallied(levels, OfferGrid(levels, scores.Keys, k), candidates)
    {
      var before := candidates;
      if Usable(levels[k]) {
        candidates := TallyLevel(levels[k], scores, candidates);
        BandKept(before, candidates, levels[k], Offers(levels[k], scores.Keys), isBuy, worst);
      } else {
        OffersNothingThere(before, levels[k], scores.Keys);
      }
      TallyMore(levels, scores.Keys, k, before, candidates);
      k := k + 1;
    }
  }

  lemma TallyNone(levels: seq<Level>, venues: set<nat>, isBuy: bool, worst: int)
    ensures Tallied(levels, OfferGrid(levels, venues, 0), map[]) && InBand(map[], isBuy, worst)
  {}

  /** The slice takes the whole quantity at its venue's worst price among the levels in reach. */
  ghost predicate WholeSlice(s: VenueSlice, quantity: int, levels: seq<Level>, venues: set<nat>, isBuy: bool,
                             worst: int) {
    var grid := OfferGrid(levels, venues, Reach(levels, isBuy, worst));
    && s.quantity == quantity && (if isBuy then s.price <= worst else s.price >= worst)
    && forall l | 0 <= l < |grid| && GivesVenue(levels, grid, l, s.venue) :: PricedFrom(levels, l, |grid|, s.price)
  }

  lemma {:induction false} UnscoredDisplaysNothing(levels: seq<Level>, venues: set<nat>, k: nat, v: nat)
    requires k <= |levels| && v !in venues
    ensures VenueSum(levels, OfferGrid(levels, venues, k), v) == 0
  {
    if k > 0 {
      UnscoredDisplaysNothing(levels, venues, k - 1, v);
      OfferGridMore(levels, venues, k - 1, v);
      SumZeroes(Masked(levels[k - 1], Offers(levels[k - 1], venues), v));
    }
  }

  /** A fill-or-kill order goes whole to one venue that displays enough, the one of best quality, or nowhere if none
      does; no venue that displays enough is faster and fills no less often. */
  method TryFok(quantity: int, levels: seq<Level>, scores: map<nat, VenueScore>, isBuy: bool, worst: int)
    returns (slice: Option<VenueSlice>)
    requires quantity > 0
    ensures slice.None? <==> forall v: nat :: Displayed(levels, scores.Keys, isBuy, worst, v) < quantity
    ensures slice.Some? ==>
              var s := slice.value;
              && s.venue in scores && Displayed(levels, scores.Keys, isBuy, worst, s.venue) >= quantity
              && WholeSlice(s, quantity, levels, scores.Keys, isBuy, worst)
              && forall v | v in scores && Displayed(levels, scores.Keys, isBuy, worst, v) >= quantity ::
                   !Faster(scores[v], scores[s.venue]) && LatencyQuality(scores[v]) <= LatencyQuality(scores[s.venue])
  {
    var candidates := TallyVenues(levels, scores, isBuy, worst);
    forall v: nat | v !in scores ensures Displayed(levels, scores.Keys, isBuy, worst, v) == 0 {
      UnscoredDisplaysNothing(levels, scores.Keys, Reach(levels, isBuy, worst), v);
    }
    var venue: Option<nat> := None;
    var rest := candidates.Keys;
    while rest != {}
      invariant rest <= candidates.Keys
      invariant venue.Some? ==>
                  venue.value in scores && venue.value in candidates && candidates[venue.value].total >= quantity
      invariant forall v | v in candidates && v !in rest && candidates[v].total >= quantity ::
                  venue.Some? && LatencyQuality(scores[v]) <= LatencyQuality(scores[venue.value])
      decreases |rest|
    {
      var v :| v in rest;
      rest := rest - {v};
      assert Total(candidates, v) == Displayed(levels, scores.Keys, isBuy, worst, v);
      if candidates[v].total >= quantity {
        if venue.None? || LatencyQuality(scores[v]) > LatencyQuality(scores[venue.value]) {
          venue := Some(v);
        }
      }
    }
    forall v: nat ensures venue.None? ==> Displayed(levels, scores.Keys, isBuy, worst, v) < quantity {
      assert Total(candidates, v) == Displayed(levels, scores.Keys, isBuy, worst, v);
    }
    if venue.None? {
      return None;
    }
    assert Total(candidates, venue.value) == Displayed(levels, scores.Keys, isBuy, worst, venue.value);
    slice := Some(VenueSlice(venue.value, candidates[venue.value].worstPrice, quantity));
    forall v | v in scores ensures Faster(scores[v], scores[venue.value]) ==>
                                     LatencyQuality(scores[v]) > LatencyQuality(scores[venue.value]) {
      QualityWeighs(scores[v], scores[venue.value], 0.0);
    }
  }

  // ---- The price band ----

  /** The worst price an order accepts, given the best bid and ask and the slippage allowed; none without a quote. */
  function WorstAcceptable(isBuy: bool, bestBid: int, bestAsk: int, ticks: int): int {
    if isBuy then if bestAsk == INVALID_PRICE then INVALID_PRICE else bestAsk + ticks
    else if bestBid == INVALID_PRICE then INVALID_PRICE
    else if bestBid - ticks > 0 then bestBid - ticks else 1
  }

  /** No allocation is made at a price worse than the best quote by more than the slippage allowed. */
  lemma WithinSlippage(grid: Grid, levels: seq<Level>, venues: set<nat>, isBuy: bool, bestBid: int, bestAsk: int,
                       ticks: int, l: nat, i: nat)
    requires var worst := WorstAcceptable(isBuy, bestBid, bestAsk, ticks);
             worst != INVALID_PRICE && Feasible(grid, levels, venues, Reach(levels, isBuy, worst))
    requires l < |levels| && l < |grid| && i < |grid[l]| && grid[l][i] > 0
    ensures if isBuy then levels[l].price <= bestAsk + ticks
            else levels[l].price >= bestBid - ticks && levels[l].price >= 1
  {
    var worst := WorstAcceptable(isBuy, bestBid, bestAsk, ticks);
    assert l < Reach(levels, isBuy, worst) && Offer(levels[l], venues, i) > 0;
  }

  /** The band ends exactly there: a level is beyond it if and only if its price is worse than the best quote by more
      than the slippage allowed, or no price at all. */
  lemma BeyondExactly(l: Level, isBuy: bool, bestBid: int, bestAsk: int, ticks: int)
    requires WorstAcceptable(isBuy, bestBid, bestAsk, ticks) != INVALID_PRICE
    ensures Beyond(l, isBuy, WorstAcceptable(isBuy, bestBid, bestAsk, ticks)) <==>
            if isBuy then l.price - bestAsk > ticks else bestBid - l.price > ticks || l.price < 1
  {}

  /** There is no band exactly when there is no quote to measure it from. */
  lemma NoBand(isBuy: bool, bestBid: int, bestAsk: int, ticks: int)
    requires 0 <= ticks && bestBid <= INVALID_PRICE && (bestAsk < INVALID_PRICE ==> bestAsk + ticks < INVALID_PRICE)
    requires ticks == 0 ==> bestAsk <= INVALID_PRICE
    ensures WorstAcceptable(isBuy, bestBid, bestAsk, ticks) == INVALID_PRICE <==>
            if isBuy then bestAsk == INVALID_PRICE else bestBid == INVALID_PRICE
  {}

  // ---- The pro-rata sweep ----

  /** A quote's share of what a level is to give: no more than it displays or than is left, small shares skipped. */
  function ShareOf(offer: int, share: nat, minSlice: int, rest: int): int {
    var s := MinInt(MinInt(share, offer), rest);
    if offer == 0 || (s < minSlice && s < rest) then 0 else s
  }

  /** The shares of the first k quotes. */
  function Shared(l: Level, venues: set<nat>, give: int, minSlice: int, shares: seq<nat>, k: nat): (row: seq<int>)
    requires k <= |l.quotes| <= |shares|
    ensures |row| == |l.quotes|
  {
    if k == 0 then Zeroes(|l.quotes|)
    else
      var row := Shared(l, venues, give, minSlice, shares, k - 1);
      row[k - 1 := ShareOf(Offer(l, venues, k - 1), shares[k - 1], minSlice, give - Sum(row))]
  }

  /** The first of the k quotes that displays most; an index past the end if none displays anything. */
  function FirstLargest(l: Level, venues: set<nat>, k: nat): (best: nat)
    requires k <= |l.quotes|
    ensures best <= |l.quotes|
  {
    if k == 0 then |l.quotes|
    else
      var best := FirstLargest(l, venues, k - 1);
      if Offer(l, venues, k - 1) > (if best < |l.quotes| then Offer(l, venues, best) else 0) then k - 1 else best
  }

  /** What the level is to give. */
  function ToGive(l: Level, venues: set<nat>, wanted: int): int { MinInt(wanted, Sum(Offers(l, venues))) }

  /** What the shares leave over. */
  function LeftOver(l: Level, venues: set<nat>, wanted: int, minSlice: int, shares: seq<nat>): int
    requires |l.quotes| <= |shares|
  {
    ToGive(l, venues, wanted) - Sum(Shared(l, venues, ToGive(l, venues, wanted), minSlice, shares, |l.quotes|))
  }

  /** Whether what is left over goes to the quote that displays most: not if that is venue 0's. */
  predicate Assigned(l: Level, venues: set<nat>) {
    var best := FirstLargest(l, venues, |l.quotes|);
    best < |l.quotes| && l.quotes[best].venue != 0
  }

  /** All that a level gives. */
  function LevelRow(l: Level, venues: set<nat>, wanted: int, minSlice: int, shares: seq<nat>): (row: seq<int>)
    requires |l.quotes| <= |shares|
    ensures |row| == |l.quotes|
  {
    var row := Shared(l, venues, ToGive(l, venues, wanted), minSlice, shares, |l.quotes|);
    var best, rest := FirstLargest(l, venues, |l.quotes|), LeftOver(l, venues, wanted, minSlice, shares);
    if rest > 0 && Assigned(l, venues) then row[best := row[best] + rest] else row
  }

  lemma {:induction false} FirstLargestIs(l: Level, venues: set<nat>, k: nat)
    requires k <= |l.quotes|
    ensures var best := FirstLargest(l, venues, k);
            if best == |l.quotes| then forall i | 0 <= i < k :: Offer(l, venues, i) == 0
            else best < k && Offer(l, venues, best) > 0
                 && (forall i | 0 <= i < k :: Offer(l, venues, i) <= Offer(l, venues, best))
                 && forall i | 0 <= i < best :: Offer(l, venues, i) < Offer(l, venues, best)
  {
    if k > 0 {
      FirstLargestIs(l, venues, k - 1);
    }
  }

  /** Shares stay within the displays and within what the level is to give. */
  lemma {:induction false} SharedGiving(l: Level, venues: set<nat>, give: int, minSlice: int, shares: seq<nat>, k: nat)
    requires k <= |l.quotes| <= |shares| && give >= 0
    ensures var row := Shared(l, venues, give, minSlice, shares, k); Giving(l, venues, k, row, Sum(row), give)
  {
    var row := Shared(l, venues, give, minSlice, shares, k);
    if k == 0 {
      SumZeroes(row);
    } else {
      SharedGiving(l, venues, give, minSlice, shares, k - 1);
      var front := Shared(l, venues, give, minSlice, shares, k - 1);
      GiveStep(l, venues, k - 1, front, Sum(front), give, row[k - 1]);
    }
  }

  /** Quotes not yet reached have no share. */
  lemma {:induction false} SharedNone(l: Level, venues: set<nat>, give: int, minSlice: int, shares: seq<nat>, k: nat,
                                      i: nat)
    requires k <= i < |l.quotes| <= |shares|
    ensures Shared(l, venues, give, minSlice, shares, k)[i] == 0
  {
    if k > 0 {
      SharedNone(l, venues, give, minSlice, shares, k - 1, i);
    }
  }

  /** Later quotes leave the shares of earlier ones alone. */
  lemma {:induction false} SharedStay(l: Level, venues: set<nat>, give: int, minSlice: int, shares: seq<nat>, k: nat,
                                      n: nat)
    requires k <= n <= |l.quotes| <= |shares|
    ensures var row := Shared(l, venues, give, minSlice, shares, n);
            forall i | 0 <= i < k :: row[i] == Shared(l, venues, give, minSlice, shares, k)[i]
  {
    if k < n {
      SharedStay(l, venues, give, minSlice, shares, k, n - 1);
    }
  }

  /** Each quote in turn gets the least of its share, its display and what is still to be given, unless that is below
      the smallest slice and does not finish the level. */
  lemma SharedEach(l: Level, venues: set<nat>, give: int, minSlice: int, shares: seq<nat>, k: nat)
    requires k < |l.quotes| <= |shares| && give >= 0
    ensures var row := Shared(l, venues, give, minSlice, shares, |l.quotes|);
            var offer, rest := Offer(l, venues, k), give - Sum(row[..k]);
            var least := if shares[k] <= offer && shares[k] <= rest then shares[k]
                         else if offer <= rest then offer else rest;
            row[k] == if least < minSlice && least < rest then 0 else least
  {
    var row := Shared(l, venues, give, minSlice, shares, |l.quotes|);
    var front := Shared(l, venues, give, minSlice, shares, k);
    SharedStay(l, venues, give, minSlice, shares, k, |l.quotes|);
    forall i | k <= i < |front| ensures front[i] == 0 {
      SharedNone(l, venues, give, minSlice, shares, k, i);
    }
    SharedStay(l, venues, give, minSlice, shares, k + 1, |l.quotes|);
    SharedGiving(l, venues, give, minSlice, shares, k);
    SumSplit(front, k);
    SumZeroes(front[k..]);
    assert row[..k] == front[..k];
    assert row[k] == Shared(l, venues, give, minSlice, shares, k + 1)[k];
  }

  /** Once everything is given the remaining quotes get nothing. */
  lemma {:induction false} SharedFull(l: Level, venues: set<nat>, give: int, minSlice: int, shares: seq<nat>, k: nat,
                                      n: nat)
    requires k <= n <= |l.quotes| <= |shares| && give >= 0 && Sum(Shared(l, venues, give, minSlice, shares, k)) == give
    ensures Shared(l, venues, give, minSlice, shares, n) == Shared(l, venues, give, minSlice, shares, k)
  {
    if k < n {
      SharedFull(l, venues, give, minSlice, shares, k, n - 1);
      SharedGiving(l, venues, give, minSlice, shares, n - 1);
      var row := Shared(l, venues, give, minSlice, shares, n - 1);
      assert row[n - 1] == 0 && row[n - 1 := 0] == row;
    }
  }

  /** If something is left over, some quote displays something. */
  lemma LeftOverShown(l: Level, venues: set<nat>, wanted: int, minSlice: int, shares: seq<nat>)
    requires |l.quotes| <= |shares| && wanted >= 0 && LeftOver(l, venues, wanted, minSlice, shares) > 0
    ensures FirstLargest(l, venues, |l.quotes|) < |l.quotes|
  {
    OffersNonneg(l, venues);
    SharedGiving(l, venues, ToGive(l, venues, wanted), minSlice, shares, |l.quotes|);
    FirstLargestIs(l, venues, |l.quotes|);
    if FirstLargest(l, venues, |l.quotes|) == |l.quotes| {
      SumZeroes(Offers(l, venues));
    }
  }

  /** What a level gives, in all and quote by quote. */
  lemma LevelGives(l: Level, venues: set<nat>, wanted: int, minSlice: int, shares: seq<nat>)
    requires |l.quotes| <= |shares| && wanted >= 0
    ensures var row := LevelRow(l, venues, wanted, minSlice, shares);
            var rest := LeftOver(l, venues, wanted, minSlice, shares);
            && RowShown(l, venues, row) && 0 <= rest <= ToGive(l, venues, wanted)
            && Sum(row) == ToGive(l, venues, wanted) - if Assigned(l, venues) then 0 else rest
  {
    OffersNonneg(l, venues);
    var give := ToGive(l, venues, wanted);
    var row := Shared(l, venues, give, minSlice, shares, |l.quotes|);
    SharedGiving(l, venues, give, minSlice, shares, |l.quotes|);
    FirstLargestIs(l, venues, |l.quotes|);
    var best, rest := FirstLargest(l, venues, |l.quotes|), LeftOver(l, venues, wanted, minSlice, shares);
    if rest > 0 && Assigned(l, venues) {
      SumUpdate(row, best, row[best] + rest);
    }
  }

  /** A level gives the smaller of what is wanted and what it displays exactly unless its shares leave something over
      and the quote that displays most is venue 0's. */
  lemma DroppedExactly(l: Level, venues: set<nat>, wanted: int, minSlice: int, shares: seq<nat>)
    requires |l.quotes| <= |shares| && wanted >= 0
    ensures Sum(LevelRow(l, venues, wanted, minSlice, shares)) == MinInt(wanted, Sum(Offers(l, venues))) <==>
            LeftOver(l, venues, wanted, minSlice, shares) == 0 || Assigned(l, venues)
  {
    LevelGives(l, venues, wanted, minSlice, shares);
  }

  /** No quote gives more than it displays exactly if what the shares leave over is nothing, is dropped, or fits into
      what the largest quote still has. */
  lemma OvershootsExactly(l: Level, venues: set<nat>, wanted: int, minSlice: int, shares: seq<nat>)
    requires |l.quotes| <= |shares| && wanted >= 0
    ensures var row := LevelRow(l, venues, wanted, minSlice, shares);
            var rest := LeftOver(l, venues, wanted, minSlice, shares);
            var best := FirstLargest(l, venues, |l.quotes|);
            var shared := Shared(l, venues, ToGive(l, venues, wanted), minSlice, shares, |l.quotes|);
            (forall i | 0 <= i < |row| :: row[i] <= Offer(l, venues, i)) <==>
            rest == 0 || !Assigned(l, venues)
            || shared[best] + rest <= Offer(l, venues, best)
  {
    OffersNonneg(l, venues);
    var give := ToGive(l, venues, wanted);
    var shared := Shared(l, venues, give, minSlice, shares, |l.quotes|);
    var row := LevelRow(l, venues, wanted, minSlice, shares);
    SharedGiving(l, venues, give, minSlice, shares, |l.quotes|);
    var best := FirstLargest(l, venues, |l.quotes|);
    if LeftOver(l, venues, wanted, minSlice, shares) > 0 && Assigned(l, venues) {
      assert row[best] == shared[best] + LeftOver(l, venues, wanted, minSlice, shares);
    }
  }

  /** The shares of a level that gives all it displays, in full: each quote its display, if none
      is below the smallest slice. */
  lemma {:induction false} SharedWhole(l: Level, venues: set<nat>, minSlice: int, shares: seq<nat>, k: nat)
    requires k <= |l.quotes| <= |shares|
    requires forall i | 0 <= i < |l.quotes| && Offer(l, venues, i) > 0 :: minSlice <= Offer(l, venues, i) <= shares[i]
    ensures var row, os := Shared(l, venues, Sum(Offers(l, venues)), minSlice, shares, k), Offers(l, venues);
            Sum(row) == Sum(os[..k]) && forall i | 0 <= i < |row| :: row[i] == if i < k then os[i] else 0
  {
    var os, give := Offers(l, venues), Sum(Offers(l, venues));
    var row := Shared(l, venues, give, minSlice, shares, k);
    if k == 0 {
      SumZeroes(row);
    } else {
      SharedWhole(l, venues, minSlice, shares, k - 1);
      var front := Shared(l, venues, give, minSlice, shares, k - 1);
      RoomLeft(os, k);
      ShareWhole(os[k - 1], shares[k - 1], minSlice, give - Sum(front));
      assert row == front[k - 1 := os[k - 1]];
      SumUpdate(front, k - 1, os[k - 1]);
      hide Shared, Offer, Offers, ShareOf, Sum;
    }
  }

  lemma ShareWhole(offer: int, share: nat, minSlice: int, rest: int)
    requires 0 <= offer <= rest && (offer > 0 ==> minSlice <= offer <= share)
    ensures ShareOf(offer, share, minSlice, rest) == offer
  {}

  /** Each quote finds its display still to be given. */
  lemma RoomLeft(os: seq<int>, k: nat)
    requires 0 < k <= |os| && forall i | 0 <= i < |os| :: os[i] >= 0
    ensures Sum(os[..k]) == Sum(os[..k - 1]) + os[k - 1] <= Sum(os)
  {
    assert os[..k] == os[..k - 1] + [os[k - 1]];
    SumSnoc(os[..k - 1], os[k - 1]);
    SumSplit(os, k);
    SumNonneg(os[k..]);
  }

  lemma {:induction false} SumSplit(s: seq<int>, k: nat)
    requires k <= |s|
    ensures Sum(s) == Sum(s[..k]) + Sum(s[k..])
    decreases |s| - k
  {
    if k == |s| {
      assert s[..k] == s;
    } else {
      SumSplit(s, k + 1);
      assert s[..k + 1] == s[..k] + [s[k]] && s[k..] == [s[k]] + s[k + 1..];
      SumSnoc(s[..k], s[k]);
      SumCons(s[k], s[k + 1..]);
    }
  }

  lemma {:induction false} SumCons(x: int, s: seq<int>)
    ensures Sum([x] + s) == x + Sum(s)
  {
    if s != [] {
      SumCons(x, s[..|s| - 1]);
      assert [x] + s == ([x] + s[..|s| - 1]) + [s[|s| - 1]] && s == s[..|s| - 1] + [s[|s| - 1]];
      SumSnoc([x] + s[..|s| - 1], s[|s| - 1]);
      SumSnoc(s[..|s| - 1], s[|s| - 1]);
    } else {
      assert [x] + s == [] + [x];
      SumSnoc([], x);
    }
  }

  lemma {:induction false} SumNonneg(s: seq<int>)
    requires forall i | 0 <= i < |s| :: s[i] >= 0
    ensures Sum(s) >= 0
  {
    if s != [] {
      SumNonneg(s[..|s| - 1]);
      assert s == s[..|s| - 1] + [s[|s| - 1]];
      SumSnoc(s[..|s| - 1], s[|s| - 1]);
    }
  }

  /** A level taken whole, with shares not rounded below the displays and no display below the smallest slice, gives
      exactly what each quote displays. */
  lemma WholeLevelFits(l: Level, venues: set<nat>, wanted: int, minSlice: int, shares: seq<nat>)
    requires |l.quotes| <= |shares| && wanted >= Sum(Offers(l, venues))
    requires forall i | 0 <= i < |l.quotes| && Offer(l, venues, i) > 0 :: minSlice <= Offer(l, venues, i) <= shares[i]
    ensures LevelRow(l, venues, wanted, minSlice, shares) == Offers(l, venues)
  {
    var os := Offers(l, venues);
    SharedWhole(l, venues, minSlice, shares, |l.quotes|);
    assert os[..|os|] == os;
    assert Shared(l, venues, ToGive(l, venues, wanted), minSlice, shares, |l.quotes|) == os;
  }

  // ---- Shares in exact arithmetic ----

  /** The shares proportional to the displays, each cut to an integer once. */
  function IdealShares(l: Level, venues: set<nat>, wanted: nat): (shares: seq<nat>)
    ensures |shares| == |l.quotes|
  {
    var give, available := ToGive(l, venues, wanted), Sum(Offers(l, venues));
    OffersNonneg(l, venues);
    seq(|l.quotes|, i requires 0 <= i < |l.quotes| => IdealShare(Offers(l, venues)[i], give, available))
  }

  function IdealShare(offer: nat, give: nat, available: nat): nat {
    if available > 0 then offer * give / available else 0
  }

  /** A share in exact arithmetic is within one of the quote's part of what is given, and within its display. */
  lemma IdealShareBounds(offer: nat, give: nat, available: nat)
    requires available > 0 && give <= available
    ensures var s := IdealShare(offer, give, available);
            offer * give - (available - 1) <= s * available <= offer * give && s <= offer
  {
    assert offer * give >= 0;
    assert offer * give <= offer * available;
    Increases(offer, IdealShare(offer, give, available), available);
  }

  lemma Increases(a: int, b: int, n: nat)
    requires n > 0
    ensures a < b ==> a * n + n <= b * n
  {
    if a < b {
      var d := b - a - 1;
      assert d * n >= 0;
      assert b * n == a * n + d * n + n;
    }
  }

  /** What the first k ideal shares have given is their part of the whole, up to one unit for each. */
  ghost predicate NearlyProportional(given: int, part: int, give: int, available: int, k: nat) {
    part * give - k * (available - 1) <= given * available <= part * give
  }

  lemma NearlyMore(given: int, part: int, give: nat, available: nat, k: nat, offer: nat)
    requires available > 0 && give <= available && part + offer <= available
    requires NearlyProportional(given, part, give, available, k)
    ensures var s := IdealShare(offer, give, available);
            NearlyProportional(given + s, part + offer, give, available, k + 1) && s <= give - given && s <= offer
  {
    var s := IdealShare(offer, give, available);
    IdealShareBounds(offer, give, available);
    assert (part + offer) * give == part * give + offer * give
           && (given + s) * available == given * available + s * available;
    assert (k + 1) * (available - 1) == k * (available - 1) + (available - 1);
    assert (part + offer) * give <= available * give;
    CancelFactor(given + s, give, available);
  }

  lemma CancelFactor(a: int, b: int, n: nat)
    requires n > 0 && a * n <= b * n
    ensures a <= b
  {
    Increases(b, a, n);
  }

  /** What the first k quotes have got by ideal shares; the others have nothing yet. */
  ghost predicate IdealSoFar(l: Level, venues: set<nat>, give: int, k: nat, row: seq<int>) {
    && k <= |l.quotes| == |row| && (forall i | k <= i < |row| :: row[i] == 0)
    && NearlyProportional(Sum(row), Sum(Offers(l, venues)[..k]), give, Sum(Offers(l, venues)), k)
  }

  lemma PartialSums(s: seq<int>, k: nat)
    requires k < |s| && forall i | 0 <= i < |s| :: s[i] >= 0
    ensures Sum(s[..k + 1]) == Sum(s[..k]) + s[k] <= Sum(s)
  {
    assert s[..k + 1] == s[..k] + [s[k]];
    SumSnoc(s[..k], s[k]);
    SumSplit(s, k + 1);
    SumNonneg(s[k + 1..]);
  }

  lemma IdealNext(l: Level, venues: set<nat>, wanted: nat, k: nat, row: seq<int>)
    requires k < |l.quotes| && Sum(Offers(l, venues)) > 0 && IdealSoFar(l, venues, ToGive(l, venues, wanted), k, row)
    ensures var share := IdealShares(l, venues, wanted)[k];
            && IdealSoFar(l, venues, ToGive(l, venues, wanted), k + 1, row[k := share])
            && share <= Offer(l, venues, k) && share <= ToGive(l, venues, wanted) - Sum(row)
  {
    var os, share := Offers(l, venues), IdealShares(l, venues, wanted)[k];
    PartialSums(os, k);
    SumUpdate(row, k, share);
    hide Sum;
    NearlyMore(Sum(row), Sum(os[..k]), ToGive(l, venues, wanted), Sum(os), k, os[k]);
    hide NearlyProportional, ToGive, IdealShare;
  }

  lemma {:induction false} IdealShared(l: Level, venues: set<nat>, wanted: nat, minSlice: int, k: nat)
    requires k <= |l.quotes| && minSlice <= 1 && Sum(Offers(l, venues)) > 0
    ensures var give := ToGive(l, venues, wanted);
            IdealSoFar(l, venues, give, k, Shared(l, venues, give, minSlice, IdealShares(l, venues, wanted), k))
  {
    var give, shares := ToGive(l, venues, wanted), IdealShares(l, venues, wanted);
    if k == 0 {
      SumZeroes(Zeroes(|l.quotes|));
    } else {
      var front := Shared(l, venues, give, minSlice, shares, k - 1);
      IdealShared(l, venues, wanted, minSlice, k - 1);
      IdealNext(l, venues, wanted, k - 1, front);
      hide IdealSoFar, Sum;
      IdealTaken(Offer(l, venues, k - 1), shares[k - 1], minSlice, give - Sum(front));
    }
  }

  /** An ideal share is neither cut nor skipped. */
  lemma IdealTaken(offer: nat, share: nat, minSlice: int, rest: int)
    requires minSlice <= 1 && share <= offer && share <= rest
    ensures ShareOf(offer, share, minSlice, rest) == share
  {}

  /** With ideal shares, and no dust skipped, less is left over than there are quotes. */
  lemma IdealLeavesLittle(l: Level, venues: set<nat>, wanted: nat, minSlice: int)
    requires minSlice <= 1
    ensures var rest := LeftOver(l, venues, wanted, minSlice, IdealShares(l, venues, wanted));
            0 <= rest && (rest > 0 ==> rest < |l.quotes|)
  {
    var os, give, shares := Offers(l, venues), ToGive(l, venues, wanted), IdealShares(l, venues, wanted);
    var n, given := |l.quotes|, Sum(Shared(l, venues, give, minSlice, shares, |l.quotes|));
    LevelGives(l, venues, wanted, minSlice, shares);
    OffersNonneg(l, venues);
    if Sum(os) > 0 {
      IdealShared(l, venues, wanted, minSlice, n);
      assert os[..n] == os;
      assert Sum(os) * give - n * (Sum(os) - 1) <= given * Sum(os);
      LittleLeft(Sum(os), give, given, n);
    }
  }

  lemma LittleLeft(available: nat, give: int, given: int, n: nat)
    requires available > 0 && available * give - n * (available - 1) <= given * available
    ensures give - given <= n && (n > 0 ==> give - given < n)
  {
    assert (give - given) * available == available * give - given * available;
    assert n * (available - 1) == n * available - n && (n - 1) * available == n * available - available;
    Increases(n - 1, give - given, available);
    Increases(n, give - given, available);
  }

  /** So no quote gives as much as the number of quotes more than it displays. */
  lemma IdealOvershoot(l: Level, venues: set<nat>, wanted: nat, minSlice: int, i: nat)
    requires minSlice <= 1 && i < |l.quotes|
    ensures LevelRow(l, venues, wanted, minSlice, IdealShares(l, venues, wanted))[i] < Offer(l, venues, i) + |l.quotes|
  {
    var shares := IdealShares(l, venues, wanted);
    IdealLeavesLittle(l, venues, wanted, minSlice);
    OffersNonneg(l, venues);
    SharedGiving(l, venues, ToGive(l, venues, wanted), minSlice, shares, |l.quotes|);
  }

  /** A level taken whole in exact arithmetic, with no display below the smallest slice, never gives more than is
      displayed anywhere: each quote gives its display. */
  lemma IdealWhole(l: Level, venues: set<nat>, wanted: nat, minSlice: int)
    requires wanted >= Sum(Offers(l, venues))
    requires forall i | 0 <= i < |l.quotes| && Offer(l, venues, i) > 0 :: minSlice <= Offer(l, venues, i)
    ensures LevelRow(l, venues, wanted, minSlice, IdealShares(l, venues, wanted)) == Offers(l, venues)
  {
    var os, shares := Offers(l, venues), IdealShares(l, venues, wanted);
    OffersNonneg(l, venues);
    forall i | 0 <= i < |l.quotes| && Offer(l, venues, i) > 0 ensures Offer(l, venues, i) <= shares[i] {
      SumAtLeast(os, i);
      WholeShare(os[i], Sum(os));
    }
    WholeLevelFits(l, venues, wanted, minSlice, shares);
  }

  lemma WholeShare(offer: nat, available: nat)
    requires available > 0
    ensures IdealShare(offer, available, available) == offer
  {
    UniqueShare(offer * available, available, offer);
  }

  lemma UniqueShare(a: nat, n: nat, q: nat)
    requires n > 0 && a == q * n
    ensures a / n == q
  {
    Increases(q, a / n, n);
    Increases(a / n, q, n);
  }

  lemma SumAtLeast(s: seq<int>, i: nat)
    requires i < |s| && forall j | 0 <= j < |s| :: s[j] >= 0
    ensures Sum(s) >= s[i]
  {
    SumUpdate(s, i, 0);
    SumNonneg(s[i := 0]);
  }

  /** Three quotes of one, two wanted: the shares, 2 / 3 each, are rounded to nothing, and the first venue,
      which displays one, gets two. */
  lemma OneQuoteGivesTwo()
    ensures var l := Level(100, 3, [Quote(1, 1), Quote(2, 1), Quote(3, 1)]);
            LevelRow(l, {1, 2, 3}, 2, 1, [0, 0, 0]) == [2, 0, 0] && Offer(l, {1, 2, 3}, 0) == 1
  {
    var l, venues, shares := Level(100, 3, [Quote(1, 1), Quote(2, 1), Quote(3, 1)]), {1, 2, 3}, [0, 0, 0];
    assert Offers(l, venues) == [1, 1, 1];
    SumThree(1, 1, 1);
    SumThree(0, 0, 0);
    NothingShared(l, venues, shares);
    assert FirstLargest(l, venues, 1) == 0 && FirstLargest(l, venues, 2) == 0 && FirstLargest(l, venues, 3) == 0;
  }

  /** Those are the shares of exact arithmetic. */
  lemma OneQuoteShares()
    ensures IdealShares(Level(100, 3, [Quote(1, 1), Quote(2, 1), Quote(3, 1)]), {1, 2, 3}, 2) == [0, 0, 0]
  {
    var l, venues := Level(100, 3, [Quote(1, 1), Quote(2, 1), Quote(3, 1)]), {1, 2, 3};
    assert Offers(l, venues) == [1, 1, 1];
    SumThree(1, 1, 1);
    assert IdealShare(1, 2, 3) == 0;
    hide IdealShare, Offer, Offers, Sum;
  }

  /** The same with venue 0 first: nothing is placed. */
  lemma VenueZeroGivesNothing()
    ensures var l := Level(100, 3, [Quote(0, 1), Quote(2, 1), Quote(3, 1)]);
            LevelRow(l, {0, 2, 3}, 2, 1, [0, 0, 0]) == [0, 0, 0] && Sum(Offers(l, {0, 2, 3})) == 3
  {
    var l, venues, shares := Level(100, 3, [Quote(0, 1), Quote(2, 1), Quote(3, 1)]), {0, 2, 3}, [0, 0, 0];
    assert Offers(l, venues) == [1, 1, 1];
    SumThree(1, 1, 1);
    SumThree(0, 0, 0);
    NothingShared(l, venues, shares);
    assert FirstLargest(l, venues, 1) == 0 && FirstLargest(l, venues, 2) == 0 && FirstLargest(l, venues, 3) == 0;
  }

  lemma SumThree(a: int, b: int, c: int)
    ensures Sum([a, b, c]) == a + b + c
  {
    assert [a, b, c] == ([] + [a] + [b]) + [c];
    SumSnoc([], a);
    SumSnoc([] + [a], b);
    SumSnoc([] + [a] + [b], c);
  }

  lemma NothingShared(l: Level, venues: set<nat>, shares: seq<nat>)
    requires |l.quotes| == 3 == |shares| && shares == [0, 0, 0]
    ensures Shared(l, venues, 2, 1, shares, 3) == [0, 0, 0]
  {
    SumThree(0, 0, 0);
    assert Shared(l, venues, 2, 1, shares, 0) == [0, 0, 0];
    assert Shared(l, venues, 2, 1, shares, 1) == [0, 0, 0];
    assert Shared(l, venues, 2, 1, shares, 2) == [0, 0, 0];
  }

  /** The quote of a usable venue that displays most, the first of them; an index past the end if there is none. */
  method LargestQuote(l: Level, venues: set<nat>) returns (best: nat)
    requires Usable(l)
    ensures best == FirstLargest(l, venues, |l.quotes|)
  {
    best := |l.quotes|;
    var bestQuantity := 0;
    var v := 0;
    while v < |l.quotes|
      invariant v <= |l.quotes| && best == FirstLargest(l, venues, v)
      invariant 0 <= bestQuantity == if best < |l.quotes| then Offer(l, venues, best) else 0
    {
      if l.quotes[v].quantity > bestQuantity && l.quotes[v].venue in venues {
        best, bestQuantity := v, l.quotes[v].quantity;
      }
      v := v + 1;
    }
  }

  method LevelAvailable(l: Level, venues: set<nat>) returns (available: int)
    requires Usable(l)
    ensures available == Sum(Offers(l, venues))
  {
    available := 0;
    var v := 0;
    while v < |l.quotes|
      invariant v <= |l.quotes| && available == Sum(Offers(l, venues)[..v])
    {
      assert Offers(l, venues)[..v + 1][..v] == Offers(l, venues)[..v];
      if l.quotes[v].quantity > 0 && l.quotes[v].venue in venues {
        available := available + l.quotes[v].quantity;
      }
      v := v + 1;
    }
    assert Offers(l, venues)[..v] == Offers(l, venues);
  }

  /** The first v quotes have been given something, in all no more than the level is to give. */
  predicate Giving(l: Level, venues: set<nat>, v: nat, row: seq<int>, given: int, give: int) {
    && v <= |l.quotes| == |row| && 0 <= given == Sum(row) <= give
    && forall i | 0 <= i < |row| :: 0 <= row[i] <= if i < v then Offer(l, venues, i) else 0
  }

  lemma GiveStep(l: Level, venues: set<nat>, v: nat, row: seq<int>, given: int, give: int, share: int)
    requires Giving(l, venues, v, row, given, give) && v < |l.quotes| && 0 <= share <= Offer(l, venues, v)
    requires given + share <= give
    ensures Giving(l, venues, v + 1, row[v := share], given + share, give)
  {
    SumUpdate(row, v, share);
  }

  /** One quote's turn in the share loop. */
  method GiveShare(l: Level, v: nat, rest: int, before: map<nat, Alloc>, venues: set<nat>, minSlice: int, share: nat)
    returns (given: int, after: map<nat, Alloc>)
    requires Usable(l) && v < |l.quotes| && rest >= 0
    ensures given == ShareOf(Offer(l, venues, v), share, minSlice, rest)
    ensures given == 0 || after == before[l.quotes[v].venue := Alloc(l.price, Total(before, l.quotes[v].venue) + given)]
    ensures given == 0 ==>
              after == before || after == before[l.quotes[v].venue := Alloc(l.price, Total(before, l.quotes[v].venue))]
  {
    given, after := 0, before;
    var q := l.quotes[v];
    if q.quantity > 0 && q.venue in venues {
      var s := MinInt(MinInt(share, q.quantity), rest);
      if !(s < minSlice && s < rest) {
        after := before[q.venue := Alloc(l.price, Total(before, q.venue) + s)];
        given := s;
      }
    }
  }

  lemma AllocatedShare(before: map<nat, Alloc>, now: map<nat, Alloc>, after: map<nat, Alloc>, l: Level, row: seq<int>,
                       v: nat, given: int)
    requires |row| == |l.quotes| && v < |l.quotes| && row[v] == 0 && Allocated(before, now, l, row)
    requires after == now[l.quotes[v].venue := Alloc(l.price, Total(now, l.quotes[v].venue) + given)]
             || (given == 0 && after == now)
    ensures Allocated(before, after, l, row[v := given])
  {
    if given == 0 && after == now {
      assert row[v := given] == row;
    } else {
      AllocateFirst(before, now, l, row, v, given);
    }
  }

  /** Gives a level's quotes their rounded shares of what the level is to give, small ones skipped. */
  method GiveShares(l: Level, give: int, before: map<nat, Alloc>, venues: set<nat>, minSlice: int, shares: seq<nat>)
    returns (given: int, after: map<nat, Alloc>)
    requires Usable(l) && give >= 0 && |shares| >= |l.quotes|
    ensures given == Sum(Shared(l, venues, give, minSlice, shares, |l.quotes|))
    ensures Allocated(before, after, l, Shared(l, venues, give, minSlice, shares, |l.quotes|))
  {
    given, after := 0, before;
    ghost var row := Zeroes(|l.quotes|);
    SharedStart(l, venues, give, minSlice, shares, before);
    hide SharedSoFar;
    var v := 0;
    while v < |l.quotes| && given < give
      invariant v <= |l.quotes| == |row| && SharedSoFar(l, venues, give, minSlice, shares, v, before, after, row, given)
    {
      ghost var now := after;
      var share;
      share, after := GiveShare(l, v, give - given, after, venues, minSlice, shares[v]);
      SharedOn(l, venues, give, minSlice, shares, v, before, now, after, row, given, share);
      row := row[v := share];
      given := given + share;
      v := v + 1;
    }
    SharedDone(l, venues, give, minSlice, shares, v, before, after, row, given);
  }

  lemma SharedStart(l: Level, venues: set<nat>, give: int, minSlice: int, shares: seq<nat>, before: map<nat, Alloc>)
    requires |l.quotes| <= |shares| && give >= 0
    ensures SharedSoFar(l, venues, give, minSlice, shares, 0, before, before, Zeroes(|l.quotes|), 0)
  {
    NothingAllocated(before, l);
    SumZeroes(Zeroes(|l.quotes|));
  }

  lemma SharedDone(l: Level, venues: set<nat>, give: int, minSlice: int, shares: seq<nat>, v: nat,
                   before: map<nat, Alloc>, after: map<nat, Alloc>, row: seq<int>, given: int)
    requires v <= |l.quotes| <= |shares| && give >= 0
    requires SharedSoFar(l, venues, give, minSlice, shares, v, before, after, row, given)
    requires v == |l.quotes| || given >= give
    ensures row == Shared(l, venues, give, minSlice, shares, |l.quotes|) && given == Sum(row)
    ensures Allocated(before, after, l, row)
  {
    if v < |l.quotes| {
      SharedFull(l, venues, give, minSlice, shares, v, |l.quotes|);
    }
  }

  /** The share loop after v quotes. */
  ghost predicate SharedSoFar(l: Level, venues: set<nat>, give: int, minSlice: int, shares: seq<nat>, v: nat,
                              before: map<nat, Alloc>, after: map<nat, Alloc>, row: seq<int>, given: int)
    requires v <= |l.quotes| <= |shares|
  {
    row == Shared(l, venues, give, minSlice, shares, v) && given == Sum(row) <= give && Allocated(before, after, l, row)
  }

  lemma SharedOn(l: Level, venues: set<nat>, give: int, minSlice: int, shares: seq<nat>, v: nat,
                 before: map<nat, Alloc>, now: map<nat, Alloc>, after: map<nat, Alloc>,
                 row: seq<int>, given: int, share: int)
    requires v < |l.quotes| <= |shares| && give >= 0
    requires SharedSoFar(l, venues, give, minSlice, shares, v, before, now, row, given)
    requires share == ShareOf(Offer(l, venues, v), shares[v], minSlice, give - given)
    requires after == now[l.quotes[v].venue := Alloc(l.price, Total(now, l.quotes[v].venue) + share)]
             || (share == 0 && after == now)
    ensures |row| == |l.quotes|
    ensures SharedSoFar(l, venues, give, minSlice, shares, v + 1, before, after, row[v := share], given + share)
  {
    SharedNext(l, venues, give, minSlice, shares, v);
    hide Allocated, Offer;
    AllocatedShare(before, now, after, l, row, v, share);
  }

  lemma SharedNext(l: Level, venues: set<nat>, give: int, minSlice: int, shares: seq<nat>, v: nat)
    requires v < |l.quotes| <= |shares| && give >= 0
    ensures var row := Shared(l, venues, give, minSlice, shares, v);
            var share := ShareOf(Offer(l, venues, v), shares[v], minSlice, give - Sum(row));
            && Shared(l, venues, give, minSlice, shares, v + 1) == row[v := share] && row[v] == 0
            && Sum(row[v := share]) == Sum(row) + share <= give
  {
    SharedGiving(l, venues, give, minSlice, shares, v);
    SharedGiving(l, venues, give, minSlice, shares, v + 1);
    var row := Shared(l, venues, give, minSlice, shares, v);
    SumUpdate(row, v, ShareOf(Offer(l, venues, v), shares[v], minSlice, give - Sum(row)));
  }

  lemma NothingAllocated(before: map<nat, Alloc>, l: Level)
    ensures Allocated(before, before, l, Zeroes(|l.quotes|))
  {
    forall v: nat ensures Sum(Masked(l, Zeroes(|l.quotes|), v)) == 0 {
      MaskedZeroes(l, v);
    }
  }

  /** One level: shares for all, and what rounding leaves to the venue that displays most. A remainder for venue 0 is
      dropped. */
  method ShareLevel(l: Level, wanted: int, before: map<nat, Alloc>, venues: set<nat>, minSlice: int, shares: seq<nat>)
    returns (remaining: int, after: map<nat, Alloc>)
    requires Usable(l) && wanted >= 0 && |shares| >= |l.quotes|
    ensures remaining == wanted - Sum(LevelRow(l, venues, wanted, minSlice, shares))
    ensures Allocated(before, after, l, LevelRow(l, venues, wanted, minSlice, shares))
  {
    var available := LevelAvailable(l, venues);
    var give := MinInt(wanted, available);
    OffersNonneg(l, venues);
    var given;
    given, after := GiveShares(l, give, before, venues, minSlice, shares);
    RestTold(l, venues, wanted, minSlice, shares, before, after);
    hide LevelRow, Shared, Allocated, Assigned, LeftOver, FirstLargest;
    if given < give {
      var best := LargestQuote(l, venues);
      if l.quotes[best].venue != 0 {
        var venue := l.quotes[best].venue;
        after := after[venue := Alloc(l.price, Total(after, venue) + (give - given))];
        given := give;
      }
    }
    remaining := wanted - given;
  }

  /** The row is the shares, and the remainder goes to the largest quote unless that is venue 0's. */
  lemma RowAndRest(l: Level, venues: set<nat>, wanted: int, minSlice: int, shares: seq<nat>)
    requires |l.quotes| <= |shares| && wanted >= 0
    ensures var give, best := ToGive(l, venues, wanted), FirstLargest(l, venues, |l.quotes|);
            var part := Shared(l, venues, give, minSlice, shares, |l.quotes|);
            var row := LevelRow(l, venues, wanted, minSlice, shares);
            && (Sum(part) < give ==> best < |l.quotes|)
            && if Sum(part) >= give || l.quotes[best].venue == 0 then row == part
               else row == part[best := part[best] + (give - Sum(part))] && Sum(row) == give
  {
    LevelGives(l, venues, wanted, minSlice, shares);
    hide Shared, Sum, ToGive, RowShown, FirstLargest;
    if LeftOver(l, venues, wanted, minSlice, shares) > 0 {
      LeftOverShown(l, venues, wanted, minSlice, shares);
    }
  }

  /** What becomes of the remainder once the shares are given. */
  lemma RestTold(l: Level, venues: set<nat>, wanted: int, minSlice: int, shares: seq<nat>, before: map<nat, Alloc>,
                 after: map<nat, Alloc>)
    requires |l.quotes| <= |shares| && wanted >= 0
    requires Allocated(before, after, l, Shared(l, venues, ToGive(l, venues, wanted), minSlice, shares, |l.quotes|))
    ensures var give := ToGive(l, venues, wanted);
            var given := Sum(Shared(l, venues, give, minSlice, shares, |l.quotes|));
            var row, best := LevelRow(l, venues, wanted, minSlice, shares), FirstLargest(l, venues, |l.quotes|);
            if given >= give then Allocated(before, after, l, row) && Sum(row) == given
            else
              && best < |l.quotes|
              && var v := l.quotes[best].venue;
              if v == 0 then Allocated(before, after, l, row) && Sum(row) == given
              else
                && Sum(row) == give
                && Allocated(before, after[v := Alloc(l.price, Total(after, v) + (give - given))], l, row)
  {
    var give := ToGive(l, venues, wanted);
    var part, best := Shared(l, venues, give, minSlice, shares, |l.quotes|), FirstLargest(l, venues, |l.quotes|);
    RowAndRest(l, venues, wanted, minSlice, shares);
    hide Shared, Allocated, FirstLargest, Sum, ToGive, Total, LevelRow;
    if Sum(part) < give {
      AllocateStep(before, after, l, part, best, give - Sum(part));
    }
  }

  /** Nothing is taken where nothing is displayed. */
  predicate ShownOnly(levels: seq<Level>, venues: set<nat>, grid: Grid) {
    && |grid| <= |levels| && (forall l | 0 <= l < |grid| :: |grid[l]| == |levels[l].quotes|)
    && (forall l | 0 <= l < |grid| :: RowShown(levels[l], venues, grid[l]))
  }

  predicate RowShown(l: Level, venues: set<nat>, row: seq<int>) {
    |row| == |l.quotes| && forall i | 0 <= i < |row| :: row[i] >= 0 && (Offer(l, venues, i) == 0 ==> row[i] == 0)
  }

  lemma ShownSnoc(levels: seq<Level>, venues: set<nat>, grid: Grid, row: seq<int>)
    requires ShownOnly(levels, venues, grid) && |grid| < |levels| && RowShown(levels[|grid|], venues, row)
    ensures ShownOnly(levels, venues, grid + [row])
  {}

  /** There is a share for every quote. */
  predicate SharesFit(levels: seq<Level>, shares: seq<seq<nat>>) {
    |shares| == |levels| && forall l | 0 <= l < |levels| :: |shares[l]| >= |levels[l].quotes|
  }

  /** What is still wanted at level k. */
  function WantedAt(leaves: int, grid: Grid, k: nat): int
    requires k <= |grid|
  {
    leaves - Sum(LevelTotals(grid[..k]))
  }

  /** Every level gives its row for what is still wanted there. */
  ghost predicate Followed(levels: seq<Level>, venues: set<nat>, minSlice: int, shares: seq<seq<nat>>, leaves: int,
                           grid: Grid)
    requires SharesFit(levels, shares)
  {
    |grid| <= |levels| && forall k | 0 <= k < |grid| :: FollowedAt(levels, venues, minSlice, shares, leaves, grid, k)
  }

  ghost predicate FollowedAt(levels: seq<Level>, venues: set<nat>, minSlice: int, shares: seq<seq<nat>>, leaves: int,
                             grid: Grid, k: nat)
    requires SharesFit(levels, shares) && k < |grid| <= |levels|
  {
    && WantedAt(leaves, grid, k) >= 0
    && grid[k] == LevelRow(levels[k], venues, WantedAt(leaves, grid, k), minSlice, shares[k])
  }

  lemma FollowedSnoc(levels: seq<Level>, venues: set<nat>, minSlice: int, shares: seq<seq<nat>>, leaves: int,
                     grid: Grid, row: seq<int>)
    requires SharesFit(levels, shares) && |grid| < |levels| && Followed(levels, venues, minSlice, shares, leaves, grid)
    requires leaves - Sum(LevelTotals(grid)) >= 0
    requires row == LevelRow(levels[|grid|], venues, leaves - Sum(LevelTotals(grid)), minSlice, shares[|grid|])
    ensures Followed(levels, venues, minSlice, shares, leaves, grid + [row])
  {
    forall k | 0 <= k < |grid| + 1 ensures FollowedAt(levels, venues, minSlice, shares, leaves, grid + [row], k) {
      assert (grid + [row])[..k] == grid[..k];
      if k < |grid| {
        assert FollowedAt(levels, venues, minSlice, shares, leaves, grid, k);
      } else {
        assert grid[..k] == grid;
      }
    }
  }

  /** The pro-rata sweep after its first levels. */
  ghost predicate Sharing(levels: seq<Level>, venues: set<nat>, minSlice: int, shares: seq<seq<nat>>, leaves: int,
                          remaining: int, grid: Grid, allocations: map<nat, Alloc>)
    requires SharesFit(levels, shares)
  {
    && ShownOnly(levels, venues, grid) && Followed(levels, venues, minSlice, shares, leaves, grid)
    && remaining >= 0 && Sum(LevelTotals(grid)) == leaves - remaining && Tallied(levels, grid, allocations)
    && (0 !in venues ==> InTurn(levels, venues, grid, remaining))
  }

  /** The levels so far give all they have for as long as anything is wanted. */
  predicate InTurn(levels: seq<Level>, venues: set<nat>, grid: Grid, remaining: int)
    requires |grid| <= |levels|
  {
    Exhausting(LevelTotals(grid), Caps(levels, venues, |levels|)[..|grid|], remaining)
  }

  lemma InTurnStep(levels: seq<Level>, venues: set<nat>, leaves: int, remaining: int, grid: Grid, row: seq<int>)
    requires |grid| < |levels| && InTurn(levels, venues, grid, remaining) && remaining >= 0
    requires Sum(LevelTotals(grid)) == leaves - remaining
    requires Sum(row) == MinInt(remaining, Sum(Offers(levels[|grid|], venues)))
    ensures InTurn(levels, venues, grid + [row], remaining - Sum(row))
  {
    OffersNonneg(levels[|grid|], venues);
    TotalsSnoc(grid, Caps(levels, venues, |levels|), leaves, remaining, row);
  }

  /** A usable venue other than venue 0 always takes what the shares leave over. */
  lemma NothingDropped(l: Level, venues: set<nat>, wanted: int, minSlice: int, shares: seq<nat>)
    requires |l.quotes| <= |shares| && wanted >= 0 && 0 !in venues
    ensures Sum(LevelRow(l, venues, wanted, minSlice, shares)) == MinInt(wanted, Sum(Offers(l, venues)))
  {
    DroppedExactly(l, venues, wanted, minSlice, shares);
    LevelGives(l, venues, wanted, minSlice, shares);
    if LeftOver(l, venues, wanted, minSlice, shares) > 0 {
      LeftOverShown(l, venues, wanted, minSlice, shares);
      FirstLargestIs(l, venues, |l.quotes|);
    }
  }

  lemma ShareStep(levels: seq<Level>, venues: set<nat>, minSlice: int, shares: seq<seq<nat>>, leaves: int,
                  remaining: int, grid: Grid, allocations: map<nat, Alloc>, after: map<nat, Alloc>)
    requires SharesFit(levels, shares) && |grid| < |levels|
    requires Sharing(levels, venues, minSlice, shares, leaves, remaining, grid, allocations)
    requires Allocated(allocations, after, levels[|grid|],
                       LevelRow(levels[|grid|], venues, remaining, minSlice, shares[|grid|]))
    requires after == allocations || Usable(levels[|grid|])
    ensures var row := LevelRow(levels[|grid|], venues, remaining, minSlice, shares[|grid|]);
            Sharing(levels, venues, minSlice, shares, leaves, remaining - Sum(row), grid + [row], after)
  {
    var l := levels[|grid|];
    var row := LevelRow(l, venues, remaining, minSlice, shares[|grid|]);
    LevelGives(l, venues, remaining, minSlice, shares[|grid|]);
    TallySnoc(levels, grid, allocations, after, row);
    ShownSnoc(levels, venues, grid, row);
    FollowedSnoc(levels, venues, minSlice, shares, leaves, grid, row);
    if 0 !in venues {
      NothingDropped(l, venues, remaining, minSlice, shares[|grid|]);
      InTurnStep(levels, venues, leaves, remaining, grid, row);
    }
    TotalSnoc(grid, row);
    hide LevelRow, Followed, Tallied, InTurn, Allocated;
  }

  lemma TotalSnoc(grid: Grid, row: seq<int>)
    ensures Sum(LevelTotals(grid + [row])) == Sum(LevelTotals(grid)) + Sum(row)
  {
    assert LevelTotals(grid + [row]) == LevelTotals(grid) + [Sum(row)];
    SumSnoc(LevelTotals(grid), Sum(row));
  }

  /** A level that cannot give anything, or is asked for nothing, gives nothing. */
  lemma LevelNothing(l: Level, venues: set<nat>, wanted: int, minSlice: int, shares: seq<nat>)
    requires |l.quotes| <= |shares| && wanted >= 0 && (wanted == 0 || !Usable(l))
    ensures LevelRow(l, venues, wanted, minSlice, shares) == Zeroes(|l.quotes|)
  {
    OffersNonneg(l, venues);
    if !Usable(l) {
      OffersNothing(l, venues);
    }
    SumZeroes(Zeroes(|l.quotes|));
    SharedFull(l, venues, 0, minSlice, shares, 0, |l.quotes|);
  }

  lemma ShareSkip(levels: seq<Level>, venues: set<nat>, minSlice: int, shares: seq<seq<nat>>, leaves: int,
                  remaining: int, grid: Grid, allocations: map<nat, Alloc>)
    requires SharesFit(levels, shares) && |grid| < |levels| && (remaining == 0 || !Usable(levels[|grid|]))
    requires Sharing(levels, venues, minSlice, shares, leaves, remaining, grid, allocations)
    ensures var row := LevelRow(levels[|grid|], venues, remaining, minSlice, shares[|grid|]);
            Sharing(levels, venues, minSlice, shares, leaves, remaining, grid + [row], allocations)
  {
    var l := levels[|grid|];
    LevelNothing(l, venues, remaining, minSlice, shares[|grid|]);
    SumZeroes(Zeroes(|l.quotes|));
    NothingAllocated(allocations, l);
    ShareStep(levels, venues, minSlice, shares, leaves, remaining, grid, allocations, allocations);
  }

  /** The slices are the venues' totals of a grid in which every level gives its row for what is still wanted, better
      levels first: never more than wanted and, without a venue of id 0, exactly the smaller of what is wanted and what
      is displayed. */
  ghost predicate SharedBy(slices: seq<VenueSlice>, allocations: map<nat, Alloc>, grid: Grid, leaves: int,
                           levels: seq<Level>, venues: set<nat>, minSlice: int, shares: seq<seq<nat>>, isBuy: bool)
    requires SharesFit(levels, shares)
  {
    && Shaped(grid, levels) && Tallied(levels, grid, allocations) && ShownOnly(levels, venues, grid)
    && Followed(levels, venues, minSlice, shares, leaves, grid) && Sum(LevelTotals(grid)) <= leaves
    && (0 !in venues ==>
          && Greedy(LevelTotals(grid), Caps(levels, venues, |levels|))
          && Sum(LevelTotals(grid)) == MinInt(leaves, Sum(Caps(levels, venues, |levels|))))
    && AreSlices(slices, allocations, minSlice, isBuy)
  }

  ghost predicate SharedOut(slices: seq<VenueSlice>, leaves: int, levels: seq<Level>, venues: set<nat>, minSlice: int,
                            shares: seq<seq<nat>>, isBuy: bool)
    requires SharesFit(levels, shares)
  {
    exists allocations: map<nat, Alloc>, grid: Grid ::
      SharedBy(slices, allocations, grid, leaves, levels, venues, minSlice, shares, isBuy)
  }

  /** The liquidity sweep. */
  method SweepProRata(leaves: int, levels: seq<Level>, venues: set<nat>, minSlice: int, shares: seq<seq<nat>>,
                      isBuy: bool)
    returns (slices: seq<VenueSlice>)
    requires leaves >= 0 && SharesFit(levels, shares)
    ensures SharedOut(slices, leaves, levels, venues, minSlice, shares, isBuy)
  {
    var byVenue;
    ghost var grid, remaining;
    byVenue, grid, remaining := ShareLevels(leaves, levels, venues, minSlice, shares);
    ShareEnd(levels, venues, minSlice, shares, leaves, remaining, grid, byVenue);
    hide AreSlices, Tallied, ShownOnly, Followed, Greedy, Sharing;
    slices := MakeSlices(byVenue, minSlice, isBuy);
    assert SharedBy(slices, byVenue, grid, leaves, levels, venues, minSlice, shares, isBuy);
  }

  /** Levels in turn, best price first, as long as anything is wanted. */
  method ShareLevels(leaves: int, levels: seq<Level>, venues: set<nat>, minSlice: int, shares: seq<seq<nat>>)
    returns (byVenue: map<nat, Alloc>, ghost grid: Grid, ghost remaining: int)
    requires leaves >= 0 && SharesFit(levels, shares)
    ensures Sharing(levels, venues, minSlice, shares, leaves, remaining, grid, byVenue) && |grid| == |levels|
  {
    var wanted := leaves;
    byVenue, grid := map[], [];
    ShareBegin(levels, venues, minSlice, shares, leaves);
    hide Sharing, Allocated, LevelRow;
    var k := 0;
    while k < |levels| && wanted > 0
      invariant k <= |levels| && |grid| == k && wanted >= 0
      invariant Sharing(levels, venues, minSlice, shares, leaves, wanted, grid, byVenue)
    {
      var l := levels[k];
      ghost var row := LevelRow(l, venues, wanted, minSlice, shares[k]);
      if !Usable(l) {
        ShareSkip(levels, venues, minSlice, shares, leaves, wanted, grid, byVenue);
      } else {
        var left, after := ShareLevel(l, wanted, byVenue, venues, minSlice, shares[k]);
        LevelGives(l, venues, wanted, minSlice, shares[k]);
        ShareStep(levels, venues, minSlice, shares, leaves, wanted, grid, byVenue, after);
        wanted, byVenue := left, after;
      }
      grid := grid + [row];
      k := k + 1;
    }
    remaining := wanted;
    grid := ShareRest(levels, venues, minSlice, shares, leaves, remaining, grid, byVenue);
  }

  /** The levels after the last one that is asked for anything. */
  lemma ShareRest(levels: seq<Level>, venues: set<nat>, minSlice: int, shares: seq<seq<nat>>, leaves: int,
                  remaining: int, grid: Grid, allocations: map<nat, Alloc>) returns (grid': Grid)
    requires SharesFit(levels, shares) && |grid| <= |levels| && (|grid| < |levels| ==> remaining == 0)
    requires Sharing(levels, venues, minSlice, shares, leaves, remaining, grid, allocations)
    ensures Sharing(levels, venues, minSlice, shares, leaves, remaining, grid', allocations) && |grid'| == |levels|
    decreases |levels| - |grid|
  {
    if |grid| == |levels| {
      grid' := grid;
    } else {
      var row := LevelRow(levels[|grid|], venues, remaining, minSlice, shares[|grid|]);
      ShareSkip(levels, venues, minSlice, shares, leaves, remaining, grid, allocations);
      grid' := ShareRest(levels, venues, minSlice, shares, leaves, remaining, grid + [row], allocations);
    }
  }

  lemma ShareBegin(levels: seq<Level>, venues: set<nat>, minSlice: int, shares: seq<seq<nat>>, leaves: int)
    requires SharesFit(levels, shares) && leaves >= 0
    ensures Sharing(levels, venues, minSlice, shares, leaves, leaves, [], map[])
  {}

  lemma ShareEnd(levels: seq<Level>, venues: set<nat>, minSlice: int, shares: seq<seq<nat>>, leaves: int,
                 remaining: int, grid: Grid, allocations: map<nat, Alloc>)
    requires SharesFit(levels, shares)
    requires Sharing(levels, venues, minSlice, shares, leaves, remaining, grid, allocations)
    requires |grid| == |levels|
    ensures Shaped(grid, levels) && Tallied(levels, grid, allocations) && ShownOnly(levels, venues, grid)
    ensures Followed(levels, venues, minSlice, shares, leaves, grid) && Sum(LevelTotals(grid)) <= leaves
    ensures 0 !in venues ==>
              && Greedy(LevelTotals(grid), Caps(levels, venues, |levels|))
              && Sum(LevelTotals(grid)) == MinInt(leaves, Sum(Caps(levels, venues, |levels|)))
  {
    var caps := Caps(levels, venues, |levels|);
    assert caps[..|levels|] == caps;
    if 0 !in venues {
      SumAtMost(LevelTotals(grid), caps);
    }
  }
}
