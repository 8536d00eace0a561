/** One side of a venue's book: a bounded array of price levels kept in price order in place. */
module BookSides {

  const MAX_DEPTH: nat := 20

  const INVALID_PRICE: int := 0x7FFF_FFFF_FFFF_FFFF

  datatype PriceLevel = PriceLevel(price: int, quantity: int, orderCount: int)

  const EMPTY_LEVEL: PriceLevel := PriceLevel(INVALID_PRICE, 0, 0)

  /** Better prices have smaller keys: higher for bids, lower for asks. */
  function Key(price: int, isBid: bool): int { if isBid then -price else price }

  predicate Ordered(s: seq<PriceLevel>, isBid: bool) {
    forall i, j | 0 <= i < j < |s| :: Key(s[i].price, isBid) < Key(s[j].price, isBid)
  }

  predicate HasPrice(s: seq<PriceLevel>, p: int) { exists i :: 0 <= i < |s| && s[i].price == p }

  // ---- What an insertion and a removal do ----

  /** How many levels are better than a price. */
  function Place(s: seq<PriceLevel>, p: int, isBid: bool): (pos: nat)
    ensures pos <= |s| && (forall i | 0 <= i < pos :: Key(s[i].price, isBid) < Key(p, isBid))
    ensures pos < |s| ==> Key(s[pos].price, isBid) >= Key(p, isBid)
  {
    if s == [] || Key(s[0].price, isBid) >= Key(p, isBid) then 0 else 1 + Place(s[1..], p, isBid)
  }

  function Inserted(s: seq<PriceLevel>, level: PriceLevel, isBid: bool): seq<PriceLevel>
    requires |s| <= MAX_DEPTH
  {
    if |s| == MAX_DEPTH && Key(level.price, isBid) >= Key(s[|s| - 1].price, isBid) then s
    else
      var kept := if |s| == MAX_DEPTH then s[..|s| - 1] else s;
      var pos := Place(kept, level.price, isBid);
      if pos < |kept| && kept[pos].price == level.price then kept[pos := level] else kept[..pos] + [level] + kept[pos..]
  }

  function Removed(s: seq<PriceLevel>, p: int): seq<PriceLevel> {
    if s == [] then []
    else if s[0].price == p then s[1..]
    else [s[0]] + Removed(s[1..], p)
  }

  // ---- The side holds the best levels of all that were inserted ----

  /** s lists, in order, the best levels of the collection: all of them, or the best `limit`. */
  ghost predicate IsBest(s: seq<PriceLevel>, all: map<int, PriceLevel>, isBid: bool, limit: nat) {
    && Ordered(s, isBid) && |s| == (if |all| < limit then |all| else limit)
    && (forall i | 0 <= i < |s| :: s[i].price in all && all[s[i].price] == s[i])
    && (forall p | p in all && !HasPrice(s, p) :: IsWorse(s, p, isBid))
  }

  predicate IsWorse(s: seq<PriceLevel>, p: int, isBid: bool) {
    forall i | 0 <= i < |s| :: Key(s[i].price, isBid) < Key(p, isBid)
  }

  lemma {:induction false} PricesOf(s: seq<PriceLevel>, isBid: bool) returns (ps: set<int>)
    requires Ordered(s, isBid)
    ensures |ps| == |s| && forall p :: p in ps <==> HasPrice(s, p)
  {
    if s == [] {
      ps := {};
    } else {
      var front, last := s[..|s| - 1], s[|s| - 1];
      var qs := PricesOf(front, isBid);
      ps := qs + {last.price};
      forall p ensures p in ps <==> HasPrice(s, p) {
        if HasPrice(front, p) {
          var i :| 0 <= i < |front| && front[i].price == p;
          assert s[i].price == p;
        }
        if p == last.price {
          assert s[|s| - 1].price == p;
        }
        if HasPrice(s, p) && p != last.price {
          var i :| 0 <= i < |s| && s[i].price == p;
          assert front[i].price == p;
        }
      }
    }
  }

  /** While nothing has been left out, the side holds every level. */
  lemma ShortHoldsAll(s: seq<PriceLevel>, all: map<int, PriceLevel>, isBid: bool, limit: nat, p: int)
    requires IsBest(s, all, isBid, limit) && |all| <= limit && p in all
    ensures HasPrice(s, p)
  {
    var ps := PricesOf(s, isBid);
    forall q | q in ps ensures q in all.Keys {
      assert HasPrice(s, q);
    }
    SubsetFull(ps, all.Keys);
    assert p in ps;
  }

  lemma SubsetFull(a: set<int>, b: set<int>)
    requires a <= b && |a| == |b|
    ensures a == b
  {
    assert |b - a| == |b| - |a|;
    assert b - a == {};
  }

  /** t is s with the level put in at pos. */
  predicate PutAt(t: seq<PriceLevel>, s: seq<PriceLevel>, level: PriceLevel, pos: nat) {
    && pos <= |s| && |t| == |s| + 1
    && (forall i | 0 <= i < pos :: t[i] == s[i]) && t[pos] == level
    && (forall i | pos < i < |t| :: t[i] == s[i - 1])
  }

  lemma PutAtPlace(s: seq<PriceLevel>, level: PriceLevel, pos: nat)
    requires pos <= |s|
    ensures PutAt(s[..pos] + [level] + s[pos..], s, level, pos)
  {}

  lemma PutIs(t: seq<PriceLevel>, s: seq<PriceLevel>, level: PriceLevel, pos: nat)
    requires PutAt(t, s, level, pos)
    ensures t == s[..pos] + [level] + s[pos..]
  {
    PutAtPlace(s, level, pos);
    var u := s[..pos] + [level] + s[pos..];
    forall i | 0 <= i < |t| ensures t[i] == u[i] {}
  }

  lemma PutHas(t: seq<PriceLevel>, s: seq<PriceLevel>, level: PriceLevel, pos: nat, p: int)
    requires PutAt(t, s, level, pos)
    ensures HasPrice(t, p) <==> p == level.price || HasPrice(s, p)
  {
    if HasPrice(t, p) && p != level.price {
      var i :| 0 <= i < |t| && t[i].price == p;
      assert i != pos;
      var k := if i < pos then i else i - 1;
      assert s[k].price == p;
    }
    if HasPrice(s, p) {
      var i :| 0 <= i < |s| && s[i].price == p;
      var k := if i < pos then i else i + 1;
      assert t[k].price == p;
    }
    assert t[pos].price == level.price;
  }

  lemma PutIn(t: seq<PriceLevel>, s: seq<PriceLevel>, level: PriceLevel, pos: nat, all: map<int, PriceLevel>)
    requires PutAt(t, s, level, pos) && level.price !in all
    requires forall i | 0 <= i < |s| :: s[i].price in all && all[s[i].price] == s[i]
    ensures var all' := all[level.price := level];
            forall i | 0 <= i < |t| :: t[i].price in all' && all'[t[i].price] == t[i]
  {}

  lemma PutOrdered(t: seq<PriceLevel>, s: seq<PriceLevel>, level: PriceLevel, pos: nat, isBid: bool)
    requires PutAt(t, s, level, pos) && Ordered(s, isBid) && pos == Place(s, level.price, isBid)
    requires !HasPrice(s, level.price)
    ensures Ordered(t, isBid)
  {
    forall i | pos <= i < |s| ensures Key(s[i].price, isBid) > Key(level.price, isBid) {
      assert s[pos].price != level.price;
      assert pos < i ==> Key(s[pos].price, isBid) < Key(s[i].price, isBid);
    }
    forall i, j | 0 <= i < j < |t| ensures Key(t[i].price, isBid) < Key(t[j].price, isBid) {
      var a := if i < pos then s[i] else if i == pos then level else s[i - 1];
      var b := if j < pos then s[j] else if j == pos then level else s[j - 1];
      assert t[i] == a && t[j] == b;
    }
  }

  lemma PrefixHas(s: seq<PriceLevel>, n: nat, p: int)
    requires n <= |s|
    ensures HasPrice(s[..n], p) ==> HasPrice(s, p)
  {
    if HasPrice(s[..n], p) {
      var i :| 0 <= i < n && s[..n][i].price == p;
      assert s[i].price == p;
    }
  }

  /** A new price on a side with room keeps it the best of all. */
  lemma RoomKeepsBest(s: seq<PriceLevel>, all: map<int, PriceLevel>, isBid: bool, limit: nat, level: PriceLevel)
    requires IsBest(s, all, isBid, limit) && level.price !in all && |s| < limit
    ensures var pos := Place(s, level.price, isBid);
            IsBest(s[..pos] + [level] + s[pos..], all[level.price := level], isBid, limit)
  {
    var pos := Place(s, level.price, isBid);
    var t, all' := s[..pos] + [level] + s[pos..], all[level.price := level];
    PutAtPlace(s, level, pos);
    assert !HasPrice(s, level.price);
    PutOrdered(t, s, level, pos, isBid);
    PutIn(t, s, level, pos, all);
    assert |all'| == |all| + 1;
    forall p | p in all' ensures HasPrice(t, p) {
      PutHas(t, s, level, pos, p);
      if p != level.price {
        ShortHoldsAll(s, all, isBid, limit, p);
      }
    }
  }

  /** A level worse than every level of a full side is left out. */
  lemma WorseLeftOut(s: seq<PriceLevel>, all: map<int, PriceLevel>, isBid: bool, limit: nat, level: PriceLevel)
    requires IsBest(s, all, isBid, limit) && level.price !in all && |s| == limit > 0
    requires Key(level.price, isBid) >= Key(s[limit - 1].price, isBid)
    ensures IsBest(s, all[level.price := level], isBid, limit)
  {
    assert Key(level.price, isBid) != Key(s[limit - 1].price, isBid);
    assert |all[level.price := level]| == |all| + 1;
    forall i | 0 <= i < |s| ensures Key(s[i].price, isBid) < Key(level.price, isBid) {
      assert i < limit - 1 ==> Key(s[i].price, isBid) < Key(s[limit - 1].price, isBid);
    }
  }

  /** A better level evicts the worst of a full side. */
  lemma BetterEvicts(s: seq<PriceLevel>, all: map<int, PriceLevel>, isBid: bool, limit: nat, level: PriceLevel)
    requires IsBest(s, all, isBid, limit) && level.price !in all && |s| == limit > 0
    requires Key(level.price, isBid) < Key(s[limit - 1].price, isBid)
    ensures var kept := s[..limit - 1];
            var pos := Place(kept, level.price, isBid);
            IsBest(kept[..pos] + [level] + kept[pos..], all[level.price := level], isBid, limit)
  {
    var kept, worst, all' := s[..limit - 1], s[limit - 1], all[level.price := level];
    var pos := Place(kept, level.price, isBid);
    var t := kept[..pos] + [level] + kept[pos..];
    PutAtPlace(kept, level, pos);
    PrefixHas(s, limit - 1, level.price);
    assert !HasPrice(s, level.price);
    PutOrdered(t, kept, level, pos, isBid);
    assert |all'| == |all| + 1;
    PutIn(t, kept, level, pos, all);
    PutBetter(t, s, level, pos, isBid);
    forall p | p in all' && !HasPrice(t, p) ensures IsWorse(t, p, isBid) {
      PutHas(t, kept, level, pos, p);
      Evicted(s, kept, all, isBid, limit, p);
    }
  }

  lemma PutBetter(t: seq<PriceLevel>, s: seq<PriceLevel>, level: PriceLevel, pos: nat, isBid: bool)
    requires s != [] && Ordered(s, isBid) && PutAt(t, s[..|s| - 1], level, pos)
    requires Key(level.price, isBid) < Key(s[|s| - 1].price, isBid)
    ensures forall i | 0 <= i < |t| :: Key(t[i].price, isBid) < Key(s[|s| - 1].price, isBid)
  {
    forall i | 0 <= i < |t| ensures Key(t[i].price, isBid) < Key(s[|s| - 1].price, isBid) {
      if i != pos {
        var k := if i < pos then i else i - 1;
        assert t[i] == s[k];
      }
    }
  }

  /** What is not among the levels kept is the evicted level or worse. */
  lemma Evicted(s: seq<PriceLevel>, kept: seq<PriceLevel>, all: map<int, PriceLevel>, isBid: bool, limit: nat, p: int)
    requires IsBest(s, all, isBid, limit) && |s| == limit > 0 && kept == s[..limit - 1] && p in all
    requires !HasPrice(kept, p)
    ensures Key(p, isBid) >= Key(s[limit - 1].price, isBid)
  {
    if HasPrice(s, p) {
      var i :| 0 <= i < |s| && s[i].price == p;
      assert forall j | 0 <= j < |kept| :: kept[j] == s[j];
    } else {
      assert IsWorse(s, p, isBid);
    }
  }

  /** Inserting a new price keeps the side the best levels of all that were inserted. */
  lemma InsertKeepsBest(s: seq<PriceLevel>, all: map<int, PriceLevel>, isBid: bool, level: PriceLevel)
    requires IsBest(s, all, isBid, MAX_DEPTH) && level.price !in all
    ensures IsBest(Inserted(s, level, isBid), all[level.price := level], isBid, MAX_DEPTH)
  {
    if |s| < MAX_DEPTH {
      RoomKeepsBest(s, all, isBid, MAX_DEPTH, level);
    } else if Key(level.price, isBid) >= Key(s[|s| - 1].price, isBid) {
      WorseLeftOut(s, all, isBid, MAX_DEPTH, level);
    } else {
      BetterEvicts(s, all, isBid, MAX_DEPTH, level);
    }
    NewPrice(s, level, isBid);
  }

  lemma NewPrice(s: seq<PriceLevel>, level: PriceLevel, isBid: bool)
    requires |s| <= MAX_DEPTH && !HasPrice(s, level.price)
    ensures var kept := if |s| == MAX_DEPTH then s[..|s| - 1] else s;
            var pos := Place(kept, level.price, isBid);
            pos < |kept| ==> kept[pos].price != level.price
  {}

  /** There is only one way to list the best levels. */
  lemma {:induction false} BestIsUnique(s: seq<PriceLevel>, t: seq<PriceLevel>, all: map<int, PriceLevel>, isBid: bool,
                                        limit: nat, n: nat)
    requires IsBest(s, all, isBid, limit) && IsBest(t, all, isBid, limit) && n <= |s|
    ensures |s| == |t| && s[..n] == t[..n]
  {
    if n > 0 {
      BestIsUnique(s, t, all, isBid, limit, n - 1);
      NextBest(s, t, all, isBid, limit, n - 1);
      NextBest(t, s, all, isBid, limit, n - 1);
      assert s[n - 1].price == t[n - 1].price;
    }
  }

  lemma NextBest(s: seq<PriceLevel>, t: seq<PriceLevel>, all: map<int, PriceLevel>, isBid: bool, limit: nat, k: nat)
    requires IsBest(s, all, isBid, limit) && IsBest(t, all, isBid, limit) && k < |s| == |t| && s[..k] == t[..k]
    ensures Key(t[k].price, isBid) <= Key(s[k].price, isBid)
  {
    var p := s[k].price;
    if HasPrice(t, p) {
      var i :| 0 <= i < |t| && t[i].price == p;
      forall j | 0 <= j < k ensures s[j] == t[j] {
        assert s[..k][j] == t[..k][j];
      }
      assert i > k ==> Key(t[k].price, isBid) < Key(t[i].price, isBid);
    } else {
      assert IsWorse(t, p, isBid);
    }
  }

  // ---- Any number of insertions ----

  /** The side after inserting levels one by one, starting from an empty side. */
  function InsertedAll(levels: seq<PriceLevel>, isBid: bool): (s: seq<PriceLevel>)
    ensures |s| <= MAX_DEPTH
  {
    if levels == [] then []
    else Inserted(InsertedAll(levels[..|levels| - 1], isBid), levels[|levels| - 1], isBid)
  }

  predicate DistinctPrices(levels: seq<PriceLevel>) {
    forall i, j | 0 <= i < j < |levels| :: levels[i].price != levels[j].price
  }

  function ByPrice(levels: seq<PriceLevel>): map<int, PriceLevel> {
    map p | p in Prices(levels) && HasPrice(levels, p) :: LevelAt(levels, p)
  }

  function Prices(levels: seq<PriceLevel>): set<int> { set level | level in levels :: level.price }

  function LevelAt(levels: seq<PriceLevel>, p: int): (level: PriceLevel)
    requires HasPrice(levels, p)
    ensures level in levels && level.price == p
  {
    if levels[0].price == p then levels[0]
    else
      assert HasPrice(levels[1..], p) by {
        var i :| 0 <= i < |levels| && levels[i].price == p;
        assert levels[1..][i - 1].price == p;
      }
      LevelAt(levels[1..], p)
  }

  /** The levels by price: all of them, and nothing else. */
  lemma ByPriceHas(levels: seq<PriceLevel>, p: int)
    requires DistinctPrices(levels)
    ensures p in ByPrice(levels) <==> HasPrice(levels, p)
    ensures forall level | level in levels && level.price == p :: p in ByPrice(levels) && ByPrice(levels)[p] == level
  {
    if HasPrice(levels, p) {
      var i :| 0 <= i < |levels| && levels[i].price == p;
      assert levels[i] in levels;
    }
    forall level | level in levels && level.price == p ensures HasPrice(levels, p) && level == LevelAt(levels, p) {
      var i :| 0 <= i < |levels| && levels[i] == level;
      var found := LevelAt(levels, p);
      var j :| 0 <= j < |levels| && levels[j] == found;
    }
  }

  lemma ByPriceNext(levels: seq<PriceLevel>, level: PriceLevel)
    requires DistinctPrices(levels + [level])
    ensures DistinctPrices(levels) && level.price !in ByPrice(levels)
    ensures ByPrice(levels + [level]) == ByPrice(levels)[level.price := level]
  {
    var more := levels + [level];
    forall i, j | 0 <= i < j < |levels| ensures levels[i].price != levels[j].price {
      assert more[i].price != more[j].price;
    }
    forall i | 0 <= i < |levels| ensures levels[i].price != level.price {
      assert more[i].price != more[|levels|].price;
    }
    ByPriceHas(levels, level.price);
    var next, grown := ByPrice(more), ByPrice(levels)[level.price := level];
    forall p ensures (p in next <==> p in grown) && (p in next ==> next[p] == grown[p]) {
      ByPriceHas(more, p);
      ByPriceHas(levels, p);
      PutHas(more, levels, level, |levels|, p);
      if p in next {
        assert p != level.price ==> LevelAt(levels, p) in more;
        assert level in more;
      }
    }
  }

  /** After inserting levels with distinct prices in any order, an empty side holds the best 20 of them. */
  lemma {:induction false} InsertionsKeepBest(levels: seq<PriceLevel>, isBid: bool)
    requires DistinctPrices(levels)
    ensures IsBest(InsertedAll(levels, isBid), ByPrice(levels), isBid, MAX_DEPTH) && |ByPrice(levels)| == |levels|
  {
    if levels == [] {
      assert ByPrice(levels) == map[];
    } else {
      var front, last := levels[..|levels| - 1], levels[|levels| - 1];
      assert levels == front + [last];
      ByPriceNext(front, last);
      InsertionsKeepBest(front, isBid);
      InsertKeepsBest(InsertedAll(front, isBid), ByPrice(front), isBid, last);
    }
  }

  /** The order of the insertions leaves no trace. */
  lemma OrderLeavesNoTrace(a: seq<PriceLevel>, b: seq<PriceLevel>, isBid: bool)
    requires DistinctPrices(a) && DistinctPrices(b) && forall level :: level in a <==> level in b
    ensures InsertedAll(a, isBid) == InsertedAll(b, isBid)
  {
    forall p ensures (p in ByPrice(a) <==> p in ByPrice(b)) && (p in ByPrice(a) ==> ByPrice(a)[p] == ByPrice(b)[p]) {
      ByPriceHas(a, p);
      ByPriceHas(b, p);
      if HasPrice(a, p) {
        assert LevelAt(a, p) in b;
      }
      if HasPrice(b, p) {
        assert LevelAt(b, p) in a;
      }
    }
    assert ByPrice(a) == ByPrice(b);
    InsertionsKeepBest(a, isBid);
    InsertionsKeepBest(b, isBid);
    var s, t := InsertedAll(a, isBid), InsertedAll(b, isBid);
    BestIsUnique(s, t, ByPrice(a), isBid, MAX_DEPTH, |s|);
    assert s == s[..|s|] && t == t[..|t|];
  }

  // ---- Prices already present, and removal ----

  /** Inserting a price that is already there replaces its level, unless the side is full: then the worst level goes. */
  lemma DuplicateCostsALevel(s: seq<PriceLevel>, isBid: bool, level: PriceLevel)
    requires Ordered(s, isBid) && |s| <= MAX_DEPTH && HasPrice(s, level.price)
    ensures |Inserted(s, level, isBid)| < |s| <==> |s| == MAX_DEPTH && s[MAX_DEPTH - 1].price != level.price
    ensures |s| == MAX_DEPTH && s[MAX_DEPTH - 1].price != level.price ==> |Inserted(s, level, isBid)| == MAX_DEPTH - 1
  {
    var i :| 0 <= i < |s| && s[i].price == level.price;
    var kept := if |s| == MAX_DEPTH then s[..|s| - 1] else s;
    assert i < |s| - 1 ==> Key(s[i].price, isBid) < Key(s[|s| - 1].price, isBid);
    if i < |kept| {
      PlaceOf(kept, isBid, i);
    }
  }

  /** Otherwise it replaces that level, whatever its quantity, and leaves the others alone; on a full side the worst
      level goes, and the worst level itself is never replaced. */
  lemma ReinsertReplaces(s: seq<PriceLevel>, isBid: bool, level: PriceLevel, l: PriceLevel)
    requires Ordered(s, isBid) && |s| <= MAX_DEPTH && HasPrice(s, level.price)
    ensures var full, worst := |s| == MAX_DEPTH, s[|s| - 1];
            l in Inserted(s, level, isBid) <==>
                 if full && worst.price == level.price then l in s
                 else if l.price == level.price then l == level else l in s && !(full && l == worst)
  {
    var i :| 0 <= i < |s| && s[i].price == level.price;
    assert i < |s| - 1 ==> Key(s[i].price, isBid) < Key(s[|s| - 1].price, isBid);
    if !(|s| == MAX_DEPTH && i == |s| - 1) {
      var kept := if |s| == MAX_DEPTH then s[..|s| - 1] else s;
      PlaceOf(kept, isBid, i);
      OrderedDistinct(s, isBid);
      ReplacedExactly(kept, i, level, l);
      FrontExactly(s, l);
    }
  }

  lemma OrderedDistinct(s: seq<PriceLevel>, isBid: bool)
    requires Ordered(s, isBid)
    ensures DistinctPrices(s)
  {
    forall i, j | 0 <= i < j < |s| ensures s[i].price != s[j].price {
      assert Key(s[i].price, isBid) < Key(s[j].price, isBid);
    }
  }

  lemma {:induction false} PlaceOf(s: seq<PriceLevel>, isBid: bool, i: nat)
    requires Ordered(s, isBid) && i < |s|
    ensures Place(s, s[i].price, isBid) == i
  {
    if i > 0 {
      PlaceOf(s[1..], isBid, i - 1);
    }
  }

  /** A removal strikes the first level with the price, if there is one. */
  lemma {:induction false} RemovedFirst(s: seq<PriceLevel>, p: int, i: nat)
    requires i <= |s| && (forall j | 0 <= j < i :: s[j].price != p) && (i < |s| ==> s[i].price == p)
    ensures Removed(s, p) == if i < |s| then s[..i] + s[i + 1..] else s
  {
    if i > 0 {
      var rest := s[1..];
      RemovedFirst(rest, p, i - 1);
      if i < |s| {
        assert [s[0]] + (rest[..i - 1] + rest[i..]) == s[..i] + s[i + 1..];
      } else {
        assert [s[0]] + rest == s;
      }
    }
  }

  /** Removing takes out exactly the level at one price, if there is one, and keeps the order of the rest. */
  lemma RemovedExactly(s: seq<PriceLevel>, isBid: bool, p: int)
    requires Ordered(s, isBid)
    ensures Ordered(Removed(s, p), isBid) && |Removed(s, p)| == (if HasPrice(s, p) then |s| - 1 else |s|)
    ensures forall q :: HasPrice(Removed(s, p), q) <==> HasPrice(s, q) && q != p
  {
    var at, t := First(s, p), Removed(s, p);
    FirstFits(s, p);
    RemovedFirst(s, p, at);
    assert at < |s| <==> HasPrice(s, p);
    RemovedOrdered(s, t, isBid, at);
    forall q ensures HasPrice(t, q) <==> HasPrice(s, q) && q != p {
      RemovedHas(s, t, isBid, at, q);
    }
  }

  lemma RemovedOrdered(s: seq<PriceLevel>, t: seq<PriceLevel>, isBid: bool, at: nat)
    requires Ordered(s, isBid) && at <= |s| && t == if at < |s| then s[..at] + s[at + 1..] else s
    ensures Ordered(t, isBid) && |t| == if at < |s| then |s| - 1 else |s|
  {
    assert forall i | 0 <= i < |t| :: t[i] == (if i < at then s[i] else s[i + 1]);
  }

  lemma RemovedHas(s: seq<PriceLevel>, t: seq<PriceLevel>, isBid: bool, at: nat, q: int)
    requires Ordered(s, isBid) && at <= |s| && t == if at < |s| then s[..at] + s[at + 1..] else s
    ensures HasPrice(t, q) <==> HasPrice(s, q) && (at < |s| ==> q != s[at].price)
  {
    if HasPrice(t, q) {
      var i :| 0 <= i < |t| && t[i].price == q;
      var k := if i < at then i else i + 1;
      assert s[k].price == q && k != at;
    }
    if HasPrice(s, q) && (at < |s| ==> q != s[at].price) {
      var i :| 0 <= i < |s| && s[i].price == q;
      var k := if i < at then i else i - 1;
      assert t[k].price == q;
    }
  }

  lemma GapClosed(s: seq<PriceLevel>, t: seq<PriceLevel>, i: nat)
    requires i < |s| && |t| == |s| - 1
    requires forall k | 0 <= k < i :: t[k] == s[k]
    requires forall k | i <= k < |t| :: t[k] == s[k + 1]
    ensures t == s[..i] + s[i + 1..]
  {
    assert t[..i] == s[..i];
    assert t[i..] == s[i + 1..];
    assert t == t[..i] + t[i..];
  }

  // ---- The side in place ----

  class BookSide {
    const levels: array<PriceLevel>
    var depth: nat

    ghost predicate Valid()
      reads this
    {
      levels.Length == MAX_DEPTH && depth <= MAX_DEPTH
    }

    ghost function Contents(): seq<PriceLevel>
      requires Valid()
      reads this, levels
    {
      levels[..depth]
    }

    constructor ()
      ensures Valid() && Contents() == [] && fresh(levels)
    {
      levels := new PriceLevel[MAX_DEPTH](_ => EMPTY_LEVEL);
      depth := 0;
    }

    /** Inserts one level; a full side drops its worst level first, if the new one is better. */
    method InsertSorted(level: PriceLevel, isBid: bool)
      requires Valid()
      modifies this`depth, levels
      ensures Valid() && Contents() == Inserted(old(Contents()), level, isBid)
    {
      ghost var s := Contents();
      if depth >= MAX_DEPTH {
        var worst := levels[depth - 1];
        var better := if isBid then level.price > worst.price else level.price < worst.price;
        if !better {
          return;
        }
        depth := depth - 1;
      }
      ghost var kept := Contents();
      assert kept == if |s| == MAX_DEPTH then s[..|s| - 1] else s;
      var pos := FindPlace(level.price, isBid);
      if pos < depth && levels[pos].price == level.price {
        levels[pos] := level;
        return;
      }
      PutLevel(pos, level);
    }

    /** Puts a level at pos, the levels from there on moving up. */
    method PutLevel(pos: nat, level: PriceLevel)
      requires Valid() && pos <= depth < MAX_DEPTH
      modifies this`depth, levels
      ensures Valid() && depth == old(depth) + 1
      ensures Contents() == old(Contents())[..pos] + [level] + old(Contents())[pos..]
    {
      ghost var s := Contents();
      OpenGap(pos);
      levels[pos] := level;
      depth := depth + 1;
      assert PutAt(Contents(), s, level, pos);
      PutIs(Contents(), s, level, pos);
    }

    /** Moves the levels from pos on up by one. */
    method OpenGap(pos: nat)
      requires Valid() && pos <= depth < MAX_DEPTH
      modifies levels
      ensures forall j | 0 <= j < pos :: levels[j] == old(levels[j])
      ensures forall j | pos < j <= depth :: levels[j] == old(levels[j - 1])
    {
      var i := depth;
      while i > pos
        invariant pos <= i <= depth
        invariant forall j | 0 <= j < i :: levels[j] == old(levels[j])
        invariant forall j | i < j <= depth :: levels[j] == old(levels[j - 1])
      {
        levels[i] := levels[i - 1];
        i := i - 1;
      }
    }

    method FindPlace(price: int, isBid: bool) returns (pos: nat)
      requires Valid()
      ensures pos == Place(Contents(), price, isBid)
    {
      pos := 0;
      while pos < depth && (if isBid then levels[pos].price > price else levels[pos].price < price)
        invariant pos <= depth && Place(Contents(), price, isBid) == pos + Place(Contents()[pos..], price, isBid)
      {
        assert Contents()[pos..][1..] == Contents()[pos + 1..];
        pos := pos + 1;
      }
    }

    /** Moves the levels after i down by one. */
    method CloseGap(i: nat)
      requires Valid() && i < depth
      modifies levels
      ensures forall k | 0 <= k < i :: levels[k] == old(levels[k])
      ensures forall k | i <= k < depth - 1 :: levels[k] == old(levels[k + 1])
    {
      var j := i;
      while j + 1 < depth
        invariant i <= j < depth
        invariant forall k | 0 <= k < i :: levels[k] == old(levels[k])
        invariant forall k | i <= k < j :: levels[k] == old(levels[k + 1])
        invariant forall k | j <= k < depth :: levels[k] == old(levels[k])
      {
        levels[j] := levels[j + 1];
        j := j + 1;
      }
    }

    /** Removes the level at a price. */
    method Remove(price: int)
      requires Valid()
      modifies this`depth, levels
      ensures Valid() && Contents() == Removed(old(Contents()), price)
    {
      ghost var s := Contents();
      var i := 0;
      while i < depth && levels[i].price != price
        invariant i <= depth == |s| && Contents() == s && forall j | 0 <= j < i :: s[j].price != price
      {
        i := i + 1;
      }
      RemovedFirst(s, price, i);
      if i < depth {
        RemoveAt(i);
      }
    }

    method RemoveAt(i: nat)
      requires Valid() && i < depth
      modifies this`depth, levels
      ensures Valid() && Contents() == old(Contents()[..i] + Contents()[i + 1..])
    {
      ghost var s := Contents();
      CloseGap(i);
      levels[depth - 1] := EMPTY_LEVEL;
      depth := depth - 1;
      GapClosed(s, Contents(), i);
    }

    method Clear()
      requires Valid()
      modifies this`depth, levels
      ensures Valid() && Contents() == []
    {
      var i := 0;
      while i < depth
        invariant i <= depth && Valid()
      {
        levels[i] := EMPTY_LEVEL;
        i := i + 1;
      }
      depth := 0;
    }

    /** Sets the quantity at a price; the order of a side with fewer than two levels is taken to be that of bids. */
    method Update(price: int, quantity: int, orderCount: int)
      requires Valid()
      modifies this`depth, levels
      ensures Valid() && Contents() == Updated(old(Contents()), PriceLevel(price, quantity, orderCount))
    {
      ghost var s := Contents();
      var i := 0;
      while i < depth && levels[i].price != price
        invariant i <= depth == |s| && Contents() == s && forall j | 0 <= j < i :: s[j].price != price
      {
        i := i + 1;
      }
      FirstIs(s, price, i);
      if i < depth {
        if quantity > 0 {
          levels[i] := PriceLevel(price, quantity, orderCount);
        } else {
          Remove(price);
        }
      } else if quantity > 0 {
        var level := PriceLevel(price, quantity, orderCount);
        if depth >= 2 {
          var isBid := levels[0].price > levels[1].price;
          InsertSorted(level, isBid);
        } else if depth == 1 {
          InsertSorted(level, price > levels[0].price || levels[0].price > price);
        } else {
          levels[0] := level;
          depth := 1;
        }
      }
    }
  }

  /** The first level at a price, or the end. */
  function First(s: seq<PriceLevel>, p: int): (i: nat)
    ensures i <= |s|
  {
    if s == [] || s[0].price == p then 0 else 1 + First(s[1..], p)
  }

  lemma {:induction false} FirstFits(s: seq<PriceLevel>, p: int)
    ensures var i := First(s, p); (forall j | 0 <= j < i :: s[j].price != p) && (i < |s| ==> s[i].price == p)
  {
    if s != [] && s[0].price != p {
      FirstFits(s[1..], p);
      forall j | 0 <= j < First(s, p) ensures s[j].price != p {
        assert j > 0 ==> s[j] == s[1..][j - 1];
      }
    }
  }

  lemma {:induction false} FirstIs(s: seq<PriceLevel>, p: int, i: nat)
    requires i <= |s| && (forall j | 0 <= j < i :: s[j].price != p) && (i < |s| ==> s[i].price == p)
    ensures First(s, p) == i
  {
    if i > 0 {
      FirstIs(s[1..], p, i - 1);
    }
  }

  function Updated(s: seq<PriceLevel>, level: PriceLevel): seq<PriceLevel>
    requires |s| <= MAX_DEPTH
  {
    var i := First(s, level.price);
    if i < |s| then (if level.quantity > 0 then s[i := level] else Removed(s, level.price))
    else if level.quantity <= 0 then s
    else if |s| >= 2 then Inserted(s, level, s[0].price > s[1].price)
    else if |s| == 1 then Inserted(s, level, level.price > s[0].price || s[0].price > level.price)
    else [level]
  }

  /** Whether the price is better than the last one, in the order the first two levels show. */
  predicate BetterThanLast(s: seq<PriceLevel>, price: int)
    requires |s| >= 2
  {
    if s[0].price > s[1].price then price > s[|s| - 1].price else price < s[|s| - 1].price
  }

  /** An update puts the quantity at its price, or takes the price away if the quantity is not positive, and leaves all
      other levels alone; only on a full side a new price is either left out or costs the last level. */
  lemma UpdatedExactly(s: seq<PriceLevel>, level: PriceLevel, l: PriceLevel)
    requires |s| <= MAX_DEPTH && DistinctPrices(s)
    ensures var full := |s| == MAX_DEPTH && level.quantity > 0 && !HasPrice(s, level.price);
            && |Updated(s, level)| <= MAX_DEPTH
            && (l in Updated(s, level) <==>
                if l.price == level.price then l == level && level.quantity > 0
                                               && (full ==> BetterThanLast(s, level.price))
                else l in s && !(full && BetterThanLast(s, level.price) && l == s[|s| - 1]))
  {
    FirstFits(s, level.price);
    var i := First(s, level.price);
    if i < |s| {
      assert HasPrice(s, level.price);
      if level.quantity > 0 {
        ReplacedExactly(s, i, level, l);
      } else {
        RemovedFirst(s, level.price, i);
        TakenExactly(s, i, l);
      }
    } else if level.quantity > 0 && |s| >= 1 {
      InsertedExactly(s, level, if |s| == 1 then true else s[0].price > s[1].price, l);
    }
  }

  lemma ReplacedExactly(s: seq<PriceLevel>, i: nat, level: PriceLevel, l: PriceLevel)
    requires DistinctPrices(s) && i < |s| && s[i].price == level.price
    ensures l in s[i := level] <==> if l.price == level.price then l == level else l in s
  {
    if l in s && l.price != level.price {
      var k :| 0 <= k < |s| && s[k] == l;
      assert s[i := level][k] == l;
    }
    assert s[i := level][i] == level;
  }

  lemma TakenExactly(s: seq<PriceLevel>, i: nat, l: PriceLevel)
    requires DistinctPrices(s) && i < |s|
    ensures l in s[..i] + s[i + 1..] <==> l in s && l.price != s[i].price
  {
    if l in s && l.price != s[i].price {
      var k :| 0 <= k < |s| && s[k] == l;
      assert k < i ==> s[..i][k] == l;
      assert k > i ==> s[i + 1..][k - i - 1] == l;
    }
  }

  lemma InsertedExactly(s: seq<PriceLevel>, level: PriceLevel, isBid: bool, l: PriceLevel)
    requires |s| <= MAX_DEPTH && s != [] && DistinctPrices(s) && !HasPrice(s, level.price)
    ensures var t := Inserted(s, level, isBid);
            var full, better := |s| == MAX_DEPTH, Key(level.price, isBid) < Key(s[|s| - 1].price, isBid);
            && |t| <= MAX_DEPTH
            && (l in t <==> (l == level && (full ==> better)) || (l in s && !(full && better && l == s[|s| - 1])))
  {
    if |s| < MAX_DEPTH || Key(level.price, isBid) < Key(s[|s| - 1].price, isBid) {
      var kept := if |s| == MAX_DEPTH then s[..|s| - 1] else s;
      var pos := Place(kept, level.price, isBid);
      assert pos < |kept| ==> kept[pos] == s[pos];
      PutExactly(kept, pos, level, l);
      FrontExactly(s, l);
      hide Place, DistinctPrices, HasPrice;
    }
  }

  lemma PutExactly(s: seq<PriceLevel>, pos: nat, level: PriceLevel, l: PriceLevel)
    requires pos <= |s|
    ensures l in s[..pos] + [level] + s[pos..] <==> l == level || l in s
  {
    assert s == s[..pos] + s[pos..];
  }

  lemma FrontExactly(s: seq<PriceLevel>, l: PriceLevel)
    requires s != [] && DistinctPrices(s)
    ensures l in s[..|s| - 1] <==> l in s && l != s[|s| - 1]
  {
    assert s == s[..|s| - 1] + [s[|s| - 1]];
  }

  lemma InsertedOrdered(s: seq<PriceLevel>, level: PriceLevel, isBid: bool)
    requires Ordered(s, isBid) && |s| <= MAX_DEPTH
    ensures Ordered(Inserted(s, level, isBid), isBid)
  {
    InsertedOrderedIn(if |s| == MAX_DEPTH then s[..|s| - 1] else s, level, isBid);
  }

  lemma InsertedOrderedIn(s: seq<PriceLevel>, level: PriceLevel, isBid: bool)
    requires Ordered(s, isBid)
    ensures var pos := Place(s, level.price, isBid);
            Ordered(if pos < |s| && s[pos].price == level.price then s[pos := level] else s[..pos] + [level] + s[pos..],
                    isBid)
  {
    var pos := Place(s, level.price, isBid);
    if !(pos < |s| && s[pos].price == level.price) {
      var t := s[..pos] + [level] + s[pos..];
      PutAtPlace(s, level, pos);
      PlacedNew(s, level, isBid);
      PutOrdered(t, s, level, pos, isBid);
    }
  }

  lemma PlacedNew(s: seq<PriceLevel>, level: PriceLevel, isBid: bool)
    requires Ordered(s, isBid)
    requires var pos := Place(s, level.price, isBid); pos == |s| || s[pos].price != level.price
    ensures !HasPrice(s, level.price)
  {
    var pos := Place(s, level.price, isBid);
    forall i | 0 <= i < |s| ensures s[i].price != level.price {
      assert pos < i ==> Key(s[pos].price, isBid) < Key(s[i].price, isBid);
    }
  }

  lemma ReplacedOrdered(s: seq<PriceLevel>, i: nat, level: PriceLevel, isBid: bool)
    requires Ordered(s, isBid) && i < |s| && s[i].price == level.price
    ensures Ordered(s[i := level], isBid)
  {}

  /** Updates from an empty side keep it in the order of bids, whichever side it is meant to be. */
  lemma UpdateKeepsBidOrder(s: seq<PriceLevel>, level: PriceLevel)
    requires Ordered(s, true) && |s| <= MAX_DEPTH
    ensures Ordered(Updated(s, level), true) && |Updated(s, level)| <= MAX_DEPTH
  {
    FirstFits(s, level.price);
    assert |s| >= 2 ==> s[0].price > s[1].price;
    if First(s, level.price) < |s| {
      RemovedExactly(s, true, level.price);
      ReplacedOrdered(s, First(s, level.price), level, true);
      hide Removed, Ordered, HasPrice;
    } else {
      InsertedOrdered(s, level, true);
      hide Ordered;
    }
  }

  /** A side of asks keeps its order under an update exactly when the update does not bring a
      second price to a side of one. */
  lemma UpdateKeepsAskOrder(s: seq<PriceLevel>, level: PriceLevel)
    requires Ordered(s, false) && |s| <= MAX_DEPTH
    ensures Ordered(Updated(s, level), false) <==> !(|s| == 1 && level.quantity > 0 && level.price != s[0].price)
  {
    FirstFits(s, level.price);
    if First(s, level.price) < |s| {
      RemovedExactly(s, false, level.price);
    } else if level.quantity > 0 && |s| >= 2 {
      assert s[0].price < s[1].price;
      InsertedOrdered(s, level, false);
    } else if level.quantity > 0 && |s| == 1 {
      InsertedOrdered(s, level, true);
      var t := Inserted(s, level, true);
      assert t[0].price > t[1].price;
      assert Key(t[0].price, false) > Key(t[1].price, false);
    }
  }
}
