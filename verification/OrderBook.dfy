/** The order book simulator: its mutable state, order submission, matching in place, and cancellation. */
module OrderBook {
  import opened MatchingEngine
  import opened Options

  // ---- The price ranking of a side ----

  lemma SomePrice(keys: set<real>)
    requires |keys| > 0
    ensures exists p :: p in keys
  {
    assert (forall p :: p !in keys) ==> keys == {};
  }

  /** The best of some prices for a taker. */
  ghost function Best(keys: set<real>, taker: Side): (p: real)
    requires |keys| > 0
    ensures p in keys && forall q | q in keys :: Key(taker, p) <= Key(taker, q)
    decreases |keys|
  {
    SomePrice(keys);
    var x :| x in keys;
    if keys == {x} then x
    else
      assert |keys - {x}| > 0;
      var y := Best(keys - {x}, taker);
      if Key(taker, x) <= Key(taker, y) then x else y
  }

  ghost predicate Ascending(ps: seq<real>, keys: set<real>, taker: Side) {
    && (forall i, j | 0 <= i < j < |ps| :: Key(taker, ps[i]) < Key(taker, ps[j]))
    && (forall i | 0 <= i < |ps| :: ps[i] in keys)
    && (forall p | p in keys :: p in ps)
  }

  /** Prices from the best for the taker to the worst. */
  ghost function Ranked(keys: set<real>, taker: Side): (ps: seq<real>)
    ensures Ascending(ps, keys, taker)
    decreases |keys|
  {
    if |keys| == 0 then []
    else
      var p := Best(keys, taker);
      var rest := Ranked(keys - {p}, taker);
      [p] + rest
  }

  ghost function Ranking(b: Levels, taker: Side): (ps: seq<real>)
    ensures SortedPrices(ps, b, taker) && Prices(ps, b)
  {
    Ranked(b.Keys, taker)
  }

  method BestOf(keys: set<real>, taker: Side) returns (p: real)
    requires |keys| > 0
    ensures p == Best(keys, taker)
  {
    SomePrice(keys);
    p :| p in keys;
    var rest := keys - {p};
    while |rest| > 0
      invariant p in keys && rest <= keys && forall q | q in keys - rest :: Key(taker, p) <= Key(taker, q)
      decreases |rest|
    {
      SomePrice(rest);
      var q :| q in rest;
      if Key(taker, q) < Key(taker, p) {
        p := q;
      }
      rest := rest - {q};
    }
  }

  lemma RankedStep(ps: seq<real>, keys: set<real>, taker: Side)
    requires |keys| > 0
    ensures ps + Ranked(keys, taker) == ps + [Best(keys, taker)] + Ranked(keys - {Best(keys, taker)}, taker)
  {}

  method SortedKeys(b: Levels, taker: Side) returns (ps: seq<real>)
    ensures ps == Ranking(b, taker)
  {
    ps := [];
    ghost var all := Ranking(b, taker);
    var rest := b.Keys;
    while |rest| > 0
      invariant ps + Ranked(rest, taker) == all
      decreases |rest|
    {
      var p := BestOf(rest, taker);
      RankedStep(ps, rest, taker);
      ps := ps + [p];
      rest := rest - {p};
    }
    assert Ranked(rest, taker) == [];
  }

  // ---- What one submission is meant to do ----

  function NewOrder(id: nat, side: Side, kind: OrderType, price: real, quantity: real): Order {
    Order(id, side, kind, price, quantity, 0.0, Accepted)
  }

  /** The final status of a submission, given what was available to it. */
  function Outcome(kind: OrderType, depth: real, quantity: real): Status {
    if depth >= quantity then Filled
    else if kind.FOK? then Rejected
    else if depth > 0.0 then PartiallyFilled
    else if kind.Limit? then Accepted
    else Canceled
  }

  /** Everything displayed at prices the order accepts. */
  ghost function Available(b: Levels, o: Order): real {
    var ps := Ranking(b, o.side);
    Depth(b, ps, Eligible(ps, o))
  }

  /** The fills of matching the order against the levels b. */
  ghost function RunFills(b: Levels, o: Order): seq<Fill> {
    var ps := Ranking(b, o.side);
    FillsAt(b, ps, Eligible(ps, o), o, o.quantity)
  }

  /** The levels b once the order has matched. */
  ghost function RunBook(b: Levels, o: Order): Levels {
    var ps := Ranking(b, o.side);
    After(b, ps, Eligible(ps, o), o.quantity)
  }

  /** All orders once the order has matched. */
  ghost function RunOrders(orders: Orders, b: Levels, o: Order): (r: Orders)
    requires o.id in orders
    ensures r.Keys == orders.Keys
  {
    var ps := Ranking(b, o.side);
    Finished(OrdersAt(orders, b, ps, Eligible(ps, o), o.id, o.quantity), o.id)
  }

  /** The queue without one order. */
  function Without(es: seq<Entry>, id: nat): seq<Entry> {
    if es == [] then []
    else Without(es[..|es| - 1], id) + if es[|es| - 1].id == id then [] else [es[|es| - 1]]
  }

  function RemoveEntry(b: Levels, p: real, id: nat): Levels {
    if p !in b then b
    else if Without(b[p], id) == [] then map q | q in b && q != p :: b[q]
    else b[p := Without(b[p], id)]
  }

  // ---- The simulator ----

  function OwnLevels(bids: Levels, asks: Levels, side: Side): Levels { if side.Buy? then bids else asks }

  lemma SideView(orders: Orders, bids: Levels, asks: Levels, side: Side, nextId: nat, except: nat)
    ensures BookOk(orders, Buy, bids, asks, nextId, except) <==>
            BookOk(orders, side, OwnLevels(bids, asks, side), OwnLevels(bids, asks, Opposite(side)), nextId, except)
  {}

  // ---- Submission keeps the book consistent ----

  lemma {:induction false} ReportedAbsent(fills: seq<Fill>, id: nat)
    requires forall k | 0 <= k < |fills| :: fills[k].id != id
    ensures Reported(fills, id) == 0.0
  {
    if fills != [] {
      ReportedAbsent(fills[..|fills| - 1], id);
    }
  }

  lemma LevelGrows(orders: Orders, orders': Orders, side: Side, p: real, es: seq<Entry>, id: nat)
    requires LevelOk(orders, side, p, es) && id !in orders
    requires forall k | k in orders :: k in orders' && orders'[k] == orders[k]
    ensures LevelOk(orders', side, p, es) && forall k | 0 <= k < |es| :: es[k].id != id
  {
    forall k | 0 <= k < |es| ensures EntryOk(orders', side, p, es[k]) && es[k].id != id {
      assert EntryOk(orders, side, p, es[k]);
    }
  }

  lemma SideGrows(orders: Orders, orders': Orders, side: Side, b: Levels, id: nat)
    requires SideOk(orders, side, b) && id !in orders
    requires forall k | k in orders :: k in orders' && orders'[k] == orders[k]
    ensures SideOk(orders', side, b) && !Resting(b, id)
  {
    forall p | p in b ensures LevelOk(orders', side, p, b[p]) && forall k | 0 <= k < |b[p]| :: b[p][k].id != id {
      LevelGrows(orders, orders', side, p, b[p], id);
    }
  }

  lemma FreshId(orders: Orders, nextId: nat)
    requires OrdersOk(orders, nextId)
    ensures nextId !in orders
  {}

  lemma OrdersGrow(orders: Orders, n: Order)
    requires n.id !in orders && OrdersOk(orders, n.id)
    requires n.quantity > 0.0 && n.filled == 0.0 && n.status == Accepted
    ensures OrdersOk(orders[n.id := n], n.id + 1)
  {
    var orders' := orders[n.id := n];
    forall id | id in orders' ensures OrderOk(orders', id, n.id + 1) {
      if id != n.id {
        assert OrderOk(orders, id, n.id);
      }
    }
  }

  /** A fresh order can be entered on a consistent book; it rests nowhere yet. */
  lemma Enter(orders: Orders, side: Side, own: Levels, opp: Levels, fills: seq<Fill>, n: Order)
    requires BookOk(orders, side, own, opp, n.id, n.id) && FillsOk(fills, orders)
    requires n.side == side && n.quantity > 0.0 && n.filled == 0.0 && n.status == Accepted
    ensures n.id !in orders
    ensures RunOk(orders[n.id := n], n, own, opp, Ranking(opp, side), n.id + 1) && FillsOk(fills, orders[n.id := n])
  {
    var orders' := orders[n.id := n];
    FreshId(orders, n.id);
    OrdersGrow(orders, n);
    SideGrows(orders, orders', side, own, n.id);
    SideGrows(orders, orders', Opposite(side), opp, n.id);
    ReportedAbsent(fills, n.id);
    PairedKept(fills, orders, orders');
  }

  /** An order resting nowhere may take any status that needs no place in the book. */
  lemma Restate(orders: Orders, side: Side, own: Levels, opp: Levels, nextId: nat, id: nat, status: Status)
    requires BookOk(orders, side, own, opp, nextId, id) && id in orders && !Resting(own, id) && !Resting(opp, id)
    requires var o := orders[id].(status := status); OrderOk(orders[id := o], id, nextId)
                                                     && !(o.kind.Limit? && o.Active())
    ensures BookOk(orders[id := orders[id].(status := status)], side, own, opp, nextId, nextId)
  {
    var orders' := orders[id := orders[id].(status := status)];
    forall p | p in own ensures LevelOk(orders', side, p, own[p]) {
      NotInLevel(own, p, id);
      LevelRestated(orders, orders', side, p, own[p], id);
    }
    forall p | p in opp ensures LevelOk(orders', Opposite(side), p, opp[p]) {
      NotInLevel(opp, p, id);
      LevelRestated(orders, orders', Opposite(side), p, opp[p], id);
    }
    forall k | k in orders' ensures OrderOk(orders', k, nextId) {
      assert OrderOk(orders, k, nextId);
    }
  }

  lemma LevelRestated(orders: Orders, orders': Orders, side: Side, p: real, es: seq<Entry>, id: nat)
    requires LevelOk(orders, side, p, es) && forall k | 0 <= k < |es| :: es[k].id != id
    requires orders'.Keys == orders.Keys && forall k | k in orders && k != id :: orders'[k] == orders[k]
    ensures LevelOk(orders', side, p, es)
  {
    forall k | 0 <= k < |es| ensures EntryOk(orders', side, p, es[k]) {
      assert EntryOk(orders, side, p, es[k]);
    }
  }

  /** Whatever an order still wants after its run, it accepts no price left on the other side. */
  lemma NothingAccepted(orders: Orders, o: Order, own: Levels, b: Levels, nextId: nat)
    requires RunOk(orders, o, own, b, Ranking(b, o.side), nextId) && o.filled == 0.0 && Available(b, o) < o.quantity
    ensures forall p | p in RunBook(b, o) :: !PriceOk(o, p)
  {
    var ps := Ranking(b, o.side);
    RunFacts(orders, o, own, b, ps, nextId);
    WantIsShortfall(b, ps, Eligible(ps, o), o.quantity);
    AcceptedLevelsGone(b, ps, o, o.quantity);
  }

  lemma {:induction false} TotalPrefix(es: seq<Entry>, j: nat)
    requires AllPositive(es) && j <= |es|
    ensures Total(es[..j]) <= Total(es)
  {
    if j < |es| {
      var front := es[..|es| - 1];
      assert front[..j] == es[..j];
      TotalPrefix(front, j);
    } else {
      assert es[..j] == es;
    }
  }

  lemma {:induction false} DepthGrows(b: Levels, ps: seq<real>, k: nat, e: nat)
    requires Prices(ps, b) && LevelsPositive(b) && k <= e <= |ps|
    ensures Depth(b, ps, k) <= Depth(b, ps, e)
  {
    if k < e {
      DepthGrows(b, ps, k, e - 1);
      var p := ps[e - 1];
      assert p in b;
      assert AllPositive(b[p]);
      WantedIs(b[p], 0.0);
    }
  }

  /** The taker's run through one level after j entries of its queue. */
  ghost predicate LevelRun(start: Orders, now: Orders, es: seq<Entry>, j: nat, w: real, price: real, t: nat,
                           left: seq<Entry>, done: seq<Fill>)
    requires t in start && j <= |es|
  {
    && now == Credit(start, Eaten(es[..j], w), t)
    && now[t].Leaves() == Wanted(es[..j], w) && now[t].side == start[t].side
    && left == Left(es[..j], w)
    && done == FillsOf(Eaten(es[..j], w), price, t, start[t].side)
  }

  lemma SkipStep(start: Orders, now: Orders, es: seq<Entry>, j: nat, w: real, price: real, t: nat, left: seq<Entry>,
                 done: seq<Fill>)
    requires t in start && j < |es| && LevelRun(start, now, es, j, w, price, t, left, done) && now[t].Leaves() <= 0.0
    ensures LevelRun(start, now, es, j + 1, w, price, t, left + [es[j]], done)
  {
    assert es[..j + 1][..j] == es[..j];
    assert Eaten(es[..j + 1], w) == Eaten(es[..j], w);
  }

  lemma FillStep(start: Orders, now: Orders, es: seq<Entry>, j: nat, w: real, price: real, t: nat, left: seq<Entry>,
                 done: seq<Fill>, now': Orders, rest: seq<Entry>, more: seq<Fill>)
    requires t in start && j < |es| && LevelRun(start, now, es, j, w, price, t, left, done) && now[t].Leaves() > 0.0
    requires es[j].id != t
    requires var e := Entry(es[j].id, Min(now[t].Leaves(), es[j].qty));
             && now' == CreditOne(now, e, t)
             && rest == (if es[j].qty - e.qty > 0.0 then [Entry(es[j].id, es[j].qty - e.qty)] else [])
             && more == FillPair(e, price, t, now[t].side)
    ensures LevelRun(start, now', es, j + 1, w, price, t, left + rest, done + more)
  {
    assert es[..j + 1][..j] == es[..j];
    var eaten, e := Eaten(es[..j], w), Entry(es[j].id, Min(Wanted(es[..j], w), es[j].qty));
    assert Eaten(es[..j + 1], w) == eaten + [e];
    assert (eaten + [e])[..|eaten|] == eaten;
    assert now'[t] == now[t].(filled := now[t].filled + e.qty);
    assert Left(es[..j + 1], w) == left + rest;
    assert FillsOf(eaten + [e], price, t, start[t].side) == done + more;
    assert Credit(start, eaten + [e], t) == now';
    assert Wanted(es[..j + 1], w) == Wanted(es[..j], w) - e.qty;
  }

  /** What the matching walk needs of the book: positive nonempty levels, in the order given, none holding the taker. */
  ghost predicate Ready(orders: Orders, o: Order, b: Levels, ps: seq<real>) {
    && o.id in orders && orders[o.id] == o && o.filled == 0.0
    && Prices(ps, b) && (forall i, j | 0 <= i < j < |ps| :: ps[i] != ps[j])
    && LevelsPositive(b) && !Resting(b, o.id) && (forall p | p in b :: b[p] != [])
  }

  lemma RunIsReady(orders: Orders, o: Order, own: Levels, b: Levels, ps: seq<real>, nextId: nat)
    requires RunOk(orders, o, own, b, ps, nextId) && o.filled == 0.0
    ensures Ready(orders, o, b, ps)
  {
    RunFacts(orders, o, own, b, ps, nextId);
    forall p | p in b ensures b[p] != [] {
      assert LevelOk(orders, Opposite(o.side), p, b[p]);
    }
  }

  /** Exactly the levels that are empty by now. */
  ghost predicate Emptied(b: Levels, current: Levels, emptied: seq<real>) {
    && current.Keys == b.Keys
    && forall p | p in b :: p in emptied <==> current[p] == []
  }

  /** The taker's walk through the opposite levels b after k of them. */
  ghost predicate Walk(orders: Orders, now: Orders, b: Levels, current: Levels, ps: seq<real>, k: nat, o: Order,
                       done: seq<Fill>)
    requires Prices(ps, b) && k <= |ps| && o.id in orders
  {
    && now == OrdersAt(orders, b, ps, k, o.id, o.quantity)
    && SameTerms(o, now[o.id]) && now[o.id].Leaves() == WantAt(b, ps, k, o.quantity)
    && current == BookAt(b, ps, k, o.quantity)
    && done == FillsAt(b, ps, k, o, o.quantity)
  }

  ghost predicate Accepts(o: Order, ps: seq<real>, k: nat)
    requires k <= |ps|
  {
    forall i | 0 <= i < k :: PriceOk(o, ps[i])
  }

  /** The walk so far, and the levels it has emptied. */
  ghost predicate Walking(orders: Orders, now: Orders, b: Levels, current: Levels, ps: seq<real>, k: nat, o: Order,
                          done: seq<Fill>, emptied: seq<real>)
    requires Prices(ps, b) && o.id in orders
  {
    && k <= |ps| && Accepts(o, ps, k) && Walk(orders, now, b, current, ps, k, o, done) && Emptied(b, current, emptied)
    && (k > 0 ==> o.quantity > 0.0)
  }

  lemma WalkStart(orders: Orders, o: Order, b: Levels, ps: seq<real>)
    requires Ready(orders, o, b, ps)
    ensures Walking(orders, orders, b, b, ps, 0, o, [], [])
  {}

  lemma WalkLevel(orders: Orders, now: Orders, b: Levels, current: Levels, ps: seq<real>, k: nat, o: Order,
                  done: seq<Fill>, emptied: seq<real>)
    requires Ready(orders, o, b, ps) && k < |ps| && Walking(orders, now, b, current, ps, k, o, done, emptied)
    ensures o.id in now && SameTerms(o, now[o.id]) && ps[k] in current && current[ps[k]] == b[ps[k]] && b[ps[k]] != []
    ensures forall j | 0 <= j < |b[ps[k]]| :: b[ps[k]][j].id != o.id
  {
    var p := ps[k];
    assert p in b;
    BookUntouched(b, ps, k, o.quantity, p);
    NotInLevel(b, p, o.id);
  }

  lemma WalkWants(orders: Orders, now: Orders, b: Levels, current: Levels, ps: seq<real>, k: nat, o: Order,
                  done: seq<Fill>, emptied: seq<real>)
    requires Prices(ps, b) && o.id in orders && Walking(orders, now, b, current, ps, k, o, done, emptied)
    requires now[o.id].Leaves() > 0.0
    ensures o.quantity > 0.0
  {
    assert WantAt(b, ps, 0, o.quantity) == o.quantity;
  }

  lemma WalkStep(orders: Orders, now: Orders, b: Levels, current: Levels, ps: seq<real>, k: nat, o: Order,
                 done: seq<Fill>, emptied: seq<real>, now': Orders, left: seq<Entry>, more: seq<Fill>)
    requires Ready(orders, o, b, ps) && k < |ps| && Walking(orders, now, b, current, ps, k, o, done, emptied)
    requires PriceOk(o, ps[k])
    requires now[o.id].Leaves() > 0.0
    requires var eaten, w := Eaten(b[ps[k]], now[o.id].Leaves()), now[o.id].Leaves();
             now' == Credit(now, eaten, o.id) && left == Left(b[ps[k]], w)
             && more == FillsOf(eaten, ps[k], o.id, o.side)
    ensures Walking(orders, now', b, current[ps[k] := left], ps, k + 1, o, done + more,
                    if left == [] then emptied + [ps[k]] else emptied)
  {
    WalkWants(orders, now, b, current, ps, k, o, done, emptied);
    WalkLevel(orders, now, b, current, ps, k, o, done, emptied);
    WalkTaker(orders, now, b, current, ps, k, o, done);
    hide Walk, Ready, PriceOk;
    EmptiedStep(b, current, emptied, ps[k], left);
    AcceptsOn(o, ps, k);
    hide Emptied, Accepts;
  }

  lemma AcceptsOn(o: Order, ps: seq<real>, k: nat)
    requires k < |ps| && Accepts(o, ps, k) && PriceOk(o, ps[k])
    ensures Accepts(o, ps, k + 1)
  {}

  lemma WalkTaker(orders: Orders, now: Orders, b: Levels, current: Levels, ps: seq<real>, k: nat, o: Order,
                  done: seq<Fill>)
    requires Ready(orders, o, b, ps) && k < |ps| && Walk(orders, now, b, current, ps, k, o, done) && o.quantity > 0.0
    ensures var w := now[o.id].Leaves();
            var es := b[ps[k]];
            Walk(orders, Credit(now, Eaten(es, w), o.id), b, current[ps[k] := Left(es, w)], ps, k + 1, o,
                 done + FillsOf(Eaten(es, w), ps[k], o.id, o.side))
  {
    TakerChanged(orders, b, ps, k + 1, o.id, o.quantity);
    WalkOn(orders, now, b, current, ps, k, o, done);
  }

  lemma WalkOn(orders: Orders, now: Orders, b: Levels, current: Levels, ps: seq<real>, k: nat, o: Order,
               done: seq<Fill>)
    requires Prices(ps, b) && k < |ps| && o.id in orders && Walk(orders, now, b, current, ps, k, o, done)
    requires var t := OrdersAt(orders, b, ps, k + 1, o.id, o.quantity)[o.id];
             SameTerms(o, t) && t.Leaves() == WantAt(b, ps, k + 1, o.quantity)
    ensures var w := now[o.id].Leaves();
            var es := b[ps[k]];
            Walk(orders, Credit(now, Eaten(es, w), o.id), b, current[ps[k] := Left(es, w)], ps, k + 1, o,
                 done + FillsOf(Eaten(es, w), ps[k], o.id, o.side))
  {}

  lemma EmptiedStep(b: Levels, current: Levels, emptied: seq<real>, p: real, es: seq<Entry>)
    requires Emptied(b, current, emptied) && p in b && current[p] != []
    ensures Emptied(b, current[p := es], if es == [] then emptied + [p] else emptied)
  {}

  lemma CleanedIs(before: Levels, after: Levels, gone: seq<real>)
    requires forall p | p in before :: p in gone <==> before[p] == []
    requires forall p :: p in after <==> p in before && p !in gone
    requires forall p | p in after :: after[p] == before[p]
    ensures after == Cleaned(before)
  {
    var cleaned := Cleaned(before);
    forall p: real ensures p in after <==> p in cleaned {
      if p in before {
        assert p in gone <==> before[p] == [];
      }
    }
    assert forall p | p in cleaned :: cleaned[p] == before[p];
    assert forall p | p in after :: after[p] == cleaned[p];
  }

  lemma WalkEnd(orders: Orders, now: Orders, b: Levels, current: Levels, ps: seq<real>, k: nat, o: Order,
                done: seq<Fill>)
    requires Ready(orders, o, b, ps) && k <= |ps| && Accepts(o, ps, k) && Walk(orders, now, b, current, ps, k, o, done)
    requires now[o.id].Leaves() <= 0.0 || k == |ps| || !PriceOk(o, ps[k])
    ensures Walk(orders, now, b, current, ps, Eligible(ps, o), o, done)
  {
    var e := AcceptedAll(ps, o, k);
    if k < e {
      assert PriceOk(o, ps[k]);
      StopEarly(orders, b, ps, k, e, o, o.quantity);
      WalkSame(orders, now, b, current, ps, k, e, o, done);
    }
  }

  lemma AcceptedAll(ps: seq<real>, o: Order, k: nat) returns (e: nat)
    requires k <= |ps| && Accepts(o, ps, k)
    ensures e == Eligible(ps, o) && k <= e <= |ps| && Accepts(o, ps, e)
  {
    e := Eligible(ps, o);
  }

  lemma WalkSame(orders: Orders, now: Orders, b: Levels, current: Levels, ps: seq<real>, k: nat, e: nat, o: Order,
                 done: seq<Fill>)
    requires Prices(ps, b) && k <= e <= |ps| && o.id in orders && Walk(orders, now, b, current, ps, k, o, done)
    requires SameFrom(orders, b, ps, k, e, o, o.quantity)
    ensures Walk(orders, now, b, current, ps, e, o, done)
  {}

  /** A consistent book with the fills that account for it, seen from one side. */
  ghost predicate Sound(orders: Orders, side: Side, own: Levels, opp: Levels, fills: seq<Fill>, nextId: nat) {
    BookOk(orders, side, own, opp, nextId, nextId) && FillsOk(fills, orders)
  }

  /** A sound book is uncrossed, and sound from either side. */
  lemma SoundView(orders: Orders, bids: Levels, asks: Levels, fills: seq<Fill>, side: Side, nextId: nat)
    ensures Sound(orders, Buy, bids, asks, fills, nextId) <==>
            Sound(orders, side, OwnLevels(bids, asks, side), OwnLevels(bids, asks, Opposite(side)), fills, nextId)
    ensures Sound(orders, Buy, bids, asks, fills, nextId) ==> Uncrossed(bids, asks)
  {
    SideView(orders, bids, asks, side, nextId, nextId);
    if Sound(orders, Buy, bids, asks, fills, nextId) {
      assert Apart(bids, asks, Buy);
    }
  }

  /** What a submission of order n does, given the liquidity available to it and the orders, levels and fills of its
      matching run. */
  ghost predicate Applied(n: Order, depth: real, run: Orders, book: Levels, more: seq<Fill>,
                          orders: Orders, own: Levels, opp: Levels, fills: seq<Fill>,
                          orders': Orders, own': Levels, opp': Levels, fills': seq<Fill>)
  {
    var killed := n.kind.FOK? && depth < n.quantity;
    && n.id !in orders && orders'.Keys == orders.Keys + {n.id} && SameTerms(n, orders'[n.id])
    && orders'[n.id].filled == (if killed || n.quantity <= 0.0 then 0.0 else Min(n.quantity, depth))
    && orders'[n.id].status == Outcome(n.kind, depth, n.quantity)
    && fills' == fills + (if killed then [] else more)
    && opp' == (if killed then opp else book)
    && own' == (if n.kind.Limit? && depth < n.quantity
                then AddEntry(own, n.price, Entry(n.id, n.quantity - depth)) else own)
    && (forall id | id in orders :: killed || id in run)
    && (forall id | id in orders :: orders'[id] == if killed then orders[id] else run[id])
  }

  /** What submitting order n does to the orders, the two sides of the book and the fills. */
  ghost predicate Submitted(n: Order, orders: Orders, own: Levels, opp: Levels, fills: seq<Fill>,
                            orders': Orders, own': Levels, opp': Levels, fills': seq<Fill>)
  {
    && Applied(n, Available(opp, n), RunOrders(orders[n.id := n], opp, n), RunBook(opp, n), RunFills(opp, n),
               orders, own, opp, fills, orders', own', opp', fills')
    && Reports(n, opp, opp', fills, fills')
  }

  /** The fills the order adds are trades with the levels opp in price-time priority, from
      the best price to the worst. */
  ghost predicate Reports(n: Order, opp: Levels, opp': Levels, fills: seq<Fill>, fills': seq<Fill>) {
    fills <= fills' && Prioritised(opp, opp', n, fills'[|fills|..])
  }

  lemma NoReports(n: Order, opp: Levels, fills: seq<Fill>)
    ensures Reports(n, opp, opp, fills, fills)
  {
    assert fills[|fills|..] == [];
  }

  lemma RunReports(n: Order, orders: Orders, opp: Levels, fills: seq<Fill>)
    requires Ready(orders, n, opp, Ranking(opp, n.side)) && n.quantity > 0.0
    ensures Reports(n, opp, RunBook(opp, n), fills, fills + RunFills(opp, n))
  {
    var ps := Ranking(opp, n.side);
    MatchPrioritised(opp, ps, Eligible(ps, n), n, n.quantity);
    assert (fills + RunFills(opp, n))[|fills|..] == RunFills(opp, n);
  }

  lemma SubmittedRecord(n: Order, orders: Orders, own: Levels, opp: Levels, fills: seq<Fill>,
                        orders': Orders, own': Levels, opp': Levels, fills': seq<Fill>)
    requires Submitted(n, orders, own, opp, fills, orders', own', opp', fills')
    ensures n.id in orders' && orders'[n.id].id == n.id
  {}

  /** A submission about to be matched. */
  ghost predicate Arriving(n: Order, orders: Orders, own: Levels, opp: Levels, fills: seq<Fill>) {
    Sound(orders, n.side, own, opp, fills, n.id) && n.filled == 0.0 && n.status == Accepted
  }

  /** A submission about to be matched that wants something. */
  ghost predicate Entering(n: Order, orders: Orders, own: Levels, opp: Levels, fills: seq<Fill>) {
    Arriving(n, orders, own, opp, fills) && n.quantity > 0.0
  }

  /** Giving an order that rests nowhere its final status leaves a consistent book. */
  lemma Close(orders: Orders, side: Side, own: Levels, opp: Levels, fills: seq<Fill>, id: nat, status: Status)
    requires BookOk(orders, side, own, opp, id + 1, id) && FillsOk(fills, orders)
    requires id in orders && !Resting(own, id) && !Resting(opp, id)
    requires var o := orders[id]; !(o.kind.Limit? && (status.Accepted? || status.PartiallyFilled?))
                                  && o.filled < o.quantity
    requires (status == PartiallyFilled && orders[id].filled > 0.0) || status == Canceled
             || (status == Rejected && orders[id].filled == 0.0)
    ensures Sound(orders[id := orders[id].(status := status)], side, own, opp, fills, id + 1)
  {
    assert OrderOk(orders, id, id + 1);
    Restate(orders, side, own, opp, id + 1, id, status);
    CloseFills(orders, fills, id, status);
  }

  lemma CloseFills(orders: Orders, fills: seq<Fill>, id: nat, status: Status)
    requires FillsOk(fills, orders) && id in orders
    ensures FillsOk(fills, orders[id := orders[id].(status := status)])
  {
    PairedKept(fills, orders, orders[id := orders[id].(status := status)]);
  }

  lemma Kill(n: Order, orders: Orders, own: Levels, opp: Levels, fills: seq<Fill>)
    requires Entering(n, orders, own, opp, fills) && n.id !in orders
    ensures Sound(orders[n.id := n.(status := Rejected)], n.side, own, opp, fills, n.id + 1)
  {
    var entered := orders[n.id := n];
    Enter(orders, n.side, own, opp, fills, n);
    Close(entered, n.side, own, opp, fills, n.id, Rejected);
    assert entered[n.id := n.(status := Rejected)] == orders[n.id := n.(status := Rejected)];
  }

  lemma KillSubmitted(n: Order, orders: Orders, own: Levels, opp: Levels, fills: seq<Fill>)
    requires n.id !in orders && n.kind.FOK? && Available(opp, n) < n.quantity && n.filled == 0.0
    ensures Submitted(n, orders, own, opp, fills, orders[n.id := n.(status := Rejected)], own, opp, fills)
  {
    KillApplied(n, Available(opp, n), RunOrders(orders[n.id := n], opp, n), RunBook(opp, n), RunFills(opp, n), orders,
                own, opp, fills);
    NoReports(n, opp, fills);
  }

  lemma KillApplied(n: Order, depth: real, run: Orders, book: Levels, more: seq<Fill>, orders: Orders, own: Levels,
                    opp: Levels, fills: seq<Fill>)
    requires n.id !in orders && n.kind.FOK? && depth < n.quantity && n.filled == 0.0
    ensures Applied(n, depth, run, book, more, orders, own, opp, fills, orders[n.id := n.(status := Rejected)], own,
                    opp, fills)
  {
    assert fills + [] == fills;
  }

  lemma Begin(n: Order, orders: Orders, bids: Levels, asks: Levels, fills: seq<Fill>)
    requires Sound(orders, Buy, bids, asks, fills, n.id) && n.filled == 0.0 && n.status == Accepted
    ensures var own, opp := OwnLevels(bids, asks, n.side), OwnLevels(bids, asks, Opposite(n.side));
            Arriving(n, orders, own, opp, fills) && n.id !in orders && LevelsPositive(opp)
  {
    var own, opp := OwnLevels(bids, asks, n.side), OwnLevels(bids, asks, Opposite(n.side));
    SideView(orders, bids, asks, n.side, n.id, n.id);
    ArrivalReady(n, orders, own, opp, fills);
  }

  /** The levels a submission meets are as the matching walk needs them. */
  lemma ArrivalReady(n: Order, orders: Orders, own: Levels, opp: Levels, fills: seq<Fill>)
    requires Arriving(n, orders, own, opp, fills)
    ensures n.id !in orders && Ready(orders[n.id := n], n, opp, Ranking(opp, n.side))
  {
    FreshId(orders, n.id);
    SideGrows(orders, orders[n.id := n], Opposite(n.side), opp, n.id);
    forall p | p in opp ensures AllPositive(opp[p]) && opp[p] != [] {
      assert LevelOk(orders, Opposite(n.side), p, opp[p]);
      LevelPositive(orders, Opposite(n.side), p, opp[p]);
    }
  }

  // ---- A submission that wants nothing ----

  /** An order for no quantity, or a negative one, is filled at once and meets nothing. */
  lemma IdleRun(n: Order, orders: Orders, opp: Levels)
    requires n.id !in orders && n.quantity <= 0.0 && Ready(orders[n.id := n], n, opp, Ranking(opp, n.side))
    ensures RunOrders(orders[n.id := n], opp, n) == orders[n.id := n.(status := Filled)]
    ensures RunBook(opp, n) == opp && RunFills(opp, n) == [] && Available(opp, n) >= 0.0
  {
    var ps := Ranking(opp, n.side);
    var e := Eligible(ps, n);
    IdleWalk(orders[n.id := n], n, opp, ps, e);
    IdleEnd(n, orders, opp);
    WantIsShortfall(opp, ps, e, 0.0);
    hide Ready, Ranking, OrdersAt, BookAt, FillsAt, Depth, Eligible, Cleaned, Finished;
  }

  lemma IdleWalk(orders: Orders, n: Order, opp: Levels, ps: seq<real>, e: nat)
    requires n.quantity <= 0.0 && Ready(orders, n, opp, ps) && e <= |ps|
    ensures OrdersAt(orders, opp, ps, e, n.id, n.quantity) == orders
    ensures BookAt(opp, ps, e, n.quantity) == opp && FillsAt(opp, ps, e, n, n.quantity) == []
  {
    StopEarly(orders, opp, ps, 0, e, n, n.quantity);
  }

  lemma IdleEnd(n: Order, orders: Orders, opp: Levels)
    requires n.filled == 0.0 && n.quantity <= 0.0 && forall p | p in opp :: opp[p] != []
    ensures Finished(orders[n.id := n], n.id) == orders[n.id := n.(status := Filled)] && Cleaned(opp) == opp
  {
    CleanedIs(opp, opp, []);
  }

  lemma IdleSound(n: Order, orders: Orders, own: Levels, opp: Levels, fills: seq<Fill>)
    requires Arriving(n, orders, own, opp, fills) && n.quantity <= 0.0 && n.id !in orders
    ensures Sound(orders[n.id := n.(status := Filled)], n.side, own, opp, fills, n.id + 1)
  {
    var orders' := orders[n.id := n.(status := Filled)];
    SideGrows(orders, orders', n.side, own, n.id);
    SideGrows(orders, orders', Opposite(n.side), opp, n.id);
    ReportedAbsent(fills, n.id);
    PairedKept(fills, orders, orders');
    forall id | id in orders' ensures OrderOk(orders', id, n.id + 1) {
      if id != n.id {
        assert OrderOk(orders, id, n.id);
      }
    }
  }

  lemma IdleSubmitted(n: Order, orders: Orders, own: Levels, opp: Levels, fills: seq<Fill>)
    requires n.id !in orders && n.filled == 0.0 && n.quantity <= 0.0
    requires Ready(orders[n.id := n], n, opp, Ranking(opp, n.side))
    ensures var orders' := orders[n.id := n.(status := Filled)];
            Submitted(n, orders, own, opp, fills, orders', own, opp, fills)
  {
    IdleRun(n, orders, opp);
    IdleApplied(n, Available(opp, n), orders, own, opp, fills);
    NoReports(n, opp, fills);
  }

  lemma IdleApplied(n: Order, depth: real, orders: Orders, own: Levels, opp: Levels, fills: seq<Fill>)
    requires n.id !in orders && n.filled == 0.0 && n.quantity <= 0.0 <= depth
    ensures var orders' := orders[n.id := n.(status := Filled)];
            Applied(n, depth, orders', opp, [], orders, own, opp, fills, orders', own, opp, fills)
  {
    assert fills + [] == fills;
  }

  /** The state once the order has matched, before what is left of it is dealt with. */
  lemma Matched(n: Order, orders: Orders, own: Levels, opp: Levels, fills: seq<Fill>)
    requires Entering(n, orders, own, opp, fills)
    ensures var orders', opp' := RunOrders(orders[n.id := n], opp, n), RunBook(opp, n);
            && BookOk(orders', n.side, own, opp', n.id + 1, n.id) && FillsOk(fills + RunFills(opp, n), orders')
            && !Resting(own, n.id) && !Resting(opp', n.id)
    ensures n.id !in orders && Ready(orders[n.id := n], n, opp, Ranking(opp, n.side))
  {
    Enter(orders, n.side, own, opp, fills, n);
    var entered := orders[n.id := n];
    RunIsReady(entered, n, own, opp, Ranking(opp, n.side), n.id + 1);
    MatchKeeps(entered, n, own, opp, Ranking(opp, n.side), n.id + 1);
    MatchFills(entered, n, own, opp, Ranking(opp, n.side), n.id + 1, fills);
    var ps := Ranking(opp, n.side);
    AfterWithout(opp, ps, Eligible(ps, n), n.quantity, n.id);
  }

  /** Matching brings no order into a level. */
  lemma AfterWithout(b: Levels, ps: seq<real>, e: nat, want: real, id: nat)
    requires Prices(ps, b) && e <= |ps| && !Resting(b, id)
    ensures !Resting(After(b, ps, e, want), id)
  {
    BookWithout(b, ps, e, want, id);
  }

  lemma {:induction false} BookWithout(b: Levels, ps: seq<real>, k: nat, want: real, id: nat)
    requires Prices(ps, b) && k <= |ps| && !Resting(b, id)
    ensures !Resting(BookAt(b, ps, k, want), id)
  {
    if k > 0 {
      BookWithout(b, ps, k - 1, want, id);
      NotInLevel(b, ps[k - 1], id);
      LeftWithout(b[ps[k - 1]], WantAt(b, ps, k - 1, want), id);
    }
  }

  lemma {:induction false} LeftWithout(es: seq<Entry>, want: real, id: nat)
    requires forall k | 0 <= k < |es| :: es[k].id != id
    ensures forall k | 0 <= k < |Left(es, want)| :: Left(es, want)[k].id != id
  {
    if es != [] {
      LeftWithout(es[..|es| - 1], want, id);
    }
  }

  /** The taker gets the smaller of what it wants and what is available to it. */
  lemma Got(n: Order, orders: Orders, opp: Levels)
    requires n.id !in orders && n.status == Accepted && Ready(orders[n.id := n], n, opp, Ranking(opp, n.side))
    requires n.quantity > 0.0
    ensures Given(n, orders, opp)
  {
    GotAlong(n, orders, orders[n.id := n], opp, Ranking(opp, n.side));
    hide Gives, Ready, OrdersAt, Depth, Eligible, Ranking, Finished;
  }

  lemma GotAlong(n: Order, orders: Orders, entered: Orders, opp: Levels, ps: seq<real>)
    requires n.id !in orders && entered.Keys == orders.Keys + {n.id} && n.status == Accepted && n.quantity > 0.0
    requires Ready(entered, n, opp, ps)
    ensures var e := Eligible(ps, n);
            Gives(n, Depth(opp, ps, e), orders, Finished(OrdersAt(entered, opp, ps, e, n.id, n.quantity), n.id))
  {
    var want := RunTotals(n, entered, opp, ps);
    assert n.filled == 0.0;
    var e := Eligible(ps, n);
    var depth, matched := Depth(opp, ps, e), OrdersAt(entered, opp, ps, e, n.id, n.quantity);
    hide OrdersAt, Depth, Eligible, Gives, Ready, Finished;
    GivesOf(n, depth, want, orders, matched);
  }

  lemma RunTotals(n: Order, entered: Orders, opp: Levels, ps: seq<real>) returns (want: real)
    requires n.status == Accepted && Ready(entered, n, opp, ps) && n.quantity > 0.0
    ensures var depth := Depth(opp, ps, Eligible(ps, n));
            depth >= 0.0 && want == if depth >= n.quantity then 0.0 else n.quantity - depth
    ensures var t := OrdersAt(entered, opp, ps, Eligible(ps, n), n.id, n.quantity)[n.id];
            SameTerms(n, t) && t.filled == n.quantity - want && t.status == Accepted
  {
    TakerChanged(entered, opp, ps, Eligible(ps, n), n.id, n.quantity);
    WantIsShortfall(opp, ps, Eligible(ps, n), n.quantity);
    want := WantAt(opp, ps, Eligible(ps, n), n.quantity);
  }

  lemma GivesOf(n: Order, depth: real, want: real, orders: Orders, matched: Orders)
    requires n.id !in orders && matched.Keys == orders.Keys + {n.id} && depth >= 0.0 && n.filled == 0.0
    requires n.quantity > 0.0
    requires want == if depth >= n.quantity then 0.0 else n.quantity - depth
    requires SameTerms(n, matched[n.id]) && matched[n.id].filled == n.quantity - want
    requires matched[n.id].status == Accepted
    ensures Gives(n, depth, orders, Finished(matched, n.id))
  {}

  lemma NothingLeft(n: Order, orders: Orders, own: Levels, opp: Levels, fills: seq<Fill>)
    requires Entering(n, orders, own, opp, fills) && Available(opp, n) < n.quantity
    ensures forall p | p in RunBook(opp, n) :: !PriceOk(n, p)
  {
    Enter(orders, n.side, own, opp, fills, n);
    NothingAccepted(orders[n.id := n], n, own, opp, n.id + 1);
  }

  /** What a run gives order n, given the liquidity available to it. */
  ghost predicate Gives(n: Order, depth: real, orders: Orders, run: Orders) {
    && n.id !in orders && run.Keys == orders.Keys + {n.id} && depth >= 0.0 && n.quantity > 0.0
    && SameTerms(n, run[n.id])
    && run[n.id].filled == (if depth >= n.quantity then n.quantity else depth)
    && run[n.id].status == if depth >= n.quantity then Filled else if depth > 0.0 then PartiallyFilled else Accepted
  }

  ghost predicate Given(n: Order, orders: Orders, opp: Levels) {
    Gives(n, Available(opp, n), orders, RunOrders(orders[n.id := n], opp, n))
  }

  lemma FillApplied(n: Order, depth: real, run: Orders, book: Levels, more: seq<Fill>, orders: Orders, own: Levels,
                    opp: Levels, fills: seq<Fill>)
    requires Gives(n, depth, orders, run) && depth >= n.quantity
    ensures Applied(n, depth, run, book, more, orders, own, opp, fills, run, own, book, fills + more)
  {}

  lemma RestApplied(n: Order, depth: real, run: Orders, book: Levels, more: seq<Fill>, orders: Orders, own: Levels,
                    opp: Levels, fills: seq<Fill>)
    requires Gives(n, depth, orders, run) && depth < n.quantity && n.kind.Limit?
    ensures Applied(n, depth, run, book, more, orders, own, opp, fills,
                    run, AddEntry(own, n.price, Entry(n.id, run[n.id].Leaves())), book, fills + more)
  {}

  lemma DropApplied(n: Order, depth: real, run: Orders, book: Levels, more: seq<Fill>, orders: Orders, own: Levels,
                    opp: Levels, fills: seq<Fill>)
    requires Gives(n, depth, orders, run) && depth < n.quantity && !n.kind.Limit? && !n.kind.FOK?
    ensures Applied(n, depth, run, book, more, orders, own, opp, fills,
                    run[n.id := run[n.id].(status := DropStatus(run[n.id]))], own, book, fills + more)
  {}

  lemma FillWhole(n: Order, orders: Orders, own: Levels, opp: Levels, fills: seq<Fill>)
    requires Entering(n, orders, own, opp, fills) && Available(opp, n) >= n.quantity && n.id !in orders
    ensures Sound(RunOrders(orders[n.id := n], opp, n), n.side, own, RunBook(opp, n), fills + RunFills(opp, n),
                  n.id + 1)
  {
    Matched(n, orders, own, opp, fills);
    Got(n, orders, opp);
    NoRestNeeded(RunOrders(orders[n.id := n], opp, n), n.side, own, RunBook(opp, n), n.id + 1, n.id);
  }

  lemma FillSubmitted(n: Order, orders: Orders, own: Levels, opp: Levels, fills: seq<Fill>)
    requires Given(n, orders, opp) && Available(opp, n) >= n.quantity
    requires Reports(n, opp, RunBook(opp, n), fills, fills + RunFills(opp, n))
    ensures Submitted(n, orders, own, opp, fills,
                      RunOrders(orders[n.id := n], opp, n), own, RunBook(opp, n), fills + RunFills(opp, n))
  {
    FillApplied(n, Available(opp, n), RunOrders(orders[n.id := n], opp, n), RunBook(opp, n), RunFills(opp, n), orders,
                own, opp, fills);
  }

  lemma Rest(n: Order, orders: Orders, own: Levels, opp: Levels, fills: seq<Fill>)
    requires Entering(n, orders, own, opp, fills) && Available(opp, n) < n.quantity && n.kind.Limit? && n.id !in orders
    ensures var orders' := RunOrders(orders[n.id := n], opp, n);
            Sound(orders', n.side, AddEntry(own, n.price, Entry(n.id, orders'[n.id].Leaves())), RunBook(opp, n),
                  fills + RunFills(opp, n), n.id + 1)
  {
    Matched(n, orders, own, opp, fills);
    Got(n, orders, opp);
    NothingLeft(n, orders, own, opp, fills);
    RestSound(n, RunOrders(orders[n.id := n], opp, n), own, RunBook(opp, n), fills + RunFills(opp, n));
  }

  lemma RestSubmitted(n: Order, orders: Orders, own: Levels, opp: Levels, fills: seq<Fill>)
    requires Given(n, orders, opp) && Available(opp, n) < n.quantity && n.kind.Limit?
    requires Reports(n, opp, RunBook(opp, n), fills, fills + RunFills(opp, n))
    ensures var orders' := RunOrders(orders[n.id := n], opp, n);
            Submitted(n, orders, own, opp, fills, orders', AddEntry(own, n.price, Entry(n.id, orders'[n.id].Leaves())),
                      RunBook(opp, n), fills + RunFills(opp, n))
  {
    RestApplied(n, Available(opp, n), RunOrders(orders[n.id := n], opp, n), RunBook(opp, n), RunFills(opp, n), orders,
                own, opp, fills);
  }

  lemma RestSound(n: Order, orders: Orders, own: Levels, opp: Levels, fills: seq<Fill>)
    requires BookOk(orders, n.side, own, opp, n.id + 1, n.id) && FillsOk(fills, orders) && !Resting(own, n.id)
    requires n.id in orders && SameTerms(n, orders[n.id]) && orders[n.id].Active() && orders[n.id].Leaves() > 0.0
    requires n.kind.Limit?
    requires forall p | p in opp :: !PriceOk(n, p)
    ensures Sound(orders, n.side, AddEntry(own, n.price, Entry(n.id, orders[n.id].Leaves())), opp, fills, n.id + 1)
  {
    forall p | p in opp ensures !PriceOk(orders[n.id], p) {
      assert !PriceOk(n, p);
    }
    RestKeeps(orders, orders[n.id], own, opp, n.id + 1);
  }

  function DropStatus(t: Order): Status { if t.filled > 0.0 then PartiallyFilled else Canceled }

  function ResidualOrders(run: Orders, t: nat): Orders
    requires t in run
  {
    if run[t].Leaves() > 0.0 && !run[t].kind.Limit? then run[t := run[t].(status := DropStatus(run[t]))] else run
  }

  function ResidualLevels(own: Levels, t: Order): Levels {
    if t.Leaves() > 0.0 && t.kind.Limit? then AddEntry(own, t.price, Entry(t.id, t.Leaves())) else own
  }

  /** What is left of an order that never rests is dropped. */
  lemma Drop(n: Order, orders: Orders, own: Levels, opp: Levels, fills: seq<Fill>)
    requires Entering(n, orders, own, opp, fills) && Available(opp, n) < n.quantity && !n.kind.Limit? && n.id !in orders
    ensures var run := RunOrders(orders[n.id := n], opp, n);
            Sound(run[n.id := run[n.id].(status := DropStatus(run[n.id]))], n.side, own, RunBook(opp, n),
                  fills + RunFills(opp, n), n.id + 1)
  {
    var run := RunOrders(orders[n.id := n], opp, n);
    Matched(n, orders, own, opp, fills);
    Got(n, orders, opp);
    hide Sound, BookOk, FillsOk, Resting, Ready, RunOrders;
    DropSound(n, run, own, RunBook(opp, n), fills + RunFills(opp, n));
  }

  lemma DropSound(n: Order, run: Orders, own: Levels, opp: Levels, fills: seq<Fill>)
    requires BookOk(run, n.side, own, opp, n.id + 1, n.id) && FillsOk(fills, run) && !Resting(own, n.id)
    requires !Resting(opp, n.id)
    requires n.id in run && !run[n.id].kind.Limit? && 0.0 <= run[n.id].filled < run[n.id].quantity
    ensures Sound(run[n.id := run[n.id].(status := DropStatus(run[n.id]))], n.side, own, opp, fills, n.id + 1)
  {
    Close(run, n.side, own, opp, fills, n.id, DropStatus(run[n.id]));
  }

  lemma DropSubmitted(n: Order, orders: Orders, own: Levels, opp: Levels, fills: seq<Fill>)
    requires Given(n, orders, opp) && Available(opp, n) < n.quantity && !n.kind.Limit? && !n.kind.FOK?
    requires Reports(n, opp, RunBook(opp, n), fills, fills + RunFills(opp, n))
    ensures var run := RunOrders(orders[n.id := n], opp, n);
            Submitted(n, orders, own, opp, fills, run[n.id := run[n.id].(status := DropStatus(run[n.id]))], own,
                      RunBook(opp, n), fills + RunFills(opp, n))
  {
    DropApplied(n, Available(opp, n), RunOrders(orders[n.id := n], opp, n), RunBook(opp, n), RunFills(opp, n), orders,
                own, opp, fills);
  }

  /** Whatever a matched order leaves is rested or dropped, and the submission has done what it should. */
  lemma Finish(n: Order, orders: Orders, own: Levels, opp: Levels, fills: seq<Fill>)
    requires Entering(n, orders, own, opp, fills) && n.id !in orders
    requires n.kind.FOK? ==> Available(opp, n) >= n.quantity
    ensures var run := RunOrders(orders[n.id := n], opp, n);
            var orders', own' := ResidualOrders(run, n.id), ResidualLevels(own, run[n.id]);
            var opp', fills' := RunBook(opp, n), fills + RunFills(opp, n);
            && Submitted(n, orders, own, opp, fills, orders', own', opp', fills')
            && Sound(orders', n.side, own', opp', fills', n.id + 1)
  {
    Matched(n, orders, own, opp, fills);
    Got(n, orders, opp);
    RunReports(n, orders[n.id := n], opp, fills);
    hide Submitted, Sound, Entering, RunOrders, RunBook, RunFills, Given, Reports;
    if Available(opp, n) >= n.quantity {
      FillWhole(n, orders, own, opp, fills);
      FillSubmitted(n, orders, own, opp, fills);
    } else if n.kind.Limit? {
      Rest(n, orders, own, opp, fills);
      RestSubmitted(n, orders, own, opp, fills);
    } else {
      Drop(n, orders, own, opp, fills);
      DropSubmitted(n, orders, own, opp, fills);
    }
  }

  /** The side of a matched order is its own. */
  lemma RunSide(n: Order, orders: Orders, own: Levels, opp: Levels, fills: seq<Fill>)
    requires Arriving(n, orders, own, opp, fills) && n.id !in orders
    ensures RunOrders(orders[n.id := n], opp, n)[n.id].side == n.side
  {
    ArrivalReady(n, orders, own, opp, fills);
    if n.quantity > 0.0 {
      Got(n, orders, opp);
    } else {
      IdleRun(n, orders, opp);
    }
  }

  lemma FinishAny(n: Order, orders: Orders, own: Levels, opp: Levels, fills: seq<Fill>)
    requires Arriving(n, orders, own, opp, fills) && n.id !in orders
    requires n.kind.FOK? ==> Available(opp, n) >= n.quantity
    ensures var run := RunOrders(orders[n.id := n], opp, n);
            var orders', own' := ResidualOrders(run, n.id), ResidualLevels(own, run[n.id]);
            var opp', fills' := RunBook(opp, n), fills + RunFills(opp, n);
            && Submitted(n, orders, own, opp, fills, orders', own', opp', fills')
            && Sound(orders', n.side, own', opp', fills', n.id + 1)
  {
    if n.quantity > 0.0 {
      Finish(n, orders, own, opp, fills);
    } else {
      ArrivalReady(n, orders, own, opp, fills);
      IdleRun(n, orders, opp);
      IdleSound(n, orders, own, opp, fills);
      IdleSubmitted(n, orders, own, opp, fills);
      assert fills + [] == fills;
    }
  }

  /** Only an order that wants something finds too little for it. */
  lemma ShortWants(n: Order, orders: Orders, own: Levels, opp: Levels, fills: seq<Fill>)
    requires Arriving(n, orders, own, opp, fills) && Available(opp, n) < n.quantity
    ensures n.quantity > 0.0
  {
    ArrivalReady(n, orders, own, opp, fills);
    if n.quantity <= 0.0 {
      IdleRun(n, orders, opp);
    }
  }

  /** A fill-or-kill order is filled completely or changes nothing but its own record. */
  lemma FillOrKill(n: Order, orders: Orders, own: Levels, opp: Levels, fills: seq<Fill>,
                   orders': Orders, own': Levels, opp': Levels, fills': seq<Fill>)
    requires Submitted(n, orders, own, opp, fills, orders', own', opp', fills') && n.kind.FOK?
    ensures n.id in orders'
    ensures var o := orders'[n.id];
            || (o.status == Filled && o.filled == if n.quantity > 0.0 then n.quantity else 0.0)
            || (o.status == Rejected && o.filled == 0.0 && own' == own && opp' == opp && fills' == fills
                && orders' - {n.id} == orders)
  {
    KilledOrFilled(n, Available(opp, n), RunOrders(orders[n.id := n], opp, n), RunBook(opp, n), RunFills(opp, n),
                   orders, own, opp, fills, orders', own', opp', fills');
  }

  lemma KilledOrFilled(n: Order, depth: real, run: Orders, book: Levels, more: seq<Fill>,
                       orders: Orders, own: Levels, opp: Levels, fills: seq<Fill>,
                       orders': Orders, own': Levels, opp': Levels, fills': seq<Fill>)
    requires Applied(n, depth, run, book, more, orders, own, opp, fills, orders', own', opp', fills') && n.kind.FOK?
    ensures var o := orders'[n.id];
            || (o.status == Filled && o.filled == if n.quantity > 0.0 then n.quantity else 0.0)
            || (o.status == Rejected && o.filled == 0.0 && own' == own && opp' == opp && fills' == fills
                && orders' - {n.id} == orders)
  {
    if depth < n.quantity {
      assert orders' - {n.id} == orders;
    }
  }

  /** The status a submission leaves tells what became of it: filled if it got all it wanted, partly filled if it got
      some, rejected only if it is fill-or-kill, accepted if it is a limit order that got nothing, canceled if it is any
      other order that got nothing. */
  lemma StatusTells(n: Order, orders: Orders, own: Levels, opp: Levels, fills: seq<Fill>,
                    orders': Orders, own': Levels, opp': Levels, fills': seq<Fill>)
    requires Submitted(n, orders, own, opp, fills, orders', own', opp', fills')
    requires LevelsPositive(opp) && n.quantity > 0.0
    ensures var o := orders'[n.id];
            && (o.status.Filled? <==> o.filled == n.quantity)
            && (o.status.PartiallyFilled? <==> 0.0 < o.filled < n.quantity)
            && (o.status.Rejected? <==> n.kind.FOK? && o.filled == 0.0)
            && (o.status.Accepted? <==> n.kind.Limit? && o.filled == 0.0)
            && (o.status.Canceled? <==> !n.kind.Limit? && !n.kind.FOK? && o.filled == 0.0)
  {
    var ps := Ranking(opp, n.side);
    WantIsShortfall(opp, ps, Eligible(ps, n), n.quantity);
    AppliedStatus(n, Available(opp, n), RunOrders(orders[n.id := n], opp, n), RunBook(opp, n), RunFills(opp, n), orders,
                  own, opp, fills, orders', own', opp', fills');
  }

  lemma AppliedStatus(n: Order, depth: real, run: Orders, book: Levels, more: seq<Fill>,
                      orders: Orders, own: Levels, opp: Levels, fills: seq<Fill>,
                      orders': Orders, own': Levels, opp': Levels, fills': seq<Fill>)
    requires Applied(n, depth, run, book, more, orders, own, opp, fills, orders', own', opp', fills')
    requires n.quantity > 0.0 && depth >= 0.0
    ensures var o := orders'[n.id];
            && (o.status.Filled? <==> o.filled == n.quantity)
            && (o.status.PartiallyFilled? <==> 0.0 < o.filled < n.quantity)
            && (o.status.Rejected? <==> n.kind.FOK? && o.filled == 0.0)
            && (o.status.Accepted? <==> n.kind.Limit? && o.filled == 0.0)
            && (o.status.Canceled? <==> !n.kind.Limit? && !n.kind.FOK? && o.filled == 0.0)
  {}

  // ---- Cancellation keeps the book consistent ----

  lemma {:induction false} WithoutAt(es: seq<Entry>, id: nat, k: nat) returns (j: nat)
    requires k < |Without(es, id)|
    ensures j < |es| && Without(es, id)[k] == es[j] && es[j].id != id
  {
    var front := es[..|es| - 1];
    if k < |Without(front, id)| {
      j := WithoutAt(front, id, k);
    } else {
      j := |es| - 1;
    }
  }

  lemma {:induction false} WithoutKeeps(es: seq<Entry>, id: nat, j: nat) returns (k: nat)
    requires j < |es| && es[j].id != id
    ensures k < |Without(es, id)| && Without(es, id)[k] == es[j]
  {
    if j < |es| - 1 {
      k := WithoutKeeps(es[..|es| - 1], id, j);
    } else {
      k := |Without(es[..|es| - 1], id)|;
    }
  }

  lemma {:induction false} WithoutByArrival(es: seq<Entry>, id: nat)
    requires ByArrival(es)
    ensures ByArrival(Without(es, id))
  {
    if es != [] {
      var front := es[..|es| - 1];
      WithoutByArrival(front, id);
      forall k | 0 <= k < |Without(front, id)| ensures Without(front, id)[k].id < es[|es| - 1].id {
        var j := WithoutAt(front, id, k);
      }
    }
  }

  lemma LevelCanceled(orders: Orders, orders': Orders, side: Side, p: real, es: seq<Entry>, id: nat)
    requires LevelOk(orders, side, p, es) && orders'.Keys == orders.Keys
    requires forall k | k in orders && k != id :: orders'[k] == orders[k]
    ensures Without(es, id) == [] || LevelOk(orders', side, p, Without(es, id))
    ensures forall k | 0 <= k < |Without(es, id)| :: Without(es, id)[k].id != id
  {
    WithoutByArrival(es, id);
    forall k | 0 <= k < |Without(es, id)|
      ensures EntryOk(orders', side, p, Without(es, id)[k]) && Without(es, id)[k].id != id
    {
      var j := WithoutAt(es, id, k);
      assert EntryOk(orders, side, p, es[j]);
    }
  }

  lemma NotElsewhere(orders: Orders, side: Side, p: real, es: seq<Entry>, id: nat)
    requires LevelOk(orders, side, p, es) && id in orders && (orders[id].side != side || orders[id].price != p)
    ensures forall k | 0 <= k < |es| :: es[k].id != id
  {
    forall k | 0 <= k < |es| ensures es[k].id != id {
      assert EntryOk(orders, side, p, es[k]);
    }
  }

  lemma RestsWithout(own: Levels, p: real, id: nat, q: real, other: nat)
    requires RestsIn(own, q, other) && other != id
    ensures RestsIn(RemoveEntry(own, p, id), q, other)
  {
    var j :| 0 <= j < |own[q]| && own[q][j].id == other;
    if q == p {
      var k := WithoutKeeps(own[p], id, j);
    }
  }

  predicate Cancelable(orders: Orders, id: nat) {
    id in orders && !(orders[id].status.Filled? || orders[id].status.Canceled? || orders[id].status.Rejected?)
  }

  lemma CancelSound(orders: Orders, side: Side, own: Levels, opp: Levels, fills: seq<Fill>, nextId: nat, id: nat)
    requires Sound(orders, side, own, opp, fills, nextId) && Cancelable(orders, id) && orders[id].side == side
    ensures var own' := RemoveEntry(own, orders[id].price, id);
            && Sound(orders[id := orders[id].(status := Canceled)], side, own', opp, fills, nextId)
            && !Resting(own', id) && !Resting(opp, id)
  {
    CancelKeeps(orders, side, own, opp, nextId, id);
    CloseFills(orders, fills, id, Canceled);
  }

  /** Of the orders that can be canceled, exactly the active limit orders have anything in the book to cancel. */
  lemma CancelableRests(orders: Orders, side: Side, own: Levels, opp: Levels, fills: seq<Fill>, nextId: nat, id: nat)
    requires Sound(orders, side, own, opp, fills, nextId) && Cancelable(orders, id) && orders[id].side == side
    requires id != nextId
    ensures Resting(own, id) <==> orders[id].kind.Limit? && orders[id].Active()
  {
    assert orders[id].kind.Limit? && orders[id].Active() ==> RestsIn(own, orders[id].price, id);
    if p, k :| p in own && 0 <= k < |own[p]| && own[p][k].id == id {
      assert LevelOk(orders, side, p, own[p]);
      assert EntryOk(orders, side, p, own[p][k]);
    }
  }

  /** Whatever rests in the book can be canceled. */
  lemma RestingIsCancelable(orders: Orders, side: Side, own: Levels, opp: Levels, fills: seq<Fill>, nextId: nat,
                            id: nat)
    requires Sound(orders, side, own, opp, fills, nextId) && Resting(own, id)
    ensures Cancelable(orders, id)
  {
    var p, k :| p in own && 0 <= k < |own[p]| && own[p][k].id == id;
    assert LevelOk(orders, side, p, own[p]);
    assert EntryOk(orders, side, p, own[p][k]);
  }

  /** A book side of one entry at a price the order accepts offers that entry, and nothing
      stays if the order wants more. */
  lemma OneEntry(b: Levels, o: Order, p: real, e: Entry)
    requires b == map[p := [e]] && PriceOk(o, p) && 0.0 < e.qty < o.quantity
    ensures Available(b, o) == e.qty && RunBook(b, o) == map[]
  {
    var ps := Ranking(b, o.side);
    var rest := b.Keys - {Best(b.Keys, o.side)};
    assert b.Keys == {p} && rest == {};
    RankedStep([], b.Keys, o.side);
    assert Ranked(rest, o.side) == [];
    assert ps == [p];
    assert Eligible([], o) == 0 && ps[..0] == [];
    assert Eligible(ps, o) == 1;
    assert [e][..0] == [];
    assert Total([e]) == e.qty;
    assert Depth(b, ps, 0) == 0.0 && WantAt(b, ps, 0, o.quantity) == o.quantity;
    assert Wanted([], o.quantity) == o.quantity && Left([], o.quantity) == [];
    assert Left([e], o.quantity) == [];
    assert BookAt(b, ps, 1, o.quantity)[p] == [];
  }

  lemma NoEntries(o: Order)
    ensures Available(map[], o) == 0.0 && RunBook(map[], o) == map[]
  {
    var b: Levels := map[];
    var ps := Ranking(b, o.side);
    assert ps == [];
  }

  /** Canceling takes the order, and nothing else, out of the book. */
  lemma CancelKeeps(orders: Orders, side: Side, own: Levels, opp: Levels, nextId: nat, id: nat)
    requires BookOk(orders, side, own, opp, nextId, nextId) && id in orders && orders[id].side == side
    requires !orders[id].status.Filled?
    ensures var own' := RemoveEntry(own, orders[id].price, id);
            && BookOk(orders[id := orders[id].(status := Canceled)], side, own', opp, nextId, nextId)
            && !Resting(own', id) && !Resting(opp, id)
  {
    var orders', p0 := orders[id := orders[id].(status := Canceled)], orders[id].price;
    var own' := RemoveEntry(own, p0, id);
    forall p | p in own'
      ensures LevelOk(orders', side, p, own'[p]) && forall k | 0 <= k < |own'[p]| :: own'[p][k].id != id
    {
      assert LevelOk(orders, side, p, own[p]);
      if p == p0 {
        LevelCanceled(orders, orders', side, p, own[p], id);
      } else {
        NotElsewhere(orders, side, p, own[p], id);
        LevelRestated(orders, orders', side, p, own[p], id);
      }
    }
    forall p | p in opp
      ensures LevelOk(orders', Opposite(side), p, opp[p]) && forall k | 0 <= k < |opp[p]| :: opp[p][k].id != id
    {
      NotElsewhere(orders, Opposite(side), p, opp[p], id);
      LevelRestated(orders, orders', Opposite(side), p, opp[p], id);
    }
    forall k | k in orders' ensures OrderOk(orders', k, nextId) {
      assert OrderOk(orders, k, nextId);
    }
    forall k | k in orders' && k != nextId && orders'[k].side == side && orders'[k].kind.Limit? && orders'[k].Active()
      ensures RestsIn(own', orders'[k].price, k) {
      RestsWithout(own, p0, id, orders[k].price, k);
    }
  }

  class OrderBookSimulator {
    var bids: Levels
    var asks: Levels
    var orders: Orders
    var fills: seq<Fill>
    var nextId: nat

    function LevelsOf(side: Side): Levels
      reads `bids, `asks
    {
      OwnLevels(bids, asks, side)
    }

    /** The book is uncrossed and exact: levels are nonempty queues of the remaining quantities of exactly the active
        limit orders, and every order's filled quantity is the sum of its fills. */
    ghost predicate Valid()
      reads this
    {
      Sound(orders, Buy, bids, asks, fills, nextId)
    }

    constructor ()
      ensures Valid() && bids == map[] && asks == map[] && orders == map[] && fills == []
    {
      bids, asks, orders, fills, nextId := map[], map[], map[], [], 1;
    }

    /** Adds up one level, stopping as soon as the order is covered. */
    static method AddLevel(es: seq<Entry>, above: real, quantity: real) returns (total: real, covered: bool)
      requires AllPositive(es)
      ensures total <= above + Total(es) && (covered ==> total >= quantity) && (!covered ==> total == above + Total(es))
    {
      total := above;
      var j := 0;
      while j < |es|
        invariant j <= |es| && total == above + Total(es[..j])
      {
        total := total + es[j].qty;
        assert es[..j + 1][..j] == es[..j];
        if total >= quantity {
          TotalPrefix(es, j + 1);
          return total, true;
        }
        j := j + 1;
      }
      assert es[..|es|] == es;
      covered := false;
    }

    /** The dry run: adds up accepted liquidity, stopping as soon as the order is covered. */
    method AvailableLiquidity(o: Order) returns (total: real)
      requires LevelsPositive(LevelsOf(Opposite(o.side)))
      ensures total <= Available(LevelsOf(Opposite(o.side)), o)
      ensures total < o.quantity ==> total == Available(LevelsOf(Opposite(o.side)), o)
    {
      var b := LevelsOf(Opposite(o.side));
      var ps := SortedKeys(b, o.side);
      total := AddLevels(b, ps, o);
    }

    static method AddLevels(b: Levels, ps: seq<real>, o: Order) returns (total: real)
      requires Prices(ps, b) && LevelsPositive(b)
      ensures total <= Depth(b, ps, Eligible(ps, o)) && (total < o.quantity ==> total == Depth(b, ps, Eligible(ps, o)))
    {
      total := 0.0;
      var k := 0;
      while k < |ps|
        invariant k <= Eligible(ps, o) && total == Depth(b, ps, k)
      {
        if !PriceOk(o, ps[k]) {
          break;
        }
        var covered: bool;
        var p := ps[k];
        assert AllPositive(b[p]);
        total, covered := AddLevel(b[p], total, o.quantity);
        if covered {
          DepthGrows(b, ps, k + 1, Eligible(ps, o));
          return;
        }
        k := k + 1;
      }
    }

    /** One fill of the taker against a resting entry; what is left of the entry, if anything. */
    method FillEntry(t: nat, price: real, e: Entry) returns (newFills: seq<Fill>, rest: seq<Entry>)
      requires t in orders && e.id != t
      modifies `orders
      ensures var o := old(orders[t]);
              var q := Min(o.Leaves(), e.qty);
              && newFills == FillPair(Entry(e.id, q), price, t, o.side)
              && orders == CreditOne(old(orders), Entry(e.id, q), t)
              && rest == if e.qty - q > 0.0 then [Entry(e.id, e.qty - q)] else []
    {
      var q := Min(orders[t].Leaves(), e.qty);
      newFills := [Fill(t, price, q, orders[t].side, true), Fill(e.id, price, q, Opposite(orders[t].side), false)];
      orders := orders[t := orders[t].(filled := orders[t].filled + q)];
      if e.id in orders {
        orders := orders[e.id := orders[e.id].(filled := orders[e.id].filled + q)];
        var status := if orders[e.id].Leaves() <= 0.0 then Filled else PartiallyFilled;
        orders := orders[e.id := orders[e.id].(status := status)];
      }
      rest := if e.qty - q > 0.0 then [Entry(e.id, e.qty - q)] else [];
    }

    /** Walks the queue of one level, oldest entry first. */
    method MatchLevel(t: nat, price: real, es: seq<Entry>) returns (left: seq<Entry>, newFills: seq<Fill>)
      requires t in orders && forall j | 0 <= j < |es| :: es[j].id != t
      modifies `orders
      ensures var o := old(orders[t]);
              var eaten := Eaten(es, o.Leaves());
              && left == Left(es, o.Leaves())
              && newFills == FillsOf(eaten, price, t, o.side)
              && orders == Credit(old(orders), eaten, t)
              && orders[t].Leaves() == Wanted(es, o.Leaves()) && orders[t].side == o.side
    {
      ghost var start, w := orders, orders[t].Leaves();
      left, newFills := [], [];
      var j := 0;
      while j < |es|
        invariant j <= |es| && t in orders && LevelRun(start, orders, es, j, w, price, t, left, newFills)
      {
        ghost var now, left0, done := orders, left, newFills;
        if orders[t].Leaves() <= 0.0 {
          SkipStep(start, now, es, j, w, price, t, left0, done);
          left := left + [es[j]];
        } else {
          var more, rest := FillEntry(t, price, es[j]);
          FillStep(start, now, es, j, w, price, t, left0, done, orders, rest, more);
          newFills := newFills + more;
          left := left + rest;
        }
        j := j + 1;
      }
      assert es[..|es|] == es;
    }

    method SetLevel(side: Side, p: real, es: seq<Entry>)
      modifies `bids, `asks
      ensures LevelsOf(side) == old(LevelsOf(side))[p := es]
      ensures LevelsOf(Opposite(side)) == old(LevelsOf(Opposite(side)))
    {
      if side.Buy? {
        bids := bids[p := es];
      } else {
        asks := asks[p := es];
      }
    }

    method DeleteLevels(side: Side, gone: seq<real>)
      requires forall p | p in LevelsOf(side) :: p in gone <==> LevelsOf(side)[p] == []
      modifies `bids, `asks
      ensures LevelsOf(side) == Cleaned(old(LevelsOf(side)))
      ensures LevelsOf(Opposite(side)) == old(LevelsOf(Opposite(side)))
    {
      ghost var before := LevelsOf(side);
      var j := 0;
      while j < |gone|
        invariant j <= |gone| && LevelsOf(Opposite(side)) == old(LevelsOf(Opposite(side)))
        invariant forall p :: p in LevelsOf(side) <==> p in before && p !in gone[..j]
        invariant forall p | p in LevelsOf(side) :: LevelsOf(side)[p] == before[p]
      {
        if side.Buy? {
          bids := bids - {gone[j]};
        } else {
          asks := asks - {gone[j]};
        }
        j := j + 1;
      }
      assert gone[..j] == gone;
      CleanedIs(before, LevelsOf(side), gone);
    }

    /** Matches the taker against the opposite level at one price, which keeps what is left of its queue. */
    method MatchPrice(t: nat, price: real) returns (left: seq<Entry>, newFills: seq<Fill>)
      requires t in orders && price in LevelsOf(Opposite(orders[t].side))
      requires forall j | 0 <= j < |LevelsOf(Opposite(orders[t].side))[price]| ::
                 LevelsOf(Opposite(orders[t].side))[price][j].id != t
      modifies `orders, `bids, `asks
      ensures var o := old(orders[t]);
              var es := old(LevelsOf(Opposite(o.side)))[price];
              && left == Left(es, o.Leaves())
              && newFills == FillsOf(Eaten(es, o.Leaves()), price, t, o.side)
              && orders == Credit(old(orders), Eaten(es, o.Leaves()), t)
              && LevelsOf(Opposite(o.side)) == old(LevelsOf(Opposite(o.side)))[price := left]
              && LevelsOf(o.side) == old(LevelsOf(o.side))
    {
      var side := orders[t].side;
      left, newFills := MatchLevel(t, price, LevelsOf(Opposite(side))[price]);
      SetLevel(Opposite(side), price, left);
    }

    /** One more level of the walk, noting whether it is now empty. */
    method WalkOne(t: nat, ps: seq<real>, k: nat, done: seq<Fill>, gone: seq<real>, ghost start: Orders,
                   ghost b: Levels, ghost o: Order)
      returns (newFills: seq<Fill>, emptied: seq<real>)
      requires o.id == t && k < |ps| && PriceOk(o, ps[k]) && Ready(start, o, b, ps)
      requires Walking(start, orders, b, LevelsOf(Opposite(o.side)), ps, k, o, done, gone) && orders[t].Leaves() > 0.0
      modifies `orders, `bids, `asks
      ensures Walking(start, orders, b, LevelsOf(Opposite(o.side)), ps, k + 1, o, newFills, emptied)
      ensures LevelsOf(o.side) == old(LevelsOf(o.side))
    {
      ghost var now, current := orders, LevelsOf(Opposite(o.side));
      WalkLevel(start, now, b, current, ps, k, o, done, gone);
      var left, more := MatchPrice(t, ps[k]);
      WalkStep(start, now, b, current, ps, k, o, done, gone, orders, left, more);
      newFills := done + more;
      emptied := if left == [] then gone + [ps[k]] else gone;
    }

    /** Walks the opposite levels, best price first, until the order is filled or meets a price it refuses. */
    method WalkLevels(t: nat, ps: seq<real>) returns (newFills: seq<Fill>, emptied: seq<real>)
      requires t in orders && orders[t].id == t && Ready(orders, orders[t], LevelsOf(Opposite(orders[t].side)), ps)
      modifies `orders, `bids, `asks
      ensures var o := old(orders[t]);
              && Walk(old(orders), orders, old(LevelsOf(Opposite(o.side))), LevelsOf(Opposite(o.side)), ps,
                      Eligible(ps, o), o, newFills)
              && Emptied(old(LevelsOf(Opposite(o.side))), LevelsOf(Opposite(o.side)), emptied)
              && LevelsOf(o.side) == old(LevelsOf(o.side))
    {
      ghost var start, o := orders, orders[t];
      ghost var b, own := LevelsOf(Opposite(o.side)), LevelsOf(o.side);
      newFills, emptied := [], [];
      WalkStart(start, o, b, ps);
      hide Walk, Emptied, LevelsPositive, Resting, PriceOk, Accepts;
      var k := 0;
      var more := WantsMore(t, ps, 0, start, b, o, [], []);
      while more
        invariant LevelsOf(o.side) == own
        invariant Walking(start, orders, b, LevelsOf(Opposite(o.side)), ps, k, o, newFills, emptied)
        invariant more ==> k < |ps| && PriceOk(o, ps[k]) && t in orders && orders[t].Leaves() > 0.0
        invariant !more ==> Walk(start, orders, b, LevelsOf(Opposite(o.side)), ps, Eligible(ps, o), o, newFills)
        decreases |ps| - k, more
      {
        newFills, emptied := WalkOne(t, ps, k, newFills, emptied, start, b, o);
        k := k + 1;
        more := WantsMore(t, ps, k, start, b, o, newFills, emptied);
      }
    }

    /** Whether the taker goes on to level k: there is one, quantity is wanted and the price is accepted. */
    method WantsMore(t: nat, ps: seq<real>, k: nat, ghost start: Orders, ghost b: Levels, ghost o: Order,
                     ghost done: seq<Fill>, ghost gone: seq<real>)
      returns (more: bool)
      requires o.id == t && Ready(start, o, b, ps)
      requires Walking(start, orders, b, LevelsOf(Opposite(o.side)), ps, k, o, done, gone)
      ensures more ==> k < |ps| && PriceOk(o, ps[k]) && t in orders && orders[t].Leaves() > 0.0
      ensures !more ==> Walk(start, orders, b, LevelsOf(Opposite(o.side)), ps, Eligible(ps, o), o, done)
    {
      more := k < |ps| && orders[t].Leaves() > 0.0 && PriceOk(orders[t], ps[k]);
      if !more {
        WalkEnd(start, orders, b, LevelsOf(Opposite(o.side)), ps, k, o, done);
      }
    }

    /** Sets the taker's status from what it filled. */
    method Settle(t: nat)
      requires t in orders
      modifies `orders
      ensures orders == Finished(old(orders), t)
    {
      if orders[t].Leaves() <= 0.0 {
        orders := orders[t := orders[t].(status := Filled)];
      } else if orders[t].filled > 0.0 {
        orders := orders[t := orders[t].(status := PartiallyFilled)];
      } else {
        assert Finished(orders, t) == orders;
      }
    }

    /** Matches the order just accepted against the opposite side, in price-time priority. */
    method Match(t: nat) returns (newFills: seq<Fill>)
      requires t in orders && orders[t].id == t
      requires var o := orders[t];
               Ready(orders, o, LevelsOf(Opposite(o.side)), Ranking(LevelsOf(Opposite(o.side)), o.side))
      modifies `orders, `bids, `asks
      ensures var o := old(orders[t]);
              var b := old(LevelsOf(Opposite(o.side)));
              && newFills == RunFills(b, o) && orders == RunOrders(old(orders), b, o)
              && LevelsOf(Opposite(o.side)) == RunBook(b, o) && LevelsOf(o.side) == old(LevelsOf(o.side))
    {
      var side := orders[t].side;
      var ps := SortedKeys(LevelsOf(Opposite(side)), side);
      var emptied;
      newFills, emptied := WalkLevels(t, ps);
      DeleteLevels(Opposite(side), emptied);
      Settle(t);
    }

    method AddToBook(t: nat)
      requires t in orders
      modifies `bids, `asks
      ensures var o := orders[t];
              && LevelsOf(o.side) == AddEntry(old(LevelsOf(o.side)), o.price, Entry(o.id, o.Leaves()))
              && LevelsOf(Opposite(o.side)) == old(LevelsOf(Opposite(o.side)))
    {
      var o := orders[t];
      var es := if o.price in LevelsOf(o.side) then LevelsOf(o.side)[o.price] else [];
      SetLevel(o.side, o.price, es + [Entry(o.id, o.Leaves())]);
    }

    /** Rests what a limit order has left; drops what any other order has left. */
    method HandleResidual(t: nat)
      requires t in orders
      modifies `orders, `bids, `asks
      ensures var o := old(orders[t]);
              && orders == ResidualOrders(old(orders), t)
              && LevelsOf(o.side) == ResidualLevels(old(LevelsOf(o.side)), o)
              && LevelsOf(Opposite(o.side)) == old(LevelsOf(Opposite(o.side)))
    {
      if orders[t].Leaves() > 0.0 {
        if orders[t].kind.Limit? {
          AddToBook(t);
        } else if orders[t].filled > 0.0 {
          orders := orders[t := orders[t].(status := PartiallyFilled)];
        } else {
          orders := orders[t := orders[t].(status := Canceled)];
        }
      }
    }

    /** Matches the order entered as n, then rests or drops what it has left. */
    method Execute(t: nat, ghost n: Order, ghost orders0: Orders)
      requires n.id == t && n.id !in orders0 && orders == orders0[t := n]
      requires Arriving(n, orders0, LevelsOf(n.side), LevelsOf(Opposite(n.side)), fills)
      requires n.kind.FOK? ==> Available(LevelsOf(Opposite(n.side)), n) >= n.quantity
      modifies `orders, `bids, `asks, `fills
      ensures Submitted(n, orders0, old(LevelsOf(n.side)), old(LevelsOf(Opposite(n.side))), old(fills),
                        orders, LevelsOf(n.side), LevelsOf(Opposite(n.side)), fills)
      ensures Sound(orders, n.side, LevelsOf(n.side), LevelsOf(Opposite(n.side)), fills, n.id + 1)
    {
      ghost var own, opp, fills0 := LevelsOf(n.side), LevelsOf(Opposite(n.side)), fills;
      ArrivalReady(n, orders0, own, opp, fills0);
      var newFills := Match(t);
      fills := fills + newFills;
      ghost var run := orders;
      RunSide(n, orders0, own, opp, fills0);
      HandleResidual(t);
      assert orders == ResidualOrders(run, n.id) && LevelsOf(n.side) == ResidualLevels(own, run[n.id]);
      FinishAny(n, orders0, own, opp, fills0);
    }

    /** Creates the order under the next identifier. */
    method Accept(side: Side, kind: OrderType, price: real, quantity: real) returns (t: nat)
      requires Valid()
      modifies `orders, `nextId
      ensures t == old(nextId) && nextId == t + 1 && t !in old(orders)
      ensures var n := NewOrder(t, side, kind, price, quantity);
              && orders == old(orders)[t := n]
              && Arriving(n, old(orders), LevelsOf(side), LevelsOf(Opposite(side)), fills)
              && LevelsPositive(LevelsOf(Opposite(side)))
    {
      t := nextId;
      ghost var n := NewOrder(t, side, kind, price, quantity);
      Begin(n, orders, bids, asks, fills);
      nextId := nextId + 1;
      ghost var orders0 := orders;
      orders := orders[t := Order(t, side, kind, price, quantity, 0.0, New)];
      orders := orders[t := orders[t].(status := Accepted)];
      assert orders == orders0[t := n];
    }

    /** Whether the order is fill-or-kill and cannot be filled completely. */
    method MustReject(t: nat) returns (rejected: bool)
      requires t in orders && LevelsPositive(LevelsOf(Opposite(orders[t].side)))
      ensures rejected <==>
              orders[t].kind.FOK? && Available(LevelsOf(Opposite(orders[t].side)), orders[t]) < orders[t].quantity
    {
      rejected := false;
      if orders[t].kind.FOK? {
        var available := AvailableLiquidity(orders[t]);
        rejected := available < orders[t].quantity;
      }
    }

    /** Rejects the fill-or-kill order entered as n. */
    method Reject(t: nat, ghost n: Order, ghost orders0: Orders)
      requires n.id == t && n.id !in orders0 && orders == orders0[t := n]
      requires Arriving(n, orders0, LevelsOf(n.side), LevelsOf(Opposite(n.side)), fills)
      requires n.kind.FOK? && Available(LevelsOf(Opposite(n.side)), n) < n.quantity
      modifies `orders
      ensures Submitted(n, orders0, LevelsOf(n.side), LevelsOf(Opposite(n.side)), fills,
                        orders, LevelsOf(n.side), LevelsOf(Opposite(n.side)), fills)
      ensures Sound(orders, n.side, LevelsOf(n.side), LevelsOf(Opposite(n.side)), fills, n.id + 1)
    {
      orders := orders[t := orders[t].(status := Rejected)];
      assert orders == orders0[t := n.(status := Rejected)];
      ShortWants(n, orders0, LevelsOf(n.side), LevelsOf(Opposite(n.side)), fills);
      assert Entering(n, orders0, LevelsOf(n.side), LevelsOf(Opposite(n.side)), fills);
      hide Submitted, Sound, RunOrders, RunBook, RunFills;
      Kill(n, orders0, LevelsOf(n.side), LevelsOf(Opposite(n.side)), fills);
      KillSubmitted(n, orders0, LevelsOf(n.side), LevelsOf(Opposite(n.side)), fills);
    }

    /** Accepts an order, matches it, and rests or cancels what is left; a fill-or-kill order that cannot be filled
        completely is rejected and leaves the book alone. */
    method SubmitOrder(side: Side, kind: OrderType, price: real, quantity: real) returns (o: Order)
      requires Valid()
      modifies this
      ensures Valid() && Uncrossed(bids, asks)
      ensures nextId == old(nextId) + 1 && o.id == old(nextId) && o.id in orders && orders[o.id] == o
      ensures Submitted(NewOrder(o.id, side, kind, price, quantity),
                        old(orders), old(LevelsOf(side)), old(LevelsOf(Opposite(side))), old(fills),
                        orders, LevelsOf(side), LevelsOf(Opposite(side)), fills)
    {
      hide Submitted, Sound, Uncrossed;
      ghost var orders0, own, opp, fills0 := orders, LevelsOf(side), LevelsOf(Opposite(side)), fills;
      var t := Accept(side, kind, price, quantity);
      ghost var n := NewOrder(t, side, kind, price, quantity);
      var rejected := MustReject(t);
      if rejected {
        Reject(t, n, orders0);
      } else {
        Execute(t, n, orders0);
      }
      SubmittedRecord(n, orders0, own, opp, fills0, orders, LevelsOf(side), LevelsOf(Opposite(side)), fills);
      SoundView(orders, bids, asks, fills, side, nextId);
      o := orders[t];
    }

    static method Filter(es: seq<Entry>, id: nat) returns (kept: seq<Entry>)
      ensures kept == Without(es, id)
    {
      kept := [];
      var j := 0;
      while j < |es|
        invariant j <= |es| && kept == Without(es[..j], id)
      {
        assert es[..j + 1][..j] == es[..j];
        if es[j].id != id {
          kept := kept + [es[j]];
        }
        j := j + 1;
      }
      assert es[..|es|] == es;
    }

    method RemoveFromBook(id: nat)
      requires id in orders
      modifies `bids, `asks
      ensures var o := orders[id];
              && LevelsOf(o.side) == RemoveEntry(old(LevelsOf(o.side)), o.price, id)
              && LevelsOf(Opposite(o.side)) == old(LevelsOf(Opposite(o.side)))
    {
      var o := orders[id];
      if o.price !in LevelsOf(o.side) {
        return;
      }
      var kept := Filter(LevelsOf(o.side)[o.price], id);
      if kept != [] {
        SetLevel(o.side, o.price, kept);
      } else if o.side.Buy? {
        bids := map p | p in bids && p != o.price :: bids[p];
      } else {
        asks := map p | p in asks && p != o.price :: asks[p];
      }
    }

    /** Cancels an order that is not finished; no other order, entry or fill changes. */
    method CancelOrder(id: nat) returns (ok: bool)
      requires Valid()
      modifies `orders, `bids, `asks
      ensures Valid() && Uncrossed(bids, asks) && ok == old(Cancelable(orders, id))
      ensures !ok ==> orders == old(orders) && bids == old(bids) && asks == old(asks)
      ensures ok ==> var o := old(orders[id]);
                     && orders == old(orders)[id := o.(status := Canceled)]
                     && LevelsOf(o.side) == RemoveEntry(old(LevelsOf(o.side)), o.price, id)
                     && LevelsOf(Opposite(o.side)) == old(LevelsOf(Opposite(o.side)))
                     && !Resting(bids, id) && !Resting(asks, id)
    {
      SoundView(orders, bids, asks, fills, Buy, nextId);
      if id !in orders {
        return false;
      }
      var status := orders[id].status;
      if status.Filled? || status.Canceled? || status.Rejected? {
        return false;
      }
      ghost var side := orders[id].side;
      SoundView(orders, bids, asks, fills, side, nextId);
      CancelSound(orders, side, LevelsOf(side), LevelsOf(Opposite(side)), fills, nextId, id);
      RemoveFromBook(id);
      orders := orders[id := orders[id].(status := Canceled)];
      SoundView(orders, bids, asks, fills, side, nextId);
      ok := true;
    }

    /** The highest bid, below every ask. */
    method BestBid() returns (best: Option<real>)
      requires Valid()
      ensures best.None? <==> bids == map[]
      ensures best.Some? ==> best.value in bids && forall p | p in bids :: p <= best.value
      ensures best.Some? ==> forall q | q in asks :: best.value < q
    {
      if |bids| == 0 {
        return None;
      }
      var p := BestOf(bids.Keys, Sell);
      forall q | q in bids ensures q <= p {
        assert Key(Sell, p) <= Key(Sell, q);
      }
      best := Some(p);
    }

    /** The lowest ask, above every bid. */
    method BestAsk() returns (best: Option<real>)
      requires Valid()
      ensures best.None? <==> asks == map[]
      ensures best.Some? ==> best.value in asks && forall p | p in asks :: best.value <= p
      ensures best.Some? ==> forall q | q in bids :: q < best.value
    {
      if |asks| == 0 {
        return None;
      }
      var p := BestOf(asks.Keys, Buy);
      forall q | q in asks ensures p <= q {
        assert Key(Buy, p) <= Key(Buy, q);
      }
      best := Some(p);
    }
  }

  // ---- A run that ends in a cancelable order resting nowhere ----

  lemma OfferRests(n: Order, orders': Orders, own': Levels, opp': Levels, fills': seq<Fill>)
    requires n.kind.Limit? && n.quantity > 0.0 && Submitted(n, map[], map[], map[], [], orders', own', opp', fills')
    ensures own' == map[n.price := [Entry(n.id, n.quantity)]] && opp' == map[]
  {
    NoEntries(n);
    var e := Entry(n.id, n.quantity);
    assert [] + [e] == [e];
    assert AddEntry(map[], n.price, e) == map[n.price := [e]];
  }

  lemma TakerDrops(n: Order, e: Entry, orders: Orders, own: Levels, opp: Levels, fills: seq<Fill>,
                   orders': Orders, own': Levels, opp': Levels, fills': seq<Fill>)
    requires Submitted(n, orders, own, opp, fills, orders', own', opp', fills')
    requires n.kind.IOC? && opp == map[n.price := [e]] && 0.0 < e.qty < n.quantity
    ensures n.id in orders' && own' == own && opp' == map[]
    ensures var o := orders'[n.id]; o.kind.IOC? && o.status == PartiallyFilled && o.filled == e.qty
  {
    OneEntry(opp, n, n.price, e);
  }

  /** One unit is offered and an immediate-or-cancel order asks for two: the book is empty again, the order finished,
      and yet it can be canceled. */
  method FillInPart() returns (book: OrderBookSimulator, id: nat)
    ensures fresh(book) && book.Valid() && book.bids == map[] && book.asks == map[]
    ensures Cancelable(book.orders, id) && book.orders[id].kind.IOC? && book.orders[id].filled == 1.0
  {
    hide Submitted, Sound;
    book := new OrderBookSimulator();
    var o := book.SubmitOrder(Sell, Limit, 10.0, 1.0);
    OfferRests(NewOrder(o.id, Sell, Limit, 10.0, 1.0), book.orders, book.asks, book.bids, book.fills);
    ghost var orders, bids, asks, fills := book.orders, book.bids, book.asks, book.fills;
    ghost var rests := Entry(o.id, 1.0);
    o := book.SubmitOrder(Buy, IOC, 10.0, 2.0);
    TakerDrops(NewOrder(o.id, Buy, IOC, 10.0, 2.0), rests, orders, bids, asks, fills, book.orders, book.bids, book.asks,
               book.fills);
    id := o.id;
  }

  /** Canceling that order succeeds, although nothing of it was in the book. */
  method CancelableButGone() returns (book: OrderBookSimulator, ok: bool)
    ensures fresh(book) && book.Valid() && ok && book.bids == map[] && book.asks == map[]
    ensures exists id :: id in book.orders && book.orders[id].kind.IOC? && book.orders[id].filled == 1.0
                         && book.orders[id].status == Canceled
  {
    var id;
    book, id := FillInPart();
    ok := book.CancelOrder(id);
  }
}
