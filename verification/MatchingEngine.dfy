/** The price-time priority matching engine: a mutable two-sided book, its dry run and its matching run. */
module MatchingEngine {

  datatype Side = Buy | Sell
  datatype OrderType = Limit | Market | IOC | FOK
  datatype Status = New | Accepted | PartiallyFilled | Filled | Canceled | Rejected

  datatype Order = Order(
    id: nat, side: Side, kind: OrderType, price: real, quantity: real, filled: real, status: Status)
  {
    function Leaves(): real { quantity - filled }
    predicate Active() { status.Accepted? || status.PartiallyFilled? }
  }

  datatype Fill = Fill(id: nat, price: real, quantity: real, side: Side, aggressor: bool)

  /** A resting order's place in the queue of its price level. */
  datatype Entry = Entry(id: nat, qty: real)

  type Levels = map<real, seq<Entry>>
  type Orders = map<nat, Order>

  function Min(a: real, b: real): real { if a < b then a else b }
  function Opposite(side: Side): Side { if side.Buy? then Sell else Buy }

  // ---- What taking `want` from a queue does, first come first served ----

  predicate AllPositive(es: seq<Entry>) {
    forall k | 0 <= k < |es| :: es[k].qty > 0.0
  }

  function Total(es: seq<Entry>): real {
    if es == [] then 0.0 else Total(es[..|es| - 1]) + es[|es| - 1].qty
  }

  /** What is still wanted after taking from the queue. */
  function Wanted(es: seq<Entry>, want: real): real {
    if es == [] then want
    else
      var w := Wanted(es[..|es| - 1], want);
      if w <= 0.0 then w else w - Min(w, es[|es| - 1].qty)
  }

  /** The amounts taken, in queue order. */
  function Eaten(es: seq<Entry>, want: real): seq<Entry> {
    if es == [] then []
    else
      var last, w := es[|es| - 1], Wanted(es[..|es| - 1], want);
      Eaten(es[..|es| - 1], want) + if w <= 0.0 then [] else [Entry(last.id, Min(w, last.qty))]
  }

  /** What stays in the queue. */
  function Left(es: seq<Entry>, want: real): seq<Entry> {
    if es == [] then []
    else
      var last, w := es[|es| - 1], Wanted(es[..|es| - 1], want);
      Left(es[..|es| - 1], want)
      + if w <= 0.0 then [last] else if last.qty - Min(w, last.qty) > 0.0
      then [Entry(last.id, last.qty - Min(w, last.qty))] else []
  }

  /** The quantity a queue holds for one order. */
  function For(es: seq<Entry>, id: nat): real {
    if es == [] then 0.0
    else For(es[..|es| - 1], id) + if es[|es| - 1].id == id then es[|es| - 1].qty else 0.0
  }

  /** Nothing is made or lost: for every order, what was queued is what was taken and what stays. */
  lemma {:induction false} EatenAndLeft(es: seq<Entry>, want: real, id: nat)
    requires AllPositive(es)
    ensures For(es, id) == For(Eaten(es, want), id) + For(Left(es, want), id)
  {
    if es != [] {
      var front := es[..|es| - 1];
      EatenAndLeft(front, want, id);
      var last, w := es[|es| - 1], Wanted(front, want);
      if w <= 0.0 {
        assert Left(es, want) == Left(front, want) + [last];
        ForSnoc(Left(front, want), last, id);
        assert Eaten(es, want) == Eaten(front, want);
      } else {
        ForSnoc(Eaten(front, want), Entry(last.id, Min(w, last.qty)), id);
        if last.qty - Min(w, last.qty) > 0.0 {
          ForSnoc(Left(front, want), Entry(last.id, last.qty - Min(w, last.qty)), id);
        } else {
          assert Left(es, want) == Left(front, want);
        }
      }
    }
  }

  lemma ForSnoc(es: seq<Entry>, e: Entry, id: nat)
    ensures For(es + [e], id) == For(es, id) + if e.id == id then e.qty else 0.0
  {
    assert (es + [e])[..|es|] == es;
  }

  lemma TotalSnoc(es: seq<Entry>, e: Entry)
    ensures Total(es + [e]) == Total(es) + e.qty
  {
    assert (es + [e])[..|es|] == es;
  }

  lemma {:induction false} WantedIs(es: seq<Entry>, want: real)
    requires AllPositive(es) && want >= 0.0
    ensures Total(es) >= 0.0
    ensures Wanted(es, want) == if Total(es) >= want then 0.0 else want - Total(es)
  {
    if es != [] {
      WantedIs(es[..|es| - 1], want);
    }
  }

  lemma {:induction false} EatenTotal(es: seq<Entry>, want: real)
    requires AllPositive(es) && want >= 0.0
    ensures Total(Eaten(es, want)) == want - Wanted(es, want) && AllPositive(Eaten(es, want))
  {
    if es != [] {
      var front, last := es[..|es| - 1], es[|es| - 1];
      EatenTotal(front, want);
      WantedIs(front, want);
      var w := Wanted(front, want);
      if w > 0.0 {
        TotalSnoc(Eaten(front, want), Entry(last.id, Min(w, last.qty)));
      } else {
        assert Eaten(es, want) == Eaten(front, want);
      }
    }
  }

  lemma {:induction false} LeftPositive(es: seq<Entry>, want: real)
    requires AllPositive(es) && want >= 0.0
    ensures AllPositive(Left(es, want)) && (Wanted(es, want) > 0.0 ==> Left(es, want) == [])
  {
    if es != [] {
      LeftPositive(es[..|es| - 1], want);
      WantedIs(es[..|es| - 1], want);
    }
  }

  /** The taker gets the smaller of what it wants and what there is. */
  lemma TakenTotal(es: seq<Entry>, want: real)
    requires AllPositive(es) && want >= 0.0
    ensures Wanted(es, want) == want - Total(Eaten(es, want)) == if Total(es) >= want then 0.0 else want - Total(es)
    ensures Total(es) >= 0.0 && AllPositive(Eaten(es, want)) && AllPositive(Left(es, want))
    ensures Wanted(es, want) > 0.0 ==> Left(es, want) == []
  {
    WantedIs(es, want);
    EatenTotal(es, want);
    LeftPositive(es, want);
  }

  /** Identifiers are given out in order of arrival, and the queue stands in that order. */
  predicate ByArrival(es: seq<Entry>) {
    forall i, j | 0 <= i < j < |es| :: es[i].id < es[j].id
  }

  function Ids(es: seq<Entry>): (ids: seq<nat>)
    ensures |ids| == |es|
  {
    if es == [] then [] else Ids(es[..|es| - 1]) + [es[|es| - 1].id]
  }

  lemma {:induction false} IdsAt(es: seq<Entry>, k: nat)
    requires k < |es|
    ensures Ids(es)[k] == es[k].id
  {
    if k < |es| - 1 {
      IdsAt(es[..|es| - 1], k);
    }
  }

  lemma IdsSnoc(es: seq<Entry>, e: Entry)
    ensures Ids(es + [e]) == Ids(es) + [e.id]
  {
    assert (es + [e])[..|es|] == es;
  }

  /** What stays is a tail of the queue, in order. */
  lemma {:induction false} LeftIsTail(es: seq<Entry>, want: real)
    requires AllPositive(es) && want >= 0.0
    ensures |Left(es, want)| <= |es| && Ids(Left(es, want)) == Ids(es)[|es| - |Left(es, want)|..]
  {
    if es != [] {
      var front, last := es[..|es| - 1], es[|es| - 1];
      LeftIsTail(front, want);
      LeftPositive(front, want);
      TailStep(front, last, Left(front, want), Wanted(front, want), Left(es, want));
    }
  }

  /** One more entry behind a queue whose remainder is l0 leaves the remainder l. */
  lemma TailStep(front: seq<Entry>, last: Entry, l0: seq<Entry>, w: real, l: seq<Entry>)
    requires |l0| <= |front| && Ids(l0) == Ids(front)[|front| - |l0|..]
    requires w > 0.0 ==> l0 == []
    requires l == l0 + (if w <= 0.0 then [last]
                        else if last.qty - Min(w, last.qty) > 0.0
                        then [Entry(last.id, last.qty - Min(w, last.qty))] else [])
    ensures |l| <= |front| + 1 && Ids(l) == (Ids(front) + [last.id])[|front| + 1 - |l|..]
  {
    if w <= 0.0 {
      IdsSnoc(l0, last);
      TailSnoc(Ids(front), last.id, |front| - |l0|);
    } else if last.qty - Min(w, last.qty) > 0.0 {
      var e := Entry(last.id, last.qty - Min(w, last.qty));
      IdsSnoc([], e);
      assert l == [] + [e];
      TailSnoc(Ids(front), last.id, |front|);
      assert Ids(front)[|front|..] == [];
    } else {
      assert l == [];
      assert (Ids(front) + [last.id])[|front| + 1..] == [];
    }
  }

  lemma TailSnoc(ids: seq<nat>, id: nat, d: nat)
    requires d <= |ids|
    ensures (ids + [id])[d..] == ids[d..] + [id]
  {}

  lemma {:induction false} ForAbsent(es: seq<Entry>, id: nat)
    requires forall k | 0 <= k < |es| :: es[k].id != id
    ensures For(es, id) == 0.0
  {
    if es != [] {
      ForAbsent(es[..|es| - 1], id);
    }
  }

  lemma {:induction false} ForPresent(es: seq<Entry>, k: nat)
    requires ByArrival(es) && k < |es|
    ensures For(es, es[k].id) == es[k].qty
  {
    var front := es[..|es| - 1];
    if k == |es| - 1 {
      ForAbsent(front, es[k].id);
    } else {
      ForPresent(front, k);
    }
  }

  // ---- Crediting the orders ----

  function StatusAfter(o: Order): Status { if o.Leaves() <= 0.0 then Filled else PartiallyFilled }

  /** One fill: the taker's quantity grows, and so does the resting order's, whose status follows. */
  function CreditOne(orders: Orders, e: Entry, taker: nat): (r: Orders)
    requires taker in orders
    ensures r.Keys == orders.Keys
  {
    var t := orders[taker];
    var o := orders[taker := t.(filled := t.filled + e.qty)];
    if e.id in o then
      var rest := o[e.id].(filled := o[e.id].filled + e.qty);
      o[e.id := rest.(status := StatusAfter(rest))]
    else o
  }

  function Credit(orders: Orders, eaten: seq<Entry>, taker: nat): (r: Orders)
    requires taker in orders
    ensures r.Keys == orders.Keys
  {
    if eaten == [] then orders else CreditOne(Credit(orders, eaten[..|eaten| - 1], taker), eaten[|eaten| - 1], taker)
  }

  /** Everything about an order but its fills and status. */
  predicate SameTerms(o: Order, o': Order) {
    o'.id == o.id && o'.side == o.side && o'.kind == o.kind && o'.price == o.price && o'.quantity == o.quantity
  }

  /** Each resting order gains what was taken from it, the taker what was taken in all. */
  lemma {:induction false} CreditAmounts(orders: Orders, eaten: seq<Entry>, taker: nat, id: nat)
    requires taker in orders && id in orders && forall k | 0 <= k < |eaten| :: eaten[k].id != taker
    ensures SameTerms(orders[id], Credit(orders, eaten, taker)[id])
    ensures Credit(orders, eaten, taker)[id].filled ==
            orders[id].filled + if id == taker then Total(eaten) else For(eaten, id)
    ensures id == taker || (forall k | 0 <= k < |eaten| :: eaten[k].id != id) ==>
              Credit(orders, eaten, taker)[id].status == orders[id].status
    ensures id != taker && (exists k :: 0 <= k < |eaten| && eaten[k].id == id) ==>
              Credit(orders, eaten, taker)[id].status == StatusAfter(Credit(orders, eaten, taker)[id])
  {
    if eaten != [] {
      var front, last := eaten[..|eaten| - 1], eaten[|eaten| - 1];
      CreditAmounts(orders, front, taker, id);
      if id != taker && last.id != id && exists k :: 0 <= k < |eaten| && eaten[k].id == id {
        var k :| 0 <= k < |eaten| && eaten[k].id == id;
        assert front[k].id == id;
      }
    }
  }

  // ---- Fills ----

  function FillPair(e: Entry, price: real, taker: nat, side: Side): seq<Fill> {
    [Fill(taker, price, e.qty, side, true), Fill(e.id, price, e.qty, Opposite(side), false)]
  }

  function FillsOf(eaten: seq<Entry>, price: real, taker: nat, side: Side): seq<Fill> {
    if eaten == [] then []
    else FillsOf(eaten[..|eaten| - 1], price, taker, side) + FillPair(eaten[|eaten| - 1], price, taker, side)
  }

  /** The quantity reported for one order. */
  function Reported(fills: seq<Fill>, id: nat): real {
    if fills == [] then 0.0
    else Reported(fills[..|fills| - 1], id) + if fills[|fills| - 1].id == id then fills[|fills| - 1].quantity else 0.0
  }

  lemma {:induction false} ReportedConcat(a: seq<Fill>, b: seq<Fill>, id: nat)
    ensures Reported(a + b, id) == Reported(a, id) + Reported(b, id)
  {
    if b == [] {
      assert a + b == a;
    } else {
      assert (a + b)[..|a + b| - 1] == a + b[..|b| - 1];
      ReportedConcat(a, b[..|b| - 1], id);
    }
  }

  lemma {:induction false} ReportedFills(eaten: seq<Entry>, price: real, taker: nat, side: Side, id: nat)
    requires forall k | 0 <= k < |eaten| :: eaten[k].id != taker
    ensures Reported(FillsOf(eaten, price, taker, side), id) == if id == taker then Total(eaten) else For(eaten, id)
  {
    if eaten != [] {
      var front, last := eaten[..|eaten| - 1], eaten[|eaten| - 1];
      ReportedFills(front, price, taker, side, id);
      ReportedConcat(FillsOf(front, price, taker, side), FillPair(last, price, taker, side), id);
      ReportedPair(last, price, taker, side, id);
    }
  }

  lemma ReportedPair(e: Entry, price: real, taker: nat, side: Side, id: nat)
    requires e.id != taker
    ensures Reported(FillPair(e, price, taker, side), id) == if id == taker || id == e.id then e.qty else 0.0
  {
    var first := [Fill(taker, price, e.qty, side, true)];
    var second := [Fill(e.id, price, e.qty, Opposite(side), false)];
    assert FillPair(e, price, taker, side) == first + second;
    ReportedConcat(first, second, id);
    assert first[..0] == [] && second[..0] == [];
  }

  // ---- Walking the levels of one side ----

  /** Orders the prices of the side a taker meets: cheapest asks first for a buyer, highest bids first for a seller. */
  function Key(taker: Side, price: real): real { if taker.Buy? then price else -price }

  /** Whether the taker accepts a price. */
  predicate PriceOk(o: Order, price: real) {
    o.kind.Market? || Key(o.side, price) <= Key(o.side, o.price)
  }

  /** All prices of the side, best for the taker first. */
  ghost predicate SortedPrices(ps: seq<real>, b: Levels, taker: Side) {
    && (forall i, j | 0 <= i < j < |ps| :: Key(taker, ps[i]) < Key(taker, ps[j]))
    && (forall i | 0 <= i < |ps| :: ps[i] in b)
    && (forall p | p in b :: p in ps)
  }

  /** How many leading prices the taker accepts. */
  function Eligible(ps: seq<real>, o: Order): (k: nat)
    ensures k <= |ps| && (forall i | 0 <= i < k :: PriceOk(o, ps[i])) && (k < |ps| ==> !PriceOk(o, ps[k]))
  {
    if ps == [] then 0
    else
      var k := Eligible(ps[..|ps| - 1], o);
      if k == |ps| - 1 && PriceOk(o, ps[k]) then k + 1 else k
  }

  ghost predicate Prices(ps: seq<real>, b: Levels) {
    forall i | 0 <= i < |ps| :: ps[i] in b
  }

  /** Still wanted after the first k levels. */
  function WantAt(b: Levels, ps: seq<real>, k: nat, want: real): real
    requires Prices(ps, b) && k <= |ps|
  {
    if k == 0 then want else Wanted(b[ps[k - 1]], WantAt(b, ps, k - 1, want))
  }

  function EatenAt(b: Levels, ps: seq<real>, k: nat, want: real): seq<Entry>
    requires Prices(ps, b) && k < |ps|
  {
    Eaten(b[ps[k]], WantAt(b, ps, k, want))
  }

  /** The fills of the first k levels: price priority first, queue order within a level. */
  function FillsAt(b: Levels, ps: seq<real>, k: nat, o: Order, want: real): seq<Fill>
    requires Prices(ps, b) && k <= |ps|
  {
    if k == 0 then []
    else FillsAt(b, ps, k - 1, o, want) + FillsOf(EatenAt(b, ps, k - 1, want), ps[k - 1], o.id, o.side)
  }

  function OrdersAt(orders: Orders, b: Levels, ps: seq<real>, k: nat, taker: nat, want: real): (r: Orders)
    requires Prices(ps, b) && k <= |ps| && taker in orders
    ensures r.Keys == orders.Keys
  {
    if k == 0 then orders
    else Credit(OrdersAt(orders, b, ps, k - 1, taker, want), EatenAt(b, ps, k - 1, want), taker)
  }

  function BookAt(b: Levels, ps: seq<real>, k: nat, want: real): (r: Levels)
    requires Prices(ps, b) && k <= |ps|
    ensures r.Keys == b.Keys
  {
    if k == 0 then b else BookAt(b, ps, k - 1, want)[ps[k - 1] := Left(b[ps[k - 1]], WantAt(b, ps, k - 1, want))]
  }

  function Cleaned(b: Levels): Levels {
    map p | p in b && b[p] != [] :: b[p]
  }

  /** Total displayed on the first k levels. */
  function Depth(b: Levels, ps: seq<real>, k: nat): real
    requires Prices(ps, b) && k <= |ps|
  {
    if k == 0 then 0.0 else Depth(b, ps, k - 1) + Total(b[ps[k - 1]])
  }

  ghost predicate LevelsPositive(b: Levels) {
    forall p | p in b :: AllPositive(b[p])
  }

  /** The dry run and the matching run agree: what stays wanted is what the accepted levels cannot cover. */
  lemma {:induction false} WantIsShortfall(b: Levels, ps: seq<real>, k: nat, want: real)
    requires Prices(ps, b) && LevelsPositive(b) && k <= |ps| && want >= 0.0
    ensures Depth(b, ps, k) >= 0.0
    ensures WantAt(b, ps, k, want) == if Depth(b, ps, k) >= want then 0.0 else want - Depth(b, ps, k)
  {
    if k > 0 {
      WantIsShortfall(b, ps, k - 1, want);
      var p := ps[k - 1];
      assert p in b;
      assert AllPositive(b[p]);
      TakenTotal(b[p], WantAt(b, ps, k - 1, want));
    }
  }

  lemma {:induction false} NothingWanted(es: seq<Entry>, want: real)
    requires want <= 0.0
    ensures Wanted(es, want) == want && Eaten(es, want) == [] && Left(es, want) == es
  {
    if es != [] {
      var front, last := es[..|es| - 1], es[|es| - 1];
      NothingWanted(front, want);
      assert Left(es, want) == front + [last];
      assert Eaten(es, want) == [] + [];
      assert es == front + [last];
    }
  }

  /** A level met with nothing wanted changes nothing. */
  lemma IdleLevel(orders: Orders, b: Levels, ps: seq<real>, k: nat, o: Order, want: real)
    requires Prices(ps, b) && k < |ps| && o.id in orders && WantAt(b, ps, k, want) <= 0.0
    requires BookAt(b, ps, k, want)[ps[k]] == b[ps[k]]
    ensures WantAt(b, ps, k + 1, want) == WantAt(b, ps, k, want)
    ensures FillsAt(b, ps, k + 1, o, want) == FillsAt(b, ps, k, o, want)
    ensures OrdersAt(orders, b, ps, k + 1, o.id, want) == OrdersAt(orders, b, ps, k, o.id, want)
    ensures BookAt(b, ps, k + 1, want) == BookAt(b, ps, k, want)
  {
    NothingWanted(b[ps[k]], WantAt(b, ps, k, want));
    assert EatenAt(b, ps, k, want) == [];
  }

  /** Nothing changes from level k to level e. */
  ghost predicate SameFrom(orders: Orders, b: Levels, ps: seq<real>, k: nat, e: nat, o: Order, want: real)
    requires Prices(ps, b) && k <= e <= |ps| && o.id in orders
  {
    && WantAt(b, ps, e, want) == WantAt(b, ps, k, want)
    && FillsAt(b, ps, e, o, want) == FillsAt(b, ps, k, o, want)
    && OrdersAt(orders, b, ps, e, o.id, want) == OrdersAt(orders, b, ps, k, o.id, want)
    && BookAt(b, ps, e, want) == BookAt(b, ps, k, want)
  }

  /** Once nothing is wanted, further levels change nothing. */
  lemma {:induction false} StopEarly(orders: Orders, b: Levels, ps: seq<real>, k: nat, e: nat, o: Order, want: real)
    requires Prices(ps, b) && k <= e <= |ps| && o.id in orders && WantAt(b, ps, k, want) <= 0.0
    requires forall i, j | 0 <= i < j < |ps| :: ps[i] != ps[j]
    ensures SameFrom(orders, b, ps, k, e, o, want)
  {
    if k < e {
      var m := e - 1;
      StopEarly(orders, b, ps, k, m, o, want);
      BookUntouched(b, ps, m, want, ps[m]);
      IdleLevel(orders, b, ps, m, o, want);
    }
  }

  lemma {:induction false} BookUntouched(b: Levels, ps: seq<real>, k: nat, want: real, p: real)
    requires Prices(ps, b) && k <= |ps| && p in b && forall i | 0 <= i < k :: ps[i] != p
    ensures BookAt(b, ps, k, want)[p] == b[p]
  {
    if k > 0 {
      BookUntouched(b, ps, k - 1, want, p);
    }
  }

  lemma {:induction false} BookTouched(b: Levels, ps: seq<real>, k: nat, want: real, i: nat)
    requires Prices(ps, b) && i < k <= |ps| && forall i, j | 0 <= i < j < |ps| :: ps[i] != ps[j]
    ensures BookAt(b, ps, k, want)[ps[i]] == Left(b[ps[i]], WantAt(b, ps, i, want))
  {
    if i < k - 1 {
      BookTouched(b, ps, k - 1, want, i);
    }
  }

  // ---- The consistency of the book ----

  ghost predicate OrderOk(orders: Orders, id: nat, nextId: nat)
    requires id in orders
  {
    var o := orders[id];
    && o.id == id < nextId
    && if o.quantity <= 0.0 then o.filled == 0.0 && o.status.Filled? else
       && 0.0 <= o.filled <= o.quantity && (o.status.Filled? <==> o.filled == o.quantity)
       && (o.status.Accepted? || o.status.Rejected? || o.status.New? ==> o.filled == 0.0)
       && (o.status.PartiallyFilled? ==> o.filled > 0.0)
  }

  ghost predicate OrdersOk(orders: Orders, nextId: nat) {
    forall id | id in orders :: OrderOk(orders, id, nextId)
  }

  /** A resting entry is the remaining quantity of an active limit order of this side and price. */
  ghost predicate EntryOk(orders: Orders, side: Side, p: real, e: Entry) {
    && e.id in orders && e.qty > 0.0
    && var o := orders[e.id]; o.side == side && o.price == p && o.kind.Limit? && o.Active() && o.Leaves() == e.qty
  }

  ghost predicate LevelOk(orders: Orders, side: Side, p: real, es: seq<Entry>) {
    es != [] && ByArrival(es) && forall k | 0 <= k < |es| :: EntryOk(orders, side, p, es[k])
  }

  ghost predicate SideOk(orders: Orders, side: Side, b: Levels) {
    forall p | p in b :: LevelOk(orders, side, p, b[p])
  }

  predicate RestsIn(b: Levels, p: real, id: nat) {
    p in b && exists k :: 0 <= k < |b[p]| && b[p][k].id == id
  }

  /** Every active limit order of the side rests in the book. */
  ghost predicate AllRest(orders: Orders, side: Side, b: Levels, except: nat) {
    forall id | id in orders && id != except && orders[id].side == side && orders[id].kind.Limit?
                && orders[id].Active() ::
      RestsIn(b, orders[id].price, id)
  }

  /** Every bid is below every ask. */
  ghost predicate Uncrossed(bids: Levels, asks: Levels) {
    forall p, q | p in bids && q in asks :: p < q
  }

  /** A trade: the fill of the order that arrived and that of the resting limit order it met, at the price of the
      latter, which the former accepts. */
  ghost predicate TradeOk(a: Fill, b: Fill, orders: Orders) {
    && a.id in orders && b.id in orders && a.id != b.id
    && a.aggressor && !b.aggressor && a.price == b.price && a.quantity == b.quantity > 0.0
    && orders[a.id].side == a.side && orders[b.id].side == b.side == Opposite(a.side)
    && orders[b.id].kind.Limit? && orders[b.id].price == b.price
    && (orders[a.id].kind.Market? ||
        if a.side.Buy? then a.price <= orders[a.id].price else a.price >= orders[a.id].price)
  }

  ghost predicate TradeAt(fills: seq<Fill>, i: nat, orders: Orders)
    requires i + 1 < |fills|
  {
    TradeOk(fills[i], fills[i + 1], orders)
  }

  /** Fills come in trades. */
  ghost predicate Paired(fills: seq<Fill>, orders: Orders) {
    && |fills| % 2 == 0
    && forall i: nat | i + 1 < |fills| && i % 2 == 0 :: TradeAt(fills, i, orders)
  }

  /** The fills add up to what every order has filled, and come in trades of two orders that accept their price. */
  ghost predicate FillsOk(fills: seq<Fill>, orders: Orders) {
    && (forall id | id in orders :: Reported(fills, id) == orders[id].filled)
    && (forall k | 0 <= k < |fills| :: fills[k].id in orders)
    && Paired(fills, orders)
  }

  lemma PairedConcat(fills: seq<Fill>, more: seq<Fill>, orders: Orders)
    requires Paired(fills, orders) && Paired(more, orders)
    ensures Paired(fills + more, orders)
  {
    var all := fills + more;
    forall i: nat | i + 1 < |all| && i % 2 == 0 ensures TradeAt(all, i, orders) {
      if i < |fills| {
        assert TradeAt(fills, i, orders);
      } else {
        assert TradeAt(more, i - |fills|, orders);
      }
    }
  }

  /** Trades stay trades while the orders keep their terms. */
  lemma PairedKept(fills: seq<Fill>, orders: Orders, orders': Orders)
    requires Paired(fills, orders)
    requires forall id | id in orders :: id in orders' && SameTerms(orders[id], orders'[id])
    ensures Paired(fills, orders')
  {
    forall i: nat | i + 1 < |fills| && i % 2 == 0 ensures TradeAt(fills, i, orders') {
      assert TradeAt(fills, i, orders);
    }
  }

  // ---- What matching does to each order ----

  lemma {:induction false} EatenIds(es: seq<Entry>, want: real, id: nat)
    requires forall k | 0 <= k < |es| :: es[k].id != id
    ensures For(Eaten(es, want), id) == 0.0 && forall k | 0 <= k < |Eaten(es, want)| :: Eaten(es, want)[k].id != id
  {
    if es != [] {
      EatenIds(es[..|es| - 1], want, id);
      ForAbsent(Eaten(es, want), id);
    }
  }

  lemma {:induction false} ForNonneg(es: seq<Entry>, id: nat)
    requires AllPositive(es)
    ensures For(es, id) >= 0.0
    ensures For(es, id) > 0.0 <==> exists k :: 0 <= k < |es| && es[k].id == id
  {
    if es != [] {
      var front := es[..|es| - 1];
      ForNonneg(front, id);
      if es[|es| - 1].id != id && exists k :: 0 <= k < |es| && es[k].id == id {
        var k :| 0 <= k < |es| && es[k].id == id;
        assert front[k].id == id;
      }
    }
  }

  /** What the first k levels give up of one order. */
  function TakenFrom(b: Levels, ps: seq<real>, k: nat, want: real, id: nat): real
    requires Prices(ps, b) && k <= |ps|
  {
    if k == 0 then 0.0 else TakenFrom(b, ps, k - 1, want, id) + For(EatenAt(b, ps, k - 1, want), id)
  }

  ghost predicate Resting(b: Levels, id: nat) {
    exists p :: p in b && exists k :: 0 <= k < |b[p]| && b[p][k].id == id
  }

  lemma NotInLevel(b: Levels, p: real, id: nat)
    requires p in b && !Resting(b, id)
    ensures forall k | 0 <= k < |b[p]| :: b[p][k].id != id
  {}

  /** The order's own record of the run: its terms stay, its fills grow by what was taken, its status follows. */
  ghost predicate Changed(o: Order, o': Order, taken: real) {
    && SameTerms(o, o') && o'.filled == o.filled + taken
    && (taken > 0.0 ==> o'.status == StatusAfter(o'))
    && (taken == 0.0 ==> o'.status == o.status)
  }

  lemma CreditChanged(orders: Orders, eaten: seq<Entry>, taker: nat, id: nat, o: Order, taken: real)
    requires taker in orders && id in orders && id != taker && AllPositive(eaten)
    requires forall k | 0 <= k < |eaten| :: eaten[k].id != taker
    requires Changed(o, orders[id], taken) && taken >= 0.0
    ensures Changed(o, Credit(orders, eaten, taker)[id], taken + For(eaten, id)) && For(eaten, id) >= 0.0
  {
    CreditAmounts(orders, eaten, taker, id);
    ForNonneg(eaten, id);
  }

  lemma {:induction false} RestingChanged(orders: Orders, b: Levels, ps: seq<real>, k: nat, taker: nat, want: real,
                                          id: nat)
    requires Prices(ps, b) && k <= |ps| && LevelsPositive(b) && want >= 0.0
    requires taker in orders && id in orders && id != taker && !Resting(b, taker)
    ensures Changed(orders[id], OrdersAt(orders, b, ps, k, taker, want)[id], TakenFrom(b, ps, k, want, id))
    ensures TakenFrom(b, ps, k, want, id) >= 0.0
  {
    if k > 0 {
      RestingChanged(orders, b, ps, k - 1, taker, want, id);
      WantIsShortfall(b, ps, k - 1, want);
      var p := ps[k - 1];
      assert p in b;
      assert AllPositive(b[p]);
      TakenTotal(b[p], WantAt(b, ps, k - 1, want));
      NotInLevel(b, p, taker);
      EatenIds(b[p], WantAt(b, ps, k - 1, want), taker);
      CreditChanged(OrdersAt(orders, b, ps, k - 1, taker, want), EatenAt(b, ps, k - 1, want), taker, id, orders[id],
                    TakenFrom(b, ps, k - 1, want, id));
    }
  }

  lemma {:induction false} TakerChanged(orders: Orders, b: Levels, ps: seq<real>, k: nat, taker: nat, want: real)
    requires Prices(ps, b) && k <= |ps| && LevelsPositive(b) && want >= 0.0 && taker in orders && !Resting(b, taker)
    ensures SameTerms(orders[taker], OrdersAt(orders, b, ps, k, taker, want)[taker])
    ensures OrdersAt(orders, b, ps, k, taker, want)[taker].filled ==
            orders[taker].filled + want - WantAt(b, ps, k, want)
    ensures OrdersAt(orders, b, ps, k, taker, want)[taker].status == orders[taker].status
  {
    if k > 0 {
      TakerChanged(orders, b, ps, k - 1, taker, want);
      WantIsShortfall(b, ps, k - 1, want);
      var p := ps[k - 1];
      assert p in b;
      assert AllPositive(b[p]);
      TakenTotal(b[p], WantAt(b, ps, k - 1, want));
      NotInLevel(b, p, taker);
      EatenIds(b[p], WantAt(b, ps, k - 1, want), taker);
      CreditAmounts(OrdersAt(orders, b, ps, k - 1, taker, want), EatenAt(b, ps, k - 1, want), taker, taker);
    }
  }

  lemma {:induction false} ReportedAt(b: Levels, ps: seq<real>, k: nat, o: Order, want: real, id: nat)
    requires Prices(ps, b) && k <= |ps| && LevelsPositive(b) && want >= 0.0 && !Resting(b, o.id)
    ensures Reported(FillsAt(b, ps, k, o, want), id) ==
            if id == o.id then want - WantAt(b, ps, k, want) else TakenFrom(b, ps, k, want, id)
  {
    if k > 0 {
      ReportedAt(b, ps, k - 1, o, want, id);
      WantIsShortfall(b, ps, k - 1, want);
      LevelReported(b, ps[k - 1], WantAt(b, ps, k - 1, want), o, id);
      ReportedConcat(FillsAt(b, ps, k - 1, o, want), FillsOf(EatenAt(b, ps, k - 1, want), ps[k - 1], o.id, o.side), id);
    }
  }

  lemma LevelReported(b: Levels, p: real, w: real, o: Order, id: nat)
    requires p in b && LevelsPositive(b) && w >= 0.0 && !Resting(b, o.id)
    ensures Reported(FillsOf(Eaten(b[p], w), p, o.id, o.side), id) ==
            if id == o.id then w - Wanted(b[p], w) else For(Eaten(b[p], w), id)
  {
    assert AllPositive(b[p]);
    EatenTotal(b[p], w);
    NotInLevel(b, p, o.id);
    EatenIds(b[p], w, o.id);
    ReportedFills(Eaten(b[p], w), p, o.id, o.side, id);
  }

  /** Levels at other prices hold nothing of an order. */
  lemma {:induction false} TakenElsewhere(orders: Orders, side: Side, b: Levels, ps: seq<real>, k: nat, want: real,
                                          id: nat)
    requires Prices(ps, b) && k <= |ps| && SideOk(orders, side, b) && id in orders
    requires forall i | 0 <= i < k :: ps[i] != orders[id].price || orders[id].side != side
    ensures TakenFrom(b, ps, k, want, id) == 0.0
  {
    if k > 0 {
      TakenElsewhere(orders, side, b, ps, k - 1, want, id);
      var p := ps[k - 1];
      assert p in b;
      assert LevelOk(orders, side, p, b[p]);
      forall j | 0 <= j < |b[p]| ensures b[p][j].id != id {
        assert EntryOk(orders, side, p, b[p][j]);
      }
      EatenIds(b[p], WantAt(b, ps, k - 1, want), id);
    }
  }

  lemma {:induction false} TakenHere(orders: Orders, side: Side, b: Levels, ps: seq<real>, k: nat, want: real, id: nat,
                                     i: nat)
    requires Prices(ps, b) && i < k <= |ps| && SideOk(orders, side, b) && id in orders && ps[i] == orders[id].price
    requires forall i, j | 0 <= i < j < |ps| :: ps[i] != ps[j]
    ensures TakenFrom(b, ps, k, want, id) == For(EatenAt(b, ps, i, want), id)
  {
    if i == k - 1 {
      TakenElsewhere(orders, side, b, ps, i, want, id);
    } else {
      TakenHere(orders, side, b, ps, k - 1, want, id, i);
      var p := ps[k - 1];
      assert p in b;
      assert LevelOk(orders, side, p, b[p]);
      forall j | 0 <= j < |b[p]| ensures b[p][j].id != id {
        assert EntryOk(orders, side, p, b[p][j]);
      }
      EatenIds(b[p], WantAt(b, ps, k - 1, want), id);
    }
  }

  // ---- One level after matching ----

  lemma LevelPositive(orders: Orders, side: Side, p: real, es: seq<Entry>)
    requires LevelOk(orders, side, p, es)
    ensures AllPositive(es)
  {
    forall k | 0 <= k < |es| ensures es[k].qty > 0.0 {
      assert EntryOk(orders, side, p, es[k]);
    }
  }

  /** Where an entry that stays came from. */
  lemma LeftOrigin(es: seq<Entry>, want: real, k: nat) returns (j: nat)
    requires AllPositive(es) && want >= 0.0 && k < |Left(es, want)|
    ensures j < |es| && es[j].id == Left(es, want)[k].id && |Left(es, want)| <= |es| && j == |es| - |Left(es, want)| + k
  {
    LeftIsTail(es, want);
    j := |es| - |Left(es, want)| + k;
    IdsAt(es, j);
    IdsAt(Left(es, want), k);
  }

  lemma LeftByArrival(es: seq<Entry>, want: real)
    requires AllPositive(es) && want >= 0.0 && ByArrival(es)
    ensures ByArrival(Left(es, want))
  {
    forall i, k | 0 <= i < k < |Left(es, want)| ensures Left(es, want)[i].id < Left(es, want)[k].id {
      var i0 := LeftOrigin(es, want, i);
      var k0 := LeftOrigin(es, want, k);
    }
  }

  lemma SurvivorAmount(es: seq<Entry>, want: real, k: nat) returns (j: nat)
    requires AllPositive(es) && want >= 0.0 && ByArrival(es) && k < |Left(es, want)|
    ensures j < |es| && es[j].id == Left(es, want)[k].id && Left(es, want)[k].qty > 0.0
    ensures For(Eaten(es, want), es[j].id) == es[j].qty - Left(es, want)[k].qty >= 0.0
  {
    j := LeftOrigin(es, want, k);
    LeftByArrival(es, want);
    LeftPositive(es, want);
    EatenTotal(es, want);
    EatenAndLeft(es, want, es[j].id);
    ForPresent(es, j);
    ForPresent(Left(es, want), k);
    ForNonneg(Eaten(es, want), es[j].id);
  }

  /** An entry that stays is again the remaining quantity of its active order. */
  lemma EntrySurvives(orders: Orders, orders': Orders, side: Side, p: real, es: seq<Entry>, want: real, k: nat)
    requires LevelOk(orders, side, p, es) && want >= 0.0 && k < |Left(es, want)|
    requires var id := Left(es, want)[k].id;
             id in orders && id in orders' && Changed(orders[id], orders'[id], For(Eaten(es, want), id))
    ensures EntryOk(orders', side, p, Left(es, want)[k])
  {
    LevelPositive(orders, side, p, es);
    var j := SurvivorAmount(es, want, k);
    assert EntryOk(orders, side, p, es[j]);
  }

  /** An entry that does not stay belongs to an order now completely filled. */
  lemma EntryConsumed(orders: Orders, orders': Orders, side: Side, p: real, es: seq<Entry>, want: real, j: nat)
    requires LevelOk(orders, side, p, es) && want >= 0.0 && j < |es|
    requires forall k | 0 <= k < |Left(es, want)| :: Left(es, want)[k].id != es[j].id
    requires var id := es[j].id; id in orders && id in orders'
                                 && Changed(orders[id], orders'[id], For(Eaten(es, want), id))
    ensures orders'[es[j].id].status == Filled
  {
    LevelPositive(orders, side, p, es);
    EatenAndLeft(es, want, es[j].id);
    ForAbsent(Left(es, want), es[j].id);
    ForPresent(es, j);
    assert EntryOk(orders, side, p, es[j]);
  }

  // ---- The whole book after matching ----

  ghost predicate Apart(own: Levels, opp: Levels, side: Side) {
    forall p, q | p in own && q in opp :: Key(side, p) < Key(side, q)
  }

  /** The book seen from one side; `except` is an order under way that need not rest yet. */
  ghost predicate BookOk(orders: Orders, side: Side, own: Levels, opp: Levels, nextId: nat, except: nat) {
    && OrdersOk(orders, nextId)
    && SideOk(orders, side, own) && SideOk(orders, Opposite(side), opp)
    && AllRest(orders, side, own, except) && AllRest(orders, Opposite(side), opp, except)
    && Apart(own, opp, side)
  }

  /** The matching run of order o against the opposite levels, priced ps, of a consistent book. */
  ghost predicate RunOk(orders: Orders, o: Order, own: Levels, opp: Levels, ps: seq<real>, nextId: nat) {
    && BookOk(orders, o.side, own, opp, nextId, o.id) && SortedPrices(ps, opp, o.side)
    && o.id in orders && orders[o.id] == o && o.status == Accepted
    && !Resting(own, o.id) && !Resting(opp, o.id)
  }

  lemma RunFacts(orders: Orders, o: Order, own: Levels, opp: Levels, ps: seq<real>, nextId: nat)
    requires RunOk(orders, o, own, opp, ps, nextId)
    ensures Prices(ps, opp) && LevelsPositive(opp) && o.quantity > 0.0
    ensures forall i, j | 0 <= i < j < |ps| :: ps[i] != ps[j]
  {
    forall p | p in opp ensures AllPositive(opp[p]) {
      LevelPositive(orders, Opposite(o.side), p, opp[p]);
    }
    assert OrderOk(orders, o.id, nextId);
  }

  /** What one order gives up: nothing, or what its own level gives of it. */
  lemma TakenCases(orders: Orders, side: Side, b: Levels, ps: seq<real>, e: nat, want: real, id: nat) returns (i: int)
    requires Prices(ps, b) && e <= |ps| && SideOk(orders, side, b) && id in orders
    requires forall i, j | 0 <= i < j < |ps| :: ps[i] != ps[j]
    ensures i == -1 || (0 <= i < e && orders[id].side == side && ps[i] == orders[id].price)
    ensures TakenFrom(b, ps, e, want, id) == if i == -1 then 0.0 else For(EatenAt(b, ps, i, want), id)
    ensures i == -1 ==> forall j | 0 <= j < e :: ps[j] != orders[id].price || orders[id].side != side
  {
    if exists j :: 0 <= j < e && ps[j] == orders[id].price && orders[id].side == side {
      i :| 0 <= i < e && ps[i] == orders[id].price && orders[id].side == side;
      TakenHere(orders, side, b, ps, e, want, id, i);
    } else {
      i := -1;
      TakenElsewhere(orders, side, b, ps, e, want, id);
    }
  }

  /** No order gives up more than it has left, and only a resting order gives up anything. */
  lemma TakenBound(orders: Orders, side: Side, p: real, es: seq<Entry>, want: real, id: nat)
    requires LevelOk(orders, side, p, es) && want >= 0.0 && id in orders
    ensures 0.0 <= For(Eaten(es, want), id)
    ensures For(Eaten(es, want), id) > 0.0 ==> orders[id].Active() && For(Eaten(es, want), id) <= orders[id].Leaves()
  {
    LevelPositive(orders, side, p, es);
    EatenTotal(es, want);
    LeftPositive(es, want);
    ForNonneg(Eaten(es, want), id);
    ForNonneg(Left(es, want), id);
    EatenAndLeft(es, want, id);
    if j :| 0 <= j < |es| && es[j].id == id {
      ForPresent(es, j);
      assert EntryOk(orders, side, p, es[j]);
    } else {
      ForAbsent(es, id);
    }
  }

  lemma OrderAfter(o: Order, o': Order, taken: real, orders: Orders, orders': Orders, id: nat, nextId: nat)
    requires id in orders && id in orders' && orders[id] == o && orders'[id] == o' && OrderOk(orders, id, nextId)
    requires Changed(o, o', taken) && taken >= 0.0 && (taken > 0.0 ==> o.Active() && taken <= o.Leaves())
    ensures OrderOk(orders', id, nextId)
  {}

  /** One side's untouched orders keep their entries. */
  lemma LevelKept(orders: Orders, orders': Orders, side: Side, p: real, es: seq<Entry>)
    requires LevelOk(orders, side, p, es)
    requires forall k | 0 <= k < |es| ::
               es[k].id in orders && es[k].id in orders' && Changed(orders[es[k].id], orders'[es[k].id], 0.0)
    ensures LevelOk(orders', side, p, es)
  {
    forall k | 0 <= k < |es| ensures EntryOk(orders', side, p, es[k]) {
      assert EntryOk(orders, side, p, es[k]);
    }
  }

  function After(b: Levels, ps: seq<real>, e: nat, want: real): Levels
    requires Prices(ps, b) && e <= |ps|
  {
    Cleaned(BookAt(b, ps, e, want))
  }

  /** Every order but the taker changed by exactly what the levels gave up of it. */
  ghost predicate AllChanged(orders: Orders, orders': Orders, b: Levels, ps: seq<real>, e: nat, want: real, taker: nat)
    requires Prices(ps, b) && e <= |ps|
  {
    && orders'.Keys == orders.Keys
    && forall id | id in orders && id != taker :: Changed(orders[id], orders'[id], TakenFrom(b, ps, e, want, id))
  }

  lemma TouchedLevel(orders: Orders, orders': Orders, side: Side, b: Levels, ps: seq<real>, e: nat, want: real,
                     taker: nat, i: nat)
    requires Prices(ps, b) && i < e <= |ps| && SideOk(orders, side, b) && LevelsPositive(b) && want >= 0.0
    requires !Resting(b, taker)
    requires forall i, j | 0 <= i < j < |ps| :: ps[i] != ps[j]
    requires AllChanged(orders, orders', b, ps, e, want, taker)
    ensures Left(b[ps[i]], WantAt(b, ps, i, want)) == []
            || LevelOk(orders', side, ps[i], Left(b[ps[i]], WantAt(b, ps, i, want)))
  {
    var p := ps[i];
    assert p in b;
    var es, w := b[p], WantAt(b, ps, i, want);
    WantIsShortfall(b, ps, i, want);
    assert LevelOk(orders, side, p, es) && AllPositive(es);
    NotInLevel(b, p, taker);
    forall k | 0 <= k < |Left(es, w)| ensures EntryOk(orders', side, p, Left(es, w)[k]) {
      var j := LeftOrigin(es, w, k);
      assert EntryOk(orders, side, p, es[j]);
      TakenHere(orders, side, b, ps, e, want, es[j].id, i);
      EntrySurvives(orders, orders', side, p, es, w, k);
    }
    LeftByArrival(es, w);
  }

  lemma OppositeAfter(orders: Orders, orders': Orders, side: Side, b: Levels, ps: seq<real>, e: nat, want: real,
                      taker: nat)
    requires Prices(ps, b) && e <= |ps| && SideOk(orders, side, b) && LevelsPositive(b) && want >= 0.0
    requires !Resting(b, taker)
    requires forall i, j | 0 <= i < j < |ps| :: ps[i] != ps[j]
    requires AllChanged(orders, orders', b, ps, e, want, taker)
    ensures SideOk(orders', side, After(b, ps, e, want))
  {
    var b' := After(b, ps, e, want);
    forall p | p in b' ensures LevelOk(orders', side, p, b'[p]) {
      if i :| 0 <= i < e && ps[i] == p {
        BookTouched(b, ps, e, want, i);
        TouchedLevel(orders, orders', side, b, ps, e, want, taker, i);
      } else {
        BookUntouched(b, ps, e, want, p);
        UntouchedLevel(orders, orders', side, b, ps, e, want, taker, p);
      }
    }
  }

  lemma UntouchedLevel(orders: Orders, orders': Orders, side: Side, b: Levels, ps: seq<real>, e: nat, want: real,
                       taker: nat, p: real)
    requires Prices(ps, b) && e <= |ps| && SideOk(orders, side, b) && !Resting(b, taker) && p in b
    requires forall i | 0 <= i < e :: ps[i] != p
    requires AllChanged(orders, orders', b, ps, e, want, taker)
    ensures LevelOk(orders', side, p, b[p])
  {
    assert LevelOk(orders, side, p, b[p]);
    NotInLevel(b, p, taker);
    forall k | 0 <= k < |b[p]| ensures b[p][k].id in orders && Changed(orders[b[p][k].id], orders'[b[p][k].id], 0.0) {
      assert EntryOk(orders, side, p, b[p][k]);
      TakenElsewhere(orders, side, b, ps, e, want, b[p][k].id);
    }
    LevelKept(orders, orders', side, p, b[p]);
  }

  lemma OwnAfter(orders: Orders, orders': Orders, side: Side, own: Levels, b: Levels, ps: seq<real>, e: nat, want: real,
                 taker: nat)
    requires Prices(ps, b) && e <= |ps| && SideOk(orders, Opposite(side), b) && SideOk(orders, side, own)
    requires !Resting(own, taker)
    requires AllChanged(orders, orders', b, ps, e, want, taker)
    ensures SideOk(orders', side, own)
  {
    forall p | p in own ensures LevelOk(orders', side, p, own[p]) {
      assert LevelOk(orders, side, p, own[p]);
      NotInLevel(own, p, taker);
      forall k | 0 <= k < |own[p]|
        ensures own[p][k].id in orders && Changed(orders[own[p][k].id], orders'[own[p][k].id], 0.0)
      {
        assert EntryOk(orders, side, p, own[p][k]);
        TakenElsewhere(orders, Opposite(side), b, ps, e, want, own[p][k].id);
      }
      LevelKept(orders, orders', side, p, own[p]);
    }
  }

  /** Orders still active after the run still rest. */
  lemma OppositeRests(orders: Orders, orders': Orders, side: Side, b: Levels, ps: seq<real>, e: nat, want: real,
                      taker: nat)
    requires Prices(ps, b) && e <= |ps| && SideOk(orders, side, b) && LevelsPositive(b) && want >= 0.0
    requires forall i, j | 0 <= i < j < |ps| :: ps[i] != ps[j]
    requires AllChanged(orders, orders', b, ps, e, want, taker) && AllRest(orders, side, b, taker)
    ensures AllRest(orders', side, After(b, ps, e, want), taker)
  {
    var b' := After(b, ps, e, want);
    forall id | id in orders' && id != taker && orders'[id].side == side && orders'[id].kind.Limit?
                && orders'[id].Active()
      ensures RestsIn(b', orders'[id].price, id) {
      StillRests(orders, orders', side, b, ps, e, want, taker, id);
    }
  }

  lemma StillRests(orders: Orders, orders': Orders, side: Side, b: Levels, ps: seq<real>, e: nat, want: real,
                   taker: nat, id: nat)
    requires Prices(ps, b) && e <= |ps| && SideOk(orders, side, b) && LevelsPositive(b) && want >= 0.0
    requires forall i, j | 0 <= i < j < |ps| :: ps[i] != ps[j]
    requires AllChanged(orders, orders', b, ps, e, want, taker) && AllRest(orders, side, b, taker)
    requires id in orders && id != taker && orders'[id].side == side && orders'[id].kind.Limit? && orders'[id].Active()
    ensures RestsIn(After(b, ps, e, want), orders'[id].price, id)
  {
    var p := orders[id].price;
    var i := TakenCases(orders, side, b, ps, e, want, id);
    if i == -1 {
      assert RestsIn(b, p, id);
      BookUntouched(b, ps, e, want, p);
    } else {
      assert p in b;
      var es, w := b[p], WantAt(b, ps, i, want);
      WantIsShortfall(b, ps, i, want);
      assert LevelOk(orders, side, p, es);
      TakenBound(orders, side, p, es, w, id);
      assert RestsIn(b, p, id);
      BookTouched(b, ps, e, want, i);
      if forall k | 0 <= k < |Left(es, w)| :: Left(es, w)[k].id != id {
        var j :| 0 <= j < |es| && es[j].id == id;
        EntryConsumed(orders, orders', side, p, es, w, j);
      }
    }
  }

  lemma OwnRests(orders: Orders, orders': Orders, side: Side, own: Levels, b: Levels, ps: seq<real>, e: nat, want: real,
                 taker: nat)
    requires Prices(ps, b) && e <= |ps| && SideOk(orders, Opposite(side), b)
    requires AllChanged(orders, orders', b, ps, e, want, taker) && AllRest(orders, side, own, taker)
    ensures AllRest(orders', side, own, taker)
  {
    forall id | id in orders' && id != taker && orders'[id].side == side && orders'[id].kind.Limit?
                && orders'[id].Active()
      ensures RestsIn(own, orders'[id].price, id) {
      assert Changed(orders[id], orders'[id], TakenFrom(b, ps, e, want, id));
      TakenElsewhere(orders, Opposite(side), b, ps, e, want, id);
      assert RestsIn(own, orders[id].price, id);
    }
  }

  lemma OrdersAfter(orders: Orders, orders': Orders, side: Side, b: Levels, ps: seq<real>, e: nat, want: real,
                    taker: nat, nextId: nat, id: nat)
    requires Prices(ps, b) && e <= |ps| && SideOk(orders, side, b) && LevelsPositive(b) && want >= 0.0
    requires forall i, j | 0 <= i < j < |ps| :: ps[i] != ps[j]
    requires AllChanged(orders, orders', b, ps, e, want, taker) && id in orders && id != taker
    requires OrderOk(orders, id, nextId)
    ensures OrderOk(orders', id, nextId)
  {
    var i := TakenCases(orders, side, b, ps, e, want, id);
    if i != -1 {
      var p := ps[i];
      assert p in b;
      WantIsShortfall(b, ps, i, want);
      assert LevelOk(orders, side, p, b[p]);
      TakenBound(orders, side, p, b[p], WantAt(b, ps, i, want), id);
    }
    OrderAfter(orders[id], orders'[id], TakenFrom(b, ps, e, want, id), orders, orders', id, nextId);
  }

  /** If the taker still wants more, every level it accepts is gone. */
  lemma AcceptedLevelsGone(b: Levels, ps: seq<real>, o: Order, want: real)
    requires SortedPrices(ps, b, o.side) && Prices(ps, b) && LevelsPositive(b) && want >= 0.0
    requires WantAt(b, ps, Eligible(ps, o), want) > 0.0
    ensures forall p | p in After(b, ps, Eligible(ps, o), want) :: !PriceOk(o, p)
  {
    var e := Eligible(ps, o);
    hide WantAt, BookAt, LevelsPositive;
    forall p | p in After(b, ps, e, want) ensures !PriceOk(o, p) {
      assert p in ps;
      var i :| 0 <= i < |ps| && ps[i] == p;
      if i < e {
        AcceptedLevelGone(b, ps, e, want, i);
      } else {
        assert !PriceOk(o, ps[e]);
        assert Key(o.side, ps[e]) <= Key(o.side, p);
      }
    }
  }

  lemma AcceptedLevelGone(b: Levels, ps: seq<real>, e: nat, want: real, i: nat)
    requires Prices(ps, b) && LevelsPositive(b) && want >= 0.0 && i < e <= |ps| && WantAt(b, ps, e, want) > 0.0
    requires forall i, j | 0 <= i < j < |ps| :: ps[i] != ps[j]
    ensures BookAt(b, ps, e, want)[ps[i]] == []
  {
    var p := ps[i];
    assert p in b;
    BookTouched(b, ps, e, want, i);
    WantFalls(b, ps, i + 1, e, want);
    WantIsShortfall(b, ps, i, want);
    assert AllPositive(b[p]);
    LeftPositive(b[p], WantAt(b, ps, i, want));
    assert WantAt(b, ps, i + 1, want) == Wanted(b[p], WantAt(b, ps, i, want));
  }

  lemma {:induction false} WantFalls(b: Levels, ps: seq<real>, k: nat, e: nat, want: real)
    requires Prices(ps, b) && LevelsPositive(b) && k <= e <= |ps| && want >= 0.0
    ensures WantAt(b, ps, e, want) <= WantAt(b, ps, k, want)
  {
    if k < e {
      WantFalls(b, ps, k, e - 1, want);
      WantIsShortfall(b, ps, e - 1, want);
      var p := ps[e - 1];
      assert p in b;
      assert AllPositive(b[p]);
      WantedIs(b[p], WantAt(b, ps, e - 1, want));
    }
  }

  /** The taker's status once matching is over. */
  function TakerStatus(o: Order): Status {
    if o.Leaves() <= 0.0 then Filled else if o.filled > 0.0 then PartiallyFilled else o.status
  }

  function Finished(orders: Orders, taker: nat): Orders
    requires taker in orders
  {
    orders[taker := orders[taker].(status := TakerStatus(orders[taker]))]
  }

  /** Matching keeps the book consistent; only the taker, if it has quantity left, need not rest yet. */
  lemma MatchKeeps(orders: Orders, o: Order, own: Levels, opp: Levels, ps: seq<real>, nextId: nat)
    requires RunOk(orders, o, own, opp, ps, nextId) && o.filled == 0.0
    ensures Prices(ps, opp)
    ensures var e := Eligible(ps, o);
            BookOk(Finished(OrdersAt(orders, opp, ps, e, o.id, o.quantity), o.id), o.side, own,
                   After(opp, ps, e, o.quantity), nextId, o.id)
  {
    RunFacts(orders, o, own, opp, ps, nextId);
    var e, want, t := Eligible(ps, o), o.quantity, o.id;
    var orders1 := OrdersAt(orders, opp, ps, e, t, want);
    var orders' := Finished(orders1, t);
    forall id | id in orders && id != t ensures Changed(orders[id], orders'[id], TakenFrom(opp, ps, e, want, id)) {
      RestingChanged(orders, opp, ps, e, t, want, id);
    }
    assert AllChanged(orders, orders', opp, ps, e, want, t);
    OppositeAfter(orders, orders', Opposite(o.side), opp, ps, e, want, t);
    OwnAfter(orders, orders', o.side, own, opp, ps, e, want, t);
    OppositeRests(orders, orders', Opposite(o.side), opp, ps, e, want, t);
    OwnRests(orders, orders', o.side, own, opp, ps, e, want, t);
    forall id | id in orders' ensures OrderOk(orders', id, nextId) {
      if id == t {
        TakerChanged(orders, opp, ps, e, t, want);
        WantIsShortfall(opp, ps, e, want);
        assert OrderOk(orders, t, nextId);
      } else {
        OrdersAfter(orders, orders', Opposite(o.side), opp, ps, e, want, t, nextId, id);
      }
    }
  }

  /** The fills of the run account for every change of a filled quantity. */
  lemma MatchFills(orders: Orders, o: Order, own: Levels, opp: Levels, ps: seq<real>, nextId: nat, fills: seq<Fill>)
    requires RunOk(orders, o, own, opp, ps, nextId) && o.filled == 0.0 && FillsOk(fills, orders)
    ensures Prices(ps, opp)
    ensures var e := Eligible(ps, o);
            FillsOk(fills + FillsAt(opp, ps, e, o, o.quantity),
                    Finished(OrdersAt(orders, opp, ps, e, o.id, o.quantity), o.id))
  {
    RunFacts(orders, o, own, opp, ps, nextId);
    var e, want := Eligible(ps, o), o.quantity;
    var orders' := Finished(OrdersAt(orders, opp, ps, e, o.id, want), o.id);
    var more := FillsAt(opp, ps, e, o, want);
    forall id | id in orders'
      ensures Reported(fills + more, id) == orders'[id].filled && SameTerms(orders[id], orders'[id])
    {
      ReportedConcat(fills, more, id);
      ReportedAt(opp, ps, e, o, want, id);
      if id == o.id {
        TakerChanged(orders, opp, ps, e, o.id, want);
      } else {
        RestingChanged(orders, opp, ps, e, o.id, want, id);
      }
    }
    FillIds(orders, Opposite(o.side), opp, ps, e, o, want);
    TradesAt(orders, opp, ps, e, o, want);
    hide Paired, FillsAt, OrdersAt, Eligible, BookOk;
    PairedConcat(fills, more, orders);
    PairedKept(fills + more, orders, orders');
  }

  /** The fills of one level, one by one. */
  lemma {:induction false} FillsOfAt(eaten: seq<Entry>, price: real, taker: nat, side: Side, j: nat)
    requires j < |eaten|
    ensures var fills := FillsOf(eaten, price, taker, side);
            && |fills| == 2 * |eaten|
            && fills[2 * j] == Fill(taker, price, eaten[j].qty, side, true)
            && fills[2 * j + 1] == Fill(eaten[j].id, price, eaten[j].qty, Opposite(side), false)
  {
    FillsOfSize(eaten[..|eaten| - 1], price, taker, side);
    if j < |eaten| - 1 {
      FillsOfAt(eaten[..|eaten| - 1], price, taker, side, j);
    }
  }

  lemma {:induction false} FillsOfSize(eaten: seq<Entry>, price: real, taker: nat, side: Side)
    ensures |FillsOf(eaten, price, taker, side)| == 2 * |eaten|
  {
    if eaten != [] {
      FillsOfSize(eaten[..|eaten| - 1], price, taker, side);
    }
  }

  /** What is taken from a queue is taken from its head, in order. */
  lemma {:induction false} EatenIsHead(es: seq<Entry>, want: real, k: nat)
    requires AllPositive(es) && want >= 0.0 && k < |Eaten(es, want)|
    ensures |Eaten(es, want)| <= |es| && Eaten(es, want)[k].id == es[k].id && want > 0.0
  {
    var front := es[..|es| - 1];
    WantedIs(front, want);
    EatenSize(front, want);
    if k < |Eaten(front, want)| {
      EatenIsHead(front, want, k);
    }
  }

  /** Everything before what is wanted still is taken. */
  lemma {:induction false} EatenSize(es: seq<Entry>, want: real)
    requires AllPositive(es) && want >= 0.0
    ensures |Eaten(es, want)| <= |es| && (Wanted(es, want) > 0.0 ==> |Eaten(es, want)| == |es|)
  {
    if es != [] {
      EatenSize(es[..|es| - 1], want);
      WantedIs(es[..|es| - 1], want);
    }
  }

  /** The fills at one level the taker accepts are trades. */
  lemma LevelTrades(orders: Orders, p: real, es: seq<Entry>, w: real, o: Order)
    requires LevelOk(orders, Opposite(o.side), p, es) && w >= 0.0 && o.id in orders && orders[o.id] == o
    requires PriceOk(o, p)
    requires forall k | 0 <= k < |es| :: es[k].id != o.id
    ensures Paired(FillsOf(Eaten(es, w), p, o.id, o.side), orders)
  {
    var fills := FillsOf(Eaten(es, w), p, o.id, o.side);
    FillsOfSize(Eaten(es, w), p, o.id, o.side);
    hide FillsOf, Eaten, LevelOk, TradeOk;
    forall i: nat | i + 1 < |fills| && i % 2 == 0 ensures TradeAt(fills, i, orders) {
      var j := i / 2;
      LevelTrade(orders, p, es, w, o, j);
      assert 2 * j == i;
    }
  }

  lemma LevelTrade(orders: Orders, p: real, es: seq<Entry>, w: real, o: Order, j: nat)
    requires LevelOk(orders, Opposite(o.side), p, es) && w >= 0.0 && o.id in orders && orders[o.id] == o
    requires PriceOk(o, p)
    requires forall k | 0 <= k < |es| :: es[k].id != o.id
    requires j < |Eaten(es, w)|
    ensures var fills := FillsOf(Eaten(es, w), p, o.id, o.side);
            2 * j + 1 < |fills| && TradeOk(fills[2 * j], fills[2 * j + 1], orders)
  {
    LevelPositive(orders, Opposite(o.side), p, es);
    EatenTotal(es, w);
    FillsOfAt(Eaten(es, w), p, o.id, o.side, j);
    var k := EatenOrigin(es, w, j);
    assert EntryOk(orders, Opposite(o.side), p, es[k]);
    hide FillsOf, Eaten, LevelOk;
  }

  /** The fills of the levels the taker accepts are trades. */
  lemma {:induction false} TradesAt(orders: Orders, b: Levels, ps: seq<real>, k: nat, o: Order, want: real)
    requires Prices(ps, b) && k <= |ps| && SideOk(orders, Opposite(o.side), b) && LevelsPositive(b) && want >= 0.0
    requires o.id in orders && orders[o.id] == o && !Resting(b, o.id) && forall i | 0 <= i < k :: PriceOk(o, ps[i])
    ensures Paired(FillsAt(b, ps, k, o, want), orders)
  {
    if k > 0 {
      TradesAt(orders, b, ps, k - 1, o, want);
      var p := ps[k - 1];
      assert p in b;
      WantIsShortfall(b, ps, k - 1, want);
      NotInLevel(b, p, o.id);
      LevelTrades(orders, p, b[p], WantAt(b, ps, k - 1, want), o);
      PairedConcat(FillsAt(b, ps, k - 1, o, want), FillsOf(EatenAt(b, ps, k - 1, want), p, o.id, o.side), orders);
    }
  }

  lemma {:induction false} FillIds(orders: Orders, side: Side, b: Levels, ps: seq<real>, k: nat, o: Order, want: real)
    requires Prices(ps, b) && k <= |ps| && SideOk(orders, side, b) && o.id in orders
    ensures forall f | 0 <= f < |FillsAt(b, ps, k, o, want)| :: FillsAt(b, ps, k, o, want)[f].id in orders
  {
    if k > 0 {
      FillIds(orders, side, b, ps, k - 1, o, want);
      var p := ps[k - 1];
      assert p in b;
      assert LevelOk(orders, side, p, b[p]);
      LevelFillIds(orders, side, p, b[p], WantAt(b, ps, k - 1, want), o);
    }
  }

  lemma {:induction false} EatenOrigin(es: seq<Entry>, want: real, k: nat) returns (j: nat)
    requires k < |Eaten(es, want)|
    ensures j < |es| && es[j].id == Eaten(es, want)[k].id
  {
    var front := es[..|es| - 1];
    if k < |Eaten(front, want)| {
      j := EatenOrigin(front, want, k);
    } else {
      j := |es| - 1;
    }
  }

  lemma LevelFillIds(orders: Orders, side: Side, p: real, es: seq<Entry>, w: real, o: Order)
    requires LevelOk(orders, side, p, es) && o.id in orders
    ensures forall f | 0 <= f < |FillsOf(Eaten(es, w), p, o.id, o.side)| ::
              FillsOf(Eaten(es, w), p, o.id, o.side)[f].id in orders
  {
    forall k | 0 <= k < |Eaten(es, w)| ensures Eaten(es, w)[k].id in orders {
      var j := EatenOrigin(es, w, k);
      assert EntryOk(orders, side, p, es[j]);
    }
    FillsOfIds(orders, Eaten(es, w), p, o);
  }

  lemma {:induction false} FillsOfIds(orders: Orders, eaten: seq<Entry>, p: real, o: Order)
    requires o.id in orders && forall k | 0 <= k < |eaten| :: eaten[k].id in orders
    ensures forall f | 0 <= f < |FillsOf(eaten, p, o.id, o.side)| :: FillsOf(eaten, p, o.id, o.side)[f].id in orders
  {
    if eaten != [] {
      FillsOfIds(orders, eaten[..|eaten| - 1], p, o);
    }
  }

  // ---- Price-time priority ----

  /** The first order stands before the second in the queue. */
  ghost predicate Ahead(es: seq<Entry>, id: nat, other: nat) {
    exists k, l :: 0 <= k < l < |es| && es[k].id == id && es[l].id == other
  }

  /** Order id resting at price p is due before the other resting at q: its price is better for the taker, or it is
      the same and the order came first. */
  ghost predicate Due(b: Levels, taker: Side, p: real, id: nat, q: real, other: nat) {
    Key(taker, p) < Key(taker, q) || (p == q && p in b && Ahead(b[p], id, other))
  }

  /** No order that rests in b' was due before order id at price p, unless it is the same order. */
  ghost predicate NoneBefore(b: Levels, b': Levels, taker: Side, p: real, id: nat) {
    forall q, k | q in b' && 0 <= k < |b'[q]| :: (q == p && b'[q][k].id == id) || Due(b, taker, p, id, q, b'[q][k].id)
  }

  /** The fills of order o alternate between o and orders of the book b, each due before the next and before
      everything that is left as b'. */
  ghost predicate Prioritised(b: Levels, b': Levels, o: Order, fills: seq<Fill>) {
    && (forall i | 0 <= i < |fills| && i % 2 == 0 :: fills[i].id == o.id)
    && (forall i | 0 <= i < |fills| && i % 2 == 1 ::
          && RestsIn(b, fills[i].price, fills[i].id)
          && NoneBefore(b, b', o.side, fills[i].price, fills[i].id))
    && InTurn(b, o.side, fills)
  }

  /** Of two fills of resting orders the earlier is due first. */
  ghost predicate InTurn(b: Levels, taker: Side, fills: seq<Fill>) {
    forall i, j | 0 <= i < j < |fills| && i % 2 == j % 2 == 1 ::
      Due(b, taker, fills[i].price, fills[i].id, fills[j].price, fills[j].id)
  }

  lemma {:induction false} FillsGrow(b: Levels, ps: seq<real>, k: nat, e: nat, o: Order, want: real)
    requires Prices(ps, b) && k <= e <= |ps|
    ensures |FillsAt(b, ps, k, o, want)| <= |FillsAt(b, ps, e, o, want)|
  {
    if k < e {
      FillsGrow(b, ps, k, e - 1, o, want);
    }
  }

  /** The i-th trade of a run is the j-th at level l. */
  ghost predicate Origin(b: Levels, ps: seq<real>, k: nat, o: Order, want: real, i: nat, l: nat, j: nat)
    requires Prices(ps, b) && k <= |ps| && 2 * i + 1 < |FillsAt(b, ps, k, o, want)|
  {
    var fills := FillsAt(b, ps, k, o, want);
    && l < k && j < |EatenAt(b, ps, l, want)| && j < |b[ps[l]]|
    && 2 * i == |FillsAt(b, ps, l, o, want)| + 2 * j < |FillsAt(b, ps, l + 1, o, want)|
    && fills[2 * i].id == o.id && fills[2 * i + 1].price == ps[l] && fills[2 * i + 1].id == b[ps[l]][j].id
    && WantAt(b, ps, l, want) > 0.0
  }

  lemma {:induction false} FillsEven(b: Levels, ps: seq<real>, k: nat, o: Order, want: real) returns (trades: nat)
    requires Prices(ps, b) && k <= |ps|
    ensures |FillsAt(b, ps, k, o, want)| == 2 * trades
  {
    trades := 0;
    if k > 0 {
      var before := FillsEven(b, ps, k - 1, o, want);
      FillsOfSize(EatenAt(b, ps, k - 1, want), ps[k - 1], o.id, o.side);
      trades := before + |EatenAt(b, ps, k - 1, want)|;
    }
  }

  lemma {:induction false} FillOrigin(b: Levels, ps: seq<real>, k: nat, o: Order, want: real, i: nat)
    returns (l: nat, j: nat)
    requires Prices(ps, b) && k <= |ps| && LevelsPositive(b) && want >= 0.0
    requires 2 * i + 1 < |FillsAt(b, ps, k, o, want)|
    ensures Origin(b, ps, k, o, want, i, l, j)
  {
    var trades := FillsEven(b, ps, k - 1, o, want);
    if i < trades {
      l, j := FillOrigin(b, ps, k - 1, o, want, i);
      OriginOn(b, ps, k, o, want, i, l, j);
    } else {
      l, j := k - 1, i - trades;
      LastOrigin(b, ps, l, o, want, trades, j);
      hide LevelsPositive, WantAt, FillsAt, EatenAt, Origin;
    }
  }

  /** The trades of the last level of a run. */
  lemma LastOrigin(b: Levels, ps: seq<real>, l: nat, o: Order, want: real, trades: nat, j: nat)
    requires Prices(ps, b) && l < |ps| && LevelsPositive(b) && want >= 0.0
    requires |FillsAt(b, ps, l, o, want)| == 2 * trades
    requires 2 * (trades + j) + 1 < |FillsAt(b, ps, l + 1, o, want)|
    ensures Origin(b, ps, l + 1, o, want, trades + j, l, j)
  {
    assert ps[l] in b;
    assert AllPositive(b[ps[l]]);
    WantIsShortfall(b, ps, l, want);
    FillsOfSize(EatenAt(b, ps, l, want), ps[l], o.id, o.side);
    EatenHere(b, ps, l, want);
    LevelOrigin(b[ps[l]], WantAt(b, ps, l, want), ps[l], o, j);
    hide LevelsPositive, Eaten, FillsOf, WantAt, EatenAt;
  }

  lemma OriginOn(b: Levels, ps: seq<real>, k: nat, o: Order, want: real, i: nat, l: nat, j: nat)
    requires Prices(ps, b) && 0 < k <= |ps| && 2 * i + 1 < |FillsAt(b, ps, k - 1, o, want)|
    requires Origin(b, ps, k - 1, o, want, i, l, j)
    ensures 2 * i + 1 < |FillsAt(b, ps, k, o, want)| && Origin(b, ps, k, o, want, i, l, j)
  {
    assert FillsAt(b, ps, k - 1, o, want) <= FillsAt(b, ps, k, o, want);
    hide EatenAt, WantAt;
  }

  lemma LevelOrigin(es: seq<Entry>, w: real, p: real, o: Order, j: nat)
    requires AllPositive(es) && w >= 0.0 && j < |Eaten(es, w)|
    ensures var fills := FillsOf(Eaten(es, w), p, o.id, o.side);
            && j < |es| && w > 0.0 && |fills| == 2 * |Eaten(es, w)|
            && fills[2 * j].id == o.id && fills[2 * j + 1].price == p && fills[2 * j + 1].id == es[j].id
  {
    FillsOfAt(Eaten(es, w), p, o.id, o.side, j);
    EatenIsHead(es, w, j);
  }

  /** Of two trades of a run the earlier is due first. */
  lemma TradesInOrder(b: Levels, ps: seq<real>, k: nat, o: Order, want: real, i: nat, i': nat)
    requires SortedPrices(ps, b, o.side) && Prices(ps, b) && k <= |ps| && LevelsPositive(b) && want >= 0.0
    requires i < i' && 2 * i' + 1 < |FillsAt(b, ps, k, o, want)|
    ensures var f, g := FillsAt(b, ps, k, o, want)[2 * i + 1], FillsAt(b, ps, k, o, want)[2 * i' + 1];
            Due(b, o.side, f.price, f.id, g.price, g.id)
  {
    var l, j := FillOrigin(b, ps, k, o, want, i);
    var l', j' := FillOrigin(b, ps, k, o, want, i');
    OriginsInOrder(b, ps, k, o, want, i, l, j, i', l', j');
    assert ps[l] in b;
    hide FillsAt, LevelsPositive, EatenAt, WantAt;
  }

  lemma OriginsInOrder(b: Levels, ps: seq<real>, k: nat, o: Order, want: real, i: nat, l: nat, j: nat,
                       i': nat, l': nat, j': nat)
    requires Prices(ps, b) && k <= |ps| && i < i' && 2 * i' + 1 < |FillsAt(b, ps, k, o, want)|
    requires Origin(b, ps, k, o, want, i, l, j) && Origin(b, ps, k, o, want, i', l', j')
    ensures l < l' || (l == l' && j < j')
  {
    hide FillsAt, EatenAt, WantAt;
    if l' < l {
      FillsGrow(b, ps, l' + 1, l, o, want);
    }
  }

  /** An entry that stays is not before one that was taken from. */
  lemma {:induction false} EatenLeftSize(es: seq<Entry>, want: real)
    requires AllPositive(es) && want >= 0.0
    ensures |Eaten(es, want)| + |Left(es, want)| <= |es| + 1
    ensures Wanted(es, want) > 0.0 ==> |Eaten(es, want)| == |es| && Left(es, want) == []
  {
    if es != [] {
      EatenLeftSize(es[..|es| - 1], want);
      WantedIs(es[..|es| - 1], want);
      LeftPositive(es, want);
      EatenSize(es, want);
      EatenSize(es[..|es| - 1], want);
    }
  }

  lemma LeftBehind(es: seq<Entry>, want: real, j: nat, k: nat)
    requires AllPositive(es) && want >= 0.0 && j < |Eaten(es, want)| && k < |Left(es, want)| && j < |es|
    ensures Left(es, want)[k].id == es[j].id || Ahead(es, es[j].id, Left(es, want)[k].id)
  {
    EatenLeftSize(es, want);
    var l := LeftOrigin(es, want, k);
  }

  /** Nothing left after the run was due before one of its trades. */
  lemma TradeBeforeLeft(b: Levels, ps: seq<real>, e: nat, o: Order, want: real, i: nat)
    requires SortedPrices(ps, b, o.side) && Prices(ps, b) && e <= |ps| && LevelsPositive(b) && want >= 0.0
    requires 2 * i + 1 < |FillsAt(b, ps, e, o, want)|
    ensures var f := FillsAt(b, ps, e, o, want)[2 * i + 1];
            NoneBefore(b, After(b, ps, e, want), o.side, f.price, f.id) && RestsIn(b, f.price, f.id)
  {
    var l, j := FillOrigin(b, ps, e, o, want, i);
    var f := FillsAt(b, ps, e, o, want)[2 * i + 1];
    var b': Levels := After(b, ps, e, want);
    hide FillsAt, EatenAt, WantAt;
    assert ps[l] in b;
    forall q: real, k: nat | q in b' && k < |b'[q]|
      ensures (q == f.price && b'[q][k].id == f.id) || Due(b, o.side, f.price, f.id, q, b'[q][k].id)
    {
      assert q in ps;
      var m :| 0 <= m < |ps| && ps[m] == q;
      if m < l {
        AcceptedLevelGone(b, ps, l, want, m);
        BookTouched(b, ps, l, want, m);
        BookTouched(b, ps, e, want, m);
        assert false;
      } else if m == l {
        BookTouched(b, ps, e, want, l);
        assert AllPositive(b[q]);
        WantIsShortfall(b, ps, l, want);
        EatenHere(b, ps, l, want);
        LeftBehind(b[q], WantAt(b, ps, l, want), j, k);
      }
    }
  }

  lemma TakerAt(b: Levels, ps: seq<real>, e: nat, o: Order, want: real, i: nat)
    requires Prices(ps, b) && e <= |ps| && LevelsPositive(b) && want >= 0.0
    requires 2 * i + 1 < |FillsAt(b, ps, e, o, want)|
    ensures FillsAt(b, ps, e, o, want)[2 * i].id == o.id
  {
    var l, j := FillOrigin(b, ps, e, o, want, i);
  }

  lemma EatenHere(b: Levels, ps: seq<real>, k: nat, want: real)
    requires Prices(ps, b) && k < |ps|
    ensures EatenAt(b, ps, k, want) == Eaten(b[ps[k]], WantAt(b, ps, k, want))
  {}

  /** Matching has price-time priority: trades run from the order due first to the one due last, and nothing that was
      due before one of them is left. */
  lemma MatchPrioritised(b: Levels, ps: seq<real>, e: nat, o: Order, want: real)
    requires SortedPrices(ps, b, o.side) && Prices(ps, b) && e <= |ps| && LevelsPositive(b) && want >= 0.0
    ensures Prioritised(b, After(b, ps, e, want), o, FillsAt(b, ps, e, o, want))
  {
    var fills, b' := FillsAt(b, ps, e, o, want), After(b, ps, e, want);
    var trades := FillsEven(b, ps, e, o, want);
    MatchInTurn(b, ps, e, o, want, trades);
    hide FillsAt, After, Due, NoneBefore, RestsIn, InTurn;
    forall i: nat | i < |fills| && i % 2 == 0 ensures fills[i].id == o.id {
      TakerAt(b, ps, e, o, want, i / 2);
    }
    forall i: nat | i < |fills| && i % 2 == 1
      ensures RestsIn(b, fills[i].price, fills[i].id) && NoneBefore(b, b', o.side, fills[i].price, fills[i].id)
    {
      TradeBeforeLeft(b, ps, e, o, want, i / 2);
    }
  }

  lemma MatchInTurn(b: Levels, ps: seq<real>, e: nat, o: Order, want: real, trades: nat)
    requires SortedPrices(ps, b, o.side) && Prices(ps, b) && e <= |ps| && LevelsPositive(b) && want >= 0.0
    requires |FillsAt(b, ps, e, o, want)| == 2 * trades
    ensures InTurn(b, o.side, FillsAt(b, ps, e, o, want))
  {
    var fills := FillsAt(b, ps, e, o, want);
    hide FillsAt, Due;
    forall i: nat, j: nat | i < j && j < |fills| && i % 2 == j % 2 == 1
      ensures Due(b, o.side, fills[i].price, fills[i].id, fills[j].price, fills[j].id)
    {
      TradesInOrder(b, ps, e, o, want, i / 2, j / 2);
    }
  }

  // ---- Resting and canceling ----

  function AddEntry(b: Levels, p: real, e: Entry): Levels {
    b[p := (if p in b then b[p] else []) + [e]]
  }

  /** What stays of a limit order that has met every price it accepts can rest without crossing the book. */
  lemma RestKeeps(orders: Orders, o: Order, own: Levels, opp: Levels, nextId: nat)
    requires BookOk(orders, o.side, own, opp, nextId, o.id) && o.id in orders && orders[o.id] == o
    requires o.kind.Limit? && o.Active() && o.Leaves() > 0.0 && !Resting(own, o.id) && nextId == o.id + 1
    requires forall p | p in opp :: !PriceOk(o, p)
    ensures BookOk(orders, o.side, AddEntry(own, o.price, Entry(o.id, o.Leaves())), opp, nextId, nextId)
  {
    var p, e := o.price, Entry(o.id, o.Leaves());
    var own' := AddEntry(own, p, e);
    assert EntryOk(orders, o.side, p, e);
    forall q | q in own' ensures LevelOk(orders, o.side, q, own'[q]) {
      if q in own {
        assert LevelOk(orders, o.side, q, own[q]);
        NotInLevel(own, q, o.id);
        Earlier(orders, o.side, q, own[q], nextId);
      }
    }
    forall id | id in orders && orders[id].side == o.side && orders[id].kind.Limit? && orders[id].Active()
      ensures RestsIn(own', orders[id].price, id) {
      if id == o.id {
        assert own'[p][|own'[p]| - 1].id == id;
      } else {
        RestsInMore(own, own', o.price, e, orders[id].price, id);
      }
    }
    AllRestElsewhere(orders, o, opp, nextId);
  }

  /** Resting orders arrived before the next one. */
  lemma Earlier(orders: Orders, side: Side, p: real, es: seq<Entry>, nextId: nat)
    requires LevelOk(orders, side, p, es) && OrdersOk(orders, nextId)
    ensures forall k | 0 <= k < |es| :: es[k].id < nextId
  {
    forall k | 0 <= k < |es| ensures es[k].id < nextId {
      assert EntryOk(orders, side, p, es[k]);
      assert OrderOk(orders, es[k].id, nextId);
    }
  }

  lemma RestsInMore(own: Levels, own': Levels, p: real, e: Entry, q: real, id: nat)
    requires own' == AddEntry(own, p, e) && RestsIn(own, q, id)
    ensures RestsIn(own', q, id)
  {
    var k :| 0 <= k < |own[q]| && own[q][k].id == id;
    assert own'[q][k].id == id;
  }

  lemma AllRestElsewhere(orders: Orders, o: Order, opp: Levels, nextId: nat)
    requires o.id in orders && orders[o.id] == o && AllRest(orders, Opposite(o.side), opp, o.id)
    ensures AllRest(orders, Opposite(o.side), opp, nextId)
  {}

  /** An order that keeps no place in the book needs none once it is no active limit order. */
  lemma NoRestNeeded(orders: Orders, side: Side, own: Levels, opp: Levels, nextId: nat, id: nat)
    requires BookOk(orders, side, own, opp, nextId, id) && id in orders
    requires !(orders[id].kind.Limit? && orders[id].Active())
    ensures BookOk(orders, side, own, opp, nextId, nextId)
  {}
}
