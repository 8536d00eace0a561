/** Recorded fills, and how far the handler's running average price can drift from the exact one. */
module Fills {
  import opened Lifecycle

  datatype FillRecord = FillRecord(orderId: nat, symbol: string, price: int, quantity: int)

  // ---- The two averages ----

  function Quantity(fs: seq<FillRecord>): int {
    if fs == [] then 0 else Quantity(fs[..|fs| - 1]) + fs[|fs| - 1].quantity
  }

  function Cost(fs: seq<FillRecord>): int {
    if fs == [] then 0 else Cost(fs[..|fs| - 1]) + fs[|fs| - 1].price * fs[|fs| - 1].quantity
  }

  /** The exact average, cut to an integer once. */
  function ExactAverage(fs: seq<FillRecord>): int {
    if Quantity(fs) > 0 then Quotient(Cost(fs), Quantity(fs)) else 0
  }

  /** The running average, cut to an integer at every fill. */
  function RunningAverage(fs: seq<FillRecord>): int {
    if fs == [] then 0
    else
      var front, last := fs[..|fs| - 1], fs[|fs| - 1];
      Average(RunningAverage(front), Quantity(front), last.price, last.quantity, Quantity(fs))
  }

  predicate Proper(fs: seq<FillRecord>) { forall i | 0 <= i < |fs| :: fs[i].price >= 0 && fs[i].quantity > 0 }

  predicate Between(fs: seq<FillRecord>, lo: int, hi: int) { forall i | 0 <= i < |fs| :: lo <= fs[i].price <= hi }

  lemma DivBounds(a: int, b: int)
    requires a >= 0 && b > 0
    ensures Quotient(a, b) >= 0 && 0 <= a - Quotient(a, b) * b <= b - 1
  {}

  /** What cutting has lost so far: at most one unit less than the quantity at each fill after the first. */
  lemma {:induction false} CostLost(fs: seq<FillRecord>)
    requires Proper(fs)
    ensures Quantity(fs) >= 0 && (fs != [] ==> Quantity(fs) > 0) && RunningAverage(fs) >= 0
    ensures var lost := Cost(fs) - RunningAverage(fs) * Quantity(fs);
            0 <= lost && (fs != [] ==> lost <= (|fs| - 1) * (Quantity(fs) - 1))
  {
    if fs != [] {
      var front, last := fs[..|fs| - 1], fs[|fs| - 1];
      CostLost(front);
      var avg, q, q' := RunningAverage(front), Quantity(front), Quantity(fs);
      MulNonneg(last.price, last.quantity);
      MulNonneg(avg, q);
      DivBounds(avg * q + last.price * last.quantity, q');
      if front != [] {
        GrowBound(|front| - 1, q - 1, q' - 1, Cost(front) - avg * q, Cost(fs) - RunningAverage(fs) * q');
      } else {
        SingleAverage(last.price, last.quantity);
      }
    }
  }

  lemma MulNonneg(a: int, b: int)
    requires a >= 0 && b >= 0
    ensures a * b >= 0
  {}

  lemma GrowBound(n: int, a: int, b: int, lost: int, lost': int)
    requires n >= 0 && 0 <= a <= b && lost <= n * a && lost' <= lost + b
    ensures lost' <= (n + 1) * b
  {
    assert n * a <= n * b;
  }

  lemma SingleAverage(p: int, q: int)
    requires p >= 0 && q > 0
    ensures Quotient(0 * 0 + p * q, q) * q == p * q
  {
    MulNonneg(p, q);
    ExactQuotient(p, q);
  }

  lemma ExactQuotient(p: int, q: int)
    requires p >= 0 && q > 0
    ensures p * q / q == p
  {
    var d := p * q / q;
    assert d * q <= p * q < (d + 1) * q;
    MulMonotone(d + 1, p, q);
    MulMonotone(p + 1, d, q);
  }

  lemma MulMonotone(a: int, b: int, q: int)
    requires q > 0
    ensures a <= b ==> a * q <= b * q
  {}

  /** The running average never exceeds the exact one, and falls short of it by less than one
      unit per fill after the first. */
  lemma AverageDrift(fs: seq<FillRecord>)
    requires Proper(fs) && fs != []
    ensures 0 <= ExactAverage(fs) - RunningAverage(fs)
    ensures |fs| == 1 ==> ExactAverage(fs) == RunningAverage(fs)
    ensures |fs| >= 2 ==> ExactAverage(fs) - RunningAverage(fs) <= |fs| - 2
  {
    CostLost(fs);
    var avg, q := RunningAverage(fs), Quantity(fs);
    MulNonneg(avg, q);
    DivBounds(Cost(fs), q);
    DriftBound(ExactAverage(fs), avg, q, |fs| - 1, Cost(fs));
  }

  lemma DriftBound(exact: int, avg: int, q: int, n: int, cost: int)
    requires q > 0 && n >= 0 && 0 <= cost - exact * q <= q - 1 && 0 <= cost - avg * q <= n * (q - 1)
    ensures 0 <= exact - avg && (n == 0 ==> exact == avg) && (n > 0 ==> exact - avg <= n - 1)
  {
    var d := exact - avg;
    assert d * q == exact * q - avg * q;
    assert n * (q - 1) == n * q - n;
    MulMonotone(1, -d, q);
    MulMonotone(n, d, q);
    MulMonotone(1, d, q);
  }

  /** A cut average of numbers at least lo and at most hi stays between them. */
  lemma QuotientBetween(avg: int, q: int, price: int, quantity: int, lo: int, hi: int)
    requires 0 <= lo <= avg <= hi && lo <= price <= hi && q >= 0 && quantity > 0
    ensures lo <= Quotient(avg * q + price * quantity, q + quantity) <= hi
  {
    WeightBetween(lo, avg, hi, q);
    WeightBetween(lo, price, hi, quantity);
    Distribute(lo, q, quantity);
    Distribute(hi, q, quantity);
    FloorBetween(avg * q + price * quantity, q + quantity, lo, hi);
  }

  lemma Distribute(x: int, a: int, b: int)
    ensures x * (a + b) == x * a + x * b
  {}

  lemma FloorBetween(a: int, n: int, lo: int, hi: int)
    requires n > 0 && 0 <= lo && lo * n <= a <= hi * n
    ensures lo <= Quotient(a, n) <= hi
  {
    MulNonneg(lo, n);
    var d := a / n;
    assert d * n <= a < d * n + n;
    Distribute(n, d, 1);
    Distribute(n, hi, 1);
    MulMonotone(d + 1, lo, n);
    MulMonotone(hi + 1, d, n);
  }

  lemma WeightBetween(lo: int, x: int, hi: int, q: int)
    requires lo <= x <= hi && q >= 0
    ensures lo * q <= x * q <= hi * q
  {}

  /** The running average stays between the lowest and the highest fill price. */
  lemma {:induction false} AverageBetween(fs: seq<FillRecord>, lo: int, hi: int)
    requires Proper(fs) && fs != [] && 0 <= lo && Between(fs, lo, hi)
    ensures lo <= RunningAverage(fs) <= hi
  {
    var front, last := fs[..|fs| - 1], fs[|fs| - 1];
    CostLost(front);
    if front != [] {
      AverageBetween(front, lo, hi);
      QuotientBetween(RunningAverage(front), Quantity(front), last.price, last.quantity, lo, hi);
    } else {
      MulNonneg(last.price, last.quantity);
      ExactQuotient(last.price, last.quantity);
    }
  }

  // ---- The handler computes the running average ----

  /** The reports, in order, announce the fills with their cumulative quantities. */
  predicate Announces(rs: seq<Report>, fs: seq<FillRecord>) {
    |rs| == |fs| && forall i | 0 <= i < |rs| :: Announced(rs[i], fs, i)
  }

  predicate Announced(r: Report, fs: seq<FillRecord>, i: nat)
    requires i < |fs|
  {
    r.lastPrice == fs[i].price && r.lastQuantity == fs[i].quantity > 0 && r.cumQuantity == Quantity(fs[..i + 1])
  }

  function BookedAll(o: Order, rs: seq<Report>): Order {
    if rs == [] then o else Booked(BookedAll(o, rs[..|rs| - 1]), rs[|rs| - 1])
  }

  /** An order's average price after its reports is the running average of its fills. */
  lemma {:induction false} HandlerAverage(o: Order, rs: seq<Report>, fs: seq<FillRecord>)
    requires Announces(rs, fs) && Proper(fs) && o.filled == 0 && o.avgPrice == 0
    ensures BookedAll(o, rs).avgPrice == RunningAverage(fs) && BookedAll(o, rs).filled == Quantity(fs)
  {
    if rs != [] {
      var n := |rs| - 1;
      var front := fs[..n];
      forall i | 0 <= i < n ensures Announced(rs[..n][i], front, i) {
        assert Announced(rs[i], fs, i);
        assert front[..i + 1] == fs[..i + 1];
      }
      HandlerAverage(o, rs[..n], front);
      assert Announced(rs[n], fs, n);
      assert fs[..n + 1] == fs;
    }
  }

  // ---- The fill manager ----

  /** What fills are looked up by. */
  datatype Key = ByOrder(id: nat) | BySymbol(symbol: string)

  predicate Matches(fill: FillRecord, key: Key) {
    match key
    case ByOrder(id) => fill.orderId == id
    case BySymbol(symbol) => fill.symbol == symbol
  }

  /** The fills of one order or symbol, in the order they were recorded. */
  function FillsFor(all: seq<FillRecord>, key: Key): seq<FillRecord> {
    if all == [] then []
    else FillsFor(all[..|all| - 1], key) + if Matches(all[|all| - 1], key) then [all[|all| - 1]] else []
  }

  predicate InRange(indices: seq<nat>, n: nat) { forall k | 0 <= k < |indices| :: indices[k] < n }

  /** The records at the given indices. */
  function Picked(all: seq<FillRecord>, indices: seq<nat>): (fs: seq<FillRecord>)
    requires InRange(indices, |all|)
    ensures |fs| == |indices| && forall k | 0 <= k < |indices| :: fs[k] == all[indices[k]]
  {
    seq(|indices|, k requires 0 <= k < |indices| => all[indices[k]])
  }

  lemma PickedMore(all: seq<FillRecord>, f: FillRecord, indices: seq<nat>)
    requires InRange(indices, |all|)
    ensures Picked(all + [f], indices) == Picked(all, indices)
    ensures Picked(all + [f], indices + [|all|]) == Picked(all, indices) + [f]
  {}

  class FillManager {
    var allFills: seq<FillRecord>
    var orderFills: map<nat, seq<nat>>
    var symbolFills: map<string, seq<nat>>

    function IndicesOf(key: Key): seq<nat>
      reads this
    {
      match key
      case ByOrder(id) => if id in orderFills then orderFills[id] else []
      case BySymbol(symbol) => if symbol in symbolFills then symbolFills[symbol] else []
    }

    ghost predicate Indexed(key: Key)
      reads this
    {
      InRange(IndicesOf(key), |allFills|) && Picked(allFills, IndicesOf(key)) == FillsFor(allFills, key)
    }

    /** The indices of every order and every symbol find exactly its fills. */
    ghost predicate Valid()
      reads this
    {
      forall key: Key :: Indexed(key)
    }

    constructor ()
      ensures Valid() && allFills == []
    {
      allFills, orderFills, symbolFills := [], map[], map[];
    }

    method RecordFill(fill: FillRecord)
      requires Valid()
      modifies this
      ensures Valid() && allFills == old(allFills) + [fill]
    {
      var idx := |allFills|;
      ghost var before := allFills;
      allFills := allFills + [fill];
      var indices := if fill.orderId in orderFills then orderFills[fill.orderId] else [];
      orderFills := orderFills[fill.orderId := indices + [idx]];
      indices := if fill.symbol in symbolFills then symbolFills[fill.symbol] else [];
      symbolFills := symbolFills[fill.symbol := indices + [idx]];
      forall key: Key ensures Indexed(key) {
        assert old(Indexed(key));
        assert allFills[..idx] == before;
        PickedMore(before, fill, old(IndicesOf(key)));
        assert IndicesOf(key) == if Matches(fill, key) then old(IndicesOf(key)) + [idx] else old(IndicesOf(key));
      }
    }

    /** Copies out the fills at some indices. */
    method Collect(indices: seq<nat>) returns (fills: seq<FillRecord>)
      requires InRange(indices, |allFills|)
      ensures fills == Picked(allFills, indices)
    {
      fills := [];
      for k := 0 to |indices|
        invariant fills == Picked(allFills, indices)[..k]
      {
        fills := fills + [allFills[indices[k]]];
      }
    }

    method GetFillsForOrder(orderId: nat) returns (fills: seq<FillRecord>)
      requires Valid()
      ensures fills == FillsFor(allFills, ByOrder(orderId))
    {
      assert Indexed(ByOrder(orderId));
      fills := [];
      if orderId in orderFills {
        fills := Collect(orderFills[orderId]);
      }
    }

    method GetFillsForSymbol(symbol: string) returns (fills: seq<FillRecord>)
      requires Valid()
      ensures fills == FillsFor(allFills, BySymbol(symbol))
    {
      assert Indexed(BySymbol(symbol));
      fills := [];
      if symbol in symbolFills {
        fills := Collect(symbolFills[symbol]);
      }
    }

    method TotalFilledQuantity(orderId: nat) returns (total: int)
      requires Valid()
      ensures total == Quantity(FillsFor(allFills, ByOrder(orderId)))
    {
      assert Indexed(ByOrder(orderId));
      total := 0;
      if orderId in orderFills {
        var indices := orderFills[orderId];
        assert indices == IndicesOf(ByOrder(orderId));
        ghost var fs := Picked(allFills, indices);
        var k := 0;
        while k < |indices|
          invariant k <= |indices| && total == Quantity(fs[..k])
        {
          assert fs[..k + 1][..k] == fs[..k];
          total := total + allFills[indices[k]].quantity;
          k := k + 1;
        }
        assert fs[..k] == fs;
      }
    }

    method AverageFillPrice(orderId: nat) returns (average: int)
      requires Valid()
      ensures average == ExactAverage(FillsFor(allFills, ByOrder(orderId)))
    {
      assert Indexed(ByOrder(orderId));
      if orderId !in orderFills || orderFills[orderId] == [] {
        return 0;
      }
      var indices := orderFills[orderId];
      assert indices == IndicesOf(ByOrder(orderId));
      ghost var fs := Picked(allFills, indices);
      var cost, quantity, k := 0, 0, 0;
      while k < |indices|
        invariant k <= |indices| && cost == Cost(fs[..k]) && quantity == Quantity(fs[..k])
      {
        assert fs[..k + 1][..k] == fs[..k];
        var f := allFills[indices[k]];
        cost := cost + f.price * f.quantity;
        quantity := quantity + f.quantity;
        k := k + 1;
      }
      assert fs[..k] == fs;
      average := if quantity > 0 then Quotient(cost, quantity) else 0;
    }
  }
}
