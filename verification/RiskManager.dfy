/** Pre-trade limits and position tracking: the position cap over whole runs. */
module Risk {

  datatype Side = Buy | Sell

  datatype Limits = Limits(
    maxOrderQuantity: int, maxOrderNotional: int, maxPositionNotional: int, maxPositionQuantity: int,
    maxOpenOrders: int, maxLoss: int, maxOrdersPerSecond: int, enabled: bool)

  datatype Position = Position(
    net: int, avgEntry: int, realized: int, unrealized: int, openOrders: int, pendingBuy: int, pendingSell: int)

  datatype Verdict =
    | Passed | FailedMaxOrderQuantity | FailedMaxOrderNotional | FailedMaxPositionQuantity | FailedMaxPositionNotional
    | FailedMaxOpenOrders | FailedMaxLoss | FailedKillSwitch | FailedRateLimit

  datatype Order = Order(symbol: string, side: Side, quantity: int, filled: int, price: int)

  const INVALID_PRICE: int := 0x7FFF_FFFF_FFFF_FFFF
  const PRICE_SCALE: int := 100_000_000
  const FLAT: Position := Position(0, 0, 0, 0, 0, 0, 0)

  function AbsInt(x: int): int { if x < 0 then -x else x }
  function MaxInt(a: int, b: int): int { if a < b then b else a }
  function MinInt(a: int, b: int): int { if a < b then a else b }

  /** a * b / divisor, toward zero. */
  function MulDiv(a: int, b: int, divisor: int): int
    requires divisor != 0
  {
    var n, d := AbsInt(a * b), AbsInt(divisor);
    if (a * b < 0) == (divisor < 0) then n / d else -(n / d)
  }

  function Signed(side: Side, quantity: int): int { if side.Buy? then quantity else -quantity }

  function Pending(pos: Position, side: Side): int { if side.Buy? then pos.pendingBuy else pos.pendingSell }

  /** The position if everything pending on the order's side, and the order, were filled. */
  function Projected(o: Order, pos: Position): int {
    pos.net + Signed(o.side, o.quantity) + Signed(o.side, Pending(pos, o.side))
  }

  /** Order size, projected position and number of open orders respect the limits set; a limit of zero is none. */
  predicate WithinQuantities(o: Order, l: Limits, pos: Position) {
    && (l.maxOrderQuantity > 0 ==> o.quantity <= l.maxOrderQuantity)
    && (l.maxPositionQuantity > 0 ==> -l.maxPositionQuantity <= Projected(o, pos) <= l.maxPositionQuantity)
    && (l.maxOpenOrders > 0 ==> pos.openOrders < l.maxOpenOrders)
  }

  /** So do the values of the order and of the position after it, for an order with a price. */
  predicate WithinNotionals(o: Order, l: Limits, pos: Position) {
    o.price != INVALID_PRICE ==>
      && (l.maxOrderNotional > 0 ==> MulDiv(o.price, o.quantity, PRICE_SCALE) <= l.maxOrderNotional)
      && (l.maxPositionNotional > 0 ==>
            MulDiv(AbsInt(pos.net + Signed(o.side, o.quantity)), o.price, PRICE_SCALE) <= l.maxPositionNotional)
  }

  /** The loss, realised and not, is no larger than allowed. */
  predicate WithinLoss(l: Limits, pos: Position) { l.maxLoss > 0 ==> pos.realized + pos.unrealized >= -l.maxLoss }

  /** The first limit the order breaks. */
  function CheckLimits(o: Order, l: Limits, pos: Position): Verdict
  {
    if !l.enabled then Passed
    else if l.maxOrderQuantity > 0 && o.quantity > l.maxOrderQuantity then FailedMaxOrderQuantity
    else if l.maxOrderNotional > 0 && o.price != INVALID_PRICE
            && MulDiv(o.price, o.quantity, PRICE_SCALE) > l.maxOrderNotional then FailedMaxOrderNotional
    else if l.maxPositionQuantity > 0 && AbsInt(Projected(o, pos)) > l.maxPositionQuantity
    then FailedMaxPositionQuantity
    else if l.maxPositionNotional > 0 && o.price != INVALID_PRICE
            && MulDiv(AbsInt(pos.net + Signed(o.side, o.quantity)), o.price, PRICE_SCALE) > l.maxPositionNotional
      then FailedMaxPositionNotional
      else if l.maxOpenOrders > 0 && pos.openOrders >= l.maxOpenOrders then FailedMaxOpenOrders
        else if l.maxLoss > 0 && pos.realized + pos.unrealized < 0 && -(pos.realized + pos.unrealized) > l.maxLoss
        then FailedMaxLoss
        else Passed
  }

  /** An order passes exactly if it respects all limits, or the limits are switched off. */
  lemma PassedExactly(o: Order, l: Limits, pos: Position)
    ensures CheckLimits(o, l, pos).Passed? <==>
            !l.enabled || (WithinQuantities(o, l, pos) && WithinNotionals(o, l, pos) && WithinLoss(l, pos))
  {
    hide MulDiv;
    assert -l.maxPositionQuantity <= Projected(o, pos) <= l.maxPositionQuantity <==>
           AbsInt(Projected(o, pos)) <= l.maxPositionQuantity;
  }

  /** The verdict names a limit that is set and broken, the order's size before anything else. */
  lemma VerdictTells(o: Order, l: Limits, pos: Position)
    ensures var v := CheckLimits(o, l, pos);
            && (v.FailedMaxOrderQuantity? <==> l.enabled && 0 < l.maxOrderQuantity < o.quantity)
            && (v.FailedMaxOrderNotional? ==>
                  o.price != INVALID_PRICE && 0 < l.maxOrderNotional < MulDiv(o.price, o.quantity, PRICE_SCALE))
            && (v.FailedMaxPositionQuantity? ==>
                  0 < l.maxPositionQuantity
                  && !(-l.maxPositionQuantity <= Projected(o, pos) <= l.maxPositionQuantity))
            && (v.FailedMaxPositionNotional? ==>
                  && o.price != INVALID_PRICE
                  && 0 < l.maxPositionNotional
                   < MulDiv(AbsInt(pos.net + Signed(o.side, o.quantity)), o.price, PRICE_SCALE))
            && (v.FailedMaxOpenOrders? ==> 0 < l.maxOpenOrders <= pos.openOrders)
            && (v.FailedMaxLoss? ==> 0 < l.maxLoss && pos.realized + pos.unrealized < -l.maxLoss)
            && !v.FailedKillSwitch? && !v.FailedRateLimit?
  {
    hide MulDiv;
  }

  /** A smaller pending quantity, never below zero. */
  function Lowered(pos: Position, side: Side, quantity: int): Position {
    if side.Buy? then pos.(pendingBuy := MaxInt(0, pos.pendingBuy - quantity))
    else pos.(pendingSell := MaxInt(0, pos.pendingSell - quantity))
  }

  function Accepted(pos: Position, side: Side, quantity: int): Position {
    var p := pos.(openOrders := pos.openOrders + 1);
    if side.Buy? then p.(pendingBuy := p.pendingBuy + quantity) else p.(pendingSell := p.pendingSell + quantity)
  }

  function Closed(pos: Position, side: Side, quantity: int): Position {
    Lowered(pos.(openOrders := MaxInt(0, pos.openOrders - 1)), side, quantity)
  }

  predicate Reducing(pos: Position, side: Side) { (pos.net > 0 && side.Sell?) || (pos.net < 0 && side.Buy?) }

  /** The profit a fill realises on the part of the position it closes. */
  function Realized(pos: Position, side: Side, quantity: int, price: int): int {
    if Reducing(pos, side) && pos.avgEntry != 0 then
      var closed := MinInt(AbsInt(quantity), AbsInt(pos.net));
      pos.realized + MulDiv(if pos.net > 0 then price - pos.avgEntry else pos.avgEntry - price, closed, PRICE_SCALE)
    else pos.realized
  }

  /** The average entry price after a fill that opens, adds or flips. */
  function Entry(pos: Position, side: Side, quantity: int, price: int): int
    requires quantity > 0
  {
    var held := AbsInt(pos.net);
    if Reducing(pos, side) && AbsInt(quantity) <= held then pos.avgEntry
    else if AbsInt(pos.net + Signed(side, quantity)) == 0 then 0
    else if held > 0 && !Reducing(pos, side) then
      MulDiv(pos.avgEntry, held, held + quantity) + MulDiv(price, quantity, held + quantity)
    else price
  }

  function Filled(pos: Position, side: Side, quantity: int, price: int): Position
    requires quantity > 0
  {
    var p := pos.(realized := Realized(pos, side, quantity, price), avgEntry := Entry(pos, side, quantity, price),
             net := pos.net + Signed(side, quantity));
    Lowered(p, side, quantity)
  }

  // ---- Entry price and realised profit ----

  lemma MulDivBounds(a: int, b: int, d: int)
    requires a >= 0 && b >= 0 && d > 0
    ensures a * b - d < MulDiv(a, b, d) * d <= a * b
  {
    assert a * b >= 0;
  }

  lemma ScaledBounds(lo: int, x: int, hi: int, n: int)
    requires lo <= x <= hi && n >= 0
    ensures lo * n <= x * n <= hi * n
  {}

  lemma DivideOut(lo: int, r: int, hi: int, n: int)
    requires n > 0 && lo * n - 2 * n < r * n <= hi * n
    ensures lo - 1 <= r <= hi
  {
    assert (lo - 2) * n == lo * n - 2 * n && (hi + 1) * n == hi * n + n;
    if r < lo - 1 {
      ScaledBounds(r, lo - 2, lo - 2, n);
    } else if r > hi {
      ScaledBounds(hi + 1, r, r, n);
    }
  }

  /** A fill that adds to a position leaves its entry price among the prices paid, but for a unit lost to truncation. */
  lemma EntryBetween(pos: Position, side: Side, quantity: int, price: int, lo: int, hi: int)
    requires quantity > 0 && 0 <= lo <= price <= hi && !Reducing(pos, side)
    requires pos.net != 0 ==> lo <= pos.avgEntry <= hi
    ensures lo - 1 <= Entry(pos, side, quantity, price) <= hi
  {
    var held := AbsInt(pos.net);
    if held > 0 {
      var n := held + quantity;
      MulDivBounds(pos.avgEntry, held, n);
      MulDivBounds(price, quantity, n);
      hide MulDiv;
      WeightedBetween(pos.avgEntry, held, price, quantity, MulDiv(pos.avgEntry, held, n), MulDiv(price, quantity, n),
                      lo, hi);
    }
  }

  lemma WeightedBetween(a: int, h: int, p: int, q: int, x: int, y: int, lo: int, hi: int)
    requires lo <= a <= hi && lo <= p <= hi && h > 0 && q > 0
    requires a * h - (h + q) < x * (h + q) <= a * h && p * q - (h + q) < y * (h + q) <= p * q
    ensures lo - 1 <= x + y <= hi
  {
    var n := h + q;
    ScaledBounds(lo, a, hi, h);
    ScaledBounds(lo, p, hi, q);
    Gathered(lo, h, q);
    Gathered(hi, h, q);
    Gathered(n, x, y);
    DivideOut(lo, x + y, hi, n);
  }

  lemma Gathered(c: int, x: int, y: int)
    ensures c * x + c * y == c * (x + y) && x * c + y * c == (x + y) * c
  {}

  /** Closing above the entry price of a long position, or below that of a short one, never realises a loss, and closing
      on the other side never a profit. */
  lemma RealizedSign(pos: Position, side: Side, quantity: int, price: int)
    requires quantity > 0 && Reducing(pos, side) && pos.avgEntry != 0
    ensures var gain := if pos.net > 0 then price - pos.avgEntry else pos.avgEntry - price;
            && (gain >= 0 ==> Realized(pos, side, quantity, price) >= pos.realized)
            && (gain <= 0 ==> Realized(pos, side, quantity, price) <= pos.realized)
  {
    var gain := if pos.net > 0 then price - pos.avgEntry else pos.avgEntry - price;
    var closed := MinInt(AbsInt(quantity), AbsInt(pos.net));
    SignOfProduct(gain, closed);
  }

  lemma SignOfProduct(a: int, b: int)
    requires b > 0
    ensures (a >= 0 ==> a * b >= 0) && (a <= 0 ==> a * b <= 0)
  {}

  /** A fill that opens a position or turns it round sets the entry price to its own; one that only reduces or
      closes the position leaves it. */
  lemma EntryExactly(pos: Position, side: Side, quantity: int, price: int)
    requires quantity > 0
    ensures var p := Filled(pos, side, quantity, price);
            && (Reducing(pos, side) && quantity <= AbsInt(pos.net) ==> p.avgEntry == pos.avgEntry)
            && (Reducing(pos, side) && quantity > AbsInt(pos.net) ==> p.avgEntry == price)
            && (pos.net == 0 ==> p.avgEntry == price)
  {}

  /** A position at a mark price, realised profit included, in units of price times quantity. */
  function Marked(pos: Position, mark: int): int { pos.realized * PRICE_SCALE + pos.net * (mark - pos.avgEntry) }

  /** How far a fill is from changing that by exactly what it trades against the mark. */
  function Drift(pos: Position, side: Side, quantity: int, price: int, mark: int): int
    requires quantity > 0
  {
    Marked(Filled(pos, side, quantity, price), mark) - Marked(pos, mark) - Signed(side, quantity) * (mark - price)
  }

  lemma TruncatedBy(a: int, b: int, d: int)
    requires d > 0
    ensures AbsInt(MulDiv(a, b, d) * d - a * b) < d
  {}

  /** Fills conserve value: against any mark, a fill changes realised and open profit together by its quantity
      times the distance of its price from the mark, but for what truncation loses. The exception is a position
      whose entry price is zero, which is taken for none: closing any of it realises nothing, and the whole value
      of what is closed goes missing. */
  lemma FillConserves(pos: Position, side: Side, quantity: int, price: int, mark: int)
    requires quantity > 0
    ensures pos.net == 0 ==> Drift(pos, side, quantity, price, mark) == 0
    ensures !Reducing(pos, side) ==> AbsInt(Drift(pos, side, quantity, price, mark)) < 2 * (AbsInt(pos.net) + quantity)
    ensures Reducing(pos, side) ==>
              var closed := MinInt(quantity, AbsInt(pos.net));
              (AbsInt(Drift(pos, side, quantity, price, mark)) < PRICE_SCALE
               <==> pos.avgEntry != 0 || AbsInt(closed * price) < PRICE_SCALE)
  {
    if !Reducing(pos, side) {
      AddingConserves(pos, side, quantity, price, mark);
    } else {
      ClosingConserves(pos, side, quantity, price, mark);
    }
  }

  lemma AddingConserves(pos: Position, side: Side, quantity: int, price: int, mark: int)
    requires quantity > 0 && !Reducing(pos, side)
    ensures pos.net == 0 ==> Drift(pos, side, quantity, price, mark) == 0
    ensures AbsInt(Drift(pos, side, quantity, price, mark)) < 2 * (AbsInt(pos.net) + quantity)
  {
    var held, s := AbsInt(pos.net), if side.Buy? then 1 else -1;
    var n, e := held + quantity, Entry(pos, side, quantity, price);
    assert pos.net == s * held && Signed(side, quantity) == s * quantity;
    if held > 0 {
      TruncatedBy(pos.avgEntry, held, n);
      TruncatedBy(price, quantity, n);
      hide MulDiv;
      Gathered(n, MulDiv(pos.avgEntry, held, n), MulDiv(price, quantity, n));
    } else {
      assert e * n == price * quantity && held * pos.avgEntry == 0;
    }
    hide MulDiv, Entry;
    AddingDrift(s, held, quantity, mark, pos.avgEntry, price, e);
    assert Drift(pos, side, quantity, price, mark) ==
           s * n * (mark - e) - s * held * (mark - pos.avgEntry) - s * quantity * (mark - price) by {
      assert pos.net + Signed(side, quantity) == s * n by {
        Gathered(s, held, quantity);
      }
    }
  }

  lemma AddingDrift(s: int, h: int, q: int, m: int, e: int, p: int, e': int)
    ensures s * (h + q) * (m - e') - s * h * (m - e) - s * q * (m - p) == s * (e * h + p * q - e' * (h + q))
  {}

  /** The profit per unit of closing at a price. */
  function Gain(pos: Position, price: int): int { if pos.net > 0 then price - pos.avgEntry else pos.avgEntry - price }

  lemma ClosingConserves(pos: Position, side: Side, quantity: int, price: int, mark: int)
    requires quantity > 0 && Reducing(pos, side)
    ensures AbsInt(Drift(pos, side, quantity, price, mark)) < PRICE_SCALE
       <==> pos.avgEntry != 0 || AbsInt(MinInt(quantity, AbsInt(pos.net)) * price) < PRICE_SCALE
  {
    var gain, closed := Gain(pos, price), MinInt(quantity, AbsInt(pos.net));
    TruncatedBy(gain, closed, PRICE_SCALE);
    hide MulDiv;
    if quantity <= AbsInt(pos.net) {
      ReducingDrift(pos, side, quantity, price, mark);
    } else {
      TurningDrift(pos, side, quantity, price, mark);
    }
    hide Drift;
    if pos.avgEntry == 0 {
      assert AbsInt(gain) == AbsInt(price);
      AbsProduct(closed, price, gain);
    }
  }

  lemma AbsProduct(c: int, x: int, y: int)
    requires AbsInt(x) == AbsInt(y)
    ensures AbsInt(c * x) == AbsInt(y * c)
  {
    if x == y {
      assert c * x == y * c;
    } else {
      assert c * x == -(y * c);
    }
  }

  lemma ReducingDrift(pos: Position, side: Side, quantity: int, price: int, mark: int)
    requires 0 < quantity <= AbsInt(pos.net) && Reducing(pos, side)
    ensures Drift(pos, side, quantity, price, mark) ==
            (if pos.avgEntry != 0 then MulDiv(Gain(pos, price), quantity, PRICE_SCALE) * PRICE_SCALE else 0)
            - Gain(pos, price) * quantity
  {
    hide MulDiv;
    ReducingTerms(pos.net, Signed(side, quantity), mark, pos.avgEntry, price);
    assert Signed(side, quantity) * (pos.avgEntry - price) == Gain(pos, price) * quantity;
    Gathered(PRICE_SCALE, pos.realized, MulDiv(Gain(pos, price), quantity, PRICE_SCALE));
  }

  lemma ReducingTerms(n: int, s: int, m: int, e: int, p: int)
    ensures (n + s) * (m - e) - n * (m - e) - s * (m - p) == -(s * (e - p))
  {}

  lemma TurningDrift(pos: Position, side: Side, quantity: int, price: int, mark: int)
    requires quantity > AbsInt(pos.net) && Reducing(pos, side)
    ensures Drift(pos, side, quantity, price, mark) ==
            (if pos.avgEntry != 0 then MulDiv(Gain(pos, price), AbsInt(pos.net), PRICE_SCALE) * PRICE_SCALE else 0)
            - Gain(pos, price) * AbsInt(pos.net)
  {
    hide MulDiv;
    TurningTerms(pos.net, Signed(side, quantity), mark, pos.avgEntry, price);
    assert pos.net * (price - pos.avgEntry) == Gain(pos, price) * AbsInt(pos.net);
    Gathered(PRICE_SCALE, pos.realized, MulDiv(Gain(pos, price), AbsInt(pos.net), PRICE_SCALE));
  }

  lemma TurningTerms(n: int, s: int, m: int, e: int, p: int)
    ensures (n + s) * (m - p) - n * (m - e) - s * (m - p) == -(n * (p - e))
  {}

  // ---- Whole runs of one symbol ----

  /** The open orders, by what each may still fill. */
  type Ledger = map<nat, (Side, int)>

  datatype Event =
    | Accept(id: nat, side: Side, quantity: int, price: int)
    | Fill(id: nat, quantity: int, price: int)
    | Cancel(id: nat)
    | Reject(id: nat, quantity: int)

  datatype Book = Book(pos: Position, open: Ledger)

  /** Orders are accepted right after they pass the check, fills stay within what is open, and only orders without fills
      are rejected: `quantity` of a rejection is the order's whole quantity. */
  predicate Allowed(b: Book, e: Event, l: Limits, symbol: string) {
    match e
    case Accept(id, side, quantity, price) =>
      id !in b.open && quantity > 0 && CheckLimits(Order(symbol, side, quantity, 0, price), l, b.pos).Passed?
    case Fill(id, quantity, price) => id in b.open && 0 < quantity <= b.open[id].1
    case Cancel(id) => id in b.open
    case Reject(id, quantity) => id in b.open && quantity == b.open[id].1
  }

  function Next(b: Book, e: Event): Book
    requires e.Fill? ==> e.id in b.open && e.quantity > 0
    requires e.Cancel? || e.Reject? ==> e.id in b.open
  {
    match e
    case Accept(id, side, quantity, price) => Book(Accepted(b.pos, side, quantity), b.open[id := (side, quantity)])
    case Fill(id, quantity, price) =>
      var (side, rest) := b.open[id];
      Book(Filled(b.pos, side, quantity, price),
           if rest == quantity then b.open - {id} else b.open[id := (side, rest - quantity)])
    case Cancel(id) => Book(Closed(b.pos, b.open[id].0, b.open[id].1), b.open - {id})
    case Reject(id, quantity) => Book(Closed(b.pos, b.open[id].0, quantity), b.open - {id})
  }

  /** What all open orders of one side may still fill. */
  ghost function OpenTotal(open: Ledger, side: Side): int
    decreases |open|
  {
    if |open| == 0 then 0
    else
      var id := SomeKey(open);
      OpenTotal(open - {id}, side) + if open[id].0 == side then open[id].1 else 0
  }

  ghost function SomeKey(open: Ledger): (id: nat)
    requires |open| > 0
    ensures id in open
  {
    assert open.Keys != {};
    var id :| id in open;
    id
  }

  /** Whichever order is counted first. */
  lemma {:induction false} OpenWithout(open: Ledger, side: Side, id: nat)
    requires id in open
    ensures OpenTotal(open, side) == OpenTotal(open - {id}, side) + if open[id].0 == side then open[id].1 else 0
    decreases |open|
  {
    var first := SomeKey(open);
    if first != id {
      OpenWithout(open - {first}, side, id);
      OpenWithout(open - {id}, side, first);
      assert open - {first} - {id} == open - {id} - {first};
    }
  }

  lemma {:induction false} OpenNonneg(open: Ledger, side: Side)
    requires forall id | id in open :: open[id].1 > 0
    ensures OpenTotal(open, side) >= 0
    decreases |open|
  {
    if |open| > 0 {
      OpenNonneg(open - {SomeKey(open)}, side);
    }
  }

  /** The pending quantities are exactly what the open orders may still fill, and even if all of one side were filled
      the position would stay within the cap. */
  ghost predicate Capped(b: Book, cap: int) {
    && (forall id | id in b.open :: b.open[id].1 > 0)
    && b.pos.pendingBuy == OpenTotal(b.open, Buy) && b.pos.pendingSell == OpenTotal(b.open, Sell)
    && b.pos.net + b.pos.pendingBuy <= cap && b.pos.net - b.pos.pendingSell >= -cap
  }

  lemma CappedWithin(b: Book, cap: int)
    requires Capped(b, cap)
    ensures AbsInt(b.pos.net) <= cap && b.pos.pendingBuy >= 0 && b.pos.pendingSell >= 0
  {
    OpenNonneg(b.open, Buy);
    OpenNonneg(b.open, Sell);
  }

  lemma OpenPut(open: Ledger, id: nat, side: Side, rest: int, of: Side)
    requires id !in open
    ensures OpenTotal(open[id := (side, rest)], of) == OpenTotal(open, of) + if side == of then rest else 0
  {
    OpenWithout(open[id := (side, rest)], of, id);
    assert open[id := (side, rest)] - {id} == open;
  }

  /** What one event does to the total of one side's open orders. */
  function OpenChange(b: Book, e: Event, of: Side): int
    requires e.Accept? || e.id in b.open
  {
    match e
    case Accept(_, side, quantity, _) => (if side == of then quantity else 0)
    case Fill(id, quantity, _) => (if b.open[id].0 == of then -quantity else 0)
    case Cancel(id) => (if b.open[id].0 == of then -b.open[id].1 else 0)
    case Reject(id, _) => (if b.open[id].0 == of then -b.open[id].1 else 0)
  }

  lemma OpenNext(b: Book, e: Event, l: Limits, symbol: string, of: Side)
    requires Allowed(b, e, l, symbol)
    ensures OpenTotal(Next(b, e).open, of) == OpenTotal(b.open, of) + OpenChange(b, e, of)
  {
    hide CheckLimits, Filled, Accepted, Closed;
    match e
    case Accept(id, side, quantity, _) => OpenPut(b.open, id, side, quantity, of);
    case Fill(id, quantity, _) =>
      var (side, rest) := b.open[id];
      OpenWithout(b.open, of, id);
      if rest != quantity {
        OpenPut(b.open - {id}, id, side, rest - quantity, of);
        assert (b.open - {id})[id := (side, rest - quantity)] == b.open[id := (side, rest - quantity)];
      }
    case Cancel(id) => OpenWithout(b.open, of, id);
    case Reject(id, _) => OpenWithout(b.open, of, id);
  }

  /** A single open order is no more than the total of its side. */
  lemma OpenAtMost(open: Ledger, id: nat)
    requires id in open && forall k | k in open :: open[k].1 > 0
    ensures open[id].1 <= OpenTotal(open, open[id].0)
  {
    OpenWithout(open, open[id].0, id);
    OpenNonneg(open - {id}, open[id].0);
  }

  lemma PassedWithin(o: Order, l: Limits, pos: Position)
    requires CheckLimits(o, l, pos).Passed? && l.enabled && l.maxPositionQuantity > 0
    ensures -l.maxPositionQuantity <= Projected(o, pos) <= l.maxPositionQuantity
  {
    PassedExactly(o, l, pos);
  }

  /** What is pending stays the total of what is open. */
  lemma PendingsKept(b: Book, e: Event, l: Limits, symbol: string)
    requires Allowed(b, e, l, symbol) && forall id | id in b.open :: b.open[id].1 > 0
    requires b.pos.pendingBuy == OpenTotal(b.open, Buy) && b.pos.pendingSell == OpenTotal(b.open, Sell)
    ensures var t := Next(b, e); t.pos.pendingBuy == OpenTotal(t.open, Buy)
                                 && t.pos.pendingSell == OpenTotal(t.open, Sell)
    ensures !e.Accept? ==> var (side, rest) := b.open[e.id]; 0 < rest <= Pending(b.pos, side)
  {
    hide Realized, Entry, CheckLimits;
    OpenNext(b, e, l, symbol, Buy);
    OpenNext(b, e, l, symbol, Sell);
    if !e.Accept? {
      OpenAtMost(b.open, e.id);
    }
    hide OpenTotal;
  }

  lemma OpenPositive(b: Book, e: Event, l: Limits, symbol: string)
    requires Allowed(b, e, l, symbol) && forall id | id in b.open :: b.open[id].1 > 0
    ensures forall id | id in Next(b, e).open :: Next(b, e).open[id].1 > 0
  {
    hide CheckLimits, Filled, Accepted, Closed;
  }

  /** Where the position would stand if all of one side were filled only moves when an order
      is accepted, within the cap. */
  lemma ProjectionKept(b: Book, e: Event, l: Limits, symbol: string)
    requires Allowed(b, e, l, symbol) && l.enabled && l.maxPositionQuantity > 0
    requires b.pos.pendingBuy >= 0 && b.pos.pendingSell >= 0
    requires !e.Accept? ==> var (side, rest) := b.open[e.id]; 0 < rest <= Pending(b.pos, side)
    requires b.pos.net + b.pos.pendingBuy <= l.maxPositionQuantity
    requires b.pos.net - b.pos.pendingSell >= -l.maxPositionQuantity
    ensures var t := Next(b, e);
            t.pos.net + t.pos.pendingBuy <= l.maxPositionQuantity
            && t.pos.net - t.pos.pendingSell >= -l.maxPositionQuantity
  {
    hide Realized, Entry;
    if e.Accept? {
      PassedWithin(Order(symbol, e.side, e.quantity, 0, e.price), l, b.pos);
    }
    hide CheckLimits;
  }

  lemma CappedStep(b: Book, e: Event, l: Limits, symbol: string)
    requires Capped(b, l.maxPositionQuantity) && Allowed(b, e, l, symbol) && l.enabled && l.maxPositionQuantity > 0
    ensures Capped(Next(b, e), l.maxPositionQuantity)
  {
    PendingsKept(b, e, l, symbol);
    CappedWithin(b, l.maxPositionQuantity);
    ProjectionKept(b, e, l, symbol);
    OpenPositive(b, e, l, symbol);
    hide OpenTotal, Next, Allowed;
  }

  ghost predicate Reaches(b: Book, events: seq<Event>, l: Limits, symbol: string, b': Book)
    decreases |events|
  {
    if events == [] then b == b'
    else Allowed(b, events[0], l, symbol) && Reaches(Next(b, events[0]), events[1..], l, symbol, b')
  }

  lemma {:induction false} RunCapped(b: Book, events: seq<Event>, l: Limits, symbol: string, b': Book)
    requires Reaches(b, events, l, symbol, b') && Capped(b, l.maxPositionQuantity) && l.enabled
    requires l.maxPositionQuantity > 0
    ensures Capped(b', l.maxPositionQuantity)
    decreases |events|
  {
    if events != [] {
      CappedStep(b, events[0], l, symbol);
      RunCapped(Next(b, events[0]), events[1..], l, symbol, b');
    }
  }

  /** The position never exceeds the limit, in any run from a flat start, and neither could it if
      all orders of one side filled. */
  lemma PositionCap(events: seq<Event>, l: Limits, symbol: string, b: Book)
    requires Reaches(Book(FLAT, map[]), events, l, symbol, b) && l.enabled && l.maxPositionQuantity > 0
    ensures AbsInt(b.pos.net) <= l.maxPositionQuantity
    ensures b.pos.net + OpenTotal(b.open, Buy) <= l.maxPositionQuantity
    ensures b.pos.net - OpenTotal(b.open, Sell) >= -l.maxPositionQuantity
  {
    RunCapped(Book(FLAT, map[]), events, l, symbol, b);
    CappedWithin(b, l.maxPositionQuantity);
  }

  // ---- What the caller must keep to ----

  /** Rejecting an order of the given whole quantity keeps the pending quantity exact exactly when the order has no
      fills or nothing else of its side is open. */
  lemma RejectExact(b: Book, cap: int, id: nat, quantity: int)
    requires Capped(b, cap) && id in b.open && quantity >= b.open[id].1
    ensures var (side, rest) := b.open[id];
            Pending(Closed(b.pos, side, quantity), side) == OpenTotal(b.open - {id}, side)
            <==> quantity == rest || Pending(b.pos, side) == rest
  {
    OpenWithout(b.open, b.open[id].0, id);
    OpenAtMost(b.open, id);
  }

  /** With a cap of 10: a rejection after a partial fill frees room that is not there, and the position reaches 13. */
  lemma RejectAfterFillBreaksTheCap(symbol: string)
    ensures var l := Limits(0, 0, 0, 10, 0, 0, 0, true);
            var p0 := Accepted(FLAT, Buy, 6);
            var p1 := Filled(Accepted(p0, Buy, 4), Buy, 3, 0);
            var p2 := Closed(p1, Buy, 6);
            var p3 := Filled(Filled(Accepted(p2, Buy, 6), Buy, 4, 0), Buy, 6, 0);
            && CheckLimits(Order(symbol, Buy, 6, 0, 0), l, FLAT).Passed?
            && CheckLimits(Order(symbol, Buy, 4, 0, 0), l, p0).Passed?
            && CheckLimits(Order(symbol, Buy, 6, 0, 0), l, p2).Passed? && p3.net == 13
  {}

  // ---- Open orders are counted too long ----

  /** The open-order count is the number of open orders plus every order ever filled completely. */
  lemma CountStep(b: Book, e: Event, l: Limits, symbol: string, full: nat)
    requires Allowed(b, e, l, symbol) && b.pos.openOrders == |b.open| + full
    ensures Next(b, e).pos.openOrders == |Next(b, e).open| + full + if e.Fill? && b.open[e.id].1 == e.quantity
                                         then 1 else 0
  {
    if !e.Accept? {
      assert |b.open - {e.id}| == |b.open| - 1 by {
        assert (b.open - {e.id}).Keys == b.open.Keys - {e.id};
      }
    }
  }

  // ---- The risk manager ----

  class RiskManager {
    var globalLimits: Limits
    var symbolLimits: map<string, Limits>
    var positions: map<string, Position>
    var killSwitch: bool

    function PositionOf(symbol: string): Position
      reads this
    {
      if symbol in positions then positions[symbol] else FLAT
    }

    constructor (limits: Limits)
      ensures globalLimits == limits && symbolLimits == map[] && positions == map[] && !killSwitch
    {
      globalLimits, symbolLimits, positions, killSwitch := limits, map[], map[], false;
    }

    /** Checks the kill switch, what the rate limiter says, the global limits, then those of the symbol. */
    method CheckOrder(o: Order, admitted: bool) returns (v: Verdict)
      modifies this`positions
      ensures forall s :: PositionOf(s) == old(PositionOf(s))
      ensures killSwitch <==> v == FailedKillSwitch
      ensures !killSwitch ==> (globalLimits.maxOrdersPerSecond > 0 && !admitted <==> v == FailedRateLimit)
      ensures v.Passed? <==>
              && !killSwitch && (globalLimits.maxOrdersPerSecond > 0 ==> admitted)
              && CheckLimits(o, globalLimits, PositionOf(o.symbol)).Passed?
              && (o.symbol in symbolLimits ==> CheckLimits(o, symbolLimits[o.symbol], PositionOf(o.symbol)).Passed?)
      ensures !v.Passed? && !v.FailedKillSwitch? && !v.FailedRateLimit? ==>
                v == CheckLimits(o, globalLimits, PositionOf(o.symbol))
                || (o.symbol in symbolLimits && CheckLimits(o, globalLimits, PositionOf(o.symbol)).Passed?
                    && v == CheckLimits(o, symbolLimits[o.symbol], PositionOf(o.symbol)))
    {
      if killSwitch {
        return FailedKillSwitch;
      }
      if globalLimits.maxOrdersPerSecond > 0 && !admitted {
        return FailedRateLimit;
      }
      if o.symbol !in positions {
        positions := positions[o.symbol := FLAT];
      }
      v := CheckLimits(o, globalLimits, positions[o.symbol]);
      if v.Passed? && o.symbol in symbolLimits {
        v := CheckLimits(o, symbolLimits[o.symbol], positions[o.symbol]);
      }
    }

    method OnFill(symbol: string, side: Side, quantity: int, price: int)
      requires quantity > 0
      modifies this`positions
      ensures positions == old(positions)[symbol := Filled(old(PositionOf(symbol)), side, quantity, price)]
    {
      var pos := PositionOf(symbol);
      var signed := if side.Buy? then quantity else -quantity;
      var reducing := (pos.net > 0 && side.Sell?) || (pos.net < 0 && side.Buy?);
      ghost var before := pos;
      if reducing && pos.avgEntry != 0 {
        var closed := MinInt(AbsInt(signed), AbsInt(pos.net));
        var perUnit := if pos.net > 0 then price - pos.avgEntry else pos.avgEntry - price;
        pos := pos.(realized := pos.realized + MulDiv(perUnit, closed, PRICE_SCALE));
      }
      assert pos.realized == Realized(before, side, quantity, price);
      if !reducing || AbsInt(signed) > AbsInt(pos.net) {
        var newOpen := AbsInt(pos.net + signed);
        if newOpen > 0 {
          if AbsInt(pos.net) > 0 && !reducing {
            var held := AbsInt(pos.net);
            var n := held + quantity;
            pos := pos.(avgEntry := MulDiv(pos.avgEntry, held, n) + MulDiv(price, quantity, n));
          } else {
            pos := pos.(avgEntry := price);
          }
        } else {
          pos := pos.(avgEntry := 0);
        }
      }
      assert pos.avgEntry == Entry(before, side, quantity, price);
      pos := pos.(net := pos.net + signed);
      if side.Buy? {
        pos := pos.(pendingBuy := MaxInt(0, pos.pendingBuy - quantity));
      } else {
        pos := pos.(pendingSell := MaxInt(0, pos.pendingSell - quantity));
      }
      positions := positions[symbol := pos];
    }

    method OnOrderAccepted(o: Order)
      modifies this`positions
      ensures positions == old(positions)[o.symbol := Accepted(old(PositionOf(o.symbol)), o.side, o.quantity)]
    {
      var pos := PositionOf(o.symbol);
      pos := pos.(openOrders := pos.openOrders + 1);
      if o.side.Buy? {
        pos := pos.(pendingBuy := pos.pendingBuy + o.quantity);
      } else {
        pos := pos.(pendingSell := pos.pendingSell + o.quantity);
      }
      positions := positions[o.symbol := pos];
    }

    method OnOrderCanceled(o: Order)
      modifies this`positions
      ensures positions == old(positions)[o.symbol := Closed(old(PositionOf(o.symbol)), o.side, o.quantity - o.filled)]
    {
      var pos := PositionOf(o.symbol);
      pos := pos.(openOrders := MaxInt(0, pos.openOrders - 1));
      var remaining := o.quantity - o.filled;
      if o.side.Buy? {
        pos := pos.(pendingBuy := MaxInt(0, pos.pendingBuy - remaining));
      } else {
        pos := pos.(pendingSell := MaxInt(0, pos.pendingSell - remaining));
      }
      positions := positions[o.symbol := pos];
    }

    method OnOrderRejected(o: Order)
      modifies this`positions
      ensures positions == old(positions)[o.symbol := Closed(old(PositionOf(o.symbol)), o.side, o.quantity)]
    {
      var pos := PositionOf(o.symbol);
      pos := pos.(openOrders := MaxInt(0, pos.openOrders - 1));
      if o.side.Buy? {
        pos := pos.(pendingBuy := MaxInt(0, pos.pendingBuy - o.quantity));
      } else {
        pos := pos.(pendingSell := MaxInt(0, pos.pendingSell - o.quantity));
      }
      positions := positions[o.symbol := pos];
    }
  }
}
