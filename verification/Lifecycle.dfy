/** The life of a parent order: its slices at the venues, their execution reports, and rerouting of what they leave. */
module Lifecycle {
  import opened Options

  // ---- The order state machine ----

  datatype OrderState =
      New | PendingNew | Accepted | PartiallyFilled | Filled
    | PendingCancel | Canceled | Rejected | Expired | PendingReplace

  datatype OrderEvent =
      Submit | Acknowledge | PartialFill | Fill
    | RequestCancel | CancelAck | Reject | Expire | RequestReplace | ReplaceAck

  predicate Terminal(s: OrderState) { s.Filled? || s.Canceled? || s.Rejected? || s.Expired? }

  /** The transition table; pairs not listed are refused. */
  function Next(s: OrderState, e: OrderEvent): Option<OrderState> {
    match (s, e)
    case (New, Submit) => Some(PendingNew)
    case (PendingNew, Acknowledge) => Some(Accepted)
    case (PendingNew, Reject) => Some(Rejected)
    case (Accepted, PartialFill) => Some(PartiallyFilled)
    case (Accepted, Fill) => Some(Filled)
    case (Accepted, RequestCancel) => Some(PendingCancel)
    case (Accepted, Expire) => Some(Expired)
    case (Accepted, RequestReplace) => Some(PendingReplace)
    case (Accepted, Reject) => Some(Rejected)
    case (PartiallyFilled, PartialFill) => Some(PartiallyFilled)
    case (PartiallyFilled, Fill) => Some(Filled)
    case (PartiallyFilled, RequestCancel) => Some(PendingCancel)
    case (PartiallyFilled, Expire) => Some(Expired)
    case (PendingCancel, CancelAck) => Some(Canceled)
    case (PendingCancel, Fill) => Some(Filled)
    case (PendingCancel, PartialFill) => Some(PendingCancel)
    case (PendingCancel, Reject) => Some(Accepted)
    case (PendingReplace, ReplaceAck) => Some(Accepted)
    case (PendingReplace, Reject) => Some(Accepted)
    case (PendingReplace, Fill) => Some(Filled)
    case _ => None
  }

  /** The terminal states are exactly those no event leaves. */
  lemma TerminalExactly(s: OrderState)
    ensures Terminal(s) <==> forall e :: Next(s, e).None?
  {
    assert !Terminal(s) ==> exists e :: Next(s, e).Some? by {
      match s
      case New => assert Next(s, Submit).Some?;
      case PendingNew => assert Next(s, Acknowledge).Some?;
      case PendingReplace => assert Next(s, ReplaceAck).Some?;
      case PendingCancel => assert Next(s, CancelAck).Some?;
      case Accepted => assert Next(s, Fill).Some?;
      case PartiallyFilled => assert Next(s, Fill).Some?;
      case _ =>
    }
  }

  /** An event the table refuses leaves the state alone. */
  function Apply(s: OrderState, e: OrderEvent): OrderState {
    match Next(s, e)
    case Some(t) => t
    case None => s
  }

  // ---- Orders, reports and the execution handler ----

  datatype Order = Order(quantity: int, filled: int, remaining: int, avgPrice: int, state: OrderState)

  datatype Report = Report(id: nat, state: OrderState, lastPrice: int, lastQuantity: int, cumQuantity: int)

  datatype Handler = Handler(orders: map<nat, Order>, kids: map<nat, seq<nat>>, parentOf: map<nat, nat>)

  /** Integer division as the source does it, toward zero. */
  function Quotient(a: int, b: int): int
    requires b > 0
  {
    if a >= 0 then a / b else -(-a / b)
  }

  /** The state a report moves an order to; a cancel first requests what it then acknowledges. */
  function Moved(s: OrderState, reported: OrderState): OrderState {
    match reported
    case Accepted => Apply(s, Acknowledge)
    case PartiallyFilled => Apply(s, PartialFill)
    case Filled => Apply(s, Fill)
    case Canceled => Apply(if s.Accepted? || s.PartiallyFilled? then Apply(s, RequestCancel) else s, CancelAck)
    case Rejected => Apply(s, Reject)
    case Expired => Apply(s, Expire)
    case PendingCancel => Apply(s, RequestCancel)
    case PendingReplace => Apply(s, RequestReplace)
    case New => s
    case PendingNew => s
  }

  /** A report moves its order into the state it reports or not at all, but for a refused request to cancel or replace,
      which makes the order accepted again. Nothing moves a finished order; a working order follows every report of
      fills, cancels, expiry and requests to cancel; a rejection moves an order that has no fills. */
  lemma ReportMoves(s: OrderState, r: OrderState)
    ensures Moved(s, r) == s || Moved(s, r) == r || (r.Rejected? && (s.PendingCancel? || s.PendingReplace?))
    ensures r.Rejected? && (s.PendingCancel? || s.PendingReplace?) ==> Moved(s, r) == Accepted
    ensures Terminal(s) ==> Moved(s, r) == s
    ensures s.Accepted? || s.PartiallyFilled? ==>
              (r.PartiallyFilled? || r.Filled? || r.Canceled? || r.Expired? || r.PendingCancel? ==> Moved(s, r) == r)
    ensures s.PendingNew? && (r.Accepted? || r.Rejected?) ==> Moved(s, r) == r
    ensures s.PendingCancel? && (r.Canceled? || r.Filled?) ==> Moved(s, r) == r
    ensures r.Rejected? && Moved(s, r).Rejected? <==> r.Rejected? && (s.PendingNew? || s.Accepted? || s.Rejected?)
  {}

  function Average(avg: int, before: int, price: int, quantity: int, after: int): int {
    if after > 0 then Quotient(avg * before + price * quantity, after) else avg
  }

  /** The reported order's own record. */
  function Booked(o: Order, r: Report): Order {
    var moved := o.(state := Moved(o.state, r.state));
    if r.lastQuantity > 0 then
      moved.(filled := r.cumQuantity, remaining := o.quantity - r.cumQuantity,
      avgPrice := Average(o.avgPrice, o.filled, r.lastPrice, r.lastQuantity, r.cumQuantity))
    else moved
  }

  /** The parent's record of one fill of a child. */
  function ParentBooked(p: Order, r: Report): Order {
    if r.lastQuantity > 0 then
      var filled := p.filled + r.lastQuantity;
      p.(filled := filled, remaining := p.quantity - filled,
      avgPrice := Average(p.avgPrice, p.filled, r.lastPrice, r.lastQuantity, filled),
      state := if p.state.Accepted? || p.state.PendingNew? || p.state.New? then PartiallyFilled else p.state)
    else p
  }

  ghost predicate AllTerminal(h: Handler, p: nat) {
    p in h.kids ==> forall k | 0 <= k < |h.kids[p]| && h.kids[p][k] in h.orders ::
        Terminal(h.orders[h.kids[p][k]].state)
  }

  datatype Effect = Effect(h: Handler, reroute: Option<nat>, complete: Option<nat>)

  /** Whether the report that left child o and parent p calls for a reroute. */
  ghost predicate CallsForReroute(h: Handler, o: Order, p: nat)
    requires p in h.orders
  {
    var parent := h.orders[p];
    && Terminal(o.state) && !o.state.Filled? && !Terminal(parent.state)
    && parent.quantity - parent.filled > 0 && AllTerminal(h, p)
  }

  /** What the parent becomes once the reroute check and the completion check are done. */
  function Checked(parent: Order, again: bool): Order {
    var p := if again then parent.(remaining := parent.quantity - parent.filled) else parent;
    if p.filled >= p.quantity then p.(state := Filled, remaining := 0) else p
  }

  /** What one execution report does to the handler, and the callbacks it defers. */
  ghost function Received(h: Handler, r: Report): Effect {
    if r.id !in h.orders || r.state.New? || r.state.PendingNew? then Effect(h, None, None)
    else
      var o := Booked(h.orders[r.id], r);
      var h1 := h.(orders := h.orders[r.id := o]);
      if r.id !in h.parentOf then Effect(h1, None, if o.state.Filled? then Some(r.id) else None)
      else
        var p := h.parentOf[r.id];
        if p !in h1.orders then Effect(h1, None, None)
        else
          var h2 := h1.(orders := h1.orders[p := ParentBooked(h1.orders[p], r)]);
          var again := CallsForReroute(h2, h2.orders[r.id], p);
          var parent := Checked(h2.orders[p], again);
          Effect(h2.(orders := h2.orders[p := parent]), if again then Some(p) else None,
                 if parent.filled >= parent.quantity then Some(p) else None)
  }

  // ---- The venues ----

  datatype Duration = Resting | ImmediateOrCancel | FillOrKill

  /** A venue's own record of an order it works. */
  datatype Live = Live(quantity: int, filled: int, duration: Duration, pendingCancel: bool)

  /** What chance decides about one matching attempt. */
  datatype Luck = Refuse | Miss | Trade(price: int, partial: Option<int>)

  function Clamp(x: int, lo: int, hi: int): int { if x < lo then lo else if x > hi then hi else x }

  datatype Match = Match(reports: seq<Report>, stays: Option<Live>)

  function FillReport(id: nat, l: Live, price: int, q: int): Report {
    Report(id, if l.filled + q == l.quantity then Filled else PartiallyFilled, price, q, l.filled + q)
  }

  function EndReport(id: nat, l: Live, state: OrderState): Report { Report(id, state, 0, 0, l.filled) }

  /** One matching attempt for one order. */
  function Attempt(id: nat, l: Live, luck: Luck): Match {
    var rest := l.quantity - l.filled;
    if l.pendingCancel then Match([EndReport(id, l, Canceled)], None)
    else
      match luck
      case Refuse => Match([EndReport(id, l, Rejected)], None)
      case Miss => (
        match l.duration
        case FillOrKill => Match([EndReport(id, l, Rejected)], None)
        case ImmediateOrCancel => Match([EndReport(id, l, Canceled)], None)
        case Resting => Match([], Some(l)))
      case Trade(price, partial) =>
        if !l.duration.FillOrKill? && partial.Some? && rest > 1 then
          var q := Clamp(partial.value, 1, rest - 1);
          var l' := l.(filled := l.filled + q);
          if l.duration.ImmediateOrCancel? then Match([FillReport(id, l, price, q), EndReport(id, l', Canceled)], None)
          else Match([FillReport(id, l, price, q)], Some(l'))
        else Match([FillReport(id, l, price, rest)], None)
  }

  // ---- The whole system ----

  /** A routed slice; `sent` is false when its venue is unknown or not connected. */
  datatype Slice = Slice(quantity: int, duration: Duration, sent: bool)

  /** `durations` is what each child asks of its venue, `original` what the client of each parent asked for. */
  datatype System = System(
    h: Handler, live: map<nat, Live>, queue: seq<Report>, nextId: nat, original: map<nat, int>,
    durations: map<nat, Duration>, completed: seq<nat>)

  function Fresh(q: int): Order { Order(q, 0, q, 0, PendingNew) }

  function Tracked(h: Handler, id: nat, o: Order): Handler {
    h.(orders := h.orders[id := o], kids := if id in h.kids then h.kids else h.kids[id := []])
  }

  function TrackedChild(h: Handler, p: nat, id: nat, o: Order): Handler {
    Handler(h.orders[id := o], h.kids[p := (if p in h.kids then h.kids[p] else []) + [id]], h.parentOf[id := p])
  }

  /** One slice becomes a child order, acknowledged at once by the venue that gets it. */
  function Placed(s: System, p: nat, slice: Slice): System {
    var id := s.nextId;
    var t := s.(h := TrackedChild(s.h, p, id, Fresh(slice.quantity)), nextId := id + 1,
             durations := s.durations[id := slice.duration]);
    if slice.sent && id !in s.live then
      t.(live := s.live[id := Live(slice.quantity, 0, slice.duration, false)],
      queue := s.queue + [Report(id, Accepted, 0, 0, 0)])
    else t
  }

  function PlacedAll(s: System, p: nat, slices: seq<Slice>): System {
    if slices == [] then s else Placed(PlacedAll(s, p, slices[..|slices| - 1]), p, slices[|slices| - 1])
  }

  /** A new parent order; `passed` is the verdict of the risk check, `slices` what the router makes of it. */
  function Submitted(s: System, quantity: int, passed: bool, slices: seq<Slice>): System {
    var id := s.nextId;
    var t := s.(nextId := id + 1);
    if !passed then t
    else PlacedAll(t.(h := Tracked(t.h, id, Fresh(quantity)), original := t.original[id := quantity]), id, slices)
  }

  /** The parent routed again for what it has left. */
  function Rerouted(s: System, p: nat, passed: bool, slices: seq<Slice>): System
    requires p in s.h.orders
  {
    if !passed then s
    else
      var o := s.h.orders[p];
      PlacedAll(s.(h := Tracked(s.h, p, Order(o.remaining, 0, o.remaining, o.avgPrice, PendingNew))), p, slices)
  }

  /** The oldest report is handled, its callbacks with it. */
  ghost function Delivered(s: System, passed: bool, slices: seq<Slice>): System
    requires s.queue != []
  {
    var e := Received(s.h, s.queue[0]);
    var t := s.(h := e.h, queue := s.queue[1..],
             completed := if e.complete.Some? then s.completed + [e.complete.value] else s.completed);
    if e.reroute.Some? && e.reroute.value in e.h.orders then Rerouted(t, e.reroute.value, passed, slices) else t
  }

  /** One order's turn in a matching cycle. */
  function Worked(s: System, id: nat, luck: Luck): System {
    if id !in s.live then s
    else
      var m := Attempt(id, s.live[id], luck);
      s.(live := if m.stays.Some? then s.live[id := m.stays.value] else s.live - {id}, queue := s.queue + m.reports)
  }

  /** A cancel request for one child, as its venue records it. */
  function CancelAsked(s: System, id: nat): System {
    if id in s.live then s.(live := s.live[id := s.live[id].(pendingCancel := true)]) else s
  }
}
