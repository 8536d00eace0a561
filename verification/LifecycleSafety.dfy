/** What every step of the order lifecycle keeps: no order is ever filled beyond what its client asked for. */
module LifecycleSafety {
  import opened Lifecycle
  import opened Options

  // ---- Sums over the children of a parent ----

  /** What a child has filled, as far as the handler knows. */
  function FilledOf(orders: map<nat, Order>, c: nat): int { if c in orders then orders[c].filled else 0 }

  /** What a child may come to fill in all: no more than it has once it is finished. */
  function CapOf(orders: map<nat, Order>, c: nat): int {
    if c !in orders then 0 else if Terminal(orders[c].state) then orders[c].filled else orders[c].quantity
  }

  function SumFilled(orders: map<nat, Order>, ks: seq<nat>): int {
    if ks == [] then 0 else SumFilled(orders, ks[..|ks| - 1]) + FilledOf(orders, ks[|ks| - 1])
  }

  function SumCap(orders: map<nat, Order>, ks: seq<nat>): int {
    if ks == [] then 0 else SumCap(orders, ks[..|ks| - 1]) + CapOf(orders, ks[|ks| - 1])
  }

  predicate Distinct(ks: seq<nat>) { forall i, j | 0 <= i < j < |ks| :: ks[i] != ks[j] }

  predicate Same(a: map<nat, Order>, b: map<nat, Order>, c: nat) {
    (c in a <==> c in b) && (c in a ==> a[c] == b[c])
  }

  lemma {:induction false} SumsSame(a: map<nat, Order>, b: map<nat, Order>, ks: seq<nat>)
    requires forall i | 0 <= i < |ks| :: Same(a, b, ks[i])
    ensures SumFilled(a, ks) == SumFilled(b, ks) && SumCap(a, ks) == SumCap(b, ks)
  {
    if ks != [] {
      SumsSame(a, b, ks[..|ks| - 1]);
      assert Same(a, b, ks[|ks| - 1]);
    }
  }

  lemma {:induction false} SumsChange(a: map<nat, Order>, b: map<nat, Order>, ks: seq<nat>, m: nat)
    requires Distinct(ks) && m < |ks| && forall i | 0 <= i < |ks| && i != m :: Same(a, b, ks[i])
    ensures SumFilled(b, ks) == SumFilled(a, ks) - FilledOf(a, ks[m]) + FilledOf(b, ks[m])
    ensures SumCap(b, ks) == SumCap(a, ks) - CapOf(a, ks[m]) + CapOf(b, ks[m])
  {
    var front := ks[..|ks| - 1];
    if m == |ks| - 1 {
      SumsSame(a, b, front);
    } else {
      SumsChange(a, b, front, m);
      assert Same(a, b, ks[|ks| - 1]);
    }
  }

  lemma SumsSnoc(orders: map<nat, Order>, ks: seq<nat>, c: nat)
    ensures SumFilled(orders, ks + [c]) == SumFilled(orders, ks) + FilledOf(orders, c)
    ensures SumCap(orders, ks + [c]) == SumCap(orders, ks) + CapOf(orders, c)
  {
    assert (ks + [c])[..|ks|] == ks;
  }

  predicate WithinCap(orders: map<nat, Order>, c: nat) { FilledOf(orders, c) <= CapOf(orders, c) }

  lemma {:induction false} SumsWithin(orders: map<nat, Order>, ks: seq<nat>)
    requires forall i | 0 <= i < |ks| :: WithinCap(orders, ks[i])
    ensures SumFilled(orders, ks) <= SumCap(orders, ks)
    ensures forall i | 0 <= i < |ks| :: FilledOf(orders, ks[i]) < CapOf(orders, ks[i]) ==>
                                          SumFilled(orders, ks) < SumCap(orders, ks)
  {
    if ks != [] {
      var front := ks[..|ks| - 1];
      SumsWithin(orders, front);
      assert WithinCap(orders, ks[|ks| - 1]);
      forall i | 0 <= i < |ks|
        ensures FilledOf(orders, ks[i]) < CapOf(orders, ks[i]) ==> SumFilled(orders, ks) < SumCap(orders, ks)
      {
        if i < |ks| - 1 {
          assert front[i] == ks[i];
        }
      }
    }
  }

  lemma {:induction false} SumsEqual(orders: map<nat, Order>, ks: seq<nat>)
    requires forall i | 0 <= i < |ks| :: ks[i] in orders ==> Terminal(orders[ks[i]].state)
    ensures SumFilled(orders, ks) == SumCap(orders, ks)
  {
    if ks != [] {
      SumsEqual(orders, ks[..|ks| - 1]);
      assert ks[|ks| - 1] in orders ==> Terminal(orders[ks[|ks| - 1]].state);
    }
  }

  // ---- One child: its record, its reports under way, and its venue ----

  predicate Working(o: Order) { o.state.Accepted? || o.state.PartiallyFilled? }

  predicate ChildOk(o: Order) {
    && 0 < o.quantity && 0 <= o.filled <= o.quantity && o.remaining == o.quantity - o.filled
    && (o.state.Filled? <==> o.filled == o.quantity)
    && (o.state.PendingNew? || Working(o) || o.state.Filled? || o.state.Canceled? || o.state.Rejected?)
  }

  /** What a venue may report next about an order in this state. */
  predicate Expected(o: Order, r: Report) {
    match r.state
    case Accepted => o.state.PendingNew? && r.lastQuantity == 0
    case PartiallyFilled => Working(o) && r.lastQuantity > 0 && r.cumQuantity == o.filled + r.lastQuantity < o.quantity
    case Filled => Working(o) && r.lastQuantity > 0 && r.cumQuantity == o.filled + r.lastQuantity == o.quantity
    case Canceled => Working(o) && r.lastQuantity == 0
    case Rejected => Working(o) && r.lastQuantity == 0
    case _ => false
  }

  /** The venue's record agrees with what all its reports say. */
  predicate Settled(o: Order, l: Option<Live>) {
    l.Some? ==> Working(o) && o.filled == l.value.filled < l.value.quantity == o.quantity
  }

  /** Handling the queued reports about order id one by one, each is expected, and the
      last leaves the venue's record. */
  predicate Chain(o: Order, queue: seq<Report>, id: nat, l: Option<Live>)
    decreases |queue|
  {
    if queue == [] then Settled(o, l)
    else if queue[0].id != id then Chain(o, queue[1..], id, l)
    else
      && Expected(o, queue[0]) && Chain(Booked(o, queue[0]), queue[1..], id, l)
      && (IsLast(queue[0]) ==> l.None? && NoReports(queue[1..], id))
  }

  /** A report that ends the venue's work on the order. */
  predicate IsLast(r: Report) { r.state.Filled? || r.state.Canceled? || r.state.Rejected? }

  predicate NoReports(queue: seq<Report>, id: nat) { forall k | 0 <= k < |queue| :: queue[k].id != id }

  lemma BookedOk(o: Order, r: Report)
    requires ChildOk(o) && Expected(o, r)
    ensures ChildOk(Booked(o, r)) && Booked(o, r).filled == o.filled + r.lastQuantity
    ensures Booked(o, r).quantity == o.quantity
    ensures r.lastQuantity >= 0 && !Terminal(o.state) && o.filled < o.quantity
  {}

  lemma {:induction false} ChainOther(o: Order, queue: seq<Report>, id: nat, l: Option<Live>, r: Report)
    requires Chain(o, queue, id, l) && r.id != id
    ensures Chain(o, queue + [r], id, l)
    decreases |queue|
  {
    if queue != [] {
      assert (queue + [r])[1..] == queue[1..] + [r];
      if queue[0].id != id {
        ChainOther(o, queue[1..], id, l, r);
      } else {
        ChainOther(Booked(o, queue[0]), queue[1..], id, l, r);
      }
    } else {
      assert (queue + [r])[1..] == [];
    }
  }

  /** Report r takes the venue's record from l to l'. */
  predicate Follows(l: Live, r: Report, l': Option<Live>) {
    && l.filled < l.quantity
    && match r.state
       case PartiallyFilled =>
         && r.lastQuantity > 0 && r.cumQuantity == l.filled + r.lastQuantity < l.quantity
         && (l'.Some? ==> l'.value.quantity == l.quantity && l'.value.filled == r.cumQuantity)
       case Filled => r.lastQuantity > 0 && r.cumQuantity == l.filled + r.lastQuantity == l.quantity && l'.None?
       case Canceled => r.lastQuantity == 0 && l'.None?
       case Rejected => r.lastQuantity == 0 && l'.None?
       case _ => false
  }

  lemma {:induction false} ChainPush(o: Order, queue: seq<Report>, id: nat, l: Live, r: Report, l': Option<Live>)
    requires Chain(o, queue, id, Some(l)) && r.id == id && Follows(l, r, l')
    ensures Chain(o, queue + [r], id, l')
    decreases |queue|
  {
    if queue != [] {
      assert (queue + [r])[1..] == queue[1..] + [r];
      if queue[0].id != id {
        ChainPush(o, queue[1..], id, l, r, l');
      } else {
        ChainPush(Booked(o, queue[0]), queue[1..], id, l, r, l');
      }
    } else {
      assert (queue + [r])[1..] == [];
      assert Settled(Booked(o, r), l');
    }
  }

  lemma {:induction false} ChainFresh(o: Order, queue: seq<Report>, id: nat, l: Option<Live>)
    requires NoReports(queue, id)
    ensures Chain(o, queue, id, l) <==> Settled(o, l)
  {
    if queue != [] {
      ChainFresh(o, queue[1..], id, l);
    }
  }

  /** The first acknowledgement of an order just sent. */
  lemma {:induction false} ChainSent(o: Order, queue: seq<Report>, id: nat, l: Live)
    requires NoReports(queue, id) && o.state.PendingNew? && o.filled == l.filled < l.quantity == o.quantity
    ensures Chain(o, queue + [Report(id, Accepted, 0, 0, 0)], id, Some(l))
  {
    var r := Report(id, Accepted, 0, 0, 0);
    if queue != [] {
      assert (queue + [r])[1..] == queue[1..] + [r];
      ChainSent(o, queue[1..], id, l);
    } else {
      assert (queue + [r])[1..] == [];
      assert Settled(Booked(o, r), Some(l));
    }
  }

  /** A finished child has nothing under way, at its venue or in the queue. */
  lemma {:induction false} ChainDone(o: Order, queue: seq<Report>, id: nat, l: Option<Live>)
    requires Chain(o, queue, id, l) && Terminal(o.state)
    ensures l.None? && NoReports(queue, id)
  {
    if queue != [] {
      ChainDone(o, queue[1..], id, l);
    }
  }

  /** The fills under way for one order. */
  function Queued(queue: seq<Report>, id: nat): int {
    if queue == [] then 0 else (if queue[0].id == id then queue[0].lastQuantity else 0) + Queued(queue[1..], id)
  }

  /** Counting the fills under way, a child has what its venue has filled, and never more than its quantity. */
  lemma {:induction false} ChainTotal(o: Order, queue: seq<Report>, id: nat, l: Option<Live>)
    requires ChildOk(o) && Chain(o, queue, id, l)
    ensures o.filled <= o.filled + Queued(queue, id) <= o.quantity
    ensures Terminal(o.state) ==> Queued(queue, id) == 0
    ensures l.Some? ==> o.filled + Queued(queue, id) == l.value.filled
    decreases |queue|
  {
    if queue != [] {
      if queue[0].id == id {
        BookedOk(o, queue[0]);
        ChainTotal(Booked(o, queue[0]), queue[1..], id, l);
      } else {
        ChainTotal(o, queue[1..], id, l);
      }
    }
  }

  // ---- The invariant ----

  function LiveOf(live: map<nat, Live>, id: nat): Option<Live> { if id in live then Some(live[id]) else None }

  function Count(log: seq<nat>, p: nat): nat {
    if log == [] then 0 else Count(log[..|log| - 1], p) + if log[|log| - 1] == p then 1 else 0
  }

  /** A child of the system: it belongs to its parent, and its reports and its venue agree with its record. */
  predicate ChildInv(s: System, c: nat) {
    && c in s.h.parentOf && c in s.h.orders && c !in s.original && c < s.nextId
    && s.h.parentOf[c] in s.original && s.h.parentOf[c] in s.h.kids && c in s.h.kids[s.h.parentOf[c]]
    && ChildOk(s.h.orders[c]) && Chain(s.h.orders[c], s.queue, c, LiveOf(s.live, c))
  }

  predicate KidsOf(s: System, p: nat, ks: seq<nat>) {
    Distinct(ks) && forall k | 0 <= k < |ks| :: ks[k] in s.h.parentOf && s.h.parentOf[ks[k]] == p
  }

  /** The books of one parent: what it has left is what its client asked for, less all fills of all its children, and
      its children can never come to fill more than that. */
  predicate Balanced(s: System, p: nat)
    requires p in s.original && p in s.h.orders && p in s.h.kids
  {
    var o, ks := s.h.orders[p], s.h.kids[p];
    && SumCap(s.h.orders, ks) <= s.original[p]
    && o.quantity - o.filled == s.original[p] - SumFilled(s.h.orders, ks)
  }

  predicate ParentOk(o: Order, completions: nat) {
    && 0 < o.quantity && 0 <= o.filled && o.remaining == o.quantity - o.filled
    && (o.state.PendingNew? || o.state.PartiallyFilled? || o.state.Filled?)
    && (o.state.Filled? <==> o.filled == o.quantity)
    && completions == if o.state.Filled? then 1 else 0
  }

  predicate ParentInv(s: System, p: nat) {
    && p in s.original && p in s.h.orders && p in s.h.kids && p < s.nextId && p !in s.h.parentOf
    && KidsOf(s, p, s.h.kids[p]) && Balanced(s, p) && ParentOk(s.h.orders[p], Count(s.completed, p))
  }

  ghost predicate Children(s: System) { forall c | c in s.h.parentOf :: ChildInv(s, c) }

  ghost predicate Parents(s: System) { forall p | p in s.original :: ParentInv(s, p) }

  /** Nothing refers to an order that is neither a child nor a parent. */
  ghost predicate Known(s: System) {
    && (forall id | id in s.h.orders :: id in s.h.parentOf || id in s.original)
    && (forall id | id in s.live :: id in s.h.parentOf)
    && (forall k | 0 <= k < |s.queue| :: s.queue[k].id in s.h.parentOf)
    && (forall k | 0 <= k < |s.completed| :: s.completed[k] in s.original)
    && (forall p | p in s.h.kids :: p in s.original)
  }

  /** An order that is not to rest has filled nothing while its venue still works it, and a fill-or-kill order fills
      whole or not at all, in its record and in every report under way. */
  predicate Honours(d: Duration, o: Order, queue: seq<Report>, c: nat, l: Option<Live>) {
    && (l.Some? ==> l.value.duration == d && (!d.Resting? ==> l.value.filled == 0))
    && (d.FillOrKill? ==> (o.filled == 0 || o.filled == o.quantity) && AllWhole(queue, c, o.quantity))
  }

  /** Every fill under way for order c is for the quantity q. */
  predicate AllWhole(queue: seq<Report>, c: nat, q: int) {
    forall k | 0 <= k < |queue| :: queue[k].id == c ==> queue[k].lastQuantity == 0 || queue[k].lastQuantity == q
  }

  predicate ChildHonours(s: System, c: nat) {
    && c in s.h.orders && c in s.durations
    && Honours(s.durations[c], s.h.orders[c], s.queue, c, LiveOf(s.live, c))
  }

  ghost predicate Honoured(s: System) { forall c | c in s.h.parentOf :: ChildHonours(s, c) }

  ghost predicate Inv(s: System) { Children(s) && Parents(s) && Known(s) && Honoured(s) }

  function Initial(): System { System(Handler(map[], map[], map[]), map[], [], 1, map[], map[], []) }

  lemma InitialInv()
    ensures Inv(Initial())
  {}

  /** Identifiers not handed out yet are unknown everywhere. */
  lemma Unused(s: System, id: nat)
    requires Inv(s) && s.nextId <= id
    ensures id !in s.h.orders && id !in s.h.parentOf && id !in s.original && id !in s.live && NoReports(s.queue, id)
    ensures Count(s.completed, id) == 0
  {
    assert id in s.h.parentOf ==> ChildInv(s, id);
    assert id in s.original ==> ParentInv(s, id);
    CountNone(s.completed, id);
  }

  lemma {:induction false} CountNone(log: seq<nat>, p: nat)
    requires forall k | 0 <= k < |log| :: log[k] != p
    ensures Count(log, p) == 0
  {
    if log != [] {
      CountNone(log[..|log| - 1], p);
    }
  }

  lemma CountSnoc(log: seq<nat>, q: nat, p: nat)
    ensures Count(log + [q], p) == Count(log, p) + if q == p then 1 else 0
  {
    assert (log + [q])[..|log|] == log;
  }

  /** The filled quantities stay, and so do the reports and what the venues work on, but for requests to cancel. */
  ghost predicate SameFills(s: System, t: System) {
    && t.h.parentOf == s.h.parentOf && t.durations == s.durations && t.queue == s.queue
    && (forall c | c in s.h.parentOf && c in s.h.orders ::
          && c in t.h.orders && t.h.orders[c].filled == s.h.orders[c].filled
          && t.h.orders[c].quantity == s.h.orders[c].quantity)
    && (forall c | c in s.h.parentOf && c in t.live ::
          && c in s.live && t.live[c].duration == s.live[c].duration && t.live[c].filled == s.live[c].filled)
  }

  lemma HonouredKept(s: System, t: System)
    requires Honoured(s) && SameFills(s, t)
    ensures Honoured(t)
  {
    forall c | c in t.h.parentOf ensures ChildHonours(t, c) {
      assert ChildHonours(s, c);
    }
  }

  /** A parent whose children and record did not change keeps its part of the invariant. */
  lemma ParentKept(s: System, t: System, p: nat)
    requires ParentInv(s, p) && s.nextId <= t.nextId && p in t.original && t.original[p] == s.original[p]
    requires Same(s.h.orders, t.h.orders, p) && p in t.h.kids && t.h.kids[p] == s.h.kids[p] && p !in t.h.parentOf
    requires Count(t.completed, p) == Count(s.completed, p)
    requires forall k | 0 <= k < |s.h.kids[p]| ::
               Same(s.h.orders, t.h.orders, s.h.kids[p][k]) && s.h.kids[p][k] in t.h.parentOf
               && t.h.parentOf[s.h.kids[p][k]] == p
    ensures ParentInv(t, p)
  {
    SumsSame(s.h.orders, t.h.orders, s.h.kids[p]);
  }

  /** Step s to t leaves the children and the records of parent p alone. */
  lemma OtherParent(s: System, t: System, p: nat)
    requires Parents(s) && Children(s) && p in s.original && s.nextId <= t.nextId && p in t.original
    requires t.original[p] == s.original[p]
    requires Same(s.h.orders, t.h.orders, p) && p in t.h.kids && t.h.kids[p] == s.h.kids[p] && p !in t.h.parentOf
    requires Count(t.completed, p) == Count(s.completed, p)
    requires forall c | c in s.h.parentOf && s.h.parentOf[c] == p ::
               c in t.h.parentOf && t.h.parentOf[c] == p && Same(s.h.orders, t.h.orders, c)
    ensures ParentInv(t, p)
  {
    assert ParentInv(s, p);
    ParentKept(s, t, p);
  }

  // ---- Placing slices ----

  ghost predicate Room(s: System, p: nat, quantity: int) {
    p in s.original && p in s.h.kids && SumCap(s.h.orders, s.h.kids[p]) + quantity <= s.original[p]
  }

  /** The next identifier is unknown everywhere. */
  predicate NextUnused(s: System) {
    var id := s.nextId;
    id !in s.h.orders && id !in s.h.parentOf && id !in s.original && id !in s.live && NoReports(s.queue, id)
  }

  lemma PlacedChild(s: System, p: nat, slice: Slice)
    requires NextUnused(s) && ParentInv(s, p) && slice.quantity > 0
    ensures ChildInv(Placed(s, p, slice), s.nextId)
  {
    var id, t := s.nextId, Placed(s, p, slice);
    var o := Fresh(slice.quantity);
    if slice.sent {
      ChainSent(o, s.queue, id, Live(slice.quantity, 0, slice.duration, false));
    } else {
      ChainFresh(o, s.queue, id, None);
    }
    assert t.h.kids[p][|t.h.kids[p]| - 1] == id;
  }

  lemma PlacedOther(s: System, p: nat, slice: Slice, c: nat)
    requires NextUnused(s) && ParentInv(s, p) && ChildInv(s, c) && slice.quantity > 0
    ensures ChildInv(Placed(s, p, slice), c)
  {
    var id, t := s.nextId, Placed(s, p, slice);
    if slice.sent {
      ChainOther(s.h.orders[c], s.queue, c, LiveOf(s.live, c), Report(id, Accepted, 0, 0, 0));
    }
    assert LiveOf(t.live, c) == LiveOf(s.live, c);
    var q := s.h.parentOf[c];
    var k :| 0 <= k < |s.h.kids[q]| && s.h.kids[q][k] == c;
    assert t.h.kids[q][k] == c;
  }

  lemma PlacedParent(s: System, p: nat, slice: Slice)
    requires NextUnused(s) && ParentInv(s, p) && slice.quantity > 0 && Room(s, p, slice.quantity)
    ensures ParentInv(Placed(s, p, slice), p)
    ensures SumCap(Placed(s, p, slice).h.orders, Placed(s, p, slice).h.kids[p]) ==
            SumCap(s.h.orders, s.h.kids[p]) + slice.quantity
  {
    var id, t, ks := s.nextId, Placed(s, p, slice), s.h.kids[p];
    assert KidsOf(t, p, ks + [id]) by {
      KidsSnoc(s, t, p, id);
    }
    assert id !in ks;
    PlacedSums(s.h.orders, ks, id, Fresh(slice.quantity));
    PlacedBooks(s, t, p, ks, id, slice.quantity);
  }

  lemma PlacedBooks(s: System, t: System, p: nat, ks: seq<nat>, id: nat, quantity: int)
    requires ParentInv(s, p) && ks == s.h.kids[p] && quantity > 0 && Room(s, p, quantity) && id != p
    requires t.original == s.original && t.completed == s.completed && t.nextId == s.nextId + 1 && p in t.h.kids
    requires p !in t.h.parentOf
    requires t.h.orders == s.h.orders[id := Fresh(quantity)] && t.h.kids[p] == ks + [id] && KidsOf(t, p, ks + [id])
    requires SumFilled(t.h.orders, ks + [id]) == SumFilled(s.h.orders, ks)
    requires SumCap(t.h.orders, ks + [id]) == SumCap(s.h.orders, ks) + quantity
    ensures ParentInv(t, p)
  {}

  lemma PlacedSums(orders: map<nat, Order>, ks: seq<nat>, id: nat, o: Order)
    requires id !in orders && id !in ks && o.filled == 0 && !Terminal(o.state)
    ensures SumFilled(orders[id := o], ks + [id]) == SumFilled(orders, ks)
    ensures SumCap(orders[id := o], ks + [id]) == SumCap(orders, ks) + o.quantity
  {
    SumsSame(orders, orders[id := o], ks);
    SumsSnoc(orders[id := o], ks, id);
  }

  lemma KidsSnoc(s: System, t: System, p: nat, id: nat)
    requires p in s.h.kids && KidsOf(s, p, s.h.kids[p]) && id !in s.h.parentOf && t.h.parentOf == s.h.parentOf[id := p]
    ensures KidsOf(t, p, s.h.kids[p] + [id])
  {}

  lemma PlacedKnown(s: System, p: nat, slice: Slice)
    requires Known(s) && p in s.original
    ensures Known(Placed(s, p, slice))
  {}

  lemma PlacedHonours(s: System, p: nat, slice: Slice)
    requires NextUnused(s) && Honoured(s)
    ensures Honoured(Placed(s, p, slice))
  {
    var t := Placed(s, p, slice);
    forall c | c in t.h.parentOf ensures ChildHonours(t, c) {
      if c != s.nextId {
        assert ChildHonours(s, c);
        PlacedWhole(s, p, slice, c);
      } else {
        PlacedWhole(s, p, slice, c);
        assert AllWhole(s.queue, c, slice.quantity);
      }
    }
  }

  /** A slice brings no fill. */
  lemma PlacedWhole(s: System, p: nat, slice: Slice, c: nat)
    ensures forall q :: AllWhole(s.queue, c, q) ==> AllWhole(Placed(s, p, slice).queue, c, q)
  {}

  lemma PlacedOtherParent(s: System, p: nat, slice: Slice, q: nat)
    requires NextUnused(s) && Children(s) && Parents(s) && p in s.original && q in s.original && q != p
    ensures ParentInv(Placed(s, p, slice), q)
  {
    assert ParentInv(s, q);
    OtherParent(s, Placed(s, p, slice), q);
  }

  /** A slice that fits in what the parent can still take keeps the invariant. */
  lemma PlacedKeeps(s: System, p: nat, slice: Slice)
    requires Inv(s) && slice.quantity > 0 && Room(s, p, slice.quantity)
    ensures Inv(Placed(s, p, slice)) && Placed(s, p, slice).original == s.original && p in Placed(s, p, slice).h.kids
    ensures SumCap(Placed(s, p, slice).h.orders, Placed(s, p, slice).h.kids[p]) ==
            SumCap(s.h.orders, s.h.kids[p]) + slice.quantity
  {
    var t := Placed(s, p, slice);
    Unused(s, s.nextId);
    assert ParentInv(s, p);
    PlacedParent(s, p, slice);
    forall c | c in t.h.parentOf ensures ChildInv(t, c) {
      if c == s.nextId {
        PlacedChild(s, p, slice);
      } else {
        assert ChildInv(s, c);
        PlacedOther(s, p, slice, c);
      }
    }
    forall q | q in t.original ensures ParentInv(t, q) {
      if q != p {
        PlacedOtherParent(s, p, slice, q);
      }
    }
    PlacedKnown(s, p, slice);
    PlacedHonours(s, p, slice);
  }

  function TotalOf(slices: seq<Slice>): int {
    if slices == [] then 0 else TotalOf(slices[..|slices| - 1]) + slices[|slices| - 1].quantity
  }

  /** What the router is trusted for: positive slices that total at most what the order has left. */
  predicate SlicesOk(slices: seq<Slice>, leaves: int) {
    (forall k | 0 <= k < |slices| :: slices[k].quantity > 0) && TotalOf(slices) <= leaves
  }

  lemma {:induction false} TotalNonneg(slices: seq<Slice>)
    requires forall k | 0 <= k < |slices| :: slices[k].quantity > 0
    ensures TotalOf(slices) >= 0
  {
    if slices != [] {
      TotalNonneg(slices[..|slices| - 1]);
    }
  }

  lemma {:induction false} PlacedAllKeeps(s: System, p: nat, slices: seq<Slice>)
    requires Inv(s) && (forall k | 0 <= k < |slices| :: slices[k].quantity > 0) && Room(s, p, TotalOf(slices))
    ensures Inv(PlacedAll(s, p, slices)) && PlacedAll(s, p, slices).original == s.original
    ensures p in PlacedAll(s, p, slices).h.kids
    ensures SumCap(PlacedAll(s, p, slices).h.orders, PlacedAll(s, p, slices).h.kids[p]) ==
            SumCap(s.h.orders, s.h.kids[p]) + TotalOf(slices)
  {
    if slices != [] {
      var front, last := slices[..|slices| - 1], slices[|slices| - 1];
      TotalNonneg(front);
      PlacedAllKeeps(s, p, front);
      PlacedKeeps(PlacedAll(s, p, front), p, last);
    }
  }

  /** Every slice becomes one child, in order: the parent's, for the slice's quantity, waiting for its acknowledgement
      if its venue can be reached and then worked there, and known to no venue otherwise. */
  ghost predicate Launched(s: System, t: System, p: nat, slices: seq<Slice>) {
    && t.nextId == s.nextId + |slices| && p in t.h.kids
    && |t.h.kids[p]| == |Kids(s, p)| + |slices| && Kids(s, p) <= t.h.kids[p]
    && forall i: nat | i < |slices| :: ChildOf(s, t, p, slices[i], i)
  }

  function Kids(s: System, p: nat): seq<nat> { if p in s.h.kids then s.h.kids[p] else [] }

  /** The i-th child placed. */
  predicate ChildOf(s: System, t: System, p: nat, slice: Slice, i: nat) {
    var c := s.nextId + i;
    && |Kids(s, p)| + i < |Kids(t, p)| && Kids(t, p)[|Kids(s, p)| + i] == c
    && c in t.h.parentOf && t.h.parentOf[c] == p
    && c in t.h.orders && t.h.orders[c] == Order(slice.quantity, 0, slice.quantity, 0, PendingNew)
    && LiveOf(t.live, c) == (if slice.sent then Some(Live(slice.quantity, 0, slice.duration, false)) else None)
    && (slice.sent ==> Report(c, Accepted, 0, 0, 0) in t.queue)
  }

  lemma {:induction false} PlacedAllLaunches(s: System, p: nat, slices: seq<Slice>)
    requires p in s.h.kids && p < s.nextId && forall id | id in s.live :: id < s.nextId
    ensures Launched(s, PlacedAll(s, p, slices), p, slices)
    ensures forall id | id in PlacedAll(s, p, slices).live :: id < s.nextId + |slices|
  {
    if slices != [] {
      var front, n := slices[..|slices| - 1], |slices| - 1;
      PlacedAllLaunches(s, p, front);
      var t := PlacedAll(s, p, front);
      var last := slices[n];
      PlacedLast(s, t, p, last, n);
      forall i: nat | i < |slices| ensures ChildOf(s, Placed(t, p, last), p, slices[i], i) {
        if i < n {
          assert front[i] == slices[i] && ChildOf(s, t, p, front[i], i);
          PlacedBefore(s, t, p, last, n, slices[i], i);
        }
      }
      hide Placed, ChildOf;
      assert slices[n] == last;
    }
  }

  lemma PlacedLast(s: System, t: System, p: nat, slice: Slice, n: nat)
    requires p in t.h.kids && p < s.nextId && t.nextId == s.nextId + n && |Kids(t, p)| == |Kids(s, p)| + n
    requires forall id | id in t.live :: id < t.nextId
    ensures var u := Placed(t, p, slice);
            && u.nextId == t.nextId + 1 && p in u.h.kids && u.h.kids[p] == Kids(t, p) + [t.nextId]
            && ChildOf(s, u, p, slice, n) && forall id | id in u.live :: id < u.nextId
  {}

  lemma PlacedBefore(s: System, t: System, p: nat, slice: Slice, n: nat, other: Slice, i: nat)
    requires p in t.h.kids && i < n && t.nextId == s.nextId + n && ChildOf(s, t, p, other, i)
    ensures ChildOf(s, Placed(t, p, slice), p, other, i)
  {}

  // ---- Submitting a parent ----

  /** The system with a parent just tracked. */
  function Entered(s: System, quantity: int): System {
    var id := s.nextId;
    s.(nextId := id + 1, h := Tracked(s.h, id, Fresh(quantity)), original := s.original[id := quantity])
  }

  lemma ParentEntered(s: System, quantity: int)
    requires Inv(s) && quantity > 0
    ensures Inv(Entered(s, quantity)) && Room(Entered(s, quantity), s.nextId, quantity)
  {
    var id, t := s.nextId, Entered(s, quantity);
    Unused(s, id);
    EnteredKnown(s, quantity);
    EnteredChildren(s, quantity);
    EnteredSelf(s, quantity);
    assert forall q | q in t.original :: q == id || q in s.original;
    hide Honoured, Children, ParentInv, Known, Entered;
    forall q | q in t.original ensures ParentInv(t, q) {
      if q != id {
        assert ParentInv(s, q);
        EnteredOther(s, q, quantity);
      }
    }
  }

  lemma EnteredKnown(s: System, quantity: int)
    requires Known(s)
    ensures Known(Entered(s, quantity))
  {}

  lemma EnteredChildren(s: System, quantity: int)
    requires Inv(s) && NextUnused(s)
    ensures Children(Entered(s, quantity)) && Honoured(Entered(s, quantity))
  {
    forall c | c in s.h.parentOf ensures c !in Entered(s, quantity).original {
      assert ChildInv(s, c);
    }
    SameChildren(s, Entered(s, quantity));
    hide Children, Parents, Honoured;
  }

  lemma EnteredSelf(s: System, quantity: int)
    requires Inv(s) && quantity > 0 && NextUnused(s) && Count(s.completed, s.nextId) == 0
    ensures ParentInv(Entered(s, quantity), s.nextId) && Room(Entered(s, quantity), s.nextId, quantity)
  {
    assert s.nextId !in s.h.kids;
  }

  /** A step that leaves the children, their venue and the reports alone. */
  lemma SameChildren(s: System, t: System)
    requires Inv(s) && t.h.parentOf == s.h.parentOf && t.durations == s.durations && t.queue == s.queue
    requires t.live == s.live && s.nextId <= t.nextId
    requires forall c | c in s.h.parentOf :: Same(s.h.orders, t.h.orders, c) && c !in t.original
    requires forall p | p in s.original :: p in t.original
    requires forall p | p in s.h.kids :: p in t.h.kids && t.h.kids[p] == s.h.kids[p]
    ensures Children(t) && Honoured(t)
  {
    forall c | c in t.h.parentOf ensures ChildInv(t, c) && ChildHonours(t, c) {
      assert ChildInv(s, c) && ChildHonours(s, c);
      assert Same(s.h.orders, t.h.orders, c);
      hide Inv, Chain, Honours;
    }
  }

  lemma EnteredOther(s: System, q: nat, quantity: int)
    requires Children(s) && ParentInv(s, q) && s.nextId !in s.h.orders
    ensures ParentInv(Entered(s, quantity), q)
  {
    var t := Entered(s, quantity);
    forall k | 0 <= k < |s.h.kids[q]| ensures Same(s.h.orders, t.h.orders, s.h.kids[q][k]) {
      assert ChildInv(s, s.h.kids[q][k]);
    }
    ParentKept(s, t, q);
  }

  // ---- The venues work ----

  /** What an attempt reports follows from the venue's record, and leaves the record it keeps. */
  lemma AttemptFollows(id: nat, l: Live, luck: Luck) returns (m: Live)
    requires l.filled < l.quantity
    ensures var a := Attempt(id, l, luck);
            && |a.reports| <= 2 && (forall k | 0 <= k < |a.reports| :: a.reports[k].id == id)
            && (a.reports == [] ==> a.stays == Some(l))
            && (|a.reports| == 1 ==> Follows(l, a.reports[0], a.stays))
            && (|a.reports| == 2 ==> Follows(l, a.reports[0], Some(m)) && Follows(m, a.reports[1], a.stays))
  {
    m := l;
    if luck.Trade? && luck.partial.Some? && l.quantity - l.filled > 1 {
      m := l.(filled := l.filled + Clamp(luck.partial.value, 1, l.quantity - l.filled - 1));
    }
  }

  predicate EndsWith(reports: seq<Report>, state: OrderState) {
    reports != [] && reports[|reports| - 1].state == state
  }

  /** What an attempt tells of order l that still has quantity left, and what stays of it.
      Only a trade fills anything, at its own price: all of a fill-or-kill order in one report, all that is left of any
      other if chance splits nothing off or nothing can be split off, and otherwise the part split off. The order leaves
      with its last report. It leaves filled, refused, or canceled; canceled only on request or because it is
      immediate-or-cancel, which never stays; refused only by chance or because it is fill-or-kill and met no trade. */
  predicate Obeys(id: nat, l: Live, luck: Luck, reports: seq<Report>, stays: Option<Live>) {
    var rest, gained := l.quantity - l.filled, Queued(reports, id);
    && (forall k | 0 <= k < |reports| :: reports[k].id == id)
    && (forall k | 0 <= k < |reports| && reports[k].lastQuantity != 0 ::
          luck.Trade? && !l.pendingCancel && reports[k].lastPrice == luck.price)
    && (luck.Trade? && !l.pendingCancel ==>
          if l.duration.FillOrKill? || luck.partial.None? || rest == 1 then gained == rest
          else 1 <= gained < rest && (1 <= luck.partial.value < rest ==> gained == luck.partial.value))
    && (l.duration.FillOrKill? ==> |reports| == 1 && stays.None?)
    && (l.duration.ImmediateOrCancel? ==> stays.None?)
    && (stays.Some? ==> !l.pendingCancel && stays.value == l.(filled := l.filled + gained))
    && (stays.None? <==> EndsWith(reports, Filled) || EndsWith(reports, Canceled) || EndsWith(reports, Rejected))
    && (EndsWith(reports, Filled) <==> gained == rest)
    && (EndsWith(reports, Canceled) ==> l.pendingCancel || l.duration.ImmediateOrCancel?)
    && (EndsWith(reports, Rejected) ==>
          !l.pendingCancel && (luck.Refuse? || (luck.Miss? && l.duration.FillOrKill?)))
    && (luck.Refuse? && !l.pendingCancel ==> EndsWith(reports, Rejected))
  }

  lemma AttemptObeys(id: nat, l: Live, luck: Luck)
    requires l.filled < l.quantity
    ensures Obeys(id, l, luck, Attempt(id, l, luck).reports, Attempt(id, l, luck).stays)
  {
    var a := Attempt(id, l, luck);
    assert Queued([], id) == 0;
    if |a.reports| > 0 {
      assert |a.reports| == 1 ==> a.reports[1..] == [];
      assert |a.reports| == 2 ==> a.reports[1..][1..] == [];
    }
  }

  lemma {:induction false} ChainLive(o: Order, queue: seq<Report>, id: nat, l: Live)
    requires Chain(o, queue, id, Some(l))
    ensures l.filled < l.quantity
    decreases |queue|
  {
    if queue != [] {
      ChainLive(if queue[0].id == id then Booked(o, queue[0]) else o, queue[1..], id, l);
    }
  }

  lemma {:induction false} ChainOthers(o: Order, queue: seq<Report>, id: nat, l: Option<Live>, rs: seq<Report>)
    requires Chain(o, queue, id, l) && NoReports(rs, id)
    ensures Chain(o, queue + rs, id, l)
  {
    if rs == [] {
      assert queue + rs == queue;
    } else {
      ChainOthers(o, queue, id, l, rs[..|rs| - 1]);
      ChainOther(o, queue + rs[..|rs| - 1], id, l, rs[|rs| - 1]);
      assert queue + rs == queue + rs[..|rs| - 1] + [rs[|rs| - 1]];
    }
  }

  lemma ChainAttempt(o: Order, queue: seq<Report>, id: nat, l: Live, luck: Luck)
    requires Chain(o, queue, id, Some(l))
    ensures Chain(o, queue + Attempt(id, l, luck).reports, id, Attempt(id, l, luck).stays)
  {
    ChainLive(o, queue, id, l);
    var a := Attempt(id, l, luck);
    var m := AttemptFollows(id, l, luck);
    if |a.reports| == 0 {
      assert queue + a.reports == queue;
    } else if |a.reports| == 1 {
      ChainPush(o, queue, id, l, a.reports[0], a.stays);
      assert a.reports == [a.reports[0]];
    } else {
      ChainPush(o, queue, id, l, a.reports[0], Some(m));
      ChainPush(o, queue + [a.reports[0]], id, m, a.reports[1], a.stays);
      assert queue + [a.reports[0]] + [a.reports[1]] == queue + a.reports;
    }
  }

  lemma WorkedChild(s: System, id: nat, luck: Luck, c: nat)
    requires Children(s) && id in s.live && c in s.h.parentOf && id in s.h.parentOf
    ensures ChildInv(Worked(s, id, luck), c)
  {
    assert ChildInv(s, c);
    var t, a := Worked(s, id, luck), Attempt(id, s.live[id], luck);
    if c == id {
      ChainAttempt(s.h.orders[c], s.queue, c, s.live[c], luck);
      assert LiveOf(t.live, c) == a.stays;
    } else {
      assert ChildInv(s, id);
      ChainLive(s.h.orders[id], s.queue, id, s.live[id]);
      var m := AttemptFollows(id, s.live[id], luck);
      ChainOthers(s.h.orders[c], s.queue, c, LiveOf(s.live, c), a.reports);
      assert LiveOf(t.live, c) == LiveOf(s.live, c);
    }
  }

  lemma WorkedKeeps(s: System, id: nat, luck: Luck)
    requires Inv(s)
    ensures Inv(Worked(s, id, luck))
  {
    var t := Worked(s, id, luck);
    if id in s.live {
      forall c | c in t.h.parentOf ensures ChildInv(t, c) {
        WorkedChild(s, id, luck, c);
      }
      forall p | p in t.original ensures ParentInv(t, p) {
        assert ParentInv(s, p);
        ParentKept(s, t, p);
      }
      WorkedKnown(s, id, luck);
      WorkedHonours(s, id, luck);
    }
  }

  lemma {:induction false} ChainQuantity(o: Order, queue: seq<Report>, id: nat, l: Live)
    requires Chain(o, queue, id, Some(l))
    ensures l.quantity == o.quantity
    decreases |queue|
  {
    if queue != [] {
      ChainQuantity(if queue[0].id == id then Booked(o, queue[0]) else o, queue[1..], id, l);
    }
  }

  /** An attempt honours what its order asks for. */
  lemma AttemptHonours(o: Order, queue: seq<Report>, id: nat, l: Live, luck: Luck, d: Duration)
    requires Honours(d, o, queue, id, Some(l)) && l.filled < l.quantity == o.quantity
    ensures Honours(d, o, queue + Attempt(id, l, luck).reports, id, Attempt(id, l, luck).stays)
  {}

  lemma WorkedHonours(s: System, id: nat, luck: Luck)
    requires Honoured(s) && id in s.live && id in s.h.parentOf && ChildInv(s, id)
    ensures Honoured(Worked(s, id, luck))
  {
    var t, a := Worked(s, id, luck), Attempt(id, s.live[id], luck);
    ChainLive(s.h.orders[id], s.queue, id, s.live[id]);
    ChainQuantity(s.h.orders[id], s.queue, id, s.live[id]);
    var m := AttemptFollows(id, s.live[id], luck);
    forall c | c in t.h.parentOf ensures ChildHonours(t, c) {
      assert ChildHonours(s, c);
      if c == id {
        AttemptHonours(s.h.orders[c], s.queue, c, s.live[c], luck, s.durations[c]);
        assert LiveOf(t.live, c) == a.stays;
      } else {
        assert LiveOf(t.live, c) == LiveOf(s.live, c);
        hide Attempt;
      }
    }
  }

  lemma WorkedKnown(s: System, id: nat, luck: Luck)
    requires Known(s) && id in s.live && ChildInv(s, id)
    ensures Known(Worked(s, id, luck))
  {
    ChainLive(s.h.orders[id], s.queue, id, s.live[id]);
    var m := AttemptFollows(id, s.live[id], luck);
    hide ChildInv, Chain, Attempt;
  }

  lemma {:induction false} ChainCancelAsked(o: Order, queue: seq<Report>, id: nat, l: Live)
    requires Chain(o, queue, id, Some(l))
    ensures Chain(o, queue, id, Some(l.(pendingCancel := true)))
    decreases |queue|
  {
    if queue != [] {
      ChainCancelAsked(if queue[0].id == id then Booked(o, queue[0]) else o, queue[1..], id, l);
    }
  }

  lemma AskedHonours(s: System, id: nat)
    requires Honoured(s)
    ensures Honoured(CancelAsked(s, id))
  {
    HonouredKept(s, CancelAsked(s, id));
  }

  lemma CancelAskedKeeps(s: System, id: nat)
    requires Inv(s)
    ensures Inv(CancelAsked(s, id))
  {
    var t := CancelAsked(s, id);
    if id in s.live {
      AskedHonours(s, id);
      hide Honoured, Chain;
      forall c | c in t.h.parentOf ensures ChildInv(t, c) {
        assert ChildInv(s, c);
        if c == id {
          ChainCancelAsked(s.h.orders[c], s.queue, c, s.live[c]);
        }
      }
      forall p | p in t.original ensures ParentInv(t, p) {
        assert ParentInv(s, p);
        ParentKept(s, t, p);
      }
    }
  }

  // ---- A report is handled ----

  /** The reported child and its parent, before and after. */
  lemma Reported(s: System) returns (c: nat, p: nat)
    requires Inv(s) && s.queue != []
    ensures c == s.queue[0].id && c in s.h.parentOf && c in s.h.orders && p == s.h.parentOf[c] && p in s.original
    ensures p != c
    ensures ChildInv(s, c) && ParentInv(s, p) && c !in s.original && p !in s.h.parentOf
    ensures Expected(s.h.orders[c], s.queue[0])
    ensures Chain(Booked(s.h.orders[c], s.queue[0]), s.queue[1..], c, LiveOf(s.live, c))
    ensures s.h.orders[p].filled < s.h.orders[p].quantity
  {
    c := s.queue[0].id;
    assert ChildInv(s, c);
    p := s.h.parentOf[c];
    assert ParentInv(s, p);
    BookedOk(s.h.orders[c], s.queue[0]);
    ParentUnfilled(s, p, c);
  }

  lemma KidsWithin(s: System, p: nat)
    requires Children(s) && ParentInv(s, p)
    ensures forall k | 0 <= k < |s.h.kids[p]| :: WithinCap(s.h.orders, s.h.kids[p][k])
  {
    forall k | 0 <= k < |s.h.kids[p]| ensures WithinCap(s.h.orders, s.h.kids[p][k]) {
      assert ChildInv(s, s.h.kids[p][k]);
    }
  }

  /** A parent with a child that can still fill is not filled. */
  lemma ParentUnfilled(s: System, p: nat, c: nat)
    requires Children(s) && ParentInv(s, p) && ChildInv(s, c) && s.h.parentOf[c] == p
    requires s.h.orders[c].filled < CapOf(s.h.orders, c)
    ensures s.h.orders[p].filled < s.h.orders[p].quantity
  {
    var ks := s.h.kids[p];
    KidsWithin(s, p);
    SumsWithin(s.h.orders, ks);
    var k :| 0 <= k < |ks| && ks[k] == c;
    assert FilledOf(s.h.orders, ks[k]) < CapOf(s.h.orders, ks[k]);
  }

  /** The state once the report is handled, before a reroute. */
  ghost function Handled(s: System): System
    requires s.queue != []
  {
    var e := Received(s.h, s.queue[0]);
    s.(h := e.h, queue := s.queue[1..],
    completed := if e.complete.Some? then s.completed + [e.complete.value] else s.completed)
  }

  function Put(orders: map<nat, Order>, c: nat, o: Order, p: nat,
               parent: Order): map<nat, Order> { orders[c := o][p := parent] }

  /** What handling the report does to the two orders it concerns. */
  lemma HandledOrders(s: System) returns (c: nat, p: nat, again: bool)
    requires Inv(s) && s.queue != []
    ensures c == s.queue[0].id && c in s.h.parentOf && c in s.h.orders && p == s.h.parentOf[c] && p in s.h.orders
    ensures p != c
    ensures var e, r := Received(s.h, s.queue[0]), s.queue[0];
            var parent := ParentBooked(s.h.orders[p], r);
            && e.h == Handler(Put(s.h.orders, c, Booked(s.h.orders[c], r), p, Checked(parent, again)), s.h.kids,
                              s.h.parentOf)
            && e.reroute == (if again then Some(p) else None)
            && e.complete == (if parent.filled >= parent.quantity then Some(p) else None)
            && (again ==> CallsForReroute(s.h.(orders := Put(s.h.orders, c, Booked(s.h.orders[c], r), p, parent)),
                                          Booked(s.h.orders[c], r), p))
  {
    c, p := Reported(s);
    hide Inv, ChildInv, ParentInv, Chain;
    again := ReceivedAs(s.h, s.queue[0], c, p);
  }

  lemma ReceivedAs(h: Handler, r: Report, c: nat, p: nat) returns (again: bool)
    requires r.id == c && c in h.orders && c in h.parentOf && p == h.parentOf[c] && p in h.orders && p != c
    requires !r.state.New? && !r.state.PendingNew?
    ensures var e, o, parent := Received(h, r), Booked(h.orders[c], r), ParentBooked(h.orders[p], r);
            && e.h == Handler(Put(h.orders, c, o, p, Checked(parent, again)), h.kids, h.parentOf)
            && e.reroute == (if again then Some(p) else None)
            && e.complete == (if parent.filled >= parent.quantity then Some(p) else None)
            && (again ==> CallsForReroute(h.(orders := Put(h.orders, c, o, p, parent)), o, p))
  {
    var h2 := h.(orders := Put(h.orders, c, Booked(h.orders[c], r), p, ParentBooked(h.orders[p], r)));
    again := CallsForReroute(h2, h2.orders[c], p);
    hide Booked, ParentBooked, CallsForReroute;
  }

  lemma HandledChild(s: System, d: nat)
    requires Inv(s) && s.queue != [] && d in s.h.parentOf
    ensures ChildInv(Handled(s), d)
  {
    var c, p, again := HandledOrders(s);
    var c0, p0 := Reported(s);
    assert ChildInv(s, d);
    BookedOk(s.h.orders[c], s.queue[0]);
  }

  /** The report's fill moves from what the child could still fill to what it has filled. */
  lemma HandledSums(s: System, c: nat, p: nat)
    requires Inv(s) && s.queue != [] && c == s.queue[0].id && c in s.h.parentOf && p == s.h.parentOf[c] && p in s.h.kids
    ensures SumFilled(Handled(s).h.orders, s.h.kids[p]) == SumFilled(s.h.orders, s.h.kids[p]) + s.queue[0].lastQuantity
    ensures SumCap(Handled(s).h.orders, s.h.kids[p]) <= SumCap(s.h.orders, s.h.kids[p])
  {
    var t := Handled(s);
    var c0, p0, again := HandledOrders(s);
    var c1, p1 := Reported(s);
    var ks := s.h.kids[p];
    var k :| 0 <= k < |ks| && ks[k] == c;
    forall j | 0 <= j < |ks| && j != k ensures Same(s.h.orders, t.h.orders, ks[j]) {
      assert ChildInv(s, ks[j]);
    }
    SumsChange(s.h.orders, t.h.orders, ks, k);
    BookedOk(s.h.orders[c], s.queue[0]);
    assert FilledOf(t.h.orders, c) == FilledOf(s.h.orders, c) + s.queue[0].lastQuantity;
    assert CapOf(t.h.orders, c) <= CapOf(s.h.orders, c);
  }

  /** The reported child's parent: its record moves with the child's, and it completes when it is filled. */
  lemma HandledParent(s: System)
    requires Inv(s) && s.queue != []
    ensures ParentInv(Handled(s), s.h.parentOf[s.queue[0].id])
  {
    var t := Handled(s);
    var c, p, again := HandledOrders(s);
    var c0, p0 := Reported(s);
    HandledSums(s, c, p);
    HandledWithin(s, t, p);
    BookedOk(s.h.orders[c], s.queue[0]);
    ParentMoves(s.h.orders[p], s.queue[0], again, Count(s.completed, p));
    CountSnoc(s.completed, p, p);
  }

  lemma HandledWithin(s: System, t: System, p: nat)
    requires Inv(s) && s.queue != [] && t == Handled(s) && p == s.h.parentOf[s.queue[0].id] && ParentInv(s, p)
    ensures SumFilled(t.h.orders, s.h.kids[p]) <= SumCap(t.h.orders, s.h.kids[p])
  {
    forall k | 0 <= k < |s.h.kids[p]| ensures WithinCap(t.h.orders, s.h.kids[p][k]) {
      HandledChild(s, s.h.kids[p][k]);
    }
    SumsWithin(t.h.orders, s.h.kids[p]);
  }

  lemma ParentMoves(o: Order, r: Report, again: bool, completions: nat)
    requires ParentOk(o, completions) && r.lastQuantity >= 0 && o.filled + r.lastQuantity <= o.quantity
    requires o.filled < o.quantity
    ensures var b := ParentBooked(o, r);
            var o' := Checked(b, again);
            && ParentOk(o', if b.filled >= b.quantity then completions + 1 else completions)
            && o'.quantity == o.quantity && o'.filled == o.filled + r.lastQuantity
  {}

  lemma HandledOtherParent(s: System, q: nat)
    requires Inv(s) && s.queue != [] && q in s.original && q != s.h.parentOf[s.queue[0].id]
    ensures ParentInv(Handled(s), q)
  {
    var c, p, again := HandledOrders(s);
    var c0, p0 := Reported(s);
    assert ParentInv(s, q);
    hide Inv, Received, CallsForReroute, ParentInv, ChildInv, Chain;
    CountSnoc(s.completed, p, q);
    OtherParent(s, Handled(s), q);
  }

  lemma HandledKnown(s: System)
    requires Inv(s) && s.queue != []
    ensures Known(Handled(s)) && Handled(s).h.parentOf == s.h.parentOf && Handled(s).original == s.original
  {
    hide CallsForReroute, Received, ChildInv, ParentInv, Chain;
    var c, p, again := HandledOrders(s);
    var c0, p0 := Reported(s);
  }

  lemma BookedHonours(o: Order, queue: seq<Report>, id: nat, l: Option<Live>, d: Duration)
    requires ChildOk(o) && queue != [] && queue[0].id == id && Expected(o, queue[0]) && Honours(d, o, queue, id, l)
    ensures Honours(d, Booked(o, queue[0]), queue[1..], id, l)
  {}

  lemma HandledHonours(s: System)
    requires Inv(s) && s.queue != []
    ensures Honoured(Handled(s))
  {
    var t := Handled(s);
    var c, p, again := HandledOrders(s);
    var c0, p0 := Reported(s);
    hide Received, CallsForReroute, Booked, ParentBooked, Checked, ParentInv, Chain, Honours;
    forall d | d in t.h.parentOf ensures ChildHonours(t, d) {
      assert ChildHonours(s, d);
      assert ChildInv(s, d);
      if d == c {
        BookedHonours(s.h.orders[c], s.queue, c, LiveOf(s.live, c), s.durations[c]);
      } else {
        HonoursLater(s.h.orders[d], s.queue, d, LiveOf(s.live, d), s.durations[d]);
      }
      assert LiveOf(t.live, d) == LiveOf(s.live, d);
    }
  }

  lemma HonoursLater(o: Order, queue: seq<Report>, id: nat, l: Option<Live>, d: Duration)
    requires queue != [] && Honours(d, o, queue, id, l)
    ensures Honours(d, o, queue[1..], id, l)
  {}

  lemma HandledKeeps(s: System)
    requires Inv(s) && s.queue != []
    ensures Inv(Handled(s))
  {
    var t := Handled(s);
    HandledKnown(s);
    HandledHonours(s);
    forall d | d in t.h.parentOf ensures ChildInv(t, d) {
      HandledChild(s, d);
    }
    forall q | q in t.original ensures ParentInv(t, q) {
      if q == s.h.parentOf[s.queue[0].id] {
        HandledParent(s);
      } else {
        HandledOtherParent(s, q);
      }
    }
  }

  // ---- Rerouting ----

  /** A child with nothing under way: finished at its venue, every report handled. */
  predicate Idle(s: System, c: nat) {
    c in s.h.orders && Terminal(s.h.orders[c].state) && c !in s.live && NoReports(s.queue, c)
  }

  /** No reroute fires while a child is live: every child is finished, its venue no longer works it, and none of its
      reports is under way. What is routed again is exactly what the client asked for less what was ever filled. */
  lemma RerouteIsQuiet(s: System) returns (p: nat)
    requires Inv(s) && s.queue != [] && Received(s.h, s.queue[0]).reroute.Some?
    ensures p == Received(s.h, s.queue[0]).reroute.value && p in s.original && p in s.h.kids
    ensures var t := Handled(s);
            && p in t.h.orders && p in t.h.kids
            && (forall k | 0 <= k < |t.h.kids[p]| :: Idle(t, t.h.kids[p][k]))
            && !t.h.orders[p].state.Filled?
            && 0 < t.h.orders[p].remaining == t.original[p] - SumFilled(t.h.orders, t.h.kids[p])
            && SumCap(t.h.orders, t.h.kids[p]) == SumFilled(t.h.orders, t.h.kids[p])
  {
    var t := Handled(s);
    var c, q, again := HandledOrders(s);
    var c0, p0 := Reported(s);
    p := q;
    HandledKeeps(s);
    assert ParentInv(t, p);
    assert AllTerminal(t.h, p) by {
      HandledTerminal(s.h, t.h, c, p, Booked(s.h.orders[c], s.queue[0]), ParentBooked(s.h.orders[p], s.queue[0]));
    }
    AllIdle(t, p);
  }

  /** The parent's own record has no say in whether its children are finished. */
  lemma HandledTerminal(h: Handler, h': Handler, c: nat, p: nat, o: Order, parent: Order)
    requires AllTerminal(h.(orders := h.orders[c := o][p := parent]), p) && h'.kids == h.kids && p in h'.orders
    requires h'.orders == h.orders[c := o][p := h'.orders[p]] && (p in h.kids ==> p !in h.kids[p])
    ensures AllTerminal(h', p)
  {}

  lemma AllIdle(t: System, p: nat)
    requires Inv(t) && p in t.original && p in t.h.kids && AllTerminal(t.h, p)
    ensures forall k | 0 <= k < |t.h.kids[p]| :: Idle(t, t.h.kids[p][k])
    ensures SumCap(t.h.orders, t.h.kids[p]) == SumFilled(t.h.orders, t.h.kids[p])
  {
    assert ParentInv(t, p);
    forall k | 0 <= k < |t.h.kids[p]| ensures Idle(t, t.h.kids[p][k]) {
      var d := t.h.kids[p][k];
      assert ChildInv(t, d);
      ChainDone(t.h.orders[d], t.queue, d, LiveOf(t.live, d));
    }
    SumsEqual(t.h.orders, t.h.kids[p]);
  }

  lemma RetrackedChildren(s: System, t: System, p: nat)
    requires Inv(s) && p in s.original && p !in s.h.parentOf && p in s.h.orders && p in s.h.kids
    requires exists o :: t == s.(h := Tracked(s.h, p, o))
    ensures Children(t) && Honoured(t)
  {
    forall c | c in s.h.parentOf ensures c !in t.original {
      assert ChildInv(s, c);
    }
    SameChildren(s, t);
    hide Inv;
  }

  lemma Retracked(s: System, p: nat)
    requires Inv(s) && p in s.original && p in s.h.orders && s.h.orders[p].remaining > 0
    ensures var o := s.h.orders[p];
            Inv(s.(h := Tracked(s.h, p, Order(o.remaining, 0, o.remaining, o.avgPrice, PendingNew))))
  {
    var o := s.h.orders[p];
    var t := s.(h := Tracked(s.h, p, Order(o.remaining, 0, o.remaining, o.avgPrice, PendingNew)));
    assert ParentInv(s, p);
    RetrackedChildren(s, t, p);
    RetrackedParent(s, t, p);
    hide Honoured, Children, Chain, ParentInv;
    forall q | q in t.original ensures ParentInv(t, q) {
      if q != p {
        RetrackedOther(s, t, p, q);
      }
    }
  }

  lemma RetrackedOther(s: System, t: System, p: nat, q: nat)
    requires Inv(s) && p in s.original && p !in s.h.parentOf && p in s.h.kids && q in s.original && q != p
    requires exists o :: t == s.(h := Tracked(s.h, p, o))
    ensures ParentInv(t, q)
  {
    assert ParentInv(s, q);
    OtherParent(s, t, q);
  }

  /** What the parent has left stays what its children left, and it starts with nothing filled. */
  lemma RetrackedParent(s: System, t: System, p: nat)
    requires ParentInv(s, p) && s.h.orders[p].remaining > 0 && t == s.(h := Tracked(s.h, p, Again(s.h.orders[p])))
    ensures ParentInv(t, p)
  {
    SumsSame(s.h.orders, t.h.orders, s.h.kids[p]);
  }

  /** Routing again what every finished child left keeps the invariant. */
  lemma ReroutedKeeps(s: System, p: nat, passed: bool, slices: seq<Slice>)
    requires Inv(s) && p in s.original && p in s.h.orders && p in s.h.kids && s.h.orders[p].remaining > 0
    requires SumCap(s.h.orders, s.h.kids[p]) + s.h.orders[p].remaining <= s.original[p]
    requires passed ==> SlicesOk(slices, s.h.orders[p].remaining)
    ensures Inv(Rerouted(s, p, passed, slices)) && Rerouted(s, p, passed, slices).original == s.original
  {
    if passed {
      var o := s.h.orders[p];
      var t := s.(h := Tracked(s.h, p, Order(o.remaining, 0, o.remaining, o.avgPrice, PendingNew)));
      assert ParentInv(s, p);
      Retracked(s, p);
      SumsSame(s.h.orders, t.h.orders, s.h.kids[p]);
      PlacedAllKeeps(t, p, slices);
    }
  }

  /** What the router is trusted for, should this report lead to a reroute. */
  ghost predicate RouteOk(s: System, passed: bool, slices: seq<Slice>)
    requires s.queue != []
  {
    var e := Received(s.h, s.queue[0]);
    passed && e.reroute.Some? && e.reroute.value in e.h.orders ==>
      SlicesOk(slices, e.h.orders[e.reroute.value].remaining)
  }

  lemma DeliveredKeeps(s: System, passed: bool, slices: seq<Slice>)
    requires Inv(s) && s.queue != [] && RouteOk(s, passed, slices)
    ensures Inv(Delivered(s, passed, slices))
  {
    HandledKeeps(s);
    if Received(s.h, s.queue[0]).reroute.Some? {
      var p := RerouteIsQuiet(s);
      ReroutedKeeps(Handled(s), p, passed, slices);
    }
  }

  lemma SubmittedKeeps(s: System, quantity: int, passed: bool, slices: seq<Slice>)
    requires Inv(s) && quantity > 0 && (passed ==> SlicesOk(slices, quantity))
    ensures Inv(Submitted(s, quantity, passed, slices))
  {
    if passed {
      ParentEntered(s, quantity);
      PlacedAllKeeps(Entered(s, quantity), s.nextId, slices);
    } else {
      Skipped(s);
    }
  }

  lemma Skipped(s: System)
    requires Inv(s)
    ensures Inv(s.(nextId := s.nextId + 1))
  {
    var t := s.(nextId := s.nextId + 1);
    forall c | c in s.h.parentOf ensures c !in t.original {
      assert ChildInv(s, c);
    }
    SameChildren(s, t);
    hide Honoured, Children;
    forall p | p in t.original ensures ParentInv(t, p) {
      assert ParentInv(s, p);
      ParentKept(s, t, p);
    }
  }

  // ---- Whole runs ----

  datatype Action =
    | Enter(quantity: int, passed: bool, slices: seq<Slice>)
    | Work(id: nat, luck: Luck)
    | Ask(id: nat)
    | Deliver(passed: bool, slices: seq<Slice>)

  /** Quantities are positive, and the router gives out no more than it was asked to place. */
  ghost predicate Allowed(s: System, a: Action) {
    match a
    case Enter(quantity, passed, slices) => quantity > 0 && (passed ==> SlicesOk(slices, quantity))
    case Work(_, _) => true
    case Ask(_) => true
    case Deliver(passed, slices) => s.queue != [] && RouteOk(s, passed, slices)
  }

  ghost function Act(s: System, a: Action): System
    requires Allowed(s, a)
  {
    match a
    case Enter(quantity, passed, slices) => Submitted(s, quantity, passed, slices)
    case Work(id, luck) => Worked(s, id, luck)
    case Ask(id) => CancelAsked(s, id)
    case Deliver(passed, slices) => Delivered(s, passed, slices)
  }

  /** Running the actions from s leads to t. */
  ghost predicate Reaches(s: System, actions: seq<Action>, t: System)
    decreases |actions|
  {
    if actions == [] then s == t
    else Allowed(s, actions[0]) && Reaches(Act(s, actions[0]), actions[1..], t)
  }

  lemma ActKeeps(s: System, a: Action)
    requires Inv(s) && Allowed(s, a)
    ensures Inv(Act(s, a))
  {
    match a
    case Enter(quantity, passed, slices) => SubmittedKeeps(s, quantity, passed, slices);
    case Work(id, luck) => WorkedKeeps(s, id, luck);
    case Ask(id) => CancelAskedKeeps(s, id);
    case Deliver(passed, slices) => DeliveredKeeps(s, passed, slices);
  }

  /** All a child has been filled at its venue, reported or still under way. */
  function Executed(s: System, c: nat): int { FilledOf(s.h.orders, c) + Queued(s.queue, c) }

  function SumExecuted(s: System, ks: seq<nat>): int {
    if ks == [] then 0 else SumExecuted(s, ks[..|ks| - 1]) + Executed(s, ks[|ks| - 1])
  }

  lemma {:induction false} ExecutedWithin(s: System, ks: seq<nat>)
    requires Children(s) && forall k | 0 <= k < |ks| :: ks[k] in s.h.parentOf
    ensures SumFilled(s.h.orders, ks) <= SumExecuted(s, ks) <= SumCap(s.h.orders, ks)
  {
    if ks != [] {
      ExecutedWithin(s, ks[..|ks| - 1]);
      var c := ks[|ks| - 1];
      assert ChildInv(s, c);
      ChainTotal(s.h.orders[c], s.queue, c, LiveOf(s.live, c));
    }
  }

  /** Safety: over all children of an order, in all its reroutes, no more is ever executed than its client asked for;
      its completion is announced at most once, and then everything asked for has been executed; and every venue's
      record of what it filled agrees with the reports. A fill-or-kill order is executed whole or not at all, and no
      order that was not to rest is still worked once something of it was filled. */
  ghost predicate Safe(s: System) {
    && (forall p | p in s.original ::
          && p in s.h.kids && SumExecuted(s, s.h.kids[p]) <= s.original[p] && Count(s.completed, p) <= 1
          && (p in s.completed ==> SumExecuted(s, s.h.kids[p]) == s.original[p]))
    && (forall c | c in s.live :: Executed(s, c) == s.live[c].filled <= s.live[c].quantity)
    && (forall c | c in s.h.parentOf ::
          && c in s.h.orders && c in s.durations
          && (s.durations[c].FillOrKill? ==> WholeOrNothing(s, c))
          && (s.durations[c].ImmediateOrCancel? && c in s.live ==> Executed(s, c) == 0))
  }

  /** All of an order has been executed or nothing, and its record knows of all of it or of nothing. */
  predicate WholeOrNothing(s: System, c: nat)
    requires c in s.h.orders
  {
    var o := s.h.orders[c];
    && (Executed(s, c) == 0 || Executed(s, c) == o.quantity)
    && (o.filled == 0 || o.filled == o.quantity) && (c in s.live ==> Executed(s, c) == 0)
  }

  lemma {:induction false} QueuedWhole(queue: seq<Report>, c: nat, q: int)
    requires AllWhole(queue, c, q) && q > 0
    ensures Queued(queue, c) == 0 || Queued(queue, c) >= q
  {
    if queue != [] {
      assert queue[0].id == c ==> queue[0].lastQuantity == 0 || queue[0].lastQuantity == q;
      QueuedWhole(queue[1..], c, q);
    }
  }

  lemma HonoursDuration(s: System, c: nat)
    requires Inv(s) && c in s.h.parentOf
    ensures c in s.h.orders && c in s.durations
    ensures s.durations[c].FillOrKill? ==> WholeOrNothing(s, c)
    ensures s.durations[c].ImmediateOrCancel? && c in s.live ==> Executed(s, c) == 0
  {
    assert ChildInv(s, c) && ChildHonours(s, c);
    ChainTotal(s.h.orders[c], s.queue, c, LiveOf(s.live, c));
    if s.durations[c].FillOrKill? {
      QueuedWhole(s.queue, c, s.h.orders[c].quantity);
    }
    hide Inv, Chain;
  }

  lemma {:induction false} CountIn(log: seq<nat>, p: nat)
    requires p in log
    ensures Count(log, p) >= 1
  {
    if log[|log| - 1] != p {
      CountIn(log[..|log| - 1], p);
    }
  }

  lemma InvIsSafe(s: System)
    requires Inv(s)
    ensures Safe(s)
  {
    forall p | p in s.original
      ensures p in s.h.kids && SumExecuted(s, s.h.kids[p]) <= s.original[p] && Count(s.completed, p) <= 1
      ensures p in s.completed ==> SumExecuted(s, s.h.kids[p]) == s.original[p] {
      assert ParentInv(s, p);
      ExecutedWithin(s, s.h.kids[p]);
      if p in s.completed {
        CountIn(s.completed, p);
      }
    }
    forall c | c in s.live ensures Executed(s, c) == s.live[c].filled <= s.live[c].quantity {
      assert ChildInv(s, c);
      ChainTotal(s.h.orders[c], s.queue, c, LiveOf(s.live, c));
      ChainLive(s.h.orders[c], s.queue, c, s.live[c]);
    }
    forall c | c in s.h.parentOf
      ensures c in s.h.orders && c in s.durations
      ensures s.durations[c].FillOrKill? ==> WholeOrNothing(s, c)
      ensures s.durations[c].ImmediateOrCancel? && c in s.live ==> Executed(s, c) == 0
    {
      HonoursDuration(s, c);
    }
  }

  lemma {:induction false} RunKeeps(s: System, actions: seq<Action>, t: System)
    requires Inv(s) && Reaches(s, actions, t)
    ensures Inv(t)
    decreases |actions|
  {
    if actions != [] {
      ActKeeps(s, actions[0]);
      RunKeeps(Act(s, actions[0]), actions[1..], t);
    }
  }

  /** Every state that any run reaches is safe. */
  lemma RunsAreSafe(actions: seq<Action>, s: System)
    requires Reaches(Initial(), actions, s)
    ensures Safe(s)
  {
    InitialInv();
    RunKeeps(Initial(), actions, s);
    InvIsSafe(s);
  }

  /** In every state that any run reaches, a venue's attempt at an order does what the order asks for, and leaves all
      other orders and the reports under way alone. */
  lemma AttemptsObey(actions: seq<Action>, s: System, id: nat, luck: Luck)
    requires Reaches(Initial(), actions, s) && id in s.live
    ensures var t := Worked(s, id, luck);
            && s.queue <= t.queue && Obeys(id, s.live[id], luck, t.queue[|s.queue|..], LiveOf(t.live, id))
            && t.live - {id} == s.live - {id}
            && id in s.durations && s.live[id].duration == s.durations[id]
  {
    InitialInv();
    RunKeeps(Initial(), actions, s);
    assert ChildInv(s, id) && ChildHonours(s, id);
    ChainLive(s.h.orders[id], s.queue, id, s.live[id]);
    hide Inv, ChildInv, Chain, Reaches;
    WorkedObeys(s, id, luck);
  }

  lemma WorkedObeys(s: System, id: nat, luck: Luck)
    requires id in s.live && s.live[id].filled < s.live[id].quantity
    ensures var t := Worked(s, id, luck);
            && s.queue <= t.queue && Obeys(id, s.live[id], luck, t.queue[|s.queue|..], LiveOf(t.live, id))
            && t.live - {id} == s.live - {id}
  {
    AttemptObeys(id, s.live[id], luck);
    assert (s.queue + Attempt(id, s.live[id], luck).reports)[|s.queue|..] == Attempt(id, s.live[id], luck).reports;
    hide Obeys, Attempt;
  }

  /** What a client submits reaches the venues: the parent is tracked for its quantity, and every slice of it. */
  lemma SubmittedLaunches(s: System, quantity: int, slices: seq<Slice>)
    requires Inv(s)
    ensures var t, p := Submitted(s, quantity, true, slices), s.nextId;
            && p in t.original && t.original[p] == quantity && p in t.h.orders && t.h.orders[p].quantity == quantity
            && Launched(Entered(s, quantity), t, p, slices)
  {
    forall id | id in s.live ensures id < s.nextId {
      assert ChildInv(s, id);
    }
    PlacedAllLaunches(Entered(s, quantity), s.nextId, slices);
    PlacedAllRecord(Entered(s, quantity), s.nextId, slices);
    PlacedAllOriginal(Entered(s, quantity), s.nextId, slices);
    hide Inv, PlacedAll, Launched;
  }

  /** So does what is routed again. */
  lemma ReroutedLaunches(s: System, p: nat, slices: seq<Slice>)
    requires Inv(s) && p in s.original && p in s.h.orders
    ensures var t := s.(h := Tracked(s.h, p, Again(s.h.orders[p])));
            Launched(t, Rerouted(s, p, true, slices), p, slices)
  {
    assert ParentInv(s, p);
    forall id | id in s.live ensures id < s.nextId {
      assert ChildInv(s, id);
    }
    PlacedAllLaunches(s.(h := Tracked(s.h, p, Again(s.h.orders[p]))), p, slices);
    hide Inv, PlacedAll, Launched;
  }

  lemma {:induction false} PlacedAllOriginal(s: System, p: nat, slices: seq<Slice>)
    ensures PlacedAll(s, p, slices).original == s.original
  {
    if slices != [] {
      PlacedAllOriginal(s, p, slices[..|slices| - 1]);
    }
  }

  // ---- Exactly when a reroute fires, and when it never will ----

  /** A report leads to a reroute exactly when it cancels or rejects its child and leaves no child of the parent
      unfinished, whoever asked for the cancel. */
  lemma RerouteExactly(s: System) returns (c: nat, p: nat)
    requires Inv(s) && s.queue != []
    ensures c == s.queue[0].id && c in s.h.orders && c in s.h.parentOf && p == s.h.parentOf[c] && p in s.h.kids
    ensures var o := Booked(s.h.orders[c], s.queue[0]);
            Received(s.h, s.queue[0]).reroute == Some(p)
            <==> (o.state.Canceled? || o.state.Rejected?) && AllTerminal(Handled(s).h, p)
  {
    var again: bool;
    c, p, again := HandledOrders(s);
    var c0, p0 := Reported(s);
    KidsOnly(s, p);
    var o, parent := Booked(s.h.orders[c], s.queue[0]), ParentBooked(s.h.orders[p], s.queue[0]);
    var h2 := s.h.(orders := s.h.orders[c := o][p := parent]);
    SameTerminal(Handled(s).h, h2, p);
    BookedOk(s.h.orders[c], s.queue[0]);
    EndsUnfilled(s.h.orders[c], s.h.orders[p], s.queue[0]);
  }

  lemma SameTerminal(h: Handler, h': Handler, p: nat)
    requires h.kids == h'.kids && p in h.kids && p !in h.kids[p] && h.orders.Keys == h'.orders.Keys
    requires forall c | c in h.orders && c != p :: h.orders[c] == h'.orders[c]
    ensures AllTerminal(h, p) <==> AllTerminal(h', p)
  {}

  /** A report that ends child o unfilled fills nothing, so its parent p stays unfinished. */
  lemma EndsUnfilled(o: Order, p: Order, r: Report)
    requires ChildOk(o) && Expected(o, r) && p.filled < p.quantity && (p.state.PendingNew? || p.state.PartiallyFilled?)
    ensures var b := Booked(o, r);
            b.state.Canceled? || b.state.Rejected? <==> Terminal(b.state) && !b.state.Filled?
    ensures var b := Booked(o, r);
            b.state.Canceled? || b.state.Rejected? ==> ParentBooked(p, r) == p && !Terminal(p.state)
                                                       && p.quantity - p.filled > 0
  {}

  lemma KidsOnly(s: System, p: nat)
    requires Inv(s) && p in s.original
    ensures p in s.h.kids && p !in s.h.kids[p]
  {
    assert ParentInv(s, p);
  }

  /** A child unfinished in the handler's books, of which no more will ever be heard. */
  predicate Lost(s: System, c: nat) {
    && c in s.h.parentOf && c in s.h.orders && !Terminal(s.h.orders[c].state) && c !in s.live && NoReports(s.queue, c)
  }

  /** A rejection loses the child exactly when the child was partially filled. */
  lemma RejectionLoses(s: System) returns (c: nat)
    requires Inv(s) && s.queue != [] && s.queue[0].state.Rejected?
    ensures c == s.queue[0].id && c in s.h.orders
    ensures Lost(Handled(s), c) <==> s.h.orders[c].state.PartiallyFilled?
  {
    var p, again;
    c, p, again := HandledOrders(s);
    var c0, p0 := Reported(s);
    RejectedLast(s.h.orders[c], s.queue, c, LiveOf(s.live, c));
    hide Inv, Received, CallsForReroute, ChildInv, ParentInv, Chain, Expected, Booked, ParentBooked, Checked;
    assert Handled(s).h.orders[c] == Booked(s.h.orders[c], s.queue[0]);
  }

  lemma RejectedLast(o: Order, queue: seq<Report>, id: nat, l: Option<Live>)
    requires queue != [] && queue[0].id == id && queue[0].state.Rejected? && Chain(o, queue, id, l)
    ensures l.None? && NoReports(queue[1..], id)
    ensures Terminal(Booked(o, queue[0]).state) <==> !o.state.PartiallyFilled?
  {}

  /** What placing slices for parent p leaves alone. */
  lemma {:induction false} PlacedAllOther(s: System, p: nat, slices: seq<Slice>, c: nat, q: nat)
    requires c < s.nextId && Lost(s, c) && s.h.parentOf[c] == q && q != p && q in s.h.kids
    ensures var t := PlacedAll(s, p, slices);
            c < t.nextId && Lost(t, c) && t.h.parentOf[c] == q && q in t.h.kids && t.h.kids[q] == s.h.kids[q]
            && t.completed == s.completed
  {
    if slices != [] {
      PlacedAllOther(s, p, slices[..|slices| - 1], c, q);
    }
  }

  /** While child c of parent p is lost: p gets no new children and is not completed. */
  ghost predicate Stranded(s: System, c: nat, p: nat, ks: seq<nat>) {
    Lost(s, c) && s.h.parentOf[c] == p && p in s.h.kids && s.h.kids[p] == ks && p !in s.completed
  }

  lemma LostUncompleted(s: System, c: nat)
    requires Inv(s) && Lost(s, c)
    ensures var p := s.h.parentOf[c]; p in s.h.kids && p !in s.completed && c in s.h.kids[p]
  {
    assert ChildInv(s, c);
    var p := s.h.parentOf[c];
    assert ParentInv(s, p);
    ParentUnfilled(s, p, c);
    if p in s.completed {
      CountIn(s.completed, p);
    }
  }

  lemma LostHandled(s: System, c: nat, p: nat, ks: seq<nat>)
    requires Inv(s) && s.queue != [] && Stranded(s, c, p, ks)
    ensures Lost(Handled(s), c) && Handled(s).h.parentOf[c] == p && p in Handled(s).h.kids && Handled(s).h.kids[p] == ks
    ensures Received(s.h, s.queue[0]).reroute != Some(p)
  {
    var c1, p1, again := HandledOrders(s);
    var c2, p2 := Reported(s);
    assert ChildInv(s, c);
    LostUncompleted(s, c);
    assert Lost(Handled(s), c);
    if again && p1 == p {
      var c3, p3 := RerouteExactly(s);
      NotAllTerminal(Handled(s), c, p);
    }
  }

  lemma NotAllTerminal(s: System, c: nat, p: nat)
    requires Lost(s, c) && p in s.h.kids && c in s.h.kids[p]
    ensures !AllTerminal(s.h, p)
  {
    var k :| 0 <= k < |s.h.kids[p]| && s.h.kids[p][k] == c;
    assert s.h.kids[p][k] in s.h.orders;
  }

  lemma EnterStrands(s: System, quantity: int, slices: seq<Slice>, c: nat, p: nat, ks: seq<nat>)
    requires Stranded(s, c, p, ks) && c < s.nextId && p < s.nextId
    ensures Stranded(Submitted(s, quantity, true, slices), c, p, ks)
  {
    PlacedAllOther(Entered(s, quantity), s.nextId, slices, c, p);
  }

  lemma WorkStrands(s: System, id: nat, luck: Luck, c: nat, p: nat, ks: seq<nat>)
    requires Inv(s) && Stranded(s, c, p, ks)
    ensures Stranded(Worked(s, id, luck), c, p, ks)
  {
    if id in s.live {
      assert ChildInv(s, id);
      ChainLive(s.h.orders[id], s.queue, id, s.live[id]);
      var m := AttemptFollows(id, s.live[id], luck);
    }
  }

  lemma RerouteStrands(t: System, q: nat, slices: seq<Slice>, c: nat, p: nat, ks: seq<nat>)
    requires Stranded(t, c, p, ks) && c < t.nextId && q in t.h.orders && q != p && q != c
    ensures Stranded(Rerouted(t, q, true, slices), c, p, ks)
  {
    var o := t.h.orders[q];
    PlacedAllOther(t.(h := Tracked(t.h, q, Order(o.remaining, 0, o.remaining, o.avgPrice, PendingNew))), q, slices, c,
                   p);
  }

  lemma HandledStrands(s: System, c: nat, p: nat, ks: seq<nat>)
    requires Inv(s) && s.queue != [] && Stranded(s, c, p, ks)
    ensures Stranded(Handled(s), c, p, ks) && c < Handled(s).nextId && c !in s.original
    ensures Received(s.h, s.queue[0]).reroute != Some(p)
  {
    hide Received;
    LostHandled(s, c, p, ks);
    HandledKeeps(s);
    assert ChildInv(s, c);
    LostUncompleted(Handled(s), c);
  }

  lemma DeliverStrands(s: System, passed: bool, slices: seq<Slice>, c: nat, p: nat, ks: seq<nat>)
    requires Inv(s) && s.queue != [] && Stranded(s, c, p, ks)
    ensures Stranded(Delivered(s, passed, slices), c, p, ks)
  {
    HandledStrands(s, c, p, ks);
    hide Inv, ChildInv, ParentInv, Received, Lost;
    var t := Handled(s);
    if Received(s.h, s.queue[0]).reroute.Some? && passed {
      var q := RerouteIsQuiet(s);
      RerouteStrands(t, q, slices, c, p, ks);
    }
  }

  lemma StrandedStep(s: System, a: Action, c: nat, p: nat, ks: seq<nat>)
    requires Inv(s) && Allowed(s, a) && Stranded(s, c, p, ks)
    ensures Stranded(Act(s, a), c, p, ks)
  {
    match a
    case Enter(quantity, passed, slices) =>
      if passed {
        assert ChildInv(s, c);
        assert ParentInv(s, p);
        EnterStrands(s, quantity, slices, c, p, ks);
      }
    case Work(id, luck) => WorkStrands(s, id, luck, c, p, ks);
    case Ask(id) =>
    case Deliver(passed, slices) => DeliverStrands(s, passed, slices, c, p, ks);
  }

  /** Once a child is lost, its parent is never routed again and never completed, in any run. */
  lemma {:induction false} LostForever(s: System, actions: seq<Action>, t: System, c: nat, p: nat, ks: seq<nat>)
    requires Inv(s) && Reaches(s, actions, t) && Stranded(s, c, p, ks)
    ensures Stranded(t, c, p, ks)
    decreases |actions|
  {
    if actions != [] {
      ActKeeps(s, actions[0]);
      StrandedStep(s, actions[0], c, p, ks);
      LostForever(Act(s, actions[0]), actions[1..], t, c, p, ks);
    }
  }

  // ---- What a reroute forgets ----

  /** The record of a parent that is routed again: what is left, as if nothing had been filled. */
  function Again(o: Order): Order { Order(o.remaining, 0, o.remaining, o.avgPrice, PendingNew) }

  lemma {:induction false} PlacedAllRecord(s: System, p: nat, slices: seq<Slice>)
    requires p in s.h.orders && p < s.nextId
    ensures var t := PlacedAll(s, p, slices); p in t.h.orders && t.h.orders[p] == s.h.orders[p] && p < t.nextId
  {
    if slices != [] {
      PlacedAllRecord(s, p, slices[..|slices| - 1]);
    }
  }

  lemma RerouteRecord(s: System, p: nat, slices: seq<Slice>)
    requires Inv(s) && p in s.original && p in s.h.orders
    ensures var t := Rerouted(s, p, true, slices); p in t.h.orders && t.h.orders[p] == Again(s.h.orders[p])
  {
    assert ParentInv(s, p);
    PlacedAllRecord(s.(h := Tracked(s.h, p, Again(s.h.orders[p]))), p, slices);
  }

  lemma FloorIs(a: int, n: int, p: int)
    requires n > 0 && a >= 0 && p >= 0
    ensures a / n == p <==> 0 <= a - p * n < n
  {
    if 0 <= a - p * n < n {
      UniqueQuotient(a, n, p, a / n);
    }
  }

  lemma NonnegProduct(a: int, b: int)
    requires a >= 0 && b >= 0
    ensures a * b >= 0
  {}

  lemma NextMultiple(p: int, q: int, n: int)
    requires p < q && n > 0
    ensures q * n >= p * n + n
  {
    NonnegProduct(q - p - 1, n);
    assert (q - p - 1) * n == q * n - p * n - n;
  }

  lemma UniqueQuotient(a: int, n: int, p: int, q: int)
    requires n > 0 && 0 <= a - p * n < n && 0 <= a - q * n < n
    ensures p == q
  {
    if p < q {
      NextMultiple(p, q, n);
    } else if q < p {
      NextMultiple(q, p, n);
    }
  }

  /** The first fill after a reroute makes its own price the parent's average. That is the average over
      all fills exactly if nothing had been filled before, or the fills before exceed the new price by
      less than truncation hides. */
  lemma RerouteForgets(o: Order, r: Report)
    requires o.filled >= 0 && o.avgPrice >= 0 && r.lastQuantity > 0 && r.lastPrice >= 0
    ensures ParentBooked(Again(o), r).avgPrice == r.lastPrice
    ensures ParentBooked(Again(o), r).avgPrice == ParentBooked(o, r).avgPrice <==>
            0 <= (o.avgPrice - r.lastPrice) * o.filled < o.filled + r.lastQuantity
  {
    var f, q, p := o.filled, r.lastQuantity, r.lastPrice;
    NonnegProduct(p, q);
    NonnegProduct(o.avgPrice, f);
    FloorIs(p * q, q, p);
    FloorIs(o.avgPrice * f + p * q, f + q, p);
    CrossTerms(o.avgPrice, p, f, q);
  }

  lemma CrossTerms(a: int, p: int, f: int, q: int)
    ensures a * 0 == 0 && a * f + p * q - p * (f + q) == (a - p) * f
  {}

  /** Six filled at 100, rerouted, four more at 200: the average says 200, where 140 was paid. */
  lemma RerouteExample()
    ensures var o, r := Order(10, 6, 4, 100, PartiallyFilled), Report(7, Filled, 200, 4, 4);
            ParentBooked(Again(o), r).avgPrice == 200 && ParentBooked(o, r).avgPrice == 140
  {}
}
