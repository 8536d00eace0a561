/** The mutable gateway: the execution handler's maps, a venue's working orders, and the pipeline between them. */
module Gateways {
  import opened Lifecycle
  import opened LifecycleSafety
  import opened Options

  /** Tracks parents and children, and keeps their records by the reports that come in. */
  class ExecutionHandler {
    var orders: map<nat, Order>
    var parentToChildren: map<nat, seq<nat>>
    var childToParent: map<nat, nat>

    function View(): Handler
      reads this
    {
      Handler(orders, parentToChildren, childToParent)
    }

    constructor ()
      ensures View() == Handler(map[], map[], map[])
    {
      orders, parentToChildren, childToParent := map[], map[], map[];
    }

    method TrackOrder(id: nat, parent: Order)
      modifies this
      ensures View() == Tracked(old(View()), id, parent)
    {
      orders := orders[id := parent];
      if id !in parentToChildren {
        parentToChildren := parentToChildren[id := []];
      }
    }

    method TrackChildOrder(parentId: nat, id: nat, child: Order)
      modifies this
      ensures View() == TrackedChild(old(View()), parentId, id, child)
    {
      orders := orders[id := child];
      var children := if parentId in parentToChildren then parentToChildren[parentId] else [];
      parentToChildren := parentToChildren[parentId := children + [id]];
      childToParent := childToParent[id := parentId];
    }

    method AllChildrenTerminal(parentId: nat) returns (all: bool)
      ensures all <==> AllTerminal(View(), parentId)
    {
      all := true;
      if parentId in parentToChildren {
        var children := parentToChildren[parentId];
        var k := 0;
        while k < |children|
          invariant k <= |children|
          invariant forall j | 0 <= j < k && children[j] in orders :: Terminal(orders[children[j]].state)
        {
          if children[k] in orders && !Terminal(orders[children[k]].state) {
            return false;
          }
          k := k + 1;
        }
      }
    }

    /** Books the report on the order itself. */
    method BookOrder(r: Report)
      requires r.id in orders
      modifies `orders
      ensures orders == old(orders)[r.id := Booked(old(orders)[r.id], r)]
    {
      var o := orders[r.id];
      var state := o.state;
      match r.state {
        case Accepted => state := Apply(state, Acknowledge);
        case PartiallyFilled => state := Apply(state, PartialFill);
        case Filled => state := Apply(state, Fill);
        case Canceled =>
          if state.Accepted? || state.PartiallyFilled? {
            state := Apply(state, RequestCancel);
          }
          state := Apply(state, CancelAck);
        case Rejected => state := Apply(state, Reject);
        case Expired => state := Apply(state, Expire);
        case PendingCancel => state := Apply(state, RequestCancel);
        case PendingReplace => state := Apply(state, RequestReplace);
        case New =>
        case PendingNew =>
      }
      o := o.(state := state);
      if r.lastQuantity > 0 {
        var before := o.filled;
        o := o.(filled := r.cumQuantity);
        o := o.(remaining := o.quantity - o.filled);
        if o.filled > 0 {
          o := o.(avgPrice := Quotient(o.avgPrice * before + r.lastPrice * r.lastQuantity, o.filled));
        }
      }
      orders := orders[r.id := o];
    }

    /** Books a child's fill on its parent. */
    method UpdateParentFromChild(parentId: nat, r: Report)
      requires parentId in orders && r.lastQuantity > 0
      modifies `orders
      ensures orders == old(orders)[parentId := ParentBooked(old(orders)[parentId], r)]
    {
      var parent := orders[parentId];
      var before := parent.filled;
      parent := parent.(filled := parent.filled + r.lastQuantity);
      parent := parent.(remaining := parent.quantity - parent.filled);
      if parent.filled > 0 {
        parent := parent.(avgPrice := Quotient(parent.avgPrice * before + r.lastPrice * r.lastQuantity, parent.filled));
      }
      if parent.state.Accepted? || parent.state.PendingNew? || parent.state.New? {
        parent := parent.(state := PartiallyFilled);
      }
      orders := orders[parentId := parent];
    }

    /** Handles one execution report; the deferred callbacks are the results. */
    method OnExecutionReport(r: Report) returns (reroute: Option<nat>, complete: Option<nat>)
      modifies `orders
      ensures Effect(View(), reroute, complete) == Received(old(View()), r)
    {
      reroute, complete := None, None;
      if r.id !in orders || r.state.New? || r.state.PendingNew? {
        return;
      }
      BookOrder(r);
      if r.id !in childToParent {
        if orders[r.id].state.Filled? {
          complete := Some(r.id);
        }
        return;
      }
      var parentId := childToParent[r.id];
      if parentId !in orders {
        return;
      }
      if r.lastQuantity > 0 {
        UpdateParentFromChild(parentId, r);
      }
      ghost var booked := old(orders)[r.id := Booked(old(orders)[r.id], r)];
      assert View() == old(View()).(orders := booked[parentId := ParentBooked(booked[parentId], r)]);
      ghost var h2 := View();
      if Terminal(orders[r.id].state) && !orders[r.id].state.Filled? && !Terminal(orders[parentId].state) {
        var remaining := orders[parentId].quantity - orders[parentId].filled;
        if remaining > 0 {
          var allTerminal := AllChildrenTerminal(parentId);
          if allTerminal {
            orders := orders[parentId := orders[parentId].(remaining := remaining)];
            reroute := Some(parentId);
          }
        }
      }
      assert reroute == if CallsForReroute(h2, h2.orders[r.id], parentId) then Some(parentId) else None;
      if orders[parentId].filled >= orders[parentId].quantity {
        orders := orders[parentId := orders[parentId].(state := Filled, remaining := 0)];
        complete := Some(parentId);
      }
      assert View() == h2.(orders := h2.orders[parentId := Checked(h2.orders[parentId], reroute.Some?)]);
    }
  }

  /** The orders in turn, each with its own luck, as far as there is luck. */
  function WorkedAll(s: System, ids: seq<nat>, lucks: seq<Luck>): System
    requires |ids| <= |lucks|
  {
    if ids == [] then s else Worked(WorkedAll(s, ids[..|ids| - 1], lucks), ids[|ids| - 1], lucks[|ids| - 1])
  }

  lemma {:induction false} WorkedAllKeeps(s: System, ids: seq<nat>, lucks: seq<Luck>)
    requires |ids| <= |lucks| && Inv(s)
    ensures Inv(WorkedAll(s, ids, lucks))
  {
    if ids != [] {
      WorkedAllKeeps(s, ids[..|ids| - 1], lucks);
      WorkedKeeps(WorkedAll(s, ids[..|ids| - 1], lucks), ids[|ids| - 1], lucks[|ids| - 1]);
    }
  }

  lemma {:induction false} WorkedAllFrame(s: System, ids: seq<nat>, lucks: seq<Luck>)
    requires |ids| <= |lucks|
    ensures WorkedAll(s, ids, lucks) == s.(live := WorkedAll(s, ids, lucks).live,
                                        queue := WorkedAll(s, ids, lucks).queue)
  {
    if ids != [] {
      WorkedAllFrame(s, ids[..|ids| - 1], lucks);
    }
  }

  /** Another order's turn leaves an order alone. */
  lemma WorkedOther(s: System, id: nat, luck: Luck, c: nat)
    requires c != id
    ensures LiveOf(Worked(s, id, luck).live, c) == LiveOf(s.live, c)
  {}

  /** No order that is asked to cancel, or is not to rest, is worked any more once its turn has come. */
  lemma {:induction false} CycleClears(s: System, ids: seq<nat>, lucks: seq<Luck>, id: nat)
    requires |ids| <= |lucks| && id in ids
    requires id in s.live ==>
               (s.live[id].pendingCancel || !s.live[id].duration.Resting?) && s.live[id].filled < s.live[id].quantity
    ensures id !in WorkedAll(s, ids, lucks).live
  {
    var front, n := ids[..|ids| - 1], |ids| - 1;
    assert ids == front + [ids[n]];
    var t := WorkedAll(s, front, lucks);
    if id in front {
      CycleClears(s, front, lucks, id);
      if id != ids[n] {
        WorkedOther(t, ids[n], lucks[n], id);
      }
    } else {
      NotItsTurn(s, front, lucks, id);
      if id in t.live {
        WorkedObeys(t, id, lucks[n]);
      }
    }
  }

  lemma {:induction false} NotItsTurn(s: System, ids: seq<nat>, lucks: seq<Luck>, id: nat)
    requires |ids| <= |lucks| && id !in ids
    ensures LiveOf(WorkedAll(s, ids, lucks).live, id) == LiveOf(s.live, id)
  {
    if ids != [] {
      NotItsTurn(s, ids[..|ids| - 1], lucks, id);
      WorkedOther(WorkedAll(s, ids[..|ids| - 1], lucks), ids[|ids| - 1], lucks[|ids| - 1], id);
    }
  }

  /** Cancel requests for every child the handler takes to be active. */
  function AskedAll(s: System, ids: seq<nat>): System {
    if ids == [] then s
    else
      var t, c := AskedAll(s, ids[..|ids| - 1]), ids[|ids| - 1];
      if c in s.h.orders && !Terminal(s.h.orders[c].state) then CancelAsked(t, c) else t
  }

  lemma {:induction false} AskedAllKeeps(s: System, ids: seq<nat>)
    requires Inv(s)
    ensures Inv(AskedAll(s, ids)) && AskedAll(s, ids) == s.(live := AskedAll(s, ids).live)
  {
    if ids != [] {
      AskedAllKeeps(s, ids[..|ids| - 1]);
      CancelAskedKeeps(AskedAll(s, ids[..|ids| - 1]), ids[|ids| - 1]);
    }
  }

  predicate ActiveOrder(s: System, c: nat) {
    c in s.h.orders && !Terminal(s.h.orders[c].state)
  }

  /** Exactly the active orders among those that the venue works end up with a request to cancel them. */
  lemma {:induction false} AskedAllExactly(s: System, ids: seq<nat>)
    ensures AskedAll(s, ids).live ==
            map c | c in s.live :: if c in ids && ActiveOrder(s, c) then s.live[c].(pendingCancel := true)
                                   else s.live[c]
  {
    if ids != [] {
      AskedAllExactly(s, ids[..|ids| - 1]);
      assert ids == ids[..|ids| - 1] + [ids[|ids| - 1]];
    }
  }

  /** A venue: the orders it works and the queue of their turns. */
  class SimulatedExchange {
    var active: map<nat, Live>
    var pending: seq<nat>

    constructor ()
      ensures active == map[] && pending == []
    {
      active, pending := map[], [];
    }

    /** Takes an order on and acknowledges it at once, unless its identifier is already in use. */
    method SendOrder(id: nat, quantity: int, duration: Duration) returns (reports: seq<Report>)
      modifies this
      ensures id in old(active) ==> reports == [] && active == old(active) && pending == old(pending)
      ensures id !in old(active) ==>
                && reports == [Report(id, Accepted, 0, 0, 0)] && pending == old(pending) + [id]
                && active == old(active)[id := Live(quantity, 0, duration, false)]
    {
      if id in active {
        return [];
      }
      active := active[id := Live(quantity, 0, duration, false)];
      pending := pending + [id];
      reports := [Report(id, Accepted, 0, 0, 0)];
    }

    method CancelOrder(id: nat) returns (known: bool)
      modifies `active
      ensures known <==> id in old(active)
      ensures active == if known then old(active)[id := old(active)[id].(pendingCancel := true)] else old(active)
    {
      if id !in active {
        return false;
      }
      active := active[id := active[id].(pendingCancel := true)];
      known := true;
    }

    /** One order's matching attempt; its reports, and whether it stays active. */
    method TryMatch(id: nat, luck: Luck) returns (reports: seq<Report>, keep: bool)
      requires id in active && !active[id].pendingCancel
      modifies this
      ensures var a := Attempt(id, old(active)[id], luck);
              && reports == a.reports && keep == a.stays.Some?
              && (keep ==> active == old(active)[id := a.stays.value] && pending == old(pending) + [id])
              && (!keep ==> active.Keys == old(active).Keys
                            && (forall c | c in active && c != id :: active[c] == old(active)[c])
                            && pending == old(pending))
      ensures var l := old(active)[id];
              l.filled < l.quantity ==> Obeys(id, l, luck, reports, if keep then Some(active[id]) else None)
    {
      var l := active[id];
      if l.filled < l.quantity {
        AttemptObeys(id, l, luck);
      }
      hide Obeys;
      match luck {
        case Refuse =>
          return [EndReport(id, l, Rejected)], false;
        case Miss =>
          if l.duration.FillOrKill? {
            return [EndReport(id, l, Rejected)], false;
          }
          if l.duration.ImmediateOrCancel? {
            return [EndReport(id, l, Canceled)], false;
          }
          pending := pending + [id];
          assert active == active[id := l];
          return [], true;
        case Trade(price, partial) =>
          var rest := l.quantity - l.filled;
          if l.duration.FillOrKill? {
            reports := GenerateFill(id, price, rest);
            return reports, false;
          }
          if partial.Some? && rest > 1 {
            var q := Clamp(partial.value, 1, rest - 1);
            reports := GenerateFill(id, price, q);
            if l.duration.ImmediateOrCancel? {
              reports := reports + [EndReport(id, active[id], Canceled)];
              return reports, false;
            }
            pending := pending + [id];
            return reports, true;
          }
          reports := GenerateFill(id, price, rest);
          return reports, false;
      }
    }

    method GenerateFill(id: nat, price: int, q: int) returns (reports: seq<Report>)
      requires id in active
      modifies `active
      ensures reports == [FillReport(id, old(active)[id], price, q)]
      ensures active == old(active)[id := old(active)[id].(filled := old(active)[id].filled + q)]
    {
      var l := active[id];
      active := active[id := l.(filled := l.filled + q)];
      var full := active[id].quantity - active[id].filled == 0;
      reports := [Report(id, if full then Filled else PartiallyFilled, price, q, active[id].filled)];
    }

    /** One turn of the matching cycle. */
    method Turn(queue: seq<Report>, luck: Luck, ghost s: System) returns (out: seq<Report>)
      requires pending != [] && s.live == active && s.queue == queue
      modifies this
      ensures active == Worked(s, old(pending)[0], luck).live && out == Worked(s, old(pending)[0], luck).queue
      ensures old(pending)[1..] <= pending
    {
      var id := pending[0];
      pending := pending[1..];
      out := queue;
      if id !in active {
        return;
      }
      if active[id].pendingCancel {
        out := out + [EndReport(id, active[id], Canceled)];
        active := active - {id};
      } else {
        var reports, keep := TryMatch(id, luck);
        out := out + reports;
        if !keep {
          active := active - {id};
          assert active == s.live - {id};
        }
      }
    }

    /** A matching cycle: every order that was waiting gets one turn, and its reports go to the queue. */
    method ProcessMatching(queue: seq<Report>, lucks: seq<Luck>, ghost s: System) returns (out: seq<Report>)
      requires |pending| <= |lucks| && s.live == active && s.queue == queue
      modifies this
      ensures active == WorkedAll(s, old(pending), lucks).live && out == WorkedAll(s, old(pending), lucks).queue
    {
      ghost var waiting := pending;
      var count := |pending|;
      out := queue;
      var i := 0;
      while i < count
        invariant i <= count == |waiting| && waiting[i..] <= pending
        invariant active == WorkedAll(s, waiting[..i], lucks).live && out == WorkedAll(s, waiting[..i], lucks).queue
      {
        ghost var t := WorkedAll(s, waiting[..i], lucks);
        assert pending[0] == waiting[i..][0];
        assert waiting[..i + 1][..i] == waiting[..i];
        assert waiting[i..][1..] == waiting[i + 1..];
        out := Turn(out, lucks[i], t);
        i := i + 1;
      }
      assert waiting[..count] == waiting;
    }
  }

  /** The order pipeline. */
  class Gateway {
    const handler: ExecutionHandler
    const exchange: SimulatedExchange
    var reports: seq<Report>
    var nextId: nat
    var completions: seq<nat>
    /** What the client of each parent order asked for. */
    ghost var original: map<nat, int>
    /** What each child asks of its venue. */
    ghost var durations: map<nat, Duration>

    ghost function View(): System
      reads this, handler, exchange
    {
      System(handler.View(), exchange.active, reports, nextId, original, durations, completions)
    }

    ghost predicate Valid()
      reads this, handler, exchange
    {
      Inv(View())
    }

    constructor ()
      ensures View() == Initial() && Valid() && fresh(handler) && fresh(exchange)
    {
      handler := new ExecutionHandler();
      exchange := new SimulatedExchange();
      reports, nextId, completions, original, durations := [], 1, [], map[], map[];
      new;
      InitialInv();
    }

    /** Creates, tracks and sends the child for one slice. */
    method PlaceSlice(parentId: nat, slice: Slice)
      modifies this, handler, exchange
      ensures View() == Placed(old(View()), parentId, slice)
    {
      var id := nextId;
      nextId := nextId + 1;
      durations := durations[id := slice.duration];
      var child := Order(slice.quantity, 0, slice.quantity, 0, New);
      child := child.(state := Apply(child.state, Submit));
      handler.TrackChildOrder(parentId, id, child);
      if slice.sent {
        var acks := exchange.SendOrder(id, slice.quantity, slice.duration);
        reports := reports + acks;
      }
      assert View().queue == Placed(old(View()), parentId, slice).queue;
    }

    /** Checks, tracks and routes one order, new or routed again. */
    method ProcessSingleOrder(id: nat, order: Order, passed: bool, slices: seq<Slice>)
      requires order.state.New?
      modifies this, handler, exchange
      ensures original == old(original)
      ensures var o := order.(state := PendingNew);
              View() ==
              if !passed then old(View())
              else PlacedAll(old(View()).(h := Tracked(old(View()).h, id, o)), id, slices)
    {
      var o := order.(state := Apply(order.state, Submit));
      if !passed {
        return;
      }
      handler.TrackOrder(id, o);
      ghost var s := View();
      var k := 0;
      while k < |slices|
        invariant k <= |slices| && View() == PlacedAll(s, id, slices[..k]) && original == old(original)
      {
        assert slices[..k + 1][..k] == slices[..k];
        PlaceSlice(id, slices[k]);
        k := k + 1;
      }
      assert slices[..k] == slices;
    }

    /** A client's order: its risk verdict and its slices come from the risk manager and the router. */
    method SubmitOrder(quantity: int, passed: bool, slices: seq<Slice>) returns (id: nat)
      requires Valid() && Allowed(View(), Enter(quantity, passed, slices))
      modifies this, handler, exchange
      ensures Valid() && View() == Act(old(View()), Enter(quantity, passed, slices)) && id == old(nextId)
    {
      hide Inv, SlicesOk;
      ghost var s := View();
      id := nextId;
      nextId := nextId + 1;
      if passed {
        original := original[id := quantity];
      }
      ProcessSingleOrder(id, Order(quantity, 0, quantity, 0, New), passed, slices);
      SubmittedKeeps(s, quantity, passed, slices);
    }

    /** Asks the venue to cancel every active child of an order. */
    method CancelOrder(id: nat)
      requires Valid()
      modifies exchange
      ensures Valid() && View() == old(View()).(live := exchange.active)
      ensures exchange.active.Keys == old(exchange.active).Keys
      ensures forall c | c in exchange.active ::
                exchange.active[c] ==
                if id in handler.orders && id in handler.parentToChildren && c in handler.parentToChildren[id]
                   && ActiveOrder(View(), c)
                then old(exchange.active)[c].(pendingCancel := true) else old(exchange.active)[c]
    {
      if id in handler.orders && id in handler.parentToChildren {
        ghost var s := View();
        CancelChildren(handler.parentToChildren[id], s);
        AskedAllKeeps(s, handler.parentToChildren[id]);
        AskedAllExactly(s, handler.parentToChildren[id]);
      }
    }

    method CancelChildren(children: seq<nat>, ghost s: System)
      requires s == View()
      modifies exchange
      ensures exchange.active == AskedAll(s, children).live
    {
      var k := 0;
      while k < |children|
        invariant k <= |children| && exchange.active == AskedAll(s, children[..k]).live
      {
        assert children[..k + 1][..k] == children[..k];
        if children[k] in handler.orders && !Terminal(handler.orders[children[k]].state) {
          var known := exchange.CancelOrder(children[k]);
        }
        k := k + 1;
      }
      assert children[..k] == children;
    }

    /** One matching cycle of the venue. */
    method RunMatching(lucks: seq<Luck>)
      requires Valid() && |exchange.pending| <= |lucks|
      modifies `reports, exchange
      ensures Valid() && View() == WorkedAll(old(View()), old(exchange.pending), lucks)
    {
      ghost var s, waiting := View(), exchange.pending;
      reports := exchange.ProcessMatching(reports, lucks, s);
      WorkedAllKeeps(s, waiting, lucks);
      WorkedAllFrame(s, waiting, lucks);
    }

    /** Handles the oldest report, completing or routing its parent again if that is called for. */
    method DeliverReport(passed: bool, slices: seq<Slice>)
      requires Valid() && reports != [] && Allowed(View(), Deliver(passed, slices))
      modifies this, handler, exchange
      ensures Valid() && View() == Act(old(View()), Deliver(passed, slices))
    {
      hide Inv, Allowed, Received, PlacedAll;
      ghost var s := View();
      ActKeeps(s, Deliver(passed, slices));
      var r := reports[0];
      reports := reports[1..];
      var reroute, complete := handler.OnExecutionReport(r);
      if complete.Some? {
        completions := completions + [complete.value];
      }
      if reroute.Some? && reroute.value in handler.orders {
        var parent := handler.orders[reroute.value];
        var again := parent.(quantity := parent.remaining, filled := 0, state := New);
        ProcessSingleOrder(reroute.value, again, passed, slices);
      }
      assert View() == Delivered(s, passed, slices);
    }
  }
}
