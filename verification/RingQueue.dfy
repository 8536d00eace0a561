/**
 The bounded multi-producer single-consumer ring, as a step system: each atomic load, compare-and-swap and store of
 `try_push` and `try_pop` is one step, taken by any producer or the consumer in any order.
 */
module RingQueue {

  /** A slot: the sequence number that coordinates its users, and the item it holds. */
  datatype Cell<T> = Cell(sequence: nat, data: T)

  /**
   Where a producer stands inside try_push; when idle, how its last call ended. `sawFull` is a record for the
   specification: whether all positions were occupied at the instant the sequence was loaded.
   */
  datatype Producer<T> =
    | Idle(ok: bool, sawFull: bool)
    | HasPos(item: T, pos: nat)
    | HasSeq(item: T, pos: nat, seen: nat, sawFull: bool)
    | Claimed(item: T, pos: nat)
    | Written(item: T, pos: nat)
    | Reload(item: T)

  /** Where the consumer stands inside try_pop. */
  datatype Consumer<T> =
    | Waiting
    | SeenSeq(seen: nat)
    | Ready(pos: nat)
    | Copied(pos: nat, item: T)
    | Released(pos: nat, item: T)

  /** One claimed position: the item and the producer that claimed it. */
  datatype Claim<T> = Claim(item: T, producer: nat)

  /**
   The shared memory and every thread. `claims` and `popped` record, for the specification only, the items in the order
   their positions were claimed and the items handed to the consumer, `succeeded` the items of each producer's
   successful pushes in call order; `consumed` counts slots the consumer has released.
   */
  datatype State<T> = State(
    cells: seq<Cell<T>>, writePos: nat, readPos: nat,
    producers: seq<Producer<T>>, consumer: Consumer<T>,
    claims: seq<Claim<T>>, popped: seq<T>, succeeded: seq<seq<T>>, consumed: nat)
  {
    function Capacity(): nat { |cells| }
    predicate Full() { writePos == consumed + |cells| }
  }

  /** One atomic action. */
  datatype Action<T> =
    | StartPush(t: nat, item: T)
    | LoadSequence(t: nat)
    | Decide(t: nat, casFails: bool)
    | WriteData(t: nat)
    | Publish(t: nat)
    | ReloadPos(t: nat)
    | PopLoadSequence
    | PopCompare
    | PopCopy
    | PopRelease
    | PopAdvance

  predicate WellShaped<T>(s: State<T>) { s.Capacity() > 0 && |s.succeeded| == |s.producers| }

  /** Whether the acting thread stands at the action. */
  predicate Enabled<T>(s: State<T>, a: Action<T>) {
    match a
    case StartPush(t, _) => t < |s.producers| && s.producers[t].Idle?
    case LoadSequence(t) => t < |s.producers| && s.producers[t].HasPos?
    case Decide(t, _) => t < |s.producers| && s.producers[t].HasSeq?
    case WriteData(t) => t < |s.producers| && s.producers[t].Claimed?
    case Publish(t) => t < |s.producers| && s.producers[t].Written?
    case ReloadPos(t) => t < |s.producers| && s.producers[t].Reload?
    case PopLoadSequence => s.consumer.Waiting?
    case PopCompare => s.consumer.SeenSeq?
    case PopCopy => s.consumer.Ready?
    case PopRelease => s.consumer.Copied?
    case PopAdvance => s.consumer.Released?
  }

  function SetProducer<T>(s: State<T>, t: nat, p: Producer<T>): State<T>
    requires t < |s.producers|
  {
    s.(producers := s.producers[t := p])
  }

  /**
   The branch on seen - pos. Zero: try to claim by compare-and-swap (which fails when the cursor has moved, and may
   fail spuriously); negative: the queue is full; positive: load the cursor again.
   */
  function DecideStep<T>(s: State<T>, t: nat, p: Producer<T>, casFails: bool): State<T>
    requires t < |s.producers| && p.HasSeq?
  {
    if p.seen == p.pos then
      if s.writePos == p.pos && !casFails then
        SetProducer(s, t, Claimed(p.item, p.pos)).(writePos := p.pos + 1, claims := s.claims + [Claim(p.item, t)])
      else SetProducer(s, t, HasPos(p.item, s.writePos))
    else if p.seen < p.pos then SetProducer(s, t, Idle(false, p.sawFull))
    else SetProducer(s, t, Reload(p.item))
  }

  function Apply<T>(s: State<T>, a: Action<T>): (s': State<T>)
    requires WellShaped(s) && Enabled(s, a)
    ensures s'.Capacity() == s.Capacity() && |s'.producers| == |s.producers| && |s'.succeeded| == |s.succeeded|
  {
    var c := s.Capacity();
    match a
    case StartPush(t, item) => SetProducer(s, t, HasPos(item, s.writePos))
    case LoadSequence(t) =>
      var p := s.producers[t];
      SetProducer(s, t, HasSeq(p.item, p.pos, s.cells[p.pos % c].sequence, s.Full()))
    case Decide(t, casFails) => DecideStep(s, t, s.producers[t], casFails)
    case WriteData(t) =>
      var p := s.producers[t];
      var i := p.pos % c;
      SetProducer(s, t, Written(p.item, p.pos)).(cells := s.cells[i := s.cells[i].(data := p.item)])
    case Publish(t) =>
      var p := s.producers[t];
      var i := p.pos % c;
      SetProducer(s, t, Idle(true, false)).(
      cells := s.cells[i := s.cells[i].(sequence := p.pos + 1)],
      succeeded := s.succeeded[t := s.succeeded[t] + [p.item]])
    case ReloadPos(t) => SetProducer(s, t, HasPos(s.producers[t].item, s.writePos))
    case PopLoadSequence => s.(consumer := SeenSeq(s.cells[s.readPos % c].sequence))
    case PopCompare =>
      s.(consumer := if s.consumer.seen == s.readPos + 1 then Ready(s.readPos) else Waiting)
    case PopCopy => s.(consumer := Copied(s.consumer.pos, s.cells[s.consumer.pos % c].data))
    case PopRelease =>
      var i := s.consumer.pos % c;
      s.(consumer := Released(s.consumer.pos, s.consumer.item),
      cells := s.cells[i := s.cells[i].(sequence := s.consumer.pos + c)],
      consumed := s.consumer.pos + 1,
      popped := s.popped + [s.consumer.item])
    case PopAdvance => s.(consumer := Waiting, readPos := s.consumer.pos + 1)
  }

  /** A fresh queue: each slot's sequence is its index. */
  predicate Initial<T>(s: State<T>) {
    && WellShaped(s)
    && (forall i | 0 <= i < s.Capacity() :: s.cells[i].sequence == i)
    && s.writePos == 0 && s.readPos == 0
    && (forall t | 0 <= t < |s.producers| :: s.producers[t] == Idle(true, false) && s.succeeded[t] == [])
    && s.consumer == Waiting && s.claims == [] && s.popped == [] && s.consumed == 0
  }

  /** A run: the enabled actions, in any interleaving, lead from s to s'. */
  predicate Reaches<T(==)>(s: State<T>, actions: seq<Action<T>>, s': State<T>)
    decreases |actions|
  {
    if actions == [] then s == s'
    else WellShaped(s) && Enabled(s, actions[0]) && Reaches(Apply(s, actions[0]), actions[1..], s')
  }

  // ---- The invariant ----

  /** A producer that has claimed a position and not yet published it. */
  predicate Owns<T>(p: Producer<T>, pos: nat) {
    (p.Claimed? || p.Written?) && p.pos == pos
  }

  /** The state of the slot that serves position pos, for pos in the window [consumed, consumed + Capacity). */
  ghost predicate SlotOk<T>(s: State<T>, pos: nat)
    requires WellShaped(s)
  {
    var cell := s.cells[pos % s.Capacity()];
    if pos >= s.writePos then cell.sequence == pos
    else
      && pos < |s.claims|
      && if cell.sequence == pos + 1 then cell.data == s.claims[pos].item
         else cell.sequence == pos && s.claims[pos].producer < |s.producers|
              && Owns(s.producers[s.claims[pos].producer], pos)
  }

  ghost predicate ProducerOk<T>(s: State<T>, t: nat)
    requires WellShaped(s) && t < |s.producers|
  {
    match s.producers[t]
    case Idle(ok, sawFull) => ok || sawFull
    case HasPos(_, pos) => pos <= s.writePos
    case HasSeq(_, pos, seen, sawFull) =>
      && pos <= s.writePos
      && (seen == pos ==> pos < s.consumed + s.Capacity())
      && (seen < pos ==> sawFull)
    case Claimed(item, pos) =>
      && s.consumed <= pos < s.writePos && pos < |s.claims| && s.claims[pos] == Claim(item, t)
      && s.cells[pos % s.Capacity()].sequence == pos
    case Written(item, pos) =>
      && s.consumed <= pos < s.writePos && pos < |s.claims| && s.claims[pos] == Claim(item, t)
      && s.cells[pos % s.Capacity()] == Cell(pos, item)
    case Reload(_) => true
  }

  ghost predicate ConsumerOk<T>(s: State<T>)
    requires WellShaped(s)
  {
    match s.consumer
    case Waiting => s.consumed == s.readPos
    case SeenSeq(q) => s.consumed == s.readPos && (q == s.readPos + 1 ==> Published(s, s.readPos))
    case Ready(pos) => s.consumed == s.readPos == pos && Published(s, pos)
    case Copied(pos, item) => s.consumed == s.readPos == pos && Published(s, pos) && pos < |s.claims|
                              && item == s.claims[pos].item
    case Released(pos, item) => s.readPos == pos && s.consumed == pos + 1 && pos < |s.claims|
                                && item == s.claims[pos].item
  }

  /** Position pos has been claimed and its item stored and announced. */
  ghost predicate Published<T>(s: State<T>, pos: nat)
    requires WellShaped(s)
  {
    pos < s.writePos && s.cells[pos % s.Capacity()].sequence == pos + 1
  }

  ghost predicate Inv<T>(s: State<T>) {
    && WellShaped(s)
    && s.consumed <= s.writePos == |s.claims| && s.writePos <= s.consumed + s.Capacity()
    && (forall pos | s.consumed <= pos < s.consumed + s.Capacity() :: SlotOk(s, pos))
    && (forall t | 0 <= t < |s.producers| :: ProducerOk(s, t))
    && ConsumerOk(s)
    && |s.popped| == s.consumed
    && (forall i | 0 <= i < s.consumed :: s.popped[i] == s.claims[i].item)
  }

  lemma MulGap(a: int, b: int, c: int)
    requires c > 0
    ensures a > b ==> a * c >= b * c + c
  {
    if a > b {
      assert (a - b - 1) * c >= 0;
      assert a * c == b * c + c + (a - b - 1) * c;
    }
  }

  /** Quotient and remainder are determined by the equation they satisfy. */
  lemma ModUnique(x: nat, c: nat, q: nat, r: nat)
    requires c > 0 && x == q * c + r && r < c
    ensures x % c == r && x / c == q
  {
    var q' := x / c;
    DivMod(x, c);
    MulGap(q, q', c);
    MulGap(q', q, c);
  }

  lemma DivMod(x: nat, c: nat)
    requires c > 0
    ensures x == (x / c) * c + x % c
  {}

  /** Two positions of one window served by the same slot are the same position. */
  lemma SameSlot(p: nat, q: nat, c: nat, base: nat)
    requires c > 0 && base <= p < base + c && base <= q < base + c && p % c == q % c
    ensures p == q
  {
    DivMod(p, c);
    DivMod(q, c);
    MulGap(p / c, q / c, c);
    MulGap(q / c, p / c, c);
  }

  lemma DifferentSlots(p: nat, q: nat, c: nat, base: nat)
    requires c > 0 && base <= p < base + c && base <= q < base + c && p != q
    ensures p % c != q % c
  {
    if p % c == q % c {
      SameSlot(p, q, c, base);
    }
  }

  lemma NextInSlot(p: nat, c: nat)
    requires c > 0
    ensures (p + c) % c == p % c
  {
    DivMod(p, c);
    var q := p / c;
    assert (q + 1) * c == q * c + c;
    ModUnique(p + c, c, q + 1, p % c);
  }

  /** The item a producer has claimed a position for but not announced yet. */
  function InFlight<T>(p: Producer<T>): seq<T> {
    if p.Claimed? || p.Written? then [p.item] else []
  }

  /** The items claimed by producer t, in claim order. */
  function ClaimsOf<T>(claims: seq<Claim<T>>, t: nat): seq<T> {
    if claims == [] then []
    else
      var last := claims[|claims| - 1];
      ClaimsOf(claims[..|claims| - 1], t) + if last.producer == t then [last.item] else []
  }

  /** The claims of each producer are its successful pushes in call order, then the one in flight. */
  ghost predicate OrderOk<T>(s: State<T>)
    requires WellShaped(s)
  {
    forall t | 0 <= t < |s.producers| :: OrderOkFor(s, t)
  }

  ghost predicate OrderOkFor<T>(s: State<T>, t: nat)
    requires WellShaped(s) && t < |s.producers|
  {
    ClaimsOf(s.claims, t) == s.succeeded[t] + InFlight(s.producers[t])
  }

  lemma InitialInv<T>(s: State<T>)
    requires Initial(s)
    ensures Inv(s) && OrderOk(s)
  {
    forall pos | s.consumed <= pos < s.consumed + s.Capacity() ensures SlotOk(s, pos) {
      assert 0 * s.Capacity() == 0;
      ModUnique(pos, s.Capacity(), 0, pos);
    }
  }

  /** The slot of a position at or before the write cursor, seen by a producer: what its sequence number tells. */
  lemma SequenceTells<T>(s: State<T>, pos: nat)
    requires Inv(s) && s.Capacity() >= 2 && pos <= s.writePos
    ensures s.cells[pos % s.Capacity()].sequence == pos ==> pos < s.consumed + s.Capacity()
    ensures s.cells[pos % s.Capacity()].sequence < pos ==> s.Full()
  {
    var c := s.Capacity();
    if pos == s.consumed + c {
      NextInSlot(s.consumed, c);
      assert SlotOk(s, s.consumed);
    } else if pos >= s.consumed {
      assert SlotOk(s, pos);
    } else {
      var q := WindowPosition(pos, c, s.consumed);
      assert SlotOk(s, q);
    }
  }

  /** The position in the window that shares a slot with an older position. */
  lemma {:induction false} WindowPosition(pos: nat, c: nat, base: nat) returns (q: nat)
    requires c > 0 && pos < base
    ensures base <= q < base + c && q % c == pos % c && q >= pos
    decreases base - pos
  {
    NextInSlot(pos, c);
    if pos + c >= base {
      q := pos + c;
    } else {
      q := WindowPosition(pos + c, c, base);
    }
  }

  /** A step that leaves memory and records alone, and the other threads where they were,
      keeps the rest of the invariant. */
  lemma LocalStepKeepsInv<T>(s: State<T>, t: nat, p: Producer<T>)
    requires Inv(s) && t < |s.producers| && ProducerOk(SetProducer(s, t, p), t)
    requires InFlight(s.producers[t]) == []
    ensures Inv(SetProducer(s, t, p))
  {
    var s' := SetProducer(s, t, p);
    forall pos | s.consumed <= pos < s.consumed + s.Capacity() ensures SlotOk(s', pos) {
      assert SlotOk(s, pos);
    }
    forall u | 0 <= u < |s.producers| ensures ProducerOk(s', u) {
      assert ProducerOk(s, u);
    }
  }

  lemma ClaimKeepsInv<T>(s: State<T>, t: nat)
    requires Inv(s) && t < |s.producers| && s.producers[t].HasSeq?
    requires s.producers[t].seen == s.producers[t].pos == s.writePos
    ensures Inv(DecideStep(s, t, s.producers[t], false))
  {
    var s' := DecideStep(s, t, s.producers[t], false);
    assert ProducerOk(s, t) && SlotOk(s, s.writePos);
    forall pos | s.consumed <= pos < s.consumed + s.Capacity() ensures SlotOk(s', pos) {
      assert SlotOk(s, pos);
    }
    forall u | 0 <= u < |s.producers| ensures ProducerOk(s', u) {
      assert ProducerOk(s, u);
    }
  }

  lemma DecideKeepsInv<T>(s: State<T>, t: nat, casFails: bool)
    requires Inv(s) && Enabled(s, Decide(t, casFails))
    ensures Inv(Apply(s, Decide(t, casFails)))
  {
    var p := s.producers[t];
    assert ProducerOk(s, t);
    if p.seen == p.pos == s.writePos && !casFails {
      ClaimKeepsInv(s, t);
    } else if p.seen == p.pos {
      LocalStepKeepsInv(s, t, HasPos(p.item, s.writePos));
    } else if p.seen < p.pos {
      LocalStepKeepsInv(s, t, Idle(false, p.sawFull));
    } else {
      LocalStepKeepsInv(s, t, Reload(p.item));
    }
  }

  /** Two unpublished claims sit in different slots. */
  lemma OwnersApart<T>(s: State<T>, t: nat, u: nat)
    requires Inv(s) && t < |s.producers| && u < |s.producers| && t != u
    requires InFlight(s.producers[t]) != [] && InFlight(s.producers[u]) != []
    ensures s.producers[t].pos % s.Capacity() != s.producers[u].pos % s.Capacity()
  {
    assert ProducerOk(s, t) && ProducerOk(s, u);
    var p, q := s.producers[t].pos, s.producers[u].pos;
    assert s.claims[p].producer == t && s.claims[q].producer == u;
    DifferentSlots(p, q, s.Capacity(), s.consumed);
  }

  lemma StoreKeepsInv<T>(s: State<T>, a: Action<T>)
    requires Inv(s) && Enabled(s, a) && (a.WriteData? || a.Publish?)
    ensures Inv(Apply(s, a))
  {
    var s', c := Apply(s, a), s.Capacity();
    var p := s.producers[a.t].pos;
    assert ProducerOk(s, a.t) && SlotOk(s, p);
    forall pos | s.consumed <= pos < s.consumed + c ensures SlotOk(s', pos) {
      assert SlotOk(s, pos);
      if pos != p && pos % c == p % c {
        SameSlot(pos, p, c, s.consumed);
      }
    }
    forall u | 0 <= u < |s.producers| ensures ProducerOk(s', u) {
      assert ProducerOk(s, u);
      if u != a.t && InFlight(s.producers[u]) != [] {
        OwnersApart(s, a.t, u);
      }
    }
    ConsumerSlotApart(s, p);
  }

  /** A slot being filled is not the one the consumer reads. */
  lemma ConsumerSlotApart<T>(s: State<T>, p: nat)
    requires Inv(s) && s.consumed <= p < s.consumed + s.Capacity() && s.cells[p % s.Capacity()].sequence == p
    ensures Published(s, s.consumed) ==> s.consumed % s.Capacity() != p % s.Capacity()
  {
    if s.consumed % s.Capacity() == p % s.Capacity() {
      SameSlot(p, s.consumed, s.Capacity(), s.consumed);
    }
  }

  lemma ReadStepKeepsInv<T>(s: State<T>, a: Action<T>)
    requires Inv(s) && Enabled(s, a) && (a.PopLoadSequence? || a.PopCompare? || a.PopCopy? || a.PopAdvance?)
    ensures Inv(Apply(s, a))
  {
    var s' := Apply(s, a);
    assert SlotOk(s, s.consumed);
    forall pos | s.consumed <= pos < s.consumed + s.Capacity() ensures SlotOk(s', pos) {
      assert SlotOk(s, pos);
    }
    forall t | 0 <= t < |s.producers| ensures ProducerOk(s', t) {
      assert ProducerOk(s, t);
    }
  }

  lemma ReleaseKeepsInv<T>(s: State<T>)
    requires Inv(s) && Enabled(s, PopRelease)
    ensures Inv(Apply(s, PopRelease))
  {
    var s', c, p := Apply(s, PopRelease), s.Capacity(), s.consumed;
    NextInSlot(p, c);
    forall pos | p + 1 <= pos < p + 1 + c ensures SlotOk(s', pos) {
      if pos < p + c {
        assert SlotOk(s, pos);
        if pos % c == p % c {
          SameSlot(pos, p, c, p);
        }
      }
    }
    forall t | 0 <= t < |s.producers| ensures ProducerOk(s', t) {
      assert ProducerOk(s, t);
      if InFlight(s.producers[t]) != [] && s.producers[t].pos % c == p % c {
        SameSlot(s.producers[t].pos, p, c, p);
      }
    }
  }

  /** Every atomic step keeps the invariant, whatever the interleaving, once the ring has two slots. */
  lemma StepKeepsInv<T>(s: State<T>, a: Action<T>)
    requires Inv(s) && s.Capacity() >= 2 && Enabled(s, a)
    ensures Inv(Apply(s, a))
  {
    match a
    case StartPush(t, item) => LocalStepKeepsInv(s, t, HasPos(item, s.writePos));
    case LoadSequence(t) =>
      var p := s.producers[t];
      assert ProducerOk(s, t);
      SequenceTells(s, p.pos);
      LocalStepKeepsInv(s, t, HasSeq(p.item, p.pos, s.cells[p.pos % s.Capacity()].sequence, s.Full()));
    case Decide(t, f) => DecideKeepsInv(s, t, f);
    case WriteData(_) => StoreKeepsInv(s, a);
    case Publish(_) => StoreKeepsInv(s, a);
    case ReloadPos(t) => LocalStepKeepsInv(s, t, HasPos(s.producers[t].item, s.writePos));
    case PopLoadSequence => ReadStepKeepsInv(s, a);
    case PopCompare => ReadStepKeepsInv(s, a);
    case PopCopy => ReadStepKeepsInv(s, a);
    case PopRelease => ReleaseKeepsInv(s);
    case PopAdvance => ReadStepKeepsInv(s, a);
  }

  lemma StepKeepsOrder<T>(s: State<T>, a: Action<T>)
    requires WellShaped(s) && OrderOk(s) && Enabled(s, a)
    ensures OrderOk(Apply(s, a))
  {
    var s' := Apply(s, a);
    forall t | 0 <= t < |s'.producers| ensures OrderOkFor(s', t) {
      assert OrderOkFor(s, t);
      if s'.claims != s.claims {
        assert s'.claims[..|s.claims|] == s.claims;
      }
    }
  }

  /** Over any run, from any number of producers: the invariant and each producer's order hold at every point. */
  lemma {:induction false} ReachesKeepsInv<T>(s: State<T>, actions: seq<Action<T>>, s': State<T>)
    requires Inv(s) && OrderOk(s) && s.Capacity() >= 2 && Reaches(s, actions, s')
    ensures Inv(s') && OrderOk(s')
    decreases |actions|
  {
    if actions != [] {
      StepKeepsInv(s, actions[0]);
      StepKeepsOrder(s, actions[0]);
      ReachesKeepsInv(Apply(s, actions[0]), actions[1..], s');
    }
  }

  // ---- What the runs promise ----

  /** No thread is inside a call. */
  predicate Quiescent<T>(s: State<T>) {
    s.consumer.Waiting? && forall t | 0 <= t < |s.producers| :: s.producers[t].Idle?
  }

  /**
   Nothing lost, duplicated, reordered or overwritten: what the consumer got is what was claimed, in that order; the
   claims of each producer are its pushes in call order; a failed push saw a full queue; and when no call is under way,
   the oldest item not yet popped is there to be popped.
   */
  ghost predicate Safe<T>(s: State<T>) {
    && WellShaped(s)
    && |s.popped| <= |s.claims| && (forall i | 0 <= i < |s.popped| :: s.popped[i] == s.claims[i].item)
    && OrderOk(s)
    && (forall t | 0 <= t < |s.producers| && s.producers[t].Idle? :: s.producers[t].ok || s.producers[t].sawFull)
    && (Quiescent(s) && |s.popped| < |s.claims| ==> Published(s, s.readPos))
  }

  lemma InvIsSafe<T>(s: State<T>)
    requires Inv(s) && OrderOk(s)
    ensures Safe(s)
  {
    forall t | 0 <= t < |s.producers| && s.producers[t].Idle? ensures s.producers[t].ok || s.producers[t].sawFull {
      assert ProducerOk(s, t);
    }
    if Quiescent(s) && |s.popped| < |s.claims| {
      assert SlotOk(s, s.consumed);
    }
  }

  /** All states reachable with the given number of slots are safe. */
  ghost predicate SafeCapacity<T(!new)>(c: nat) {
    forall s: State<T>, actions: seq<Action<T>>, s': State<T> ::
      Initial(s) && s.Capacity() == c && Reaches(s, actions, s') ==> Safe(s')
  }

  lemma TwoSlotsAreSafe<T>(s: State<T>, actions: seq<Action<T>>, s': State<T>)
    requires Initial(s) && s.Capacity() >= 2 && Reaches(s, actions, s')
    ensures Safe(s')
  {
    InitialInv(s);
    ReachesKeepsInv(s, actions, s');
    InvIsSafe(s');
  }

  // ---- How calls end ----

  /**
   What a step may do to a producer: its call keeps its item; it comes back true only with its item added to the pushes
   that succeeded, and false only if all positions were occupied when it loaded the sequence number.
   */
  predicate PushStep<T(==)>(s: State<T>, s': State<T>, t: nat)
    requires t < |s.producers| == |s'.producers| && |s.succeeded| == |s'.succeeded| == |s.producers|
  {
    var p, p' := s.producers[t], s'.producers[t];
    && (p.Idle? && p'.Idle? ==> p' == p)
    && (!p.Idle? && !p'.Idle? ==> p'.item == p.item)
    && (p'.HasSeq? ==> p' == p || p'.sawFull == s.Full())
    && (!p.Idle? && p'.Idle? && p'.ok ==> s'.succeeded[t] == s.succeeded[t] + [p.item])
    && (!p.Idle? && p'.Idle? && !p'.ok ==> p'.sawFull && p.HasSeq? && p.sawFull)
    && (p.Idle? || !p'.Idle? || !p'.ok ==> s'.succeeded[t] == s.succeeded[t])
  }

  /**
   What a step may do to the consumer: it finds an item exactly if the oldest position was published when it loaded the
   sequence number, and comes back with the item handed out last, or empty-handed if it found none.
   */
  ghost predicate PopStep<T>(s: State<T>, s': State<T>)
    requires WellShaped(s)
  {
    var c, c' := s.consumer, s'.consumer;
    && (c'.SeenSeq? ==> c' == c || (c'.seen == s.readPos + 1 <==> Published(s, s.readPos)))
    && (c.SeenSeq? ==> c' == c || if c.seen == s.readPos + 1 then c' == Ready(s.readPos) else c' == Waiting)
    && (c'.Waiting? ==> c == c' || c.SeenSeq? || (c.Released? && s.popped != [] && c.item == s.popped[|s.popped| - 1]))
    && (s'.popped == s.popped || (c'.Released? && s'.popped == s.popped + [c'.item]))
  }

  /** No step of any run makes a call end otherwise; a failed compare-and-swap, spurious or not, never ends one. */
  lemma CallsEndProperly<T>(s: State<T>, actions: seq<Action<T>>, s': State<T>, a: Action<T>, t: nat)
    requires Initial(s) && s.Capacity() >= 2 && Reaches(s, actions, s') && Enabled(s', a) && t < |s'.producers|
    ensures WellShaped(s') && PushStep(s', Apply(s', a), t) && PopStep(s', Apply(s', a))
  {
    InitialInv(s);
    ReachesKeepsInv(s, actions, s');
    assert ProducerOk(s', t);
    hide Initial, Reaches, OrderOk, PushStep, PopStep;
    PushEnds(s', a, t);
    PopEnds(s', a);
  }

  lemma PushEnds<T>(s: State<T>, a: Action<T>, t: nat)
    requires WellShaped(s) && Enabled(s, a) && t < |s.producers| && ProducerOk(s, t)
    ensures PushStep(s, Apply(s, a), t)
  {}

  lemma PopEnds<T>(s: State<T>, a: Action<T>)
    requires Inv(s) && Enabled(s, a)
    ensures PopStep(s, Apply(s, a))
  {
    if a.PopLoadSequence? {
      assert SlotOk(s, s.readPos);
    }
  }

  // ---- Uninterrupted calls ----

  /** The five steps of one push by producer t that meets no other thread. */
  function PushCall<T>(t: nat, item: T): seq<Action<T>> {
    [StartPush(t, item), LoadSequence(t), Decide(t, false), WriteData(t), Publish(t)]
  }

  function PopCall<T>(): seq<Action<T>> {
    [PopLoadSequence, PopCompare, PopCopy, PopRelease, PopAdvance]
  }

  function Pushed<T>(s: State<T>, t: nat, item: T): State<T>
    requires WellShaped(s) && t < |s.producers|
  {
    s.(cells := s.cells[s.writePos % s.Capacity() := Cell(s.writePos + 1, item)], writePos := s.writePos + 1,
    producers := s.producers[t := Idle(true, false)], claims := s.claims + [Claim(item, t)],
    succeeded := s.succeeded[t := s.succeeded[t] + [item]])
  }

  function Popped<T>(s: State<T>): State<T>
    requires WellShaped(s)
  {
    var i := s.readPos % s.Capacity();
    s.(cells := s.cells[i := s.cells[i].(sequence := s.readPos + s.Capacity())], readPos := s.readPos + 1,
    consumed := s.readPos + 1, popped := s.popped + [s.cells[i].data])
  }

  lemma ReachesStep<T>(s: State<T>, a: Action<T>, rest: seq<Action<T>>, s': State<T>)
    requires WellShaped(s) && Enabled(s, a) && Reaches(Apply(s, a), rest, s')
    ensures Reaches(s, [a] + rest, s')
  {
    assert ([a] + rest)[1..] == rest;
  }

  lemma {:induction false} ReachesConcat<T>(s: State<T>, first: seq<Action<T>>, mid: State<T>, second: seq<Action<T>>,
                                            s': State<T>)
    requires Reaches(s, first, mid) && Reaches(mid, second, s')
    ensures Reaches(s, first + second, s')
    decreases |first|
  {
    if first == [] {
      assert first + second == second;
    } else {
      ReachesConcat(Apply(s, first[0]), first[1..], mid, second, s');
      assert first + second == [first[0]] + (first[1..] + second);
      ReachesStep(s, first[0], first[1..] + second, s');
    }
  }

  lemma FiveSteps<T>(s0: State<T>, s1: State<T>, s2: State<T>, s3: State<T>, s4: State<T>, s5: State<T>,
                     a: seq<Action<T>>)
    requires |a| == 5
    requires WellShaped(s0) && Enabled(s0, a[0]) && s1 == Apply(s0, a[0])
    requires WellShaped(s1) && Enabled(s1, a[1]) && s2 == Apply(s1, a[1])
    requires WellShaped(s2) && Enabled(s2, a[2]) && s3 == Apply(s2, a[2])
    requires WellShaped(s3) && Enabled(s3, a[3]) && s4 == Apply(s3, a[3])
    requires WellShaped(s4) && Enabled(s4, a[4]) && s5 == Apply(s4, a[4])
    ensures Reaches(s0, a, s5)
  {
    assert Reaches(s5, a[5..], s5);
    assert a[4..][1..] == a[5..] && Reaches(s4, a[4..], s5);
    assert a[3..][1..] == a[4..] && Reaches(s3, a[3..], s5);
    assert a[2..][1..] == a[3..] && Reaches(s2, a[2..], s5);
    assert a[1..][1..] == a[2..] && Reaches(s1, a[1..], s5);
  }

  /** A push whose slot is free stores its item at the write cursor and succeeds. */
  lemma PushSucceeds<T>(s: State<T>, t: nat, item: T)
    requires WellShaped(s) && t < |s.producers| && s.producers[t].Idle?
    requires s.cells[s.writePos % s.Capacity()].sequence == s.writePos
    ensures Reaches(s, PushCall(t, item), Pushed(s, t, item))
  {
    var s1 := Apply(s, StartPush(t, item));
    var s2 := Apply(s1, LoadSequence(t));
    var s3 := Apply(s2, Decide(t, false));
    var s4 := Apply(s3, WriteData(t));
    var s5 := Apply(s4, Publish(t));
    assert s5 == Pushed(s, t, item);
    FiveSteps(s, s1, s2, s3, s4, s5, PushCall(t, item));
  }

  /** A pop whose slot has been published takes its item. */
  lemma PopSucceeds<T>(s: State<T>)
    requires WellShaped(s) && s.consumer.Waiting?
    requires s.cells[s.readPos % s.Capacity()].sequence == s.readPos + 1
    ensures Reaches(s, PopCall(), Popped(s))
  {
    var s1 := Apply(s, PopLoadSequence);
    var s2 := Apply(s1, PopCompare);
    var s3 := Apply(s2, PopCopy);
    var s4 := Apply(s3, PopRelease);
    var s5 := Apply(s4, PopAdvance);
    assert s5 == Popped(s);
    FiveSteps(s, s1, s2, s3, s4, s5, PopCall());
  }

  /** With no other call under way, a push goes through exactly when not every slot is occupied. */
  lemma PushThroughUnlessFull<T>(s: State<T>)
    requires Inv(s) && s.Capacity() >= 2 && Quiescent(s)
    ensures s.cells[s.writePos % s.Capacity()].sequence == s.writePos <==> !s.Full()
  {
    SequenceTells(s, s.writePos);
    if !s.Full() {
      assert SlotOk(s, s.writePos);
    }
  }

  function Items<T>(claims: seq<Claim<T>>): (items: seq<T>)
    ensures |items| == |claims|
  {
    seq(|claims|, i requires 0 <= i < |claims| => claims[i].item)
  }

  /** From any quiescent state the consumer alone can fetch every claimed item, in claim order. */
  lemma {:induction false} Drain<T>(s: State<T>) returns (actions: seq<Action<T>>, s': State<T>)
    requires Inv(s) && OrderOk(s) && s.Capacity() >= 2 && Quiescent(s)
    ensures Reaches(s, actions, s') && s'.claims == s.claims && s'.popped == Items(s.claims)
    decreases |s.claims| - |s.popped|
  {
    if |s.popped| == |s.claims| {
      actions, s' := [], s;
    } else {
      InvIsSafe(s);
      PopSucceeds(s);
      var mid := Popped(s);
      ReachesKeepsInv(s, PopCall(), mid);
      var rest;
      rest, s' := Drain(mid);
      actions := PopCall() + rest;
      ReachesConcat(s, PopCall(), mid, rest, s');
    }
  }

  /** With a single slot "published" and "free again" are the same number: a second push overwrites the first item. */
  lemma OneSlotLosesItem() returns (s: State<int>, actions: seq<Action<int>>, s': State<int>)
    ensures Initial(s) && s.Capacity() == 1 && Reaches(s, actions, s') && !Safe(s')
  {
    s := State([Cell(0, 0)], 0, 0, [Idle(true, false)], Waiting, [], [], [[]], 0);
    PushSucceeds(s, 0, 7);
    var mid := Pushed(s, 0, 7);
    assert mid.cells == [Cell(1, 7)];
    PushSucceeds(mid, 0, 8);
    s' := Pushed(mid, 0, 8);
    assert s'.cells == [Cell(2, 8)];
    actions := PushCall(0, 7) + PushCall(0, 8);
    ReachesConcat(s, PushCall(0, 7), mid, PushCall(0, 8), s');
  }

  /** The queue is safe exactly from two slots up, though the class admits one. */
  lemma SafeExactlyFromTwo(c: nat)
    requires c > 0
    ensures SafeCapacity<int>(c) <==> c >= 2
  {
    if c >= 2 {
      forall s: State<int>, actions: seq<Action<int>>, s': State<int>
        | Initial(s) && s.Capacity() == c && Reaches(s, actions, s') ensures Safe(s') {
        TwoSlotsAreSafe(s, actions, s');
      }
    } else {
      var s, actions, s' := OneSlotLosesItem();
    }
  }
}
