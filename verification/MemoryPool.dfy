/**
 The lock-free pool: a Treiber stack of free slots whose head word carries a wrapping tag. Every load, store and
 compare-and-swap of `allocate` and `deallocate` is one step, interleaved freely among any number of threads.
 */
module MemoryPool {

  /** The head word: slot index (the pool size when empty) and tag. */
  datatype Word = Word(index: nat, tag: nat)

  /** How a thread's last call ended; `sawEmpty` records, for the specification, whether nothing was free when the
      allocation loaded the head word it gave up on. */
  datatype Ending = Never | Took(slot: nat) | Nothing(sawEmpty: bool) | Returned

  /** Where a thread stands; `at` records, for the specification, how often the head had changed when it was loaded. */
  datatype Thread =
    | Idle(ended: Ending)
    | AllocLoaded(seen: Word, at: nat, sawEmpty: bool)
    | AllocNext(seen: Word, at: nat, nxt: nat)
    | Allocated(slot: nat)
    | FreeLoaded(slot: nat, seen: Word, at: nat)
    | FreeStored(slot: nat, seen: Word, at: nat)
    | Freed

  /**
   `next` is overlaid on the slots' own storage, so live slots hold arbitrary numbers there. `live` are the slots in
   users' hands; `free` (the true free list) and `version` (head changes so far) are records for the specification.
   */
  datatype State = State(
    next: seq<nat>, head: Word, available: int, threads: seq<Thread>,
    live: set<nat>, free: seq<nat>, version: nat)
  {
    function Size(): nat { |next| }
  }

  datatype Action =
    | StartAlloc(t: nat)
    | LoadNext(t: nat)
    | AllocCas(t: nat, spurious: bool)
    | CountDown(t: nat)
    | StartFree(t: nat, slot: nat)
    | StoreNext(t: nat)
    | FreeCas(t: nat, spurious: bool)
    | CountUp(t: nat)
    | UserWrite(slot: nat, value: nat)

  /** Tags are 32 bits wide. */
  const TAG_SPAN: nat := 0x1_0000_0000

  predicate Enabled(s: State, a: Action) {
    match a
    case StartAlloc(t) => t < |s.threads| && s.threads[t].Idle?
    case LoadNext(t) => t < |s.threads| && s.threads[t].AllocLoaded?
    case AllocCas(t, _) => t < |s.threads| && s.threads[t].AllocNext?
    case CountDown(t) => t < |s.threads| && s.threads[t].Allocated?
    case StartFree(t, slot) => t < |s.threads| && s.threads[t].Idle? && slot in s.live
    case StoreNext(t) => t < |s.threads| && s.threads[t].FreeLoaded? && s.threads[t].slot < s.Size()
    case FreeCas(t, _) => t < |s.threads| && s.threads[t].FreeStored?
    case CountUp(t) => t < |s.threads| && s.threads[t].Freed?
    case UserWrite(slot, _) => slot in s.live && slot < s.Size()
  }

  function SetThread(s: State, t: nat, th: Thread): State
    requires t < |s.threads|
  {
    s.(threads := s.threads[t := th])
  }

  function Tail(free: seq<nat>): seq<nat> { if free == [] then [] else free[1..] }

  function Apply(s: State, a: Action): (s': State)
    requires Enabled(s, a)
    ensures s'.Size() == s.Size() && |s'.threads| == |s.threads|
  {
    match a
    case StartAlloc(t) => SetThread(s, t, AllocLoaded(s.head, s.version, s.free == []))
    case LoadNext(t) =>
      var th := s.threads[t];
      if th.seen.index >= s.Size() then SetThread(s, t, Idle(Nothing(th.sawEmpty)))
      else SetThread(s, t, AllocNext(th.seen, th.at, s.next[th.seen.index]))
    case AllocCas(t, spurious) =>
      var th := s.threads[t];
      if s.head == th.seen && !spurious then
        SetThread(s, t, Allocated(th.seen.index)).(
        head := Word(th.nxt, (th.seen.tag + 1) % TAG_SPAN), version := s.version + 1, free := Tail(s.free))
      else SetThread(s, t, AllocLoaded(s.head, s.version, s.free == []))
    case CountDown(t) =>
      var slot := s.threads[t].slot;
      SetThread(s, t, Idle(Took(slot))).(available := s.available - 1, live := s.live + {slot})
    case StartFree(t, slot) => SetThread(s, t, FreeLoaded(slot, s.head, s.version)).(live := s.live - {slot})
    case StoreNext(t) =>
      var th := s.threads[t];
      SetThread(s, t, FreeStored(th.slot, th.seen, th.at)).(next := s.next[th.slot := th.seen.index])
    case FreeCas(t, spurious) =>
      var th := s.threads[t];
      if s.head == th.seen && !spurious then
        SetThread(s, t, Freed).(
        head := Word(th.slot, (th.seen.tag + 1) % TAG_SPAN), version := s.version + 1, free := [th.slot] + s.free)
      else SetThread(s, t, FreeLoaded(th.slot, s.head, s.version))
    case CountUp(t) => SetThread(s, t, Idle(Returned)).(available := s.available + 1)
    case UserWrite(slot, value) => s.(next := s.next[slot := value])
  }

  /** The constructor links every slot to its successor. */
  predicate Initial(s: State) {
    && 0 < s.Size() && (forall i | 0 <= i < s.Size() :: s.next[i] == i + 1)
    && s.head == Word(0, 0) && s.available == s.Size()
    && (forall t | 0 <= t < |s.threads| :: s.threads[t] == Idle(Never))
    && s.live == {} && s.version == 0
    && |s.free| == s.Size() && (forall i | 0 <= i < s.Size() :: s.free[i] == i)
  }

  /** Fewer than 2^32 head changes happen between a thread's load of the head and its compare-and-swap. */
  predicate Timely(s: State, a: Action) {
    && (a.AllocCas? && Enabled(s, a) ==> s.version - s.threads[a.t].at < TAG_SPAN)
    && (a.FreeCas? && Enabled(s, a) ==> s.version - s.threads[a.t].at < TAG_SPAN)
  }

  /** A run: the enabled actions, in any interleaving, lead from s to s', no operation outlasting the tag. */
  predicate Reaches(s: State, actions: seq<Action>, s': State)
    decreases |actions|
  {
    if actions == [] then s == s'
    else Enabled(s, actions[0]) && Timely(s, actions[0]) && Reaches(Apply(s, actions[0]), actions[1..], s')
  }

  // ---- The invariant ----

  /** The slot a thread holds between the free list and the users. */
  function Held(th: Thread): set<nat> {
    match th
    case Allocated(slot) => {slot}
    case FreeLoaded(slot, _, _) => {slot}
    case FreeStored(slot, _, _) => {slot}
    case _ => {}
  }

  function First(free: seq<nat>, size: nat): nat { if free == [] then size else free[0] }

  /** `next` threads the free list in order and ends it with the sentinel. */
  ghost predicate Linked(next: seq<nat>, free: seq<nat>) {
    forall i | 0 <= i < |free| :: free[i] < |next| && next[free[i]] == First(free[i + 1..], |next|)
  }

  ghost predicate Distinct(free: seq<nat>) {
    forall i, j | 0 <= i < j < |free| :: free[i] != free[j]
  }

  /** What a remembered head word is worth: if the head has not changed since, it is still the head. */
  predicate Remembers(s: State, seen: Word, at: nat) {
    at <= s.version && seen.tag == at % TAG_SPAN && (at == s.version ==> seen == s.head)
  }

  ghost predicate ThreadOk(s: State, t: nat)
    requires t < |s.threads|
  {
    match s.threads[t]
    case Idle(ended) => ended.Nothing? ==> ended.sawEmpty
    case AllocLoaded(seen, at, sawEmpty) => Remembers(s, seen, at) && (sawEmpty <==> seen.index >= s.Size())
    case AllocNext(seen, at, nxt) =>
      && Remembers(s, seen, at) && seen.index < s.Size()
      && (at == s.version ==> nxt == First(Tail(s.free), s.Size()))
    case Allocated(slot) => slot < s.Size()
    case FreeLoaded(slot, seen, at) => slot < s.Size() && Remembers(s, seen, at)
    case FreeStored(slot, seen, at) => slot < s.Size() && Remembers(s, seen, at) && s.next[slot] == seen.index
    case Freed => true
  }

  /** Slot i is in exactly one place: the free list, a user's hands, or one thread's hands. */
  ghost predicate Placed(s: State, i: nat) {
    || (i in s.free && i !in s.live && HeldByNone(s, i))
    || (i !in s.free && i in s.live && HeldByNone(s, i))
    || (i !in s.free && i !in s.live && exists t :: HeldByOnly(s, i, t))
  }

  ghost predicate HeldByNone(s: State, i: nat) {
    forall t | 0 <= t < |s.threads| :: i !in Held(s.threads[t])
  }

  ghost predicate HeldByOnly(s: State, i: nat, t: int) {
    0 <= t < |s.threads| && i in Held(s.threads[t])
    && forall u | 0 <= u < |s.threads| && u != t :: i !in Held(s.threads[u])
  }

  /** Counter updates still owed: one down for each slot just taken, one up for each just returned. */
  function Owed(threads: seq<Thread>): int {
    if threads == [] then 0
    else
      var th := threads[|threads| - 1];
      Owed(threads[..|threads| - 1]) + if th.Allocated? then 1 else if th.Freed? then -1 else 0
  }

  ghost predicate Inv(s: State) {
    && 0 < s.Size()
    && s.head == Word(First(s.free, s.Size()), s.version % TAG_SPAN)
    && Distinct(s.free) && Linked(s.next, s.free)
    && (forall t | 0 <= t < |s.threads| :: ThreadOk(s, t))
    && (forall i | 0 <= i < s.Size() :: Placed(s, i))
    && (forall i | i in s.live :: i < s.Size())
    && s.available == |s.free| + Owed(s.threads)
  }

  // ---- Preservation ----

  lemma InitialInv(s: State)
    requires Initial(s)
    ensures Inv(s)
  {
    forall i | 0 <= i < s.Size() ensures Placed(s, i) {
      assert s.free[i] == i;
    }
    NothingOwed(s.threads);
  }

  lemma {:induction false} NothingOwed(threads: seq<Thread>)
    requires forall t | 0 <= t < |threads| :: threads[t].Idle?
    ensures Owed(threads) == 0
  {
    if threads != [] {
      NothingOwed(threads[..|threads| - 1]);
    }
  }

  function Weight(th: Thread): int { if th.Allocated? then 1 else if th.Freed? then -1 else 0 }

  lemma {:induction false} OwedUpdate(threads: seq<Thread>, t: nat, th: Thread)
    requires t < |threads|
    ensures Owed(threads[t := th]) == Owed(threads) - Weight(threads[t]) + Weight(th)
  {
    var n := |threads| - 1;
    if t == n {
      assert threads[t := th][..n] == threads[..n];
    } else {
      assert threads[t := th][..n] == threads[..n][t := th];
      OwedUpdate(threads[..n], t, th);
    }
  }

  /** Equal tags within one span mean equal versions. */
  lemma SameTag(at: nat, version: nat)
    requires at <= version && version - at < TAG_SPAN && at % TAG_SPAN == version % TAG_SPAN
    ensures at == version
  {}

  /** A thread that moves without taking up or giving away a slot keeps every slot where it was. */
  lemma PlacedKept(s: State, s': State, t: nat, i: nat)
    requires Placed(s, i) && t < |s.threads| && s'.free == s.free && s'.live == s.live
    requires |s'.threads| == |s.threads| && s'.threads == s.threads[t := s'.threads[t]]
    requires Held(s'.threads[t]) == Held(s.threads[t])
    ensures Placed(s', i)
  {
    assert forall u | 0 <= u < |s.threads| :: Held(s'.threads[u]) == Held(s.threads[u]);
    if i !in s.free && i !in s.live {
      var u :| HeldByOnly(s, i, u);
      assert HeldByOnly(s', i, u);
    } else {
      assert HeldByNone(s', i);
    }
  }

  /** A step of one thread that changes no shared word, no slot's place and no debt. */
  lemma QuietStep(s: State, t: nat, th: Thread)
    requires Inv(s) && t < |s.threads| && Held(th) == Held(s.threads[t]) && Weight(th) == Weight(s.threads[t])
    requires ThreadOk(SetThread(s, t, th), t)
    ensures Inv(SetThread(s, t, th))
  {
    var s' := SetThread(s, t, th);
    forall u | 0 <= u < |s.threads| ensures ThreadOk(s', u) {
      assert ThreadOk(s, u);
    }
    forall i | 0 <= i < s.Size() ensures Placed(s', i) {
      PlacedKept(s, s', t, i);
    }
    OwedUpdate(s.threads, t, th);
  }

  lemma HeadInFree(s: State)
    requires Inv(s) && s.head.index < s.Size()
    ensures s.free != [] && s.free[0] == s.head.index
  {
    assert s.free == [] ==> s.head.index == s.Size();
  }

  lemma EmptyHead(s: State)
    requires Inv(s)
    ensures s.free == [] <==> s.head.index >= s.Size()
  {
    if s.free != [] {
      assert s.free[0] < |s.next|;
    }
  }

  /** A successful allocation takes the true first slot and installs the true second, despite its stale read. */
  lemma AllocTakes(s: State, t: nat)
    requires Inv(s) && Enabled(s, AllocCas(t, false)) && Timely(s, AllocCas(t, false)) && s.head == s.threads[t].seen
    ensures s.free != [] && s.threads[t].seen.index == s.free[0]
    ensures s.threads[t].nxt == First(s.free[1..], s.Size()) && s.threads[t].at == s.version
  {
    assert ThreadOk(s, t);
    SameTag(s.threads[t].at, s.version);
    HeadInFree(s);
  }

  lemma LinkedTail(next: seq<nat>, free: seq<nat>)
    requires Linked(next, free) && Distinct(free) && free != []
    ensures Linked(next, free[1..]) && Distinct(free[1..]) && free[0] !in free[1..]
  {
    var rest := free[1..];
    forall i | 0 <= i < |rest| ensures rest[i] < |next| && next[rest[i]] == First(rest[i + 1..], |next|) {
      assert rest[i] == free[i + 1] && rest[i + 1..] == free[i + 2..];
    }
  }

  lemma LinkedPush(next: seq<nat>, free: seq<nat>, x: nat)
    requires Linked(next, free) && Distinct(free) && x !in free && x < |next| && next[x] == First(free, |next|)
    ensures Linked(next, [x] + free) && Distinct([x] + free)
  {
    var more := [x] + free;
    forall i | 0 <= i < |more| ensures more[i] < |next| && next[more[i]] == First(more[i + 1..], |next|) {
      if i > 0 {
        assert more[i] == free[i - 1] && more[i + 1..] == free[i..];
      } else {
        assert more[1..] == free;
      }
    }
  }

  /** Once the head has changed, every word remembered before is stale, and the memory it was read from unchanged. */
  lemma OthersForget(s: State, s': State, t: nat)
    requires (forall u | 0 <= u < |s.threads| :: ThreadOk(s, u)) && t < |s.threads|
    requires |s'.threads| == |s.threads| && s'.threads == s.threads[t := s'.threads[t]] && ThreadOk(s', t)
    requires s'.next == s.next && s'.version == s.version + 1
    ensures forall u | 0 <= u < |s.threads| :: ThreadOk(s', u)
  {
    forall u | 0 <= u < |s.threads| ensures ThreadOk(s', u) {
      assert ThreadOk(s, u);
    }
  }

  lemma TakenPlaced(s: State, s': State, t: nat, i: nat)
    requires Placed(s, i) && s.free != [] && s'.free == s.free[1..] && s.free[0] !in s'.free && s'.live == s.live
    requires t < |s.threads| && s'.threads == s.threads[t := Allocated(s.free[0])] && Held(s.threads[t]) == {}
    ensures Placed(s', i)
  {
    assert s.free == [s.free[0]] + s'.free;
    if i == s.free[0] {
      assert HeldByNone(s, i);
      assert HeldByOnly(s', i, t);
    } else {
      PlacedElsewhere(s, s', t, i);
    }
  }

  lemma ReturnedPlaced(s: State, s': State, t: nat, x: nat, i: nat)
    requires Placed(s, i) && s'.free == [x] + s.free && s'.live == s.live
    requires t < |s.threads| && s'.threads == s.threads[t := Freed] && Held(s.threads[t]) == {x}
    requires x !in s.free && x !in s.live && HeldByOnly(s, x, t)
    ensures Placed(s', i)
  {
    if i == x {
      assert HeldByNone(s', i);
    } else {
      assert i in s'.free <==> i in s.free;
      PlacedElsewhere(s, s', t, i);
    }
  }

  lemma AllocKeepsInv(s: State, t: nat)
    requires Inv(s) && Enabled(s, AllocCas(t, false)) && Timely(s, AllocCas(t, false)) && s.head == s.threads[t].seen
    ensures Inv(Apply(s, AllocCas(t, false)))
  {
    var s' := Apply(s, AllocCas(t, false));
    AllocTakes(s, t);
    var x := s.free[0];
    LinkedTail(s.next, s.free);
    OthersForget(s, s', t);
    forall i | 0 <= i < s.Size() ensures Placed(s', i) {
      TakenPlaced(s, s', t, i);
    }
    hide Placed, ThreadOk, Linked, Distinct;
    OwedUpdate(s.threads, t, s'.threads[t]);
  }

  /** When one thread's slot changes hands, every other slot stays where it was. */
  lemma PlacedElsewhere(s: State, s': State, t: nat, i: nat)
    requires Placed(s, i) && t < |s.threads| && |s'.threads| == |s.threads|
    requires s'.threads == s.threads[t := s'.threads[t]]
    requires i in s'.free <==> i in s.free
    requires i in s'.live <==> i in s.live
    requires i in Held(s'.threads[t]) <==> i in Held(s.threads[t])
    ensures Placed(s', i)
  {
    assert forall u | 0 <= u < |s.threads| :: i in Held(s'.threads[u]) <==> i in Held(s.threads[u]);
    if i !in s.free && i !in s.live {
      var u :| HeldByOnly(s, i, u);
      assert HeldByOnly(s', i, u);
    } else {
      assert HeldByNone(s', i);
    }
  }

  /** A slot a thread holds is on no list, in no user's hands and in no other thread's. */
  lemma HeldAlone(s: State, t: nat, i: nat)
    requires Inv(s) && t < |s.threads| && i in Held(s.threads[t]) && i < s.Size()
    ensures i !in s.free && i !in s.live && HeldByOnly(s, i, t)
  {
    assert Placed(s, i);
    if i !in s.free && i !in s.live {
      var u :| HeldByOnly(s, i, u);
    }
  }

  lemma FreeKeepsInv(s: State, t: nat)
    requires Inv(s) && Enabled(s, FreeCas(t, false)) && Timely(s, FreeCas(t, false)) && s.head == s.threads[t].seen
    ensures Inv(Apply(s, FreeCas(t, false)))
  {
    var s', x := Apply(s, FreeCas(t, false)), s.threads[t].slot;
    assert ThreadOk(s, t);
    SameTag(s.threads[t].at, s.version);
    HeldAlone(s, t, x);
    LinkedPush(s.next, s.free, x);
    OthersForget(s, s', t);
    forall i | 0 <= i < s.Size() ensures Placed(s', i) {
      ReturnedPlaced(s, s', t, x, i);
    }
    hide Placed, ThreadOk, Linked, Distinct;
    OwedUpdate(s.threads, t, s'.threads[t]);
  }

  /** Writing a slot that is not free leaves the list as it is. */
  lemma LinkedKept(next: seq<nat>, free: seq<nat>, slot: nat, value: nat)
    requires Linked(next, free) && slot < |next| && slot !in free
    ensures Linked(next[slot := value], free)
  {}

  lemma StoreKeepsInv(s: State, t: nat)
    requires Inv(s) && Enabled(s, StoreNext(t))
    ensures Inv(Apply(s, StoreNext(t)))
  {
    var s', x := Apply(s, StoreNext(t)), s.threads[t].slot;
    assert ThreadOk(s, t);
    HeldAlone(s, t, x);
    LinkedKept(s.next, s.free, x, s.threads[t].seen.index);
    forall u | 0 <= u < |s.threads| ensures ThreadOk(s', u) {
      assert ThreadOk(s, u);
      if u != t && s.threads[u].FreeStored? {
        assert x !in Held(s.threads[u]);
      }
    }
    forall i | 0 <= i < s.Size() ensures Placed(s', i) {
      PlacedElsewhere(s, s', t, i);
    }
    OwedUpdate(s.threads, t, s'.threads[t]);
  }

  lemma UserWriteKeepsInv(s: State, slot: nat, value: nat)
    requires Inv(s) && Enabled(s, UserWrite(slot, value))
    ensures Inv(Apply(s, UserWrite(slot, value)))
  {
    var s' := Apply(s, UserWrite(slot, value));
    assert Placed(s, slot);
    LinkedKept(s.next, s.free, slot, value);
    forall u | 0 <= u < |s.threads| ensures ThreadOk(s', u) {
      assert ThreadOk(s, u);
      assert slot !in Held(s.threads[u]);
    }
    forall i | 0 <= i < s.Size() ensures Placed(s', i) {
      assert Placed(s, i);
      if i !in s.free && i !in s.live {
        var u :| HeldByOnly(s, i, u);
        assert HeldByOnly(s', i, u);
      } else {
        assert HeldByNone(s', i);
      }
    }
  }

  lemma HandOverKeepsInv(s: State, a: Action)
    requires Inv(s) && Enabled(s, a) && (a.CountDown? || a.StartFree?)
    ensures Inv(Apply(s, a))
  {
    var s', t := Apply(s, a), a.t;
    assert ThreadOk(s, t);
    var x := if a.CountDown? then s.threads[t].slot else a.slot;
    assert Placed(s, x);
    if a.CountDown? {
      HeldAlone(s, t, x);
    }
    forall u | 0 <= u < |s.threads| ensures ThreadOk(s', u) {
      assert ThreadOk(s, u);
    }
    forall i | 0 <= i < s.Size() ensures Placed(s', i) {
      assert Placed(s, i);
      if i != x {
        PlacedElsewhere(s, s', t, i);
      } else if a.CountDown? {
        assert HeldByNone(s', i);
      } else {
        assert HeldByOnly(s', i, t);
      }
    }
    OwedUpdate(s.threads, t, s'.threads[t]);
  }

  /** Every step keeps the invariant, whatever the interleaving and whatever users write into their slots. */
  lemma StepKeepsInv(s: State, a: Action)
    requires Inv(s) && Enabled(s, a) && Timely(s, a)
    ensures Inv(Apply(s, a))
  {
    match a
    case StartAlloc(t) =>
      EmptyHead(s);
      QuietStep(s, t, AllocLoaded(s.head, s.version, s.free == []));
    case LoadNext(t) =>
      var th := s.threads[t];
      assert ThreadOk(s, t);
      if th.seen.index >= s.Size() {
        QuietStep(s, t, Idle(Nothing(th.sawEmpty)));
      } else {
        if th.at == s.version {
          HeadInFree(s);
          assert s.free[0 + 1..] == Tail(s.free);
        }
        QuietStep(s, t, AllocNext(th.seen, th.at, s.next[th.seen.index]));
      }
    case AllocCas(t, spurious) =>
      if s.head == s.threads[t].seen && !spurious {
        AllocKeepsInv(s, t);
      } else {
        EmptyHead(s);
        QuietStep(s, t, AllocLoaded(s.head, s.version, s.free == []));
      }
    case CountDown(t) => HandOverKeepsInv(s, a);
    case StartFree(t, slot) => HandOverKeepsInv(s, a);
    case StoreNext(t) => StoreKeepsInv(s, t);
    case FreeCas(t, spurious) =>
      if s.head == s.threads[t].seen && !spurious {
        FreeKeepsInv(s, t);
      } else {
        assert ThreadOk(s, t);
        QuietStep(s, t, FreeLoaded(s.threads[t].slot, s.head, s.version));
      }
    case CountUp(t) => CountUpKeepsInv(s, t);
    case UserWrite(slot, value) => UserWriteKeepsInv(s, slot, value);
  }

  lemma CountUpKeepsInv(s: State, t: nat)
    requires Inv(s) && Enabled(s, CountUp(t))
    ensures Inv(Apply(s, CountUp(t)))
  {
    var s' := Apply(s, CountUp(t));
    forall u | 0 <= u < |s.threads| ensures ThreadOk(s', u) {
      assert ThreadOk(s, u);
    }
    forall i | 0 <= i < s.Size() ensures Placed(s', i) {
      PlacedElsewhere(s, s', t, i);
    }
    OwedUpdate(s.threads, t, s'.threads[t]);
  }

  /** Over any run: the invariant. */
  lemma {:induction false} ReachesKeepsInv(s: State, actions: seq<Action>, s': State)
    requires Inv(s) && Reaches(s, actions, s')
    ensures Inv(s')
    decreases |actions|
  {
    if actions != [] {
      StepKeepsInv(s, actions[0]);
      ReachesKeepsInv(Apply(s, actions[0]), actions[1..], s');
    }
  }

  // ---- What the runs promise ----

  /** The slot reached from `start` after k links. */
  function Walk(next: seq<nat>, start: nat, k: nat): nat
    decreases k
  {
    if k == 0 || start >= |next| then start else Walk(next, next[start], k - 1)
  }

  /** Following the links from the head meets the free slots in order, each once, and then the sentinel. */
  lemma {:induction false} WalkVisitsFree(next: seq<nat>, free: seq<nat>, k: nat)
    requires Linked(next, free) && k <= |free|
    ensures Walk(next, First(free, |next|), k) == First(free[k..], |next|)
  {
    if k > 0 {
      assert next[free[0]] == First(free[1..], |next|);
      forall i | 0 <= i < |free[1..]|
        ensures free[1..][i] < |next| && next[free[1..][i]] == First(free[1..][i + 1..], |next|)
      {
        assert free[1..][i] == free[i + 1] && free[1..][i + 1..] == free[i + 2..];
      }
      WalkVisitsFree(next, free[1..], k - 1);
      assert free[1..][k - 1..] == free[k..];
    }
  }

  predicate Quiescent(s: State) {
    forall t | 0 <= t < |s.threads| :: s.threads[t].Idle?
  }

  /**
   Each slot is in exactly one place, so no slot is live for two owners; the list from the head is acyclic and holds
   exactly the free slots; an allocation has come back empty-handed only if nothing was free when it loaded the head.
   */
  ghost predicate Safe(s: State) {
    && (forall i | 0 <= i < s.Size() :: Placed(s, i))
    && Distinct(s.free)
    && (forall k | 0 <= k <= |s.free| :: Walk(s.next, s.head.index, k) == First(s.free[k..], s.Size()))
    && (s.head.index >= s.Size() <==> s.free == [])
    && s.available == |s.free| + Owed(s.threads) && (Quiescent(s) ==> s.available == |s.free|)
    && (forall t | 0 <= t < |s.threads| && s.threads[t].Idle? && s.threads[t].ended.Nothing? ::
          s.threads[t].ended.sawEmpty)
  }

  /** Safety over every run of any number of threads in which no operation outlasts the tag. */
  lemma PoolIsSafe(s: State, actions: seq<Action>, s': State)
    requires Initial(s) && Reaches(s, actions, s')
    ensures Safe(s')
  {
    InitialInv(s);
    ReachesKeepsInv(s, actions, s');
    forall k | 0 <= k <= |s'.free| ensures Walk(s'.next, s'.head.index, k) == First(s'.free[k..], s'.Size()) {
      WalkVisitsFree(s'.next, s'.free, k);
    }
    if Quiescent(s') {
      NothingOwed(s'.threads);
    }
    EmptyHead(s');
    forall t | 0 <= t < |s'.threads| && s'.threads[t].Idle? && s'.threads[t].ended.Nothing?
      ensures s'.threads[t].ended.sawEmpty
    {
      assert ThreadOk(s', t);
    }
  }

  /** A compare-and-swap that succeeds in time takes the first free slot and leaves the rest of the list, in order. */
  lemma AllocTakesFirst(s: State, actions: seq<Action>, s': State, t: nat)
    requires Initial(s) && Reaches(s, actions, s') && Enabled(s', AllocCas(t, false))
    requires Timely(s', AllocCas(t, false)) && s'.head == s'.threads[t].seen
    ensures var s'' := Apply(s', AllocCas(t, false));
            && s'.free != [] && s''.threads[t] == Allocated(s'.free[0])
            && s''.free == s'.free[1..] && s''.head.index == First(s'.free[1..], s'.Size())
  {
    InitialInv(s);
    ReachesKeepsInv(s, actions, s');
    AllocTakes(s', t);
  }

  // ---- How allocations end ----

  predicate Allocating(th: Thread) { th.AllocLoaded? || th.AllocNext? }

  /** What a step may do to a thread that is, or then is, inside an allocation: it loads the head as it stands;
      it leaves with the first free slot, taken off the list, or with nothing, and then only on a head word
      loaded while nothing was free. */
  predicate AllocationStep(s: State, s': State, t: nat)
    requires t < |s.threads| == |s'.threads|
  {
    && (s'.threads[t].AllocLoaded? ==>
          s'.threads[t] == s.threads[t] || s'.threads[t] == AllocLoaded(s.head, s.version, s.free == []))
    && (Allocating(s.threads[t]) && !Allocating(s'.threads[t]) ==>
          || (s.free != [] && s'.free == s.free[1..] && s'.threads[t] == Allocated(s.free[0]))
          || (s.threads[t].AllocLoaded? && s.threads[t].sawEmpty && s'.threads[t] == Idle(Nothing(true))))
    && (s'.threads[t].Idle? && s'.threads[t].ended.Took? ==>
          s'.threads[t] == s.threads[t] || s.threads[t] == Allocated(s'.threads[t].ended.slot))
  }

  /** No step of any run makes an allocation end otherwise; a failed compare-and-swap,
      spurious or not, never ends it. */
  lemma AllocationsEndProperly(s: State, actions: seq<Action>, s': State, a: Action, t: nat)
    requires Initial(s) && Reaches(s, actions, s') && Enabled(s', a) && Timely(s', a) && t < |s'.threads|
    ensures AllocationStep(s', Apply(s', a), t)
  {
    InitialInv(s);
    ReachesKeepsInv(s, actions, s');
    assert ThreadOk(s', t);
    hide Inv, Reaches, Initial;
    EndsProperly(s', a, t);
  }

  lemma EndsProperly(s: State, a: Action, t: nat)
    requires Inv(s) && Enabled(s, a) && Timely(s, a) && t < |s.threads| && ThreadOk(s, t)
    ensures AllocationStep(s, Apply(s, a), t)
  {
    if a.AllocCas? && s.head == s.threads[a.t].seen && !a.spurious {
      AllocTakes(s, a.t);
    }
    hide Inv, Timely, First, Remembers;
  }

  /** The step an allocating thread takes next, its compare-and-swap failing only if the word has changed. */
  function OwnStep(th: Thread, t: nat): Action
    requires Allocating(th) || th.Allocated?
  {
    if th.AllocLoaded? then LoadNext(t) else if th.AllocNext? then AllocCas(t, false) else CountDown(t)
  }

  /** From s to s' the thread goes on with its allocation alone, to its end. */
  predicate GoesOnAlone(s: State, t: nat, actions: seq<Action>, s': State): (alone: bool)
    requires t < |s.threads|
    ensures alone ==> |s'.threads| == |s.threads| && s'.threads[t].Idle?
    decreases |actions|
  {
    if actions == [] then s == s' && s.threads[t].Idle?
    else
      && (Allocating(s.threads[t]) || s.threads[t].Allocated?) && actions[0] == OwnStep(s.threads[t], t)
      && Enabled(s, actions[0]) && Timely(s, actions[0]) && GoesOnAlone(Apply(s, actions[0]), t, actions[1..], s')
  }

  lemma OneMore(s: State, t: nat, actions: seq<Action>, s': State) returns (more: seq<Action>)
    requires t < |s.threads| && (Allocating(s.threads[t]) || s.threads[t].Allocated?)
    requires var a := OwnStep(s.threads[t], t);
             Enabled(s, a) && Timely(s, a) && GoesOnAlone(Apply(s, a), t, actions, s')
    ensures more != [] && GoesOnAlone(s, t, more, s')
  {
    more := [OwnStep(s.threads[t], t)] + actions;
    assert more[1..] == actions;
  }

  /** A thread that remembers the present head and its successor takes the slot. */
  lemma FreshTakes(s: State, t: nat) returns (actions: seq<Action>, s': State)
    requires Inv(s) && t < |s.threads| && s.threads[t].AllocNext? && s.threads[t].at == s.version
    ensures s.free != [] && GoesOnAlone(s, t, actions, s') && s'.threads[t] == Idle(Took(s.free[0]))
  {
    assert ThreadOk(s, t);
    HeadInFree(s);
    var s1 := Apply(s, AllocCas(t, false));
    s' := Apply(s1, CountDown(t));
    assert GoesOnAlone(s', t, [], s');
    actions := OneMore(s1, t, [], s');
    actions := OneMore(s, t, actions, s');
  }

  lemma LoadedTakes(s: State, t: nat) returns (actions: seq<Action>, s': State)
    requires Inv(s) && t < |s.threads| && s.threads[t].AllocLoaded? && s.threads[t].at == s.version && s.free != []
    ensures GoesOnAlone(s, t, actions, s') && s'.threads[t] == Idle(Took(s.free[0]))
  {
    assert ThreadOk(s, t);
    EmptyHead(s);
    var s1 := Apply(s, LoadNext(t));
    StepKeepsInv(s, LoadNext(t));
    actions, s' := FreshTakes(s1, t);
    actions := OneMore(s, t, actions, s');
  }

  /** A stale word makes the compare-and-swap fail, and the thread reload and try again. */
  lemma NextTakes(s: State, t: nat) returns (actions: seq<Action>, s': State)
    requires Inv(s) && t < |s.threads| && s.threads[t].AllocNext? && s.free != []
    requires s.version - s.threads[t].at < TAG_SPAN
    ensures GoesOnAlone(s, t, actions, s') && s'.threads[t] == Idle(Took(s.free[0]))
  {
    assert ThreadOk(s, t);
    if s.threads[t].at == s.version {
      actions, s' := FreshTakes(s, t);
    } else {
      if s.head == s.threads[t].seen {
        SameTag(s.threads[t].at, s.version);
        assert false;
      }
      var s1 := Apply(s, AllocCas(t, false));
      StepKeepsInv(s, AllocCas(t, false));
      actions, s' := LoadedTakes(s1, t);
      actions := OneMore(s, t, actions, s');
    }
  }

  /**
   From every reachable state with a free slot, a thread anywhere inside an allocation, with a stale word or not, comes
   to its end when it goes on alone, and with the first free slot exactly unless the word it last loaded is the
   sentinel, which was all there was when it looked.
   */
  lemma AloneGetsSlot(s: State, actions: seq<Action>, s': State, t: nat) returns (rest: seq<Action>, s'': State)
    requires Initial(s) && Reaches(s, actions, s') && s'.free != [] && t < |s'.threads| && Allocating(s'.threads[t])
    requires s'.version - s'.threads[t].at < TAG_SPAN
    ensures GoesOnAlone(s', t, rest, s'')
    ensures s''.threads[t] ==
            Idle(if s'.threads[t].seen.index >= s'.Size() then Nothing(true) else Took(s'.free[0]))
  {
    InitialInv(s);
    ReachesKeepsInv(s, actions, s');
    assert ThreadOk(s', t);
    if s'.threads[t].AllocNext? {
      rest, s'' := NextTakes(s', t);
    } else {
      var s1 := Apply(s', LoadNext(t));
      StepKeepsInv(s', LoadNext(t));
      if s'.threads[t].seen.index >= s'.Size() {
        s'' := s1;
        assert GoesOnAlone(s1, t, [], s1);
        rest := OneMore(s', t, [], s1);
      } else {
        rest, s'' := NextTakes(s1, t);
        rest := OneMore(s', t, rest, s'');
      }
    }
  }

  /** An allocation started now, with something free, and left alone gets the first free slot. */
  lemma StartedAloneGetsSlot(s: State, actions: seq<Action>, s': State, t: nat)
    returns (rest: seq<Action>, s'': State)
    requires Initial(s) && Reaches(s, actions, s') && s'.free != [] && t < |s'.threads| && s'.threads[t].Idle?
    ensures GoesOnAlone(Apply(s', StartAlloc(t)), t, rest, s'') && s''.threads[t] == Idle(Took(s'.free[0]))
  {
    InitialInv(s);
    ReachesKeepsInv(s, actions, s');
    StepKeepsInv(s', StartAlloc(t));
    rest, s'' := LoadedTakes(Apply(s', StartAlloc(t)), t);
  }

  // ---- Uninterrupted calls ----

  function AllocCall(t: nat): seq<Action> { [StartAlloc(t), LoadNext(t), AllocCas(t, false), CountDown(t)] }

  /** A deallocation up to, not including, its counter update. */
  function FreeCall(t: nat, slot: nat): seq<Action> { [StartFree(t, slot), StoreNext(t), FreeCas(t, false)] }

  function NextTag(w: Word, index: nat): Word { Word(index, (w.tag + 1) % TAG_SPAN) }

  function AfterAlloc(s: State, t: nat): State
    requires t < |s.threads| && s.head.index < s.Size()
  {
    s.(head := NextTag(s.head, s.next[s.head.index]), available := s.available - 1,
    threads := s.threads[t := Idle(Took(s.head.index))],
    live := s.live + {s.head.index}, free := Tail(s.free), version := s.version + 1)
  }

  lemma {:induction false} ReachesConcat(s: State, first: seq<Action>, mid: State, second: seq<Action>, s': State)
    requires Reaches(s, first, mid) && Reaches(mid, second, s')
    ensures Reaches(s, first + second, s')
    decreases |first|
  {
    if first == [] {
      assert first + second == second;
    } else {
      ReachesConcat(Apply(s, first[0]), first[1..], mid, second, s');
      assert (first + second)[1..] == first[1..] + second;
    }
  }

  /** An allocation that meets no other thread takes the head slot. */
  lemma SoloAlloc(s: State, t: nat)
    requires t < |s.threads| && s.threads[t].Idle? && s.head.index < s.Size()
    ensures Reaches(s, AllocCall(t), AfterAlloc(s, t))
  {
    var a := AllocCall(t);
    var s1 := Apply(s, a[0]);
    var s2 := Apply(s1, a[1]);
    var s3 := Apply(s2, a[2]);
    var s4 := Apply(s3, a[3]);
    assert s4.threads == s.threads[t := Idle(Took(s.head.index))];
    assert s4.live == s.live + {s.head.index} && s4.free == Tail(s.free)
           && s4.head == NextTag(s.head, s.next[s.head.index]);
    assert s4 == AfterAlloc(s, t);
    hide Apply, AfterAlloc;
    assert Reaches(s4, a[4..], s4);
    assert a[3..][1..] == a[4..] && Reaches(s3, a[3..], s4);
    assert a[2..][1..] == a[3..] && Reaches(s2, a[2..], s4);
    assert a[1..][1..] == a[2..] && Reaches(s1, a[1..], s4);
  }

  function AfterFree(s: State, t: nat, slot: nat): State
    requires t < |s.threads| && slot < s.Size()
  {
    s.(head := NextTag(s.head, slot), next := s.next[slot := s.head.index], live := s.live - {slot},
    free := [slot] + s.free, version := s.version + 1, threads := s.threads[t := Freed])
  }

  lemma SoloFree(s: State, t: nat, slot: nat)
    requires t < |s.threads| && s.threads[t].Idle? && slot in s.live && slot < s.Size()
    ensures Reaches(s, FreeCall(t, slot), AfterFree(s, t, slot))
  {
    var a := FreeCall(t, slot);
    var s1 := Apply(s, a[0]);
    var s2 := Apply(s1, a[1]);
    var s3 := Apply(s2, a[2]);
    assert s3.threads == s.threads[t := Freed];
    assert s3 == AfterFree(s, t, slot);
    assert Reaches(s3, a[3..], s3);
    assert a[2..][1..] == a[3..] && Reaches(s2, a[2..], s3);
    assert a[1..][1..] == a[2..] && Reaches(s1, a[1..], s3);
  }

  /**
   The free-slot counter trails the list and can drop below zero on the way, which the unsigned counter of the source
   shows as a huge number: one thread returns the only slot, another takes it before the first counts it back in.
   */
  lemma CounterDipsBelowZero() returns (s: State, actions: seq<Action>, s': State)
    ensures Initial(s) && Reaches(s, actions, s') && s'.available < 0
  {
    s := State([1], Word(0, 0), 1, [Idle(Never), Idle(Never)], {}, [0], 0);
    SoloAlloc(s, 0);
    var s1 := AfterAlloc(s, 0);
    SoloFree(s1, 0, 0);
    var s2 := AfterFree(s1, 0, 0);
    SoloAlloc(s2, 1);
    s' := AfterAlloc(s2, 1);
    ReachesConcat(s1, FreeCall(0, 0), s2, AllocCall(1), s');
    ReachesConcat(s, AllocCall(0), s1, FreeCall(0, 0) + AllocCall(1), s');
    actions := AllocCall(0) + (FreeCall(0, 0) + AllocCall(1));
  }

  /** The exception is real: thread 1 looks while thread 0 holds the only slot, which then comes back too late. */
  lemma LooksTooEarly() returns (s: State, actions: seq<Action>, s': State)
    ensures Initial(s) && Reaches(s, actions, s') && s'.free == [0]
    ensures |s'.threads| == 2 && s'.threads[1].AllocLoaded?
    ensures GoesOnAlone(s', 1, [LoadNext(1)], Apply(s', LoadNext(1)))
    ensures Apply(s', LoadNext(1)).threads[1] == Idle(Nothing(true))
  {
    s := State([1], Word(0, 0), 1, [Idle(Never), Idle(Never)], {}, [0], 0);
    SoloAlloc(s, 0);
    var s1 := AfterAlloc(s, 0);
    var s2 := Apply(s1, StartAlloc(1));
    assert Reaches(s2, [], s2) && Reaches(s1, [StartAlloc(1)], s2);
    SoloFree(s2, 0, 0);
    s' := AfterFree(s2, 0, 0);
    assert [LoadNext(1)][1..] == [];
    hide Reaches, AfterFree, AfterAlloc;
    ReachesConcat(s1, [StartAlloc(1)], s2, FreeCall(0, 0), s');
    ReachesConcat(s, AllocCall(0), s1, [StartAlloc(1)] + FreeCall(0, 0), s');
    actions := AllocCall(0) + ([StartAlloc(1)] + FreeCall(0, 0));
  }

  // ---- Why the bound on the tag is needed ----

  /** A run in which operations may outlast the tag. */
  predicate ReachesUntimed(s: State, actions: seq<Action>, s': State)
    decreases |actions|
  {
    if actions == [] then s == s'
    else Enabled(s, actions[0]) && ReachesUntimed(Apply(s, actions[0]), actions[1..], s')
  }

  lemma {:induction false} TimedIsUntimed(s: State, first: seq<Action>, mid: State, second: seq<Action>, s': State)
    requires Reaches(s, first, mid) && ReachesUntimed(mid, second, s')
    ensures ReachesUntimed(s, first + second, s')
    decreases |first|
  {
    if first == [] {
      assert first + second == second;
    } else {
      TimedIsUntimed(Apply(s, first[0]), first[1..], mid, second, s');
      assert (first + second)[1..] == first[1..] + second;
    }
  }

  /** The state after k rounds in which thread 1 takes the only free slot and puts it straight back. */
  function Rounds(s: State, k: nat): State {
    s.(head := Word(s.head.index, (s.head.tag + 2 * k) % TAG_SPAN), version := s.version + 2 * k)
  }

  lemma OneRound(s: State) returns (actions: seq<Action>)
    requires |s.threads| == 2 && s.threads[1] == Idle(Returned) && s.head.index == 0 && s.head.tag < TAG_SPAN
    requires s.free == [0] && s.Size() == 3 && s.next[0] == 3 && 0 !in s.live
    ensures Reaches(s, actions, Rounds(s, 1))
  {
    SoloAlloc(s, 1);
    var s1 := AfterAlloc(s, 1);
    var back, s3 := GiveBack(s1);
    hide Reaches;
    OneRoundBack(s, s1, s3);
    hide AfterAlloc, Rounds;
    ReachesConcat(s, AllocCall(1), s1, back, s3);
    actions := AllocCall(1) + back;
  }

  lemma OneRoundBack(s: State, s1: State, s3: State)
    requires |s.threads| == 2 && s.threads[1] == Idle(Returned) && s.head.index == 0 && s.head.tag < TAG_SPAN
    requires s.free == [0] && s.Size() == 3 && s.next[0] == 3 && 0 !in s.live && s1 == AfterAlloc(s, 1)
    requires s3 == s1.(head := NextTag(s1.head, 0), next := s1.next[0 := s1.head.index], live := s1.live - {0},
                   free := [0] + s1.free, version := s1.version + 1, available := s1.available + 1,
                   threads := s1.threads[1 := Idle(Returned)])
    ensures s3 == Rounds(s, 1)
  {
    assert s3.live == s.live && s3.next == s.next && s3.free == s.free && s3.threads == s.threads;
  }

  /** Thread 1 returns slot 0 and counts it in. */
  lemma GiveBack(s: State) returns (actions: seq<Action>, s': State)
    requires |s.threads| == 2 && s.threads[1].Idle? && s.Size() == 3 && 0 in s.live && s.head.tag < TAG_SPAN
    ensures Reaches(s, actions, s')
    ensures s' == s.(head := NextTag(s.head, 0), next := s.next[0 := s.head.index], live := s.live - {0},
                  free := [0] + s.free, version := s.version + 1, available := s.available + 1,
                  threads := s.threads[1 := Idle(Returned)])
  {
    SoloFree(s, 1, 0);
    var s1 := AfterFree(s, 1, 0);
    s' := Apply(s1, CountUp(1));
    assert s'.threads == s.threads[1 := Idle(Returned)];
    assert Reaches(s', [], s') && Reaches(s1, [CountUp(1)], s');
    ReachesConcat(s, FreeCall(1, 0), s1, [CountUp(1)], s');
    actions := FreeCall(1, 0) + [CountUp(1)];
  }

  lemma {:induction false} ManyRounds(s: State, k: nat) returns (actions: seq<Action>)
    requires |s.threads| == 2 && s.threads[1] == Idle(Returned) && s.head.index == 0 && s.head.tag < TAG_SPAN
    requires s.free == [0] && s.Size() == 3 && s.next[0] == 3 && 0 !in s.live
    ensures Reaches(s, actions, Rounds(s, k))
  {
    if k == 0 {
      actions := [];
    } else {
      var before := ManyRounds(s, k - 1);
      var mid := Rounds(s, k - 1);
      var last := OneRound(mid);
      assert Rounds(mid, 1) == Rounds(s, k);
      hide Reaches, Rounds;
      ReachesConcat(s, before, mid, last, Rounds(s, k));
      actions := before + last;
    }
  }

  /** Thread 0 loads the head and its successor, then pauses. */
  lemma StaleRead(s: State) returns (s': State)
    requires s == State([1, 2, 3], Word(0, 0), 3, [Idle(Never), Idle(Never)], {}, [0, 1, 2], 0)
    ensures Reaches(s, [StartAlloc(0), LoadNext(0)], s')
    ensures s' == State([1, 2, 3], Word(0, 0), 3, [AllocNext(Word(0, 0), 0, 1), Idle(Never)], {}, [0, 1, 2], 0)
  {
    var s1 := Apply(s, StartAlloc(0));
    s' := Apply(s1, LoadNext(0));
    assert Reaches(s', [], s') && Reaches(s1, [LoadNext(0)], s') && [StartAlloc(0), LoadNext(0)][1..] == [LoadNext(0)];
  }

  /** The paused thread finds the word it remembers and links a slot that has become live. */
  lemma StaleSuccess(s: State) returns (s': State)
    requires s == State([3, 2, 3], Word(0, 0), 1, [AllocNext(Word(0, 0), 0, 1), Idle(Returned)], {1, 2}, [0], TAG_SPAN)
    ensures s' == Apply(s, AllocCas(0, false)) && s'.head.index in s'.live && !Safe(s')
  {
    s' := Apply(s, AllocCas(0, false));
    assert s'.head.index == 1 && s'.free == [];
  }

  /** Without the bound the tag comes round again, a stale successor is installed, and a
      live slot heads the free list. */
  lemma OutlastingTheTagBreaksThePool() returns (s: State, actions: seq<Action>, s': State)
    ensures Initial(s) && ReachesUntimed(s, actions, s') && s'.head.index in s'.live && !Safe(s')
  {
    s := State([1, 2, 3], Word(0, 0), 3, [Idle(Never), Idle(Never)], {}, [0, 1, 2], 0);
    var s2 := StaleRead(s);
    var taken, s3 := DrainAndReturn(s2);
    var rest;
    rest, s' := RoundsThenStale(s3);
    hide Reaches, ReachesUntimed, Safe;
    TimedIsUntimed(s2, taken, s3, rest, s');
    TimedIsUntimed(s, [StartAlloc(0), LoadNext(0)], s2, taken + rest, s');
    actions := [StartAlloc(0), LoadNext(0)] + (taken + rest);
  }

  lemma RoundsThenStale(s: State) returns (actions: seq<Action>, s': State)
    requires s == State([3, 2, 3], Word(0, 4), 1, [AllocNext(Word(0, 0), 0, 1), Idle(Returned)], {1, 2}, [0], 4)
    ensures ReachesUntimed(s, actions, s') && s'.head.index in s'.live && !Safe(s')
  {
    var k := (TAG_SPAN - 4) / 2;
    var rounds := ManyRounds(s, k);
    var t := Rounds(s, k);
    var last := AllocCas(0, false);
    s' := StaleSuccess(t);
    assert ReachesUntimed(s', [], s') && ReachesUntimed(t, [last], s');
    TimedIsUntimed(s, rounds, t, [last], s');
    actions := rounds + [last];
  }

  /** Thread 1 takes all three slots and returns slot 0. */
  lemma DrainAndReturn(s: State) returns (actions: seq<Action>, s': State)
    requires s == State([1, 2, 3], Word(0, 0), 3, [AllocNext(Word(0, 0), 0, 1), Idle(Never)], {}, [0, 1, 2], 0)
    ensures Reaches(s, actions, s')
    ensures s' == State([3, 2, 3], Word(0, 4), 1, [AllocNext(Word(0, 0), 0, 1), Idle(Returned)], {1, 2}, [0], 4)
  {
    var taken, mid := TakeAll(s);
    var put;
    put, s' := ReturnZero(mid);
    ReachesConcat(s, taken, mid, put, s');
    actions := taken + put;
  }

  lemma TakeOne(s: State, s': State)
    requires |s.threads| == 2 && s.threads[1].Idle? && s.head.index < s.Size() && s' == AfterAlloc(s, 1)
    ensures Reaches(s, AllocCall(1), s')
  {
    SoloAlloc(s, 1);
  }

  lemma TakeAll(s: State) returns (actions: seq<Action>, s': State)
    requires s == State([1, 2, 3], Word(0, 0), 3, [AllocNext(Word(0, 0), 0, 1), Idle(Never)], {}, [0, 1, 2], 0)
    ensures Reaches(s, actions, s')
    ensures s' == State([1, 2, 3], Word(3, 3), 0, [AllocNext(Word(0, 0), 0, 1), Idle(Took(2))], {0, 1, 2}, [], 3)
  {
    hide Reaches;
    var held := AllocNext(Word(0, 0), 0, 1);
    var s1 := State([1, 2, 3], Word(1, 1), 2, [held, Idle(Took(0))], {0}, [1, 2], 1);
    var s2 := State([1, 2, 3], Word(2, 2), 1, [held, Idle(Took(1))], {0, 1}, [2], 2);
    s' := State([1, 2, 3], Word(3, 3), 0, [held, Idle(Took(2))], {0, 1, 2}, [], 3);
    TakeOne(s, s1);
    TakeOne(s1, s2);
    TakeOne(s2, s');
    ReachesConcat(s1, AllocCall(1), s2, AllocCall(1), s');
    ReachesConcat(s, AllocCall(1), s1, AllocCall(1) + AllocCall(1), s');
    actions := AllocCall(1) + (AllocCall(1) + AllocCall(1));
  }

  lemma ReturnZero(s: State) returns (actions: seq<Action>, s': State)
    requires s == State([1, 2, 3], Word(3, 3), 0, [AllocNext(Word(0, 0), 0, 1), Idle(Took(2))], {0, 1, 2}, [], 3)
    ensures Reaches(s, actions, s')
    ensures s' == State([3, 2, 3], Word(0, 4), 1, [AllocNext(Word(0, 0), 0, 1), Idle(Returned)], {1, 2}, [0], 4)
  {
    actions, s' := GiveBack(s);
    assert s'.live == {1, 2};
  }
}
