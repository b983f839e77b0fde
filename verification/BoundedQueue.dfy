/** The bounded queue of queue.c: the ring buffer with its two mutexes and two
    semaphores, and what holds under every interleaving of its callers. */
module BoundedQueue {

  datatype Ring<T> = Ring(size: int, list: seq<T>, front: int, back: int, elems: int, slots: int)

  /** queue_new.  `blank` is what calloc leaves in the cells. */
  function NewRing<T>(size: int, blank: T): (r: Ring<T>)
    requires size > 0
    ensures Sized(r)
  {
    Ring(size, seq(size, _ => blank), 0, 0, 0, size)
  }

  predicate Sized<T>(r: Ring<T>) {
    0 < r.size == |r.list| && 0 <= r.front < r.size && 0 <= r.back < r.size
  }

  /** The cell of the k-th value round the ring. */
  function Cell(k: nat, n: int): (c: int)
    requires n > 0
    ensures 0 <= c < n
  {
    k % n
  }

  function Write<T>(r: Ring<T>, x: T): Ring<T>
    requires Sized(r)
  {
    r.(list := r.list[r.back := x])
  }

  function AdvanceBack<T>(r: Ring<T>): Ring<T>
    requires Sized(r)
  {
    r.(back := Cell(r.back + 1, r.size))
  }

  function AdvanceFront<T>(r: Ring<T>): Ring<T>
    requires Sized(r)
  {
    r.(front := Cell(r.front + 1, r.size))
  }

  function AddSlots<T>(r: Ring<T>, d: int): Ring<T> {
    r.(slots := r.slots + d)
  }

  function AddElems<T>(r: Ring<T>, d: int): Ring<T> {
    r.(elems := r.elems + d)
  }

  // All threads together

  type Tid = nat

  datatype Owner = Free | HeldBy(t: Tid)

  /** Where a thread stands in queue_push or queue_pop; the name says what it does
      next.  A popping thread that has read carries what it read. */
  datatype Place<T> =
    | Outside
    | PushWait(x: T) | PushLock(x: T) | PushWrite(x: T) | PushAdvance | PushUnlock | PushPost
    | PopWait | PopLock | PopRead | PopAdvance(x: T) | PopUnlock(x: T) | PopPost(x: T)

  /** `written` and `taken` record every value written to the ring and read from
      it, in that order. */
  datatype World<T> = World(
    ring: Ring<T>,
    frontMutex: Owner,
    backMutex: Owner,
    place: map<Tid, Place<T>>,
    written: seq<T>,
    taken: seq<T>)

  function At<T>(w: World<T>, t: Tid): Place<T> {
    if t in w.place then w.place[t] else Outside
  }

  datatype Action<T> = Push(t: Tid, x: T) | Pop(t: Tid) | Go(t: Tid)

  /** A thread waits at a semaphore without tokens and at a mutex that is held. */
  predicate Enabled<T>(w: World<T>, a: Action<T>) {
    match a
    case Push(t, _) => At(w, t).Outside?
    case Pop(t) => At(w, t).Outside?
    case Go(t) =>
      match At(w, t)
      case Outside => false
      case PushWait(_) => w.ring.slots > 0
      case PushLock(_) => w.backMutex == Free
      case PopWait => w.ring.elems > 0
      case PopLock => w.frontMutex == Free
      case _ => true
  }

  function Put<T>(w: World<T>, t: Tid, p: Place<T>): World<T> {
    w.(place := w.place[t := p])
  }

  /** One step of thread t inside queue_push or queue_pop. */
  function Advance<T>(w: World<T>, t: Tid): (v: World<T>)
    requires Sized(w.ring)
    ensures Sized(v.ring) && v.ring.size == w.ring.size
  {
    var r := w.ring;
    match At(w, t)
    case Outside => w
    case PushWait(x) => Put(w, t, PushLock(x)).(ring := AddSlots(r, -1))
    case PushLock(x) => Put(w, t, PushWrite(x)).(backMutex := HeldBy(t))
    case PushWrite(x) => Put(w, t, PushAdvance).(ring := Write(r, x), written := w.written + [x])
    case PushAdvance => Put(w, t, PushUnlock).(ring := AdvanceBack(r))
    case PushUnlock => Put(w, t, PushPost).(backMutex := Free)
    case PushPost => Put(w, t, Outside).(ring := AddElems(r, 1))
    case PopWait => Put(w, t, PopLock).(ring := AddElems(r, -1))
    case PopLock => Put(w, t, PopRead).(frontMutex := HeldBy(t))
    case PopRead => Put(w, t, PopAdvance(r.list[r.front])).(taken := w.taken + [r.list[r.front]])
    case PopAdvance(x) => Put(w, t, PopUnlock(x)).(ring := AdvanceFront(r))
    case PopUnlock(x) => Put(w, t, PopPost(x)).(frontMutex := Free)
    case PopPost(x) => Put(w, t, Outside).(ring := AddSlots(r, 1))
  }

  function Step<T>(w: World<T>, a: Action<T>): (v: World<T>)
    requires Sized(w.ring)
    ensures Sized(v.ring) && v.ring.size == w.ring.size
  {
    match a
    case Push(t, x) => Put(w, t, PushWait(x))
    case Pop(t) => Put(w, t, PopWait)
    case Go(t) => Advance(w, t)
  }

  function Init<T>(size: int, blank: T): (w: World<T>)
    requires size > 0
    ensures Sized(w.ring)
  {
    World(NewRing(size, blank), Free, Free, map[], [], [])
  }

  predicate Runs<T>(w: World<T>, run: seq<Action<T>>)
    requires Sized(w.ring)
    decreases |run|
  {
    run == [] || (Enabled(w, run[0]) && Runs(Step(w, run[0]), run[1..]))
  }

  function After<T>(w: World<T>, run: seq<Action<T>>): (v: World<T>)
    requires Sized(w.ring)
    ensures Sized(v.ring) && v.ring.size == w.ring.size
    decreases |run|
  {
    if run == [] then w else After(Step(w, run[0]), run[1..])
  }

  // The invariant

  /** Which token a thread carries: a slot not yet written, an element written and
      not yet announced, an element not yet read, a slot read and not yet given back. */
  datatype Token = NoToken | Slot | NewElem | Elem | FreedSlot

  function TokenOf<T>(p: Place<T>): Token {
    match p
    case PushLock(_) => Slot
    case PushWrite(_) => Slot
    case PushAdvance => NewElem
    case PushUnlock => NewElem
    case PushPost => NewElem
    case PopLock => Elem
    case PopRead => Elem
    case PopAdvance(_) => FreedSlot
    case PopUnlock(_) => FreedSlot
    case PopPost(_) => FreedSlot
    case _ => NoToken
  }

  ghost function Carriers<T>(place: map<Tid, Place<T>>, k: Token): set<Tid> {
    set t | t in place && TokenOf(place[t]) == k
  }

  /** Every slot of the ring is accounted for, and so is every element. */
  ghost predicate Conserved<T>(w: World<T>) {
    && w.ring.slots >= 0 && w.ring.elems >= 0
    && w.ring.slots + |Carriers(w.place, Slot)| + |w.written| - |w.taken| + |Carriers(w.place, FreedSlot)| == w.ring.size
    && w.ring.elems + |Carriers(w.place, Elem)| + |Carriers(w.place, NewElem)| == |w.written| - |w.taken|
  }

  predicate HasBack<T>(p: Place<T>) {
    p.PushWrite? || p.PushAdvance? || p.PushUnlock?
  }

  predicate HasFront<T>(p: Place<T>) {
    p.PopRead? || p.PopAdvance? || p.PopUnlock?
  }

  ghost predicate OwnedAt<T>(w: World<T>, t: Tid) {
    && (HasBack(At(w, t)) <==> w.backMutex == HeldBy(t))
    && (HasFront(At(w, t)) <==> w.frontMutex == HeldBy(t))
  }

  /** Exactly the owner of a mutex is between its lock and its unlock. */
  ghost predicate Owned<T>(w: World<T>) {
    forall t: Tid :: OwnedAt(w, t)
  }

  predicate BackLags<T>(w: World<T>) {
    w.backMutex.HeldBy? && At(w, w.backMutex.t).PushAdvance?
  }

  predicate FrontLags<T>(w: World<T>) {
    w.frontMutex.HeldBy? && At(w, w.frontMutex.t).PopAdvance?
  }

  predicate BackIndexed<T>(w: World<T>)
    requires Sized(w.ring)
  {
    && (BackLags(w) ==> |w.written| > 0)
    && w.ring.back == Cell(if BackLags(w) then |w.written| - 1 else |w.written|, w.ring.size)
  }

  predicate FrontIndexed<T>(w: World<T>)
    requires Sized(w.ring)
  {
    && (FrontLags(w) ==> |w.taken| > 0)
    && w.ring.front == Cell(if FrontLags(w) then |w.taken| - 1 else |w.taken|, w.ring.size)
  }

  /** The two indices follow the two counts round the ring. */
  predicate Indexed<T>(w: World<T>)
    requires Sized(w.ring)
  {
    BackIndexed(w) && FrontIndexed(w)
  }

  /** What was taken is what was written first, and the ring holds the rest. */
  predicate Stored<T(==)>(w: World<T>)
    requires Sized(w.ring)
  {
    && |w.taken| <= |w.written| && w.taken == w.written[..|w.taken|]
    && forall k :: |w.taken| <= k < |w.written| ==> w.ring.list[Cell(k, w.ring.size)] == w.written[k]
  }

  ghost predicate Inv<T>(w: World<T>) {
    Sized(w.ring) && Conserved(w) && Owned(w) && Indexed(w) && Stored(w)
  }

  // Every step keeps the invariant

  ghost predicate SizeAfterPut<T>(place: map<Tid, Place<T>>, t: Tid, p: Place<T>, k: Token) {
    |Carriers(place[t := p], k)| ==
    |Carriers(place, k)| - (if t in place && TokenOf(place[t]) == k then 1 else 0) + (if TokenOf(p) == k then 1 else 0)
  }

  lemma CarriersAfterPut<T>(place: map<Tid, Place<T>>, t: Tid, p: Place<T>, k: Token)
    ensures SizeAfterPut(place, t, p, k)
  {
    var rest := Carriers(place, k) - {t};
    assert Carriers(place[t := p], k) == if TokenOf(p) == k then rest + {t} else rest;
    assert t in place && TokenOf(place[t]) == k ==> Carriers(place, k) == rest + {t};
    assert !(t in place && TokenOf(place[t]) == k) ==> Carriers(place, k) == rest;
  }

  /** What a step does to the semaphores and to the histories' lengths. */
  lemma StepCounts<T>(w: World<T>, a: Action<T>)
    requires Sized(w.ring)
    ensures var p, v, go := At(w, a.t), Step(w, a), a.Go?;
            && v.ring.slots == w.ring.slots + (if go && p.PushWait? then -1 else if go && p.PopPost? then 1 else 0)
            && v.ring.elems == w.ring.elems + (if go && p.PopWait? then -1 else if go && p.PushPost? then 1 else 0)
            && |v.written| == |w.written| + (if go && p.PushWrite? then 1 else 0)
            && |v.taken| == |w.taken| + (if go && p.PopRead? then 1 else 0)
  {
    hide Cell;
  }

  /** Which token the thread carries after its step. */
  lemma StepToken<T>(w: World<T>, a: Action<T>)
    requires Sized(w.ring) && Enabled(w, a)
    ensures TokenOf(At(Step(w, a), a.t)) ==
            if !a.Go? then NoToken
            else match At(w, a.t)
              case PushWait(_) => Slot
              case PushWrite(_) => NewElem
              case PushPost => NoToken
              case PopWait => Elem
              case PopRead => FreedSlot
              case PopPost(_) => NoToken
              case p => TokenOf(p)
  {
    hide Write, AdvanceBack, AdvanceFront;
  }

  lemma StepConserves<T>(w: World<T>, a: Action<T>)
    requires Sized(w.ring) && Conserved(w) && Enabled(w, a)
    ensures Conserved(Step(w, a))
  {
    hide Carriers, Step;
    var p := At(Step(w, a), a.t);
    StepPlace(w, a);
    StepCounts(w, a);
    StepToken(w, a);
    StepSize(w, a);
    CarriersAfterPut(w.place, a.t, p, Slot);
    CarriersAfterPut(w.place, a.t, p, NewElem);
    CarriersAfterPut(w.place, a.t, p, Elem);
    CarriersAfterPut(w.place, a.t, p, FreedSlot);
  }

  lemma StepSize<T>(w: World<T>, a: Action<T>)
    requires Sized(w.ring)
    ensures Step(w, a).ring.size == w.ring.size
  {
  }

  lemma StepOwned<T>(w: World<T>, a: Action<T>)
    requires Sized(w.ring) && Owned(w) && Enabled(w, a)
    ensures Owned(Step(w, a))
  {
    hide Step;
    forall t: Tid ensures OwnedAt(Step(w, a), t) {
      StepOwnedAt(w, a, t);
    }
  }

  lemma StepPlace<T>(w: World<T>, a: Action<T>)
    requires Sized(w.ring) && Enabled(w, a)
    ensures Step(w, a).place == w.place[a.t := At(Step(w, a), a.t)]
  {
    hide Write, AdvanceBack, AdvanceFront;
  }

  /** Who takes, gives back or keeps the mutex of the producers in a step. */
  lemma StepBackMutex<T>(w: World<T>, a: Action<T>)
    requires Sized(w.ring) && Enabled(w, a)
    ensures var p, q, v := At(w, a.t), At(Step(w, a), a.t), Step(w, a);
            && (HasBack(q) == HasBack(p) ==> v.backMutex == w.backMutex)
            && (HasBack(q) && !HasBack(p) ==> w.backMutex == Free && v.backMutex == HeldBy(a.t))
            && (HasBack(p) && !HasBack(q) ==> v.backMutex == Free)
  {
    hide Write, AdvanceBack, AdvanceFront;
  }

  lemma StepFrontMutex<T>(w: World<T>, a: Action<T>)
    requires Sized(w.ring) && Enabled(w, a)
    ensures var p, q, v := At(w, a.t), At(Step(w, a), a.t), Step(w, a);
            && (HasFront(q) == HasFront(p) ==> v.frontMutex == w.frontMutex)
            && (HasFront(q) && !HasFront(p) ==> w.frontMutex == Free && v.frontMutex == HeldBy(a.t))
            && (HasFront(p) && !HasFront(q) ==> v.frontMutex == Free)
  {
    hide Write, AdvanceBack, AdvanceFront;
  }

  lemma StepOwnedAt<T>(w: World<T>, a: Action<T>, t: Tid)
    requires Sized(w.ring) && Owned(w) && Enabled(w, a)
    ensures OwnedAt(Step(w, a), t)
  {
    hide Step, Enabled, HasBack, HasFront;
    assert OwnedAt(w, t) && OwnedAt(w, a.t);
    StepPlace(w, a);
    StepBackMutex(w, a);
    StepFrontMutex(w, a);
  }

  /** Going round the ring in two stretches. */
  lemma CellShift(k: nat, i: nat, n: int)
    requires n > 0
    ensures Cell(Cell(k, n) + i, n) == Cell(k + i, n)
  {
    var s := k % n + i;
    assert n * (k / n + s / n) == n * (k / n) + n * (s / n);
    RemainderUnique(k + i, n, k / n + s / n, s % n);
  }

  lemma MulMono(n: nat, a: int, b: int)
    requires a <= b
    ensures n * a <= n * b
  {
    assert n * b == n * a + n * (b - a);
  }

  lemma RemainderUnique(k: int, n: int, q: int, r: int)
    requires n > 0 && k == n * q + r && 0 <= r < n
    ensures k % n == r
  {
    var p := k / n;
    if p < q {
      MulMono(n, p + 1, q);
    } else if p > q {
      MulMono(n, q + 1, p);
    }
  }

  /** The same cell comes round only every n places. */
  lemma SameCellFarApart(i: nat, j: nat, n: int)
    requires n > 0 && i < j
    ensures Cell(i, n) == Cell(j, n) ==> j >= i + n
  {
    var a, b := i / n, j / n;
    if b <= a {
      MulMono(n, b, a);
    } else {
      MulMono(n, a + 1, b);
    }
  }

  /** What a step does to the indices, and which of them lag behind afterwards. */
  lemma StepMoves<T>(w: World<T>, a: Action<T>)
    requires Sized(w.ring)
    ensures var p, v, go := At(w, a.t), Step(w, a), a.Go?;
            && At(v, a.t).PushAdvance? == (go && p.PushWrite?) && At(v, a.t).PopAdvance? == (go && p.PopRead?)
            && v.ring.back == (if go && p.PushAdvance? then Cell(w.ring.back + 1, w.ring.size) else w.ring.back)
            && v.ring.front == (if go && p.PopAdvance? then Cell(w.ring.front + 1, w.ring.size) else w.ring.front)
  {
    hide Cell;
  }

  lemma StepBackIndexed<T>(w: World<T>, a: Action<T>)
    requires Sized(w.ring) && Owned(w) && BackIndexed(w) && Enabled(w, a)
    ensures BackIndexed(Step(w, a))
  {
    StepOwned(w, a);
    var v := Step(w, a);
    assert OwnedAt(w, a.t) && OwnedAt(v, a.t);
    StepMoves(w, a);
    StepCounts(w, a);
    StepPlace(w, a);
    StepBackMutex(w, a);
    hide Step, Cell, OwnedAt, Owned;
    if a.Go? && At(w, a.t).PushAdvance? {
      CellShift(|w.written| - 1, 1, w.ring.size);
    }
  }

  lemma StepFrontIndexed<T>(w: World<T>, a: Action<T>)
    requires Sized(w.ring) && Owned(w) && FrontIndexed(w) && Enabled(w, a)
    ensures FrontIndexed(Step(w, a))
  {
    StepOwned(w, a);
    var v := Step(w, a);
    assert OwnedAt(w, a.t) && OwnedAt(v, a.t);
    StepMoves(w, a);
    StepCounts(w, a);
    StepPlace(w, a);
    StepFrontMutex(w, a);
    hide Step, Cell, OwnedAt, Owned;
    if a.Go? && At(w, a.t).PopAdvance? {
      CellShift(|w.taken| - 1, 1, w.ring.size);
    }
  }

  lemma Carried<T>(place: map<Tid, Place<T>>, t: Tid)
    requires t in place
    ensures |Carriers(place, TokenOf(place[t]))| > 0
  {
    assert t in Carriers(place, TokenOf(place[t]));
  }

  /** A thread about to write has room, at the cell that comes next. */
  lemma RoomToWrite<T>(w: World<T>, t: Tid)
    requires Inv(w) && At(w, t).PushWrite?
    ensures |w.written| - |w.taken| < w.ring.size && w.ring.back == Cell(|w.written|, w.ring.size)
  {
    Carried(w.place, t);
    assert OwnedAt(w, t);
  }

  /** A thread about to read has an element, at the cell of the oldest one. */
  lemma ElementToRead<T>(w: World<T>, t: Tid)
    requires Inv(w) && At(w, t).PopRead?
    ensures |w.taken| < |w.written| && w.ring.front == Cell(|w.taken|, w.ring.size)
    ensures w.ring.list[w.ring.front] == w.written[|w.taken|]
  {
    Carried(w.place, t);
    assert OwnedAt(w, t);
  }

  lemma StepStored<T>(w: World<T>, a: Action<T>)
    requires Inv(w) && Enabled(w, a)
    ensures Stored(Step(w, a))
  {
    hide Conserved, Owned, Indexed;
    var v := Step(w, a);
    if a.Go? && At(w, a.t).PushWrite? {
      RoomToWrite(w, a.t);
      forall k | |v.taken| <= k < |v.written| ensures v.ring.list[Cell(k, v.ring.size)] == v.written[k] {
        if k < |w.written| {
          SameCellFarApart(k, |w.written|, w.ring.size);
        }
      }
    } else if a.Go? && At(w, a.t).PopRead? {
      ElementToRead(w, a.t);
      assert v.taken == v.written[..|v.taken|];
    }
  }

  /** Every step keeps the invariant. */
  lemma StepKeepsInv<T>(w: World<T>, a: Action<T>)
    requires Inv(w) && Enabled(w, a)
    ensures Inv(Step(w, a))
  {
    hide Conserved, Owned, BackIndexed, FrontIndexed, Stored;
    StepConserves(w, a);
    StepOwned(w, a);
    StepBackIndexed(w, a);
    StepFrontIndexed(w, a);
    StepStored(w, a);
  }

  lemma InitInv<T>(size: int, blank: T)
    requires size > 0
    ensures Inv(Init(size, blank))
  {
    assert forall k: Token :: Carriers(Init(size, blank).place, k) == {};
  }

  lemma {:induction false} RunKeepsInv<T>(w: World<T>, run: seq<Action<T>>)
    requires Inv(w) && Runs(w, run)
    ensures Inv(After(w, run))
    decreases |run|
  {
    if run != [] {
      StepKeepsInv(w, run[0]);
      RunKeepsInv(Step(w, run[0]), run[1..]);
    }
  }

  // What the queue is for

  /** What is in the queue, oldest first. */
  function Waiting<T>(w: World<T>): seq<T>
    requires |w.taken| <= |w.written|
  {
    w.written[|w.taken|..]
  }

  /** First in, first out, nothing lost and nothing twice: in every run what was
      taken is a prefix of what was written, and the rest, at most `size` values,
      is in the ring. */
  lemma FirstInFirstOut<T>(size: int, blank: T, run: seq<Action<T>>)
    requires size > 0 && Runs(Init(size, blank), run)
    ensures var w := After(Init(size, blank), run);
            && |w.taken| <= |w.written| && w.written == w.taken + Waiting(w)
            && |Waiting(w)| <= size
            && forall i :: 0 <= i < |Waiting(w)| ==> w.ring.list[Cell(|w.taken| + i, size)] == Waiting(w)[i]
  {
    InitInv(size, blank);
    RunKeepsInv(Init(size, blank), run);
  }

  /** A write and a read in progress, under their two mutexes, touch different cells. */
  lemma WriteAndReadApart<T>(w: World<T>, t: Tid, u: Tid)
    requires Inv(w) && At(w, t).PushWrite? && At(w, u).PopRead?
    ensures w.ring.back != w.ring.front
  {
    RoomToWrite(w, t);
    ElementToRead(w, u);
    SameCellFarApart(|w.taken|, |w.written|, w.ring.size);
  }

  // Refinement of an atomic queue

  /** The write of a push, or the read of a pop, and whose it is. */
  datatype Event<T> = Enqueue(t: Tid, x: T) | Dequeue(t: Tid, x: T)

  /** The trace of an atomic queue that starts with q and holds at most cap values. */
  predicate FifoTrace<T(==)>(q: seq<T>, cap: int, trace: seq<Event<T>>)
    decreases |trace|
  {
    trace == [] ||
    match trace[0]
    case Enqueue(_, x) => |q| < cap && FifoTrace(q + [x], cap, trace[1..])
    case Dequeue(_, x) => q != [] && q[0] == x && FifoTrace(q[1..], cap, trace[1..])
  }

  /** The event of a step, if it is the write of a push or the read of a pop. */
  function EventOf<T>(w: World<T>, a: Action<T>): seq<Event<T>>
    requires Sized(w.ring)
  {
    if a.Go? && At(w, a.t).PushWrite? then [Enqueue(a.t, At(w, a.t).x)]
    else if a.Go? && At(w, a.t).PopRead? then [Dequeue(a.t, At(Advance(w, a.t), a.t).x)]
    else []
  }

  function Trace<T>(w: World<T>, run: seq<Action<T>>): seq<Event<T>>
    requires Sized(w.ring)
    decreases |run|
  {
    if run == [] then [] else EventOf(w, run[0]) + Trace(Step(w, run[0]), run[1..])
  }

  /** Only the events show in the two histories. */
  lemma StepHistories<T>(w: World<T>, a: Action<T>)
    requires Sized(w.ring)
    ensures var e, v := EventOf(w, a), Step(w, a);
            && (e == [] ==> v.written == w.written && v.taken == w.taken)
            && (e != [] ==> |e| == 1)
            && (e != [] && e[0].Enqueue? ==>
                  At(w, a.t).PushWrite? && v.written == w.written + [e[0].x] && v.taken == w.taken)
            && (e != [] && e[0].Dequeue? ==>
                  At(w, a.t).PopRead? && v.written == w.written && v.taken == w.taken + [e[0].x])
  {
    hide Write, AdvanceBack, AdvanceFront;
  }

  /** A step enqueues, or dequeues the oldest value for its thread, or changes
      nothing that shows. */
  lemma StepRefines<T>(w: World<T>, a: Action<T>)
    requires Inv(w) && Enabled(w, a)
    ensures |Step(w, a).taken| <= |Step(w, a).written|
    ensures var e := EventOf(w, a);
            || (e == [] && Waiting(Step(w, a)) == Waiting(w))
            || (|e| == 1 && e[0].Enqueue? && |Waiting(w)| < w.ring.size && Waiting(Step(w, a)) == Waiting(w) + [e[0].x])
            || (|e| == 1 && e[0].Dequeue? && Waiting(w) == [e[0].x] + Waiting(Step(w, a)))
  {
    hide Conserved, Owned, Indexed, Step, EventOf, Enabled, Cell;
    StepStored(w, a);
    StepHistories(w, a);
    var e := EventOf(w, a);
    if e != [] {
      if e[0].Enqueue? {
        RoomToWrite(w, a.t);
      } else {
        ElementToRead(w, a.t);
        assert Step(w, a).taken[|w.taken|] == w.written[|w.taken|];
      }
    }
  }

  /** Every run, with its pushes and pops overlapping in any way, is a run of an
      atomic bounded queue. */
  lemma {:induction false} RunRefines<T>(w: World<T>, run: seq<Action<T>>)
    requires Inv(w) && Runs(w, run)
    ensures |w.taken| <= |w.written| && FifoTrace(Waiting(w), w.ring.size, Trace(w, run))
    decreases |run|
  {
    assert Stored(w);
    hide Inv, Step, EventOf, Enabled, Waiting, Stored;
    if run != [] {
      var v := Step(w, run[0]);
      StepKeepsInv(w, run[0]);
      StepRefines(w, run[0]);
      RunRefines(v, run[1..]);
      var e := EventOf(w, run[0]);
      if e != [] {
        assert (e + Trace(v, run[1..]))[1..] == Trace(v, run[1..]);
        assert e[0].Dequeue? ==> Waiting(w)[1..] == Waiting(v);
      } else {
        assert e + Trace(v, run[1..]) == Trace(v, run[1..]);
      }
    }
  }

  // Never stuck

  /** No call under way can take a step. */
  ghost predicate Stuck<T>(w: World<T>) {
    forall t: Tid :: !Enabled(w, Go(t))
  }

  /** Calls are held up only at the semaphores, pushes exactly by a full queue and
      pops exactly by an empty one. */
  lemma StuckOnlyAtSemaphores<T>(w: World<T>)
    requires Inv(w)
    ensures Stuck(w) <==>
              && (forall t: Tid :: At(w, t).Outside? || At(w, t).PushWait? || At(w, t).PopWait?)
              && (forall t: Tid :: At(w, t).PushWait? ==> |Waiting(w)| == w.ring.size)
              && (forall t: Tid :: At(w, t).PopWait? ==> Waiting(w) == [])
  {
    if Stuck(w) {
      forall t: Tid ensures At(w, t).Outside? || At(w, t).PushWait? || At(w, t).PopWait? {
        NobodyInside(w, t);
      }
      NoTokensOut(w);
      forall t: Tid | At(w, t).PushWait? ensures |Waiting(w)| == w.ring.size {
        assert !Enabled(w, Go(t));
      }
      forall t: Tid | At(w, t).PopWait? ensures Waiting(w) == [] {
        assert !Enabled(w, Go(t));
      }
    } else if forall t: Tid :: At(w, t).Outside? || At(w, t).PushWait? || At(w, t).PopWait? {
      NoTokensOut(w);
      var t :| Enabled(w, Go(t));
    }
  }

  /** A call that waits for a mutex waits for one that can move. */
  lemma MutexOwnerMoves<T>(w: World<T>, t: Tid)
    requires Inv(w) && (At(w, t).PushLock? || At(w, t).PopLock?)
    ensures exists u :: Enabled(w, Go(u))
  {
    var m := if At(w, t).PushLock? then w.backMutex else w.frontMutex;
    if m == Free {
      assert Enabled(w, Go(t));
    } else {
      assert OwnedAt(w, m.t);
      assert Enabled(w, Go(m.t));
    }
  }

  lemma NobodyInside<T>(w: World<T>, t: Tid)
    requires Inv(w) && Stuck(w)
    ensures At(w, t).Outside? || At(w, t).PushWait? || At(w, t).PopWait?
  {
    hide Inv;
    if At(w, t).PushLock? || At(w, t).PopLock? {
      MutexOwnerMoves(w, t);
    } else {
      assert !Enabled(w, Go(t));
    }
  }

  lemma NoTokensOut<T>(w: World<T>)
    requires Inv(w) && forall t: Tid :: At(w, t).Outside? || At(w, t).PushWait? || At(w, t).PopWait?
    ensures w.ring.slots == w.ring.size - |Waiting(w)| && w.ring.elems == |Waiting(w)|
  {
    hide Owned, Indexed;
    forall k: Token | k != NoToken ensures Carriers(w.place, k) == {} {
      forall t | t in w.place ensures TokenOf(w.place[t]) != k {
        assert At(w, t) == w.place[t];
      }
    }
  }

  // The object

  class Queue<T> {
    const size: int
    const list: array<T>
    var front: int
    var back: int
    var elemAvailable: int
    var slotAvailable: int

    ghost function State(): Ring<T>
      reads this, list
    {
      Ring(size, list[..], front, back, elemAvailable, slotAvailable)
    }

    constructor (n: int, blank: T)
      requires n > 0
      ensures State() == NewRing(n, blank) && Represents(State(), []) && fresh(list)
    {
      size := n;
      list := new T[n](_ => blank);
      front, back, elemAvailable, slotAvailable := 0, 0, 0, n;
    }

    /** The two statements of queue_push between lock and unlock of its mutex. */
    method PutIn(x: T)
      requires Sized(State())
      modifies this`back, list
      ensures State() == AdvanceBack(Write(old(State()), x))
    {
      list[back] := x;
      back := (back + 1) % size;
    }

    /** The two statements of queue_pop between lock and unlock of its mutex. */
    method TakeOut() returns (x: T)
      requires Sized(State())
      modifies this`front
      ensures State() == AdvanceFront(old(State())) && x == old(State()).list[old(front)]
    {
      x := list[front];
      front := (front + 1) % size;
    }
  }

  /** With no call under way: the ring holds the values of q. */
  ghost predicate Represents<T>(r: Ring<T>, q: seq<T>) {
    && Sized(r) && |q| <= r.size && r.elems == |q| && r.slots == r.size - |q|
    && r.back == Cell(r.front + |q|, r.size)
    && forall i :: 0 <= i < |q| ==> r.list[Cell(r.front + i, r.size)] == q[i]
  }

  /** Whenever all calls have returned, the ring holds what is waiting. */
  lemma QuietRing<T>(w: World<T>)
    requires Inv(w) && forall t: Tid :: At(w, t).Outside?
    ensures Represents(w.ring, Waiting(w))
  {
    NoTokensOut(w);
    assert !BackLags(w) && !FrontLags(w);
    var q := Waiting(w);
    CellShift(|w.taken|, |q|, w.ring.size);
    forall i | 0 <= i < |q| ensures w.ring.list[Cell(w.ring.front + i, w.ring.size)] == q[i] {
      CellShift(|w.taken|, i, w.ring.size);
      assert w.ring.list[Cell(|w.taken| + i, w.ring.size)] == w.written[|w.taken| + i];
    }
  }

  lemma PushRepresents<T>(r: Ring<T>, q: seq<T>, x: T)
    requires Represents(r, q) && |q| < r.size
    ensures Represents(AddElems(AdvanceBack(Write(AddSlots(r, -1), x)), 1), q + [x])
  {
    CellShift(r.front + |q|, 1, r.size);
    var v := AddElems(AdvanceBack(Write(AddSlots(r, -1), x)), 1);
    forall i | 0 <= i < |q| + 1 ensures v.list[Cell(v.front + i, v.size)] == (q + [x])[i] {
      if i < |q| {
        SameCellFarApart(r.front + i, r.front + |q|, r.size);
      }
    }
  }

  lemma PopRepresents<T>(r: Ring<T>, q: seq<T>)
    requires Represents(r, q) && q != []
    ensures r.list[r.front] == q[0]
    ensures Represents(AddSlots(AdvanceFront(AddElems(r, -1)), 1), q[1..])
  {
    RemainderUnique(r.front, r.size, 0, r.front);
    assert r.list[Cell(r.front + 0, r.size)] == q[0];
    CellShift(r.front + 1, |q| - 1, r.size);
    var v := AddSlots(AdvanceFront(AddElems(r, -1)), 1);
    forall i | 0 <= i < |q| - 1 ensures v.list[Cell(v.front + i, v.size)] == q[1..][i] {
      CellShift(r.front + 1, i, r.size);
      assert r.list[Cell(r.front + (i + 1), r.size)] == q[i + 1];
    }
  }

  /** What a call without company comes to: false for a NULL queue, sleep in
      sem_wait, or true. */
  datatype Outcome = NoQueue | Sleeps | Done

  /** queue_push without company: appends, or sleeps exactly on a full queue. */
  method QueuePush<T>(q: Queue?<T>, x: T, ghost held: seq<T>) returns (o: Outcome)
    requires q != null ==> Represents(q.State(), held)
    modifies if q == null then {} else {q, q.list}
    ensures o == if q == null then NoQueue else if |held| == q.size then Sleeps else Done
    ensures q != null ==> Represents(q.State(), if o.Done? then held + [x] else held)
  {
    if q == null {
      return NoQueue;
    }
    RepresentsShape(q.State(), held);
    if q.slotAvailable == 0 {
      return Sleeps;
    }
    PushRepresents(q.State(), held, x);
    hide Represents;
    q.slotAvailable := q.slotAvailable - 1;
    q.PutIn(x);
    q.elemAvailable := q.elemAvailable + 1;
    o := Done;
  }

  /** queue_pop without company: takes the oldest value, or sleeps exactly on an
      empty queue.  `blank` stands for what *elem held before. */
  method QueuePop<T>(q: Queue?<T>, blank: T, ghost held: seq<T>) returns (o: Outcome, x: T)
    requires q != null ==> Represents(q.State(), held)
    modifies if q == null then {} else {q}
    ensures o == if q == null then NoQueue else if held == [] then Sleeps else Done
    ensures q != null ==> Represents(q.State(), if o.Done? then held[1..] else held)
    ensures x == if o.Done? then held[0] else blank
  {
    x := blank;
    if q == null {
      return NoQueue, x;
    }
    RepresentsShape(q.State(), held);
    if q.elemAvailable == 0 {
      return Sleeps, x;
    }
    PopRepresents(q.State(), held);
    hide Represents;
    q.elemAvailable := q.elemAvailable - 1;
    x := q.TakeOut();
    q.slotAvailable := q.slotAvailable + 1;
    o := Done;
  }

  lemma RepresentsShape<T>(r: Ring<T>, q: seq<T>)
    requires Represents(r, q)
    ensures Sized(r) && (r.slots == 0 <==> |q| == r.size) && (r.elems == 0 <==> q == [])
  {
  }
}
