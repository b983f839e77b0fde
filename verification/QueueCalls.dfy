/** The callers of queue_push and queue_pop: what they pass in and what they get back
    when their calls overlap in any way. */
module QueueCalls {
  import opened BoundedQueue

  datatype Call<T> = PushCall(x: T) | PopCall

  /** Both calls return true, and queue_pop stores what it took behind elem. */
  datatype Answer<T> = Pushed | Popped(x: T)

  /** The calls of t, in the order in which it makes them. */
  function Calls<T>(run: seq<Action<T>>, t: Tid): seq<Call<T>>
    decreases |run|
  {
    if run == [] then [] else CallIn(run[0], t) + Calls(run[1..], t)
  }

  function CallIn<T>(a: Action<T>, t: Tid): seq<Call<T>> {
    if a.t != t then []
    else match a
      case Push(_, x) => [PushCall(x)]
      case Pop(_) => [PopCall]
      case Go(_) => []
  }

  /** What the calls of t answer, in the order in which they return. */
  function Answers<T>(w: World<T>, run: seq<Action<T>>, t: Tid): seq<Answer<T>>
    requires Sized(w.ring)
    decreases |run|
  {
    if run == [] then [] else AnswerIn(w, run[0], t) + Answers(Step(w, run[0]), run[1..], t)
  }

  /** A call answers in its last step. */
  function AnswerIn<T>(w: World<T>, a: Action<T>, t: Tid): seq<Answer<T>> {
    if a.t != t || !a.Go? then []
    else match At(w, t)
      case PushPost => [Pushed]
      case PopPost(x) => [Popped(x)]
      case _ => []
  }

  /** The calls that the events of t in the trace stand for. */
  function CallsBy<T>(trace: seq<Event<T>>, t: Tid): seq<Call<T>>
    decreases |trace|
  {
    if trace == [] then []
    else if trace[0].t != t then CallsBy(trace[1..], t)
    else [if trace[0].Enqueue? then PushCall(trace[0].x) else PopCall] + CallsBy(trace[1..], t)
  }

  /** The answers that belong to them. */
  function AnswersBy<T>(trace: seq<Event<T>>, t: Tid): seq<Answer<T>>
    decreases |trace|
  {
    if trace == [] then []
    else if trace[0].t != t then AnswersBy(trace[1..], t)
    else [if trace[0].Enqueue? then Pushed else Popped(trace[0].x)] + AnswersBy(trace[1..], t)
  }

  /** The call of a thread that has not yet had its effect. */
  function Open<T>(p: Place<T>): seq<Call<T>> {
    match p
    case PushWait(x) => [PushCall(x)]
    case PushLock(x) => [PushCall(x)]
    case PushWrite(x) => [PushCall(x)]
    case PopWait => [PopCall]
    case PopLock => [PopCall]
    case PopRead => [PopCall]
    case _ => []
  }

  /** The answer of a thread whose call has had its effect and not yet returned. */
  function Due<T>(p: Place<T>): seq<Answer<T>> {
    match p
    case PushAdvance => [Pushed]
    case PushUnlock => [Pushed]
    case PushPost => [Pushed]
    case PopAdvance(x) => [Popped(x)]
    case PopUnlock(x) => [Popped(x)]
    case PopPost(x) => [Popped(x)]
    case _ => []
  }

  /** How many steps the thread has to go in its call. */
  function Left<T>(p: Place<T>): nat {
    match p
    case Outside => 0
    case PushWait(_) => 6
    case PushLock(_) => 5
    case PushWrite(_) => 4
    case PushAdvance => 3
    case PushUnlock => 2
    case PushPost => 1
    case PopWait => 6
    case PopLock => 5
    case PopRead => 4
    case PopAdvance(_) => 3
    case PopUnlock(_) => 2
    case PopPost(_) => 1
  }

  // One step

  /** Where a step takes its thread, and that it moves no other. */
  lemma StepGoes<T>(w: World<T>, a: Action<T>, t: Tid)
    requires Sized(w.ring) && Enabled(w, a)
    ensures At(Step(w, a), t) ==
            if a.t != t then At(w, t)
            else match a
              case Push(_, x) => PushWait(x)
              case Pop(_) => PopWait
              case Go(_) =>
                match At(w, t)
                case Outside => Outside
                case PushWait(x) => PushLock(x)
                case PushLock(x) => PushWrite(x)
                case PushWrite(_) => PushAdvance
                case PushAdvance => PushUnlock
                case PushUnlock => PushPost
                case PushPost => Outside
                case PopWait => PopLock
                case PopLock => PopRead
                case PopRead => PopAdvance(w.ring.list[w.ring.front])
                case PopAdvance(x) => PopUnlock(x)
                case PopUnlock(x) => PopPost(x)
                case PopPost(_) => Outside
  {
    hide Write, AdvanceBack, AdvanceFront, AddSlots, AddElems;
  }

  lemma EventIs<T>(w: World<T>, a: Action<T>)
    requires Sized(w.ring)
    ensures EventOf(w, a) ==
            if a.Go? && At(w, a.t).PushWrite? then [Enqueue(a.t, At(w, a.t).x)]
            else if a.Go? && At(w, a.t).PopRead? then [Dequeue(a.t, w.ring.list[w.ring.front])]
            else []
  {
    hide Write, AdvanceBack, AdvanceFront, AddSlots, AddElems;
  }

  lemma EventsOfOne<T>(e: Event<T>, t: Tid)
    ensures CallsBy([e], t) == if e.t != t then [] else [if e.Enqueue? then PushCall(e.x) else PopCall]
    ensures AnswersBy([e], t) == if e.t != t then [] else [if e.Enqueue? then Pushed else Popped(e.x)]
  {
  }

  lemma StepCalls<T>(w: World<T>, a: Action<T>, t: Tid)
    requires Sized(w.ring) && Enabled(w, a)
    ensures Open(At(w, t)) + CallIn(a, t) == CallsBy(EventOf(w, a), t) + Open(At(Step(w, a), t))
  {
    hide Step, EventOf;
    StepGoes(w, a, t);
    EventIs(w, a);
    if EventOf(w, a) != [] {
      EventsOfOne(EventOf(w, a)[0], t);
    }
  }

  lemma StepAnswers<T>(w: World<T>, a: Action<T>, t: Tid)
    requires Sized(w.ring) && Enabled(w, a)
    ensures Due(At(w, t)) + AnswersBy(EventOf(w, a), t) == AnswerIn(w, a, t) + Due(At(Step(w, a), t))
  {
    hide Step, EventOf;
    StepGoes(w, a, t);
    EventIs(w, a);
    if EventOf(w, a) != [] {
      EventsOfOne(EventOf(w, a)[0], t);
    }
  }

  lemma StepLeft<T>(w: World<T>, a: Action<T>, t: Tid)
    requires Sized(w.ring) && Enabled(w, a)
    ensures Left(At(Step(w, a), t)) ==
            if a.t != t then Left(At(w, t)) else if a.Go? then Left(At(w, t)) - 1 else 6
    ensures a.t == t && !a.Go? ==> Left(At(w, t)) == 0
  {
    hide Step;
    StepGoes(w, a, t);
  }

  // Whole runs

  lemma {:induction false} CallsByConcat<T>(a: seq<Event<T>>, b: seq<Event<T>>, t: Tid)
    ensures CallsBy(a + b, t) == CallsBy(a, t) + CallsBy(b, t)
    ensures AnswersBy(a + b, t) == AnswersBy(a, t) + AnswersBy(b, t)
    decreases |a|
  {
    if a == [] {
      assert a + b == b;
    } else {
      CallsByConcat(a[1..], b, t);
      assert (a + b)[1..] == a[1..] + b;
    }
  }

  lemma Splice<X>(a: seq<X>, b: seq<X>, c: seq<X>, d: seq<X>, e: seq<X>, f: seq<X>, g: seq<X>)
    requires a + b == c + d && d + e == f + g
    ensures a + (b + e) == (c + f) + g
  {
    calc {
      a + (b + e);
      (a + b) + e;
      c + (d + e);
      (c + f) + g;
    }
  }

  /** Call by call, in program order, the events of a thread are the calls it made,
      with the arguments it passed, save for a call that is still open. */
  lemma {:induction false} CallsAreEvents<T>(w: World<T>, run: seq<Action<T>>, t: Tid)
    requires Sized(w.ring) && Runs(w, run)
    ensures Open(At(w, t)) + Calls(run, t) == CallsBy(Trace(w, run), t) + Open(At(After(w, run), t))
    decreases |run|
  {
    hide Step, EventOf, Enabled, Open, CallIn;
    if run != [] {
      var a, v := run[0], Step(w, run[0]);
      StepCalls(w, a, t);
      CallsAreEvents(v, run[1..], t);
      CallsByConcat(EventOf(w, a), Trace(v, run[1..]), t);
      Splice(Open(At(w, t)), CallIn(a, t), CallsBy(EventOf(w, a), t), Open(At(v, t)), Calls(run[1..], t),
             CallsBy(Trace(v, run[1..]), t), Open(At(After(w, run), t)));
    }
  }

  /** In the same order, what its calls answer is what their events did: a pop hands
      out the value it dequeued. */
  lemma {:induction false} AnswersAreEvents<T>(w: World<T>, run: seq<Action<T>>, t: Tid)
    requires Sized(w.ring) && Runs(w, run)
    ensures Due(At(w, t)) + AnswersBy(Trace(w, run), t) == Answers(w, run, t) + Due(At(After(w, run), t))
    decreases |run|
  {
    hide Step, EventOf, Enabled, Due, AnswerIn;
    if run != [] {
      var a, v := run[0], Step(w, run[0]);
      StepAnswers(w, a, t);
      AnswersAreEvents(v, run[1..], t);
      CallsByConcat(EventOf(w, a), Trace(v, run[1..]), t);
      Splice(Due(At(w, t)), AnswersBy(EventOf(w, a), t), AnswerIn(w, a, t), Due(At(v, t)), AnswersBy(Trace(v, run[1..]), t),
             Answers(v, run[1..], t), Due(At(After(w, run), t)));
    }
  }

  /** The queue is linearizable.  From an empty queue, every run has the events of an
      atomic bounded queue; each thread's events are its calls, in its order and with
      its arguments, but for a call not yet in effect; and its answers are those of
      its events, but for an answer not yet given.  As this holds of every prefix of
      the run, too, every event falls between the start and the end of its call. */
  lemma Linearizable<T>(size: int, blank: T, run: seq<Action<T>>, t: Tid)
    requires size > 0 && Runs(Init(size, blank), run)
    ensures FifoTrace([], size, Trace(Init(size, blank), run))
    ensures var trace, p := Trace(Init(size, blank), run), At(After(Init(size, blank), run), t);
            && Calls(run, t) == CallsBy(trace, t) + Open(p)
            && AnswersBy(trace, t) == Answers(Init(size, blank), run, t) + Due(p)
  {
    hide Runs, After, Trace, Inv;
    var w := Init(size, blank);
    InitInv(size, blank);
    RunRefines(w, run);
    CallsAreEvents(w, run, t);
    AnswersAreEvents(w, run, t);
  }

  // How long a call takes

  function StepsOf<T>(run: seq<Action<T>>, t: Tid): nat
    decreases |run|
  {
    if run == [] then 0 else (if run[0] == Go(t) then 1 else 0) + StepsOf(run[1..], t)
  }

  /** A call takes six steps of its thread, no more and no fewer, however the calls of
      the others fall between them. */
  lemma {:induction false} StepsPerCall<T>(w: World<T>, run: seq<Action<T>>, t: Tid)
    requires Sized(w.ring) && Runs(w, run)
    ensures Left(At(w, t)) + 6 * |Calls(run, t)| == StepsOf(run, t) + Left(At(After(w, run), t))
    decreases |run|
  {
    hide Step, Enabled, Left;
    if run != [] {
      StepLeft(w, run[0], t);
      StepsPerCall(Step(w, run[0]), run[1..], t);
    }
  }
}
