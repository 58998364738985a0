/** The memory limiter: one atomic counter of what remains, shared by derived limiters that each count what they
    consumed; every interleaving of the atomic steps of any number of threads
    (executor/src/rt/memlimiter.rs:6-75, 90-134). */
module MemLimiter {
  import opened Collections

  const U32_MAX: nat := 0xFFFF_FFFF

  /** Where a thread is in `consume` or `release`. */
  datatype Thread =
    | Idle
    | Loaded(limiter: nat, delta: nat, seen: nat)
    | Won(limiter: nat, delta: nat, left: nat)        // exchanged; the least remaining still to be lowered
    | Counting(limiter: nat, delta: nat, left: nat)   // the limiter's own count still to be raised
    | Releasing(limiter: nat, delta: nat)             // given back; the limiter's own count still to be lowered

  /** `held`, `completed` and `lowered` only record: what each limiter owes, what completed calls left, and the values
      that were offered to the minimum. */
  datatype State = State(remaining: nat, least: nat, consumed: seq<nat>, dropped: set<nat>, threads: seq<Thread>,
                         held: seq<nat>, completed: set<nat>, lowered: set<nat>)

  datatype Action =
    | Derive
    | Load(t: nat, limiter: nat, delta: nat)
    | Refuse(t: nat)
    | Exchange(t: nat)
    | FetchMin(t: nat)
    | FetchAdd(t: nat)
    | GiveBack(t: nat, limiter: nat, delta: nat)
    | FetchSub(t: nat)
    | Drop(limiter: nat)

  function Init(threads: nat): State {
    State(U32_MAX, U32_MAX, [0], {}, seq(threads, _ => Idle), [0], {}, {})
  }

  /** Atomic addition and subtraction wrap around. */
  function Wrap(x: int): nat { x % (U32_MAX + 1) }

  predicate Alive(s: State, l: nat) {
    l < |s.consumed| && l !in s.dropped
  }

  predicate Uses(t: Thread, l: nat) {
    !t.Idle? && t.limiter == l
  }

  /** A limiter is dropped when no thread works with it; it gives back no more than it holds. */
  predicate Can(s: State, a: Action)
    requires |s.held| == |s.consumed|
  {
    match a
    case Derive => true
    case Load(t, l, delta) => t < |s.threads| && s.threads[t].Idle? && Alive(s, l) && delta <= U32_MAX
    case Refuse(t) => t < |s.threads| && s.threads[t].Loaded? && s.threads[t].delta > s.threads[t].seen
    case Exchange(t) => t < |s.threads| && s.threads[t].Loaded? && s.threads[t].delta <= s.threads[t].seen
    case FetchMin(t) => t < |s.threads| && s.threads[t].Won?
    case FetchAdd(t) => t < |s.threads| && s.threads[t].Counting? && s.threads[t].limiter < |s.consumed|
    case GiveBack(t, l, delta) => t < |s.threads| && s.threads[t].Idle? && Alive(s, l) && delta <= s.held[l]
    case FetchSub(t) => t < |s.threads| && s.threads[t].Releasing? && s.threads[t].limiter < |s.consumed|
    case Drop(l) => Alive(s, l) && forall t | 0 <= t < |s.threads| :: !Uses(s.threads[t], l)
  }

  function Do(s: State, a: Action): State
    requires |s.held| == |s.consumed| && Can(s, a)
  {
    match a
    case Derive => s.(consumed := s.consumed + [0], held := s.held + [0])
    case Load(t, l, delta) => s.(threads := s.threads[t := Loaded(l, delta, s.remaining)])
    case Refuse(t) => s.(threads := s.threads[t := Idle])
    case Exchange(t) =>
      var x := s.threads[t];
      if s.remaining == x.seen then s.(remaining := x.seen - x.delta, threads := s.threads[t := Won(x.limiter, x.delta, x.seen - x.delta)])
      else s.(threads := s.threads[t := x.(seen := s.remaining)])
    case FetchMin(t) =>
      var x := s.threads[t];
      s.(least := if x.left < s.least then x.left else s.least, lowered := s.lowered + {x.left},
         threads := s.threads[t := Counting(x.limiter, x.delta, x.left)])
    case FetchAdd(t) =>
      var x := s.threads[t];
      s.(consumed := s.consumed[x.limiter := Wrap(s.consumed[x.limiter] + x.delta)], held := s.held[x.limiter := s.held[x.limiter] + x.delta],
         completed := s.completed + {x.left}, threads := s.threads[t := Idle])
    case GiveBack(t, l, delta) =>
      s.(remaining := Wrap(s.remaining + delta), held := s.held[l := s.held[l] - delta], threads := s.threads[t := Releasing(l, delta)])
    case FetchSub(t) =>
      var x := s.threads[t];
      s.(consumed := s.consumed[x.limiter := Wrap(s.consumed[x.limiter] - x.delta)], threads := s.threads[t := Idle])
    case Drop(l) =>
      s.(remaining := Wrap(s.remaining + s.consumed[l]), consumed := s.consumed[l := 0], held := s.held[l := 0], dropped := s.dropped + {l})
  }

  /** What the assertion in `release_no_consumed` checks when `delta` is given back. */
  predicate AssertionHolds(s: State, delta: nat) {
    s.remaining + delta <= U32_MAX
  }

  // --- sums ---

  /** Taken from what remains, not yet counted by the limiter. */
  function Taking(t: Thread): nat { if t.Won? || t.Counting? then t.delta else 0 }

  /** Given back to what remains, still counted by limiter `l`. */
  function Giving(t: Thread, l: nat): nat { if t.Releasing? && t.limiter == l then t.delta else 0 }

  ghost function TakingOf(ts: seq<Thread>): seq<nat> {
    seq(|ts|, i requires 0 <= i < |ts| => Taking(ts[i]))
  }

  ghost function GivingOf(ts: seq<Thread>, l: nat): seq<nat> {
    seq(|ts|, i requires 0 <= i < |ts| => Giving(ts[i], l))
  }

  ghost function AllTaking(ts: seq<Thread>): nat { Sum(TakingOf(ts)) }

  ghost function AllGiving(ts: seq<Thread>, l: nat): nat { Sum(GivingOf(ts, l)) }

  lemma {:induction false} TakingUpdate(ts: seq<Thread>, t: nat, x: Thread)
    requires t < |ts|
    ensures AllTaking(ts[t := x]) == AllTaking(ts) - Taking(ts[t]) + Taking(x) && Taking(ts[t]) <= AllTaking(ts)
  {
    assert TakingOf(ts[t := x]) == TakingOf(ts)[t := Taking(x)];
    SumUpdate(TakingOf(ts), t, Taking(x));
  }

  lemma {:induction false} GivingUpdate(ts: seq<Thread>, t: nat, x: Thread, l: nat)
    requires t < |ts|
    ensures AllGiving(ts[t := x], l) == AllGiving(ts, l) - Giving(ts[t], l) + Giving(x, l) && Giving(ts[t], l) <= AllGiving(ts, l)
  {
    assert GivingOf(ts[t := x], l) == GivingOf(ts, l)[t := Giving(x, l)];
    SumUpdate(GivingOf(ts, l), t, Giving(x, l));
  }

  lemma {:induction false} AllZero(xs: seq<nat>)
    requires forall i | 0 <= i < |xs| :: xs[i] == 0
    ensures Sum(xs) == 0
  {
    if xs != [] { AllZero(xs[..|xs| - 1]); }
  }

  // --- what every step keeps ---

  /** What remains, what the limiters hold and what is being taken add up to all there is; each limiter's counter is what
      it holds and what it is still giving back, up to a wrap-around that the rest of the giving back undoes. */
  ghost predicate Conserved(s: State) {
    && |s.held| == |s.consumed| && s.remaining + Sum(s.held) + AllTaking(s.threads) == U32_MAX
    && (forall l | 0 <= l < |s.consumed| :: s.consumed[l] == Wrap(s.held[l] + AllGiving(s.threads, l)))
    && forall t | 0 <= t < |s.threads| :: s.threads[t].Idle? || s.threads[t].limiter < |s.consumed|
  }

  /** The recorded minimum is the least value that a completed `consume` left, or lower. */
  ghost predicate Bounded(s: State) {
    && s.completed <= s.lowered && (forall x | x in s.lowered :: s.least <= x) && (s.least == U32_MAX || s.least in s.lowered)
    && forall t | 0 <= t < |s.threads| && s.threads[t].Counting? :: s.threads[t].left in s.lowered
  }

  lemma {:induction false} InitConserved(threads: nat)
    ensures Conserved(Init(threads)) && Bounded(Init(threads))
  {
    var s := Init(threads);
    AllZero(TakingOf(s.threads));
    AllZero(GivingOf(s.threads, 0));
    AllZero(s.held);
  }

  lemma {:induction false} WrapSum(x: nat, d: nat)
    ensures Wrap(Wrap(x) + d) == Wrap(x + d)
    ensures d <= x ==> Wrap(Wrap(x) - d) == Wrap(x - d)
    ensures x <= U32_MAX ==> Wrap(x) == x
  {
  }

  /** Given back by a limiter: it holds that much, so the shared counter does not overflow. */
  lemma {:induction false} NoOverflow(s: State, l: nat, delta: nat)
    requires Conserved(s) && l < |s.held| && delta <= s.held[l]
    ensures AssertionHolds(s, delta)
  {
    SumUpdate(s.held, l, 0);
  }

  /** Whatever is given back, the assertion holds exactly when it is no more than all limiters hold and are taking. */
  lemma {:induction false} AssertionExact(s: State, delta: nat)
    requires Conserved(s)
    ensures AssertionHolds(s, delta) <==> delta <= Sum(s.held) + AllTaking(s.threads)
  {
  }

  /** A thread moves on; nothing else changes. */
  lemma {:induction false} Moved(s: State, t: nat, x: Thread)
    requires Conserved(s) && t < |s.threads| && (x.Idle? || x.limiter < |s.consumed|)
    ensures AllTaking(s.threads[t := x]) == AllTaking(s.threads) - Taking(s.threads[t]) + Taking(x)
    ensures forall l :: AllGiving(s.threads[t := x], l) == AllGiving(s.threads, l) - Giving(s.threads[t], l) + Giving(x, l)
    ensures Taking(s.threads[t]) <= AllTaking(s.threads)
    ensures forall l :: Giving(s.threads[t], l) <= AllGiving(s.threads, l)
  {
    TakingUpdate(s.threads, t, x);
    forall l
      ensures AllGiving(s.threads[t := x], l) == AllGiving(s.threads, l) - Giving(s.threads[t], l) + Giving(x, l)
      ensures Giving(s.threads[t], l) <= AllGiving(s.threads, l)
    {
      GivingUpdate(s.threads, t, x, l);
    }
  }

  lemma {:induction false} DeriveConserved(s: State)
    requires Conserved(s)
    ensures Conserved(Do(s, Derive))
  {
    hide AllTaking, AllGiving, Sum, Wrap;
    SumAppend(s.held, 0);
    NoneGiving(s, |s.consumed|);
    WrapSum(0, 0);
  }

  lemma {:induction false} NoneGiving(s: State, l: nat)
    requires forall t | 0 <= t < |s.threads| :: !Uses(s.threads[t], l)
    ensures AllGiving(s.threads, l) == 0
  {
    AllZero(GivingOf(s.threads, l));
  }

  lemma {:induction false} ExchangeConserved(s: State, t: nat)
    requires Conserved(s) && Can(s, Exchange(t))
    ensures Conserved(Do(s, Exchange(t)))
  {
    hide AllTaking, AllGiving, Sum, Wrap;
    Moved(s, t, Do(s, Exchange(t)).threads[t]);
  }

  lemma {:induction false} AddConserved(s: State, t: nat)
    requires Conserved(s) && Can(s, FetchAdd(t))
    ensures Conserved(Do(s, FetchAdd(t)))
  {
    hide AllTaking, AllGiving, Sum, Wrap;
    var x := s.threads[t];
    Moved(s, t, Idle);
    SumUpdate(s.held, x.limiter, s.held[x.limiter] + x.delta);
    WrapSum(s.held[x.limiter] + AllGiving(s.threads, x.limiter), x.delta);
  }

  lemma {:induction false} GiveConserved(s: State, t: nat, l: nat, delta: nat)
    requires Conserved(s) && Can(s, GiveBack(t, l, delta))
    ensures Conserved(Do(s, GiveBack(t, l, delta)))
  {
    hide AllTaking, AllGiving, Sum, Wrap;
    Moved(s, t, Releasing(l, delta));
    NoOverflow(s, l, delta);
    WrapSum(s.remaining + delta, 0);
    SumUpdate(s.held, l, s.held[l] - delta);
  }

  lemma {:induction false} SubConserved(s: State, t: nat)
    requires Conserved(s) && Can(s, FetchSub(t))
    ensures Conserved(Do(s, FetchSub(t)))
  {
    hide AllTaking, AllGiving, Sum, Wrap;
    var x := s.threads[t];
    Moved(s, t, Idle);
    WrapSum(s.held[x.limiter] + AllGiving(s.threads, x.limiter), x.delta);
  }

  lemma {:induction false} DropConserved(s: State, l: nat)
    requires Conserved(s) && Can(s, Drop(l))
    ensures s.consumed[l] == s.held[l] && AssertionHolds(s, s.consumed[l])
    ensures Conserved(Do(s, Drop(l)))
  {
    hide AllTaking, AllGiving, Sum, Wrap;
    NoneGiving(s, l);
    SumUpdate(s.held, l, 0);
    WrapSum(s.held[l], 0);
    WrapSum(s.remaining + s.held[l], 0);
    WrapSum(0, 0);
  }

  lemma {:induction false} PlainConserved(s: State, a: Action)
    requires Conserved(s) && Can(s, a) && (a.Load? || a.Refuse? || a.FetchMin?)
    ensures Conserved(Do(s, a))
  {
    hide AllTaking, AllGiving, Sum, Wrap;
    Moved(s, a.t, Do(s, a).threads[a.t]);
  }

  /** Every step keeps the books. */
  lemma {:induction false} StepConserved(s: State, a: Action)
    requires Conserved(s) && Can(s, a)
    ensures Conserved(Do(s, a))
  {
    hide Conserved, Do;
    match a {
      case Derive => DeriveConserved(s);
      case Exchange(t) => ExchangeConserved(s, t);
      case FetchAdd(t) => AddConserved(s, t);
      case GiveBack(t, l, delta) => GiveConserved(s, t, l, delta);
      case FetchSub(t) => SubConserved(s, t);
      case Drop(l) => DropConserved(s, l);
      case _ => PlainConserved(s, a);
    }
  }

  lemma {:induction false} StepBounded(s: State, a: Action)
    requires |s.held| == |s.consumed| && Bounded(s) && Can(s, a)
    ensures Bounded(Do(s, a))
  {
  }

  /** The states of a run, one step after the other. */
  ghost predicate IsRun(threads: nat, states: seq<State>, actions: seq<Action>) {
    && |states| == |actions| + 1 && states[0] == Init(threads)
    && forall i | 0 <= i < |actions| ::
         |states[i].held| == |states[i].consumed| && Can(states[i], actions[i]) && states[i + 1] == Do(states[i], actions[i])
  }

  lemma {:induction false} RunConserved(threads: nat, states: seq<State>, actions: seq<Action>, i: nat)
    requires IsRun(threads, states, actions) && i < |states|
    ensures Conserved(states[i]) && Bounded(states[i])
  {
    if i == 0 {
      InitConserved(threads);
    } else {
      RunConserved(threads, states, actions, i - 1);
      hide Conserved, Bounded, Do, Can;
      StepConserved(states[i - 1], actions[i - 1]);
      StepBounded(states[i - 1], actions[i - 1]);
    }
  }

  /** In every run, at every moment: no release or drop by a limiter that gives back what it holds trips the assertion,
      and no completed `consume` left less than the recorded minimum. */
  lemma {:induction false} RunSafe(threads: nat, states: seq<State>, actions: seq<Action>, i: nat)
    requires IsRun(threads, states, actions) && i < |actions|
    ensures actions[i].GiveBack? ==> AssertionHolds(states[i], actions[i].delta)
    ensures actions[i].Drop? ==> AssertionHolds(states[i], states[i].consumed[actions[i].limiter])
    ensures forall left | left in states[i].completed :: states[i].least <= left
  {
    RunConserved(threads, states, actions, i);
    if actions[i].GiveBack? { NoOverflow(states[i], actions[i].limiter, actions[i].delta); }
    if actions[i].Drop? { DropConserved(states[i], actions[i].limiter); }
  }

  /** What a thread has loaded was there at some earlier moment of the run, after it began to consume. */
  ghost predicate SeenBefore(states: seq<State>, i: nat, t: nat)
    requires i < |states|
  {
    t < |states[i].threads| && states[i].threads[t].Loaded? ==>
      exists j :: SeenAt(states, i, t, j)
  }

  ghost predicate SeenAt(states: seq<State>, i: nat, t: nat, j: int)
    requires i < |states|
  {
    && 0 <= j < i && t < |states[i].threads| && states[i].threads[t].Loaded? && states[j].remaining == states[i].threads[t].seen
    && forall k | j < k <= i :: t < |states[k].threads| && states[k].threads[t].Loaded?
         && states[k].threads[t].limiter == states[i].threads[t].limiter && states[k].threads[t].delta == states[i].threads[t].delta
  }

  lemma {:induction false} RunSeen(threads: nat, states: seq<State>, actions: seq<Action>, i: nat, t: nat)
    requires IsRun(threads, states, actions) && i < |states|
    ensures SeenBefore(states, i, t)
  {
    if i > 0 && t < |states[i].threads| && states[i].threads[t].Loaded? {
      RunSeen(threads, states, actions, i - 1, t);
      LoadedBy(states[i - 1], actions[i - 1], t);
      var s, s' := states[i - 1], states[i];
      assert s' == Do(s, actions[i - 1]);
      hide Do, Can, IsRun;
      if s'.threads[t] == (if t < |s.threads| then s.threads[t] else Idle) {
        var j :| SeenAt(states, i - 1, t, j);
        assert SeenAt(states, i, t, j);
      } else {
        assert SeenAt(states, i, t, i - 1);
      }
    }
  }

  /** A thread that has loaded has just done so, or is as it was. */
  lemma {:induction false} LoadedBy(s: State, a: Action, t: nat)
    requires |s.held| == |s.consumed| && Can(s, a) && t < |Do(s, a).threads| && Do(s, a).threads[t].Loaded?
    ensures |Do(s, a).threads| == |s.threads|
    ensures Do(s, a).threads[t] == s.threads[t] || Do(s, a).threads[t].seen == s.remaining
  {
  }

  /** A refused `consume` asked for more than remained at some moment since it began. */
  lemma {:induction false} RefusedExact(threads: nat, states: seq<State>, actions: seq<Action>, i: nat)
    requires IsRun(threads, states, actions) && i < |actions| && actions[i].Refuse?
    ensures actions[i].t < |states[i].threads| && states[i].threads[actions[i].t].Loaded?
    ensures exists j :: SeenAt(states, i, actions[i].t, j) && states[j].remaining < states[i].threads[actions[i].t].delta
  {
    var t := actions[i].t;
    RunSeen(threads, states, actions, i, t);
    assert Can(states[i], actions[i]);
    var j :| SeenAt(states, i, t, j);
    assert states[j].remaining < states[i].threads[t].delta;
  }

  /** With all threads idle the counters alone add up to all there is. */
  lemma {:induction false} QuietConserved(s: State)
    requires Conserved(s) && forall t | 0 <= t < |s.threads| :: s.threads[t].Idle?
    ensures s.remaining + Sum(s.consumed) == U32_MAX
  {
    AllZero(TakingOf(s.threads));
    forall l | 0 <= l < |s.consumed| ensures s.consumed[l] == s.held[l] {
      NoneGiving(s, l);
      SumUpdate(s.held, l, 0);
    }
    assert s.consumed == s.held;
  }

  /** A limiter's counter is what it holds and is still giving back exactly when that fits 32 bits; when it does not, the
      counter is less by 2^32. */
  lemma {:induction false} CounterExact(threads: nat, states: seq<State>, actions: seq<Action>, i: nat, l: nat)
    requires IsRun(threads, states, actions) && i < |states| && l < |states[i].consumed|
    ensures var s := states[i];
            && |s.held| == |s.consumed|
            && (s.consumed[l] == s.held[l] + AllGiving(s.threads, l) <==> s.held[l] + AllGiving(s.threads, l) <= U32_MAX)
  {
    RunConserved(threads, states, actions, i);
    hide AllGiving, Sum, AllTaking;
  }

  /** Thread 0 takes everything; while it gives it back thread 1 takes one byte. */
  function Wrapping(): seq<Action> {
    [Load(0, 0, U32_MAX), Exchange(0), FetchMin(0), FetchAdd(0), GiveBack(0, 0, U32_MAX), Load(1, 0, 1), Exchange(1), FetchMin(1), FetchAdd(1),
     FetchSub(0)]
  }

  /** The states of that run: what remains, the least, the counter, the threads, what is held, completed and lowered. */
  function Wrapped(): seq<State> {
    var m := U32_MAX;
    [Init(2),
     State(m, m, [0], {}, [Loaded(0, m, m), Idle], [0], {}, {}),
     State(0, m, [0], {}, [Won(0, m, 0), Idle], [0], {}, {}),
     State(0, 0, [0], {}, [Counting(0, m, 0), Idle], [0], {}, {0}),
     State(0, 0, [m], {}, [Idle, Idle], [m], {0}, {0}),
     State(m, 0, [m], {}, [Releasing(0, m), Idle], [0], {0}, {0}),
     State(m, 0, [m], {}, [Releasing(0, m), Loaded(0, 1, m)], [0], {0}, {0}),
     State(m - 1, 0, [m], {}, [Releasing(0, m), Won(0, 1, m - 1)], [0], {0}, {0}),
     State(m - 1, 0, [m], {}, [Releasing(0, m), Counting(0, 1, m - 1)], [0], {0}, {0, m - 1}),
     State(m - 1, 0, [0], {}, [Releasing(0, m), Idle], [1], {0, m - 1}, {0, m - 1}),
     State(m - 1, 0, [1], {}, [Idle, Idle], [1], {0, m - 1}, {0, m - 1})]
  }

  /** In that run the counter wraps around to 0 while the limiter holds one byte, and is right again at the end. */
  lemma {:induction false} CounterWraps()
    ensures IsRun(2, Wrapped(), Wrapping())
    ensures Wrapped()[9].held == [1] && Wrapped()[9].consumed == [0] && AllGiving(Wrapped()[9].threads, 0) == U32_MAX
    ensures Wrapped()[10].held == [1] && Wrapped()[10].consumed == [1]
  {
    StillGiving();
    WrappedRun();
    hide AllGiving, IsRun;
  }

  lemma {:induction false} WrappedRun()
    ensures IsRun(2, Wrapped(), Wrapping())
  {
    var states, actions := Wrapped(), Wrapping();
    assert |states| == 11 && |actions| == 10 && states[0] == Init(2);
    hide Wrapped, Wrapping, Do, Can, Init;
    forall i | 0 <= i < |actions|
      ensures |states[i].held| == |states[i].consumed| && Can(states[i], actions[i]) && states[i + 1] == Do(states[i], actions[i])
    {
      WrappingStep(i);
    }
  }

  lemma {:induction false} StillGiving()
    ensures AllGiving([Releasing(0, U32_MAX), Idle], 0) == U32_MAX
  {
    var giving := GivingOf([Releasing(0, U32_MAX), Idle], 0);
    assert giving == [] + [U32_MAX] + [0];
    SumAppend([], U32_MAX);
    SumAppend([] + [U32_MAX], 0);
  }

  lemma {:induction false} WrappingStep(i: nat)
    requires i < 10
    ensures |Wrapped()| == 11 && |Wrapping()| == 10
    ensures Follows(i)
  {
    hide Follows;
    if i < 4 { FirstSteps(i); } else if i < 7 { MiddleSteps(i); } else { LastSteps(i); }
  }

  predicate Follows(i: nat)
    requires i < 10
  {
    var s := Wrapped()[i];
    |s.held| == |s.consumed| && Can(s, Wrapping()[i]) && Wrapped()[i + 1] == Do(s, Wrapping()[i])
  }

  lemma {:induction false} FirstSteps(i: nat)
    requires i < 4
    ensures Follows(i)
  {
    assert Init(2).threads == [Idle, Idle];
  }

  lemma {:induction false} MiddleSteps(i: nat)
    requires 4 <= i < 7
    ensures Follows(i)
  {
  }

  lemma {:induction false} LastSteps(i: nat)
    requires 7 <= i < 10
    ensures Follows(i)
  {
  }
}
