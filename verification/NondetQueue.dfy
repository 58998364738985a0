/** The queue of non-deterministic validator calls: one submitter, a FIFO channel, a worker from the start and one
    more while the submitter waits, a countdown and an atomic minimum. Every interleaving of their steps
    (executor/src/rt/supervisor/mod.rs:140-194, 218-222, 518-591; executor/crates/common/src/sync.rs:384-436;
    executor/src/wasi/genlayer_sdk.rs:1704-1718). */
module NondetQueue {

  const NO_CALL: nat := 0xFFFF_FFFF
  const CAPACITY: nat := 100

  datatype Verdict = Agree | Disagree | Failure

  datatype Worker =
    | Absent
    | Idle
    | Took(call: nat)         // received, the recorded disagreement not yet looked at
    | Running(call: nat)
    | Disagreeing(call: nat)  // to be recorded
    | Finishing(call: nat)    // its countdown token still to be dropped
    | Stopped

  datatype Phase = Submitting | Sending(call: nat) | Closed | Released | Helping | Waiting | Returned

  datatype Outcome = Pending | Failed | Agreed | Disagreed(call: nat)

  /** `submitted`, `marked`, `ran`, `skipped` and `verdicts` only record what has happened. */
  datatype State = State(
    phase: Phase, next: nat, queue: seq<nat>, countdown: nat, first: Worker, second: Worker, disagree: nat, error: bool, outcome: Outcome,
    submitted: seq<nat>, marked: set<nat>, ran: seq<nat>, skipped: seq<nat>, verdicts: map<nat, Verdict>) {
    function Worker(w: Who): Worker { if w.First? then first else second }

    function With(w: Who, worker: Worker): State { if w.First? then this.(first := worker) else this.(second := worker) }
  }

  datatype Who = First | Second

  datatype Action =
    | NumberCall              // a call number goes to a call that is neither submitted nor marked
    | Mark                    // `mark_nondet_disagreement` by the deterministic VM
    | Submit                  // the countdown goes up, then
    | Send                    // the task goes into the channel
    | Close | Release | Look | Helped | Await
    | Dequeue(w: Who) | Check(w: Who) | Run(w: Who, verdict: Verdict) | Record(w: Who) | Drop(w: Who) | Stop(w: Who)

  function Init(): State {
    State(Submitting, 0, [], 1, Idle, Absent, NO_CALL, false, Pending, [], {}, [], [], map[])
  }

  predicate IsClosed(s: State) {
    !s.phase.Submitting? && !s.phase.Sending?
  }

  /** What `await_nondet_vms` returns. */
  function Told(s: State): Outcome {
    if s.error then Failed else if s.disagree == NO_CALL then Agreed else Disagreed(s.disagree)
  }

  /** Which steps are possible; `limit` bounds the call numbers. */
  predicate Can(limit: nat, s: State, a: Action)
  {
    match a
    case NumberCall => s.phase.Submitting? && s.next < limit
    case Mark => s.phase.Submitting? && s.next < limit
    case Submit => s.phase.Submitting? && s.next < limit
    case Send => s.phase.Sending? && |s.queue| < CAPACITY
    case Close => s.phase.Submitting?
    case Release => s.phase.Closed? && s.countdown > 0
    case Look => s.phase.Released?
    case Helped => s.phase.Helping? && s.second.Stopped?
    case Await => s.phase.Waiting? && s.first.Stopped?
    case Dequeue(w) => s.Worker(w).Idle? && s.queue != []
    case Check(w) => s.Worker(w).Took?
    case Run(w, _) => s.Worker(w).Running?
    case Record(w) => s.Worker(w).Disagreeing?
    case Drop(w) => s.Worker(w).Finishing? && s.countdown > 0
    case Stop(w) => s.Worker(w).Idle? && (s.countdown == 0 || (IsClosed(s) && s.queue == []))
  }

  function Do(limit: nat, s: State, a: Action): State
    requires Can(limit, s, a)
  {
    match a
    case NumberCall => s.(next := s.next + 1)
    case Mark => s.(next := s.next + 1, marked := s.marked + {s.next}, disagree := if s.next < s.disagree then s.next else s.disagree)
    case Submit => s.(phase := Sending(s.next), next := s.next + 1, countdown := s.countdown + 1, submitted := s.submitted + [s.next])
    case Send => s.(phase := Submitting, queue := s.queue + [s.phase.call])
    case Close => s.(phase := Closed)
    case Release => s.(phase := Released, countdown := s.countdown - 1)
    case Look => if s.queue != [] then s.(phase := Helping, second := Idle) else s.(phase := Waiting)
    case Helped => s.(phase := Waiting)
    case Await =>
      s.(phase := Returned, outcome := Told(s))
    case Dequeue(w) => s.With(w, Took(s.queue[0])).(queue := s.queue[1..])
    case Check(w) =>
      var c := s.Worker(w).call;
      if s.disagree != NO_CALL then s.With(w, Finishing(c)).(skipped := s.skipped + [c])
      else s.With(w, Running(c)).(ran := s.ran + [c])
    case Run(w, verdict) =>
      var c := s.Worker(w).call;
      s.With(w, if verdict.Disagree? then Disagreeing(c) else Finishing(c))
       .(verdicts := s.verdicts[c := verdict], error := s.error || verdict.Failure?)
    case Record(w) =>
      var c := s.Worker(w).call;
      s.With(w, Finishing(c)).(disagree := if c < s.disagree then c else s.disagree)
    case Drop(w) => s.With(w, Idle).(countdown := s.countdown - 1)
    case Stop(w) => s.With(w, Stopped)
  }

  /** The states of a run, one step after the other. */
  predicate IsRun(limit: nat, states: seq<State>, actions: seq<Action>) {
    && |states| == |actions| + 1 && states[0] == Init()
    && forall i | 0 <= i < |actions| ::
         Can(limit, states[i], actions[i]) && states[i + 1] == Do(limit, states[i], actions[i])
  }

  // --- what every step keeps ---

  function Token(s: State): nat { if s.phase.Submitting? || s.phase.Sending? || s.phase.Closed? then 1 else 0 }

  function Busy(w: Worker): nat { if w.Took? || w.Running? || w.Disagreeing? || w.Finishing? then 1 else 0 }

  function Times(calls: seq<nat>, c: nat): nat { multiset(calls)[c] }

  function Held(w: Worker, c: nat): nat { if w.Took? && w.call == c then 1 else 0 }

  /** In how many places call `c` is. */
  function Places(s: State, c: nat): nat {
    (if s.phase.Sending? && s.phase.call == c then 1 else 0) + Times(s.queue, c) + Held(s.first, c) + Held(s.second, c)
    + Times(s.ran, c) + Times(s.skipped, c)
  }

  /** The countdown is the submitter's token and one for each outstanding task. */
  predicate Counted(s: State)
  {
    s.countdown == Token(s) + (if s.phase.Sending? then 1 else 0) + |s.queue| + Busy(s.first) + Busy(s.second)
  }

  /** Every submitted call is in transit, queued, received, run or skipped: in one of these places, once. */
  ghost predicate Placed(s: State)
  {
    forall c: nat :: Times(s.submitted, c) == Places(s, c)
  }

  predicate Increasing(calls: seq<nat>) {
    forall i, j | 0 <= i < j < |calls| :: calls[i] < calls[j]
  }

  /** Call numbers are given out in order, and none is the mark for "no disagreement". */
  ghost predicate Numbered(limit: nat, s: State) {
    && s.next <= limit <= NO_CALL && Increasing(s.submitted) && (forall c | c in s.submitted :: c < s.next)
    && forall c | c in s.marked :: c < s.next && c !in s.submitted
  }

  /** Calls whose verdict is a disagreement. */
  ghost function Disagreements(s: State): set<nat> {
    set c | c in s.verdicts && s.verdicts[c].Disagree?
  }

  /** Of these, the ones not recorded yet. */
  function Unrecorded(s: State): set<nat>
  {
    (if s.first.Disagreeing? then {s.first.call} else {}) + (if s.second.Disagreeing? then {s.second.call} else {})
  }

  function Unfinished(s: State): set<nat>
  {
    (if s.first.Running? then {s.first.call} else {}) + (if s.second.Running? then {s.second.call} else {})
  }

  ghost predicate IsLeast(d: nat, calls: set<nat>) {
    if calls == {} then d == NO_CALL else d in calls && forall c | c in calls :: d <= c
  }

  /** The atomic minimum is that of the recorded and the marked calls. */
  ghost predicate Recorded(s: State)
  {
    && Unrecorded(s) <= Disagreements(s)
    && (s.first.Disagreeing? && s.second.Disagreeing? ==> s.first.call != s.second.call)
    && IsLeast(s.disagree, s.marked + (Disagreements(s) - Unrecorded(s)))
  }

  /** Every run call has a verdict or is being run, and an error is kept exactly when a call failed. */
  ghost predicate Judged(s: State)
  {
    && (forall c :: c in s.ran <==> c in s.verdicts || c in Unfinished(s))
    && (forall c | c in Unfinished(s) :: c !in s.verdicts)
    && (s.first.Running? && s.second.Running? ==> s.first.call != s.second.call)
    && (s.error <==> exists c :: c in s.verdicts && s.verdicts[c].Failure?)
  }

  /** A worker stops only when nothing can come any more; the second one exists only while the submitter waits. */
  predicate Staged(s: State)
  {
    && (s.first.Stopped? || s.second.Stopped? ==> IsClosed(s) && s.queue == [])
    && !s.first.Absent?
    && (if IsClosed(s) && !s.phase.Closed? && !s.phase.Released? then true else s.second.Absent?)
    && (s.phase.Helping? ==> !s.second.Absent?)
    && (s.phase.Waiting? || s.phase.Returned? ==> s.second.Stopped? || (s.second.Absent? && s.queue == []))
    && (s.phase.Returned? ==> s.first.Stopped?)
    && s.outcome == if s.phase.Returned? then Told(s) else Pending
  }

  ghost predicate Inv(limit: nat, s: State) {
    Counted(s) && Placed(s) && Numbered(limit, s) && Recorded(s) && Judged(s) && Staged(s)
  }

  lemma {:induction false} InitInv(limit: nat)
    requires limit <= NO_CALL
    ensures Inv(limit, Init())
  {
    var s := Init();
    assert s.marked + (Disagreements(s) - Unrecorded(s)) == {};
  }

  predicate ByMain(a: Action) {
    a.NumberCall? || a.Mark? || a.Submit? || a.Send? || a.Close? || a.Release? || a.Look? || a.Helped? || a.Await?
  }

  lemma {:induction false} StepCounted(limit: nat, s: State, a: Action)
    requires Counted(s) && Staged(s) && Can(limit, s, a)
    ensures Counted(Do(limit, s, a))
  {
  }

  lemma {:induction false} StepStaged(limit: nat, s: State, a: Action)
    requires Counted(s) && Staged(s) && Can(limit, s, a)
    ensures Staged(Do(limit, s, a))
  {
  }

  lemma {:induction false} StepPlaced(limit: nat, s: State, a: Action)
    requires Placed(s) && Staged(s) && Can(limit, s, a)
    ensures Placed(Do(limit, s, a))
  {
    forall c: nat ensures Times(Do(limit, s, a).submitted, c) == Places(Do(limit, s, a), c) {
      assert Times(s.submitted, c) == Places(s, c);
      CallPlaced(limit, s, a, c);
    }
  }

  lemma {:induction false} CallPlaced(limit: nat, s: State, a: Action, c: nat)
    requires Times(s.submitted, c) == Places(s, c) && Staged(s) && Can(limit, s, a)
    ensures Times(Do(limit, s, a).submitted, c) == Places(Do(limit, s, a), c)
  {
    hide Times;
    match a {
      case Submit => TimesAppend(s.submitted, s.next, c);
      case Send => TimesAppend(s.queue, s.phase.call, c);
      case Dequeue(_) => TimesFirst(s.queue, c);
      case Check(w) => CheckPlaced(limit, s, w, c);
      case _ =>
    }
  }

  lemma {:induction false} CheckPlaced(limit: nat, s: State, w: Who, c: nat)
    requires Can(limit, s, Check(w))
    ensures Places(Do(limit, s, Check(w)), c) == Places(s, c)
  {
    hide Times;
    TimesAppend(s.ran, s.Worker(w).call, c);
    TimesAppend(s.skipped, s.Worker(w).call, c);
  }

  lemma {:induction false} TimesAppend(calls: seq<nat>, x: nat, c: nat)
    ensures Times(calls + [x], c) == Times(calls, c) + if x == c then 1 else 0
  {
  }

  lemma {:induction false} TimesFirst(calls: seq<nat>, c: nat)
    requires calls != []
    ensures Times(calls, c) == Times(calls[1..], c) + if calls[0] == c then 1 else 0
  {
    assert calls == [calls[0]] + calls[1..];
  }

  lemma {:induction false} StepNumbered(limit: nat, s: State, a: Action)
    requires Numbered(limit, s) && Can(limit, s, a)
    ensures Numbered(limit, Do(limit, s, a))
  {
    hide Increasing;
    if a.Submit? { IncreasingAppend(s.submitted, s.next); }
  }

  lemma {:induction false} IncreasingAppend(calls: seq<nat>, c: nat)
    requires Increasing(calls) && forall x | x in calls :: x < c
    ensures Increasing(calls + [c])
  {
    assert forall i | 0 <= i < |calls| :: calls[i] in calls;
  }

  lemma {:induction false} TimesIn(calls: seq<nat>, c: nat)
    ensures c in calls <==> Times(calls, c) > 0
  {
    assert c in calls <==> c in multiset(calls);
  }

  lemma {:induction false} TimesOnce(calls: seq<nat>, c: nat)
    requires Increasing(calls)
    ensures Times(calls, c) <= 1
  {
    if calls != [] {
      var front, last := calls[..|calls| - 1], calls[|calls| - 1];
      assert calls == front + [last];
      TimesAppend(front, last, c);
      TimesOnce(front, c);
      TimesIn(front, c);
    }
  }

  /** No call is in two places, and every run or skipped call was submitted. */
  lemma {:induction false} OnePlace(limit: nat, s: State, c: nat)
    requires Placed(s) && Numbered(limit, s)
    ensures Places(s, c) <= 1 && (c in s.submitted <==> Places(s, c) == 1)
    ensures c in s.ran || c in s.skipped || c in s.queue ==> c in s.submitted && c < s.next
    ensures Held(s.first, c) + Held(s.second, c) > 0 ==> c in s.submitted && c !in s.ran && c !in s.skipped
    ensures c in s.ran ==> c !in s.skipped
  {
    TimesOnce(s.submitted, c);
    TimesIn(s.submitted, c);
    TimesIn(s.ran, c);
    TimesIn(s.skipped, c);
    TimesIn(s.queue, c);
    hide Times, Increasing;
    assert Times(s.submitted, c) == Places(s, c);
  }

  lemma {:induction false} StepJudged(limit: nat, s: State, a: Action)
    requires Placed(s) && Numbered(limit, s) && Judged(s) && Staged(s) && Can(limit, s, a)
    ensures Judged(Do(limit, s, a))
  {
    hide Placed, Numbered, Judged, Do, Staged;
    if ByMain(a) || a.Dequeue? || a.Record? || a.Drop? || a.Stop? {
      OtherJudged(limit, s, a);
    } else if a.Check? {
      TookUnrun(limit, s, a.w);
      CheckJudged(limit, s, a.w);
    } else {
      RunJudged(limit, s, a.w, a.verdict);
    }
  }

  lemma {:induction false} OtherJudged(limit: nat, s: State, a: Action)
    requires Judged(s) && Staged(s) && Can(limit, s, a) && !a.Check? && !a.Run?
    ensures Judged(Do(limit, s, a))
  {
    SameRunning(limit, s, a);
    hide Do, Can, Staged;
  }

  lemma {:induction false} SameRunning(limit: nat, s: State, a: Action)
    requires Staged(s) && Can(limit, s, a) && !a.Check? && !a.Run?
    ensures var s' := Do(limit, s, a);
            && s'.ran == s.ran && s'.verdicts == s.verdicts && s'.error == s.error
            && (s'.first.Running? <==> s.first.Running?) && (s.first.Running? ==> s'.first == s.first)
            && (s'.second.Running? <==> s.second.Running?) && (s.second.Running? ==> s'.second == s.second)
  {
  }

  lemma {:induction false} TookUnrun(limit: nat, s: State, w: Who)
    requires Placed(s) && Numbered(limit, s) && s.Worker(w).Took?
    ensures s.Worker(w).call !in s.ran
  {
    OnePlace(limit, s, s.Worker(w).call);
  }

  lemma {:induction false} CheckJudged(limit: nat, s: State, w: Who)
    requires Judged(s) && Can(limit, s, Check(w)) && s.Worker(w).call !in s.ran
    ensures Judged(Do(limit, s, Check(w)))
  {
  }

  lemma {:induction false} RunJudged(limit: nat, s: State, w: Who, verdict: Verdict)
    requires Judged(s) && Can(limit, s, Run(w, verdict))
    ensures Judged(Do(limit, s, Run(w, verdict)))
  {
    var s', c := Do(limit, s, Run(w, verdict)), s.Worker(w).call;
    assert c in Unfinished(s) && c !in s.verdicts;
    assert Unfinished(s') == Unfinished(s) - {c};
    assert s'.error <==> exists x :: x in s'.verdicts && s'.verdicts[x].Failure? by {
      if verdict.Failure? { assert s'.verdicts[c].Failure?; }
      if s.error {
        var x :| x in s.verdicts && s.verdicts[x].Failure?;
        assert s'.verdicts[x].Failure?;
      }
    }
  }

  lemma {:induction false} StepRecorded(limit: nat, s: State, a: Action)
    requires Placed(s) && Numbered(limit, s) && Judged(s) && Staged(s) && Recorded(s) && Can(limit, s, a)
    ensures Recorded(Do(limit, s, a))
  {
    hide Placed, Judged, Recorded, Do, Staged, Increasing;
    if a.Record? {
      VerdictKnown(limit, s, a.w);
      RecordRecorded(limit, s, a.w);
    } else if a.Mark? {
      MarkRecorded(limit, s);
    } else if a.Run? {
      RunRecorded(limit, s, a.w, a.verdict);
    } else {
      OtherRecorded(limit, s, a);
    }
  }

  lemma {:induction false} OtherRecorded(limit: nat, s: State, a: Action)
    requires Recorded(s) && Staged(s) && Can(limit, s, a) && !a.Record? && !a.Mark? && !a.Run?
    ensures Recorded(Do(limit, s, a))
  {
    SameUnrecorded(limit, s, a);
    hide Do, Can, Staged;
    assert Disagreements(Do(limit, s, a)) == Disagreements(s);
  }

  lemma {:induction false} SameUnrecorded(limit: nat, s: State, a: Action)
    requires Staged(s) && Can(limit, s, a) && !a.Record? && !a.Mark? && !a.Run?
    ensures var s' := Do(limit, s, a);
            && s'.verdicts == s.verdicts && s'.marked == s.marked && s'.disagree == s.disagree
            && (s'.first.Disagreeing? <==> s.first.Disagreeing?) && (s.first.Disagreeing? ==> s'.first == s.first)
            && (s'.second.Disagreeing? <==> s.second.Disagreeing?) && (s.second.Disagreeing? ==> s'.second == s.second)
  {
  }

  lemma {:induction false} MarkRecorded(limit: nat, s: State)
    requires Recorded(s) && Can(limit, s, Mark) && limit <= NO_CALL
    ensures Recorded(Do(limit, s, Mark))
  {
    var s' := Do(limit, s, Mark);
    assert s'.marked + (Disagreements(s') - Unrecorded(s')) == (s.marked + (Disagreements(s) - Unrecorded(s))) + {s.next};
    Lower(s.disagree, s.marked + (Disagreements(s) - Unrecorded(s)), s.next);
  }

  lemma {:induction false} RecordRecorded(limit: nat, s: State, w: Who)
    requires Recorded(s) && Can(limit, s, Record(w)) && s.Worker(w).call < NO_CALL
    ensures Recorded(Do(limit, s, Record(w)))
  {
    var s', c := Do(limit, s, Record(w)), s.Worker(w).call;
    assert Unrecorded(s') == Unrecorded(s) - {c};
    assert s'.marked + (Disagreements(s') - Unrecorded(s')) == (s.marked + (Disagreements(s) - Unrecorded(s))) + {c};
    Lower(s.disagree, s.marked + (Disagreements(s) - Unrecorded(s)), c);
  }

  /** `fetch_min` */
  lemma {:induction false} Lower(d: nat, calls: set<nat>, c: nat)
    requires IsLeast(d, calls) && c < NO_CALL
    ensures IsLeast(if c < d then c else d, calls + {c})
  {
  }

  lemma {:induction false} VerdictKnown(limit: nat, s: State, w: Who)
    requires Placed(s) && Numbered(limit, s) && Judged(s) && Recorded(s) && s.Worker(w).Disagreeing?
    ensures s.Worker(w).call < NO_CALL
  {
    OnePlace(limit, s, s.Worker(w).call);
    assert s.Worker(w).call in s.ran;
  }

  lemma {:induction false} RunRecorded(limit: nat, s: State, w: Who, verdict: Verdict)
    requires Recorded(s) && Judged(s) && Can(limit, s, Run(w, verdict))
    ensures Recorded(Do(limit, s, Run(w, verdict)))
  {
    var s', c := Do(limit, s, Run(w, verdict)), s.Worker(w).call;
    assert c in Unfinished(s) && c !in s.verdicts && c !in Disagreements(s) && c !in Unrecorded(s);
    if verdict.Disagree? {
      assert Disagreements(s') == Disagreements(s) + {c};
      assert Unrecorded(s') == Unrecorded(s) + {c};
    } else {
      assert Disagreements(s') == Disagreements(s);
      assert Unrecorded(s') == Unrecorded(s);
    }
    assert Disagreements(s') - Unrecorded(s') == Disagreements(s) - Unrecorded(s);
  }

  /** Every step keeps all of it. */
  lemma {:induction false} StepInv(limit: nat, s: State, a: Action)
    requires Inv(limit, s) && Can(limit, s, a)
    ensures Inv(limit, Do(limit, s, a))
  {
    hide Counted, Placed, Numbered, Recorded, Judged, Staged, Do, Can;
    StepCounted(limit, s, a);
    StepStaged(limit, s, a);
    StepPlaced(limit, s, a);
    StepNumbered(limit, s, a);
    StepRecorded(limit, s, a);
    StepJudged(limit, s, a);
  }

  /** So it holds of every state of every run. */
  lemma {:induction false} RunInv(limit: nat, states: seq<State>, actions: seq<Action>, i: nat)
    requires limit <= NO_CALL && IsRun(limit, states, actions) && i < |states|
    ensures Inv(limit, states[i])
  {
    if i == 0 {
      InitInv(limit);
    } else {
      RunInv(limit, states, actions, i - 1);
      StepInv(limit, states[i - 1], actions[i - 1]);
    }
  }

  // --- what the submitter is told ---

  /** When the wait is over every submitted call was run or skipped, once, and no worker holds anything. */
  lemma {:induction false} AllDone(limit: nat, s: State, c: nat)
    requires Inv(limit, s) && s.phase.Returned?
    ensures c in s.submitted <==> c in s.ran || c in s.skipped
    ensures Times(s.ran, c) + Times(s.skipped, c) == if c in s.submitted then 1 else 0
    ensures s.queue == [] && s.countdown == 0
  {
    OnePlace(limit, s, c);
    TimesIn(s.ran, c);
    TimesIn(s.skipped, c);
    TimesIn(s.queue, c);
  }

  /** The call reported is the least of those that ran and disagreed or were marked; an error is reported exactly when
      some call failed. */
  lemma {:induction false} Report(limit: nat, s: State)
    requires Inv(limit, s) && s.phase.Returned?
    ensures s.outcome.Failed? <==> exists c :: c in s.verdicts && s.verdicts[c].Failure?
    ensures s.outcome.Agreed? ==> s.marked + Disagreements(s) == {}
    ensures s.outcome.Disagreed? ==>
      s.outcome.call in s.marked + Disagreements(s) && forall c | c in s.marked + Disagreements(s) :: s.outcome.call <= c
    ensures forall c :: c in s.ran <==> c in s.verdicts
  {
    assert Unrecorded(s) == {} && Unfinished(s) == {};
    assert Disagreements(s) - {} == Disagreements(s);
    var calls := s.marked + Disagreements(s);
    if calls != {} {
      assert s.disagree in calls;
      OnePlace(limit, s, s.disagree);
    }
  }

  // --- skipped calls and the reported one ---

  /** The two worker steps "receive" and "look at the disagreement" are not interrupted by the other worker's, and the
      deterministic VM marks nothing. */
  predicate Orderly(s: State, a: Action) {
    !a.Mark? && (a.Dequeue? ==> !s.Worker(if a.w.First? then Second else First).Took?)
  }

  predicate IsOrderlyRun(limit: nat, states: seq<State>, actions: seq<Action>) {
    IsRun(limit, states, actions) && forall i | 0 <= i < |actions| :: Orderly(states[i], actions[i])
  }

  /** How many calls have left the channel. */
  function Received(s: State): int {
    |s.submitted| - |s.queue| - if s.phase.Sending? then 1 else 0
  }

  function Sent(s: State): seq<nat> {
    if s.phase.Sending? then [s.phase.call] else []
  }

  /** The channel holds the latest calls, in order. */
  ghost predicate Fifo(s: State) {
    0 <= Received(s) && s.submitted == s.submitted[..Received(s)] + s.queue + Sent(s)
  }

  predicate Latest(s: State, w: Worker) {
    w.Took? ==> 0 < Received(s) <= |s.submitted| && w.call == s.submitted[Received(s) - 1]
  }

  /** A call received but not looked at is the latest received, and skipped calls come after the recorded one. */
  ghost predicate InOrder(s: State) {
    && Fifo(s) && s.marked == {} && !(s.first.Took? && s.second.Took?)
    && Latest(s, s.first) && Latest(s, s.second)
    && (forall c | c in s.skipped :: s.disagree < c)
  }

  lemma {:induction false} StepFifo(limit: nat, s: State, a: Action)
    requires Fifo(s) && Can(limit, s, a)
    ensures Fifo(Do(limit, s, a))
  {
    if a.Submit? || a.Send? {
      Arrives(limit, s, a);
    } else if a.Dequeue? {
      Leaves(limit, s, a.w);
    }
  }

  lemma {:induction false} Arrives(limit: nat, s: State, a: Action)
    requires Fifo(s) && Can(limit, s, a) && (a.Submit? || a.Send?)
    ensures Fifo(Do(limit, s, a))
  {
    var s', t := Do(limit, s, a), s.submitted[..Received(s)];
    assert Received(s') == Received(s);
    if a.Submit? {
      assert s'.submitted == t + s.queue + [s.next];
      assert s'.submitted[..|t|] == t;
    } else {
      assert s'.submitted == t + (s.queue + [s.phase.call]) + [];
    }
  }

  lemma {:induction false} Leaves(limit: nat, s: State, w: Who)
    requires Fifo(s) && Can(limit, s, Dequeue(w))
    ensures Fifo(Do(limit, s, Dequeue(w)))
  {
    var s', t := Do(limit, s, Dequeue(w)), s.submitted[..Received(s)];
    assert s.queue == [s.queue[0]] + s.queue[1..];
    assert s.submitted == (t + [s.queue[0]]) + s.queue[1..] + Sent(s);
    assert s'.submitted[..|t| + 1] == t + [s.queue[0]];
  }

  lemma {:induction false} OrderlyStep(limit: nat, s: State, a: Action)
    requires Inv(limit, s) && InOrder(s) && Can(limit, s, a) && Orderly(s, a)
    ensures InOrder(Do(limit, s, a))
  {
    StepFifo(limit, s, a);
    if a.Check? && s.disagree != NO_CALL { RecordedBefore(limit, s, a.w); }
    hide Counted, Placed, Judged, Numbered, Recorded, Fifo;
    if a.Dequeue? {
      DequeueLatest(limit, s, a.w);
    } else {
      SameSubmitted(limit, s, a);
    }
  }

  lemma {:induction false} DequeueLatest(limit: nat, s: State, w: Who)
    requires InOrder(s) && Can(limit, s, Dequeue(w)) && Orderly(s, Dequeue(w))
    ensures var s' := Do(limit, s, Dequeue(w));
            Latest(s', s'.first) && Latest(s', s'.second) && !(s'.first.Took? && s'.second.Took?)
  {
    HeadReceived(s);
  }

  /** Steps other than receiving leave the latest call the latest. */
  lemma {:induction false} SameReceived(limit: nat, s: State, a: Action)
    requires Fifo(s) && Can(limit, s, a) && !a.Dequeue?
    ensures var s' := Do(limit, s, a); Received(s') == Received(s) && s.submitted <= s'.submitted
  {
  }

  lemma {:induction false} FewerTook(limit: nat, s: State, a: Action)
    requires Staged(s) && Can(limit, s, a) && !a.Dequeue?
    ensures var s' := Do(limit, s, a);
            && (s'.first.Took? ==> s'.first == s.first) && (s'.second.Took? ==> s'.second == s.second)
  {
  }

  lemma {:induction false} SameSubmitted(limit: nat, s: State, a: Action)
    requires InOrder(s) && Staged(s) && Can(limit, s, a) && !a.Dequeue?
    ensures var s' := Do(limit, s, a);
            Latest(s', s'.first) && Latest(s', s'.second) && !(s'.first.Took? && s'.second.Took?)
  {
    SameReceived(limit, s, a);
    FewerTook(limit, s, a);
    hide Do, Can, Fifo, Staged;
  }

  lemma {:induction false} HeadReceived(s: State)
    requires Fifo(s) && s.queue != []
    ensures Received(s) < |s.submitted| && s.submitted[Received(s)] == s.queue[0]
  {
    assert s.submitted[Received(s)] == (s.queue + Sent(s))[0];
  }

  /** The recorded disagreement is of a call received before the one that is looked at. */
  lemma {:induction false} RecordedBefore(limit: nat, s: State, w: Who)
    requires Inv(limit, s) && Fifo(s) && s.marked == {} && s.Worker(w).Took? && Latest(s, s.Worker(w)) && s.disagree != NO_CALL
    ensures s.disagree < s.Worker(w).call
  {
    var c, d := s.Worker(w).call, s.disagree;
    RecordedRan(s);
    OnePlace(limit, s, d);
    OnePlace(limit, s, c);
    TimesIn(s.queue, d);
    TimesIn(s.ran, d);
    hide Inv, Fifo, Increasing, Times, IsLeast;
    var i :| 0 <= i < |s.submitted| && s.submitted[i] == d;
    StillInside(s, i);
    SubmittedOrder(limit, s, i);
  }

  lemma {:induction false} RecordedRan(s: State)
    requires Recorded(s) && Judged(s) && s.marked == {} && s.disagree != NO_CALL
    ensures s.disagree in s.ran
  {
    assert s.disagree in Disagreements(s);
  }

  lemma {:induction false} SubmittedOrder(limit: nat, s: State, i: nat)
    requires Numbered(limit, s) && i < |s.submitted|
    ensures forall k | i < k < |s.submitted| :: s.submitted[i] < s.submitted[k]
  {
  }

  lemma {:induction false} StillInside(s: State, i: nat)
    requires Fifo(s) && i < |s.submitted|
    ensures i >= Received(s) ==> s.submitted[i] in s.queue || s.submitted[i] in Sent(s)
  {
    if i >= Received(s) { assert s.submitted[i] == (s.queue + Sent(s))[i - Received(s)]; }
  }

  lemma {:induction false} OrderlyRun(limit: nat, states: seq<State>, actions: seq<Action>, i: nat)
    requires limit <= NO_CALL && IsOrderlyRun(limit, states, actions) && i < |states|
    ensures InOrder(states[i])
  {
    if i == 0 {
      assert Init().submitted[..0] == [];
    } else {
      OrderlyRun(limit, states, actions, i - 1);
      RunInv(limit, states, actions, i - 1);
      OrderlyStep(limit, states[i - 1], actions[i - 1]);
    }
  }

  /** In an orderly run no skipped call precedes the reported one. */
  lemma {:induction false} SkippedAfterReported(limit: nat, states: seq<State>, actions: seq<Action>, c: nat)
    requires limit <= NO_CALL && IsOrderlyRun(limit, states, actions)
    requires var last := states[|states| - 1];
             last.outcome.Disagreed? && c in last.skipped
    ensures states[|states| - 1].outcome.call < c
  {
    OrderlyRun(limit, states, actions, |states| - 1);
    RunInv(limit, states, actions, |states| - 1);
  }

  // --- runs that are not orderly ---

  /** A run of steps that all satisfy `allowed` ends in `s`. */
  ghost predicate Reached(limit: nat, s: State, allowed: (State, Action) -> bool) {
    exists states, actions :: Leads(limit, states, actions, s, allowed)
  }

  ghost predicate Leads(limit: nat, states: seq<State>, actions: seq<Action>, s: State, allowed: (State, Action) -> bool) {
    && IsRun(limit, states, actions) && states[|actions|] == s
    && forall i | 0 <= i < |actions| :: allowed(states[i], actions[i])
  }

  predicate NoMark(s: State, a: Action) { !a.Mark? }

  predicate OneWorker(s: State, a: Action) { a.Dequeue? ==> a == Dequeue(First) }

  lemma {:induction false} ReachedInit(limit: nat, allowed: (State, Action) -> bool)
    ensures Reached(limit, Init(), allowed)
  {
    assert Leads(limit, [Init()], [], Init(), allowed);
  }

  lemma {:induction false} ReachedNext(limit: nat, s: State, allowed: (State, Action) -> bool, a: Action) returns (s': State)
    requires Reached(limit, s, allowed) && Can(limit, s, a) && allowed(s, a)
    ensures s' == Do(limit, s, a) && Reached(limit, s', allowed)
  {
    s' := Do(limit, s, a);
    var states, actions :| Leads(limit, states, actions, s, allowed);
    RunLonger(limit, states, actions, a);
    assert Leads(limit, states + [s'], actions + [a], s', allowed);
  }

  lemma {:induction false} RunLonger(limit: nat, states: seq<State>, actions: seq<Action>, a: Action)
    requires IsRun(limit, states, actions) && Can(limit, states[|actions|], a)
    ensures IsRun(limit, states + [Do(limit, states[|actions|], a)], actions + [a])
  {
    hide Do, Can;
    var states', actions' := states + [Do(limit, states[|actions|], a)], actions + [a];
    forall i | 0 <= i < |actions'| ensures Can(limit, states'[i], actions'[i]) && states'[i + 1] == Do(limit, states'[i], actions'[i]) {
      if i < |actions| { assert states'[i] == states[i] && actions'[i] == actions[i]; }
    }
  }

  /** Two calls are submitted and the second worker is started. */
  lemma {:induction false} TwoSubmitted() returns (s: State)
    ensures s == State(Helping, 2, [0, 1], 2, Idle, Idle, NO_CALL, false, Pending, [0, 1], {}, [], [], map[])
    ensures Reached(2, s, NoMark)
  {
    hide Reached;
    ReachedInit(2, NoMark);
    s := ReachedNext(2, Init(), NoMark, Submit);
    s := ReachedNext(2, s, NoMark, Send);
    s := ReachedNext(2, s, NoMark, Submit);
    s := ReachedNext(2, s, NoMark, Send);
    s := ReachedNext(2, s, NoMark, Close);
    s := ReachedNext(2, s, NoMark, Release);
    s := ReachedNext(2, s, NoMark, Look);
  }

  /** Both received, the second looked at, run and recorded before the first is looked at. */
  lemma {:induction false} SecondFirst(s: State) returns (s': State)
    requires s == State(Helping, 2, [0, 1], 2, Idle, Idle, NO_CALL, false, Pending, [0, 1], {}, [], [], map[])
    requires Reached(2, s, NoMark)
    ensures s' == State(Helping, 2, [], 2, Finishing(0), Finishing(1), 1, false, Pending, [0, 1], {}, [1], [0], map[1 := Disagree])
    ensures Reached(2, s', NoMark)
  {
    hide Reached;
    s' := BothReceived(s);
    s' := ReachedNext(2, s', NoMark, Run(Second, Disagree));
    s' := ReachedNext(2, s', NoMark, Record(Second));
    s' := ReachedNext(2, s', NoMark, Check(First));
  }

  lemma {:induction false} BothReceived(s: State) returns (s': State)
    requires s == State(Helping, 2, [0, 1], 2, Idle, Idle, NO_CALL, false, Pending, [0, 1], {}, [], [], map[])
    requires Reached(2, s, NoMark)
    ensures s' == State(Helping, 2, [], 2, Took(0), Running(1), NO_CALL, false, Pending, [0, 1], {}, [1], [], map[])
    ensures Reached(2, s', NoMark)
  {
    hide Reached;
    s' := ReachedNext(2, s, NoMark, Dequeue(First));
    s' := ReachedNext(2, s', NoMark, Dequeue(Second));
    s' := ReachedNext(2, s', NoMark, Check(Second));
  }

  /** Receiving and looking are separate steps: a worker that is slow in between skips the earlier call for the later
      one's disagreement, and the later one is reported. */
  lemma {:induction false} EarlierSkipped() returns (s: State)
    ensures Reached(2, s, NoMark) && s.outcome == Disagreed(1) && s.skipped == [0]
  {
    hide Reached;
    s := TwoSubmitted();
    s := SecondFirst(s);
    s := ReachedNext(2, s, NoMark, Drop(First));
    s := ReachedNext(2, s, NoMark, Drop(Second));
    s := ReachedNext(2, s, NoMark, Stop(First));
    s := ReachedNext(2, s, NoMark, Stop(Second));
    s := ReachedNext(2, s, NoMark, Helped);
    s := ReachedNext(2, s, NoMark, Await);
  }

  /** A call marked by the deterministic VM itself makes a worker skip an earlier call, without any second worker. */
  lemma {:induction false} MarkSkipsEarlier() returns (s: State)
    ensures Reached(2, s, OneWorker) && s.outcome == Disagreed(1) && s.skipped == [0]
  {
    hide Reached;
    s := MarkedWhileQueued();
    s := ReachedNext(2, s, OneWorker, Close);
    s := ReachedNext(2, s, OneWorker, Release);
    s := ReachedNext(2, s, OneWorker, Look);
    s := ReachedNext(2, s, OneWorker, Stop(First));
    s := ReachedNext(2, s, OneWorker, Await);
  }

  lemma {:induction false} MarkedWhileQueued() returns (s: State)
    ensures Reached(2, s, OneWorker)
    ensures s == State(Submitting, 2, [], 1, Idle, Absent, 1, false, Pending, [0], {1}, [], [0], map[])
  {
    hide Reached;
    ReachedInit(2, OneWorker);
    s := ReachedNext(2, Init(), OneWorker, Submit);
    s := ReachedNext(2, s, OneWorker, Send);
    s := ReachedNext(2, s, OneWorker, Mark);
    s := ReachedNext(2, s, OneWorker, Dequeue(First));
    s := ReachedNext(2, s, OneWorker, Check(First));
    s := ReachedNext(2, s, OneWorker, Drop(First));
  }

  // --- the wait ends ---

  /** A worker that is not done can always move, unless it waits for a submitter that has not closed the channel. */
  lemma {:induction false} WorkerMoves(limit: nat, s: State, w: Who) returns (a: Action)
    requires Counted(s) && !s.Worker(w).Absent? && !s.Worker(w).Stopped? && (IsClosed(s) || s.queue != [])
    ensures Can(limit, s, a)
  {
    a := match s.Worker(w) {
      case Took(_) => Check(w)
      case Running(_) => Run(w, Agree)
      case Disagreeing(_) => Record(w)
      case Finishing(_) => Drop(w)
      case _ => if s.queue != [] then Dequeue(w) else Stop(w)
    };
  }

  /** No reachable state is stuck before the wait is over. */
  lemma {:induction false} NoDeadlock(limit: nat, s: State) returns (a: Action)
    requires Inv(limit, s) && !s.phase.Returned?
    ensures Can(limit, s, a)
  {
    match s.phase {
      case Submitting => a := Close;
      case Sending(_) => if |s.queue| < CAPACITY { a := Send; } else { a := WorkerMoves(limit, s, First); }
      case Closed => a := Release;
      case Released => a := Look;
      case Helping => if s.second.Stopped? { a := Helped; } else { a := WorkerMoves(limit, s, Second); }
      case Waiting => if s.first.Stopped? { a := Await; } else { a := WorkerMoves(limit, s, First); }
    }
  }

  function PhaseLeft(p: Phase): nat {
    match p
    case Submitting => 10 case Sending(_) => 21 case Closed => 9 case Released => 8 case Helping => 7 case Waiting => 6 case Returned => 5
  }

  function WorkLeft(w: Worker): nat {
    match w
    case Took(_) => 9 case Running(_) => 8 case Disagreeing(_) => 7 case Finishing(_) => 6 case Absent => 3 case Idle => 2 case Stopped => 1
  }

  function StepsLeft(limit: nat, s: State): nat
    requires s.next <= limit
  {
    12 * (limit - s.next) + PhaseLeft(s.phase) + 8 * |s.queue| + WorkLeft(s.first) + WorkLeft(s.second)
  }

  lemma {:induction false} StepCloser(limit: nat, s: State, a: Action)
    requires s.next <= limit && Staged(s) && Can(limit, s, a)
    ensures Do(limit, s, a).next <= limit && StepsLeft(limit, Do(limit, s, a)) < StepsLeft(limit, s)
  {
    hide Do, Can, StepsLeft, Staged;
    if ByMain(a) { MainCloser(limit, s, a); } else { WorkerCloser(limit, s, a); }
  }

  lemma {:induction false} MainCloser(limit: nat, s: State, a: Action)
    requires s.next <= limit && Staged(s) && Can(limit, s, a) && ByMain(a)
    ensures Do(limit, s, a).next <= limit && StepsLeft(limit, Do(limit, s, a)) < StepsLeft(limit, s)
  {
  }

  lemma {:induction false} WorkerCloser(limit: nat, s: State, a: Action)
    requires s.next <= limit && Can(limit, s, a) && !ByMain(a)
    ensures Do(limit, s, a).next <= limit && StepsLeft(limit, Do(limit, s, a)) < StepsLeft(limit, s)
  {
    var s' := Do(limit, s, a);
    assert s'.next == s.next && s'.phase == s.phase;
    assert WorkLeft(s'.first) + WorkLeft(s'.second) + 8 * |s'.queue| < WorkLeft(s.first) + WorkLeft(s.second) + 8 * |s.queue|;
  }

  /** Every run is short: together with `NoDeadlock`, the wait always ends. */
  lemma {:induction false} RunsEnd(limit: nat, states: seq<State>, actions: seq<Action>, i: nat)
    requires limit <= NO_CALL && IsRun(limit, states, actions) && i < |states|
    ensures states[i].next <= limit && i + StepsLeft(limit, states[i]) <= 12 * limit + 15
  {
    if i > 0 {
      RunsEnd(limit, states, actions, i - 1);
      RunInv(limit, states, actions, i - 1);
      hide Counted, Placed, Numbered, Recorded, Judged, Staged, Do, Can, StepsLeft, IsRun;
      RunStep(limit, states, actions, i - 1);
      StepCloser(limit, states[i - 1], actions[i - 1]);
    }
  }

  lemma {:induction false} RunStep(limit: nat, states: seq<State>, actions: seq<Action>, i: nat)
    requires IsRun(limit, states, actions) && i < |actions|
    ensures |states| == |actions| + 1 && Can(limit, states[i], actions[i]) && states[i + 1] == Do(limit, states[i], actions[i])
  {
  }
}
