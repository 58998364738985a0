/** Which calls can make the queue of non-deterministic validator calls skip one before the one it reports: exactly when,
    for given verdicts, some run does (executor/src/rt/supervisor/mod.rs:140-194, 518-591). */
module NondetSkips {
  import opened NondetQueue

  /** The calls that disagree, and whether the deterministic VM marks any. */
  datatype Given = Given(marking: bool, disagreeing: set<nat>)

  /** Steps of a run in which each call has its verdict, a disagreement or not. */
  predicate Follows(g: Given, s: State, a: Action) {
    (a.Mark? ==> g.marking) && (a.Run? && s.Worker(a.w).Running? ==> a.verdict == VerdictOf(g, s.Worker(a.w).call))
  }

  function VerdictOf(g: Given, c: nat): Verdict {
    if c in g.disagreeing then Disagree else Agree
  }

  function Following(g: Given): (State, Action) -> bool {
    (s, a) => Follows(g, s, a)
  }

  /** Some call disagrees, an earlier one has only agreeing calls before it, and all that come after that one fit the
      channel. */
  ghost predicate Skippable(calls: seq<nat>, disagreeing: set<nat>) {
    exists i, j :: SkippableAt(calls, disagreeing, i, j)
  }

  predicate SkippableAt(calls: seq<nat>, disagreeing: set<nat>, i: int, j: int) {
    && 0 <= i < j < |calls| && calls[j] in disagreeing && |calls| - 1 - i <= CAPACITY
    && forall h | 0 <= h < i :: calls[h] !in disagreeing
  }

  /** In `s` all of `calls` were submitted, call `c` was skipped, and a later one is reported. */
  ghost predicate SkipsBefore(limit: nat, calls: seq<nat>, g: Given, s: State, c: nat) {
    && Reached(limit, s, Following(g)) && s.submitted == calls
    && s.outcome.Disagreed? && c in s.skipped && c < s.outcome.call
  }

  // --- such a run needs such calls ---

  /** `c` was submitted, nothing more can be, and all that came after it fits the channel. */
  ghost predicate Overtaken(s: State, c: nat) {
    IsClosed(s) && exists i :: OvertakenAt(s, c, i)
  }

  ghost predicate OvertakenAt(s: State, c: nat, i: int) {
    0 <= i < |s.submitted| && s.submitted[i] == c && |s.submitted| - 1 - i <= CAPACITY
  }

  ghost predicate HeldBack(s: State, w: Worker) {
    w.Took? ==> Latest(s, w) || Overtaken(s, w.call)
  }

  /** A call received and not looked at is the latest received or was overtaken; so was a skipped one that precedes the
      recorded disagreement. */
  ghost predicate Lagging(s: State) {
    && Fifo(s) && s.marked == {} && |s.queue| <= CAPACITY
    && HeldBack(s, s.first) && HeldBack(s, s.second)
    && forall c | c in s.skipped :: s.disagree < c || Overtaken(s, c)
  }

  ghost predicate Faithful(g: Given, s: State) {
    forall c | c in s.verdicts :: s.verdicts[c] == VerdictOf(g, c)
  }

  /** Once the channel is closed no call is submitted any more. */
  lemma {:induction false} StillOvertaken(limit: nat, s: State, a: Action, c: nat)
    requires Overtaken(s, c) && Can(limit, s, a)
    ensures Overtaken(Do(limit, s, a), c)
  {
    ClosedStays(limit, s, a);
    var i :| OvertakenAt(s, c, i);
    assert OvertakenAt(Do(limit, s, a), c, i);
  }

  lemma {:induction false} ClosedStays(limit: nat, s: State, a: Action)
    requires IsClosed(s) && Can(limit, s, a)
    ensures IsClosed(Do(limit, s, a)) && Do(limit, s, a).submitted == s.submitted
  {
  }

  lemma {:induction false} StillLatest(limit: nat, s: State, a: Action, w: Worker)
    requires Fifo(s) && Can(limit, s, a) && !a.Dequeue? && HeldBack(s, w)
    ensures HeldBack(Do(limit, s, a), w)
  {
    SameReceived(limit, s, a);
    if w.Took? && Overtaken(s, w.call) { StillOvertaken(limit, s, a, w.call); }
    hide Fifo, Do, Can, Overtaken;
  }

  /** A call is received while another waits to be looked at: that one is overtaken. */
  lemma {:induction false} OtherOvertaken(limit: nat, s: State, w: Who)
    requires Lagging(s) && Staged(s) && Can(limit, s, Dequeue(w))
    ensures var o := s.Worker(if w.First? then Second else First); o.Took? ==> Overtaken(s, o.call)
  {
    var o := s.Worker(if w.First? then Second else First);
    if o.Took? && Latest(s, o) {
      assert OvertakenAt(s, o.call, Received(s) - 1);
    }
  }

  lemma {:induction false} ReceivedHeld(limit: nat, s: State, w: Who)
    requires Lagging(s) && Staged(s) && Can(limit, s, Dequeue(w))
    ensures var s' := Do(limit, s, Dequeue(w)); HeldBack(s', s'.first) && HeldBack(s', s'.second)
  {
    HeadReceived(s);
    OtherOvertaken(limit, s, w);
    var o := s.Worker(if w.First? then Second else First);
    if o.Took? { StillOvertaken(limit, s, Dequeue(w), o.call); }
    hide Fifo, Overtaken;
  }

  lemma {:induction false} OtherHeld(limit: nat, s: State, a: Action)
    requires Lagging(s) && Staged(s) && Can(limit, s, a) && !a.Dequeue?
    ensures var s' := Do(limit, s, a); HeldBack(s', s'.first) && HeldBack(s', s'.second)
  {
    StillLatest(limit, s, a, s.first);
    StillLatest(limit, s, a, s.second);
    FewerTook(limit, s, a);
    hide Fifo, Do, Can, Overtaken, Latest, Staged;
  }

  lemma {:induction false} SkippedLagging(limit: nat, s: State, a: Action, c: nat)
    requires Inv(limit, s) && Lagging(s) && Can(limit, s, a) && !a.Mark? && c in Do(limit, s, a).skipped
    ensures var s' := Do(limit, s, a); s'.disagree < c || Overtaken(s', c)
  {
    var s' := Do(limit, s, a);
    if c in s.skipped {
      if Overtaken(s, c) { StillOvertaken(limit, s, a, c); }
      DisagreeFalls(limit, s, a);
    } else {
      NewlySkipped(limit, s, a, c);
      if Overtaken(s, c) { StillOvertaken(limit, s, a, c); }
    }
  }

  lemma {:induction false} DisagreeFalls(limit: nat, s: State, a: Action)
    requires Can(limit, s, a)
    ensures Do(limit, s, a).disagree <= s.disagree
  {
  }

  lemma {:induction false} NewlySkipped(limit: nat, s: State, a: Action, c: nat)
    requires Inv(limit, s) && Lagging(s) && Can(limit, s, a) && c !in s.skipped && c in Do(limit, s, a).skipped
    ensures Do(limit, s, a).disagree == s.disagree && (s.disagree < c || Overtaken(s, c))
  {
    SkipIsCheck(limit, s, a, c);
    hide Do, Overtaken;
    if Latest(s, s.Worker(a.w)) { RecordedBefore(limit, s, a.w); }
  }

  lemma {:induction false} SkipIsCheck(limit: nat, s: State, a: Action, c: nat)
    requires Can(limit, s, a) && c !in s.skipped && c in Do(limit, s, a).skipped
    ensures a.Check? && s.Worker(a.w).Took? && s.Worker(a.w).call == c && s.disagree != NO_CALL
    ensures Do(limit, s, a).disagree == s.disagree
  {
  }

  lemma {:induction false} StepLagging(limit: nat, s: State, a: Action)
    requires Inv(limit, s) && Lagging(s) && Can(limit, s, a) && !a.Mark?
    ensures Lagging(Do(limit, s, a))
  {
    StepFifo(limit, s, a);
    if a.Dequeue? { ReceivedHeld(limit, s, a.w); } else { OtherHeld(limit, s, a); }
    var s' := Do(limit, s, a);
    forall c | c in s'.skipped ensures s'.disagree < c || Overtaken(s', c) { SkippedLagging(limit, s, a, c); }
    hide Inv, Fifo, HeldBack, Overtaken;
  }

  lemma {:induction false} StepFaithful(limit: nat, g: Given, s: State, a: Action)
    requires Faithful(g, s) && Can(limit, s, a) && Follows(g, s, a)
    ensures Faithful(g, Do(limit, s, a))
  {
  }

  lemma {:induction false} InitLagging(g: Given)
    ensures Lagging(Init()) && Faithful(g, Init())
  {
    assert Init().submitted[..0] == [];
  }

  lemma {:induction false} RunLagging(limit: nat, g: Given, states: seq<State>, actions: seq<Action>, i: nat)
    requires limit <= NO_CALL && IsRun(limit, states, actions) && i < |states|
    requires !g.marking && forall k | 0 <= k < |actions| :: Follows(g, states[k], actions[k])
    ensures Lagging(states[i]) && Faithful(g, states[i])
  {
    hide Lagging, Inv, Faithful, Do, Can;
    if i == 0 {
      InitLagging(g);
    } else {
      RunLagging(limit, g, states, actions, i - 1);
      RunInv(limit, states, actions, i - 1);
      RunStep(limit, states, actions, i - 1);
      StepLagging(limit, states[i - 1], actions[i - 1]);
      StepFaithful(limit, g, states[i - 1], actions[i - 1]);
    }
  }

  /** What is known of a state that such a run ends in. */
  lemma {:induction false} ReachedLagging(limit: nat, g: Given, s: State)
    requires limit <= NO_CALL && Reached(limit, s, Following(g)) && !g.marking
    ensures Inv(limit, s) && Lagging(s) && Faithful(g, s)
  {
    var states, actions :| Leads(limit, states, actions, s, Following(g));
    hide Inv, Lagging, Faithful;
    forall k | 0 <= k < |actions| ensures Follows(g, states[k], actions[k]) {
      assert Following(g)(states[k], actions[k]);
    }
    RunLagging(limit, g, states, actions, |actions|);
    RunInv(limit, states, actions, |actions|);
  }

  lemma {:induction false} LeastSkipped(calls: seq<nat>) returns (c: nat)
    requires calls != []
    ensures c in calls && forall x | x in calls :: c <= x
  {
    var last := |calls| - 1;
    if last == 0 {
      c := calls[0];
    } else {
      c := LeastSkipped(calls[..last]);
      assert calls == calls[..last] + [calls[last]];
      if calls[last] < c { c := calls[last]; }
    }
  }

  lemma {:induction false} OnlyThen(limit: nat, calls: seq<nat>, g: Given, s: State, c: nat)
    requires limit <= NO_CALL && SkipsBefore(limit, calls, g, s, c) && !g.marking
    ensures Skippable(calls, g.disagreeing)
  {
    ReachedLagging(limit, g, s);
    var least := LeastSkipped(s.skipped);
    var d := s.outcome.call;
    ReportedRan(limit, g, s);
    LeastOvertaken(s, least);
    var i :| OvertakenAt(s, least, i);
    var j :| 0 <= j < |calls| && calls[j] == d;
    forall h | 0 <= h < i ensures calls[h] !in g.disagreeing { EarlierAgree(limit, g, s, least, i, h); }
    IndexOrder(calls, i, j, limit, s);
    assert SkippableAt(calls, g.disagreeing, i, j);
  }

  lemma {:induction false} LeastOvertaken(s: State, least: nat)
    requires Lagging(s) && Staged(s) && s.outcome.Disagreed? && least in s.skipped && least < s.outcome.call
    ensures Overtaken(s, least)
  {
    hide Overtaken, Fifo, HeldBack;
  }

  lemma {:induction false} IndexOrder(calls: seq<nat>, i: nat, j: nat, limit: nat, s: State)
    requires Numbered(limit, s) && s.submitted == calls && i < |calls| && j < |calls| && calls[i] < calls[j]
    ensures i < j
  {
    hide Inv, Lagging;
    if j < i { SubmittedOrder(limit, s, j); }
  }

  /** The call reported was submitted and disagrees. */
  lemma {:induction false} ReportedRan(limit: nat, g: Given, s: State)
    requires Inv(limit, s) && s.outcome.Disagreed? && Faithful(g, s) && s.marked == {}
    ensures s.outcome.call in g.disagreeing && s.outcome.call in s.submitted
  {
    var d := s.outcome.call;
    Report(limit, s);
    assert d in Disagreements(s);
    AllDone(limit, s, d);
    hide Inv;
  }

  lemma {:induction false} EarlierAgree(limit: nat, g: Given, s: State, least: nat, i: nat, h: nat)
    requires Inv(limit, s) && s.outcome.Disagreed? && Faithful(g, s) && least < s.outcome.call
    requires (forall x | x in s.skipped :: least <= x) && h < i < |s.submitted| && s.submitted[i] == least
    ensures s.submitted[h] !in g.disagreeing
  {
    var c := s.submitted[h];
    SubmittedOrder(limit, s, h);
    assert s.submitted[h] < s.submitted[i];
    AllDone(limit, s, c);
    Report(limit, s);
    hide Inv;
    assert c in s.verdicts;
    assert c in g.disagreeing ==> c in Disagreements(s);
  }

  // --- such calls have such a run ---

  lemma {:induction false} NumberUpTo(limit: nat, g: Given, s: State, c: nat) returns (s': State)
    requires Reached(limit, s, Following(g)) && s.phase.Submitting? && s.next <= c <= limit
    ensures s' == s.(next := c) && Reached(limit, s', Following(g))
    decreases c - s.next
  {
    hide Reached;
    s' := s;
    if s.next < c {
      s' := ReachedNext(limit, s, Following(g), NumberCall);
      s' := NumberUpTo(limit, g, s', c);
    }
  }

  lemma {:induction false} SubmitOne(limit: nat, g: Given, s: State, c: nat) returns (s': State)
    requires Reached(limit, s, Following(g)) && s.phase.Submitting? && s.next <= c < limit && |s.queue| < CAPACITY
    ensures s' == s.(next := c + 1, countdown := s.countdown + 1, submitted := s.submitted + [c], queue := s.queue + [c])
    ensures Reached(limit, s', Following(g))
  {
    hide Reached;
    s' := NumberUpTo(limit, g, s, c);
    s' := ReachedNext(limit, s', Following(g), Submit);
    s' := ReachedNext(limit, s', Following(g), Send);
  }

  /** A worker receives the next call and runs it; it agrees. */
  lemma {:induction false} AgreeOne(limit: nat, g: Given, s: State, w: Who) returns (s': State)
    requires Reached(limit, s, Following(g)) && s.Worker(w).Idle? && s.queue != [] && s.queue[0] !in g.disagreeing
    requires s.disagree == NO_CALL && s.countdown > 0 && !s.error
    ensures var c := s.queue[0];
            s' == s.(queue := s.queue[1..], countdown := s.countdown - 1, ran := s.ran + [c], verdicts := s.verdicts[c := Agree])
    ensures Reached(limit, s', Following(g))
  {
    hide Reached;
    s' := ReachedNext(limit, s, Following(g), Dequeue(w));
    s' := ReachedNext(limit, s', Following(g), Check(w));
    s' := ReachedNext(limit, s', Following(g), Run(w, Agree));
    s' := ReachedNext(limit, s', Following(g), Drop(w));
  }

  /** A worker receives the next call and runs it; it disagrees. */
  lemma {:induction false} RunOne(limit: nat, g: Given, s: State, w: Who) returns (s': State)
    requires Reached(limit, s, Following(g)) && s.Worker(w).Idle? && s.queue != [] && s.queue[0] in g.disagreeing
    requires s.disagree == NO_CALL && !s.error
    ensures var c := s.queue[0];
            s' == s.With(w, Disagreeing(c)).(queue := s.queue[1..], ran := s.ran + [c], verdicts := s.verdicts[c := Disagree])
    ensures Reached(limit, s', Following(g))
  {
    hide Reached;
    s' := ReachedNext(limit, s, Following(g), Dequeue(w));
    s' := ReachedNext(limit, s', Following(g), Check(w));
    s' := ReachedNext(limit, s', Following(g), Run(w, Disagree));
  }

  /** A worker receives the next call, runs it and records that it disagrees. */
  lemma {:induction false} DisagreeOne(limit: nat, g: Given, s: State, w: Who) returns (s': State)
    requires Reached(limit, s, Following(g)) && s.Worker(w).Idle? && s.queue != [] && s.queue[0] in g.disagreeing
    requires s.disagree == NO_CALL && s.countdown > 0 && !s.error && s.queue[0] < NO_CALL
    ensures var c := s.queue[0];
            s' == s.(queue := s.queue[1..], countdown := s.countdown - 1, ran := s.ran + [c], verdicts := s.verdicts[c := Disagree], disagree := c)
    ensures Reached(limit, s', Following(g))
  {
    hide Reached;
    s' := RunOne(limit, g, s, w);
    s' := ReachedNext(limit, s', Following(g), Record(w));
    s' := ReachedNext(limit, s', Following(g), Drop(w));
  }

  /** A worker receives the next call and skips it. */
  lemma {:induction false} SkipOne(limit: nat, g: Given, s: State, w: Who) returns (s': State)
    requires Reached(limit, s, Following(g)) && s.Worker(w).Idle? && s.queue != [] && s.disagree != NO_CALL && s.countdown > 0
    ensures s' == s.(queue := s.queue[1..], countdown := s.countdown - 1, skipped := s.skipped + [s.queue[0]])
    ensures Reached(limit, s', Following(g))
  {
    hide Reached;
    s' := ReachedNext(limit, s, Following(g), Dequeue(w));
    s' := ReachedNext(limit, s', Following(g), Check(w));
    s' := ReachedNext(limit, s', Following(g), Drop(w));
  }

  predicate Numbers(limit: nat, calls: seq<nat>) {
    Increasing(calls) && forall i | 0 <= i < |calls| :: calls[i] < limit
  }

  predicate NextIn(limit: nat, calls: seq<nat>, k: nat, next: nat) {
    next <= if k < |calls| then calls[k] else limit
  }

  /** The first `k` calls were submitted and agreed. */
  predicate Agreed(limit: nat, calls: seq<nat>, k: nat, s: State) {
    && k <= |calls| && s.submitted == calls[..k] && NextIn(limit, calls, k, s.next)
    && s.phase.Submitting? && s.queue == [] && s.countdown == 1 && s.first.Idle? && s.second.Absent? && s.disagree == NO_CALL && !s.error && s.marked == {}
  }

  lemma {:induction false} AgreeFirst(limit: nat, calls: seq<nat>, g: Given, k: nat) returns (s: State)
    requires Numbers(limit, calls) && k <= |calls| && forall h | 0 <= h < k :: calls[h] !in g.disagreeing
    ensures Agreed(limit, calls, k, s) && Reached(limit, s, Following(g))
  {
    hide Reached;
    if k == 0 {
      ReachedInit(limit, Following(g));
      s := Init();
    } else {
      s := AgreeFirst(limit, calls, g, k - 1);
      s := SubmitOne(limit, g, s, calls[k - 1]);
      s := AgreeOne(limit, g, s, First);
      NextAfter(limit, calls, k);
    }
  }

  lemma {:induction false} NextAfter(limit: nat, calls: seq<nat>, k: nat)
    requires Numbers(limit, calls) && 0 < k <= |calls|
    ensures NextIn(limit, calls, k, calls[k - 1] + 1) && calls[..k] == calls[..k - 1] + [calls[k - 1]]
  {
  }

  /** Call `i` is held by the first worker, the calls up to `k` wait in the channel. */
  predicate Holding(limit: nat, calls: seq<nat>, i: nat, k: nat, s: State) {
    && i < k <= |calls| && s.submitted == calls[..k] && NextIn(limit, calls, k, s.next) && s.next == calls[k - 1] + 1
    && s.phase.Submitting? && s.queue == calls[i + 1..k] && s.countdown == 2 + |s.queue| && s.first == Took(calls[i]) && s.second.Absent?
    && s.disagree == NO_CALL && !s.error && s.marked == {}
  }

  lemma {:induction false} FillChannel(limit: nat, calls: seq<nat>, g: Given, i: nat, k: nat) returns (s: State)
    requires Numbers(limit, calls) && i < k <= |calls| && (forall h | 0 <= h < i :: calls[h] !in g.disagreeing) && k - 1 - i <= CAPACITY
    ensures Holding(limit, calls, i, k, s) && Reached(limit, s, Following(g))
  {
    hide Reached;
    NextAfter(limit, calls, k);
    if k == i + 1 {
      s := AgreeFirst(limit, calls, g, i);
      s := SubmitOne(limit, g, s, calls[i]);
      s := ReachedNext(limit, s, Following(g), Dequeue(First));
    } else {
      s := FillChannel(limit, calls, g, i, k - 1);
      s := SubmitOne(limit, g, s, calls[k - 1]);
      assert calls[i + 1..k] == calls[i + 1..k - 1] + [calls[k - 1]];
    }
  }

  /** The second worker has run the calls between `i` and `k`. */
  predicate Assisted(calls: seq<nat>, i: nat, k: nat, s: State) {
    && i < k <= |calls| && s.submitted == calls && s.phase.Helping? && s.queue == calls[k..] && s.countdown == 1 + |s.queue|
    && s.first == Took(calls[i]) && s.second.Idle? && s.disagree == NO_CALL && !s.error
  }

  lemma {:induction false} RunBetween(limit: nat, calls: seq<nat>, g: Given, i: nat, k: nat) returns (s: State)
    requires Numbers(limit, calls) && i < k < |calls| && |calls| - 1 - i <= CAPACITY
    requires forall h | 0 <= h < k && h != i :: calls[h] !in g.disagreeing
    ensures Assisted(calls, i, k, s) && Reached(limit, s, Following(g))
  {
    hide Reached;
    if k == i + 1 {
      s := FillChannel(limit, calls, g, i, |calls|);
      s := ReachedNext(limit, s, Following(g), Close);
      s := ReachedNext(limit, s, Following(g), Release);
      s := ReachedNext(limit, s, Following(g), Look);
    } else {
      s := RunBetween(limit, calls, g, i, k - 1);
      assert s.queue[0] == calls[k - 1] && s.queue[1..] == calls[k..];
      s := AgreeOne(limit, g, s, Second);
    }
  }

  /** Call `j` is recorded, call `i` was skipped, and so were those between `j` and `k`. */
  predicate Skipped(calls: seq<nat>, i: nat, j: nat, k: nat, s: State) {
    && i < j < k <= |calls| && s.submitted == calls && s.phase.Helping? && s.queue == calls[k..] && s.countdown == |s.queue|
    && s.first.Idle? && s.second.Idle? && s.disagree == calls[j] && calls[i] in s.skipped && !s.error
  }

  lemma {:induction false} SkipRest(limit: nat, calls: seq<nat>, g: Given, i: nat, j: nat, k: nat) returns (s: State)
    requires limit <= NO_CALL && Numbers(limit, calls) && i < j < k <= |calls| && |calls| - 1 - i <= CAPACITY && calls[j] in g.disagreeing
    requires forall h | 0 <= h < j && h != i :: calls[h] !in g.disagreeing
    ensures Skipped(calls, i, j, k, s) && Reached(limit, s, Following(g))
  {
    hide Reached;
    if k == j + 1 {
      s := RunBetween(limit, calls, g, i, j);
      assert s.queue[0] == calls[j] && s.queue[1..] == calls[j + 1..];
      s := DisagreeOne(limit, g, s, Second);
      s := ReachedNext(limit, s, Following(g), Check(First));
      s := ReachedNext(limit, s, Following(g), Drop(First));
    } else {
      s := SkipRest(limit, calls, g, i, j, k - 1);
      assert s.queue[0] == calls[k - 1] && s.queue[1..] == calls[k..];
      s := SkipOne(limit, g, s, Second);
    }
  }

  lemma {:induction false} FirstAfter(calls: seq<nat>, g: Given, i: nat, j: nat) returns (first: nat)
    requires SkippableAt(calls, g.disagreeing, i, j)
    ensures SkippableAt(calls, g.disagreeing, i, first) && forall h | i < h < first :: calls[h] !in g.disagreeing
    decreases j
  {
    first := j;
    if h :| i < h < j && calls[h] in g.disagreeing { first := FirstAfter(calls, g, i, h); }
  }

  lemma {:induction false} AlwaysThen(limit: nat, calls: seq<nat>, g: Given) returns (s: State, c: nat)
    requires limit <= NO_CALL && Numbers(limit, calls) && Skippable(calls, g.disagreeing)
    ensures SkipsBefore(limit, calls, g, s, c)
  {
    var i, j :| SkippableAt(calls, g.disagreeing, i, j);
    j := FirstAfter(calls, g, i, j);
    s := SkipRest(limit, calls, g, i, j, |calls|);
    hide Reached;
    s := ReachedNext(limit, s, Following(g), Stop(First));
    s := ReachedNext(limit, s, Following(g), Stop(Second));
    s := ReachedNext(limit, s, Following(g), Helped);
    s := ReachedNext(limit, s, Following(g), Await);
    c := calls[i];
    assert calls[j] in calls;
  }

  /** Without marks and failures some run skips a call before the one it reports if and only if some call disagrees, an
      earlier one has only agreeing calls before it, and all calls after that one fit the channel. */
  lemma {:induction false} SkipsExactly(limit: nat, calls: seq<nat>, disagreeing: set<nat>)
    requires limit <= NO_CALL && Numbers(limit, calls)
    ensures (exists s, c :: SkipsBefore(limit, calls, Given(false, disagreeing), s, c)) <==> Skippable(calls, disagreeing)
  {
    var g := Given(false, disagreeing);
    hide SkipsBefore, Skippable;
    if s, c :| SkipsBefore(limit, calls, g, s, c) { OnlyThen(limit, calls, g, s, c); }
    if Skippable(calls, disagreeing) { var s, c := AlwaysThen(limit, calls, g); }
  }
}
