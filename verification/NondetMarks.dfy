/** The queue of non-deterministic validator calls when the deterministic VM marks calls itself: which calls and marks can
    make it skip a call before the one it reports (executor/src/rt/supervisor/mod.rs:140-194, 216-222, 518-591). */
module NondetMarks {
  import opened NondetQueue
  import opened NondetSkips

  /** `n` of the calls come before number `m`. */
  predicate Before(calls: seq<nat>, m: nat, n: int) {
    && 0 <= n <= |calls| && (forall k | 0 <= k < n :: calls[k] < m) && forall k | n <= k < |calls| :: m < calls[k]
  }

  /** A call before the first mark has only agreeing calls before it, and the calls between it and the mark fit the channel. */
  ghost predicate MarkSkippable(calls: seq<nat>, marks: set<nat>, disagreeing: set<nat>) {
    exists m: nat, n: nat, i: nat :: MarkSkippableAt(calls, marks, disagreeing, m, n, i)
  }

  ghost predicate MarkSkippableAt(calls: seq<nat>, marks: set<nat>, disagreeing: set<nat>, m: nat, n: nat, i: nat) {
    && IsLeast(m, marks) && Before(calls, m, n) && 0 <= i < n && n - 1 - i <= CAPACITY
    && forall h | 0 <= h < i :: calls[h] !in disagreeing
  }

  /** In `s` all of `calls` were submitted and `marks` marked, call `c` was skipped, and a later one is reported. */
  ghost predicate MarkSkips(limit: nat, calls: seq<nat>, marks: set<nat>, g: Given, s: State, c: nat) {
    SkipsBefore(limit, calls, g, s, c) && s.marked == marks
  }

  // --- such a run needs such calls and marks ---

  /** Waiting in the channel, received and not looked at, or skipped. */
  predicate Unlooked(s: State, c: nat) {
    c in s.queue || (s.first.Took? && s.first.call == c) || (s.second.Took? && s.second.call == c) || c in s.skipped
  }

  /** A call before the first mark that was not looked at when the mark was made is followed by no more than fit the
      channel. */
  ghost predicate LateAt(s: State, m: nat, n: int, i: int) {
    IsLeast(m, s.marked) && Before(s.submitted, m, n) && 0 <= i < n && Unlooked(s, s.submitted[i]) ==>
      s.disagree < s.submitted[i] || n - 1 - i <= CAPACITY
  }

  ghost predicate Late(s: State) {
    if s.marked == {} then Lagging(s)
    else (s.phase.Sending? ==> forall x | x in s.marked :: x < s.phase.call) && forall m, n, i :: LateAt(s, m, n, i)
  }

  /** Where the calls of the channel are among those submitted. */
  lemma {:induction false} InChannel(limit: nat, s: State, i: nat)
    requires Fifo(s) && Numbered(limit, s) && i < |s.submitted| && s.submitted[i] in s.queue && s.phase.Submitting?
    ensures |s.submitted| - 1 - i < |s.queue|
  {
    var k :| 0 <= k < |s.queue| && s.queue[k] == s.submitted[i];
    var j := Received(s) + k;
    assert s.submitted[j] == (s.queue + Sent(s))[k];
    if i < j { SubmittedOrder(limit, s, i); }
  }

  lemma {:induction false} FirstMark(limit: nat, s: State)
    requires Inv(limit, s) && Lagging(s) && s.marked == {} && Can(limit, s, Mark)
    ensures Late(Do(limit, s, Mark))
  {
    var s' := Do(limit, s, Mark);
    forall m, n, i ensures LateAt(s', m, n, i) {
      if IsLeast(m, s'.marked) && Before(s.submitted, m, n) && 0 <= i < n && Unlooked(s', s.submitted[i]) {
        FirstMarkAt(limit, s, m, n, i);
      }
    }
  }

  lemma {:induction false} FirstMarkAt(limit: nat, s: State, m: nat, n: int, i: nat)
    requires Inv(limit, s) && Lagging(s) && Can(limit, s, Mark) && m == s.next && Before(s.submitted, m, n) && i < n
    requires Unlooked(s, s.submitted[i])
    ensures Do(limit, s, Mark).disagree < s.submitted[i] || n - 1 - i <= CAPACITY
  {
    var c := s.submitted[i];
    hide Counted, Placed, Recorded, Judged;
    assert n <= |s.submitted|;
    if c in s.queue {
      InChannel(limit, s, i);
    } else if s.first.Took? && s.first.call == c {
      assert Latest(s, s.first);
      LatestIndex(limit, s, i);
    }
  }

  /** The call the first worker has just received is followed by those in the channel. */
  lemma {:induction false} LatestIndex(limit: nat, s: State, i: nat)
    requires Fifo(s) && Numbered(limit, s) && s.phase.Submitting? && s.first.Took? && Latest(s, s.first)
    requires i < |s.submitted| && s.submitted[i] == s.first.call
    ensures |s.submitted| - 1 - i == |s.queue|
  {
    var j := Received(s) - 1;
    if i < j { SubmittedOrder(limit, s, i); }
  }

  lemma {:induction false} LaterStep(limit: nat, s: State, a: Action)
    requires Numbered(limit, s) && Staged(s) && Late(s) && s.marked != {} && Can(limit, s, a)
    ensures Late(Do(limit, s, a))
  {
    var s' := Do(limit, s, a);
    MarksGrow(limit, s, a);
    forall m, n, i ensures LateAt(s', m, n, i) {
      if IsLeast(m, s'.marked) && Before(s'.submitted, m, n) && 0 <= i < n && Unlooked(s', s'.submitted[i]) {
        SameLeast(limit, s, a, m, n);
        StillUnlooked(limit, s, a, m, s.submitted[i]);
        DisagreeFalls(limit, s, a);
        hide Do, Can, Staged, Numbered, Unlooked;
        assert LateAt(s, m, n, i);
      }
    }
  }

  lemma {:induction false} MarksGrow(limit: nat, s: State, a: Action)
    requires Numbered(limit, s) && Late(s) && s.marked != {} && Can(limit, s, a)
    ensures var s' := Do(limit, s, a);
            s'.marked != {} && (s'.phase.Sending? ==> forall x | x in s'.marked :: x < s'.phase.call)
  {
  }

  /** Later calls and marks have higher numbers than the first mark. */
  lemma {:induction false} SameLeast(limit: nat, s: State, a: Action, m: nat, n: int)
    requires Numbered(limit, s) && s.marked != {} && Can(limit, s, a)
    requires IsLeast(m, Do(limit, s, a).marked) && Before(Do(limit, s, a).submitted, m, n)
    ensures IsLeast(m, s.marked) && Before(s.submitted, m, n)
    ensures forall i | 0 <= i < n :: Do(limit, s, a).submitted[i] == s.submitted[i]
  {
    var s' := Do(limit, s, a);
    SubmittedGrows(limit, s, a);
    hide Do, Can, Increasing;
    if s'.marked != s.marked {
      var x :| x in s.marked;
      assert m <= x;
    }
    if s'.submitted != s.submitted {
      assert s'.submitted[|s.submitted|] == s.next;
      assert m in s.marked && m < s.next;
      assert n <= |s.submitted|;
      assert forall k | 0 <= k < |s.submitted| :: s'.submitted[k] == s.submitted[k];
    }
  }

  lemma {:induction false} SubmittedGrows(limit: nat, s: State, a: Action)
    requires Can(limit, s, a)
    ensures var s' := Do(limit, s, a);
            && (s'.submitted == s.submitted || s'.submitted == s.submitted + [s.next])
            && (s'.marked == s.marked || (s'.marked == s.marked + {s.next} && s'.submitted == s.submitted))
  {
  }

  lemma {:induction false} StillUnlooked(limit: nat, s: State, a: Action, m: nat, c: nat)
    requires Can(limit, s, a) && (s.phase.Sending? ==> m < s.phase.call) && c < m && Unlooked(Do(limit, s, a), c)
    ensures Unlooked(s, c)
  {
    match a {
      case Send => SentLast(s.queue, s.phase.call, c);
      case Dequeue(_) => FirstOrRest(s.queue, c);
      case Check(w) => SentLast(s.skipped, s.Worker(w).call, c);
      case _ =>
    }
  }

  lemma {:induction false} SentLast(calls: seq<nat>, x: nat, c: nat)
    ensures c in calls + [x] <==> c in calls || c == x
  {
  }

  lemma {:induction false} FirstOrRest(calls: seq<nat>, c: nat)
    requires calls != []
    ensures calls[0] in calls && (c in calls[1..] ==> c in calls)
  {
  }

  lemma {:induction false} StepLate(limit: nat, s: State, a: Action)
    requires Inv(limit, s) && Late(s) && Can(limit, s, a)
    ensures Late(Do(limit, s, a))
  {
    hide Late, Lagging, Counted, Placed, Recorded, Judged, Do, Can;
    if s.marked != {} {
      LaterStep(limit, s, a);
    } else {
      LateBefore(s);
      if a.Mark? {
        FirstMark(limit, s);
      } else {
        StepLagging(limit, s, a);
        NothingMarked(limit, s, a);
        LateBefore(Do(limit, s, a));
      }
    }
  }

  lemma {:induction false} LateBefore(s: State)
    requires s.marked == {}
    ensures Late(s) <==> Lagging(s)
  {
  }

  lemma {:induction false} NothingMarked(limit: nat, s: State, a: Action)
    requires Can(limit, s, a) && !a.Mark?
    ensures Do(limit, s, a).marked == s.marked
  {
  }

  lemma {:induction false} RunLate(limit: nat, g: Given, states: seq<State>, actions: seq<Action>, i: nat)
    requires limit <= NO_CALL && IsRun(limit, states, actions) && i < |states|
    requires forall k | 0 <= k < |actions| :: Follows(g, states[k], actions[k])
    ensures Late(states[i]) && Faithful(g, states[i])
  {
    hide Late, Lagging, Inv, Faithful, Do, Can;
    if i == 0 {
      InitLagging(g);
      LateBefore(Init());
    } else {
      RunLate(limit, g, states, actions, i - 1);
      RunInv(limit, states, actions, i - 1);
      RunStep(limit, states, actions, i - 1);
      StepLate(limit, states[i - 1], actions[i - 1]);
      StepFaithful(limit, g, states[i - 1], actions[i - 1]);
    }
  }

  lemma {:induction false} ReachedLate(limit: nat, g: Given, s: State)
    requires limit <= NO_CALL && Reached(limit, s, Following(g))
    ensures Inv(limit, s) && Late(s) && Faithful(g, s)
  {
    var states, actions :| Leads(limit, states, actions, s, Following(g));
    hide Inv, Late, Faithful;
    forall k | 0 <= k < |actions| ensures Follows(g, states[k], actions[k]) {
      assert Following(g)(states[k], actions[k]);
    }
    RunLate(limit, g, states, actions, |actions|);
    RunInv(limit, states, actions, |actions|);
  }

  /** How many of the calls come before the first mark. */
  lemma {:induction false} SplitAt(calls: seq<nat>, m: nat) returns (n: nat)
    requires Increasing(calls) && m !in calls
    ensures Before(calls, m, n)
  {
    n := 0;
    if calls != [] {
      var last := |calls| - 1;
      assert calls == calls[..last] + [calls[last]];
      n := SplitAt(calls[..last], m);
      if calls[last] < m { n := |calls|; }
    }
  }

  lemma {:induction false} OnlyThenMarked(limit: nat, calls: seq<nat>, marks: set<nat>, g: Given, s: State, c: nat)
    requires limit <= NO_CALL && MarkSkips(limit, calls, marks, g, s, c) && marks != {}
    ensures MarkSkippable(calls, marks, g.disagreeing)
  {
    ReachedLate(limit, g, s);
    var least := LeastSkipped(s.skipped);
    Report(limit, s);
    AllDone(limit, s, least);
    hide Counted, Placed, Recorded, Judged;
    var m: nat := LeastMark(marks);
    assert least < m;
    var n := SplitAt(calls, m);
    var i :| 0 <= i < |calls| && calls[i] == least;
    forall h | 0 <= h < i ensures calls[h] !in g.disagreeing { EarlierAgree(limit, g, s, least, i, h); }
    hide Late;
    LateHere(s, m, n, i);
    assert MarkSkippableAt(calls, marks, g.disagreeing, m, n, i);
  }

  lemma {:induction false} LateHere(s: State, m: nat, n: nat, i: nat)
    requires Late(s) && Staged(s) && s.outcome.Disagreed? && IsLeast(m, s.marked) && s.marked != {} && Before(s.submitted, m, n)
    requires i < n && s.submitted[i] in s.skipped && s.submitted[i] < s.outcome.call
    ensures n - 1 - i <= CAPACITY
  {
    assert LateAt(s, m, n, i);
  }

  lemma {:induction false} LeastMark(marks: set<nat>) returns (m: nat)
    requires marks != {}
    ensures IsLeast(m, marks)
  {
    m :| m in marks;
    if m' :| m' in marks && m' < m { m := LowerMark(marks, m'); }
  }

  lemma {:induction false} LowerMark(marks: set<nat>, from: nat) returns (m: nat)
    requires from in marks
    ensures IsLeast(m, marks)
    decreases from
  {
    m := from;
    if m' :| m' in marks && m' < from { m := LowerMark(marks, m'); }
  }

  // --- such calls and marks have such a run ---

  /** The mark is made while call `i` is held back, which is then skipped; so are the `n - 1 - i` calls that wait. */
  lemma {:induction false} MarkWhileHeld(limit: nat, calls: seq<nat>, g: Given, m: nat, n: nat, i: nat) returns (s: State)
    requires Numbers(limit, calls) && g.marking && Before(calls, m, n) && i < n && n - 1 - i <= CAPACITY && m < limit <= NO_CALL
    requires forall h | 0 <= h < i :: calls[h] !in g.disagreeing
    ensures Marked(calls, {m}, m, i, n, s) && s.next == m + 1 && Reached(limit, s, Following(g))
  {
    hide Reached;
    s := FillChannel(limit, calls, g, i, n);
    s := NumberUpTo(limit, g, s, m);
    s := ReachedNext(limit, s, Following(g), Mark);
    s := ReachedNext(limit, s, Following(g), Check(First));
    s := ReachedNext(limit, s, Following(g), Drop(First));
    assert calls[i] in s.skipped;
    s := SkipQueue(limit, g, s);
  }

  /** Everything in the channel is skipped. */
  lemma {:induction false} SkipQueue(limit: nat, g: Given, s: State) returns (s': State)
    requires Reached(limit, s, Following(g)) && s.first.Idle? && s.disagree != NO_CALL && s.countdown == 1 + |s.queue|
    ensures s' == s.(queue := [], countdown := 1, skipped := s.skipped + s.queue)
    ensures Reached(limit, s', Following(g))
    decreases |s.queue|
  {
    hide Reached;
    s' := s;
    if s.queue == [] {
      assert s.skipped + [] == s.skipped;
    } else {
      s' := SkipOne(limit, g, s, First);
      s' := SkipQueue(limit, g, s');
      assert (s.skipped + [s.queue[0]]) + s.queue[1..] == s.skipped + s.queue;
    }
  }

  /** After the first mark: the first `k` calls were submitted, `made` was marked, and nothing waits. */
  predicate Marked(calls: seq<nat>, made: set<nat>, m: nat, i: nat, k: nat, s: State) {
    && i < k <= |calls| && s.submitted == calls[..k] && s.marked == made && s.phase.Submitting? && s.queue == [] && s.countdown == 1
    && s.first.Idle? && s.second.Absent? && s.disagree == m && calls[i] in s.skipped && !s.error
  }

  function Made(marks: set<nat>, next: nat): set<nat> {
    set x | x in marks && x < next
  }

  /** The first `k` calls are those with numbers below `next`. */
  predicate UpTo(calls: seq<nat>, next: nat, k: nat) {
    k <= |calls| && (forall j | 0 <= j < k :: calls[j] < next) && forall j | k <= j < |calls| :: next <= calls[j]
  }

  /** The remaining numbers go to the calls, which are skipped, and to the marks. */
  lemma {:induction false} RestOfNumbers(limit: nat, calls: seq<nat>, marks: set<nat>, g: Given, m: nat, i: nat, k: nat, s: State) returns (s': State)
    requires limit <= NO_CALL && Numbers(limit, calls) && g.marking && Marks(limit, calls, marks, m) && UpTo(calls, s.next, k)
    requires Marked(calls, Made(marks, s.next), m, i, k, s) && m < s.next <= limit && Reached(limit, s, Following(g))
    ensures Marked(calls, marks, m, i, |calls|, s') && Reached(limit, s', Following(g))
    decreases limit - s.next
  {
    hide Reached;
    if s.next == limit {
      s' := s;
      assert Made(marks, limit) == marks;
      assert k == |calls|;
    } else {
      var x, k' := s.next, k;
      if k < |calls| && calls[k] == x {
        s' := SubmitOne(limit, g, s, x);
        s' := SkipQueue(limit, g, s');
        k' := k + 1;
        assert calls[..k'] == calls[..k] + [x];
      } else if x in marks {
        s' := ReachedNext(limit, s, Following(g), Mark);
      } else {
        s' := ReachedNext(limit, s, Following(g), NumberCall);
      }
      NextNumber(limit, calls, marks, m, x, k, k');
      s' := RestOfNumbers(limit, calls, marks, g, m, i, k', s');
    }
  }

  /** Marks are numbers of their own, from `m` on. */
  predicate Marks(limit: nat, calls: seq<nat>, marks: set<nat>, m: nat) {
    m in marks && forall x | x in marks :: m <= x < limit && x !in calls
  }

  lemma {:induction false} NextNumber(limit: nat, calls: seq<nat>, marks: set<nat>, m: nat, x: nat, k: nat, k': nat)
    requires Numbers(limit, calls) && Marks(limit, calls, marks, m) && UpTo(calls, x, k)
    requires k' == if k < |calls| && calls[k] == x then k + 1 else k
    ensures UpTo(calls, x + 1, k') && Made(marks, x + 1) == Made(marks, x) + if x in marks then {x} else {}
    ensures k' == k + 1 ==> x !in marks
  {
  }

  lemma {:induction false} AlwaysThenMarked(limit: nat, calls: seq<nat>, marks: set<nat>, g: Given) returns (s: State, c: nat)
    requires limit <= NO_CALL && Numbers(limit, calls) && g.marking && (forall x | x in marks :: x < limit && x !in calls)
    requires marks != {} && MarkSkippable(calls, marks, g.disagreeing)
    ensures MarkSkips(limit, calls, marks, g, s, c)
  {
    var m: nat, n: nat, i: nat :| MarkSkippableAt(calls, marks, g.disagreeing, m, n, i);
    c := calls[i];
    s := MarkWhileHeld(limit, calls, g, m, n, i);
    assert Made(marks, m + 1) == {m};
    hide Reached;
    s := RestOfNumbers(limit, calls, marks, g, m, i, n, s);
    s := ReachedNext(limit, s, Following(g), Close);
    s := ReachedNext(limit, s, Following(g), Release);
    s := ReachedNext(limit, s, Following(g), Look);
    s := ReachedNext(limit, s, Following(g), Stop(First));
    s := ReachedNext(limit, s, Following(g), Await);
    assert calls[..|calls|] == calls;
  }

  /** With marks and without failures some run skips a call before the one it reports if and only if a call before the first
      mark has only agreeing calls before it, and the calls between it and the mark fit the channel. */
  lemma {:induction false} MarkSkipsExactly(limit: nat, calls: seq<nat>, marks: set<nat>, disagreeing: set<nat>)
    requires limit <= NO_CALL && Numbers(limit, calls) && marks != {} && forall x | x in marks :: x < limit && x !in calls
    ensures (exists s, c :: MarkSkips(limit, calls, marks, Given(true, disagreeing), s, c)) <==> MarkSkippable(calls, marks, disagreeing)
  {
    var g := Given(true, disagreeing);
    hide MarkSkips, MarkSkippable;
    if s, c :| MarkSkips(limit, calls, marks, g, s, c) { OnlyThenMarked(limit, calls, marks, g, s, c); }
    if MarkSkippable(calls, marks, disagreeing) { var s, c := AlwaysThenMarked(limit, calls, marks, g); }
  }
}
