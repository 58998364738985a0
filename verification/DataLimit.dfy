/** The shared fee limit: buckets and what each category consumed from them, in one task and in every interleaving of
    many (executor/src/rt/fees.rs:244-252, 345-392, 402-436, 513-565). */
module DataLimit {
  import opened Collections
  import opened FeeBuckets

  /** What one category consumed from bucket `b`. */
  ghost function From(nos: Each<seq<nat>>, consumed: Each<seq<U256>>, c: Category, b: nat): nat {
    if |nos.Of(c)| == |consumed.Of(c)| then SumFor(nos.Of(c), consumed.Of(c), b) else 0
  }

  /** What all categories consumed from bucket `b`. */
  ghost function Tracked(nos: Each<seq<nat>>, consumed: Each<seq<U256>>, b: nat): nat {
    From(nos, consumed, Storage, b) + From(nos, consumed, Receipt, b) + From(nos, consumed, NondetOutput, b)
    + From(nos, consumed, MessageFee, b) + From(nos, consumed, Event, b)
  }

  ghost predicate SameShape(nos: Each<seq<nat>>, consumed: Each<seq<U256>>) {
    forall c: Category :: |nos.Of(c)| == |consumed.Of(c)|
  }

  /** Nothing is lost: what remains and what was consumed is what there was. */
  ghost predicate Conserved(totals: seq<U256>, buckets: seq<U256>, nos: Each<seq<nat>>, consumed: Each<seq<U256>>) {
    && |buckets| == |totals| && SameShape(nos, consumed)
    && forall b | 0 <= b < |totals| :: buckets[b] + Tracked(nos, consumed, b) == totals[b]
  }

  lemma {:induction false} TrackedWith(nos: Each<seq<nat>>, consumed: Each<seq<U256>>, c: Category, xs: seq<U256>, b: nat)
    requires |xs| == |nos.Of(c)| && SameShape(nos, consumed)
    ensures Tracked(nos, With(consumed, c, xs), b) == Tracked(nos, consumed, b) - SumFor(nos.Of(c), consumed.Of(c), b) + SumFor(nos.Of(c), xs, b)
    ensures SumFor(nos.Of(c), consumed.Of(c), b) <= Tracked(nos, consumed, b)
    ensures SameShape(nos, With(consumed, c, xs))
  {
    hide SumFor;
  }

  /** A category's costs are taken from the buckets and counted. */
  lemma {:induction false} ChargeConserved(totals: seq<U256>, buckets: seq<U256>, nos: Each<seq<nat>>, consumed: Each<seq<U256>>,
                                           c: Category, costs: seq<U256>, buckets': seq<U256>, xs: seq<U256>)
    requires Conserved(totals, buckets, nos, consumed) && |costs| == |nos.Of(c)|
    requires Deducted(buckets, nos.Of(c), costs, buckets') && xs == Added(consumed.Of(c), costs)
    ensures Conserved(totals, buckets', nos, With(consumed, c, xs))
  {
    hide SumFor, Tracked, SameShape;
    forall b | 0 <= b < |totals| ensures buckets'[b] + Tracked(nos, With(consumed, c, xs), b) == totals[b] {
      ShapeOf(nos, consumed, c);
      TrackedWith(nos, consumed, c, xs, b);
      SumForAdded(nos.Of(c), consumed.Of(c), costs, b);
    }
    ShapeOf(nos, consumed, c);
    TrackedWith(nos, consumed, c, xs, 0);
  }

  lemma {:induction false} ShapeOf(nos: Each<seq<nat>>, consumed: Each<seq<U256>>, c: Category)
    requires SameShape(nos, consumed)
    ensures |nos.Of(c)| == |consumed.Of(c)|
  {
  }

  /** A counter that grows by a cost its bucket can pay stays in range. */
  lemma {:induction false} CounterFits(totals: seq<U256>, buckets: seq<U256>, nos: Each<seq<nat>>, consumed: Each<seq<U256>>, c: Category, costs: seq<U256>, i: nat)
    requires Conserved(totals, buckets, nos, consumed) && |costs| == |nos.Of(c)| && Fits(buckets, nos.Of(c), costs) && i < |costs|
    ensures |consumed.Of(c)| == |costs| && consumed.Of(c)[i] + costs[i] <= U256_MAX
  {
    ShapeOf(nos, consumed, c);
    var b := nos.Of(c)[i];
    TrackedWith(nos, consumed, c, consumed.Of(c), b);
    SumForMember(nos.Of(c), consumed.Of(c), i);
    SumForMember(nos.Of(c), costs, i);
  }

  class DataLimit {
    const nos: Each<seq<nat>>
    ghost const totals: seq<U256>

    var buckets: seq<U256>
    var consumed: Each<seq<U256>>

    ghost predicate Valid()
      reads this
    {
      Conserved(totals, buckets, nos, consumed)
    }

    constructor (totals: seq<U256>, nos: Each<seq<nat>>)
      ensures Valid() && buckets == totals && this.totals == totals && this.nos == nos
    {
      this.totals, this.nos, buckets := totals, nos, totals;
      consumed := NoneConsumed(nos);
      new;
      NothingConsumed(totals, nos);
    }

    /** `consume_bucket_raw` */
    method ConsumeBucketRaw(c: Category, costs: seq<U256>) returns (r: Charge)
      requires Valid() && |costs| == |nos.Of(c)|
      modifies this
      ensures Valid()
      ensures r.Charged? <==> Fits(old(buckets), nos.Of(c), costs)
      ensures r.Overflow? <==> exists k :: OverflowsAt(old(buckets), nos.Of(c), costs, 0, k)
      ensures r.Charged? ==>
        && Deducted(old(buckets), nos.Of(c), costs, buckets) && |old(consumed).Of(c)| == |costs|
        && consumed == With(old(consumed), c, Added(old(consumed).Of(c), costs))
      ensures !r.Charged? ==> buckets == old(buckets) && consumed == old(consumed)
    {
      r := CheckRaw(buckets, nos.Of(c), costs);
      RawExact(buckets, nos.Of(c), costs);
      RawOverflows(buckets, nos.Of(c), costs, 0);
      hide OverflowsAt;
      if !r.Charged? { return; }
      ghost var was := buckets;
      ShapeOf(nos, consumed, c);
      forall i | 0 <= i < |costs| ensures consumed.Of(c)[i] + costs[i] <= U256_MAX { CounterFits(totals, buckets, nos, consumed, c, costs, i); }
      buckets := Subtract(buckets, nos.Of(c), costs);
      var counts := Count(consumed.Of(c), costs);
      ChargeConserved(totals, was, nos, consumed, c, costs, buckets, counts);
      consumed := With(consumed, c, counts);
    }

    /** `consume_message_fee` */
    method ConsumeMessageFee(costFee: seq<U256>, costReceipt: seq<U256>) returns (r: Charge)
      requires Valid() && |costFee| == |nos.messageFee| && |costReceipt| == |nos.receipt|
      modifies this
      ensures Valid()
      ensures r.Charged? <==> BothFit(old(buckets), nos.messageFee, costFee, nos.receipt, costReceipt)
      ensures r.Overflow? <==> exists b :: SumFor(nos.messageFee + nos.receipt, costFee + costReceipt, b) > U256_MAX
      ensures r.Charged? ==>
        && Deducted(old(buckets), nos.messageFee + nos.receipt, costFee + costReceipt, buckets)
        && |old(consumed).messageFee| == |costFee| && consumed.messageFee == Added(old(consumed).messageFee, costFee)
        && |old(consumed).receipt| == |costReceipt| && consumed.receipt == Added(old(consumed).receipt, costReceipt)
        && consumed == old(consumed).(messageFee := consumed.messageFee, receipt := consumed.receipt)
      ensures !r.Charged? ==> buckets == old(buckets) && consumed == old(consumed)
    {
      var all, costs := nos.messageFee + nos.receipt, costFee + costReceipt;
      var deductions;
      r, deductions := Gather(all, costs);
      if r.Overflow? {
        OverflowNeverFits(buckets, all, costs);
        return;
      }
      GatheredFits(buckets, deductions, all, costs);
      var fits := AllFit(buckets, deductions);
      if !fits { return Refused; }
      ghost var was, counted := buckets, consumed;
      MessageCounters(totals, buckets, nos, consumed, costFee, costReceipt);
      buckets := SubtractAll(buckets, deductions);
      AllDeducted(was, deductions, all, costs, buckets);
      var fees := Count(consumed.messageFee, costFee);
      var receipts := Count(consumed.receipt, costReceipt);
      consumed := consumed.(messageFee := fees, receipt := receipts);
      MessageConserved(totals, was, nos, counted, costFee, costReceipt, buckets, consumed);
    }

    /** `consume_initial`: every category's start cost, in order; the first that cannot be paid is named, and the ones
        before it stay charged. */
    method ConsumeInitial(starts: Each<seq<U256>>) returns (failed: First)
      requires Valid() && forall c: Category :: |starts.Of(c)| == |nos.Of(c)|
      modifies this
      ensures Valid()
      ensures forall c: Category | Paid(failed, c) ::
        |old(consumed).Of(c)| == |starts.Of(c)| && consumed.Of(c) == Added(old(consumed).Of(c), starts.Of(c))
      ensures forall c: Category | !Paid(failed, c) :: consumed.Of(c) == old(consumed).Of(c)
      ensures failed.Short? ==> !Fits(buckets, nos.Of(failed.c), starts.Of(failed.c))
      ensures failed.Stopped? ==> exists k :: OverflowsAt(buckets, nos.Of(failed.c), starts.Of(failed.c), 0, k)
      ensures ChargedUpTo(failed, old(consumed), starts, consumed)
    {
      hide OverflowsAt, Fits, Deducted;
      var i := 0;
      while i < 5
        invariant 0 <= i <= 5 && Valid()
        invariant forall c: Category | Order(c) < i ::
          |old(consumed).Of(c)| == |starts.Of(c)| && consumed.Of(c) == Added(old(consumed).Of(c), starts.Of(c))
        invariant forall c: Category | Order(c) >= i :: consumed.Of(c) == old(consumed).Of(c)
      {
        var c := Nth(i);
        var r := ConsumeBucketRaw(c, starts.Of(c));
        if !r.Charged? {
          failed := if r.Refused? then Short(c) else Stopped(c);
          UpTo(failed, old(consumed), starts, consumed);
          return;
        }
        i := i + 1;
      }
      failed := Nobody;
      UpTo(failed, old(consumed), starts, consumed);
    }

    /** `sum_consumed`: plain addition, so nothing is reported when the sum overflows. */
    method Consumed(c: Category) returns (r: Reported)
      ensures r == if Sum(consumed.Of(c)) > U256_MAX then TooLarge else Total(Sum(consumed.Of(c)))
    {
      var total: nat, i := 0, 0;
      var xs := consumed.Of(c);
      while i < |xs|
        invariant 0 <= i <= |xs| && total == Sum(xs[..i]) <= U256_MAX
      {
        SumNext(xs, i);
        if total + xs[i] > U256_MAX { return TooLarge; }
        total := total + xs[i];
        i := i + 1;
      }
      assert xs[..i] == xs;
      r := Total(total);
    }
  }

  /** `Stopped`: the addition overflowed. */
  datatype First = Nobody | Short(c: Category) | Stopped(c: Category)

  /** Storage is charged first, then receipts, the non-deterministic output, message fees and events; the charging ends at
      the category named. */
  ghost predicate ChargedUpTo(failed: First, was: Each<seq<nat>>, starts: Each<seq<U256>>, now: Each<seq<nat>>) {
    && Start(!failed.Nobody? && failed.c.Storage?, was.storage, starts.storage, now.storage)
    && Start(!failed.Nobody? && (failed.c.Storage? || failed.c.Receipt?), was.receipt, starts.receipt, now.receipt)
    && Start(!failed.Nobody? && (failed.c.Storage? || failed.c.Receipt? || failed.c.NondetOutput?),
             was.nondetOutput, starts.nondetOutput, now.nondetOutput)
    && Start(!failed.Nobody? && !failed.c.Event?, was.messageFee, starts.messageFee, now.messageFee)
    && Start(!failed.Nobody?, was.event, starts.event, now.event)
  }

  /** The counters of a category, unless the charging ended before it or at it, have grown by its start costs. */
  ghost predicate Start(ended: bool, was: seq<nat>, start: seq<U256>, now: seq<nat>) {
    if ended then now == was
    else |was| == |start| == |now| && forall i | 0 <= i < |was| :: now[i] == was[i] + start[i]
  }

  datatype Reported = Total(sum: U256) | TooLarge

  lemma {:induction false} UpTo(failed: First, was: Each<seq<nat>>, starts: Each<seq<U256>>, now: Each<seq<nat>>)
    requires forall c: Category | Paid(failed, c) :: |was.Of(c)| == |starts.Of(c)| && now.Of(c) == Added(was.Of(c), starts.Of(c))
    requires forall c: Category | !Paid(failed, c) :: now.Of(c) == was.Of(c)
    ensures ChargedUpTo(failed, was, starts, now)
  {
    forall c: Category ensures Start(!Paid(failed, c), was.Of(c), starts.Of(c), now.Of(c)) {}
    hide Start;
    assert was.Of(Storage) == was.storage && was.Of(Receipt) == was.receipt && was.Of(NondetOutput) == was.nondetOutput
        && was.Of(MessageFee) == was.messageFee && was.Of(Event) == was.event;
  }

  /** The order in which start costs are charged. */
  function Order(c: Category): nat {
    match c
    case Storage => 0 case Receipt => 1 case NondetOutput => 2 case MessageFee => 3 case Event => 4
  }

  function Nth(i: nat): (c: Category)
    requires i < 5
    ensures Order(c) == i
  {
    if i == 0 then Storage else if i == 1 then Receipt else if i == 2 then NondetOutput else if i == 3 then MessageFee else Event
  }

  /** The category was reached and paid. */
  predicate Paid(failed: First, c: Category) {
    failed.Nobody? || Order(c) < Order(failed.c)
  }

  lemma {:induction false} SumNext(xs: seq<nat>, i: nat)
    requires i < |xs|
    ensures Sum(xs[..i + 1]) == Sum(xs[..i]) + xs[i] <= Sum(xs)
    decreases |xs|
  {
    assert xs[..i + 1][..i] == xs[..i];
    if i < |xs| - 1 {
      SumNext(xs[..|xs| - 1], i);
      assert xs[..|xs| - 1][..i + 1] == xs[..i + 1] && xs[..|xs| - 1][..i] == xs[..i];
    } else {
      assert xs[..i + 1] == xs;
    }
  }

  /** A sum that overflows is more than any bucket holds. */
  lemma {:induction false} OverflowNeverFits(buckets: seq<U256>, nos: seq<nat>, costs: seq<nat>)
    requires |nos| == |costs| && exists b :: SumFor(nos, costs, b) > U256_MAX
    ensures !Fits(buckets, nos, costs)
  {
    var b :| SumFor(nos, costs, b) > U256_MAX;
    NoneAimed(nos, costs, b);
    var i :| 0 <= i < |nos| && nos[i] == b;
  }

  function Zeros(nos: seq<nat>): seq<U256> {
    seq(|nos|, _ => 0)
  }

  function NoneConsumed(nos: Each<seq<nat>>): Each<seq<U256>> {
    Each(Zeros(nos.storage), Zeros(nos.receipt), Zeros(nos.nondetOutput), Zeros(nos.messageFee), Zeros(nos.event))
  }

  lemma {:induction false} NothingConsumed(totals: seq<U256>, nos: Each<seq<nat>>)
    ensures Conserved(totals, totals, nos, NoneConsumed(nos))
  {
    var consumed := NoneConsumed(nos);
    forall c: Category ensures |nos.Of(c)| == |consumed.Of(c)| {}
    forall b | 0 <= b < |totals| ensures Tracked(nos, consumed, b) == 0 {
      ZerosFor(nos.storage, b);
      ZerosFor(nos.receipt, b);
      ZerosFor(nos.nondetOutput, b);
      ZerosFor(nos.messageFee, b);
      ZerosFor(nos.event, b);
    }
  }

  lemma {:induction false} ZerosFor(nos: seq<nat>, b: nat)
    ensures SumFor(nos, Zeros(nos), b) == 0
  {
    if nos != [] {
      assert Zeros(nos)[..|nos| - 1] == Zeros(nos[..|nos| - 1]);
      ZerosFor(nos[..|nos| - 1], b);
    }
  }

  lemma {:induction false} MessageCounters(totals: seq<U256>, buckets: seq<U256>, nos: Each<seq<nat>>, consumed: Each<seq<U256>>, costFee: seq<U256>, costReceipt: seq<U256>)
    requires Conserved(totals, buckets, nos, consumed) && |costFee| == |nos.messageFee| && |costReceipt| == |nos.receipt|
    requires BothFit(buckets, nos.messageFee, costFee, nos.receipt, costReceipt)
    ensures |consumed.messageFee| == |costFee| && forall i | 0 <= i < |costFee| :: consumed.messageFee[i] + costFee[i] <= U256_MAX
    ensures |consumed.receipt| == |costReceipt| && forall i | 0 <= i < |costReceipt| :: consumed.receipt[i] + costReceipt[i] <= U256_MAX
  {
    EachFits(buckets, nos.messageFee, costFee, nos.receipt, costReceipt);
    ShapeOf(nos, consumed, MessageFee);
    ShapeOf(nos, consumed, Receipt);
    forall i | 0 <= i < |costFee| ensures consumed.messageFee[i] + costFee[i] <= U256_MAX {
      CounterFits(totals, buckets, nos, consumed, MessageFee, costFee, i);
    }
    forall i | 0 <= i < |costReceipt| ensures consumed.receipt[i] + costReceipt[i] <= U256_MAX {
      CounterFits(totals, buckets, nos, consumed, Receipt, costReceipt, i);
    }
  }

  /** What fits together fits alone. */
  lemma {:induction false} EachFits(buckets: seq<U256>, nos: seq<nat>, costs: seq<nat>, nos': seq<nat>, costs': seq<nat>)
    requires |nos| == |costs| && |nos'| == |costs'| && BothFit(buckets, nos, costs, nos', costs')
    ensures Fits(buckets, nos, costs) && Fits(buckets, nos', costs')
  {
    forall i | 0 <= i < |nos| ensures nos[i] < |buckets| && SumFor(nos, costs, nos[i]) <= buckets[nos[i]] {
      assert (nos + nos')[i] == nos[i];
      SumForConcat(nos, costs, nos', costs', nos[i]);
    }
    forall i | 0 <= i < |nos'| ensures nos'[i] < |buckets| && SumFor(nos', costs', nos'[i]) <= buckets[nos'[i]] {
      assert (nos + nos')[|nos| + i] == nos'[i];
      SumForConcat(nos, costs, nos', costs', nos'[i]);
    }
  }

  lemma {:induction false} MessageConserved(totals: seq<U256>, buckets: seq<U256>, nos: Each<seq<nat>>, consumed: Each<seq<U256>>, costFee: seq<U256>, costReceipt: seq<U256>,
                                            buckets': seq<U256>, consumed': Each<seq<U256>>)
    requires Conserved(totals, buckets, nos, consumed) && |costFee| == |nos.messageFee| && |costReceipt| == |nos.receipt|
    requires Deducted(buckets, nos.messageFee + nos.receipt, costFee + costReceipt, buckets')
    requires |consumed.messageFee| == |costFee| && consumed'.messageFee == Added(consumed.messageFee, costFee)
    requires |consumed.receipt| == |costReceipt| && consumed'.receipt == Added(consumed.receipt, costReceipt)
    requires consumed' == consumed.(messageFee := consumed'.messageFee, receipt := consumed'.receipt)
    ensures Conserved(totals, buckets', nos, consumed')
  {
    var middle := With(consumed, MessageFee, consumed'.messageFee);
    assert consumed' == With(middle, Receipt, consumed'.receipt);
    hide SumFor, Tracked, SameShape;
    TrackedWith(nos, consumed, MessageFee, consumed'.messageFee, 0);
    TrackedWith(nos, middle, Receipt, consumed'.receipt, 0);
    forall b | 0 <= b < |totals| ensures buckets'[b] + Tracked(nos, consumed', b) == totals[b] {
      TrackedWith(nos, consumed, MessageFee, consumed'.messageFee, b);
      TrackedWith(nos, middle, Receipt, consumed'.receipt, b);
      SumForAdded(nos.messageFee, consumed.messageFee, costFee, b);
      SumForAdded(nos.receipt, consumed.receipt, costReceipt, b);
      SumForConcat(nos.messageFee, costFee, nos.receipt, costReceipt, b);
    }
  }

  // --- the loops ---

  /** The quadratic check: each entry alone, then together with earlier entries for the same bucket. */
  method CheckRaw(buckets: seq<U256>, nos: seq<nat>, costs: seq<U256>) returns (r: Charge)
    requires |nos| == |costs|
    ensures r == RawCheck(buckets, nos, costs, 0)
  {
    var idx := 0;
    while idx < |nos|
      invariant 0 <= idx <= |nos| && RawCheck(buckets, nos, costs, 0) == RawCheck(buckets, nos, costs, idx)
    {
      var bno, cost := nos[idx], costs[idx];
      if bno >= |buckets| { return Refused; }
      if buckets[bno] < cost { return Refused; }
      var cumulative, j := cost as nat, 0;
      SumForNext(nos, costs, idx, bno);
      while j < idx
        invariant 0 <= j <= idx && cumulative == cost + SumFor(nos[..j], costs[..j], bno) <= U256_MAX
      {
        SumForNext(nos, costs, j, bno);
        if nos[j] == bno {
          if cumulative + costs[j] > U256_MAX {
            PrefixSum(nos, costs, j + 1, idx, bno);
            return Overflow;
          }
          cumulative := cumulative + costs[j];
        }
        j := j + 1;
      }
      if buckets[bno] < cumulative { return Refused; }
      idx := idx + 1;
    }
    r := Charged;
  }

  lemma {:induction false} PrefixSum(nos: seq<nat>, costs: seq<nat>, j: nat, n: nat, b: nat)
    requires |nos| == |costs| && j <= n <= |nos|
    ensures SumFor(nos[..j], costs[..j], b) <= SumFor(nos[..n], costs[..n], b)
  {
    assert nos[..n][..j] == nos[..j] && costs[..n][..j] == costs[..j];
    SumForFront(nos[..n], costs[..n], j, b);
  }

  method Subtract(buckets: seq<U256>, nos: seq<nat>, costs: seq<U256>) returns (buckets': seq<U256>)
    requires |nos| == |costs| && Fits(buckets, nos, costs)
    ensures Deducted(buckets, nos, costs, buckets')
  {
    buckets' := buckets;
    var i := 0;
    while i < |nos|
      invariant 0 <= i <= |nos| && Deducted(buckets, nos[..i], costs[..i], buckets')
    {
      forall b ensures SumFor(nos[..i + 1], costs[..i + 1], b) == SumFor(nos[..i], costs[..i], b) + if nos[i] == b then costs[i] else 0 {
        SumForNext(nos, costs, i, b);
      }
      SumForFront(nos, costs, i + 1, nos[i]);
      hide SumFor;
      buckets' := buckets'[nos[i] := buckets'[nos[i]] - costs[i]];
      i := i + 1;
    }
    SumForAll(nos, costs);
  }

  method Count(counts: seq<U256>, costs: seq<U256>) returns (counts': seq<U256>)
    requires |counts| == |costs| && forall i | 0 <= i < |costs| :: counts[i] + costs[i] <= U256_MAX
    ensures counts' == Added(counts, costs)
  {
    counts' := counts;
    var i := 0;
    while i < |costs|
      invariant 0 <= i <= |costs| && |counts'| == |counts|
      invariant forall j | 0 <= j < i :: counts'[j] == counts[j] + costs[j]
      invariant forall j | i <= j < |costs| :: counts'[j] == counts[j]
    {
      counts' := counts'[i := counts'[i] + costs[i]];
      i := i + 1;
    }
    assert counts' == Added(counts, costs);
  }

  /** The cumulative deductions of both categories. */
  method Gather(nos: seq<nat>, costs: seq<U256>) returns (r: Charge, deductions: map<nat, U256>)
    requires |nos| == |costs|
    ensures r.Charged? || r.Overflow?
    ensures r.Charged? ==> Gathered(deductions, nos, costs)
    ensures r.Overflow? <==> exists b :: SumFor(nos, costs, b) > U256_MAX
  {
    deductions := map[];
    var i := 0;
    while i < |nos|
      invariant 0 <= i <= |nos| && Gathered(deductions, nos[..i], costs[..i])
    {
      var was := if nos[i] in deductions then deductions[nos[i]] else 0;
      GatherNext(deductions, nos[..i], costs[..i], nos[i], costs[i]);
      assert nos[..i + 1] == nos[..i] + [nos[i]] && costs[..i + 1] == costs[..i] + [costs[i]];
      if was + costs[i] > U256_MAX {
        NoneAimed(nos[..i], costs[..i], nos[i]);
        SumForNext(nos, costs, i, nos[i]);
        SumForFront(nos, costs, i + 1, nos[i]);
        return Overflow, deductions;
      }
      deductions := deductions[nos[i] := was + costs[i]];
      i := i + 1;
    }
    SumForAll(nos, costs);
    forall b ensures SumFor(nos, costs, b) <= U256_MAX { NoneAimed(nos, costs, b); }
    r := Charged;
  }

  method AllFit(buckets: seq<U256>, deductions: map<nat, U256>) returns (ok: bool)
    ensures ok <==> forall b | b in deductions :: b < |buckets| && deductions[b] <= buckets[b]
  {
    var rest := deductions.Keys;
    while rest != {}
      invariant rest <= deductions.Keys
      invariant forall b | b in deductions && b !in rest :: b < |buckets| && deductions[b] <= buckets[b]
      decreases rest
    {
      var b :| b in rest;
      if b >= |buckets| || buckets[b] < deductions[b] { return false; }
      rest := rest - {b};
    }
    ok := true;
  }

  method SubtractAll(buckets: seq<U256>, deductions: map<nat, U256>) returns (buckets': seq<U256>)
    requires forall b | b in deductions :: b < |buckets| && deductions[b] <= buckets[b]
    ensures PartlyDeducted(buckets, deductions, {}, buckets')
  {
    buckets' := buckets;
    var rest := deductions.Keys;
    while rest != {}
      invariant rest <= deductions.Keys && PartlyDeducted(buckets, deductions, rest, buckets')
      decreases rest
    {
      var b :| b in rest;
      buckets' := buckets'[b := buckets'[b] - deductions[b]];
      rest := rest - {b};
    }
  }

  // --- every interleaving ---

  /** A counter update still to be made after the lock is dropped. */
  datatype Update = Update(c: Category, i: nat, cost: U256)

  datatype State = State(buckets: seq<U256>, consumed: Each<seq<U256>>, pending: seq<Update>)

  datatype Action =
    | Raw(c: Category, costs: seq<U256>)                              // one category, counted under the lock
    | Message(costFee: seq<U256>, costReceipt: seq<U256>)             // two categories, counted later
    | Track(k: nat)                                                   // one of the counter updates

  predicate Can(nos: Each<seq<nat>>, s: State, a: Action) {
    match a
    case Raw(c, costs) => |costs| == |nos.Of(c)|
    case Message(f, r) => |f| == |nos.messageFee| && |r| == |nos.receipt|
    case Track(k) => k < |s.pending|
  }

  function Updates(c: Category, costs: seq<U256>): seq<Update> {
    seq(|costs|, i requires 0 <= i < |costs| => Update(c, i, costs[i]))
  }

  /** A step of some task; a charge that does not fit changes nothing. */
  ghost predicate Step(nos: Each<seq<nat>>, s: State, a: Action, s': State)
    requires Can(nos, s, a)
  {
    match a
    case Raw(c, costs) =>
      if Fits(s.buckets, nos.Of(c), costs) then
        && Deducted(s.buckets, nos.Of(c), costs, s'.buckets) && s'.pending == s.pending
        && |s.consumed.Of(c)| == |costs| && s'.consumed.Of(c) == Added(s.consumed.Of(c), costs)
        && s'.consumed == With(s.consumed, c, s'.consumed.Of(c))
      else s' == s
    case Message(f, r) =>
      if BothFit(s.buckets, nos.messageFee, f, nos.receipt, r) then
        && Deducted(s.buckets, nos.messageFee + nos.receipt, f + r, s'.buckets)
        && s'.consumed == s.consumed && s'.pending == s.pending + Updates(MessageFee, f) + Updates(Receipt, r)
      else s' == s
    case Track(k) =>
      var u := s.pending[k];
      && s'.buckets == s.buckets && s'.pending == s.pending[..k] + s.pending[k + 1..]
      && u.i < |s.consumed.Of(u.c)| == |s'.consumed.Of(u.c)| && s'.consumed.Of(u.c) == s.consumed.Of(u.c)[u.i := s'.consumed.Of(u.c)[u.i]]
      && s'.consumed.Of(u.c)[u.i] as nat == s.consumed.Of(u.c)[u.i] as nat + u.cost
      && s'.consumed == With(s.consumed, u.c, s'.consumed.Of(u.c))
  }

  /** Costs taken from bucket `b` and not yet counted. */
  ghost function Uncounted(nos: Each<seq<nat>>, pending: seq<Update>, b: nat): nat {
    if pending == [] then 0
    else
      var u := pending[|pending| - 1];
      Uncounted(nos, pending[..|pending| - 1], b) + if u.i < |nos.Of(u.c)| && nos.Of(u.c)[u.i] == b then u.cost else 0
  }

  /** What remains, what is counted and what is still to be counted add up to what there was. */
  ghost predicate Balanced(totals: seq<U256>, nos: Each<seq<nat>>, s: State) {
    && |s.buckets| == |totals| && SameShape(nos, s.consumed)
    && (forall k | 0 <= k < |s.pending| :: s.pending[k].i < |nos.Of(s.pending[k].c)|)
    && (forall k | 0 <= k < |s.pending| :: nos.Of(s.pending[k].c)[s.pending[k].i] < |totals|)
    && forall b | 0 <= b < |totals| :: s.buckets[b] + Tracked(nos, s.consumed, b) + Uncounted(nos, s.pending, b) == totals[b]
  }

  lemma {:induction false} StartBalanced(totals: seq<U256>, nos: Each<seq<nat>>)
    ensures Balanced(totals, nos, State(totals, NoneConsumed(nos), []))
  {
    NothingConsumed(totals, nos);
  }

  lemma {:induction false} UncountedConcat(nos: Each<seq<nat>>, p: seq<Update>, q: seq<Update>, b: nat)
    ensures Uncounted(nos, p + q, b) == Uncounted(nos, p, b) + Uncounted(nos, q, b)
    decreases |q|
  {
    if q == [] {
      assert p + q == p;
    } else {
      assert (p + q)[..|p + q| - 1] == p + q[..|q| - 1];
      UncountedConcat(nos, p, q[..|q| - 1], b);
    }
  }

  lemma {:induction false} UncountedUpdates(nos: Each<seq<nat>>, c: Category, costs: seq<U256>, n: nat, b: nat)
    requires n <= |costs| == |nos.Of(c)|
    ensures Uncounted(nos, Updates(c, costs)[..n], b) == SumFor(nos.Of(c)[..n], costs[..n], b)
    decreases n
  {
    if n > 0 {
      assert Updates(c, costs)[..n][..n - 1] == Updates(c, costs)[..n - 1];
      UncountedUpdates(nos, c, costs, n - 1, b);
      SumForNext(nos.Of(c), costs, n - 1, b);
    }
  }

  lemma {:induction false} UncountedWithout(nos: Each<seq<nat>>, p: seq<Update>, k: nat, b: nat)
    requires k < |p| && p[k].i < |nos.Of(p[k].c)|
    ensures Uncounted(nos, p, b) == Uncounted(nos, p[..k] + p[k + 1..], b) + if nos.Of(p[k].c)[p[k].i] == b then p[k].cost else 0
  {
    assert p == p[..k] + [p[k]] + p[k + 1..];
    UncountedConcat(nos, p[..k] + [p[k]], p[k + 1..], b);
    UncountedConcat(nos, p[..k], [p[k]], b);
    UncountedConcat(nos, p[..k], p[k + 1..], b);
    assert [p[k]][..0] == [];
  }

  lemma {:induction false} SumForUpdate(nos: seq<nat>, xs: seq<nat>, i: nat, x: nat, b: nat)
    requires |nos| == |xs| && i < |xs|
    ensures SumFor(nos, xs[i := x], b) == SumFor(nos, xs, b) + if nos[i] == b then x - xs[i] else 0
  {
    var n := |nos| - 1;
    if i < n {
      assert xs[i := x][..n] == xs[..n][i := x];
      SumForUpdate(nos[..n], xs[..n], i, x, b);
    } else {
      assert xs[i := x][..n] == xs[..n];
    }
  }

  lemma {:induction false} RawBalanced(totals: seq<U256>, nos: Each<seq<nat>>, s: State, a: Action, s': State)
    requires Balanced(totals, nos, s) && Can(nos, s, a) && Step(nos, s, a, s') && a.Raw?
    ensures Balanced(totals, nos, s')
  {
    hide SumFor, Tracked, Uncounted, SameShape;
    if Fits(s.buckets, nos.Of(a.c), a.costs) {
      TrackedWith(nos, s.consumed, a.c, s'.consumed.Of(a.c), 0);
      forall b | 0 <= b < |totals| ensures s'.buckets[b] + Tracked(nos, s'.consumed, b) + Uncounted(nos, s'.pending, b) == totals[b] {
        TrackedWith(nos, s.consumed, a.c, s'.consumed.Of(a.c), b);
        SumForAdded(nos.Of(a.c), s.consumed.Of(a.c), a.costs, b);
      }
    }
  }

  lemma {:induction false} MessageBalanced(totals: seq<U256>, nos: Each<seq<nat>>, s: State, a: Action, s': State)
    requires Balanced(totals, nos, s) && Can(nos, s, a) && Step(nos, s, a, s') && a.Message?
    ensures Balanced(totals, nos, s')
  {
    var f, r := a.costFee, a.costReceipt;
    if BothFit(s.buckets, nos.messageFee, f, nos.receipt, r) {
      UpdatesKnown(totals, nos, s, f, r);
      hide SumFor, Tracked, Uncounted, SameShape, BothFit, Updates;
      forall b | 0 <= b < |totals| ensures s'.buckets[b] + Tracked(nos, s'.consumed, b) + Uncounted(nos, s'.pending, b) == totals[b] {
        UncountedMessage(nos, s.pending, f, r, b);
      }
    }
  }

  lemma {:induction false} UpdatesKnown(totals: seq<U256>, nos: Each<seq<nat>>, s: State, f: seq<U256>, r: seq<U256>)
    requires Balanced(totals, nos, s) && |f| == |nos.messageFee| && |r| == |nos.receipt| && BothFit(s.buckets, nos.messageFee, f, nos.receipt, r)
    ensures var p := s.pending + Updates(MessageFee, f) + Updates(Receipt, r);
            forall k | 0 <= k < |p| :: p[k].i < |nos.Of(p[k].c)| && nos.Of(p[k].c)[p[k].i] < |totals|
  {
    EachFits(s.buckets, nos.messageFee, f, nos.receipt, r);
    hide SumFor, Tracked, Uncounted, SameShape;
  }

  /** What a message charge leaves to be counted is what it took. */
  lemma {:induction false} UncountedMessage(nos: Each<seq<nat>>, p: seq<Update>, f: seq<U256>, r: seq<U256>, b: nat)
    requires |f| == |nos.messageFee| && |r| == |nos.receipt|
    ensures Uncounted(nos, p + Updates(MessageFee, f) + Updates(Receipt, r), b) == Uncounted(nos, p, b) + SumFor(nos.messageFee + nos.receipt, f + r, b)
  {
    hide SumFor, Uncounted;
    UncountedConcat(nos, p + Updates(MessageFee, f), Updates(Receipt, r), b);
    UncountedConcat(nos, p, Updates(MessageFee, f), b);
    UncountedUpdates(nos, MessageFee, f, |f|, b);
    UncountedUpdates(nos, Receipt, r, |r|, b);
    assert Updates(MessageFee, f)[..|f|] == Updates(MessageFee, f) && Updates(Receipt, r)[..|r|] == Updates(Receipt, r);
    SumForAll(nos.messageFee, f);
    SumForAll(nos.receipt, r);
    SumForConcat(nos.messageFee, f, nos.receipt, r, b);
  }

  lemma {:induction false} TrackBalanced(totals: seq<U256>, nos: Each<seq<nat>>, s: State, a: Action, s': State)
    requires Balanced(totals, nos, s) && Can(nos, s, a) && Step(nos, s, a, s') && a.Track?
    ensures Balanced(totals, nos, s')
  {
    hide SumFor, Tracked, Uncounted;
    var u := s.pending[a.k];
    var xs := s'.consumed.Of(u.c);
    TrackedWith(nos, s.consumed, u.c, xs, 0);
    assert forall k | 0 <= k < |s'.pending| :: s'.pending[k] == s.pending[if k < a.k then k else k + 1];
    forall b | 0 <= b < |totals| ensures s'.buckets[b] + Tracked(nos, s'.consumed, b) + Uncounted(nos, s'.pending, b) == totals[b] {
      TrackedWith(nos, s.consumed, u.c, xs, b);
      SumForUpdate(nos.Of(u.c), s.consumed.Of(u.c), u.i, xs[u.i], b);
      UncountedWithout(nos, s.pending, a.k, b);
    }
  }

  /** Every step of every task keeps the balance. */
  lemma {:induction false} StepBalanced(totals: seq<U256>, nos: Each<seq<nat>>, s: State, a: Action, s': State)
    requires Balanced(totals, nos, s) && Can(nos, s, a) && Step(nos, s, a, s')
    ensures Balanced(totals, nos, s')
  {
    hide Balanced, Step, Can;
    match a {
      case Raw(_, _) => RawBalanced(totals, nos, s, a, s');
      case Message(_, _) => MessageBalanced(totals, nos, s, a, s');
      case Track(_) => TrackBalanced(totals, nos, s, a, s');
    }
  }

  /** So the balance holds of every state of every run. */
  lemma {:induction false} RunBalanced(totals: seq<U256>, nos: Each<seq<nat>>, states: seq<State>, actions: seq<Action>, i: nat)
    requires |states| == |actions| + 1 && i < |states| && Balanced(totals, nos, states[0])
    requires forall k | 0 <= k < |actions| :: Can(nos, states[k], actions[k]) && Step(nos, states[k], actions[k], states[k + 1])
    ensures Balanced(totals, nos, states[i])
  {
    if i > 0 {
      RunBalanced(totals, nos, states, actions, i - 1);
      StepBalanced(totals, nos, states[i - 1], actions[i - 1], states[i]);
    }
  }

  /** No counter overflows: a pending update always finds room. */
  lemma {:induction false} UpdateFits(totals: seq<U256>, nos: Each<seq<nat>>, s: State, k: nat)
    requires Balanced(totals, nos, s) && k < |s.pending|
    ensures var u := s.pending[k];
            u.i < |s.consumed.Of(u.c)| && s.consumed.Of(u.c)[u.i] + u.cost <= U256_MAX
  {
    var u := s.pending[k];
    ShapeOf(nos, s.consumed, u.c);
    var b := nos.Of(u.c)[u.i];
    hide Tracked, Uncounted, SumFor;
    TrackedWith(nos, s.consumed, u.c, s.consumed.Of(u.c), b);
    SumForMember(nos.Of(u.c), s.consumed.Of(u.c), u.i);
    UncountedWithout(nos, s.pending, k, b);
  }
}
