/** Fee buckets: charging several entries at once, all or nothing, by the quadratic check of one category and by the
    map of two (executor/src/rt/fees.rs:157-169, 219-235, 345-392, 398-442, 513-565). */
module FeeBuckets {
  import opened Collections

  const U256_MAX: nat := 0x1_0000_0000_0000_0000_0000_0000_0000_0000_0000_0000_0000_0000_0000_0000_0000_0000 - 1

  type U256 = n: nat | n <= U256_MAX witness 0

  datatype Category = Storage | Receipt | NondetOutput | MessageFee | Event

  /** One value for each category. */
  datatype Each<+T> = Each(storage: T, receipt: T, nondetOutput: T, messageFee: T, event: T) {
    function Of(c: Category): T {
      match c
      case Storage => storage
      case Receipt => receipt
      case NondetOutput => nondetOutput
      case MessageFee => messageFee
      case Event => event
    }
  }

  function With<T>(e: Each<T>, c: Category, x: T): Each<T> {
    match c
    case Storage => e.(storage := x)
    case Receipt => e.(receipt := x)
    case NondetOutput => e.(nondetOutput := x)
    case MessageFee => e.(messageFee := x)
    case Event => e.(event := x)
  }

  /** A charge is made, refused, or stopped by an overflow of 256-bit addition. */
  datatype Charge = Charged | Refused | Overflow

  /** All that is aimed at bucket `b`. */
  function SumFor(nos: seq<nat>, costs: seq<nat>, b: nat): nat
    requires |nos| == |costs|
  {
    if nos == [] then 0
    else
      var n := |nos| - 1;
      SumFor(nos[..n], costs[..n], b) + if nos[n] == b then costs[n] else 0
  }

  /** For every bucket number, the sum of all costs aimed at it fits what remains. */
  ghost predicate Fits(buckets: seq<U256>, nos: seq<nat>, costs: seq<nat>)
    requires |nos| == |costs|
  {
    forall i | 0 <= i < |nos| :: nos[i] < |buckets| && SumFor(nos, costs, nos[i]) <= buckets[nos[i]]
  }

  /** The buckets after the charge. */
  ghost predicate Deducted(buckets: seq<U256>, nos: seq<nat>, costs: seq<nat>, buckets': seq<U256>)
    requires |nos| == |costs|
  {
    |buckets'| == |buckets| && forall b | 0 <= b < |buckets| :: buckets'[b] + SumFor(nos, costs, b) == buckets[b]
  }

  function Added(xs: seq<nat>, ys: seq<nat>): seq<nat>
    requires |xs| == |ys|
  {
    seq(|xs|, i requires 0 <= i < |xs| => xs[i] + ys[i])
  }

  // --- sums ---

  lemma {:induction false} SumForMember(nos: seq<nat>, costs: seq<nat>, i: nat)
    requires |nos| == |costs| && i < |nos|
    ensures costs[i] <= SumFor(nos, costs, nos[i])
  {
    if i < |nos| - 1 { SumForMember(nos[..|nos| - 1], costs[..|nos| - 1], i); }
  }

  lemma {:induction false} SumForFront(nos: seq<nat>, costs: seq<nat>, n: nat, b: nat)
    requires |nos| == |costs| && n <= |nos|
    ensures SumFor(nos[..n], costs[..n], b) <= SumFor(nos, costs, b)
    decreases |nos|
  {
    if n < |nos| {
      SumForFront(nos[..|nos| - 1], costs[..|nos| - 1], n, b);
      assert nos[..|nos| - 1][..n] == nos[..n] && costs[..|nos| - 1][..n] == costs[..n];
    } else {
      assert nos[..n] == nos && costs[..n] == costs;
    }
  }

  lemma {:induction false} SumForNext(nos: seq<nat>, costs: seq<nat>, i: nat, b: nat)
    requires |nos| == |costs| && i < |nos|
    ensures SumFor(nos[..i + 1], costs[..i + 1], b) == SumFor(nos[..i], costs[..i], b) + if nos[i] == b then costs[i] else 0
  {
    assert nos[..i + 1][..i] == nos[..i] && costs[..i + 1][..i] == costs[..i];
  }

  lemma {:induction false} SumForAll(nos: seq<nat>, costs: seq<nat>)
    requires |nos| == |costs|
    ensures nos[..|nos|] == nos && costs[..|nos|] == costs
  {
  }

  lemma {:induction false} SumForConcat(nos: seq<nat>, costs: seq<nat>, nos': seq<nat>, costs': seq<nat>, b: nat)
    requires |nos| == |costs| && |nos'| == |costs'|
    ensures SumFor(nos + nos', costs + costs', b) == SumFor(nos, costs, b) + SumFor(nos', costs', b)
    decreases |nos'|
  {
    if nos' == [] {
      assert nos + nos' == nos && costs + costs' == costs;
    } else {
      var n := |nos'| - 1;
      assert (nos + nos')[..|nos| + n] == nos + nos'[..n] && (costs + costs')[..|nos| + n] == costs + costs'[..n];
      SumForConcat(nos, costs, nos'[..n], costs'[..n], b);
    }
  }

  lemma {:induction false} SumForAdded(nos: seq<nat>, xs: seq<nat>, ys: seq<nat>, b: nat)
    requires |nos| == |xs| == |ys|
    ensures SumFor(nos, Added(xs, ys), b) == SumFor(nos, xs, b) + SumFor(nos, ys, b)
    decreases |nos|
  {
    if nos != [] {
      var n := |nos| - 1;
      assert Added(xs, ys)[..n] == Added(xs[..n], ys[..n]);
      SumForAdded(nos[..n], xs[..n], ys[..n], b);
    }
  }

  lemma {:induction false} SumAdded(xs: seq<nat>, ys: seq<nat>)
    requires |xs| == |ys|
    ensures Sum(Added(xs, ys)) == Sum(xs) + Sum(ys)
  {
    if xs != [] {
      var n := |xs| - 1;
      assert Added(xs, ys)[..n] == Added(xs[..n], ys[..n]);
      SumAdded(xs[..n], ys[..n]);
    }
  }

  // --- the quadratic check of one category ---

  /** The checks of `consume_bucket_raw` from entry `i` on. */
  function RawCheck(buckets: seq<U256>, nos: seq<nat>, costs: seq<U256>, i: nat): Charge
    requires |nos| == |costs| && i <= |nos|
    decreases |nos| - i
  {
    if i == |nos| then Charged
    else if nos[i] >= |buckets| then Refused
    else if buckets[nos[i]] < costs[i] then Refused
    else
      var cumulative := SumFor(nos[..i + 1], costs[..i + 1], nos[i]);
      if cumulative > U256_MAX then Overflow
      else if buckets[nos[i]] < cumulative then Refused
      else RawCheck(buckets, nos, costs, i + 1)
  }

  lemma {:induction false} RawCheckFrom(buckets: seq<U256>, nos: seq<nat>, costs: seq<U256>, i: nat)
    requires |nos| == |costs| && i <= |nos|
    ensures RawCheck(buckets, nos, costs, i).Charged?
       <==> forall j | i <= j < |nos| :: nos[j] < |buckets| && SumFor(nos[..j + 1], costs[..j + 1], nos[j]) <= buckets[nos[j]]
    decreases |nos| - i
  {
    if i < |nos| {
      RawCheckFrom(buckets, nos, costs, i + 1);
      assert nos[..i + 1][i] == nos[i] && costs[..i + 1][i] == costs[i];
      SumForMember(nos[..i + 1], costs[..i + 1], i);
    }
  }

  /** The check passes exactly when, for every bucket number, the sum of all costs aimed at it fits. */
  lemma {:induction false} RawExact(buckets: seq<U256>, nos: seq<nat>, costs: seq<U256>)
    requires |nos| == |costs|
    ensures RawCheck(buckets, nos, costs, 0).Charged? <==> Fits(buckets, nos, costs)
  {
    RawCheckFrom(buckets, nos, costs, 0);
    if Fits(buckets, nos, costs) {
      forall j | 0 <= j < |nos| ensures SumFor(nos[..j + 1], costs[..j + 1], nos[j]) <= buckets[nos[j]] {
        SumForFront(nos, costs, j + 1, nos[j]);
      }
    } else if RawCheck(buckets, nos, costs, 0).Charged? {
      var i :| 0 <= i < |nos| && !(nos[i] < |buckets| && SumFor(nos, costs, nos[i]) <= buckets[nos[i]]);
      var j := LastFor(nos, costs, nos[i], |nos|);
    }
  }

  /** Entry `k` and the earlier ones for its bucket fit it. */
  ghost predicate EntryFits(buckets: seq<U256>, nos: seq<nat>, costs: seq<U256>, k: nat)
    requires |nos| == |costs| && k < |nos|
  {
    nos[k] < |buckets| && SumFor(nos[..k + 1], costs[..k + 1], nos[k]) <= buckets[nos[k]]
  }

  /** Entry `k` alone fits its bucket, together with the earlier ones for it exceeds 256 bits, and all entries from `i` to
      it fit. */
  ghost predicate OverflowsAt(buckets: seq<U256>, nos: seq<nat>, costs: seq<U256>, i: nat, k: int)
    requires |nos| == |costs|
  {
    && i <= k < |nos| && nos[k] < |buckets| && costs[k] <= buckets[nos[k]] && SumFor(nos[..k + 1], costs[..k + 1], nos[k]) > U256_MAX
    && forall j | i <= j < k :: EntryFits(buckets, nos, costs, j)
  }

  /** The check is stopped by an overflow exactly at the first entry that does not fit, when it alone would. */
  lemma {:induction false} RawOverflows(buckets: seq<U256>, nos: seq<nat>, costs: seq<U256>, i: nat)
    requires |nos| == |costs| && i <= |nos|
    ensures RawCheck(buckets, nos, costs, i).Overflow? <==> exists k :: OverflowsAt(buckets, nos, costs, i, k)
    decreases |nos| - i
  {
    if i < |nos| {
      RawOverflows(buckets, nos, costs, i + 1);
      assert nos[..i + 1][i] == nos[i] && costs[..i + 1][i] == costs[i];
      SumForMember(nos[..i + 1], costs[..i + 1], i);
      hide SumFor;
      if EntryFits(buckets, nos, costs, i) {
        LaterOverflow(buckets, nos, costs, i, i + 1);
      } else {
        assert forall k | OverflowsAt(buckets, nos, costs, i, k) :: k == i;
        assert OverflowsAt(buckets, nos, costs, i, i) <==> RawCheck(buckets, nos, costs, i).Overflow?;
      }
    }
  }

  lemma {:induction false} LaterOverflow(buckets: seq<U256>, nos: seq<nat>, costs: seq<U256>, i: nat, next: nat)
    requires |nos| == |costs| && i < |nos| && next == i + 1 && EntryFits(buckets, nos, costs, i)
    ensures (exists k :: OverflowsAt(buckets, nos, costs, i, k)) <==> exists k :: OverflowsAt(buckets, nos, costs, next, k)
  {
    hide SumFor;
    if k :| OverflowsAt(buckets, nos, costs, i, k) { assert OverflowsAt(buckets, nos, costs, next, k); }
    if k :| OverflowsAt(buckets, nos, costs, next, k) { assert OverflowsAt(buckets, nos, costs, i, k); }
  }

  /** At the last entry for a bucket the cumulative cost is the whole sum. */
  lemma {:induction false} LastFor(nos: seq<nat>, costs: seq<nat>, b: nat, n: nat) returns (j: nat)
    requires |nos| == |costs| && n <= |nos| && exists i :: 0 <= i < n && nos[i] == b
    ensures j < n && nos[j] == b && SumFor(nos[..j + 1], costs[..j + 1], b) == SumFor(nos[..n], costs[..n], b)
    ensures n == |nos| ==> SumFor(nos[..n], costs[..n], b) == SumFor(nos, costs, b)
  {
    SumForNext(nos, costs, n - 1, b);
    if nos[n - 1] == b {
      j := n - 1;
    } else {
      var i :| 0 <= i < n && nos[i] == b;
      j := LastFor(nos, costs, b, n - 1);
    }
    SumForAll(nos, costs);
  }

  // --- the two entries of a message charge as one ---

  ghost predicate BothFit(buckets: seq<U256>, nos: seq<nat>, costs: seq<nat>, nos': seq<nat>, costs': seq<nat>)
    requires |nos| == |costs| && |nos'| == |costs'|
  {
    Fits(buckets, nos + nos', costs + costs')
  }

  /** The cumulative deductions, by bucket number. */
  ghost predicate Gathered(deductions: map<nat, nat>, nos: seq<nat>, costs: seq<nat>)
    requires |nos| == |costs|
  {
    && (forall b :: b in deductions <==> b in nos)
    && forall b | b in deductions :: deductions[b] == SumFor(nos, costs, b)
  }

  lemma {:induction false} GatherNext(deductions: map<nat, nat>, nos: seq<nat>, costs: seq<nat>, no: nat, cost: nat)
    requires |nos| == |costs| && Gathered(deductions, nos, costs)
    ensures Gathered(deductions[no := (if no in deductions then deductions[no] else 0) + cost], nos + [no], costs + [cost])
  {
    forall b ensures SumFor(nos + [no], costs + [cost], b) == SumFor(nos, costs, b) + if no == b then cost else 0 {
      assert (nos + [no])[..|nos|] == nos && (costs + [cost])[..|nos|] == costs;
    }
    NoneAimed(nos, costs, no);
  }

  lemma {:induction false} NoneAimed(nos: seq<nat>, costs: seq<nat>, b: nat)
    requires |nos| == |costs|
    ensures b !in nos ==> SumFor(nos, costs, b) == 0
  {
    if nos != [] {
      var n := |nos| - 1;
      NoneAimed(nos[..n], costs[..n], b);
      assert nos == nos[..n] + [nos[n]];
    }
  }

  /** Checking the gathered deductions is the same check. */
  lemma {:induction false} GatheredFits(buckets: seq<U256>, deductions: map<nat, nat>, nos: seq<nat>, costs: seq<nat>)
    requires |nos| == |costs| && Gathered(deductions, nos, costs)
    ensures Fits(buckets, nos, costs) <==> forall b | b in deductions :: b < |buckets| && deductions[b] <= buckets[b]
  {
    if Fits(buckets, nos, costs) {
      forall b | b in deductions ensures b < |buckets| && deductions[b] <= buckets[b] {
        var i :| 0 <= i < |nos| && nos[i] == b;
      }
    }
    if forall b | b in deductions :: b < |buckets| && deductions[b] <= buckets[b] {
      forall i | 0 <= i < |nos| ensures nos[i] < |buckets| && SumFor(nos, costs, nos[i]) <= buckets[nos[i]] {
        assert nos[i] in deductions;
      }
    }
  }

  /** Deductions taken from the buckets one number at a time. */
  ghost predicate PartlyDeducted(buckets: seq<U256>, deductions: map<nat, nat>, rest: set<nat>, buckets': seq<U256>) {
    |buckets'| == |buckets| && forall b: nat | b < |buckets| ::
      buckets'[b] + (if b in deductions && b !in rest then deductions[b] else 0) == buckets[b]
  }

  lemma {:induction false} AllDeducted(buckets: seq<U256>, deductions: map<nat, nat>, nos: seq<nat>, costs: seq<nat>, buckets': seq<U256>)
    requires |nos| == |costs| && Gathered(deductions, nos, costs) && PartlyDeducted(buckets, deductions, {}, buckets')
    ensures Deducted(buckets, nos, costs, buckets')
  {
    forall b | 0 <= b < |buckets| ensures buckets'[b] + SumFor(nos, costs, b) == buckets[b] {
      NoneAimed(nos, costs, b);
    }
  }
}
