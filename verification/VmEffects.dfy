/** What one effect of a contract does, by the conditions the contract and its host can see: which node of the allocation
    pays for a message, when a message is sent, and that nothing is sent or written below a VM that may not
    (executor/src/wasi/genlayer_sdk.rs:38-148, 593-682, 736-800, 926-1116, 1931-1978). */
module VmEffects {
  import opened Collections
  import opened FeeBuckets
  import opened VmTree

  // --- one message ---

  /** Node `i` is the first of the allocation that the message matches. */
  predicate FirstMatch(env: Env, nodes: seq<Node>, request: nat, i: nat) {
    i < |nodes| && env.matches(nodes[i].spec, request) && forall j | 0 <= j < i :: !env.matches(nodes[j].spec, request)
  }

  /** The VM may send, and the contract owns what the message carries besides what it has promised already. */
  predicate Permitted(env: Env, conf: Conf, contract: nat, acc: Acc, value: U256) {
    conf.isDet && conf.canSend && (value == 0 || acc.decremented + value <= env.balance(contract))
  }

  /** Both fees are computed, the node's budget covers the message fee, and the buckets cover both. */
  ghost predicate Payable(env: Env, fees: Fees, node: Node, request: nat) {
    var f, r := env.messageFee(node.spec, request), env.receipt(node.spec, request);
    && f.Costs? && r.Costs? && |f.costs| == |env.nos.messageFee| && |r.costs| == |env.nos.receipt|
    && Sum(f.costs) <= node.budget && Sum(r.costs) <= U256_MAX
    && Fits(fees.buckets, env.nos.messageFee + env.nos.receipt, f.costs + r.costs)
  }

  /** The contract is out of fees: the message fee exceeds the budget, or the buckets cannot pay. */
  ghost predicate OutOfFees(env: Env, fees: Fees, node: Node, request: nat) {
    var f, r := env.messageFee(node.spec, request), env.receipt(node.spec, request);
    && f.Costs? && |f.costs| == |env.nos.messageFee| && Sum(f.costs) <= U256_MAX
    && (Sum(f.costs) <= node.budget ==>
          && r.Costs? && |r.costs| == |env.nos.receipt|
          && !Fits(fees.buckets, env.nos.messageFee + env.nos.receipt, f.costs + r.costs)
          && forall b :: SumFor(env.nos.messageFee + env.nos.receipt, f.costs + r.costs, b) <= U256_MAX)
  }

  /** `acc` and `fees` after one message paid by node `i`: one more emission with this value and these fees, that much less in
      the node's budget and in the buckets, that much more reported, and nothing else changed. */
  ghost predicate Sent(env: Env, acc: Acc, fees: Fees, value: U256, request: nat, i: nat, acc': Acc, fees': Fees)
    requires i < |acc.allocation| && Payable(env, fees, acc.allocation[i], request)
  {
    var node := acc.allocation[i];
    var f, r := env.messageFee(node.spec, request).costs, env.receipt(node.spec, request).costs;
    && acc'.emissions == acc.emissions + [Message(request, value, Sum(f), Sum(r))]
    && acc'.decremented == acc.decremented + value
    && |acc'.allocation| == |acc.allocation| && acc'.allocation[i].spec == node.spec && acc'.allocation[i].budget + Sum(f) == node.budget
    && (forall k | 0 <= k < |acc.allocation| && k != i :: acc'.allocation[k] == acc.allocation[k])
    && Deducted(fees.buckets, env.nos.messageFee + env.nos.receipt, f + r, fees'.buckets)
    && fees'.spent.messageFee == fees.spent.messageFee + Sum(f) && fees'.spent.receipt == fees.spent.receipt + Sum(r)
    && fees'.spent.storage == fees.spent.storage && fees'.spent.nondetOutput == fees.spent.nondetOutput && fees'.spent.event == fees.spent.event
  }

  /** A message that is not permitted changes nothing; one that no node matches ends the contract as out of fees; otherwise
      the first node that matches pays for it, or the contract ends. */
  lemma {:induction false} SendExact(env: Env, depth: nat, conf: Conf, contract: nat, acc: Acc, fees: Fees, value: U256, request: nat)
    ensures var r := Do(env, depth, conf, contract, acc, fees, Send(value, request));
            && (!Permitted(env, conf, contract, acc, value) ==> r == Finish(Running, acc, fees))
            && (Permitted(env, conf, contract, acc, value) && (forall i | 0 <= i < |acc.allocation| :: !env.matches(acc.allocation[i].spec, request))
                ==> r == Finish(Ended, acc, fees))
            && forall i: nat | Permitted(env, conf, contract, acc, value) && FirstMatch(env, acc.allocation, request, i) ::
                 var node := acc.allocation[i];
                 && (r.flow.Running? <==> Payable(env, fees, node, request))
                 && (r.flow.Running? ==> Sent(env, acc, fees, value, request, i, r.acc, r.fees))
                 && (r.flow.Ended? <==> OutOfFees(env, fees, node, request))
                 && (r.flow.Ended? ==> r == Finish(Ended, acc, fees))
                 && (r.flow.Running? || r.flow.Ended? || r.flow.Aborted?)
  {
    var r := Do(env, depth, conf, contract, acc, fees, Send(value, request));
    hide Payable, OutOfFees, Sent, Exec;
    NodeFound(env, acc.allocation, request, 0);
    if Permitted(env, conf, contract, acc, value) {
      var i := FindNode(env, acc.allocation, request, 0);
      hide FindNode;
      if i < |acc.allocation| {
        PaidBy(env, conf, contract, acc, fees, value, request, i);
        assert forall k: nat | FirstMatch(env, acc.allocation, request, k) :: k == i;
      }
    }
  }

  lemma {:induction false} NodeFound(env: Env, nodes: seq<Node>, request: nat, from: nat)
    requires from <= |nodes|
    ensures var i := FindNode(env, nodes, request, from);
            && (forall j | from <= j < i :: !env.matches(nodes[j].spec, request))
            && (i < |nodes| ==> env.matches(nodes[i].spec, request))
    decreases |nodes| - from
  {
    if from < |nodes| && !env.matches(nodes[from].spec, request) { NodeFound(env, nodes, request, from + 1); }
  }

  lemma {:induction false} PaidBy(env: Env, conf: Conf, contract: nat, acc: Acc, fees: Fees, value: U256, request: nat, i: nat)
    requires Permitted(env, conf, contract, acc, value) && i == FindNode(env, acc.allocation, request, 0) && i < |acc.allocation|
    ensures var r, node := DoSend(env, conf, contract, acc, fees, value, request), acc.allocation[i];
            && (r.flow.Running? <==> Payable(env, fees, node, request))
            && (r.flow.Running? ==> Sent(env, acc, fees, value, request, i, r.acc, r.fees))
            && (r.flow.Ended? <==> OutOfFees(env, fees, node, request))
            && (r.flow.Ended? ==> r == Finish(Ended, acc, fees))
            && (r.flow.Running? || r.flow.Ended? || r.flow.Aborted?)
  {
    var node := acc.allocation[i];
    var f, r := env.messageFee(node.spec, request), env.receipt(node.spec, request);
    if f.Costs? && r.Costs? && |f.costs| == |env.nos.messageFee| && |r.costs| == |env.nos.receipt| {
      ChargeMessageTakes(env, fees, f.costs, r.costs);
      FitsNoOverflow(fees.buckets, env.nos.messageFee + env.nos.receipt, f.costs + r.costs);
    }
    hide FindNode, SumFor, Fits, Deducted, Remaining;
  }

  lemma {:induction false} FitsNoOverflow(buckets: seq<U256>, nos: seq<nat>, costs: seq<nat>)
    requires |nos| == |costs|
    ensures Fits(buckets, nos, costs) ==> forall b :: SumFor(nos, costs, b) <= U256_MAX
  {
    if Fits(buckets, nos, costs) {
      forall b ensures SumFor(nos, costs, b) <= U256_MAX { FittingSum(buckets, nos, costs, b); }
    }
  }

  // --- one event ---

  /** An event that is not permitted changes nothing; otherwise it is charged and added, or the contract ends without. */
  lemma {:induction false} EventExact(env: Env, depth: nat, conf: Conf, contract: nat, acc: Acc, fees: Fees, request: nat)
    ensures var r, cost := Do(env, depth, conf, contract, acc, fees, Op.Event(request)), env.cost(Category.Event, request);
            && (!conf.isDet || !conf.canWrite ==> r == Finish(Running, acc, fees))
            && (conf.isDet && conf.canWrite ==>
                  && (r.flow.Running? <==> cost.Costs? && |cost.costs| == |env.nos.event| && Fits(fees.buckets, env.nos.event, cost.costs)
                                           && Sum(cost.costs) <= U256_MAX)
                  && (r.flow.Running? ==>
                        && r.acc == acc.(emissions := acc.emissions + [EmitEvent(request, Sum(cost.costs))])
                        && Deducted(fees.buckets, env.nos.event, cost.costs, r.fees.buckets)
                        && r.fees.spent == fees.spent.(event := fees.spent.event + Sum(cost.costs)))
                  && (!r.flow.Running? ==> r.acc == acc))
  {
    var cost := env.cost(Category.Event, request);
    if cost.Costs? && |cost.costs| == |env.nos.event| { ChargeOneTakes(env, fees, Category.Event, cost.costs); }
    hide SumFor, Fits, Deducted, Remaining, RawCheck, Exec;
  }

  /** A page overridden for the first time is charged as storage, or the contract ends; nothing else changes. */
  lemma {:induction false} StoreExact(env: Env, depth: nat, conf: Conf, contract: nat, acc: Acc, fees: Fees, request: nat)
    ensures var r, cost := Do(env, depth, conf, contract, acc, fees, Store(request)), env.cost(Category.Storage, request);
            && r.acc == acc
            && (!conf.isDet || !conf.canWrite ==> r == Finish(Running, acc, fees))
            && (conf.isDet && conf.canWrite ==>
                  && (r.flow.Running? <==> cost.Costs? && |cost.costs| == |env.nos.storage| && Fits(fees.buckets, env.nos.storage, cost.costs))
                  && (r.flow.Running? ==>
                        && Deducted(fees.buckets, env.nos.storage, cost.costs, r.fees.buckets)
                        && r.fees.spent == fees.spent.(storage := fees.spent.storage + Sum(cost.costs)))
                  && (!r.flow.Running? ==> r.fees == fees))
  {
    var cost := env.cost(Category.Storage, request);
    if cost.Costs? && |cost.costs| == |env.nos.storage| { ChargeOneTakes(env, fees, Category.Storage, cost.costs); }
    hide SumFor, Fits, Deducted, Remaining, RawCheck, Exec;
  }

  /** A RunNondet call charges its output after its child has run without permissions on an empty accumulator. */
  lemma {:induction false} NondetExact(env: Env, depth: nat, conf: Conf, contract: nat, acc: Acc, fees: Fees, body: seq<Op>, request: nat)
    ensures var r, cost := Do(env, depth, conf, contract, acc, fees, Nondet(body, request)), env.cost(Category.NondetOutput, request);
            var child := Exec(env, depth + 1, Conf(false, false, false, false, false, true), contract, Acc(acc.decremented, [], []), fees, body);
            && r.acc == acc
            && (!conf.canSpawnNondet ==> r == Finish(Running, acc, fees))
            && (conf.canSpawnNondet && child.flow.Ended? ==>
                  && (r.flow.Running? <==> cost.Costs? && |cost.costs| == |env.nos.nondetOutput|
                                           && Fits(child.fees.buckets, env.nos.nondetOutput, cost.costs))
                  && (r.flow.Running? ==>
                        && Deducted(child.fees.buckets, env.nos.nondetOutput, cost.costs, r.fees.buckets)
                        && r.fees.spent == child.fees.spent.(nondetOutput := child.fees.spent.nondetOutput + Sum(cost.costs))))
  {
    var cost := env.cost(Category.NondetOutput, request);
    var child := Exec(env, depth + 1, NondetConf(), contract, EmptyAcc(acc), fees, body);
    if cost.Costs? && |cost.costs| == |env.nos.nondetOutput| { ChargeOneTakes(env, child.fees, Category.NondetOutput, cost.costs); }
    hide SumFor, Fits, Deducted, Remaining, RawCheck, Exec;
  }

  // --- nested VMs ---

  /** A CallContract child runs on the callee, may not write, send or see more than its caller lets it, and starts with an empty
      accumulator; the caller goes on, with its own accumulator and what the child left of the fees, exactly when the child ended. */
  lemma {:induction false} CallExact(env: Env, depth: nat, conf: Conf, contract: nat, acc: Acc, fees: Fees, callee: nat, body: seq<Op>)
    ensures var r := Do(env, depth, conf, contract, acc, fees, Op.Call(callee, body));
            var child := Exec(env, depth + 1, Conf(true, false, conf.canSpawnNondet, false, conf.canCall, false), callee,
                              Acc(acc.decremented, [], []), fees, body);
            && r.acc == acc
            && (!conf.isDet || !conf.canCall ==> r == Finish(Running, acc, fees))
            && (conf.isDet && conf.canCall ==> r.fees == child.fees && (r.flow.Running? <==> child.flow.Ended?))
  {
    ChildEmpty(env, depth + 1, conf, callee, acc, fees, body);
    hide Exec, DoSend, DoEvent, DoStore, DoCharge;
  }

  /** A sandbox runs on the parent's accumulator with no more permissions, and neither calls nor spawns. */
  lemma {:induction false} SandboxExact(env: Env, depth: nat, conf: Conf, contract: nat, acc: Acc, fees: Fees, body: seq<Op>, allowWrite: bool, allowSend: bool)
    ensures var r := Do(env, depth, conf, contract, acc, fees, Sandbox(body, allowWrite, allowSend));
            var child := Exec(env, depth + 1, Conf(conf.isDet, conf.canWrite && allowWrite, false, conf.canSend && allowSend, false, conf.isMain),
                              contract, acc, fees, body);
            r.acc == child.acc && r.fees == child.fees && (r.flow.Running? <==> child.flow.Ended?)
  {
    hide Exec, DoSend, DoEvent, DoStore, DoCharge;
  }

  /** A VM runs its effects in order, each on what the one before left, up to the first that does not go on. */
  lemma {:induction false} RunsInOrder(env: Env, depth: nat, conf: Conf, contract: nat, acc: Acc, fees: Fees, ops: seq<Op>) returns (trace: seq<Finish>)
    requires depth < env.maxDepth
    ensures 0 < |trace| <= |ops| + 1 && trace[0] == Finish(Running, acc, fees)
    ensures forall i | 0 <= i < |trace| - 1 ::
              trace[i].flow.Running? && trace[i + 1] == Do(env, depth, conf, contract, trace[i].acc, trace[i].fees, ops[i])
    ensures var last := trace[|trace| - 1];
            && (last.flow.Running? ==> |trace| == |ops| + 1)
            && Exec(env, depth, conf, contract, acc, fees, ops) == last.(flow := if last.flow.Running? then Ended else last.flow)
    decreases |ops|
  {
    hide Do;
    var start := Finish(Running, acc, fees);
    if ops == [] { return [start]; }
    var r := Do(env, depth, conf, contract, acc, fees, ops[0]);
    if !r.flow.Running? { return [start, r]; }
    var rest := RunsInOrder(env, depth, conf, contract, r.acc, r.fees, ops[1..]);
    trace := [start] + rest;
  }

  // --- below a VM that may not ---

  /** No message more, no budget less, no value promised. */
  predicate NothingSent(acc: Acc, acc': Acc) {
    && acc'.allocation == acc.allocation && acc'.decremented == acc.decremented && acc.emissions <= acc'.emissions
    && forall k | |acc.emissions| <= k < |acc'.emissions| :: acc'.emissions[k].EmitEvent?
  }

  /** A VM that may not send sends nothing, and neither does anything below it. */
  lemma {:induction false} NoSendBelow(env: Env, depth: nat, conf: Conf, contract: nat, acc: Acc, fees: Fees, ops: seq<Op>)
    requires !conf.isDet || !conf.canSend
    ensures NothingSent(acc, Exec(env, depth, conf, contract, acc, fees, ops).acc)
    decreases ops
  {
    if depth < env.maxDepth && ops != [] {
      NoSendOne(env, depth, conf, contract, acc, fees, ops[0]);
      var r := Do(env, depth, conf, contract, acc, fees, ops[0]);
      if r.flow.Running? { NoSendBelow(env, depth, conf, contract, r.acc, r.fees, ops[1..]); }
    }
  }

  lemma {:induction false} NoSendOne(env: Env, depth: nat, conf: Conf, contract: nat, acc: Acc, fees: Fees, op: Op)
    requires !conf.isDet || !conf.canSend
    ensures NothingSent(acc, Do(env, depth, conf, contract, acc, fees, op).acc)
    decreases op
  {
    hide DoCharge;
    match op {
      case Event(request) => ChargeLedger(env, acc, fees, Category.Event, request);
      case Store(request) => ChargeLedger(env, acc, fees, Category.Storage, request);
      case Sandbox(body, allowWrite, allowSend) =>
        NoSendBelow(env, depth + 1, SandboxConf(conf, allowWrite, allowSend), contract, acc, fees, body);
      case Nondet(body, request) =>
        var child := Exec(env, depth + 1, NondetConf(), contract, EmptyAcc(acc), fees, body);
        ChargeLedger(env, acc, child.fees, Category.NondetOutput, request);
      case _ =>
    }
  }

  /** Nothing is sent below a sandbox that does not allow it, whatever the VM around it may do. */
  lemma {:induction false} SandboxSendsNothing(env: Env, depth: nat, conf: Conf, contract: nat, acc: Acc, fees: Fees, body: seq<Op>, allowWrite: bool)
    ensures NothingSent(acc, Do(env, depth, conf, contract, acc, fees, Sandbox(body, allowWrite, false)).acc)
  {
    NoSendBelow(env, depth + 1, SandboxConf(conf, allowWrite, false), contract, acc, fees, body);
    hide Exec;
  }

  /** No event more, and neither events nor storage charged. */
  predicate NothingWritten(acc: Acc, fees: Fees, acc': Acc, fees': Fees) {
    && fees'.spent.event == fees.spent.event && fees'.spent.storage == fees.spent.storage && acc.emissions <= acc'.emissions
    && forall k | |acc.emissions| <= k < |acc'.emissions| :: acc'.emissions[k].Message?
  }

  /** A VM that may not write writes nothing, and neither does anything below it. */
  lemma {:induction false} NoWriteBelow(env: Env, depth: nat, conf: Conf, contract: nat, acc: Acc, fees: Fees, ops: seq<Op>)
    requires !conf.isDet || !conf.canWrite
    ensures var r := Exec(env, depth, conf, contract, acc, fees, ops); NothingWritten(acc, fees, r.acc, r.fees)
    decreases ops
  {
    if depth < env.maxDepth && ops != [] {
      NoWriteOne(env, depth, conf, contract, acc, fees, ops[0]);
      var r := Do(env, depth, conf, contract, acc, fees, ops[0]);
      if r.flow.Running? { NoWriteBelow(env, depth, conf, contract, r.acc, r.fees, ops[1..]); }
    }
  }

  lemma {:induction false} NoWriteOne(env: Env, depth: nat, conf: Conf, contract: nat, acc: Acc, fees: Fees, op: Op)
    requires !conf.isDet || !conf.canWrite
    ensures var r := Do(env, depth, conf, contract, acc, fees, op); NothingWritten(acc, fees, r.acc, r.fees)
    decreases op
  {
    hide DoCharge, SumFor, Fits, Remaining;
    match op {
      case Call(callee, body) => NoWriteBelow(env, depth + 1, CallConf(conf), callee, EmptyAcc(acc), fees, body);
      case Sandbox(body, allowWrite, allowSend) =>
        NoWriteBelow(env, depth + 1, SandboxConf(conf, allowWrite, allowSend), contract, acc, fees, body);
      case Nondet(body, request) =>
        NoWriteBelow(env, depth + 1, NondetConf(), contract, EmptyAcc(acc), fees, body);
        var child := Exec(env, depth + 1, NondetConf(), contract, EmptyAcc(acc), fees, body);
        ChargeLedger(env, acc, child.fees, Category.NondetOutput, request);
      case _ =>
    }
  }

  /** Nothing is written below a sandbox that does not allow it. */
  lemma {:induction false} SandboxWritesNothing(env: Env, depth: nat, conf: Conf, contract: nat, acc: Acc, fees: Fees, body: seq<Op>, allowSend: bool)
    ensures var r := Do(env, depth, conf, contract, acc, fees, Sandbox(body, false, allowSend)); NothingWritten(acc, fees, r.acc, r.fees)
  {
    NoWriteBelow(env, depth + 1, SandboxConf(conf, false, allowSend), contract, acc, fees, body);
    hide Exec;
  }

  /** A VM that may not spawn non-deterministic calls is charged for no output of one, and neither is anything below it. */
  lemma {:induction false} NoNondetBelow(env: Env, depth: nat, conf: Conf, contract: nat, acc: Acc, fees: Fees, ops: seq<Op>)
    requires !conf.canSpawnNondet
    ensures Exec(env, depth, conf, contract, acc, fees, ops).fees.spent.nondetOutput == fees.spent.nondetOutput
    decreases ops
  {
    if depth < env.maxDepth && ops != [] {
      NoNondetOne(env, depth, conf, contract, acc, fees, ops[0]);
      var r := Do(env, depth, conf, contract, acc, fees, ops[0]);
      if r.flow.Running? { NoNondetBelow(env, depth, conf, contract, r.acc, r.fees, ops[1..]); }
    }
  }

  lemma {:induction false} NoNondetOne(env: Env, depth: nat, conf: Conf, contract: nat, acc: Acc, fees: Fees, op: Op)
    requires !conf.canSpawnNondet
    ensures Do(env, depth, conf, contract, acc, fees, op).fees.spent.nondetOutput == fees.spent.nondetOutput
    decreases op
  {
    hide DoCharge, SumFor, Fits, Remaining;
    match op {
      case Event(request) => ChargeLedger(env, acc, fees, Category.Event, request);
      case Store(request) => ChargeLedger(env, acc, fees, Category.Storage, request);
      case Call(callee, body) => NoNondetBelow(env, depth + 1, CallConf(conf), callee, EmptyAcc(acc), fees, body);
      case Sandbox(body, allowWrite, allowSend) =>
        NoNondetBelow(env, depth + 1, SandboxConf(conf, allowWrite, allowSend), contract, acc, fees, body);
      case _ =>
    }
  }

  /** In a sandbox that allows it a message has the effect that it would have outside, and so has an event. */
  lemma {:induction false} SandboxPasses(env: Env, depth: nat, conf: Conf, contract: nat, acc: Acc, fees: Fees, op: Op, allowWrite: bool, allowSend: bool)
    requires depth + 1 < env.maxDepth && ((op.Send? && allowSend) || (op.Event? && allowWrite))
    ensures var r, inside := Do(env, depth, conf, contract, acc, fees, op), Do(env, depth, conf, contract, acc, fees, Sandbox([op], allowWrite, allowSend));
            inside.acc == r.acc && inside.fees == r.fees
  {
    var conf' := SandboxConf(conf, allowWrite, allowSend);
    assert Do(env, depth + 1, conf', contract, acc, fees, op) == Do(env, depth, conf, contract, acc, fees, op) by {
      hide DoCharge, ChargeMessage, ChargeOne;
    }
    hide DoSend, DoEvent;
    var r := Do(env, depth + 1, conf', contract, acc, fees, op);
    OneEffect(env, depth + 1, conf', contract, acc, fees, op);
  }

  lemma {:induction false} OneEffect(env: Env, depth: nat, conf: Conf, contract: nat, acc: Acc, fees: Fees, op: Op)
    requires depth < env.maxDepth
    ensures var r, run := Do(env, depth, conf, contract, acc, fees, op), Exec(env, depth, conf, contract, acc, fees, [op]);
            run.acc == r.acc && run.fees == r.fees && (Halted(run.flow) <==> Halted(r.flow))
  {
    hide Do;
    assert [op][1..] == [];
  }
}
