/** Charges and effects across a tree of nested VMs: CallContract and RunNondet children start with an empty
    accumulator that is dropped afterwards, Sandbox children work on the parent's, and all share the fee buckets
    (executor/src/wasi/genlayer_sdk.rs:38-176, 247-272, 543-559, 593-1119, 1484-1545, 1694-1982). */
module VmTree {
  import opened Collections
  import opened FeeBuckets

  /** The permissions that matter here; `isMain` says that the state read is the default one. */
  datatype Conf = Conf(isDet: bool, canWrite: bool, canSpawnNondet: bool, canSend: bool, canCall: bool, isMain: bool)

  /** A node of the message fee allocation: what it matches and what is left of its budget. */
  datatype Node = Node(spec: nat, budget: U256)

  datatype Emission =
    | Message(request: nat, value: U256, messageFee: nat, receiptFee: nat)
    | EmitEvent(request: nat, storageFee: nat)

  datatype Acc = Acc(decremented: U256, emissions: seq<Emission>, allocation: seq<Node>)

  /** What the buckets still hold, and the consumption reported for each category. */
  datatype Fees = Fees(buckets: seq<U256>, spent: Each<nat>)

  /** What a fee expression yields; it may fail. */
  datatype Cost = Costs(costs: seq<U256>) | Broken

  /** Everything a run depends on but does not change: fee expressions, matching, host balances. */
  datatype Env = Env(nos: Each<seq<nat>>, matches: (nat, nat) -> bool, messageFee: (nat, nat) -> Cost, receipt: (nat, nat) -> Cost,
                     cost: (Category, nat) -> Cost, balance: nat -> U256, maxDepth: nat)

  /** What a contract does, as far as charges and effects go. */
  datatype Op =
    | Send(value: U256, request: nat)                           // EthSend, PostMessage, DeployContract
    | Event(request: nat)
    | Store(request: nat)                                       // a storage page overridden for the first time
    | Call(contract: nat, body: seq<Op>)
    | Sandbox(body: seq<Op>, allowWrite: bool, allowSend: bool)
    | Nondet(body: seq<Op>, request: nat)
    | SelfBalance
    | Leave                                                     // the contract returns or fails

  /** `Aborted` is an internal error; the last two are the two that must never happen. */
  datatype Flow = Running | Ended | Aborted | Underflow | NotEmpty

  datatype Finish = Finish(flow: Flow, acc: Acc, fees: Fees)

  // --- charging ---

  function Remaining(buckets: seq<U256>, nos: seq<nat>, costs: seq<nat>): seq<U256>
    requires |nos| == |costs|
  {
    seq(|buckets|, b requires 0 <= b < |buckets| => if SumFor(nos, costs, b) <= buckets[b] then buckets[b] - SumFor(nos, costs, b) else 0)
  }

  /** The outcome of a charge of one category, as `consume_bucket_raw` decides it. */
  function ChargeOne(env: Env, fees: Fees, c: Category, costs: seq<U256>): (Charge, Fees)
    requires |costs| == |env.nos.Of(c)|
  {
    var r := RawCheck(fees.buckets, env.nos.Of(c), costs, 0);
    (r, if r.Charged? then Fees(Remaining(fees.buckets, env.nos.Of(c), costs), With(fees.spent, c, fees.spent.Of(c) + Sum(costs))) else fees)
  }

  /** The outcome of a charge of message fee and receipt together, as `consume_message_fee` decides it. */
  ghost function ChargeMessage(env: Env, fees: Fees, f: seq<U256>, r: seq<U256>): (Charge, Fees)
    requires |f| == |env.nos.messageFee| && |r| == |env.nos.receipt|
  {
    var nos, costs := env.nos.messageFee + env.nos.receipt, f + r;
    if exists b :: SumFor(nos, costs, b) > U256_MAX then (Overflow, fees)
    else if BothFit(fees.buckets, env.nos.messageFee, f, env.nos.receipt, r) then
      (Charged, Fees(Remaining(fees.buckets, nos, costs),
                     fees.spent.(messageFee := fees.spent.messageFee + Sum(f), receipt := fees.spent.receipt + Sum(r))))
    else (Refused, fees)
  }

  /** The first node that matches. */
  function FindNode(env: Env, nodes: seq<Node>, request: nat, i: nat): (r: nat)
    requires i <= |nodes|
    ensures i <= r <= |nodes|
    decreases |nodes| - i
  {
    if i == |nodes| || env.matches(nodes[i].spec, request) then i else FindNode(env, nodes, request, i + 1)
  }

  /** `checked_sum_le`: a + b <= c without wrapping. */
  function CheckedSumLe(a: U256, b: U256, c: U256): (r: bool)
    ensures r <==> a + b <= c
  {
    if b > c then false else a <= c - b
  }

  function SaturatingAdd(a: U256, b: U256): U256 {
    if a + b > U256_MAX then U256_MAX else a + b
  }

  // --- one effect ---

  /** EthSend, PostMessage and DeployContract. */
  ghost function DoSend(env: Env, conf: Conf, contract: nat, acc: Acc, fees: Fees, value: U256, request: nat): Finish {
    if !conf.isDet || !conf.canSend then Finish(Running, acc, fees)
    else if value != 0 && !CheckedSumLe(value, acc.decremented, env.balance(contract)) then Finish(Running, acc, fees)
    else
      var i := FindNode(env, acc.allocation, request, 0);
      if i == |acc.allocation| then Finish(Ended, acc, fees)
      else
        var node := acc.allocation[i];
        match env.messageFee(node.spec, request)
        case Broken => Finish(Aborted, acc, fees)
        case Costs(f) =>
          if |f| != |env.nos.messageFee| || Sum(f) > U256_MAX then Finish(Aborted, acc, fees)
          else if Sum(f) > node.budget then Finish(Ended, acc, fees)
          else
            match env.receipt(node.spec, request)
            case Broken => Finish(Aborted, acc, fees)
            case Costs(r) =>
              if |r| != |env.nos.receipt| then Finish(Aborted, acc, fees)
              else
                var (charge, fees') := ChargeMessage(env, fees, f, r);
                if charge.Overflow? then Finish(Aborted, acc, fees)
                else if charge.Refused? then Finish(Ended, acc, fees)
                else if Sum(r) > U256_MAX then Finish(Aborted, acc, fees')
                else
                  Finish(Running,
                         Acc(SaturatingAdd(acc.decremented, value), acc.emissions + [Message(request, value, Sum(f), Sum(r))],
                             acc.allocation[i := node.(budget := node.budget - Sum(f))]),
                         fees')
  }

  /** A charge of one category by itself. */
  function DoCharge(env: Env, acc: Acc, fees: Fees, c: Category, request: nat): Finish {
    match env.cost(c, request)
    case Broken => Finish(Aborted, acc, fees)
    case Costs(costs) =>
      if |costs| != |env.nos.Of(c)| then Finish(Aborted, acc, fees)
      else
        var (charge, fees') := ChargeOne(env, fees, c, costs);
        Finish(if charge.Overflow? then Aborted else if charge.Refused? then Ended else Running, acc, fees')
  }

  /** EmitEvent */
  function DoEvent(env: Env, conf: Conf, acc: Acc, fees: Fees, request: nat): Finish {
    if !conf.isDet || !conf.canWrite then Finish(Running, acc, fees)
    else
      var r := DoCharge(env, acc, fees, Category.Event, request);
      if !r.flow.Running? then r
      else if Sum(env.cost(Category.Event, request).costs) > U256_MAX then r.(flow := Aborted)
      else r.(acc := acc.(emissions := acc.emissions + [EmitEvent(request, Sum(env.cost(Category.Event, request).costs))]))
  }

  function DoStore(env: Env, conf: Conf, acc: Acc, fees: Fees, request: nat): Finish {
    if !conf.isDet || !conf.canWrite then Finish(Running, acc, fees) else DoCharge(env, acc, fees, Category.Storage, request)
  }

  function DoSelfBalance(env: Env, conf: Conf, contract: nat, acc: Acc, fees: Fees): Finish {
    if conf.isDet && conf.isMain && env.balance(contract) < acc.decremented then Finish(Underflow, acc, fees)
    else Finish(Running, acc, fees)
  }

  // --- the tree ---

  function CallConf(conf: Conf): Conf {
    Conf(true, false, conf.canSpawnNondet, false, conf.canCall, false)
  }

  function SandboxConf(conf: Conf, allowWrite: bool, allowSend: bool): Conf {
    Conf(conf.isDet, conf.canWrite && allowWrite, false, conf.canSend && allowSend, false, conf.isMain)
  }

  function NondetConf(): Conf {
    Conf(false, false, false, false, false, true)
  }

  /** The accumulator of a child whose effects are dropped. */
  function EmptyAcc(acc: Acc): Acc {
    Acc(acc.decremented, [], [])
  }

  function Halted(flow: Flow): bool {
    flow.Aborted? || flow.Underflow? || flow.NotEmpty?
  }

  /** Runs a VM: its effects one after the other until it ends. */
  ghost function Exec(env: Env, depth: nat, conf: Conf, contract: nat, acc: Acc, fees: Fees, ops: seq<Op>): (r: Finish)
    ensures !r.flow.Running?
    decreases ops
  {
    if depth >= env.maxDepth || ops == [] then Finish(Ended, acc, fees)
    else
      var r := Do(env, depth, conf, contract, acc, fees, ops[0]);
      if r.flow.Running? then Exec(env, depth, conf, contract, r.acc, r.fees, ops[1..]) else r
  }

  /** One effect. */
  ghost function Do(env: Env, depth: nat, conf: Conf, contract: nat, acc: Acc, fees: Fees, op: Op): Finish
    decreases op
  {
    match op
    case Send(value, request) => DoSend(env, conf, contract, acc, fees, value, request)
    case Event(request) => DoEvent(env, conf, acc, fees, request)
    case Store(request) => DoStore(env, conf, acc, fees, request)
    case SelfBalance => DoSelfBalance(env, conf, contract, acc, fees)
    case Leave => Finish(Ended, acc, fees)
    case Call(callee, body) =>
      if !conf.isDet || !conf.canCall then Finish(Running, acc, fees)
      else
        var child := Exec(env, depth + 1, CallConf(conf), callee, EmptyAcc(acc), fees, body);
        if Halted(child.flow) then Finish(child.flow, acc, child.fees)
        else if child.acc.emissions != [] || child.acc.allocation != [] then Finish(NotEmpty, acc, child.fees)
        else Finish(Running, acc, child.fees)
    case Sandbox(body, allowWrite, allowSend) =>
      var child := Exec(env, depth + 1, SandboxConf(conf, allowWrite, allowSend), contract, acc, fees, body);
      if Halted(child.flow) then child else child.(flow := Running)
    case Nondet(body, request) =>
      if !conf.canSpawnNondet then Finish(Running, acc, fees)
      else
        var child := Exec(env, depth + 1, NondetConf(), contract, EmptyAcc(acc), fees, body);
        if Halted(child.flow) then Finish(child.flow, acc, child.fees)
        else DoCharge(env, acc, child.fees, Category.NondetOutput, request)
  }

  // --- what adds up ---

  ghost function MessageFees(es: seq<Emission>): nat {
    if es == [] then 0
    else MessageFees(es[..|es| - 1]) + if es[|es| - 1].Message? then es[|es| - 1].messageFee else 0
  }

  ghost function ReceiptFees(es: seq<Emission>): nat {
    if es == [] then 0
    else ReceiptFees(es[..|es| - 1]) + if es[|es| - 1].Message? then es[|es| - 1].receiptFee else 0
  }

  ghost function EventFees(es: seq<Emission>): nat {
    if es == [] then 0
    else EventFees(es[..|es| - 1]) + if es[|es| - 1].EmitEvent? then es[|es| - 1].storageFee else 0
  }

  ghost function Values(es: seq<Emission>): nat {
    if es == [] then 0
    else Values(es[..|es| - 1]) + if es[|es| - 1].Message? then es[|es| - 1].value else 0
  }

  ghost function Budgets(nodes: seq<Node>): nat {
    if nodes == [] then 0 else Budgets(nodes[..|nodes| - 1]) + nodes[|nodes| - 1].budget
  }

  lemma {:induction false} OneEmission(es: seq<Emission>, e: Emission)
    ensures MessageFees(es + [e]) == MessageFees(es) + if e.Message? then e.messageFee else 0
    ensures ReceiptFees(es + [e]) == ReceiptFees(es) + if e.Message? then e.receiptFee else 0
    ensures EventFees(es + [e]) == EventFees(es) + if e.EmitEvent? then e.storageFee else 0
    ensures Values(es + [e]) == Values(es) + if e.Message? then e.value else 0
  {
    assert (es + [e])[..|es|] == es;
  }

  lemma {:induction false} OneBudget(nodes: seq<Node>, i: nat, node: Node)
    requires i < |nodes|
    ensures Budgets(nodes[i := node]) == Budgets(nodes) - nodes[i].budget + node.budget && nodes[i].budget <= Budgets(nodes)
  {
    var n := |nodes| - 1;
    if i < n {
      assert nodes[i := node][..n] == nodes[..n][i := node];
      OneBudget(nodes[..n], i, node);
    } else {
      assert nodes[i := node][..n] == nodes[..n];
    }
  }

  /** Consumption, budgets and values moved exactly as the emissions that were added say. */
  ghost predicate Ledger(acc: Acc, fees: Fees, acc': Acc, fees': Fees) {
    && acc.emissions <= acc'.emissions
    && fees'.spent.messageFee + MessageFees(acc.emissions) == fees.spent.messageFee + MessageFees(acc'.emissions)
    && fees'.spent.receipt + ReceiptFees(acc.emissions) == fees.spent.receipt + ReceiptFees(acc'.emissions)
    && fees'.spent.event + EventFees(acc.emissions) == fees.spent.event + EventFees(acc'.emissions)
    && Budgets(acc'.allocation) + MessageFees(acc'.emissions) == Budgets(acc.allocation) + MessageFees(acc.emissions)
    && acc'.decremented + Values(acc.emissions) == acc.decremented + Values(acc'.emissions)
  }

  lemma {:induction false} LedgerChain(a: Acc, f: Fees, a': Acc, f': Fees, a'': Acc, f'': Fees)
    requires Ledger(a, f, a', f') && Ledger(a', f', a'', f'')
    ensures Ledger(a, f, a'', f'')
  {
  }

  /** A child that starts and ends with an empty accumulator charged nothing that its parent must account for. */
  lemma {:induction false} SilentChild(acc: Acc, fees: Fees, child: Acc, fees': Fees)
    requires Ledger(EmptyAcc(acc), fees, child, fees') && child.emissions == []
    ensures Ledger(acc, fees, acc, fees')
  {
  }

  /** A deterministic VM that reads the default state has not promised more than its contract owns. */
  ghost predicate Solvent(env: Env, conf: Conf, contract: nat, acc: Acc) {
    conf.isDet && conf.isMain ==> acc.decremented <= env.balance(contract)
  }

  lemma {:induction false} SendLedger(env: Env, conf: Conf, contract: nat, acc: Acc, fees: Fees, value: U256, request: nat)
    ensures var r := DoSend(env, conf, contract, acc, fees, value, request);
            && r.flow != Underflow && r.flow != NotEmpty
            && (Solvent(env, conf, contract, acc) ==> Solvent(env, conf, contract, r.acc))
            && (!Halted(r.flow) ==> Ledger(acc, fees, r.acc, r.fees))
  {
    hide BothFit, SumFor, RawCheck, Remaining;
    var r := DoSend(env, conf, contract, acc, fees, value, request);
    if r.acc != acc {
      var i := FindNode(env, acc.allocation, request, 0);
      var f := env.messageFee(acc.allocation[i].spec, request).costs;
      var rc := env.receipt(acc.allocation[i].spec, request).costs;
      OneEmission(acc.emissions, Message(request, value, Sum(f), Sum(rc)));
      OneBudget(acc.allocation, i, acc.allocation[i].(budget := acc.allocation[i].budget - Sum(f)));
    }
  }

  lemma {:induction false} ChargeLedger(env: Env, acc: Acc, fees: Fees, c: Category, request: nat)
    ensures var r := DoCharge(env, acc, fees, c, request);
            && r.flow != Underflow && r.flow != NotEmpty && r.acc == acc
            && (r.flow.Running? ==> r.fees.spent == With(fees.spent, c, fees.spent.Of(c) + Sum(env.cost(c, request).costs)))
            && (!r.flow.Running? ==> r.fees == fees)
  {
    hide SumFor, RawCheck, Remaining;
  }

  lemma {:induction false} EventLedger(env: Env, conf: Conf, acc: Acc, fees: Fees, request: nat)
    ensures var r := DoEvent(env, conf, acc, fees, request);
            && r.flow != Underflow && r.flow != NotEmpty && r.acc.decremented == acc.decremented
            && (!Halted(r.flow) ==> Ledger(acc, fees, r.acc, r.fees))
  {
    ChargeLedger(env, acc, fees, Category.Event, request);
    hide DoCharge;
    if env.cost(Category.Event, request).Costs? {
      OneEmission(acc.emissions, EmitEvent(request, Sum(env.cost(Category.Event, request).costs)));
    }
  }

  /** A VM that may neither send nor write, or is not deterministic, leaves its accumulator alone, and so do all below it. */
  predicate IsQuiet(conf: Conf) {
    !conf.isDet || (!conf.canSend && !conf.canWrite)
  }

  lemma {:induction false} QuietExec(env: Env, depth: nat, conf: Conf, contract: nat, acc: Acc, fees: Fees, ops: seq<Op>)
    requires IsQuiet(conf)
    ensures Exec(env, depth, conf, contract, acc, fees, ops).acc == acc
    decreases ops
  {
    if depth < env.maxDepth && ops != [] {
      QuietDo(env, depth, conf, contract, acc, fees, ops[0]);
      var r := Do(env, depth, conf, contract, acc, fees, ops[0]);
      if r.flow.Running? { QuietExec(env, depth, conf, contract, r.acc, r.fees, ops[1..]); }
    }
  }

  lemma {:induction false} QuietDo(env: Env, depth: nat, conf: Conf, contract: nat, acc: Acc, fees: Fees, op: Op)
    requires IsQuiet(conf)
    ensures Do(env, depth, conf, contract, acc, fees, op).acc == acc
    decreases op
  {
    hide DoCharge;
    match op {
      case Store(request) => ChargeLedger(env, acc, fees, Category.Storage, request);
      case Sandbox(body, allowWrite, allowSend) =>
        QuietExec(env, depth + 1, SandboxConf(conf, allowWrite, allowSend), contract, acc, fees, body);
      case Nondet(body, request) =>
        var child := Exec(env, depth + 1, NondetConf(), contract, EmptyAcc(acc), fees, body);
        ChargeLedger(env, acc, child.fees, Category.NondetOutput, request);
      case _ =>
    }
  }

  /** A CallContract child always passes `check_empty`. */
  lemma {:induction false} ChildEmpty(env: Env, depth: nat, conf: Conf, callee: nat, acc: Acc, fees: Fees, body: seq<Op>)
    ensures var child := Exec(env, depth, CallConf(conf), callee, EmptyAcc(acc), fees, body);
            child.acc.emissions == [] && child.acc.allocation == []
  {
    QuietExec(env, depth, CallConf(conf), callee, EmptyAcc(acc), fees, body);
  }

  /** Over a whole tree that ends without an internal error the books balance; the balance of a contract never goes
      below zero, and no dropped accumulator holds anything. */
  lemma {:induction false} TreeLedger(env: Env, depth: nat, conf: Conf, contract: nat, acc: Acc, fees: Fees, ops: seq<Op>)
    requires Solvent(env, conf, contract, acc)
    ensures var r := Exec(env, depth, conf, contract, acc, fees, ops);
            && r.flow != Underflow && r.flow != NotEmpty && Solvent(env, conf, contract, r.acc)
            && (!Halted(r.flow) ==> Ledger(acc, fees, r.acc, r.fees))
    decreases ops, 0
  {
    if depth < env.maxDepth && ops != [] {
      EffectLedger(env, depth, conf, contract, acc, fees, ops[0]);
      var r := Do(env, depth, conf, contract, acc, fees, ops[0]);
      if r.flow.Running? {
        TreeLedger(env, depth, conf, contract, r.acc, r.fees, ops[1..]);
        hide Do, Ledger, Solvent;
        var last := Exec(env, depth, conf, contract, r.acc, r.fees, ops[1..]);
        if !Halted(last.flow) { LedgerChain(acc, fees, r.acc, r.fees, last.acc, last.fees); }
      }
    }
  }

  lemma {:induction false} EffectLedger(env: Env, depth: nat, conf: Conf, contract: nat, acc: Acc, fees: Fees, op: Op)
    requires Solvent(env, conf, contract, acc)
    ensures var r := Do(env, depth, conf, contract, acc, fees, op);
            && r.flow != Underflow && r.flow != NotEmpty && Solvent(env, conf, contract, r.acc)
            && (!Halted(r.flow) ==> Ledger(acc, fees, r.acc, r.fees))
    decreases op, 0
  {
    hide DoCharge, DoSend, DoEvent;
    match op {
      case Send(value, request) => SendLedger(env, conf, contract, acc, fees, value, request);
      case Event(request) => EventLedger(env, conf, acc, fees, request);
      case Store(request) => ChargeLedger(env, acc, fees, Category.Storage, request);
      case Call(callee, body) =>
        ChildEmpty(env, depth + 1, conf, callee, acc, fees, body);
        TreeLedger(env, depth + 1, CallConf(conf), callee, EmptyAcc(acc), fees, body);
        var child := Exec(env, depth + 1, CallConf(conf), callee, EmptyAcc(acc), fees, body);
        if !Halted(child.flow) { SilentChild(acc, fees, child.acc, child.fees); }
      case Sandbox(body, allowWrite, allowSend) =>
        TreeLedger(env, depth + 1, SandboxConf(conf, allowWrite, allowSend), contract, acc, fees, body);
      case Nondet(body, request) => NondetLedger(env, depth, conf, contract, acc, fees, body, request);
      case _ =>
    }
  }

  lemma {:induction false} NondetLedger(env: Env, depth: nat, conf: Conf, contract: nat, acc: Acc, fees: Fees, body: seq<Op>, request: nat)
    ensures var r := Do(env, depth, conf, contract, acc, fees, Nondet(body, request));
            && r.flow != Underflow && r.flow != NotEmpty && r.acc == acc
            && (!Halted(r.flow) ==> Ledger(acc, fees, r.acc, r.fees))
    decreases body, 1
  {
    hide DoCharge;
    var child := Exec(env, depth + 1, NondetConf(), contract, EmptyAcc(acc), fees, body);
    QuietExec(env, depth + 1, NondetConf(), contract, EmptyAcc(acc), fees, body);
    TreeLedger(env, depth + 1, NondetConf(), contract, EmptyAcc(acc), fees, body);
    ChargeLedger(env, acc, child.fees, Category.NondetOutput, request);
    if !Halted(child.flow) { SilentChild(acc, fees, child.acc, child.fees); }
  }

  /** The run of a transaction. When it ends without an internal error, what was consumed since the start charges is
      what the surfaced emissions say, the budgets paid the message fees, and the value promised is the value emitted,
      which the contract owns. */
  lemma {:induction false} TransactionBooks(env: Env, conf: Conf, contract: nat, allocation: seq<Node>, fees: Fees, ops: seq<Op>)
    requires conf.isDet && conf.isMain
    ensures var start := Acc(0, [], allocation);
            var r := Exec(env, 0, conf, contract, start, fees, ops);
            && r.flow != Underflow && r.flow != NotEmpty
            && r.acc.decremented <= env.balance(contract)
            && (r.flow.Ended? ==>
                  && r.fees.spent.messageFee - fees.spent.messageFee == MessageFees(r.acc.emissions)
                  && r.fees.spent.receipt - fees.spent.receipt == ReceiptFees(r.acc.emissions)
                  && r.fees.spent.event - fees.spent.event == EventFees(r.acc.emissions)
                  && Budgets(allocation) - Budgets(r.acc.allocation) == MessageFees(r.acc.emissions)
                  && r.acc.decremented == Values(r.acc.emissions))
  {
    TreeLedger(env, 0, conf, contract, Acc(0, [], allocation), fees, ops);
  }

  /** What a charge leaves in the buckets is what it does not take, and what it reports is the sum of its costs. */
  lemma {:induction false} ChargeOneTakes(env: Env, fees: Fees, c: Category, costs: seq<U256>)
    requires |costs| == |env.nos.Of(c)|
    ensures var (r, fees') := ChargeOne(env, fees, c, costs);
            && (r.Charged? <==> Fits(fees.buckets, env.nos.Of(c), costs))
            && (r.Charged? ==> Deducted(fees.buckets, env.nos.Of(c), costs, fees'.buckets))
            && (!r.Charged? ==> fees' == fees)
  {
    RawExact(fees.buckets, env.nos.Of(c), costs);
    if Fits(fees.buckets, env.nos.Of(c), costs) { RemainingDeducted(fees.buckets, env.nos.Of(c), costs); }
  }

  lemma {:induction false} ChargeMessageTakes(env: Env, fees: Fees, f: seq<U256>, r: seq<U256>)
    requires |f| == |env.nos.messageFee| && |r| == |env.nos.receipt|
    ensures var (charge, fees') := ChargeMessage(env, fees, f, r);
            && (charge.Charged? <==> BothFit(fees.buckets, env.nos.messageFee, f, env.nos.receipt, r))
            && (charge.Charged? ==> Deducted(fees.buckets, env.nos.messageFee + env.nos.receipt, f + r, fees'.buckets))
            && (!charge.Charged? ==> fees' == fees)
  {
    var nos, costs := env.nos.messageFee + env.nos.receipt, f + r;
    if BothFit(fees.buckets, env.nos.messageFee, f, env.nos.receipt, r) {
      RemainingDeducted(fees.buckets, nos, costs);
      forall b ensures SumFor(nos, costs, b) <= U256_MAX { FittingSum(fees.buckets, nos, costs, b); }
    }
  }

  lemma {:induction false} FittingSum(buckets: seq<U256>, nos: seq<nat>, costs: seq<nat>, b: nat)
    requires |nos| == |costs| && Fits(buckets, nos, costs)
    ensures b < |buckets| ==> SumFor(nos, costs, b) <= buckets[b]
    ensures SumFor(nos, costs, b) <= U256_MAX
  {
    NoneAimed(nos, costs, b);
    if b in nos { var i :| 0 <= i < |nos| && nos[i] == b; }
  }

  lemma {:induction false} RemainingDeducted(buckets: seq<U256>, nos: seq<nat>, costs: seq<nat>)
    requires |nos| == |costs| && Fits(buckets, nos, costs)
    ensures Deducted(buckets, nos, costs, Remaining(buckets, nos, costs))
  {
    forall b | 0 <= b < |buckets| ensures Remaining(buckets, nos, costs)[b] + SumFor(nos, costs, b) == buckets[b] {
      FittingSum(buckets, nos, costs, b);
    }
  }
}
