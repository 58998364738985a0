/** File descriptors of a VM: which numbers are open, which are free, and the memory they are charged for
    (executor/src/wasi/vfs.rs:64-157; executor/src/wasi/preview1.rs:411-424, 1053-1106). */
module Vfs {
  import opened Collections
  import opened Wrappers

  datatype FileDescriptor =
    | Stdout
    | Stderr
    | File(size: nat, releaseMemory: bool)
    | Dir(path: seq<string>)

  datatype Error = OutOfMemory | TooManyDescriptors | BadDescriptor | NotFound

  /** What a path leads to in the file system. */
  datatype Lookup = FoundFile(size: nat) | FoundDir(path: seq<string>) | NothingFound

  /** What closing a descriptor gives back. */
  function SizeOf(d: FileDescriptor): nat {
    if d.File? && d.releaseMemory then d.size else 0
  }

  ghost function Sizes(fds: map<nat, FileDescriptor>): nat
    decreases fds.Keys
  {
    if fds == map[] then 0
    else
      var fd := Least(fds.Keys);
      SizeOf(fds[fd]) + Sizes(fds - {fd})
  }

  ghost function Least(fds: set<nat>): (fd: nat)
    requires fds != {}
    ensures fd in fds && forall x | x in fds :: fd <= x
  {
    HasLeast(fds);
    var fd :| fd in fds && forall x | x in fds :: fd <= x;
    fd
  }

  lemma {:induction false} HasLeast(fds: set<nat>)
    requires fds != {}
    ensures exists fd :: fd in fds && forall x | x in fds :: fd <= x
  {
    var fd := FindLeast(fds);
  }

  lemma {:induction false} FindLeast(fds: set<nat>) returns (fd: nat)
    requires fds != {}
    ensures fd in fds && forall x | x in fds :: fd <= x
    decreases fds
  {
    fd :| fd in fds;
    var rest := fds - {fd};
    if rest != {} {
      var least := FindLeast(rest);
      var first := fd;
      if least < fd { fd := least; }
      forall x | x in fds ensures fd <= x {
        if x != first { assert x in rest; }
      }
    } else {
      assert fds == {fd};
    }
  }

  lemma {:induction false} SizesWithout(fds: map<nat, FileDescriptor>, fd: nat)
    requires fd in fds
    ensures Sizes(fds) == SizeOf(fds[fd]) + Sizes(fds - {fd})
    decreases fds.Keys
  {
    var least := Least(fds.Keys);
    if least != fd {
      SizesWithout(fds - {least}, fd);
      assert least in fds - {fd};
      SizesWithout(fds - {fd}, least);
      assert fds - {least} - {fd} == fds - {fd} - {least};
    }
  }

  lemma {:induction false} SizesWith(fds: map<nat, FileDescriptor>, fd: nat, d: FileDescriptor)
    requires fd !in fds
    ensures Sizes(fds[fd := d]) == Sizes(fds) + SizeOf(d)
  {
    SizesWithout(fds[fd := d], fd);
    assert fds[fd := d] - {fd} == fds;
  }

  /** Every number up to `next` is open, free, just handed out, or lost, and none is two of these. */
  ghost predicate Partition(open: set<nat>, free: seq<nat>, inHand: set<nat>, lost: set<nat>, next: nat) {
    && NoDup(free)
    && (forall fd | fd in open :: fd !in free && fd !in inHand && fd !in lost)
    && (forall fd | fd in free :: fd !in inHand && fd !in lost)
    && (forall fd | fd in inHand :: fd !in lost)
    && forall fd: nat :: fd <= next <==> fd in open || fd in free || fd in inHand || fd in lost
  }

  lemma {:induction false} PopFree(open: set<nat>, free: seq<nat>, lost: set<nat>, next: nat)
    requires Partition(open, free, {}, lost, next) && free != []
    ensures var n := |free| - 1;
            Partition(open, free[..n], {free[n]}, lost, next)
  {
    var n := |free| - 1;
    assert free == free[..n] + [free[n]];
    assert free[n] !in free[..n];
  }

  lemma {:induction false} NewNumber(open: set<nat>, lost: set<nat>, next: nat)
    requires Partition(open, [], {}, lost, next)
    ensures Partition(open, [], {next + 1}, lost, next + 1)
  {
  }

  lemma {:induction false} Placed(open: set<nat>, free: seq<nat>, fd: nat, lost: set<nat>, next: nat)
    requires Partition(open, free, {fd}, lost, next)
    ensures Partition(open + {fd}, free, {}, lost, next)
  {
  }

  lemma {:induction false} HandedOut(open: set<nat>, free: seq<nat>, fd: nat, lost: set<nat>, next: nat)
    requires Partition(open, free, {fd}, lost, next)
    ensures fd !in open && fd !in free && fd !in lost
  {
  }

  lemma {:induction false} Freed(open: set<nat>, free: seq<nat>, fd: nat, lost: set<nat>, next: nat)
    requires Partition(open, free, {}, lost, next) && fd in open
    ensures Partition(open - {fd}, free + [fd], {}, lost, next)
  {
  }

  lemma {:induction false} GoneMissing(open: set<nat>, free: seq<nat>, fd: nat, lost: set<nat>, next: nat)
    requires Partition(open, free, {fd}, lost, next)
    ensures Partition(open, free, {}, lost + {fd}, next) && fd !in lost
  {
  }

  // --- the operations on values ---

  datatype Limits = Limits(maxFds: nat, fdAllocation: nat)

  /** The open descriptors, the stack of freed numbers, the last number handed out, and what the limiter has left. */
  datatype Table = Table(fds: map<nat, FileDescriptor>, free: seq<nat>, next: nat, remaining: nat)

  datatype Operation = Place(content: FileDescriptor) | Close(fd: nat) | Open(dirFd: nat, found: Lookup)

  predicate HasNumber(l: Limits, t: Table) {
    |t.fds| < l.maxFds && (t.free != [] || l.fdAllocation <= t.remaining)
  }

  function Number(t: Table): nat {
    if t.free != [] then t.free[|t.free| - 1] else t.next + 1
  }

  /** The next number is taken. */
  function Taken(l: Limits, t: Table): Table
    requires HasNumber(l, t)
  {
    if t.free != [] then t.(free := t.free[..|t.free| - 1]) else t.(next := t.next + 1, remaining := t.remaining - l.fdAllocation)
  }

  function NoNumber(l: Limits, t: Table): Error
    requires !HasNumber(l, t)
  {
    if |t.fds| >= l.maxFds then TooManyDescriptors else OutOfMemory
  }

  predicate IsDir(t: Table, fd: nat) {
    fd in t.fds && t.fds[fd].Dir?
  }

  function Opened(found: Lookup): FileDescriptor
    requires !found.NothingFound?
  {
    if found.FoundFile? then File(found.size, false) else Dir(found.path)
  }

  /** An open that got a number and then found no directory or nothing at the path. */
  predicate Loses(l: Limits, t: Table, op: Operation) {
    op.Open? && HasNumber(l, t) && (!IsDir(t, op.dirFd) || op.found.NothingFound?)
  }

  /** The outcome of an operation. */
  function Outcome(l: Limits, t: Table, op: Operation): Result<nat, Error> {
    match op
    case Place(d) =>
      if SizeOf(d) > t.remaining then Failure(OutOfMemory)
      else
        var t' := t.(remaining := t.remaining - SizeOf(d));
        if HasNumber(l, t') then Success(Number(t')) else Failure(NoNumber(l, t'))
    case Close(fd) => if fd in t.fds then Success(fd) else Failure(BadDescriptor)
    case Open(dirFd, found) =>
      if !HasNumber(l, t) then Failure(NoNumber(l, t))
      else if !IsDir(t, dirFd) then Failure(BadDescriptor)
      else if found.NothingFound? then Failure(NotFound)
      else Success(Number(t))
  }

  /** What an operation leaves. */
  function After(l: Limits, t: Table, op: Operation): Table {
    var r := Outcome(l, t, op);
    match op
    case Place(d) =>
      if r.Failure? then t
      else
        var t' := Taken(l, t.(remaining := t.remaining - SizeOf(d)));
        t'.(fds := t.fds[r.value := d])
    case Close(fd) =>
      if r.Failure? then t
      else t.(fds := t.fds - {fd}, free := t.free + [fd], remaining := t.remaining + SizeOf(t.fds[fd]))
    case Open(_, found) =>
      if !HasNumber(l, t) then t
      else
        var t' := Taken(l, t);
        if r.Success? then t'.(fds := t.fds[r.value := Opened(found)]) else t'
  }

  /** The numbers that are neither open nor free after an operation. */
  function LostAfter(l: Limits, t: Table, op: Operation, lost: set<nat>): set<nat> {
    if Loses(l, t, op) then lost + {Number(t)} else lost
  }

  ghost predicate Sound(t: Table, lost: set<nat>) {
    Partition(t.fds.Keys, t.free, {}, lost, t.next) && 3 <= t.next
  }

  /** All memory there is: what is left, the open releasable files, and an allocation for each number beyond the first
      four. */
  ghost function Total(l: Limits, t: Table): nat
    requires 3 <= t.next
  {
    t.remaining + Sizes(t.fds) + l.fdAllocation * (t.next - 3)
  }

  lemma {:induction false} TakenInHand(l: Limits, t: Table, lost: set<nat>)
    requires Sound(t, lost) && HasNumber(l, t)
    ensures var t' := Taken(l, t);
            && Partition(t'.fds.Keys, t'.free, {Number(t)}, lost, t'.next) && 3 <= t'.next && t'.fds == t.fds
            && Total(l, t') == Total(l, t)
  {
    if t.free != [] {
      PopFree(t.fds.Keys, t.free, lost, t.next);
    } else {
      NewNumber(t.fds.Keys, lost, t.next);
      OneMore(l.fdAllocation, t.next - 3);
    }
  }

  /** A number in hand is opened. */
  lemma {:induction false} Installed(l: Limits, t: Table, fd: nat, d: FileDescriptor, lost: set<nat>)
    requires Partition(t.fds.Keys, t.free, {fd}, lost, t.next) && 3 <= t.next
    ensures fd !in t.fds && Sound(t.(fds := t.fds[fd := d]), lost)
    ensures Total(l, t.(fds := t.fds[fd := d])) == Total(l, t) + SizeOf(d)
  {
    HandedOut(t.fds.Keys, t.free, fd, lost, t.next);
    SizesWith(t.fds, fd, d);
    Placed(t.fds.Keys, t.free, fd, lost, t.next);
    hide Partition, Sizes;
    assert t.fds[fd := d].Keys == t.fds.Keys + {fd};
  }

  /** Every operation keeps the numbers apart and the memory accounted for, on every failure path too, and hands out only
      numbers that are not open. */
  lemma {:induction false} StepSound(l: Limits, t: Table, op: Operation, lost: set<nat>)
    requires Sound(t, lost)
    ensures Sound(After(l, t, op), LostAfter(l, t, op, lost))
    ensures Total(l, After(l, t, op)) == Total(l, t)
    ensures !op.Close? && Outcome(l, t, op).Success? ==> Outcome(l, t, op).value !in t.fds
    ensures Loses(l, t, op) ==> Number(t) !in lost
  {
    hide Partition, Sizes;
    match op {
      case Place(d) => PlaceSound(l, t, d, lost);
      case Close(fd) =>
        if fd in t.fds {
          Freed(t.fds.Keys, t.free, fd, lost, t.next);
          SizesWithout(t.fds, fd);
          assert (t.fds - {fd}).Keys == t.fds.Keys - {fd};
        }
      case Open(_, found) => OpenSound(l, t, op, lost);
    }
  }

  lemma {:induction false} PlaceSound(l: Limits, t: Table, d: FileDescriptor, lost: set<nat>)
    requires Sound(t, lost)
    ensures Sound(After(l, t, Place(d)), lost) && Total(l, After(l, t, Place(d))) == Total(l, t)
    ensures Outcome(l, t, Place(d)).Success? ==> Outcome(l, t, Place(d)).value !in t.fds
  {
    hide Partition, Sizes;
    if Outcome(l, t, Place(d)).Success? {
      var t' := t.(remaining := t.remaining - SizeOf(d));
      TakenInHand(l, t', lost);
      Installed(l, Taken(l, t'), Number(t), d, lost);
    }
  }

  lemma {:induction false} OpenSound(l: Limits, t: Table, op: Operation, lost: set<nat>)
    requires Sound(t, lost) && op.Open?
    ensures Sound(After(l, t, op), LostAfter(l, t, op, lost)) && Total(l, After(l, t, op)) == Total(l, t)
    ensures Outcome(l, t, op).Success? ==> Outcome(l, t, op).value !in t.fds
    ensures Loses(l, t, op) ==> Number(t) !in lost
  {
    hide Partition, Sizes;
    if HasNumber(l, t) {
      TakenInHand(l, t, lost);
      var t' := Taken(l, t);
      if Loses(l, t, op) {
        GoneMissing(t'.fds.Keys, t'.free, Number(t), lost, t'.next);
      } else {
        Installed(l, t', Number(t), Opened(op.found), lost);
      }
    }
  }

  // --- runs ---

  /** A new VM's descriptors, its standard input charged. */
  function First(stdin: nat, remaining: nat): Table
    requires stdin <= remaining
  {
    Table(map[0 := File(stdin, true), 1 := Stdout, 2 := Stderr, 3 := Dir([])], [], 3, remaining - stdin)
  }

  function AfterAll(l: Limits, t: Table, ops: seq<Operation>): Table {
    if ops == [] then t else After(l, AfterAll(l, t, ops[..|ops| - 1]), ops[|ops| - 1])
  }

  /** The `i`th operation of a run is an open that got a number and then found no directory or nothing at the path. */
  predicate LosesAt(l: Limits, t: Table, ops: seq<Operation>, i: nat)
    requires i < |ops|
  {
    Loses(l, AfterAll(l, t, ops[..i]), ops[i])
  }

  /** How many opens of the run got a number and then found no directory or nothing at the path. */
  function Losses(l: Limits, t: Table, ops: seq<Operation>): nat {
    if ops == [] then 0
    else
      var front := ops[..|ops| - 1];
      Losses(l, t, front) + if Loses(l, AfterAll(l, t, front), ops[|ops| - 1]) then 1 else 0
  }

  lemma {:induction false} FirstSound(l: Limits, stdin: nat, remaining: nat)
    requires stdin <= remaining
    ensures Sound(First(stdin, remaining), {}) && Total(l, First(stdin, remaining)) == remaining
  {
    FirstSizes(stdin);
  }

  lemma {:induction false} RunLost(l: Limits, stdin: nat, remaining: nat, ops: seq<Operation>) returns (lost: set<nat>)
    requires stdin <= remaining
    ensures var t := AfterAll(l, First(stdin, remaining), ops);
            Sound(t, lost) && Total(l, t) == remaining && |lost| == Losses(l, First(stdin, remaining), ops)
  {
    var start := First(stdin, remaining);
    if ops == [] {
      lost := {};
      FirstSound(l, stdin, remaining);
    } else {
      var front, op := ops[..|ops| - 1], ops[|ops| - 1];
      var before := RunLost(l, stdin, remaining, front);
      StepSound(l, AfterAll(l, start, front), op, before);
      hide Sound, Total, After, Loses;
      lost := LostAfter(l, AfterAll(l, start, front), op, before);
    }
  }

  /** In every run the open and the free numbers are distinct, no more than were handed out, and fewer than those by one
      for each open that failed after it got its number; and the memory held is accounted for. */
  lemma {:induction false} RunCounted(l: Limits, stdin: nat, remaining: nat, ops: seq<Operation>)
    requires stdin <= remaining
    ensures var t := AfterAll(l, First(stdin, remaining), ops);
            && (forall fd | fd in t.fds :: fd <= t.next && fd !in t.free) && NoDup(t.free) && (forall fd | fd in t.free :: fd <= t.next)
            && |t.fds| + |t.free| + Losses(l, First(stdin, remaining), ops) == t.next + 1
            && 3 <= t.next && t.remaining + Sizes(t.fds) + l.fdAllocation * (t.next - 3) == remaining
  {
    var lost := RunLost(l, stdin, remaining, ops);
    hide AfterAll, Losses, Sizes, First;
    var t := AfterAll(l, First(stdin, remaining), ops);
    Counted(t.fds.Keys, t.free, lost, t.next);
  }

  /** In every run the open and the free numbers are exactly those from 0 to the last one handed out if and only if no
      open got a number and then found no directory or nothing at the path. */
  lemma {:induction false} AllAccounted(l: Limits, stdin: nat, remaining: nat, ops: seq<Operation>)
    requires stdin <= remaining
    ensures var start := First(stdin, remaining);
            var t := AfterAll(l, start, ops);
            (forall fd: nat :: fd <= t.next <==> fd in t.fds || fd in t.free)
            <==> forall i | 0 <= i < |ops| :: !LosesAt(l, start, ops, i)
  {
    var start := First(stdin, remaining);
    var lost := RunLost(l, stdin, remaining, ops);
    NoLosses(l, start, ops);
    hide AfterAll, Losses, LosesAt, Sizes, First;
    var t := AfterAll(l, start, ops);
    if lost != {} {
      var fd :| fd in lost;
      assert fd !in t.fds && fd !in t.free && fd <= t.next;
    }
  }

  lemma {:induction false} NoLosses(l: Limits, t: Table, ops: seq<Operation>)
    ensures Losses(l, t, ops) == 0 <==> forall i | 0 <= i < |ops| :: !LosesAt(l, t, ops, i)
  {
    hide LosesAt, Losses;
    if ops == [] {
      LastLoss(l, t, ops);
    } else {
      var n := |ops| - 1;
      NoLosses(l, t, ops[..n]);
      forall i | 0 <= i < n ensures LosesAt(l, t, ops[..n], i) == LosesAt(l, t, ops, i) { FrontLoses(l, t, ops, i); }
      LastLoss(l, t, ops);
    }
  }

  lemma {:induction false} FrontLoses(l: Limits, t: Table, ops: seq<Operation>, i: nat)
    requires i < |ops| - 1
    ensures LosesAt(l, t, ops[..|ops| - 1], i) == LosesAt(l, t, ops, i)
  {
    hide AfterAll, Loses;
    assert ops[..|ops| - 1][..i] == ops[..i];
  }

  lemma {:induction false} LastLoss(l: Limits, t: Table, ops: seq<Operation>)
    ensures Losses(l, t, ops) == if ops == [] then 0 else Losses(l, t, ops[..|ops| - 1]) + if LosesAt(l, t, ops, |ops| - 1) then 1 else 0
  {
    hide AfterAll, Loses;
  }

  /** The number freed last is handed out first: after closing `a` and then `b` the next two files get `b` and then `a`. */
  lemma {:induction false} LastFreedFirst(l: Limits, t: Table, a: nat, b: nat, d: FileDescriptor, e: FileDescriptor)
    requires a in t.fds && b in t.fds && a != b && |t.fds| <= l.maxFds && SizeOf(d) + SizeOf(e) <= t.remaining
    ensures var closed := After(l, After(l, t, Close(a)), Close(b));
            && Outcome(l, closed, Place(d)) == Success(b)
            && Outcome(l, After(l, closed, Place(d)), Place(e)) == Success(a)
  {
    var one := After(l, t, Close(a));
    var closed := After(l, one, Close(b));
    Fewer(t.fds, a);
    Fewer(t.fds - {a}, b);
    assert closed.free == t.free + [a] + [b] && closed.fds == t.fds - {a} - {b};
    var d' := After(l, closed, Place(d));
    assert d'.free == t.free + [a] && d'.fds == closed.fds[b := d];
    assert (closed.fds[b := d]).Keys == closed.fds.Keys + {b};
  }

  lemma {:induction false} Fewer(fds: map<nat, FileDescriptor>, fd: nat)
    requires fd in fds
    ensures |fds - {fd}| == |fds| - 1
  {
    assert (fds - {fd}).Keys == fds.Keys - {fd};
    assert |fds| == |fds.Keys| && |fds - {fd}| == |(fds - {fd}).Keys|;
  }

  /** Without freed numbers the next one is one more than the last new one, and it is paid for. */
  lemma {:induction false} NewAfterLast(l: Limits, t: Table, d: FileDescriptor)
    requires t.free == [] && |t.fds| < l.maxFds && SizeOf(d) + l.fdAllocation <= t.remaining
    ensures Outcome(l, t, Place(d)) == Success(t.next + 1)
    ensures After(l, t, Place(d)).remaining == t.remaining - SizeOf(d) - l.fdAllocation && After(l, t, Place(d)).next == t.next + 1
  {
  }

  /** A new VM opens a path that leads nowhere: number 4 was handed out and is neither open nor free. */
  lemma {:induction false} NumberLost()
    ensures var t := AfterAll(Limits(8, 1), First(0, 1), [Open(3, NothingFound)]);
            t.next == 4 && t.fds.Keys == {0, 1, 2, 3} && t.free == []
  {
    var l, start, ops := Limits(8, 1), First(0, 1), [Open(3, NothingFound)];
    assert ops[..0] == [];
    assert start.fds.Keys == {0, 1, 2, 3};
    assert AfterAll(l, start, ops) == After(l, start, Open(3, NothingFound));
  }

  // --- the operations on the object ---

  class VFS {
    const limits: Limits

    var fds: map<nat, FileDescriptor>
    var freeDescriptors: seq<nat>
    var nextFreeDescriptor: nat

    /** What the limiter has left. */
    var remaining: nat

    /** Numbers handed out for an open that failed. */
    ghost var lost: set<nat>

    ghost function View(): Table
      reads this
    {
      Table(fds, freeDescriptors, nextFreeDescriptor, remaining)
    }

    ghost predicate Valid()
      reads this
    {
      Sound(View(), lost)
    }

    constructor (stdin: nat, limits: Limits, remaining: nat)
      requires stdin <= remaining
      ensures Valid() && lost == {} && View() == First(stdin, remaining) && this.limits == limits
    {
      this.limits := limits;
      fds := map[0 := File(stdin, true), 1 := Stdout, 2 := Stderr, 3 := Dir([])];
      freeDescriptors, nextFreeDescriptor, this.remaining, lost := [], 3, remaining - stdin, {};
      new;
      FirstSound(limits, stdin, remaining);
    }

    /** `new` */
    static method New(stdin: nat, limits: Limits, remaining: nat) returns (r: Result<VFS, Error>)
      ensures r == Failure(OutOfMemory) <==> stdin > remaining
      ensures r.Success? ==> fresh(r.value) && r.value.Valid() && r.value.View() == First(stdin, remaining) && r.value.lost == {} && r.value.limits == limits
    {
      if stdin > remaining { return Failure(OutOfMemory); }
      var vfs := new VFS(stdin, limits, remaining);
      r := Success(vfs);
    }

    method Consume(delta: nat) returns (ok: bool)
      modifies `remaining
      ensures ok <==> delta <= old(remaining)
      ensures remaining == if ok then old(remaining) - delta else old(remaining)
    {
      ok := delta <= remaining;
      if ok { remaining := remaining - delta; }
    }

    /** `alloc_fd`: the number handed out is neither open nor free. */
    method AllocFd() returns (r: Result<nat, Error>)
      requires Valid()
      modifies `freeDescriptors, `nextFreeDescriptor, `remaining
      ensures r == if HasNumber(limits, old(View())) then Success(Number(old(View()))) else Failure(NoNumber(limits, old(View())))
      ensures View() == if r.Success? then Taken(limits, old(View())) else old(View())
      ensures r.Success? ==> Partition(fds.Keys, freeDescriptors, {r.value}, lost, nextFreeDescriptor)
      ensures 3 <= nextFreeDescriptor && Total(limits, View()) == old(Total(limits, View()))
    {
      if HasNumber(limits, View()) { TakenInHand(limits, View(), lost); }
      hide Partition, Sizes;
      if |fds| >= limits.maxFds { return Failure(TooManyDescriptors); }
      if freeDescriptors != [] {
        var n := |freeDescriptors| - 1;
        r := Success(freeDescriptors[n]);
        freeDescriptors := freeDescriptors[..n];
      } else {
        var ok := Consume(limits.fdAllocation);
        if !ok { return Failure(OutOfMemory); }
        nextFreeDescriptor := nextFreeDescriptor + 1;
        r := Success(nextFreeDescriptor);
      }
    }

    /** `pop_fd`, as closing a descriptor does. */
    method PopFd(fd: nat) returns (d: Result<FileDescriptor, Error>)
      requires Valid()
      modifies `fds, `freeDescriptors, `remaining
      ensures Valid() && Total(limits, View()) == old(Total(limits, View()))
      ensures View() == After(limits, old(View()), Close(fd))
      ensures d == if fd in old(fds) then Success(old(fds)[fd]) else Failure(BadDescriptor)
    {
      StepSound(limits, View(), Close(fd), lost);
      hide Partition, Sizes;
      if fd !in fds { return Failure(BadDescriptor); }
      var v := fds[fd];
      fds := fds - {fd};
      if v.File? && v.releaseMemory { remaining := remaining + v.size; }
      freeDescriptors := freeDescriptors + [fd];
      d := Success(v);
    }

    /** `place_content`: on every failure nothing is charged and nothing is open. */
    method PlaceContent(value: FileDescriptor) returns (r: Result<nat, Error>)
      requires Valid() && value.File?
      modifies `fds, `freeDescriptors, `nextFreeDescriptor, `remaining
      ensures Valid() && Total(limits, View()) == old(Total(limits, View()))
      ensures r == Outcome(limits, old(View()), Place(value)) && View() == After(limits, old(View()), Place(value))
      ensures r.Success? ==> r.value !in old(fds)
      ensures r.Failure? ==> View() == old(View())
    {
      ghost var was := View();
      StepSound(limits, was, Place(value), lost);
      hide Partition, Sizes;
      if value.releaseMemory {
        var ok := Consume(value.size);
        if !ok { return Failure(OutOfMemory); }
      }
      assert View() == was.(remaining := was.remaining - SizeOf(value));
      var fd := AllocFd();
      if fd.Failure? {
        if value.releaseMemory { remaining := remaining + value.size; }
        return fd;
      }
      fds := fds[fd.value := value];
      r := fd;
    }

    /** `path_open`: the number is handed out before anything is looked up, and a failed lookup leaves the function
        at once, so that number is neither open nor free afterwards. */
    method PathOpen(dirFd: nat, found: Lookup) returns (r: Result<nat, Error>)
      requires Valid()
      modifies `fds, `freeDescriptors, `nextFreeDescriptor, `remaining, `lost
      ensures Valid() && Total(limits, View()) == old(Total(limits, View()))
      ensures r == Outcome(limits, old(View()), Open(dirFd, found)) && View() == After(limits, old(View()), Open(dirFd, found))
      ensures r.Success? ==> r.value !in old(fds)
      ensures Loses(limits, old(View()), Open(dirFd, found))
          <==> r.Failure? && (r.error.BadDescriptor? || r.error.NotFound?)
      ensures lost == if Loses(limits, old(View()), Open(dirFd, found)) then old(lost) + {Number(old(View()))} else old(lost)
    {
      StepSound(limits, View(), Open(dirFd, found), lost);
      hide Partition, Sizes;
      var fd := AllocFd();
      if fd.Failure? { return fd; }
      if dirFd !in fds || !fds[dirFd].Dir? {
        lost := lost + {fd.value};
        return Failure(BadDescriptor);
      }
      if found.NothingFound? {
        lost := lost + {fd.value};
        return Failure(NotFound);
      }
      fds := fds[fd.value := Opened(found)];
      r := fd;
    }
  }

  lemma {:induction false} OneMore(a: nat, n: nat)
    ensures a * (n + 1) == a * n + a
  {
  }

  lemma {:induction false} FirstSizes(stdin: nat)
    ensures Sizes(map[0 := File(stdin, true), 1 := Stdout, 2 := Stderr, 3 := Dir([])]) == stdin
  {
    SizesWith(map[], 3, Dir([]));
    SizesWith(map[3 := Dir([])], 2, Stderr);
    SizesWith(map[3 := Dir([])][2 := Stderr], 1, Stdout);
    SizesWith(map[3 := Dir([])][2 := Stderr][1 := Stdout], 0, File(stdin, true));
    assert map[0 := File(stdin, true), 1 := Stdout, 2 := Stderr, 3 := Dir([])]
        == map[3 := Dir([])][2 := Stderr][1 := Stdout][0 := File(stdin, true)];
  }

  /** The numbers in use are as many as were ever handed out. */
  lemma {:induction false} Counted(open: set<nat>, free: seq<nat>, lost: set<nat>, next: nat)
    requires Partition(open, free, {}, lost, next)
    ensures |open| + |free| + |lost| == next + 1
  {
    MembersCount(free);
    var all := open + Members(free) + lost;
    UptoCount(next + 1);
    assert all == Upto(next + 1);
    assert |open + Members(free)| == |open| + |Members(free)| by { assert open !! Members(free); }
    assert |all| == |open + Members(free)| + |lost| by { assert (open + Members(free)) !! lost; }
  }

  ghost function Upto(n: nat): (r: set<nat>)
    ensures forall i: nat :: i in r <==> i < n
  {
    if n == 0 then {} else Upto(n - 1) + {n - 1}
  }

  lemma {:induction false} UptoCount(n: nat)
    ensures |Upto(n)| == n
  {
    if n > 0 { UptoCount(n - 1); }
  }
}
