/** The imperative encoder: digit loops appending to a writer, and a worklist in place of recursion
    (executor/crates/calldata/src/encoder.rs:4-79, 149-227, executor/crates/calldata/src/bin.rs:338-408). */
module CalldataEncoder {
  import opened Uleb
  import opened Calldata

  datatype Item = ItemValue(value: Value) | ItemKey(key: Bytes)

  ghost function EncodeItem(item: Item): Bytes {
    match item
    case ItemValue(v) => Calldata.Encode(v)
    case ItemKey(k) => EncodeKey(k)
  }

  /** What draining the worklist, last item first, writes. */
  ghost function Pending(stack: seq<Item>): Bytes {
    if stack == [] then []
    else EncodeItem(stack[|stack| - 1]) + Pending(stack[..|stack| - 1])
  }

  ghost function ReverseItems(items: seq<Value>): seq<Item> {
    if items == [] then [] else ReverseItems(items[1..]) + [ItemValue(items[0])]
  }

  ghost function ReverseEntries(es: seq<Entry>): seq<Item> {
    if es == [] then [] else ReverseEntries(es[1..]) + [ItemValue(es[0].value), ItemKey(es[0].key)]
  }

  lemma {:induction false} PendingPush(stack: seq<Item>, item: Item)
    ensures Pending(stack + [item]) == EncodeItem(item) + Pending(stack)
  {
    assert (stack + [item])[..|stack|] == stack;
  }

  lemma {:induction false} PendingItems(stack: seq<Item>, items: seq<Value>)
    ensures Pending(stack + ReverseItems(items)) == EncodeItems(items) + Pending(stack)
  {
    hide Calldata.Encode, Pending;
    if items == [] {
      assert stack + ReverseItems(items) == stack;
    } else {
      var below := stack + ReverseItems(items[1..]);
      PendingItems(stack, items[1..]);
      PendingPush(below, ItemValue(items[0]));
      assert stack + ReverseItems(items) == below + [ItemValue(items[0])];
    }
  }

  lemma {:induction false} PendingEntries(stack: seq<Item>, es: seq<Entry>)
    ensures Pending(stack + ReverseEntries(es)) == EncodeEntries(es) + Pending(stack)
  {
    hide Calldata.Encode, EncodeKey, Pending;
    if es == [] {
      assert stack + ReverseEntries(es) == stack;
    } else {
      var below := stack + ReverseEntries(es[1..]);
      PendingEntries(stack, es[1..]);
      PendingPush(below, ItemValue(es[0].value));
      PendingPush(below + [ItemValue(es[0].value)], ItemKey(es[0].key));
      assert stack + ReverseEntries(es) == below + [ItemValue(es[0].value)] + [ItemKey(es[0].key)];
    }
  }

  class Encoder {
    var out: Bytes

    constructor ()
      ensures out == []
    {
      out := [];
    }

    method WriteUleb(n: nat)
      modifies this
      ensures out == old(out) + Uleb.Write(n)
    {
      if n == 0 {
        out := out + [0];
        return;
      }
      var num := n;
      while true
        invariant out + Uleb.Write(num) == old(out) + Uleb.Write(n)
        decreases num
      {
        var cur := num % 128;
        num := num / 128;
        var hasNext := num != 0;
        if hasNext { cur := cur + 128; }
        out := out + [cur];
        if !hasNext { return; }
      }
    }

    method WriteTagged(tag: nat, n: nat)
      requires tag < 8
      modifies this
      ensures out == old(out) + EncodeTagged(tag, n)
    {
      WriteUleb(n * 8 + tag);
    }

    method PushBigint(n: int)
      modifies this
      ensures out == old(out) + EncodeNumber(n)
    {
      if n < 0 { WriteTagged(TYPE_NINT, -n - 1); } else { WriteTagged(TYPE_PINT, n); }
    }

    method PushMapKey(key: Bytes)
      modifies this
      ensures out == old(out) + EncodeKey(key)
    {
      WriteUleb(|key|);
      out := out + key;
    }

    /** A value that holds no other values. */
    method PushScalar(v: Value)
      requires !v.Array? && !v.Map?
      modifies this
      ensures out == old(out) + Calldata.Encode(v)
    {
      match v
      case Null => out := out + [SPECIAL_NULL];
      case Bool(b) => out := out + [if b then SPECIAL_TRUE else SPECIAL_FALSE];
      case Address(raw) => out := out + [SPECIAL_ADDR]; out := out + raw;
      case Str(s) => WriteTagged(TYPE_STR, |s|); out := out + s;
      case Blob(d) => WriteTagged(TYPE_BYTES, |d|); out := out + d;
      case Number(n) => PushBigint(n);
    }

    /** Writes one item of the worklist, putting what it contains on top of the rest. */
    method EncodeOne(item: Item, stack: seq<Item>) returns (stack': seq<Item>)
      modifies this
      ensures out + Pending(stack') == old(out) + (EncodeItem(item) + Pending(stack))
      ensures |out| > |old(out)|
    {
      hide Pending, EncodeItems, EncodeEntries;
      stack' := stack;
      match item
      case ItemKey(key) => PushMapKey(key);
      case ItemValue(Array(items)) =>
        WriteTagged(TYPE_ARR, |items|);
        PendingItems(stack, items);
        stack' := PushItems(stack, items);
        Regroup(old(out), EncodeTagged(TYPE_ARR, |items|), EncodeItems(items), Pending(stack));
      case ItemValue(Map(es)) =>
        WriteTagged(TYPE_MAP, |es|);
        PendingEntries(stack, es);
        stack' := PushEntries(stack, es);
        Regroup(old(out), EncodeTagged(TYPE_MAP, |es|), EncodeEntries(es), Pending(stack));
      case ItemValue(v) => PushScalar(v);
    }

    /** The worklist writes exactly what structural recursion writes. */
    method EncodeTo(value: Value)
      modifies this
      ensures out == old(out) + Calldata.Encode(value)
    {
      var stack := [ItemValue(value)];
      ghost var goal := out + Calldata.Encode(value);
      PendingPush([], stack[0]);
      assert [] + stack == stack;
      while stack != []
        invariant out + Pending(stack) == goal
        decreases |Pending(stack)|
      {
        var item := stack[|stack| - 1];
        stack := EncodeOne(item, stack[..|stack| - 1]);
      }
    }
  }

  lemma {:induction false} Regroup(a: Bytes, b: Bytes, c: Bytes, d: Bytes)
    ensures a + b + (c + d) == a + ((b + c) + d)
  {
  }

  /** Pushes the items in reverse, so that the first is drained first. */
  method PushItems(stack: seq<Item>, items: seq<Value>) returns (pushed: seq<Item>)
    ensures pushed == stack + ReverseItems(items)
  {
    pushed := stack;
    var i := |items|;
    assert items[i..] == [];
    while i > 0
      invariant 0 <= i <= |items|
      invariant pushed == stack + ReverseItems(items[i..])
    {
      i := i - 1;
      assert items[i..][1..] == items[i + 1..];
      pushed := pushed + [ItemValue(items[i])];
    }
    assert items[0..] == items;
  }

  method PushEntries(stack: seq<Item>, es: seq<Entry>) returns (pushed: seq<Item>)
    ensures pushed == stack + ReverseEntries(es)
  {
    pushed := stack;
    var i := |es|;
    assert es[i..] == [];
    while i > 0
      invariant 0 <= i <= |es|
      invariant pushed == stack + ReverseEntries(es[i..])
    {
      i := i - 1;
      assert es[i..][1..] == es[i + 1..];
      pushed := pushed + [ItemValue(es[i].value)];
      pushed := pushed + [ItemKey(es[i].key)];
    }
    assert es[0..] == es;
  }

  method Encode(value: Value) returns (bytes: Bytes)
    ensures bytes == Calldata.Encode(value)
  {
    var encoder := new Encoder();
    encoder.EncodeTo(value);
    bytes := encoder.out;
  }
}
