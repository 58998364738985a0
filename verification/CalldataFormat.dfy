/** What the bytes of calldata are, in numbers, and which of them the decoder accepts: the order of map keys is that of
    byte strings (executor/crates/calldata/src/consts.rs:1-14, bin.rs:74-101, 126-334, encoder.rs:4-79). */
module CalldataFormat {
  import opened Wrappers
  import opened Uleb
  import opened Calldata
  import opened CalldataDecoder
  import opened CalldataTheorems

  // --- the order of keys ---

  /** The two agree up to byte `i`, where `a` has the smaller one. */
  predicate DifferAt(a: Bytes, b: Bytes, i: int) {
    0 <= i < |a| && i < |b| && a[..i] == b[..i] && a[i] < b[i]
  }

  /** The order of byte strings: a proper prefix first, otherwise by the first byte that differs. */
  ghost predicate BytesBefore(a: Bytes, b: Bytes) {
    (|a| < |b| && a == b[..|a|]) || exists i :: DifferAt(a, b, i)
  }

  lemma {:induction false} LessIs(a: Bytes, b: Bytes)
    ensures Less(a, b) <==> BytesBefore(a, b)
    decreases |a|
  {
    if a != [] && b != [] {
      if a[0] == b[0] {
        LessIs(a[1..], b[1..]);
        LaterByte(a, b);
      } else {
        assert a[..0] == b[..0];
        assert DifferAt(a, b, 0) <==> a[0] < b[0];
        assert forall i | 0 < i < |a| && i < |b| :: a[..i][0] == a[0] && b[..i][0] == b[0];
      }
    }
  }

  /** With the same first byte the rests decide. */
  lemma {:induction false} LaterByte(a: Bytes, b: Bytes)
    requires a != [] && b != [] && a[0] == b[0]
    ensures BytesBefore(a, b) <==> BytesBefore(a[1..], b[1..])
  {
    forall i: nat ensures DifferAt(a, b, i + 1) <==> DifferAt(a[1..], b[1..], i) {
      if i < |a| - 1 && i < |b| - 1 {
        assert a[..i + 1] == [a[0]] + a[1..][..i] && b[..i + 1] == [b[0]] + b[1..][..i];
        if a[..i + 1] == b[..i + 1] { assert a[1..][..i] == a[..i + 1][1..]; assert b[1..][..i] == b[..i + 1][1..]; }
      }
    }
    if i :| DifferAt(a, b, i) { assert DifferAt(a[1..], b[1..], i - 1); }
    if i :| DifferAt(a[1..], b[1..], i) { assert DifferAt(a, b, i + 1); }
    if |a| < |b| {
      assert a == [a[0]] + a[1..];
      assert b[..|a|] == [b[0]] + b[1..][..|a| - 1] && b[..|a|][1..] == b[1..][..|a| - 1];
    }
  }

  // --- values ---

  /** Addresses of 20 bytes, strings of UTF-8, and the keys of every map ascending in the order of byte strings. */
  ghost predicate Sound(utf8: Bytes -> bool, v: Value) {
    match v
    case Address(raw) => |raw| == 20
    case Str(s) => utf8(s)
    case Array(items) => forall x | x in items :: Sound(utf8, x)
    case Map(es) =>
      && (forall i, j | 0 <= i < j < |es| :: BytesBefore(es[i].key, es[j].key))
      && forall e | e in es :: utf8(e.key) && Sound(utf8, e.value)
    case _ => true
  }

  lemma {:induction false} AscendingAll(es: seq<Entry>, i: nat, j: nat)
    requires Ascending(es) && i < j < |es|
    ensures Less(es[i].key, es[j].key)
    decreases j
  {
    if i < j - 1 {
      AscendingAll(es, i, j - 1);
      LessTransitive(es[i].key, es[j - 1].key, es[j].key);
    }
  }

  lemma {:induction false} AscendingIs(es: seq<Entry>)
    ensures Ascending(es) <==> forall i, j | 0 <= i < j < |es| :: BytesBefore(es[i].key, es[j].key)
  {
    hide Less, BytesBefore;
    forall i, j | 0 <= i < j < |es| ensures Less(es[i].key, es[j].key) <==> BytesBefore(es[i].key, es[j].key) { LessIs(es[i].key, es[j].key); }
    if Ascending(es) {
      forall i, j | 0 <= i < j < |es| ensures BytesBefore(es[i].key, es[j].key) { AscendingAll(es, i, j); }
    }
  }

  lemma {:induction false} SoundIs(utf8: Bytes -> bool, v: Value)
    ensures Sound(utf8, v) <==> WellFormed(utf8, v)
    decreases v
  {
    hide Ascending, BytesBefore;
    match v {
      case Array(items) =>
        forall x | x in items ensures Sound(utf8, x) <==> WellFormed(utf8, x) { SoundIs(utf8, x); }
      case Map(es) =>
        AscendingIs(es);
        forall e | e in es ensures Sound(utf8, e.value) <==> WellFormed(utf8, e.value) { SoundIs(utf8, e.value); }
      case _ =>
    }
  }

  // --- what is accepted ---

  /** The decoder accepts exactly the encodings of sound values that fit, each as its value. */
  lemma {:induction false} AcceptedExactly(c: Config, data: Bytes, v: Value)
    ensures Decode(c, data) == Ok(v, []) <==> data == Encode(v) && Sound(c.utf8, v) && Fits(v, 0, c.maxDepth)
    ensures Decode(c, data).Ok? ==> Decode(c, data) == Ok(Decode(c, data).value, [])
  {
    hide Sound, WellFormed, Encode, Fits;
    SoundIs(c.utf8, v);
    if Decode(c, data).Ok? { Canonical(c, data); RestEmpty(c, data); }
    if WellFormed(c.utf8, v) { RoundTrip(c, v); }
  }

  lemma {:induction false} RestEmpty(c: Config, data: Bytes)
    ensures Decode(c, data).Ok? ==> Decode(c, data).rest == []
  {
  }

  // --- the bytes ---

  /** The number that digits in base 128 spell, least significant first. */
  function Spelled(bs: Bytes): nat {
    if bs == [] then 0 else bs[0] % 128 + 128 * Spelled(bs[1..])
  }

  /** The digits of a number, all but the last with bit 7 set, without a zero at the end. */
  ghost predicate Spells(bs: Bytes, n: nat) {
    && bs != [] && Spelled(bs) == n && (forall i | 0 <= i < |bs| :: bs[i] >= 128 <==> i < |bs| - 1)
    && (bs[|bs| - 1] == 0 ==> |bs| == 1)
  }

  lemma {:induction false} WrittenDigits(n: nat)
    ensures Spells(Write(n), n)
    decreases n
  {
    if n >= 128 {
      WrittenDigits(n / 128);
      var rest := Write(n / 128);
      assert Write(n) == [128 + n % 128] + rest && Write(n)[1..] == rest;
    } else {
      assert Write(n)[1..] == [];
    }
  }

  /** A number is spelled in one way only. */
  lemma {:induction false} SpelledOnce(a: Bytes, b: Bytes, n: nat)
    requires Spells(a, n) && Spells(b, n)
    ensures a == b
    decreases |a|
  {
    OneDigit(a, n);
    OneDigit(b, n);
    if n >= 128 {
      SpelledOnce(a[1..], b[1..], n / 128);
      assert a == [a[0]] + a[1..] && b == [b[0]] + b[1..];
    }
  }

  lemma {:induction false} OneDigit(a: Bytes, n: nat)
    requires Spells(a, n)
    ensures n < 128 ==> a == [n]
    ensures n >= 128 ==> |a| > 1 && a[0] == 128 + n % 128 && Spells(a[1..], n / 128)
    decreases |a|
  {
    var rest := a[1..];
    assert a[0] >= 128 <==> 0 < |a| - 1;
    if rest == [] {
      assert a == [a[0]] && Spelled(rest) == 0;
    } else {
      assert rest[|rest| - 1] == a[|a| - 1];
      assert forall i | 0 <= i < |rest| :: rest[i] == a[i + 1];
      NoZeroEnd(rest);
    }
  }

  lemma {:induction false} NoZeroEnd(a: Bytes)
    requires a != [] && a[|a| - 1] % 128 != 0
    ensures Spelled(a) > 0
    decreases |a|
  {
    if |a| > 1 { NoZeroEnd(a[1..]); }
  }

  /** The bytes of a number, and of everything that starts with its size: three bits of the header say which it is. */
  lemma {:induction false} WireFormat(v: Value) returns (head: Bytes)
    ensures match v {
      case Null => Encode(v) == [0]
      case Bool(b) => Encode(v) == if b then [16] else [8]
      case Address(raw) => Encode(v) == [24] + raw
      case Number(n) => Encode(v) == head && Spells(head, if n >= 0 then n * 8 + 1 else (-n - 1) * 8 + 2)
      case Blob(d) => Encode(v) == head + d && Spells(head, |d| * 8 + 3)
      case Str(s) => Encode(v) == head + s && Spells(head, |s| * 8 + 4)
      case Array(items) => Encode(v) == head + EncodeItems(items) && Spells(head, |items| * 8 + 5)
      case Map(es) => Encode(v) == head + EncodeEntries(es) && Spells(head, |es| * 8 + 6)
    }
  {
    hide Write, Spells;
    var n := match v {
      case Number(n) => if n >= 0 then n * 8 + 1 else (-n - 1) * 8 + 2
      case Blob(d) => |d| * 8 + 3
      case Str(s) => |s| * 8 + 4
      case Array(items) => |items| * 8 + 5
      case Map(es) => |es| * 8 + 6
      case _ => 0
    };
    head := Write(n);
    WrittenDigits(n);
  }

  /** Elements follow each other; so do entries, each a key's length, the key and the value. */
  lemma {:induction false} ContainerFormat(items: seq<Value>, v: Value, es: seq<Entry>, e: Entry) returns (size: Bytes)
    ensures EncodeItems([]) == [] && EncodeItems([v] + items) == Encode(v) + EncodeItems(items)
    ensures EncodeEntries([]) == [] && EncodeEntries([e] + es) == size + e.key + Encode(e.value) + EncodeEntries(es)
    ensures Spells(size, |e.key|)
  {
    size := Write(|e.key|);
    WrittenDigits(|e.key|);
    hide Write, Spells, Encode;
    assert ([v] + items)[1..] == items && ([e] + es)[1..] == es;
  }

  lemma {:induction false} TwoKeysBytes()
    ensures Encode(Map([Entry([97], Null), Entry([98], Null)])) == [22, 1, 97, 0, 1, 98, 0]
  {
    var a, b := Entry([97], Null), Entry([98], Null);
    var one := ContainerFormat([], Null, [b], a);
    var two := ContainerFormat([], Null, [], b);
    OneDigit(one, 1);
    OneDigit(two, 1);
    assert [a] + [b] == [a, b] && [b] + [] == [b];
  }

  /** The calldata of a map from "a" and "b" to null is accepted. */
  lemma {:induction false} TwoKeys(c: Config)
    requires c.utf8([97]) && c.utf8([98]) && c.maxDepth > 0
    ensures Decode(c, [22, 1, 97, 0, 1, 98, 0]) == Ok(Map([Entry([97], Null), Entry([98], Null)]), [])
  {
    hide Decode, Encode;
    TwoKeysBytes();
    assert DifferAt([97], [98], 0);
    AcceptedExactly(c, [22, 1, 97, 0, 1, 98, 0], Map([Entry([97], Null), Entry([98], Null)]));
  }

  // --- what is refused, and why ---

  /** A size of more than 32 bits, or more than is left. */
  predicate SizeRefused(size: nat, rest: Bytes, r: Parsed<Value>) {
    if size >= SIZE_LIMIT then r == Err(ContainerSizeTooLarge(BitLength(size)))
    else size > |rest| ==> r == Err(UnexpectedEnd(size, |rest|))
  }

  /** What a header says about the result, when it is one that no value has, or the size or depth is not allowed. */
  predicate Answered(c: Config, n: nat, rest: Bytes, depth: nat, r: Parsed<Value>) {
    var size := n / 8;
    match n % 8 {
      case 0 =>
        if size > 3 then r == Err(InvalidSpecialValue(n % 256))
        else size == 3 && |rest| < 20 ==> r == Err(UnexpectedEnd(20, |rest|))
      case 1 => r == Ok(Number(size), rest)
      case 2 => r == Ok(Number(-size - 1), rest)
      case 3 => SizeRefused(size, rest, r)
      case 4 => SizeRefused(size, rest, r) && (size < SIZE_LIMIT && size <= |rest| && !c.utf8(rest[..size]) ==> r == Err(InvalidUtf8))
      case 7 => r == Err(InvalidTag(7))
      case _ =>
        if depth >= c.maxDepth then r == Err(MaxDepthExceeded)
        else if size >= SIZE_LIMIT then r == Err(ContainerSizeTooLarge(BitLength(size)))
        else
          var least := if n % 8 == 5 then size else 2 * size;
          c.early && |rest| < least ==> r == Err(UnexpectedEnd(least, |rest|))
    }
  }

  /** A header that no value has, or whose size or depth is not allowed, is refused with its cause. */
  lemma {:induction false} HeaderRefused(c: Config, n: nat, rest: Bytes, depth: nat)
    requires Readable(n, 0)
    ensures Answered(c, n, rest, depth, DecodeValue(c, Write(n) + rest, depth))
  {
    ReadWrite(n, rest, 0);
    BodyRefused(c, n, rest, depth);
    hide Uleb.Read, Write, DecodeBody, Answered;
  }

  lemma {:induction false} BodyRefused(c: Config, n: nat, rest: Bytes, depth: nat)
    ensures Answered(c, n, rest, depth, DecodeBody(c, n % 8, n % 256, n / 8, rest, depth))
  {
    var size := n / 8;
    if n % 8 == 0 { SpecialRefused(n, rest); }
    SizesRefused(c, size, rest);
    ContainerRefused(c, size, if n % 8 == 5 then 1 else 2, rest, depth);
    hide BitLength, SizeRefused, DecodeSpecial, DecodeBlob, DecodeStr, ContainerHeader, DecodeItems, DecodeEntries;
  }

  lemma {:induction false} SpecialRefused(n: nat, rest: Bytes)
    requires n % 8 == 0
    ensures n / 8 > 3 ==> DecodeSpecial(n % 256, n / 8, rest) == Err(InvalidSpecialValue(n % 256))
    ensures n / 8 == 3 && |rest| < 20 ==> DecodeSpecial(n % 256, n / 8, rest) == Err(UnexpectedEnd(20, |rest|))
  {
    BitLengthBound(n / 8, 5);
    assert Pow2(5) == 32;
    hide BitLength, Pow2;
  }

  lemma {:induction false} SizesRefused(c: Config, size: nat, rest: Bytes)
    ensures SizeRefused(size, rest, DecodeBlob(size, rest)) && SizeRefused(size, rest, DecodeStr(c, size, rest))
    ensures size < SIZE_LIMIT && size <= |rest| && !c.utf8(rest[..size]) ==> DecodeStr(c, size, rest) == Err(InvalidUtf8)
  {
    SizeBits(size);
    hide BitLength;
  }

  lemma {:induction false} ContainerRefused(c: Config, size: nat, unit: nat, rest: Bytes, depth: nat)
    ensures var r := ContainerHeader(c, size, unit, rest, depth);
            if depth >= c.maxDepth then r == Err(MaxDepthExceeded)
            else if size >= SIZE_LIMIT then r == Err(ContainerSizeTooLarge(BitLength(size)))
            else c.early && |rest| < unit * size ==> r == Err(UnexpectedEnd(unit * size, |rest|))
  {
    SizeBits(size);
    hide BitLength;
  }

  /** A key that does not come after the one before it is refused, with both. */
  lemma {:induction false} KeyRefused(c: Config, prev: Bytes, key: Bytes, rest: Bytes, count: nat, depth: nat)
    requires c.utf8(key) && |key| < SIZE_LIMIT && count > 0
    ensures DecodeEntries(c, EncodeKey(key) + rest, count, depth, Some(prev)) == Err(InvalidMapOrdering(prev, key)) <== !BytesBefore(prev, key)
  {
    KeyRead(c, key, rest);
    LessIs(prev, key);
    hide Less, BytesBefore, DecodeKey, EncodeKey, DecodeValue;
  }
}
