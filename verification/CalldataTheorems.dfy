/** The calldata codec's laws: which values survive a round trip, that only canonical bytes are
    accepted, and that the early size rejections never refuse an input the grammar accepts. */
module CalldataTheorems {
  import opened Wrappers
  import opened Uleb
  import opened Calldata
  import opened CalldataDecoder

  const SIZE_LIMIT: nat := 0x1_0000_0000

  /** What a decoder that allows `maxDepth` nested containers can read back: container nesting,
      32-bit sizes, and numbers whose digits fit the 64-bit digit offset. */
  predicate Fits(v: Value, depth: nat, maxDepth: nat) {
    match v
    case Str(s) => |s| < SIZE_LIMIT
    case Blob(d) => |d| < SIZE_LIMIT
    case Number(n) => Readable(if n < 0 then (-n - 1) * 8 + TYPE_NINT else n * 8 + TYPE_PINT, 0)
    case Array(items) =>
      depth < maxDepth && |items| < SIZE_LIMIT && forall x | x in items :: Fits(x, depth + 1, maxDepth)
    case Map(es) =>
      depth < maxDepth && |es| < SIZE_LIMIT
      && forall e | e in es :: |e.key| < SIZE_LIMIT && Fits(e.value, depth + 1, maxDepth)
    case _ => true
  }

  lemma {:induction false} SizeBits(n: nat)
    ensures BitLength(n) > BITS_IN_SIZE <==> n >= SIZE_LIMIT
  {
    BitLengthBound(n, BITS_IN_SIZE);
    assert Pow2(4) == 16;
    Pow2Step(4); Pow2Step(11); Pow2Step(18); Pow2Step(25);
  }

  /** Sizes the decoder accepts have short spellings. */
  lemma {:induction false} SmallReadable(n: nat, digits: nat)
    requires n < Pow2(7 * digits) && digits > 0
    ensures |Uleb.Write(n)| <= digits
  {
    if n >= 128 {
      assert Pow2(7) == 128;
      Pow2Step(7 * (digits - 1));
      SmallReadable(n / 128, digits - 1);
    }
  }

  lemma {:induction false} Pow2Step(e: nat)
    ensures Pow2(e + 7) == 128 * Pow2(e)
  {
    assert Pow2(e + 2) == 2 * Pow2(e + 1) == 4 * Pow2(e);
    assert Pow2(e + 4) == 2 * Pow2(e + 3) == 4 * Pow2(e + 2);
    assert Pow2(e + 6) == 2 * Pow2(e + 5) == 4 * Pow2(e + 4);
  }

  lemma {:induction false} SizeReadable(n: nat)
    requires n < 8 * SIZE_LIMIT
    ensures Readable(n, 0)
  {
    assert Pow2(7) == 128;
    Pow2Step(7); Pow2Step(14); Pow2Step(21); Pow2Step(28);
    assert Pow2(35) == 0x8_0000_0000;
    SmallReadable(n, 5);
  }

  /** Reading a tagged header back. */
  lemma {:induction false} HeaderRead(tag: nat, n: nat, rest: Bytes)
    requires tag < 8
    ensures var r := Uleb.Read(EncodeTagged(tag, n) + rest, 0);
            r == if Readable(n * 8 + tag, 0) then Ok(n * 8 + tag, rest) else Err(NumberTooBig)
    ensures (n * 8 + tag) % 8 == tag && (n * 8 + tag) / 8 == n
    ensures n < SIZE_LIMIT ==> Readable(n * 8 + tag, 0)
  {
    ReadWrite(n * 8 + tag, rest, 0);
    if n < SIZE_LIMIT { SizeReadable(n * 8 + tag); }
  }

  lemma {:induction false} TextRead(c: Config, s: Bytes, rest: Bytes)
    requires c.utf8(s)
    ensures Text(c, |s|, s + rest) == if |s| < SIZE_LIMIT then Ok(s, rest) else Err(ContainerSizeTooLarge(BitLength(|s|)))
  {
    SizeBits(|s|);
    assert (s + rest)[..|s|] == s && (s + rest)[|s|..] == rest;
  }

  lemma {:induction false} KeyRead(c: Config, key: Bytes, rest: Bytes)
    requires c.utf8(key)
    ensures var r := DecodeKey(c, EncodeKey(key) + rest);
            if |key| < SIZE_LIMIT then r == Ok(key, rest) else r.Err?
  {
    assert EncodeKey(key) + rest == Uleb.Write(|key|) + (key + rest);
    ReadWrite(|key|, key + rest, 0);
    if |key| < SIZE_LIMIT { SizeReadable(|key|); }
    TextRead(c, key, rest);
  }

  /** Reading an encoded value gives it back exactly when it fits, whatever follows it. */
  lemma {:induction false} ValueRead(c: Config, v: Value, rest: Bytes, depth: nat)
    requires !c.early && WellFormed(c.utf8, v)
    ensures var r := DecodeValue(c, Encode(v) + rest, depth);
            if Fits(v, depth, c.maxDepth) then r == Ok(v, rest) else r.Err?
    decreases v, 0
  {
    match v {
      case Array(items) => ArrayRead(c, items, rest, depth);
      case Map(es) => MapRead(c, es, rest, depth);
      case Str(s) => StrRead(c, s, rest, depth);
      case Blob(d) => BlobRead(c, d, rest, depth);
      case Number(n) => NumberRead(c, n, rest, depth);
      case _ => SpecialRead(c, v, rest, depth);
    }
  }

  lemma {:induction false} SpecialRead(c: Config, v: Value, rest: Bytes, depth: nat)
    requires v.Null? || v.Bool? || (v.Address? && |v.raw| == ADDRESS_SIZE)
    ensures DecodeValue(c, Encode(v) + rest, depth) == Ok(v, rest)
  {
    var tail := (Encode(v) + rest)[1..];
    if v.Address? {
      assert tail == v.raw + rest;
      assert tail[..ADDRESS_SIZE] == v.raw && tail[ADDRESS_SIZE..] == rest;
    } else {
      assert tail == rest;
    }
  }

  lemma {:induction false} StrRead(c: Config, s: Bytes, rest: Bytes, depth: nat)
    requires c.utf8(s)
    ensures var r := DecodeValue(c, Encode(Str(s)) + rest, depth);
            if |s| < SIZE_LIMIT then r == Ok(Str(s), rest) else r.Err?
  {
    assert Encode(Str(s)) + rest == EncodeTagged(TYPE_STR, |s|) + (s + rest);
    HeaderRead(TYPE_STR, |s|, s + rest);
    TextRead(c, s, rest);
  }

  lemma {:induction false} BlobRead(c: Config, d: Bytes, rest: Bytes, depth: nat)
    ensures var r := DecodeValue(c, Encode(Blob(d)) + rest, depth);
            if |d| < SIZE_LIMIT then r == Ok(Blob(d), rest) else r.Err?
  {
    assert Encode(Blob(d)) + rest == EncodeTagged(TYPE_BYTES, |d|) + (d + rest);
    HeaderRead(TYPE_BYTES, |d|, d + rest);
    SizeBits(|d|);
    assert (d + rest)[..|d|] == d && (d + rest)[|d|..] == rest;
  }

  lemma {:induction false} NumberRead(c: Config, n: int, rest: Bytes, depth: nat)
    ensures var r := DecodeValue(c, Encode(Number(n)) + rest, depth);
            if Fits(Number(n), depth, c.maxDepth) then r == Ok(Number(n), rest) else r.Err?
  {
    hide EncodeTagged, Uleb.Read, Readable, DecodeBody;
    var tag, val := if n < 0 then TYPE_NINT else TYPE_PINT, if n < 0 then -n - 1 else n;
    HeaderRead(tag, val, rest);
    NumberBody(c, tag, (val * 8 + tag) % 256, val, rest, depth);
  }

  lemma {:induction false} NumberBody(c: Config, tag: nat, low: Byte, val: nat, rest: Bytes, depth: nat)
    requires tag == TYPE_PINT || tag == TYPE_NINT
    ensures var n: int := if tag == TYPE_PINT then val else -(val + 1);
            DecodeBody(c, tag, low, val, rest, depth) == Ok(Number(n), rest)
  {
    hide DecodeSpecial, DecodeBlob, DecodeStr, ContainerHeader, DecodeItems, DecodeEntries;
  }

  lemma {:induction false} ArrayRead(c: Config, items: seq<Value>, rest: Bytes, depth: nat)
    requires !c.early && WellFormed(c.utf8, Array(items))
    ensures var r := DecodeValue(c, Encode(Array(items)) + rest, depth);
            if Fits(Array(items), depth, c.maxDepth) then r == Ok(Array(items), rest) else r.Err?
    decreases items, 2
  {
    hide DecodeItems, EncodeItems, EncodeTagged, Uleb.Read, BitLength, Readable;
    var body := EncodeItems(items) + rest;
    assert Encode(Array(items)) + rest == EncodeTagged(TYPE_ARR, |items|) + body;
    HeaderRead(TYPE_ARR, |items|, body);
    SizeBits(|items|);
    ItemsRead(c, items, rest, depth + 1);
  }

  lemma {:induction false} MapRead(c: Config, es: seq<Entry>, rest: Bytes, depth: nat)
    requires !c.early && WellFormed(c.utf8, Map(es))
    ensures var r := DecodeValue(c, Encode(Map(es)) + rest, depth);
            if Fits(Map(es), depth, c.maxDepth) then r == Ok(Map(es), rest) else r.Err?
    decreases es, 2
  {
    hide DecodeEntries, EncodeEntries, EncodeTagged, Uleb.Read, BitLength, Readable;
    var body := EncodeEntries(es) + rest;
    assert Encode(Map(es)) + rest == EncodeTagged(TYPE_MAP, |es|) + body;
    HeaderRead(TYPE_MAP, |es|, body);
    SizeBits(|es|);
    EntriesRead(c, es, rest, depth + 1, None);
  }

  lemma {:induction false} ItemsRead(c: Config, items: seq<Value>, rest: Bytes, depth: nat)
    requires !c.early && forall x | x in items :: WellFormed(c.utf8, x)
    ensures var r := DecodeItems(c, EncodeItems(items) + rest, |items|, depth);
            if forall x | x in items :: Fits(x, depth, c.maxDepth) then r == Ok(items, rest) else r.Err?
    decreases items, 1
  {
    if items == [] {
      assert EncodeItems(items) + rest == rest;
    } else {
      assert EncodeItems(items) + rest == Encode(items[0]) + (EncodeItems(items[1..]) + rest);
      ValueRead(c, items[0], EncodeItems(items[1..]) + rest, depth);
      ItemsRead(c, items[1..], rest, depth);
      assert items == [items[0]] + items[1..];
    }
  }

  lemma {:induction false} EntriesRead(c: Config, es: seq<Entry>, rest: Bytes, depth: nat, prev: Option<Bytes>)
    requires !c.early && Ascending(es) && forall e | e in es :: c.utf8(e.key) && WellFormed(c.utf8, e.value)
    requires prev.Some? && es != [] ==> Less(prev.value, es[0].key)
    ensures var r := DecodeEntries(c, EncodeEntries(es) + rest, |es|, depth, prev);
            if forall e | e in es :: |e.key| < SIZE_LIMIT && Fits(e.value, depth, c.maxDepth) then r == Ok(es, rest) else r.Err?
    decreases es, 1
  {
    hide DecodeValue, DecodeKey, Encode, EncodeKey, WellFormed, Fits, Less;
    if es == [] {
      assert EncodeEntries(es) + rest == rest;
    } else {
      var e, more := es[0], EncodeEntries(es[1..]) + rest;
      assert EncodeEntries(es) + rest == EncodeKey(e.key) + (Encode(e.value) + more);
      KeyRead(c, e.key, Encode(e.value) + more);
      ValueRead(c, e.value, more, depth);
      EntriesRead(c, es[1..], rest, depth, Some(e.key));
      FirstFits(c, es, depth);
    }
  }

  lemma {:induction false} FirstFits(c: Config, es: seq<Entry>, depth: nat)
    requires es != []
    ensures es == [es[0]] + es[1..]
    ensures (forall e | e in es :: |e.key| < SIZE_LIMIT && Fits(e.value, depth, c.maxDepth)) <==>
            (&& |es[0].key| < SIZE_LIMIT && Fits(es[0].value, depth, c.maxDepth)
             && forall e | e in es[1..] :: |e.key| < SIZE_LIMIT && Fits(e.value, depth, c.maxDepth))
  {
    hide Fits;
    assert es == [es[0]] + es[1..];
  }

  /** Whatever the grammar accepts, it accepts in its one canonical spelling, and it is well formed. */
  lemma {:induction false} ValueCanonical(c: Config, data: Bytes, depth: nat)
    requires DecodeValue(c, data, depth).Ok?
    ensures var r := DecodeValue(c, data, depth);
            data == Encode(r.value) + r.rest && WellFormed(c.utf8, r.value)
    decreases |data|, 0, 0
  {
    ReadCanonical(data, 0);
    var head, rest := Uleb.Read(data, 0).value, Uleb.Read(data, 0).rest;
    assert data == EncodeTagged(head % 8, head / 8) + rest;
    BodyCanonical(c, head % 8, head % 256, head / 8, rest, depth);
  }

  lemma {:induction false} BodyCanonical(c: Config, tag: nat, low: Byte, val: nat, rest: Bytes, depth: nat)
    requires tag < 8 && low == (8 * val + tag) % 256 && DecodeBody(c, tag, low, val, rest, depth).Ok?
    ensures var r := DecodeBody(c, tag, low, val, rest, depth);
            EncodeTagged(tag, val) + rest == Encode(r.value) + r.rest && WellFormed(c.utf8, r.value)
    decreases |rest|, 2, 0
  {
    hide DecodeItems, DecodeEntries, EncodeItems, EncodeEntries, EncodeTagged, BitLength, DecodeSpecial;
    var r := DecodeBody(c, tag, low, val, rest, depth);
    if tag == TYPE_SPECIAL {
      SpecialCanonical(low, val, rest);
    } else if tag == TYPE_ARR {
      ItemsCanonical(c, rest, val, depth + 1);
      Assoc(EncodeTagged(tag, val), EncodeItems(r.value.items), r.rest);
    } else if tag == TYPE_MAP {
      EntriesCanonical(c, rest, val, depth + 1, None);
      Assoc(EncodeTagged(tag, val), EncodeEntries(r.value.entries), r.rest);
    } else if tag == TYPE_BYTES || tag == TYPE_STR {
      Assoc(EncodeTagged(tag, val), rest[..val], rest[val..]);
      assert rest == rest[..val] + rest[val..];
    }
  }

  lemma {:induction false} SpecialCanonical(low: Byte, val: nat, rest: Bytes)
    requires low == (8 * val) % 256 && DecodeSpecial(low, val, rest).Ok?
    ensures var r := DecodeSpecial(low, val, rest);
            EncodeTagged(TYPE_SPECIAL, val) + rest == Encode(r.value) + r.rest
            && (r.value.Address? ==> |r.value.raw| == ADDRESS_SIZE)
            && (r.value.Null? || r.value.Bool? || r.value.Address?)
  {
    BitLengthBound(val, 5);
    assert Pow2(5) == 32;
    SpecialSpelling(val);
    hide BitLength, EncodeTagged;
    if low == SPECIAL_ADDR {
      assert rest == rest[..ADDRESS_SIZE] + rest[ADDRESS_SIZE..];
    }
  }

  /** The four special headers are single bytes. */
  lemma {:induction false} SpecialSpelling(val: nat)
    ensures val < 16 ==> EncodeTagged(TYPE_SPECIAL, val) == [val * 8]
  {
  }

  lemma {:induction false} ItemsCanonical(c: Config, data: Bytes, count: nat, depth: nat)
    requires DecodeItems(c, data, count, depth).Ok?
    ensures var r := DecodeItems(c, data, count, depth);
            data == EncodeItems(r.value) + r.rest && forall x | x in r.value :: WellFormed(c.utf8, x)
    decreases |data|, 1, count
  {
    hide DecodeValue, Encode, WellFormed;
    if count > 0 {
      var first := DecodeValue(c, data, depth);
      ValueCanonical(c, data, depth);
      ItemsCanonical(c, first.rest, count - 1, depth);
      var others := DecodeItems(c, first.rest, count - 1, depth);
      assert ([first.value] + others.value)[1..] == others.value;
    }
  }

  lemma {:induction false} EntriesCanonical(c: Config, data: Bytes, count: nat, depth: nat, prev: Option<Bytes>)
    requires DecodeEntries(c, data, count, depth, prev).Ok?
    ensures var r := DecodeEntries(c, data, count, depth, prev);
            data == EncodeEntries(r.value) + r.rest && Ascending(r.value)
            && (prev.Some? && r.value != [] ==> Less(prev.value, r.value[0].key))
            && forall e | e in r.value :: c.utf8(e.key) && WellFormed(c.utf8, e.value)
    decreases |data|, 1, count
  {
    hide DecodeValue, DecodeKey, Encode, EncodeKey, WellFormed;
    if count > 0 {
      var key, rest := DecodeKey(c, data).value, DecodeKey(c, data).rest;
      KeyCanonical(c, data);
      var first := DecodeValue(c, rest, depth);
      ValueCanonical(c, rest, depth);
      assert rest == Encode(first.value) + first.rest;
      EntriesCanonical(c, first.rest, count - 1, depth, Some(key));
      var others := DecodeEntries(c, first.rest, count - 1, depth, Some(key));
      EntriesJoin(c, Entry(key, first.value), others.value, others.rest);
    }
  }

  lemma {:induction false} KeyCanonical(c: Config, data: Bytes)
    requires DecodeKey(c, data).Ok?
    ensures var r := DecodeKey(c, data); data == EncodeKey(r.value) + r.rest && c.utf8(r.value)
  {
    ReadCanonical(data, 0);
    var size, rest := Uleb.Read(data, 0).value, Uleb.Read(data, 0).rest;
    hide Uleb.Read, Write;
    KeySplit(Write(size), rest, size);
    assert DecodeKey(c, data) == Ok(rest[..size], rest[size..]);
  }

  lemma {:induction false} KeySplit(head: Bytes, rest: Bytes, size: nat)
    requires size <= |rest|
    ensures head + rest == (head + rest[..size]) + rest[size..]
  {
    assert rest == rest[..size] + rest[size..];
  }

  lemma {:induction false} EntriesJoin(c: Config, e: Entry, es: seq<Entry>, rest: Bytes)
    requires Ascending(es) && (es != [] ==> Less(e.key, es[0].key))
    ensures Ascending([e] + es)
    ensures EncodeEntries([e] + es) + rest == EncodeKey(e.key) + (Encode(e.value) + (EncodeEntries(es) + rest))
  {
    hide Encode, EncodeKey, Less;
    assert ([e] + es)[1..] == es;
    Regroup(EncodeKey(e.key), Encode(e.value), EncodeEntries(es), rest);
  }

  lemma {:induction false} Assoc(a: Bytes, b: Bytes, c: Bytes)
    ensures a + b + c == a + (b + c)
  {
  }

  lemma {:induction false} Regroup(a: Bytes, b: Bytes, c: Bytes, d: Bytes)
    ensures a + b + c + d == a + (b + (c + d))
  {
  }

  /** The early size rejections change no accepted input and accept no further one. */
  lemma {:induction false} EarlyAgrees(c: Config, data: Bytes, depth: nat)
    ensures var r, s := DecodeValue(c.(early := false), data, depth), DecodeValue(c.(early := true), data, depth);
            (r.Ok? <==> s.Ok?) && (r.Ok? ==> r == s)
    decreases |data|, 0, 0
  {
    hide DecodeItems, DecodeEntries, DecodeSpecial, DecodeBlob, BitLength;
    var h := Uleb.Read(data, 0);
    if h.Ok? && h.value % 8 == TYPE_ARR {
      EarlyAgreesItems(c, h.rest, h.value / 8, depth + 1);
    } else if h.Ok? && h.value % 8 == TYPE_MAP {
      EarlyAgreesEntries(c, h.rest, h.value / 8, depth + 1, None);
    }
  }

  lemma {:induction false} EarlyAgreesItems(c: Config, data: Bytes, count: nat, depth: nat)
    ensures var r, s := DecodeItems(c.(early := false), data, count, depth), DecodeItems(c.(early := true), data, count, depth);
            (r.Ok? <==> s.Ok?) && (r.Ok? ==> r == s)
    decreases |data|, 1, count
  {
    if count > 0 {
      EarlyAgrees(c, data, depth);
      var first := DecodeValue(c.(early := false), data, depth);
      if first.Ok? { EarlyAgreesItems(c, first.rest, count - 1, depth); }
    }
  }

  lemma {:induction false} EarlyAgreesEntries(c: Config, data: Bytes, count: nat, depth: nat, prev: Option<Bytes>)
    ensures var r, s := DecodeEntries(c.(early := false), data, count, depth, prev), DecodeEntries(c.(early := true), data, count, depth, prev);
            (r.Ok? <==> s.Ok?) && (r.Ok? ==> r == s)
    decreases |data|, 1, count
  {
    hide DecodeValue;
    if count > 0 {
      var key := DecodeKey(c, data);
      assert key == DecodeKey(c.(early := false), data) == DecodeKey(c.(early := true), data);
      if key.Ok? {
        EarlyAgrees(c, key.rest, depth);
        var first := DecodeValue(c.(early := false), key.rest, depth);
        if first.Ok? { EarlyAgreesEntries(c, first.rest, count - 1, depth, Some(key.value)); }
      }
    }
  }

  /** Round trip of `decode` after `encode`: it succeeds exactly on the values that fit. */
  lemma {:induction false} RoundTrip(c: Config, v: Value)
    requires WellFormed(c.utf8, v)
    ensures Fits(v, 0, c.maxDepth) ==> Decode(c, Encode(v)) == Ok(v, [])
    ensures !Fits(v, 0, c.maxDepth) ==> Decode(c, Encode(v)).Err?
  {
    assert Encode(v) + [] == Encode(v);
    ValueRead(c.(early := false), v, [], 0);
    EarlyAgrees(c, Encode(v), 0);
    assert c == c.(early := false) || c == c.(early := true);
  }

  /** Canonical form: accepted bytes are exactly the encoding of the value they yield. */
  lemma {:induction false} Canonical(c: Config, data: Bytes)
    requires Decode(c, data).Ok?
    ensures Encode(Decode(c, data).value) == data
    ensures WellFormed(c.utf8, Decode(c, data).value) && Fits(Decode(c, data).value, 0, c.maxDepth)
  {
    ValueCanonical(c, data, 0);
    var v := Decode(c, data).value;
    assert data == Encode(v) + [] == Encode(v);
    RoundTrip(c, v);
  }
}
