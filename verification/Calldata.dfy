/** Calldata values and their canonical encoding, by structural recursion
    (executor/crates/calldata/src/types.rs, consts.rs, bin.rs, encoder.rs). */
module Calldata {
  import opened Uleb

  const ADDRESS_SIZE: nat := 20
  const BITS_IN_SIZE: nat := 32

  const TYPE_SPECIAL: nat := 0
  const TYPE_PINT: nat := 1
  const TYPE_NINT: nat := 2
  const TYPE_BYTES: nat := 3
  const TYPE_STR: nat := 4
  const TYPE_ARR: nat := 5
  const TYPE_MAP: nat := 6

  const SPECIAL_NULL: Byte := 0
  const SPECIAL_FALSE: Byte := 8
  const SPECIAL_TRUE: Byte := 16
  const SPECIAL_ADDR: Byte := 24

  datatype Entry = Entry(key: Bytes, value: Value)

  /** Strings are kept as their UTF-8 bytes; a map is the sequence of entries that iterating it yields. */
  datatype Value =
    | Null
    | Bool(b: bool)
    | Address(raw: Bytes)
    | Str(utf8: Bytes)
    | Blob(data: Bytes)
    | Number(n: int)
    | Array(items: seq<Value>)
    | Map(entries: seq<Entry>)

  /** The byte order of strings. */
  predicate Less(a: Bytes, b: Bytes) {
    b != [] && (a == [] || a[0] < b[0] || (a[0] == b[0] && Less(a[1..], b[1..])))
  }

  lemma {:induction false} LessIrreflexive(a: Bytes)
    ensures !Less(a, a)
  {
    if a != [] { LessIrreflexive(a[1..]); }
  }

  lemma {:induction false} LessTransitive(a: Bytes, b: Bytes, c: Bytes)
    requires Less(a, b) && Less(b, c)
    ensures Less(a, c)
  {
    if a != [] && a[0] == b[0] == c[0] { LessTransitive(a[1..], b[1..], c[1..]); }
  }

  /** Keys strictly ascend, as in any BTreeMap. */
  predicate Ascending(es: seq<Entry>) {
    forall i :: 0 < i < |es| ==> Less(es[i - 1].key, es[i].key)
  }

  /** What every Rust `Value` satisfies by its type: address width, UTF-8 strings, ordered map keys. */
  predicate WellFormed(utf8: Bytes -> bool, v: Value) {
    match v
    case Address(raw) => |raw| == ADDRESS_SIZE
    case Str(s) => utf8(s)
    case Array(items) => forall x | x in items :: WellFormed(utf8, x)
    case Map(es) => Ascending(es) && forall e | e in es :: utf8(e.key) && WellFormed(utf8, e.value)
    case _ => true
  }

  /** A number with a type tag in its low three bits. */
  function EncodeTagged(tag: nat, n: nat): Bytes
    requires tag < 8
  {
    Uleb.Write(n * 8 + tag)
  }

  function EncodeNumber(n: int): Bytes {
    if n < 0 then EncodeTagged(TYPE_NINT, -n - 1) else EncodeTagged(TYPE_PINT, n)
  }

  function EncodeKey(key: Bytes): Bytes {
    Uleb.Write(|key|) + key
  }

  function Encode(v: Value): (bs: Bytes)
    ensures |bs| > 0
    decreases v, 0
  {
    match v
    case Null => [SPECIAL_NULL]
    case Bool(b) => [if b then SPECIAL_TRUE else SPECIAL_FALSE]
    case Address(raw) => [SPECIAL_ADDR] + raw
    case Str(s) => EncodeTagged(TYPE_STR, |s|) + s
    case Blob(d) => EncodeTagged(TYPE_BYTES, |d|) + d
    case Number(n) => EncodeNumber(n)
    case Array(items) => EncodeTagged(TYPE_ARR, |items|) + EncodeItems(items)
    case Map(es) => EncodeTagged(TYPE_MAP, |es|) + EncodeEntries(es)
  }

  function EncodeItems(items: seq<Value>): Bytes
    decreases items, 1
  {
    if items == [] then [] else Encode(items[0]) + EncodeItems(items[1..])
  }

  function EncodeEntries(es: seq<Entry>): Bytes
    decreases es, 1
  {
    if es == [] then [] else EncodeKey(es[0].key) + Encode(es[0].value) + EncodeEntries(es[1..])
  }
}
