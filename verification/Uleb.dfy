/** Unsigned LEB128 numbers as the calldata codec writes and reads them
    (executor/crates/calldata/src/encoder.rs, executor/crates/calldata/src/bin.rs). */
module Uleb {

  type Byte = b: int | 0 <= b < 256
  type Bytes = seq<Byte>

  const U64_MAX: nat := 0xFFFF_FFFF_FFFF_FFFF

  datatype Error =
    | UnterminatedUleb
    | InvalidUlebEncoding
    | NumberTooBig
    | UnexpectedEnd(expected: nat, available: nat)
    | ContainerSizeTooLarge(bits: nat)
    | InvalidSpecialValue(special: Byte)
    | InvalidMapOrdering(prev: Bytes, current: Bytes)
    | InvalidTag(tag: Byte)
    | InvalidUtf8
    | MaxDepthExceeded

  /** A parse either yields a value and the unread input, or fails. */
  datatype Parsed<+T> = Ok(value: T, rest: Bytes) | Err(error: Error)

  /** 2^e, the factor of a left shift by e bits. */
  function Pow2(e: nat): (p: nat)
    ensures p > 0
  {
    if e == 0 then 1 else 2 * Pow2(e - 1)
  }

  /** Number of significant bits of n. */
  function BitLength(n: nat): nat {
    if n == 0 then 0 else 1 + BitLength(n / 2)
  }

  /** The digits of n in base 128, least significant first, with a continuation bit on all but the last. */
  function Write(n: nat): (bs: Bytes)
    ensures |bs| > 0
  {
    if n < 128 then [n] else [128 + n % 128] + Write(n / 128)
  }

  /** Reads one number; `off` is the bit offset of the next digit. */
  function Read(data: Bytes, off: nat): (r: Parsed<nat>)
    ensures r.Ok? ==> |r.rest| < |data|
    decreases |data|
  {
    if data == [] then Err(UnterminatedUleb)
    else if data[0] < 128 then
      if data[0] == 0 && off != 0 then Err(InvalidUlebEncoding) else Ok(data[0], data[1..])
    else if off + 7 > U64_MAX then Err(NumberTooBig)
    else
      match Read(data[1..], off + 7)
      case Ok(n, rest) => Ok(data[0] - 128 + 128 * n, rest)
      case Err(e) => Err(e)
  }

  /** The reader's 64-bit digit offset does not overflow on the digits of n. */
  predicate Readable(n: nat, off: nat) {
    off + 7 * (|Write(n)| - 1) <= U64_MAX
  }

  /** Reading back a written number gives it again, unless its digits overflow the reader's offset. */
  lemma {:induction false} ReadWrite(n: nat, rest: Bytes, off: nat)
    requires off == 0 || n > 0
    requires off <= U64_MAX
    ensures Read(Write(n) + rest, off) == if Readable(n, off) then Ok(n, rest) else Err(NumberTooBig)
  {
    var data := Write(n) + rest;
    if n < 128 {
      assert data[1..] == rest;
    } else {
      assert data[1..] == Write(n / 128) + rest;
      if off + 7 <= U64_MAX {
        ReadWrite(n / 128, rest, off + 7);
      }
    }
  }

  /** Every accepted spelling is the canonical one. */
  lemma {:induction false} ReadCanonical(data: Bytes, off: nat)
    requires Read(data, off).Ok?
    ensures data == Write(Read(data, off).value) + Read(data, off).rest
    ensures off != 0 ==> Read(data, off).value > 0
    decreases |data|
  {
    if data[0] < 128 {
      assert data == [data[0]] + data[1..];
    } else {
      ReadCanonical(data[1..], off + 7);
      var n := Read(data[1..], off + 7).value;
      WriteDigit(data[0], n);
      hide Write;
      assert data == [data[0]] + data[1..];
    }
  }

  lemma {:induction false} WriteDigit(d: Byte, n: nat)
    requires d >= 128 && n > 0
    ensures Write(d - 128 + 128 * n) == [d] + Write(n)
  {
    var v := d - 128 + 128 * n;
    assert v / 128 == n && v % 128 == d - 128;
  }

  lemma {:induction false} BitLengthBound(n: nat, b: nat)
    ensures BitLength(n) > b <==> n >= Pow2(b)
    decreases b
  {
    if n != 0 && b > 0 {
      BitLengthBound(n / 2, b - 1);
    }
  }
}
