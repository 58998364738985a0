/** The bit-accumulator loops: Rust's with a masked 32-bit accumulator and Python's with an unbounded one
    (executor/crates/sdk-rs/src/gvm32.rs:12-30, 66-92; runners/genlayer-py-std/src/genlayer/gvm32.py:22-78). */
module Gvm32Codec {
  import opened Wrappers
  import opened Uleb
  import opened Gvm32

  const U32_MAX: nat := 0xFFFF_FFFF

  /** `value & ((1 << bits) - 1)` */
  function Mask(value: nat, bits: nat): (r: nat)
    ensures r < Pow2(bits)
  {
    Remainder(value, Pow2(bits))
  }

  /** `(value >> bits) & 0x1f` */
  function FiveBits(value: nat, bits: nat): (d: nat)
    ensures d < 32
  {
    Remainder(Quotient(value, Pow2(bits)), 32)
  }

  /** `(value >> bits) & 0xff` */
  function EightBits(value: nat, bits: nat): (d: nat)
    ensures d < 256
  {
    Remainder(Quotient(value, Pow2(bits)), 256)
  }

  // --- the accumulator ---

  /** The low bits of a sum of which one part is a multiple. */
  lemma {:induction false} MaskSum(q: nat, r: nat, bits: nat)
    requires r < Pow2(bits)
    ensures Mask(q * Pow2(bits) + r, bits) == r && Quotient(q * Pow2(bits) + r, Pow2(bits)) == q
  {
    Divided(Pow2(bits), q, r);
  }

  /** Shifting in `w` bits. */
  lemma {:induction false} ShiftIn(value: nat, bits: nat, w: nat, x: nat)
    requires x < Pow2(w)
    ensures Mask(value * Pow2(w) + x, bits + w) == Mask(value, bits) * Pow2(w) + x
  {
    hide Quotient, Remainder;
    var q, r, p, k := Quotient(value, Pow2(bits)), Mask(value, bits), Pow2(bits), Pow2(w);
    QuotientIs(value, p);
    Pow2Add(bits, w);
    OneDigitMore(r, k, p, x);
    Regroup(q, p, r, k, x);
    MaskSum(q, r * k + x, bits + w);
  }

  lemma {:induction false} Regroup(q: nat, p: nat, r: nat, k: nat, x: nat)
    ensures (q * p + r) * k + x == q * (p * k) + (r * k + x)
  {
    Reassociate(q, p, k);
  }

  /** Taking out the top `w` of `bits + w` bits. */
  lemma {:induction false} TakeOut(value: nat, bits: nat, w: nat)
    ensures Mask(value, bits + w) == Remainder(Quotient(value, Pow2(bits)), Pow2(w)) * Pow2(bits) + Mask(value, bits)
  {
    hide Quotient, Remainder;
    var p, k := Pow2(bits), Pow2(w);
    var q, r := Quotient(value, p), Mask(value, bits);
    QuotientIs(value, p);
    QuotientIs(q, k);
    Pow2Add(w, bits);
    assert bits + w == w + bits;
    var top, d := Quotient(q, k), Remainder(q, k);
    OneDigitMore(d, p, k, r);
    Regroup(top, k, d, p, r);
    MaskSum(top, d * p + r, w + bits);
  }

  // --- encoding ---

  /** `out` digits and the low `bits` bits of `value` hold the bytes so far. */
  ghost predicate Packed(b: Bytes, out: seq<nat>, value: nat, bits: nat) {
    && (forall i | 0 <= i < |out| :: out[i] < 32) && 8 * |b| == 5 * |out| + bits
    && Number(256, b) == Number(32, out) * Pow2(bits) + Mask(value, bits)
  }

  lemma {:induction false} PackStart()
    ensures Packed([], [], 0, 0)
  {
  }

  lemma {:induction false} PackByte(b: Bytes, x: Byte, out: seq<nat>, value: nat, bits: nat)
    requires Packed(b, out, value, bits)
    ensures Packed(b + [x], out, value * 256 + x, bits + 8)
  {
    assert Pow2(8) == 256;
    hide Mask, Pow2;
    NumberAppend(256, b, x);
    ShiftIn(value, bits, 8, x);
    Pow2Add(bits, 8);
    Regroup(Number(32, out), Pow2(bits), Mask(value, bits), 256, x);
  }

  lemma {:induction false} PackDigit(b: Bytes, out: seq<nat>, value: nat, bits: nat)
    requires Packed(b, out, value, bits) && bits >= 5
    ensures Packed(b, out + [FiveBits(value, bits - 5)], value, bits - 5)
  {
    assert Pow2(5) == 32;
    hide Mask, Pow2;
    var d := FiveBits(value, bits - 5);
    TakeOut(value, bits - 5, 5);
    Pow2Add(5, bits - 5);
    assert bits == 5 + (bits - 5);
    NumberAppend(32, out, d);
    Regroup(Number(32, out), 32, d, Pow2(bits - 5), Mask(value, bits - 5));
  }

  lemma {:induction false} PackMask(b: Bytes, out: seq<nat>, value: nat, bits: nat)
    requires Packed(b, out, value, bits)
    ensures Packed(b, out, Mask(value, bits), bits)
  {
    assert 0 * Pow2(bits) + Mask(value, bits) == Mask(value, bits);
    MaskSum(0, Mask(value, bits), bits);
  }

  /** The last bits, shifted up to a digit. */
  function LastDigit(value: nat, bits: nat): (d: nat)
    requires bits <= 5
    ensures d < 32
  {
    Remainder(value * Pow2(5 - bits), 32)
  }

  lemma {:induction false} PackDone(b: Bytes, out: seq<nat>, value: nat, bits: nat)
    requires Packed(b, out, value, bits) && bits < 5
    ensures Encode(b) == if bits == 0 then out else out + [LastDigit(value, bits)]
  {
    assert Pow2(5) == 32 && Pow2(0) == 1;
    hide Pow2;
    PackLength(|b|, |out|, bits);
    if bits == 0 {
      NoSpare(|b|);
      PlacesNumber(32, out);
    } else {
      var d := LastDigit(value, bits);
      ShiftIn(value, bits, 5 - bits, 0);
      assert bits + (5 - bits) == 5;
      assert d == Mask(value, bits) * Pow2(5 - bits);
      Pow2Add(bits, 5 - bits);
      NumberAppend(32, out, d);
      Regroup(Number(32, out), Pow2(bits), Mask(value, bits), Pow2(5 - bits), 0);
      PlacesNumber(32, out + [d]);
      hide Number, Mask, LastDigit, Places;
    }
  }

  lemma {:induction false} NoSpare(n: nat)
    requires Spare(n) == 0
    ensures forall x: nat :: x * Pow2(Spare(n)) == x
  {
  }

  lemma {:induction false} PackLength(n: nat, m: nat, bits: nat)
    requires 8 * n == 5 * m + bits && bits < 5
    ensures DigitCount(n) == if bits == 0 then m else m + 1
    ensures Spare(n) == if bits == 0 then 0 else 5 - bits
  {
  }

  /** gvm32.rs `encode`: the accumulator is masked after each byte, so it fits in 32 bits. */
  method EncodeMasked(b: Bytes) returns (s: string)
    ensures s == EncodeText(b)
  {
    hide Encode, Packed, Mask, FiveBits, LastDigit;
    PackStart();
    var out: seq<nat>, value: nat, bits: nat := [], 0, 0;
    var i := 0;
    while i < |b|
      invariant 0 <= i <= |b| && bits < 5 && value < 16 && Packed(b[..i], out, value, bits)
    {
      PackByte(b[..i], b[i], out, value, bits);
      assert b[..i] + [b[i]] == b[..i + 1];
      value, bits := value * 256 + b[i], bits + 8;
      assert value <= U32_MAX;
      while bits >= 5
        invariant Packed(b[..i + 1], out, value, bits)
      {
        PackDigit(b[..i + 1], out, value, bits);
        bits := bits - 5;
        out := out + [FiveBits(value, bits)];
      }
      PackMask(b[..i + 1], out, value, bits);
      SmallMask(value, bits);
      value := Mask(value, bits);
      i := i + 1;
    }
    assert b[..i] == b;
    PackDone(b, out, value, bits);
    if bits > 0 { out := out + [LastDigit(value, bits)]; }
    s := Text(out);
  }

  lemma {:induction false} SmallMask(value: nat, bits: nat)
    requires bits < 5
    ensures Mask(value, bits) < 16
  {
    assert Pow2(0) == 1 && Pow2(1) == 2 && Pow2(2) == 4 && Pow2(3) == 8 && Pow2(4) == 16;
    hide Pow2;
  }

  /** gvm32.py `encode`: the accumulator keeps all bits. */
  method EncodeUnbounded(b: Bytes) returns (s: string)
    ensures s == EncodeText(b)
  {
    hide Encode, Packed, Mask, FiveBits, LastDigit;
    PackStart();
    var out: seq<nat>, value: nat, bits: nat := [], 0, 0;
    var i := 0;
    while i < |b|
      invariant 0 <= i <= |b| && bits < 5 && Packed(b[..i], out, value, bits)
    {
      PackByte(b[..i], b[i], out, value, bits);
      assert b[..i] + [b[i]] == b[..i + 1];
      value, bits := value * 256 + b[i], bits + 8;
      while bits >= 5
        invariant Packed(b[..i + 1], out, value, bits)
      {
        PackDigit(b[..i + 1], out, value, bits);
        bits := bits - 5;
        out := out + [FiveBits(value, bits)];
      }
      i := i + 1;
    }
    assert b[..i] == b;
    PackDone(b, out, value, bits);
    if bits > 0 { out := out + [LastDigit(value, bits)]; }
    s := Text(out);
  }

  // --- decoding ---

  /** `out` bytes and the low `bits` bits of `value` hold the digits so far. */
  ghost predicate Unpacked(ds: seq<nat>, out: Bytes, value: nat, bits: nat) {
    && 5 * |ds| == 8 * |out| + bits
    && Number(32, ds) == Number(256, out) * Pow2(bits) + Mask(value, bits)
  }

  lemma {:induction false} UnpackStart()
    ensures Unpacked([], [], 0, 0)
  {
  }

  lemma {:induction false} UnpackDigit(ds: seq<nat>, d: nat, out: Bytes, value: nat, bits: nat)
    requires Unpacked(ds, out, value, bits) && d < 32
    ensures Unpacked(ds + [d], out, value * 32 + d, bits + 5)
  {
    assert Pow2(5) == 32;
    hide Mask, Pow2;
    NumberAppend(32, ds, d);
    ShiftIn(value, bits, 5, d);
    Pow2Add(bits, 5);
    Regroup(Number(256, out), Pow2(bits), Mask(value, bits), 32, d);
  }

  lemma {:induction false} UnpackByte(ds: seq<nat>, out: Bytes, value: nat, bits: nat)
    requires Unpacked(ds, out, value, bits) && bits >= 8
    ensures Unpacked(ds, out + [EightBits(value, bits - 8)], value, bits - 8)
  {
    assert Pow2(8) == 256;
    hide Mask, Pow2;
    var x := EightBits(value, bits - 8);
    TakeOut(value, bits - 8, 8);
    Pow2Add(8, bits - 8);
    assert bits == 8 + (bits - 8);
    NumberAppend(256, out, x);
    Regroup(Number(256, out), 256, x, Pow2(bits - 8), Mask(value, bits - 8));
  }

  lemma {:induction false} UnpackMask(ds: seq<nat>, out: Bytes, value: nat, bits: nat)
    requires Unpacked(ds, out, value, bits)
    ensures Unpacked(ds, out, Mask(value, bits), bits) && Mask(Mask(value, bits), bits) == Mask(value, bits)
  {
    assert 0 * Pow2(bits) + Mask(value, bits) == Mask(value, bits);
    MaskSum(0, Mask(value, bits), bits);
  }

  lemma {:induction false} UnpackDone(ds: seq<nat>, out: Bytes, value: nat, bits: nat)
    requires Unpacked(ds, out, value, bits) && bits < 8
    ensures Decode(ds) == if Mask(value, bits) != 0 then Failure(NonZeroPadding(bits, Mask(value, bits))) else Success(out)
  {
    hide Pow2;
    UnpackLength(|ds|, |out|, bits);
    MaskSum(Number(256, out), Mask(value, bits), bits);
    PlacesNumber(256, out);
    assert AsBytes(out) == out;
  }

  lemma {:induction false} UnpackLength(n: nat, m: nat, bits: nat)
    requires 5 * n == 8 * m + bits && bits < 8
    ensures ByteCount(n) == m && Rest(n) == bits
  {
  }

  lemma {:induction false} ScanNext(s: string, i: nat)
    requires i < |s|
    ensures ScanText(s[..i + 1]) == match ScanText(s[..i])
      case Bad(c) => Bad(c)
      case Digits(ds) =>
        if s[i] == '-' then Digits(ds)
        else match DigitOf(s[i]) { case Some(d) => Digits(ds + [d]) case None => Bad(s[i]) }
  {
    assert s[..i + 1][..i] == s[..i];
  }

  lemma {:induction false} ScanBad(s: string, i: nat)
    requires i <= |s| && ScanText(s[..i]).Bad?
    ensures ScanText(s) == ScanText(s[..i])
    decreases |s| - i
  {
    if i < |s| {
      ScanNext(s, i);
      ScanBad(s, i + 1);
    } else {
      assert s[..i] == s;
    }
  }

  /** gvm32.rs `decode`: the accumulator is masked after each byte. */
  method DecodeMasked(s: string) returns (r: Result<Bytes, DecodeError>)
    ensures r == DecodeText(s)
  {
    hide Decode, Unpacked, Mask, EightBits, DigitOf;
    UnpackStart();
    var out: Bytes, value: nat, bits: nat := [], 0, 0;
    ghost var ds: seq<nat> := [];
    var i := 0;
    while i < |s|
      invariant 0 <= i <= |s| && bits < 8 && value < 128 && ScanText(s[..i]) == Digits(ds)
      invariant Unpacked(ds, out, value, bits) && value == Mask(value, bits)
    {
      ScanNext(s, i);
      if s[i] != '-' {
        var digit := DigitOf(s[i]);
        if digit.None? {
          ScanBad(s, i + 1);
          return Failure(InvalidChar(s[i]));
        }
        UnpackDigit(ds, digit.value, out, value, bits);
        ds := ds + [digit.value];
        KeepsMask(value, bits, digit.value);
        value, bits := value * 32 + digit.value, bits + 5;
        assert value <= U32_MAX;
        if bits >= 8 {
          UnpackByte(ds, out, value, bits);
          TopByte(value, bits);
          bits := bits - 8;
          out := out + [EightBits(value, bits)];
          UnpackMask(ds, out, value, bits);
          value := Mask(value, bits);
        }
        SmallValue(value, bits);
      }
      i := i + 1;
    }
    assert s[..i] == s;
    UnpackDone(ds, out, value, bits);
    if value != 0 { return Failure(NonZeroPadding(bits, value)); }
    r := Success(out);
  }

  lemma {:induction false} KeepsMask(value: nat, bits: nat, d: nat)
    requires value == Mask(value, bits) && d < 32
    ensures value * 32 + d == Mask(value * 32 + d, bits + 5)
  {
    assert Pow2(5) == 32;
    ShiftIn(value, bits, 5, d);
  }

  lemma {:induction false} SmallValue(value: nat, bits: nat)
    requires bits < 8 && value == Mask(value, bits)
    ensures value < 128
  {
    assert Pow2(0) == 1 && Pow2(1) == 2 && Pow2(2) == 4 && Pow2(3) == 8 && Pow2(4) == 16 && Pow2(5) == 32 && Pow2(6) == 64 && Pow2(7) == 128;
    hide Pow2;
  }

  /** The cast to a byte cuts nothing off. */
  lemma {:induction false} TopByte(value: nat, bits: nat)
    requires 8 <= bits && value == Mask(value, bits)
    ensures Quotient(value, Pow2(bits - 8)) == EightBits(value, bits - 8)
  {
    assert Pow2(8) == 256;
    hide Pow2, Quotient, Remainder;
    Pow2Add(8, bits - 8);
    assert bits == 8 + (bits - 8);
    Smaller(value, Pow2(bits - 8), 256);
    SmallRemainder(Quotient(value, Pow2(bits - 8)));
  }

  lemma {:induction false} SmallRemainder(x: nat)
    requires x < 256
    ensures Remainder(x, 256) == x
  {
  }

  /** gvm32.py `decode`: the accumulator keeps all bits, and the padding is masked out at the end. A text decodes as the one
      with the letters of its characters' digits does. */
  method DecodeUnbounded(s: string, lower: char -> string) returns (r: Option<Bytes>)
    ensures r == Accepted(DecodeText(Plain(lower, s)))
  {
    hide Decode, Unpacked, Mask, EightBits, DigitOf, LoweredDigit, PlainChar;
    UnpackStart();
    var out: Bytes, value: nat, bits: nat := [], 0, 0;
    ghost var t, ds: seq<nat> := Plain(lower, s), [];
    var i := 0;
    while i < |s|
      invariant 0 <= i <= |s| && bits < 8 && ScanText(t[..i]) == Digits(ds) && Unpacked(ds, out, value, bits)
    {
      ScanNext(t, i);
      PlainDash(lower, s[i]);
      if s[i] != '-' {
        PlainDigit(lower, s[i]);
        var digit := LoweredDigit(lower, s[i]);
        if digit.None? {
          ScanBad(t, i + 1);
          return None;
        }
        UnpackDigit(ds, digit.value, out, value, bits);
        ds := ds + [digit.value];
        value, bits := value * 32 + digit.value, bits + 5;
        if bits >= 8 {
          UnpackByte(ds, out, value, bits);
          bits := bits - 8;
          out := out + [EightBits(value, bits)];
        }
      }
      i := i + 1;
    }
    assert t[..i] == t;
    UnpackDone(ds, out, value, bits);
    if Mask(value, bits) != 0 { return None; }
    r := Some(out);
  }

  lemma {:induction false} PlainDash(lower: char -> string, c: char)
    ensures PlainChar(lower, c) == '-' <==> c == '-'
  {
    if c != '-' { PlainDigit(lower, c); }
  }
}
