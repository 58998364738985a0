/** Crockford's Base32 as the runner hashes use it: what encoding and decoding mean on numbers, and that they undo each
    other up to one spare digit (executor/crates/sdk-rs/src/gvm32.rs:9-92; runners/genlayer-py-std/src/genlayer/gvm32.py:19-78). */
module Gvm32 {
  import opened Wrappers
  import opened Uleb

  const ALPHABET: string := "0123456789abcdefghjkmnpqrstvwxyz"

  type Digit = d: int | 0 <= d < 32

  datatype DecodeError = InvalidChar(c: char) | NonZeroPadding(bits: nat, value: nat)

  // --- numbers in a base ---

  function Number(base: nat, ds: seq<nat>): nat {
    if ds == [] then 0 else Number(base, ds[..|ds| - 1]) * base + ds[|ds| - 1]
  }

  function Quotient(n: nat, base: nat): (q: nat)
    requires base > 0
  {
    n / base
  }

  function Remainder(n: nat, base: nat): (r: nat)
    requires base > 0
    ensures r < base
  {
    n % base
  }

  lemma {:induction false} QuotientIs(n: nat, base: nat)
    requires base > 0
    ensures n == Quotient(n, base) * base + Remainder(n, base)
  {
  }

  function Places(base: nat, n: nat, len: nat): (ds: seq<nat>)
    requires base > 0
    ensures |ds| == len && forall i | 0 <= i < len :: ds[i] < base
    decreases len
  {
    if len == 0 then [] else Places(base, Quotient(n, base), len - 1) + [Remainder(n, base)]
  }

  lemma {:induction false} NumberAppend(base: nat, ds: seq<nat>, d: nat)
    ensures Number(base, ds + [d]) == Number(base, ds) * base + d
  {
    assert (ds + [d])[..|ds|] == ds;
  }

  /** The digits of a sequence's number are the sequence. */
  lemma {:induction false} PlacesNumber(base: nat, ds: seq<nat>)
    requires base > 0 && forall i | 0 <= i < |ds| :: ds[i] < base
    ensures Places(base, Number(base, ds), |ds|) == ds
  {
    if ds != [] {
      var front, last := ds[..|ds| - 1], ds[|ds| - 1];
      PlacesNumber(base, front);
      Divided(base, Number(base, front), last);
      assert ds == front + [last];
    }
  }

  lemma {:induction false} Divided(base: nat, q: nat, r: nat)
    requires r < base
    ensures Quotient(q * base + r, base) == q && Remainder(q * base + r, base) == r
  {
    hide Quotient, Remainder;
    QuotientIs(q * base + r, base);
    var n := Quotient(q * base + r, base);
    if n < q { LessTimes(n + 1, q, base); }
    if n > q { LessTimes(q + 1, n, base); }
  }

  lemma {:induction false} LessTimes(a: nat, b: nat, c: nat)
    requires a <= b
    ensures a * c <= b * c
  {
  }

  /** A number below base^len is that of its digits. */
  lemma {:induction false} NumberPlaces(bits: nat, n: nat, len: nat)
    requires n < Pow2(bits * len)
    ensures Number(Pow2(bits), Places(Pow2(bits), n, len)) == n
    decreases len
  {
    hide Quotient, Remainder, Pow2;
    if len > 0 {
      var base := Pow2(bits);
      Pow2Times(bits, len - 1);
      Smaller(n, base, Pow2(bits * (len - 1)));
      NumberPlaces(bits, Quotient(n, base), len - 1);
      QuotientIs(n, base);
      NumberAppend(base, Places(base, Quotient(n, base), len - 1), Remainder(n, base));
    } else {
      assert bits * len == 0;
      PowZero();
    }
  }

  lemma {:induction false} PowZero()
    ensures Pow2(0) == 1
  {
  }

  lemma {:induction false} Pow2Times(bits: nat, n: nat)
    ensures Pow2(bits * (n + 1)) == Pow2(bits * n) * Pow2(bits)
  {
    assert bits * (n + 1) == bits * n + bits;
    Pow2Add(bits * n, bits);
  }

  lemma {:induction false} Smaller(n: nat, base: nat, p: nat)
    requires base > 0 && n < p * base
    ensures Quotient(n, base) < p
  {
    hide Quotient, Remainder;
    QuotientIs(n, base);
    if Quotient(n, base) >= p { LessTimes(p, Quotient(n, base), base); }
  }

  lemma {:induction false} Pow2Add(a: nat, b: nat)
    ensures Pow2(a + b) == Pow2(a) * Pow2(b)
  {
    if a > 0 {
      Pow2Add(a - 1, b);
      Reassociate(2, Pow2(a - 1), Pow2(b));
    }
  }

  lemma {:induction false} NumberBound(bits: nat, ds: seq<nat>)
    requires forall i | 0 <= i < |ds| :: ds[i] < Pow2(bits)
    ensures Number(Pow2(bits), ds) < Pow2(bits * |ds|)
  {
    hide Pow2;
    if ds != [] {
      var front, last := ds[..|ds| - 1], ds[|ds| - 1];
      NumberBound(bits, front);
      Pow2Times(bits, |front|);
      OneDigitMore(Number(Pow2(bits), front), Pow2(bits), Pow2(bits * |front|), last);
    } else {
      assert bits * |ds| == 0;
      PowZero();
    }
  }

  lemma {:induction false} OneDigitMore(n: nat, base: nat, p: nat, d: nat)
    requires n < p && d < base
    ensures n * base + d < p * base
  {
    LessTimes(n + 1, p, base);
  }

  // --- what encoding and decoding mean ---

  /** How many digits hold `n` bytes, and how many bits are then spare. */
  function DigitCount(n: nat): nat { (8 * n + 4) / 5 }

  function Spare(n: nat): nat { 5 * DigitCount(n) - 8 * n }

  /** The bytes' number, shifted to fill whole digits, in base 32. */
  function Encode(b: Bytes): (ds: seq<nat>)
    ensures |ds| == DigitCount(|b|) && forall i | 0 <= i < |ds| :: ds[i] < 32
  {
    Places(32, Number(256, b) * Pow2(Spare(|b|)), DigitCount(|b|))
  }

  function ByteCount(n: nat): nat { 5 * n / 8 }

  function Rest(n: nat): nat { 5 * n % 8 }

  /** The digits' number, without the bits left over after the last whole byte, in base 256. */
  function Decode(ds: seq<nat>): Result<Bytes, DecodeError> {
    var left := Rest(|ds|);
    var padding := Remainder(Number(32, ds), Pow2(left));
    if padding != 0 then Failure(NonZeroPadding(left, padding))
    else Success(AsBytes(Places(256, Quotient(Number(32, ds), Pow2(left)), ByteCount(|ds|))))
  }

  function AsBytes(ds: seq<nat>): (b: Bytes)
    requires forall i | 0 <= i < |ds| :: ds[i] < 256
    ensures |b| == |ds| && forall i | 0 <= i < |b| :: b[i] == ds[i]
  {
    seq(|ds|, i requires 0 <= i < |ds| => ds[i])
  }

  lemma {:induction false} Shifted(v: nat, p: nat, q: nat)
    requires q > 0 && v == p * q
    ensures Remainder(v, q) == 0 && Quotient(v, q) == p
  {
    Divided(q, p, 0);
  }

  lemma {:induction false} EncodeNumber(b: Bytes)
    ensures Number(32, Encode(b)) == Number(256, b) * Pow2(Spare(|b|))
  {
    var n, p := Number(256, b), Spare(|b|);
    assert Pow2(8) == 256 && Pow2(5) == 32;
    NumberBound(8, b);
    Pow2Add(8 * |b|, p);
    TimesLess(n, Pow2(8 * |b|), Pow2(p));
    NumberPlaces(5, n * Pow2(p), DigitCount(|b|));
  }

  lemma {:induction false} TimesLess(a: nat, b: nat, c: nat)
    requires a < b && c > 0
    ensures a * c < b * c
  {
  }

  /** Digits whose number is that of the bytes, shifted by the bits left over, decode to the bytes. */
  lemma {:induction false} DecodeShifted(ds: seq<nat>, b: Bytes)
    requires |b| == ByteCount(|ds|) && Number(32, ds) == Number(256, b) * Pow2(Rest(|ds|))
    ensures Decode(ds) == Success(b)
  {
    Shifted(Number(32, ds), Number(256, b), Pow2(Rest(|ds|)));
    PlacesNumber(256, b);
    hide Quotient, Remainder, Number, Pow2, Places, Rest, ByteCount;
    assert AsBytes(b) == b;
  }

  /** Decoding undoes encoding. */
  lemma {:induction false} DecodeEncode(b: Bytes)
    ensures Decode(Encode(b)) == Success(b)
  {
    EncodeNumber(b);
    SameCounts(|b|);
    hide Encode, Decode, Number, Pow2, Rest, ByteCount, DigitCount, Spare;
    DecodeShifted(Encode(b), b);
  }

  lemma {:induction false} SameCounts(n: nat)
    ensures ByteCount(DigitCount(n)) == n && Rest(DigitCount(n)) == Spare(n) < 5
  {
  }

  /** A spare digit fits when the bits left over with it are still less than a byte. */
  predicate RoomForZero(n: nat) { Spare(n) <= 2 }

  /** Digits decode to `b` exactly when they are its encoding, or its encoding and one zero digit that fits. */
  lemma {:induction false} DecodeCanonical(ds: seq<nat>, b: Bytes)
    requires forall i | 0 <= i < |ds| :: ds[i] < 32
    ensures Decode(ds) == Success(b) <==> ds == Encode(b) || (ds == Encode(b) + [0] && RoomForZero(|b|))
  {
    if Decode(ds) == Success(b) { DecodedIs(ds, b); }
    if ds == Encode(b) { DecodeEncode(b); }
    if ds == Encode(b) + [0] && RoomForZero(|b|) { DecodeSpare(b); }
  }

  lemma {:induction false} DecodedNumber(ds: seq<nat>, b: Bytes)
    requires forall i | 0 <= i < |ds| :: ds[i] < 32
    requires Decode(ds) == Success(b)
    ensures |b| == ByteCount(|ds|) && Number(32, ds) == Number(256, b) * Pow2(Rest(|ds|))
  {
    hide Quotient, Remainder;
    var left, v := Rest(|ds|), Number(32, ds);
    QuotientIs(v, Pow2(left));
    assert Pow2(8) == 256 && Pow2(5) == 32;
    NumberBound(5, ds);
    Pow2Add(8 * ByteCount(|ds|), left);
    Smaller(v, Pow2(left), Pow2(8 * ByteCount(|ds|)));
    NumberPlaces(8, Quotient(v, Pow2(left)), ByteCount(|ds|));
    assert b == Places(256, Quotient(v, Pow2(left)), ByteCount(|ds|));
  }

  lemma {:induction false} DecodedIs(ds: seq<nat>, b: Bytes)
    requires forall i | 0 <= i < |ds| :: ds[i] < 32
    requires Decode(ds) == Success(b)
    ensures ds == Encode(b) || (ds == Encode(b) + [0] && RoomForZero(|b|))
  {
    DecodedNumber(ds, b);
    hide Decode, Encode, Number, Pow2, Rest, ByteCount, RoomForZero;
    if Rest(|ds|) < 5 { DecodedWhole(ds, b); } else { DecodedSpare(ds, b); }
  }

  /** Less than a digit is left over: these are the digits of the bytes' number. */
  lemma {:induction false} DecodedWhole(ds: seq<nat>, b: Bytes)
    requires (forall i | 0 <= i < |ds| :: ds[i] < 32) && Rest(|ds|) < 5 && |b| == ByteCount(|ds|)
    requires Number(32, ds) == Number(256, b) * Pow2(Rest(|ds|))
    ensures ds == Encode(b)
  {
    OneLength(|ds|, |b|);
    PlacesNumber(32, ds);
    hide Number, Pow2, Places, Rest, ByteCount, DigitCount, Spare;
  }

  /** A whole digit is left over: it is zero, and the others are the digits of the bytes' number. */
  lemma {:induction false} DecodedSpare(ds: seq<nat>, b: Bytes)
    requires (forall i | 0 <= i < |ds| :: ds[i] < 32) && Rest(|ds|) >= 5 && |b| == ByteCount(|ds|)
    requires Number(32, ds) == Number(256, b) * Pow2(Rest(|ds|))
    ensures ds == Encode(b) + [0] && RoomForZero(|b|)
  {
    SpareLength(|ds|, |b|);
    hide Number, Pow2, Places, Rest, ByteCount, DigitCount, Spare, RoomForZero;
    var front, last := ds[..|ds| - 1], ds[|ds| - 1];
    assert ds == front + [last];
    NumberAppend(32, front, last);
    PowFive(Rest(|ds|));
    LastZero(Number(32, front), last, Number(256, b), Pow2(Rest(|ds|) - 5));
    PlacesNumber(32, front);
  }

  lemma {:induction false} PowFive(k: nat)
    requires k >= 5
    ensures Pow2(k) == Pow2(k - 5) * 32
  {
    Pow2Add(k - 5, 5);
    assert Pow2(5) == 32;
  }

  lemma {:induction false} LastZero(front: nat, last: nat, n: nat, p: nat)
    requires front * 32 + last == n * (p * 32) && last < 32
    ensures last == 0 && front == n * p
  {
    Reassociate(n, p, 32);
    Divided(32, front, last);
    Divided(32, n * p, 0);
  }

  lemma {:induction false} Reassociate(a: nat, b: nat, c: nat)
    ensures a * (b * c) == (a * b) * c
  {
  }

  lemma {:induction false} OneLength(n: nat, m: nat)
    requires m == ByteCount(n) && Rest(n) < 5
    ensures n == DigitCount(m) && Rest(n) == Spare(m)
  {
  }

  lemma {:induction false} SpareLength(n: nat, m: nat)
    requires m == ByteCount(n) && Rest(n) >= 5
    ensures n > 0 && n - 1 == DigitCount(m) && Rest(n) - 5 == Spare(m) && RoomForZero(m)
  {
  }

  lemma {:induction false} DecodeSpare(b: Bytes)
    requires RoomForZero(|b|)
    ensures Decode(Encode(b) + [0]) == Success(b)
  {
    EncodeNumber(b);
    SpareCounts(|b|);
    NumberAppend(32, Encode(b), 0);
    PowFive(Spare(|b|) + 5);
    hide Encode, Decode, Number, Pow2, Rest, ByteCount, DigitCount, Spare, RoomForZero;
    Reassociate(Number(256, b), Pow2(Spare(|b|)), 32);
    DecodeShifted(Encode(b) + [0], b);
  }

  lemma {:induction false} SpareCounts(n: nat)
    requires RoomForZero(n)
    ensures ByteCount(DigitCount(n) + 1) == n && Rest(DigitCount(n) + 1) == Spare(n) + 5
  {
  }

  // --- texts ---

  function Lower(c: char): char {
    if 'A' <= c <= 'Z' then (c as int - 'A' as int + 'a' as int) as char else c
  }

  /** Case folded and aliases replaced. */
  function Fold(c: char): char {
    var l := Lower(c);
    if l == 'o' then '0' else if l == 'i' || l == 'l' then '1' else l
  }

  function Position(c: char, from: nat): Option<Digit>
    requires from <= 32
    decreases 32 - from
  {
    if from == 32 then None else if ALPHABET[from] == c then Some(from) else Position(c, from + 1)
  }

  /** `decode_char` */
  function DigitOf(c: char): Option<Digit> {
    Position(Fold(c), 0)
  }

  lemma {:induction false} PositionOf(c: char, from: nat)
    requires from <= 32
    ensures match Position(c, from) {
              case Some(d) => from <= d && ALPHABET[d] == c
              case None => forall d | from <= d < 32 :: ALPHABET[d] != c
            }
    decreases 32 - from
  {
    if from < 32 && ALPHABET[from] != c { PositionOf(c, from + 1); }
  }

  lemma {:induction false} Ascending()
    ensures |ALPHABET| == 32 && forall i | 0 <= i < 31 :: ALPHABET[i] < ALPHABET[i + 1]
  {
  }

  lemma {:induction false} AscendingAll(i: nat, j: nat)
    requires i < j < 32
    ensures ALPHABET[i] < ALPHABET[j]
    decreases j
  {
    Ascending();
    if i < j - 1 { AscendingAll(i, j - 1); }
  }

  /** Letters of the alphabet are lower case and no aliases. */
  lemma {:induction false} FoldedLetters(d: nat)
    requires d < 32
    ensures Fold(ALPHABET[d]) == ALPHABET[d] && ALPHABET[d] != '-'
  {
  }

  lemma {:induction false} DigitOfLetter(d: Digit)
    ensures DigitOf(ALPHABET[d]) == Some(d)
  {
    FoldedLetters(d);
    PositionOf(ALPHABET[d], 0);
    var p := DigitOf(ALPHABET[d]);
    if p.Some? && p.value < d { AscendingAll(p.value, d); }
    if p.Some? && d < p.value { AscendingAll(d, p.value); }
  }

  datatype Scan = Digits(ds: seq<nat>) | Bad(c: char)

  /** The digits of a text without its dashes, or its first bad character. */
  function ScanText(s: string): Scan {
    if s == "" then Digits([])
    else
      var last := s[|s| - 1];
      match ScanText(s[..|s| - 1])
      case Bad(c) => Bad(c)
      case Digits(ds) =>
        if last == '-' then Digits(ds)
        else
          match DigitOf(last)
          case Some(d) => Digits(ds + [d])
          case None => Bad(last)
  }

  function Text(ds: seq<nat>): string
    requires forall i | 0 <= i < |ds| :: ds[i] < 32
  {
    seq(|ds|, i requires 0 <= i < |ds| => ALPHABET[ds[i]])
  }

  function EncodeText(b: Bytes): string {
    Text(Encode(b))
  }

  function DecodeText(s: string): Result<Bytes, DecodeError> {
    match ScanText(s)
    case Bad(c) => Failure(InvalidChar(c))
    case Digits(ds) => Decode(ds)
  }

  /** A text without its dashes, each character folded. */
  function Folded(s: string): string {
    if s == "" then ""
    else Folded(s[..|s| - 1]) + if s[|s| - 1] == '-' then "" else [Fold(s[|s| - 1])]
  }

  lemma {:induction false} ScanInRange(s: string)
    ensures ScanText(s).Digits? ==> forall i | 0 <= i < |ScanText(s).ds| :: ScanText(s).ds[i] < 32
  {
    hide DigitOf;
    if s != "" {
      ScanInRange(s[..|s| - 1]);
      var last := s[|s| - 1];
      if ScanText(s).Digits? && last != '-' {
        assert ScanText(s).ds == ScanText(s[..|s| - 1]).ds + [DigitOf(last).value];
      }
    }
  }

  lemma {:induction false} DigitFolds(c: char)
    ensures DigitOf(c).Some? ==> ALPHABET[DigitOf(c).value] == Fold(c)
  {
    PositionOf(Fold(c), 0);
  }

  lemma {:induction false} TextAppend(ds: seq<nat>, d: nat)
    requires d < 32 && forall i | 0 <= i < |ds| :: ds[i] < 32
    ensures Text(ds + [d]) == Text(ds) + [ALPHABET[d]]
  {
  }

  /** The digits of a text spell the text without its dashes and folded. */
  lemma {:induction false} ScanDigits(s: string)
    ensures ScanText(s).Digits? ==> forall i | 0 <= i < |ScanText(s).ds| :: ScanText(s).ds[i] < 32
    ensures ScanText(s).Digits? ==> Folded(s) == Text(ScanText(s).ds)
  {
    ScanInRange(s);
    hide DigitOf, Fold, Text;
    if s == "" {
      EmptyText();
    } else {
      var front, last := s[..|s| - 1], s[|s| - 1];
      ScanDigits(front);
      if ScanText(s).Digits? && last != '-' {
        DigitFolds(last);
        var ds, d := ScanText(front).ds, DigitOf(last).value;
        assert ScanText(s).ds == ds + [d];
        TextAppend(ds, d);
      }
    }
  }

  lemma {:induction false} EmptyText()
    ensures Text([]) == ""
  {
  }

  lemma {:induction false} TextLast(ds: seq<nat>)
    requires ds != [] && forall i | 0 <= i < |ds| :: ds[i] < 32
    ensures |Text(ds)| == |ds| && Text(ds)[..|ds| - 1] == Text(ds[..|ds| - 1]) && Text(ds)[|ds| - 1] == ALPHABET[ds[|ds| - 1]]
  {
  }

  lemma {:induction false} ScanOfText(ds: seq<nat>)
    requires forall i | 0 <= i < |ds| :: ds[i] < 32
    ensures ScanText(Text(ds)) == Digits(ds)
  {
    if ds == [] {
      EmptyText();
    } else {
      var front, last := ds[..|ds| - 1], ds[|ds| - 1];
      ScanOfText(front);
      TextLast(ds);
      DigitOfLetter(last);
      FoldedLetters(last);
      hide Text, DigitOf, Fold;
      assert ds == front + [last];
    }
  }

  /** Decoding an encoded text gives the bytes back. */
  lemma {:induction false} RoundTrip(b: Bytes)
    ensures DecodeText(EncodeText(b)) == Success(b)
  {
    ScanOfText(Encode(b));
    DecodeEncode(b);
  }

  /** Folding changes nothing about the digits. */
  lemma {:induction false} FoldedScan(s: string, ds: seq<nat>)
    requires (forall i | 0 <= i < |ds| :: ds[i] < 32) && Folded(s) == Text(ds)
    ensures ScanText(s) == Digits(ds)
    decreases |s|
  {
    hide DigitOf, Fold, Text;
    if s == "" {
      EmptyOnly(ds);
    } else if s[|s| - 1] == '-' {
      FoldedScan(s[..|s| - 1], ds);
    } else {
      FoldedLast(s, ds);
      FoldedScan(s[..|s| - 1], ds[..|ds| - 1]);
      assert ds == ds[..|ds| - 1] + [ds[|ds| - 1]];
    }
  }

  lemma {:induction false} EmptyOnly(ds: seq<nat>)
    requires (forall i | 0 <= i < |ds| :: ds[i] < 32) && Text(ds) == ""
    ensures ds == []
  {
    assert |Text(ds)| == |ds|;
  }

  /** The last character folds to the last digit's letter. */
  lemma {:induction false} FoldedLast(s: string, ds: seq<nat>)
    requires (forall i | 0 <= i < |ds| :: ds[i] < 32) && s != "" && s[|s| - 1] != '-' && Folded(s) == Text(ds)
    ensures ds != [] && Folded(s[..|s| - 1]) == Text(ds[..|ds| - 1]) && DigitOf(s[|s| - 1]) == Some(ds[|ds| - 1])
  {
    hide Fold;
    var front, last := s[..|s| - 1], s[|s| - 1];
    assert Folded(s) == Folded(front) + [Fold(last)];
    assert |Text(ds)| == |ds|;
    TextLast(ds);
    hide Text, Folded, Position;
    var d := ds[|ds| - 1];
    assert Fold(last) == ALPHABET[d];
    DigitOfLetter(d);
    FoldedLetters(d);
  }

  /** A text decodes to `b` exactly when, without dashes and folded, it is `b`'s encoding, followed by at most one zero
      where one fits. */
  lemma {:induction false} Canonical(s: string, b: Bytes)
    ensures DecodeText(s) == Success(b)
       <==> Folded(s) == EncodeText(b) || (Folded(s) == EncodeText(b) + "0" && RoomForZero(|b|))
  {
    ScanDigits(s);
    ZeroDigit(Encode(b));
    if ScanText(s).Digits? {
      DecodeCanonical(ScanText(s).ds, b);
      SameText(ScanText(s).ds, Encode(b));
      SameText(ScanText(s).ds, Encode(b) + [0]);
    }
    if Folded(s) == EncodeText(b) { FoldedScan(s, Encode(b)); }
    if Folded(s) == EncodeText(b) + "0" { FoldedScan(s, Encode(b) + [0]); }
  }

  lemma {:induction false} ZeroDigit(ds: seq<nat>)
    requires forall i | 0 <= i < |ds| :: ds[i] < 32
    ensures Text(ds + [0]) == Text(ds) + "0"
  {
  }

  lemma {:induction false} SameText(a: seq<nat>, b: seq<nat>)
    requires (forall i | 0 <= i < |a| :: a[i] < 32) && forall i | 0 <= i < |b| :: b[i] < 32
    ensures Text(a) == Text(b) <==> a == b
  {
    if Text(a) == Text(b) {
      ScanOfText(a);
      ScanOfText(b);
    }
  }

  /** A hash has one spelling but for dashes, case and aliases. */
  lemma {:induction false} HashesUnique(s: string, b: Bytes)
    requires DecodeText(s) == Success(b) && |b| == 32
    ensures Folded(s) == EncodeText(b)
  {
    hide DecodeText, EncodeText, Folded;
    Canonical(s, b);
  }

  // --- Python's characters ---

  predicate Ascii(c: char) { c as int < 128 }

  /** `str.lower` on one character: as above on ASCII, anything elsewhere. */
  ghost predicate LowersAscii(lower: char -> string) {
    forall c | Ascii(c) :: lower(c) == [Lower(c)]
  }

  /** `_ALPHABET.find(c)` */
  function Find(c: string, from: nat): Option<Digit>
    requires from <= 32
    decreases 32 - from
  {
    if from == 32 || from + |c| > 32 then None
    else if ALPHABET[from..from + |c|] == c then Some(from)
    else Find(c, from + 1)
  }

  /** `_decode_char` */
  function LoweredDigit(lower: char -> string, ch: char): Option<Digit> {
    var c := lower(ch);
    Find(if c == "o" then "0" else if c == "i" || c == "l" then "1" else c, 0)
  }

  /** The text with the letter of its digit for each character, and a bad one for a character without digit. */
  function Plain(lower: char -> string, s: string): (t: string)
    ensures |t| == |s|
  {
    seq(|s|, i requires 0 <= i < |s| => PlainChar(lower, s[i]))
  }

  function PlainChar(lower: char -> string, c: char): char {
    if c == '-' then c
    else
      match LoweredDigit(lower, c)
      case Some(d) => ALPHABET[d]
      case None => '!'
  }

  lemma {:induction false} PlainDigit(lower: char -> string, c: char)
    requires c != '-'
    ensures PlainChar(lower, c) != '-' && DigitOf(PlainChar(lower, c)) == LoweredDigit(lower, c)
  {
    hide Find, LoweredDigit;
    match LoweredDigit(lower, c)
    case Some(d) => DigitOfLetter(d); FoldedLetters(d);
    case None => NoDigit('!');
  }

  lemma {:induction false} NoDigit(c: char)
    requires Fold(c) == c && (c < '0' || !Ascii(c))
    ensures DigitOf(c) == None
  {
    PositionOf(c, 0);
    var p := DigitOf(c);
    if p.Some? { LetterRange(p.value); }
  }

  lemma {:induction false} LetterRange(d: nat)
    requires d < 32
    ensures '0' <= ALPHABET[d] && Ascii(ALPHABET[d])
  {
  }

  lemma {:induction false} FindOne(c: char, from: nat)
    requires from <= 32
    ensures Find([c], from) == Position(c, from)
    decreases 32 - from
  {
    if from < 32 {
      assert ALPHABET[from..from + 1] == [ALPHABET[from]];
      if ALPHABET[from] != c {
        assert ALPHABET[from..from + 1] != [c];
        FindOne(c, from + 1);
      }
    }
  }

  /** On ASCII both languages read the same digit. */
  lemma {:induction false} AsciiDigit(lower: char -> string, c: char)
    requires LowersAscii(lower) && Ascii(c)
    ensures LoweredDigit(lower, c) == DigitOf(c)
  {
    FindOne(Fold(c), 0);
    hide Find, Position;
  }

  /** Whether a text is accepted and with which bytes. */
  function Accepted(r: Result<Bytes, DecodeError>): Option<Bytes> {
    match r case Success(b) => Some(b) case Failure(_) => None
  }

  /** No character outside ASCII has a digit. */
  ghost predicate AsciiOnly(lower: char -> string) {
    forall c | !Ascii(c) :: LoweredDigit(lower, c) == None
  }

  /** The digits of a text, or that it has a bad character. */
  lemma {:induction false} SameScan(lower: char -> string, s: string)
    requires LowersAscii(lower) && AsciiOnly(lower)
    ensures match ScanText(s) { case Digits(ds) => ScanText(Plain(lower, s)) == Digits(ds) case Bad(_) => ScanText(Plain(lower, s)).Bad? }
  {
    hide DigitOf, PlainChar, LoweredDigit, Fold;
    if s != "" {
      var front, last := s[..|s| - 1], s[|s| - 1];
      SameScan(lower, front);
      assert Plain(lower, s)[..|s| - 1] == Plain(lower, front);
      assert Plain(lower, s)[|s| - 1] == PlainChar(lower, last);
      SameDigit(lower, last);
    }
  }

  lemma {:induction false} SameDigit(lower: char -> string, c: char)
    requires LowersAscii(lower) && AsciiOnly(lower)
    ensures if c == '-' then PlainChar(lower, c) == '-' else PlainChar(lower, c) != '-' && DigitOf(PlainChar(lower, c)) == DigitOf(c)
  {
    if c != '-' {
      PlainDigit(lower, c);
      if Ascii(c) { AsciiDigit(lower, c); } else { NoDigit(c); }
    }
  }

  /** Both decoders accept the same texts, with the same bytes, if and only if no character outside ASCII lower-cases to one
      with a digit. */
  lemma {:induction false} SameDecoders(lower: char -> string)
    requires LowersAscii(lower)
    ensures (forall s :: Accepted(DecodeText(Plain(lower, s))) == Accepted(DecodeText(s))) <==> AsciiOnly(lower)
  {
    hide DigitOf, PlainChar, LoweredDigit, Plain, ScanText, Decode;
    if AsciiOnly(lower) {
      forall s ensures Accepted(DecodeText(Plain(lower, s))) == Accepted(DecodeText(s)) { SameScan(lower, s); }
    } else {
      var c :| !Ascii(c) && LoweredDigit(lower, c) != None;
      OnlyLowered(lower, c);
      assert Accepted(DecodeText(Plain(lower, [c, '0']))) != Accepted(DecodeText([c, '0']));
    }
  }

  /** A character outside ASCII that lower-cases to one with a digit: Python accepts it, Rust does not. */
  lemma {:induction false} OnlyLowered(lower: char -> string, c: char)
    requires LowersAscii(lower) && !Ascii(c) && LoweredDigit(lower, c).Some?
    ensures DecodeText(Plain(lower, [c, '0'])).Success? && DecodeText([c, '0']).Failure?
  {
    var d := LoweredDigit(lower, c).value;
    AsciiDigit(lower, '0');
    DigitOfLetter(0);
    FoldedLetters(0);
    NoDigit(c);
    hide LoweredDigit, DigitOf, Fold, Decode, ScanText;
    assert Plain(lower, [c, '0']) == Text([d, 0]);
    ScanOfText([d, 0]);
    TwoDigits(d);
    BadFirst(c, '0');
  }

  lemma {:induction false} BadFirst(c: char, x: char)
    requires c != '-' && DigitOf(c) == None
    ensures ScanText([c, x]) == Bad(c)
  {
    hide DigitOf;
    assert [c, x][..1] == [c] && [c][..0] == "";
    assert ScanText("") == Digits([]);
    assert ScanText([c]) == Bad(c);
  }

  lemma {:induction false} TwoDigits(d: nat)
    requires d < 32
    ensures Decode([d, 0]).Success?
  {
    NumberAppend(32, [d], 0);
    assert [d] + [0] == [d, 0];
    assert Pow2(2) == 4;
    Divided(4, Number(32, [d]) * 8, 0);
  }

  /** The Kelvin sign lower-cases to `k`. */
  lemma {:induction false} KelvinSign(lower: char -> string)
    requires LowersAscii(lower) && lower('\U{212A}') == "k"
    ensures DecodeText(Plain(lower, "\U{212A}0")).Success? && DecodeText("\U{212A}0").Failure?
  {
    KelvinDigit(lower);
    hide LoweredDigit, DecodeText, Plain;
    OnlyLowered(lower, '\U{212A}');
  }

  lemma {:induction false} KelvinDigit(lower: char -> string)
    requires lower('\U{212A}') == "k"
    ensures LoweredDigit(lower, '\U{212A}') == Some(19)
  {
    FindOne('k', 0);
    DigitOfLetter(19);
    FoldedLetters(19);
    hide Find, Position;
  }
}
