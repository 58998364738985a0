/** What each character of a GVM32 text reads as, and which spellings are the same text
    (executor/crates/sdk-rs/src/gvm32.rs:9, 30-43, 64-92; runners/genlayer-py-std/src/genlayer/gvm32.py:19, 40-78). */
module Gvm32Spelling {
  import opened Uleb
  import opened Wrappers
  import opened Gvm32

  /** `c` is the capital of the small letter `l`. */
  predicate CapitalOf(c: char, l: char) {
    'A' <= c <= 'Z' && 'a' <= l <= 'z' && c as int - 'A' as int == l as int - 'a' as int
  }

  /** A letter of the alphabet reads as its place in it, and so does its capital; `o` reads as 0, `i` and `l` as 1. */
  predicate ReadsAs(c: char, d: nat) {
    d < 32
    && (|| c == "0123456789abcdefghjkmnpqrstvwxyz"[d]
        || CapitalOf(c, "0123456789abcdefghjkmnpqrstvwxyz"[d])
        || (d == 0 && (c == 'o' || c == 'O'))
        || (d == 1 && (c == 'i' || c == 'I' || c == 'l' || c == 'L')))
  }

  /** Every character reads as this and nothing else. */
  lemma {:induction false} ReadsExactly(c: char, d: nat)
    ensures (d < 32 && DigitOf(c) == Some(d)) <==> ReadsAs(c, d)
  {
    PositionOf(Fold(c), 0);
    if d < 32 {
      FoldsTo(c, d);
      if DigitOf(c).Some? && DigitOf(c).value != d { OtherLetter(d, DigitOf(c).value); }
    }
    hide Fold, Position;
  }

  lemma {:induction false} OtherLetter(d: nat, e: nat)
    requires d < 32 && e < 32 && d != e
    ensures ALPHABET[d] != ALPHABET[e]
  {
    if d < e { AscendingAll(d, e); } else { AscendingAll(e, d); }
  }

  lemma {:induction false} FoldsTo(c: char, d: nat)
    requires d < 32
    ensures Fold(c) == ALPHABET[d] <==> ReadsAs(c, d)
  {
    FoldedLetters(d);
    LetterKinds(d);
    if d != 0 { OtherLetter(d, 0); }
    if d != 1 { OtherLetter(d, 1); }
  }

  lemma {:induction false} LetterKinds(d: nat)
    requires d < 32
    ensures ALPHABET[0] == '0' && ALPHABET[1] == '1' && ALPHABET[d] == "0123456789abcdefghjkmnpqrstvwxyz"[d]
    ensures '0' <= ALPHABET[d] <= '9' || 'a' <= ALPHABET[d] <= 'z'
    ensures ALPHABET[d] != 'o' && ALPHABET[d] != 'i' && ALPHABET[d] != 'l'
  {
  }

  /** The same for the Python reader on ASCII. */
  lemma {:induction false} PythonReadsExactly(lower: char -> string, c: char, d: nat)
    requires LowersAscii(lower) && Ascii(c)
    ensures (d < 32 && LoweredDigit(lower, c) == Some(d)) <==> ReadsAs(c, d)
  {
    AsciiDigit(lower, c);
    ReadsExactly(c, d);
    hide DigitOf, LoweredDigit;
  }

  // --- spellings of the same text ---

  /** The same character, or two that read as the same digit. */
  ghost predicate SameReading(a: char, b: char) {
    a == b || exists d :: ReadsAs(a, d) && ReadsAs(b, d)
  }

  lemma {:induction false} SameDigitRead(a: char, b: char)
    requires SameReading(a, b)
    ensures DigitOf(a) == DigitOf(b) && (a == '-' <==> b == '-') && (DigitOf(a).None? ==> a == b)
  {
    if a != b {
      var d :| ReadsAs(a, d) && ReadsAs(b, d);
      ReadsExactly(a, d);
      ReadsExactly(b, d);
      LetterKinds(d);
      hide DigitOf;
    }
  }

  lemma {:induction false} SameReadings(s: string, t: string)
    requires |s| == |t| && forall i | 0 <= i < |s| :: SameReading(s[i], t[i])
    ensures ScanText(s) == ScanText(t)
  {
    hide DigitOf, SameReading;
    if s != "" {
      SameReadings(s[..|s| - 1], t[..|t| - 1]);
      SameDigitRead(s[|s| - 1], t[|t| - 1]);
    }
  }

  /** Texts that differ only in such spellings decode to the same. */
  lemma {:induction false} Respelled(s: string, t: string)
    requires |s| == |t| && forall i | 0 <= i < |s| :: SameReading(s[i], t[i])
    ensures DecodeText(s) == DecodeText(t)
  {
    SameReadings(s, t);
    hide ScanText;
  }

  lemma {:induction false} ScanDash(s: string, i: nat)
    requires i < |s| && s[i] == '-'
    ensures ScanText(s[..i] + s[i + 1..]) == ScanText(s)
    decreases |s|
  {
    hide DigitOf;
    var last := |s| - 1;
    if i == last {
      assert s[..i] + s[i + 1..] == s[..last];
    } else {
      ScanDash(s[..last], i);
      assert (s[..i] + s[i + 1..])[..last - 1] == s[..last][..i] + s[..last][i + 1..];
    }
  }

  /** A dash anywhere makes no difference. */
  lemma {:induction false} DashIgnored(s: string, i: nat)
    requires i < |s| && s[i] == '-'
    ensures DecodeText(s[..i] + s[i + 1..]) == DecodeText(s)
  {
    ScanDash(s, i);
    hide ScanText;
  }

  /** The digits of a text are what its characters read as, in order, without the dashes. */
  lemma {:induction false} ScanAppends(s: string, c: char, d: nat)
    requires ReadsAs(c, d)
    ensures ScanText(s).Digits? ==> ScanText(s + [c]) == Digits(ScanText(s).ds + [d])
  {
    ReadsExactly(c, d);
    LetterKinds(d);
    hide DigitOf;
    assert (s + [c])[..|s|] == s;
  }

  lemma {:induction false} AliasDigits()
    ensures ScanText("ow") == Digits([0, 28])
  {
    hide ScanText, ReadsAs;
    ReadsLetters();
    ScanEmpty();
    ScanAppends("", 'o', 0);
    ScanAppends("o", 'w', 28);
    assert "" + ['o'] == "o" && "o" + ['w'] == "ow" && [] + [0 as nat] == [0] && [0 as nat] + [28] == [0, 28];
  }

  lemma {:induction false} ScanEmpty()
    ensures ScanText("") == Digits([])
  {
  }

  lemma {:induction false} ReadsLetters()
    ensures ReadsAs('0', 0) && ReadsAs('o', 0) && ReadsAs('O', 0) && ReadsAs('w', 28) && ReadsAs('W', 28)
  {
  }

  /** "ow", "0W" and "O-w" are the byte 7. */
  lemma {:induction false} AliasExample()
    ensures DecodeText("ow") == Success([7]) && DecodeText("0W") == Success([7]) && DecodeText("O-w") == Success([7])
  {
    AliasDigits();
    DecodeSeven();
    ReadsLetters();
    hide ScanText, ReadsAs, Decode;
    assert SameReading('o', '0') && SameReading('w', 'W') && SameReading('o', 'O') && SameReading('w', 'w');
    hide SameReading;
    Respelled("ow", "0W");
    Respelled("ow", "Ow");
    assert "O-w"[..1] + "O-w"[2..] == "Ow";
    DashIgnored("O-w", 1);
  }

  lemma {:induction false} DecodeSeven()
    ensures Decode([0, 28]) == Success([7])
  {
    NumberAppend(32, [], 0);
    NumberAppend(32, [0], 28);
    assert [] + [0 as nat] == [0] && [0 as nat] + [28] == [0, 28];
    NumberAppend(256, [], 7);
    assert [] + [7 as Byte] == [7];
    assert Pow2(2) == 4;
    DecodeShifted([0, 28], [7]);
  }
}
