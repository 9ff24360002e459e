/** fnv1a of backend/authz/policy.go: the 32-bit FNV-1a hash of a text, one byte a character. */
module Fnv {
  const OFFSET_BASIS: nat := 0x811c9dc5
  const PRIME: nat := 0x01000193
  const UINT32: nat := 0x1_0000_0000

  function Xor(a: nat, b: nat): nat
    decreases a + b
  {
    if a == 0 && b == 0 then 0
    else 2 * Xor(a / 2, b / 2) + (if a % 2 == b % 2 then 0 else 1)
  }

  /** One byte of FNV-1a on a 32-bit word. */
  function Mix(h: nat, c: char): nat {
    Xor(h, c as int % 256) * PRIME % UINT32
  }

  function Hash(text: string): nat {
    if text == "" then OFFSET_BASIS else Mix(Hash(text[..|text| - 1]), text[|text| - 1])
  }

  /** fmt.Sprintf("%08x", h). */
  function Hex(h: nat): string {
    PadLeft(Digits16(h), 8)
  }

  function HexDigit(n: nat): char
    requires n < 16
  {
    if n < 10 then ('0' as int + n) as char else ('a' as int + n - 10) as char
  }

  function Digits16(h: nat): string {
    (if h < 16 then "" else Digits16(h / 16)) + [HexDigit(h % 16)]
  }

  function PadLeft(s: string, width: nat): string
    decreases width - |s|
  {
    if |s| >= width then s else PadLeft("0" + s, width)
  }

  /** The version of a text. */
  function Digest(text: string): string {
    Hex(Hash(text))
  }

  method Fnv1a(text: string) returns (version: string)
    ensures version == Digest(text)
    ensures |version| == 8 && IsHex(version)
  {
    var h := OFFSET_BASIS;
    var i := 0;
    while i < |text|
      invariant 0 <= i <= |text|
      invariant h == Hash(text[..i])
    {
      assert text[..i + 1][..i] == text[..i];
      h := Xor(h, text[i] as int % 256);
      h := h * PRIME % UINT32;
      i := i + 1;
    }
    assert text[..|text|] == text;
    version := Hex(h);
    DigestIsEightDigits(text);
  }

  predicate IsHex(s: string) {
    forall i | 0 <= i < |s| :: '0' <= s[i] <= '9' || 'a' <= s[i] <= 'f'
  }

  /** Every round of the hash ends in 32 bits. */
  lemma HashIs32Bits(text: string)
    ensures Hash(text) < UINT32
  {
  }

  function Power16(k: nat): nat {
    if k == 0 then 1 else 16 * Power16(k - 1)
  }

  lemma {:induction false} DigitsFit(h: nat, k: nat)
    requires h < Power16(k) && k > 0
    ensures 1 <= |Digits16(h)| <= k && IsHex(Digits16(h))
  {
    if h >= 16 {
      assert Power16(1) == 16 * Power16(0);
      DigitsFit(h / 16, k - 1);
    }
  }

  lemma {:induction false} PaddedToWidth(s: string, width: nat)
    requires |s| <= width && IsHex(s)
    ensures |PadLeft(s, width)| == width && IsHex(PadLeft(s, width))
    decreases width - |s|
  {
    if |s| < width {
      PaddedToWidth("0" + s, width);
    }
  }

  /** A version is eight lower-case hexadecimal digits, whatever the text. */
  lemma DigestIsEightDigits(text: string)
    ensures |Digest(text)| == 8 && IsHex(Digest(text))
  {
    HashIs32Bits(text);
    DigitsFit(Hash(text), 8);
    PaddedToWidth(Digits16(Hash(text)), 8);
  }
}
