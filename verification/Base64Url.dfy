/**
 base64url without padding: section 5 of RFC 4648, as Go's RawURLEncoding reads it.
 A byte is its eight bits and a digit its six, most significant first, so encoding is
 regrouping one bit string.
 */
module Base64Url {
  import opened Strings

  type Bits = seq<bool>
  type Byte = b: Bits | |b| == 8 witness Zeros(8)
  type Sextet = b: Bits | |b| == 6 witness Zeros(6)

  function Zeros(n: nat): Bits {
    seq(n, _ => false)
  }

  function One(bit: bool): nat {
    if bit then 1 else 0
  }

  function Value(b: Sextet): (n: nat)
    ensures n < 64
  {
    32 * One(b[0]) + 16 * One(b[1]) + 8 * One(b[2]) + 4 * One(b[3]) + 2 * One(b[4]) + One(b[5])
  }

  function Digits(n: nat): Sextet {
    [n / 32 % 2 == 1, n / 16 % 2 == 1, n / 8 % 2 == 1, n / 4 % 2 == 1, n / 2 % 2 == 1, n % 2 == 1]
  }

  /** Table 2 of RFC 4648. */
  function CharOf(n: nat): char
    requires n < 64
  {
    if n < 26 then ('A' as int + n) as char
    else if n < 52 then ('a' as int + n - 26) as char
    else if n < 62 then ('0' as int + n - 52) as char
    else if n == 62 then '-'
    else '_'
  }

  function NumberOf(c: char): Option<nat> {
    if 'A' <= c <= 'Z' then Some(c as int - 'A' as int)
    else if 'a' <= c <= 'z' then Some(c as int - 'a' as int + 26)
    else if '0' <= c <= '9' then Some(c as int - '0' as int + 52)
    else if c == '-' then Some(62)
    else if c == '_' then Some(63)
    else None
  }

  function EncodeChar(b: Sextet): char {
    CharOf(Value(b))
  }

  function DecodeChar(c: char): Option<Sextet> {
    match NumberOf(c)
    case None => None
    case Some(n) => Some(Digits(n))
  }

  function Flatten(groups: seq<Bits>): Bits {
    if groups == [] then [] else groups[0] + Flatten(groups[1..])
  }

  /** Groups of six, the last one filled up with zeros. */
  function InSextets(bits: Bits): seq<Sextet> {
    if bits == [] then []
    else if |bits| < 6 then [bits + Zeros(6 - |bits|)]
    else [bits[..6]] + InSextets(bits[6..])
  }

  /** Whole bytes; what is left over is dropped. */
  function InBytes(bits: Bits): seq<Byte> {
    if |bits| < 8 then [] else [bits[..8]] + InBytes(bits[8..])
  }

  function Chars(digits: seq<Sextet>): string {
    seq(|digits|, i requires 0 <= i < |digits| => EncodeChar(digits[i]))
  }

  function Encode(bytes: seq<Byte>): string {
    Chars(InSextets(Flatten(bytes)))
  }

  function DecodeChars(s: string): Option<seq<Sextet>> {
    if s == "" then Some([])
    else match (DecodeChar(s[0]), DecodeChars(s[1..]))
      case (Some(digit), Some(rest)) => Some([digit] + rest)
      case _ => None
  }

  function WithoutLineBreaks(s: string): string {
    if s == "" then ""
    else (if s[0] == '\n' || s[0] == '\r' then "" else [s[0]]) + WithoutLineBreaks(s[1..])
  }

  /** Line breaks are skipped; any other foreign character, or a lone last digit, is an error. */
  function Decode(s: string): Option<seq<Byte>> {
    match DecodeChars(WithoutLineBreaks(s))
    case None => None
    case Some(digits) => if |digits| % 4 == 1 then None else Some(InBytes(Flatten(digits)))
  }

  lemma NumberRoundTrip(n: nat)
    requires n < 64
    ensures NumberOf(CharOf(n)) == Some(n) && CharOf(n) !in {'=', '\n', '\r'}
  {
  }

  lemma DigitsOfValue(b: Sextet)
    ensures Digits(Value(b)) == b
  {
    BitsOfSum(One(b[0]), One(b[1]), One(b[2]), One(b[3]), One(b[4]), One(b[5]));
    var d := Digits(Value(b));
    assert d[0] == b[0] && d[1] == b[1] && d[2] == b[2];
    assert d[3] == b[3] && d[4] == b[4] && d[5] == b[5];
  }

  lemma BitsOfSum(a: nat, b: nat, c: nat, d: nat, e: nat, f: nat)
    requires a <= 1 && b <= 1 && c <= 1 && d <= 1 && e <= 1 && f <= 1
    ensures var n := 32 * a + 16 * b + 8 * c + 4 * d + 2 * e + f;
      n / 32 % 2 == a && n / 16 % 2 == b && n / 8 % 2 == c && n / 4 % 2 == d && n / 2 % 2 == e && n % 2 == f
  {
    var n := 32 * a + 16 * b + 8 * c + 4 * d + 2 * e + f;
    assert n / 32 == a && n / 16 == 2 * a + b && n / 8 == 4 * a + 2 * b + c;
    assert n / 4 == 8 * a + 4 * b + 2 * c + d && n / 2 == 16 * a + 8 * b + 4 * c + 2 * d + e;
  }

  lemma CharRoundTrip(b: Sextet)
    ensures DecodeChar(EncodeChar(b)) == Some(b)
    ensures EncodeChar(b) !in {'=', '\n', '\r'}
  {
    NumberRoundTrip(Value(b));
    DigitsOfValue(b);
  }

  lemma {:induction false} CharsDecode(digits: seq<Sextet>)
    ensures WithoutLineBreaks(Chars(digits)) == Chars(digits)
    ensures DecodeChars(Chars(digits)) == Some(digits)
  {
    if digits == [] {
    } else {
      CharRoundTrip(digits[0]);
      CharsDecode(digits[1..]);
      assert Chars(digits) == [EncodeChar(digits[0])] + Chars(digits[1..]);
      CharsDecodeStep(EncodeChar(digits[0]), digits[0], Chars(digits[1..]), digits[1..]);
      assert digits == [digits[0]] + digits[1..];
    }
  }

  lemma CharsDecodeStep(c: char, b: Sextet, s: string, rest: seq<Sextet>)
    requires DecodeChar(c) == Some(b) && c !in {'=', '\n', '\r'}
    requires WithoutLineBreaks(s) == s && DecodeChars(s) == Some(rest)
    ensures WithoutLineBreaks([c] + s) == [c] + s && DecodeChars([c] + s) == Some([b] + rest)
  {
    assert ([c] + s)[1..] == s;
  }

  lemma {:induction false} SextetsFlatten(bits: Bits) returns (pad: nat)
    ensures Flatten(InSextets(bits)) == bits + Zeros(pad)
    ensures |InSextets(bits)| * 6 == |bits| + pad && pad < 6
  {
    if bits == [] {
      pad := 0;
    } else if |bits| < 6 {
      pad := 6 - |bits|;
      assert InSextets(bits)[1..] == [];
    } else {
      pad := SextetsFlatten(bits[6..]);
      assert InSextets(bits)[1..] == InSextets(bits[6..]);
      assert bits == bits[..6] + bits[6..];
    }
  }

  lemma {:induction false} BytesUnflatten(bytes: seq<Byte>, tail: Bits)
    requires |tail| < 8
    ensures InBytes(Flatten(bytes) + tail) == bytes
    ensures |Flatten(bytes)| == 8 * |bytes|
  {
    if bytes == [] {
      assert [] + tail == tail;
    } else {
      BytesUnflatten(bytes[1..], tail);
      var all := Flatten(bytes) + tail;
      assert all[..8] == bytes[0] && all[8..] == Flatten(bytes[1..]) + tail;
    }
  }

  lemma NothingToTrim(digits: seq<Sextet>)
    ensures TrimRight(Chars(digits), '=') == Chars(digits)
  {
    if digits != [] {
      CharRoundTrip(digits[|digits| - 1]);
    }
  }

  /** Whole bytes never leave a lone digit. */
  lemma NoLoneDigit(bytes: nat, digits: nat, pad: nat)
    requires digits * 6 == 8 * bytes + pad && pad < 6
    ensures digits % 4 != 1
  {
    var q := digits / 4;
    assert 8 * (3 * q - bytes) == pad - 6 * (digits % 4);
  }

  /** What is encoded decodes to itself, also after trailing padding characters are trimmed. */
  lemma RoundTrip(bytes: seq<Byte>)
    ensures Decode(TrimRight(Encode(bytes), '=')) == Some(bytes)
  {
    var bits := Flatten(bytes);
    var digits := InSextets(bits);
    var pad := SextetsFlatten(bits);
    NothingToTrim(digits);
    CharsDecode(digits);
    BytesUnflatten(bytes, Zeros(pad));
    NoLoneDigit(|bytes|, |digits|, pad);
  }
}
