/** Strings as sequences of code points: UTF-8, white space, letter case, decimal and hexadecimal numerals. */
module Text {
  import opened Wrappers
  import opened Numerals
  import opened Bytes

  // ----- UTF-8 -----

  /** Six bits at a time: one lead byte, then continuation bytes 10xxxxxx. */
  function EncodeChar(c: char): (bs: ByteString)
    ensures bs != []
  {
    var n := c as int;
    if n < 0x80 then [n]
    else if n < 0x800 then [0xC0 + n / 0x40, 0x80 + n % 0x40]
    else if n < 0x1_0000 then [0xE0 + n / 0x40 / 0x40, 0x80 + n / 0x40 % 0x40, 0x80 + n % 0x40]
    else [0xF0 + n / 0x40 / 0x40 / 0x40, 0x80 + n / 0x40 / 0x40 % 0x40, 0x80 + n / 0x40 % 0x40, 0x80 + n % 0x40]
  }

  function EncodeChars(s: string): seq<ByteString> {
    seq(|s|, i requires 0 <= i < |s| => EncodeChar(s[i]))
  }

  function Flatten(bss: seq<ByteString>): ByteString {
    if bss == [] then [] else bss[0] + Flatten(bss[1..])
  }

  /** []byte(s) for a string s of code points. */
  function Utf8(s: string): ByteString {
    Flatten(EncodeChars(s))
  }

  lemma EncodeCharInjective(c: char, d: char)
    requires EncodeChar(c) == EncodeChar(d)
    ensures c == d
  {
    var x, y, n, m := EncodeChar(c), EncodeChar(d), c as int, d as int;
    assert |x| == |y|;
    assert forall i :: 0 <= i < |x| ==> x[i] == y[i];
    if |x| == 4 {
      assert x[0] == y[0] && x[1] == y[1] && x[2] == y[2] && x[3] == y[3];
      SixBits(n / 0x40 / 0x40, m / 0x40 / 0x40);
    }
    if |x| >= 3 {
      SixBits(n / 0x40, m / 0x40);
    }
    if |x| >= 2 {
      SixBits(n, m);
    }
  }

  lemma SixBits(n: nat, m: nat)
    requires n / 0x40 == m / 0x40 && n % 0x40 == m % 0x40
    ensures n == m
  {
  }

  /** The first byte tells how many follow. */
  lemma LeadByteLength(c: char, d: char)
    requires EncodeChar(c)[0] == EncodeChar(d)[0]
    ensures |EncodeChar(c)| == |EncodeChar(d)|
  {
  }

  /** UTF-8 is a prefix code: the bytes of one character are never the start of those of another. */
  lemma EncodeCharPrefix(c: char, d: char, xs: ByteString, ys: ByteString)
    requires EncodeChar(c) + xs == EncodeChar(d) + ys
    ensures c == d && xs == ys
  {
    var x, y := EncodeChar(c), EncodeChar(d);
    var z, w := x + xs, y + ys;
    assert z[0] == x[0] && w[0] == y[0];
    LeadByteLength(c, d);
    assert x == z[..|x|] && y == w[..|y|];
    assert xs == z[|x|..] && ys == w[|y|..];
    EncodeCharInjective(c, d);
  }

  lemma {:induction false} Utf8Injective(s: string, t: string)
    requires Utf8(s) == Utf8(t)
    ensures s == t
  {
    if s != "" && t != "" {
      assert EncodeChars(s)[1..] == EncodeChars(s[1..]) && EncodeChars(t)[1..] == EncodeChars(t[1..]);
      EncodeCharPrefix(s[0], t[0], Utf8(s[1..]), Utf8(t[1..]));
      Utf8Injective(s[1..], t[1..]);
      assert s == [s[0]] + s[1..] && t == [t[0]] + t[1..];
    } else {
      Utf8Nonempty(s);
      Utf8Nonempty(t);
    }
  }

  lemma Utf8Nonempty(s: string)
    ensures Utf8(s) == [] <==> s == ""
  {
    if s != "" {
      assert EncodeChars(s)[0] == EncodeChar(s[0]);
    }
  }

  // ----- Lists -----

  /** The items with commas between them, up to a closing parenthesis. */
  function Listed(items: seq<string>): string {
    if items == [] then ")" else if |items| == 1 then items[0] + ")" else items[0] + ("," + Listed(items[1..]))
  }

  lemma ListedCons(item: string, items: seq<string>)
    requires items != []
    ensures Listed([item] + items) == item + ("," + Listed(items))
  {
    assert ([item] + items)[1..] == items;
  }

  // ----- White space and letter case -----

  /** unicode.IsSpace */
  predicate IsSpace(c: char) {
    var n := c as int;
    9 <= n <= 13 || n == 0x20 || n == 0x85 || n == 0xA0 || n == 0x1680 || 0x2000 <= n <= 0x200A
    || n == 0x2028 || n == 0x2029 || n == 0x202F || n == 0x205F || n == 0x3000
  }

  function TrimLeft(s: string): string {
    if s != "" && IsSpace(s[0]) then TrimLeft(s[1..]) else s
  }

  function TrimRight(s: string): string {
    if s != "" && IsSpace(s[|s| - 1]) then TrimRight(s[..|s| - 1]) else s
  }

  /** strings.TrimSpace */
  function TrimSpace(s: string): string {
    TrimRight(TrimLeft(s))
  }

  predicate Trimmed(s: string) {
    s == "" || (!IsSpace(s[0]) && !IsSpace(s[|s| - 1]))
  }

  lemma {:induction false} TrimRightKeepsFirst(s: string)
    requires s == "" || !IsSpace(s[0])
    ensures Trimmed(TrimRight(s))
  {
    if s != "" && IsSpace(s[|s| - 1]) {
      TrimRightKeepsFirst(s[..|s| - 1]);
    }
  }

  lemma {:induction false} TrimLeftDropsFirst(s: string)
    ensures TrimLeft(s) == "" || !IsSpace(TrimLeft(s)[0])
  {
    if s != "" && IsSpace(s[0]) {
      TrimLeftDropsFirst(s[1..]);
    }
  }

  /** Trimming changes exactly the texts with outer white space, and a second time nothing. */
  lemma TrimSpaceFixed(s: string)
    ensures Trimmed(TrimSpace(s))
    ensures TrimSpace(s) == s <==> Trimmed(s)
    ensures TrimSpace(TrimSpace(s)) == TrimSpace(s)
  {
    TrimLeftDropsFirst(s);
    TrimRightKeepsFirst(TrimLeft(s));
  }

  function LowerChar(c: char): char {
    if 'A' <= c <= 'Z' then (c as int + 32) as char else c
  }

  /** strings.ToLower on ASCII text. */
  function Lower(s: string): string {
    seq(|s|, i requires 0 <= i < |s| => LowerChar(s[i]))
  }

  lemma LowerIndex(s: string, i: nat)
    requires i < |s|
    ensures Lower(s)[i] == LowerChar(s[i])
  {
  }

  // ----- Digits -----

  /** What a character is worth as a digit; 99 is not a digit in any base in use. */
  function CharValue(c: char): nat {
    if '0' <= c <= '9' then c as int - '0' as int
    else if 'a' <= c <= 'f' then c as int - 'a' as int + 10
    else if 'A' <= c <= 'F' then c as int - 'A' as int + 10
    else 99
  }

  function DigitChar(d: nat): char
    requires d < 16
  {
    if d < 10 then (d + '0' as int) as char else (d - 10 + 'a' as int) as char
  }

  function CharValues(s: string): seq<nat> {
    seq(|s|, i requires 0 <= i < |s| => CharValue(s[i]))
  }

  /** Every character is a digit of the base. */
  predicate AllDigits(s: string, b: nat) {
    forall i :: 0 <= i < |s| ==> CharValue(s[i]) < b
  }

  predicate IsNumeral(s: string, b: nat) {
    s != "" && AllDigits(s, b)
  }

  function NumeralValue(s: string, b: nat): nat {
    Value(b, CharValues(s))
  }

  lemma NumeralValueConcat(s: string, t: string, b: nat)
    ensures NumeralValue(s + t, b) == NumeralValue(s, b) * Pow(b, |t|) + NumeralValue(t, b)
  {
    assert CharValues(s + t) == CharValues(s) + CharValues(t);
    ValueConcat(b, CharValues(s), CharValues(t));
  }

  /** "0" repeated k times. */
  function RepeatZero(k: nat): string {
    seq(k, i => '0')
  }

  lemma NumeralValueOfZeros(k: nat, b: nat)
    ensures NumeralValue(RepeatZero(k), b) == 0
  {
    assert CharValues(RepeatZero(k)) == Zeros(k);
    ValueOfZeros(b, k);
  }

  /** big.Int.SetString for an explicit base: an optional sign, then at least one digit, and nothing else. */
  function SetString(s: string, b: nat): (r: Option<int>) {
    var sign: int := if s != "" && s[0] == '-' then -1 else 1;
    var digits := if s != "" && (s[0] == '-' || s[0] == '+') then s[1..] else s;
    if IsNumeral(digits, b) then Some(sign * NumeralValue(digits, b)) else None
  }

  // ----- Printing in decimal -----

  function ShowNat(n: nat): string {
    if n < 10 then [DigitChar(n)] else ShowNat(n / 10) + [DigitChar(n % 10)]
  }

  /** big.Int.String */
  function Show(n: int): string {
    if n < 0 then "-" + ShowNat(-n) else ShowNat(n)
  }

  lemma {:induction false} ShowNatValue(n: nat)
    ensures IsNumeral(ShowNat(n), 10)
    ensures NumeralValue(ShowNat(n), 10) == n
    ensures ShowNat(n)[0] == '0' ==> ShowNat(n) == "0"
  {
    if n >= 10 {
      ShowNatValue(n / 10);
      var init := ShowNat(n / 10);
      assert CharValues(ShowNat(n))[..|init|] == CharValues(init);
      assert init != "0";
    } else {
      assert CharValues(ShowNat(n)) == [n];
      ValueOfOne(10, n);
    }
  }

  /** Printing and reading an integer gives it back. */
  lemma SetStringOfShow(n: int)
    ensures SetString(Show(n), 10) == Some(n)
  {
    ShowNatValue(if n < 0 then -n else n);
    if n < 0 {
      assert Show(n)[1..] == ShowNat(-n);
    }
  }

  lemma ShowIsTrimmed(n: int)
    ensures Trimmed(Show(n)) && Show(n) != ""
    ensures Show(n)[0] == '-' || CharValue(Show(n)[0]) < 10
    ensures |Show(n)| >= 2 ==> Show(n)[1] != 'x' && Show(n)[1] != 'X'
  {
    var m := if n < 0 then -n else n;
    ShowNatValue(m);
    assert CharValue(ShowNat(m)[|ShowNat(m)| - 1]) < 10;
    assert CharValue(ShowNat(m)[0]) < 10;
  }

  /** A numeral without its leading zeros, of which one digit stays. */
  function StripLeadingZeros(s: string): string {
    if |s| > 1 && s[0] == '0' then StripLeadingZeros(s[1..]) else s
  }

  lemma LeadingDigitCounts(s: string)
    requires IsNumeral(s, 10) && s[0] != '0'
    ensures NumeralValue(s, 10) > 0
  {
    var head, rest := s[..1], s[1..];
    assert s == head + rest;
    NumeralValueConcat(head, rest, 10);
    assert CharValues(head) == [CharValue(s[0])];
    ValueOfOne(10, CharValue(s[0]));
    assert NumeralValue(head, 10) == CharValue(s[0]) > 0;
    PowPositive(10, |rest|);
    MulMonotone(1, NumeralValue(head, 10), Pow(10, |rest|));
  }

  lemma {:induction false} ShowNatOfCanonical(s: string)
    requires IsNumeral(s, 10) && (|s| == 1 || s[0] != '0')
    ensures ShowNat(NumeralValue(s, 10)) == s
  {
    var init, last := s[..|s| - 1], s[|s| - 1];
    assert CharValues(s)[..|s| - 1] == CharValues(init);
    assert NumeralValue(s, 10) == NumeralValue(init, 10) * 10 + CharValue(last);
    if |s| > 1 {
      LeadingDigitCounts(init);
      ShowNatOfCanonical(init);
      assert s == init + [last];
    }
  }

  /** Reading a numeral and printing it removes its leading zeros. */
  lemma {:induction false} ShowNatOfNumeral(s: string)
    requires IsNumeral(s, 10)
    ensures ShowNat(NumeralValue(s, 10)) == StripLeadingZeros(s)
  {
    if |s| > 1 && s[0] == '0' {
      assert s == RepeatZero(1) + s[1..];
      NumeralValueConcat(RepeatZero(1), s[1..], 10);
      NumeralValueOfZeros(1, 10);
      ShowNatOfNumeral(s[1..]);
    } else {
      ShowNatOfCanonical(s);
    }
  }

  // ----- Hexadecimal -----

  /** hex.EncodeToString */
  function HexEncode(bs: ByteString): (s: string)
    ensures |s| == 2 * |bs|
  {
    if bs == [] then "" else [DigitChar(bs[0] / 16), DigitChar(bs[0] % 16)] + HexEncode(bs[1..])
  }

  /** The bytes that hex.DecodeString has decoded when it stops, at the end or at the first bad pair. */
  function HexPrefix(s: string): ByteString {
    if |s| < 2 || CharValue(s[0]) >= 16 || CharValue(s[1]) >= 16 then []
    else [16 * CharValue(s[0]) + CharValue(s[1])] + HexPrefix(s[2..])
  }

  /** hex.DecodeString */
  function HexDecode(s: string): Option<ByteString> {
    if |s| % 2 == 0 && AllDigits(s, 16) then Some(HexPrefix(s)) else None
  }

  lemma {:induction false} HexPrefixLength(s: string)
    requires AllDigits(s, 16)
    ensures |HexPrefix(s)| == |s| / 2
  {
    if |s| >= 2 {
      HexPrefixLength(s[2..]);
    }
  }

  /** Letter case does not matter to the decoder. */
  lemma {:induction false} HexPrefixFold(s: string, t: string)
    requires Lower(s) == Lower(t)
    ensures HexPrefix(s) == HexPrefix(t)
  {
    assert |s| == |Lower(s)| == |t|;
    if |s| >= 2 {
      LowerIndex(s, 0);
      LowerIndex(t, 0);
      LowerIndex(s, 1);
      LowerIndex(t, 1);
      LowerTail(s, 2);
      LowerTail(t, 2);
      HexPrefixFold(s[2..], t[2..]);
    }
  }

  lemma LowerTail(s: string, k: nat)
    requires k <= |s|
    ensures Lower(s[k..]) == Lower(s)[k..]
  {
  }

  lemma AllDigitsFold(s: string, t: string, b: nat)
    requires Lower(s) == Lower(t)
    ensures AllDigits(s, b) == AllDigits(t, b)
  {
    assert |s| == |Lower(s)| == |t|;
    forall i | 0 <= i < |s|
      ensures CharValue(s[i]) == CharValue(t[i])
    {
      LowerIndex(s, i);
      LowerIndex(t, i);
    }
  }

  lemma {:induction false} HexPrefixOfEncode(bs: ByteString)
    ensures AllDigits(HexEncode(bs), 16)
    ensures HexPrefix(HexEncode(bs)) == bs
  {
    if bs != [] {
      HexPrefixOfEncode(bs[1..]);
      assert HexEncode(bs)[2..] == HexEncode(bs[1..]);
      assert bs == [bs[0]] + bs[1..];
    }
  }

  /** Any letter case of the printed bytes decodes to the bytes. */
  lemma HexDecodeOfFold(bs: ByteString, s: string)
    requires Lower(s) == Lower(HexEncode(bs))
    ensures |s| == 2 * |bs| && AllDigits(s, 16) && HexPrefix(s) == bs && HexDecode(s) == Some(bs)
  {
    assert |Lower(s)| == |s|;
    assert |Lower(HexEncode(bs))| == |HexEncode(bs)|;
    HexPrefixOfEncode(bs);
    HexPrefixFold(s, HexEncode(bs));
    AllDigitsFold(s, HexEncode(bs), 16);
  }

  lemma {:induction false} PowOfSquare(k: nat)
    ensures Pow(16, 2 * k) == Pow(256, k)
  {
    if k > 0 {
      PowOfSquare(k - 1);
      assert Pow(16, 2 * k) == 16 * (16 * Pow(16, 2 * (k - 1)));
    }
  }

  /** A number in hexadecimal is the big-endian number of the bytes that its digits spell. */
  lemma {:induction false} HexValue(s: string)
    requires AllDigits(s, 16) && |s| % 2 == 0
    ensures NumeralValue(s, 16) == Value(256, HexPrefix(s))
  {
    if s != "" {
      var head, rest, bs := s[..2], s[2..], HexPrefix(s[2..]);
      assert s == head + rest;
      HexValue(rest);
      HexPrefixLength(rest);
      NumeralValueConcat(head, rest, 16);
      HexPairValue(head);
      PowOfSquare(|bs|);
      ValueConcat(256, [NumeralValue(head, 16)], bs);
      ValueOfOne(256, NumeralValue(head, 16));
    }
  }

  lemma HexPairValue(s: string)
    requires |s| == 2
    ensures NumeralValue(s, 16) == 16 * CharValue(s[0]) + CharValue(s[1])
  {
    assert CharValues(s)[..1] == [CharValue(s[0])];
    ValueOfOne(16, CharValue(s[0]));
  }

  /** common.has0xPrefix */
  predicate Has0x(s: string) {
    |s| >= 2 && s[0] == '0' && (s[1] == 'x' || s[1] == 'X')
  }

  function Strip0x(s: string): string {
    if Has0x(s) then s[2..] else s
  }

  function PadEven(s: string): string {
    if |s| % 2 == 1 then "0" + s else s
  }

  /** common.FromHex: a decoding error is dropped, and what was decoded before it is returned. */
  function FromHex(s: string): ByteString {
    HexPrefix(PadEven(Strip0x(s)))
  }

  predicate IsHexAddress(s: string) {
    |Strip0x(s)| == 40 && AllDigits(Strip0x(s), 16)
  }
}
