/** Byte strings, addresses and the 32-byte words of the Contract ABI. */
module Bytes {
  import opened Numerals

  type byte = n: nat | n < 256
  type ByteString = seq<byte>

  /** common.Hash and bytes32. */
  type Word = w: ByteString | |w| == 32 witness seq(32, i => 0)

  /** common.Address and address. */
  type Address = a: ByteString | |a| == 20 witness seq(20, i => 0)

  const ZERO_WORD: Word := Zeros(32)
  const ZERO_ADDRESS: Address := Zeros(20)

  const UINT64_LIMIT: nat := 0x1_0000_0000_0000_0000

  type uint64 = n: nat | n < UINT64_LIMIT

  /** 2^256, as 32 base-256 digits. */
  function Uint256Limit(): (limit: nat)
    ensures limit > 0
  {
    PowPositive(256, 32);
    Pow(256, 32)
  }

  type uint256 = n: nat | n < Uint256Limit() witness 0

  lemma Uint256Facts()
    ensures UINT64_LIMIT < Uint256Limit()
  {
    assert UINT64_LIMIT == Pow(256, 8);
    PowAdd(256, 24, 8);
    PowPositive(256, 24);
    assert Pow(256, 24) > 1;
  }

  /** The word that go-ethereum's encoder writes for a big integer: 256 bits in two's complement. */
  function UintWord(n: int): (w: Word) {
    DigitsShape(256, n % Uint256Limit(), 32);
    Digits(256, n % Uint256Limit(), 32)
  }

  function WordUint(w: Word): (n: uint256) {
    ValueBound(256, w);
    Value(256, w)
  }

  function AddressWord(a: Address): (w: Word) {
    Zeros(12) + a
  }

  /** The address in the low 20 bytes of a word. */
  function WordAddress(w: Word): (a: Address) {
    w[12..]
  }

  lemma WordUintOfUintWord(n: int)
    ensures WordUint(UintWord(n)) == n % Uint256Limit()
  {
    ValueOfDigits(256, n % Uint256Limit(), 32);
  }

  lemma SmallMod(n: nat, m: nat)
    requires n < m
    ensures n % m == n
  {
  }

  lemma UintWordOfWordUint(w: Word)
    ensures UintWord(WordUint(w)) == w
  {
    DigitsOfValue(256, w);
    SmallMod(WordUint(w), Uint256Limit());
  }

  /** BytesToHash: keep the last 32 bytes, pad on the left with zeros. */
  function BytesToWord(bs: ByteString): (w: Word) {
    if |bs| > 32 then bs[|bs| - 32..] else Zeros(32 - |bs|) + bs
  }

  /** BytesToAddress: keep the last 20 bytes, pad on the left with zeros. */
  function BytesToAddress(bs: ByteString): (a: Address) {
    if |bs| > 20 then bs[|bs| - 20..] else Zeros(20 - |bs|) + bs
  }

  /** Words one after the other: the encoding of a tuple of static values. */
  function Concat(ws: seq<Word>): ByteString {
    if ws == [] then [] else Concat(ws[..|ws| - 1]) + ws[|ws| - 1]
  }

  lemma {:induction false} ConcatLength(ws: seq<Word>)
    ensures |Concat(ws)| == 32 * |ws|
  {
    if ws != [] {
      ConcatLength(ws[..|ws| - 1]);
    }
  }

  /** Each word stands at its offset. */
  lemma {:induction false} ConcatWord(ws: seq<Word>, i: nat)
    requires i < |ws|
    ensures |Concat(ws)| == 32 * |ws|
    ensures Concat(ws)[32 * i..32 * i + 32] == ws[i]
  {
    var init := ws[..|ws| - 1];
    ConcatLength(ws);
    ConcatLength(init);
    if i < |init| {
      ConcatWord(init, i);
      assert Concat(ws)[32 * i..32 * i + 32] == Concat(init)[32 * i..32 * i + 32];
    }
  }

  lemma ConcatInjective(vs: seq<Word>, ws: seq<Word>)
    requires Concat(vs) == Concat(ws)
    ensures vs == ws
  {
    ConcatLength(vs);
    ConcatLength(ws);
    forall i | 0 <= i < |vs|
      ensures vs[i] == ws[i]
    {
      ConcatWord(vs, i);
      ConcatWord(ws, i);
    }
  }

  lemma ConcatAppend(ws: seq<Word>, w: Word)
    ensures Concat(ws + [w]) == Concat(ws) + w
  {
    assert (ws + [w])[..|ws + [w]| - 1] == ws;
  }

  lemma Concat3(a: Word, b: Word, c: Word)
    ensures Concat([a, b, c]) == a + b + c
  {
    ConcatAppend([], a);
    ConcatAppend([a], b);
    ConcatAppend([a, b], c);
    assert [] + [a] == [a] && [a] + [b] == [a, b] && [a, b] + [c] == [a, b, c];
  }

  lemma Concat5(a: Word, b: Word, c: Word, d: Word, e: Word)
    ensures Concat([a, b, c, d, e]) == a + b + c + d + e
  {
    Concat3(a, b, c);
    ConcatAppend([a, b, c], d);
    ConcatAppend([a, b, c, d], e);
    assert [a, b, c] + [d] == [a, b, c, d] && [a, b, c, d] + [e] == [a, b, c, d, e];
  }

  lemma Concat7(a: Word, b: Word, c: Word, d: Word, e: Word, f: Word, g: Word)
    ensures Concat([a, b, c, d, e, f, g]) == a + b + c + d + e + f + g
  {
    Concat5(a, b, c, d, e);
    ConcatAppend([a, b, c, d, e], f);
    ConcatAppend([a, b, c, d, e, f], g);
    assert [a, b, c, d, e] + [f] == [a, b, c, d, e, f] && [a, b, c, d, e, f] + [g] == [a, b, c, d, e, f, g];
  }
}
