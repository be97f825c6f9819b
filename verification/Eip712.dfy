/** internal/eip3009/eip712.go: the digest that Go signs. */
module Eip712 {
  import opened Wrappers
  import opened Faults
  import opened Numerals
  import opened Bytes
  import opened Text
  import opened Types
  import opened Crypto

  const DOMAIN_TYPE :=
    "EIP712Domain" + ("(string name," + ("string version," + ("uint256 chainId," + "address verifyingContract)")))
  const TRANSFER_FIELDS :=
    "(address from," + ("address to," + ("uint256 value," + ("uint256 validAfter," + ("uint256 validBefore," + "bytes32 nonce)"))))
  const TRANSFER_TYPE := "TransferWithAuthorization" + TRANSFER_FIELDS
  const RECEIVE_TYPE := "ReceiveWithAuthorization" + TRANSFER_FIELDS
  const CANCEL_TYPE := "CancelAuthorization" + ("(address authorizer," + "bytes32 nonce)")

  /** The arguments of go-ethereum's abi.Arguments.Pack that occur here: all of them static, one word each. */
  datatype AbiValue = AbiBytes32(word: Word) | AbiAddress(address: Address) | AbiUint256(n: int) | AbiUint8(v: byte)

  function PackValue(v: AbiValue): Word {
    match v
    case AbiBytes32(w) => w
    case AbiAddress(a) => AddressWord(a)
    case AbiUint256(n) => UintWord(n)
    case AbiUint8(v) => UintWord(v)
  }

  function PackWords(vs: seq<AbiValue>): seq<Word> {
    seq(|vs|, i requires 0 <= i < |vs| => PackValue(vs[i]))
  }

  function Pack(vs: seq<AbiValue>): ByteString {
    Concat(PackWords(vs))
  }

  lemma PackOf3(vs: seq<AbiValue>)
    requires |vs| == 3
    ensures Pack(vs) == PackValue(vs[0]) + PackValue(vs[1]) + PackValue(vs[2])
  {
    assert PackWords(vs) == [PackValue(vs[0]), PackValue(vs[1]), PackValue(vs[2])];
    Concat3(PackValue(vs[0]), PackValue(vs[1]), PackValue(vs[2]));
  }

  lemma PackOf5(vs: seq<AbiValue>)
    requires |vs| == 5
    ensures Pack(vs) == PackValue(vs[0]) + PackValue(vs[1]) + PackValue(vs[2]) + PackValue(vs[3]) + PackValue(vs[4])
  {
    assert PackWords(vs) == [PackValue(vs[0]), PackValue(vs[1]), PackValue(vs[2]), PackValue(vs[3]), PackValue(vs[4])];
    Concat5(PackValue(vs[0]), PackValue(vs[1]), PackValue(vs[2]), PackValue(vs[3]), PackValue(vs[4]));
  }

  lemma PackOf7(vs: seq<AbiValue>)
    requires |vs| == 7
    ensures Pack(vs) == PackValue(vs[0]) + PackValue(vs[1]) + PackValue(vs[2]) + PackValue(vs[3]) + PackValue(vs[4])
                        + PackValue(vs[5]) + PackValue(vs[6])
  {
    assert PackWords(vs) == [PackValue(vs[0]), PackValue(vs[1]), PackValue(vs[2]), PackValue(vs[3]), PackValue(vs[4]),
                             PackValue(vs[5]), PackValue(vs[6])];
    Concat7(PackValue(vs[0]), PackValue(vs[1]), PackValue(vs[2]), PackValue(vs[3]), PackValue(vs[4]),
            PackValue(vs[5]), PackValue(vs[6]));
  }

  function TypeText(kind: Kind): string {
    match kind
    case TransferAuthorization => TRANSFER_TYPE
    case ReceiveAuthorization => RECEIVE_TYPE
    case CancelAuthorization => CANCEL_TYPE
    case OtherKind(_) => ""
  }

  function DomainValues(c: Crypto, d: Domain): seq<AbiValue>
    requires d.chainId.Some?
  {
    [ AbiBytes32(c.keccak(Utf8(DOMAIN_TYPE))),
      AbiBytes32(c.keccak(Utf8(d.name))),
      AbiBytes32(c.keccak(Utf8(d.version))),
      AbiUint256(d.chainId.value),
      AbiAddress(d.verifyingContract) ]
  }

  function DomainSeparator(c: Crypto, d: Domain): Result<Word, Fault> {
    var valid :- ValidateDomain(d);
    Ok(c.keccak(Pack(DomainValues(c, d))))
  }

  function StructValues(c: Crypto, a: Authorization): seq<AbiValue>
    requires ValidateAuthorization(a).Ok?
  {
    var typeHash := AbiBytes32(c.keccak(Utf8(TypeText(a.kind))));
    if a.kind == CancelAuthorization then
      [typeHash, AbiAddress(a.authorizer), AbiBytes32(a.nonce)]
    else
      [ typeHash, AbiAddress(a.from), AbiAddress(a.to), AbiUint256(a.value.value),
        AbiUint256(a.validAfter), AbiUint256(a.validBefore), AbiBytes32(a.nonce) ]
  }

  function AuthorizationStructHash(c: Crypto, a: Authorization): Result<Word, Fault> {
    var valid :- ValidateAuthorization(a);
    Ok(c.keccak(Pack(StructValues(c, a))))
  }

  function DigestPreimage(separator: Word, structHash: Word): ByteString {
    [0x19, 0x01] + separator + structHash
  }

  function TypedDataHash(c: Crypto, d: Domain, a: Authorization): Result<Word, Fault> {
    var separator :- DomainSeparator(c, d);
    var structHash :- AuthorizationStructHash(c, a);
    Ok(c.keccak(DigestPreimage(separator, structHash)))
  }

  // ----- Binding -----

  /** Equal as the 256-bit words that are hashed. */
  predicate SameWord(m: int, n: int) {
    m % Uint256Limit() == n % Uint256Limit()
  }

  predicate SameDomain(d: Domain, e: Domain) {
    && d.name == e.name && d.version == e.version && d.verifyingContract == e.verifyingContract
    && d.chainId.Some? && e.chainId.Some? && SameWord(d.chainId.value, e.chainId.value)
  }

  /** The same kind, and every field that this kind signs. */
  predicate SameAuthorization(a: Authorization, b: Authorization) {
    && a.kind == b.kind && a.nonce == b.nonce
    && if a.kind == CancelAuthorization then a.authorizer == b.authorizer
       else
         && a.from == b.from && a.to == b.to && a.validAfter == b.validAfter && a.validBefore == b.validBefore
         && a.value.Some? && b.value.Some? && SameWord(a.value.value, b.value.value)
  }

  /** Everything that is hashed on the way to a digest. */
  function Preimages(c: Crypto, d: Domain, a: Authorization): seq<ByteString>
    requires ValidateDomain(d).Ok? && ValidateAuthorization(a).Ok?
  {
    var domain, message := Pack(DomainValues(c, d)), Pack(StructValues(c, a));
    [ DigestPreimage(c.keccak(domain), c.keccak(message)),
      domain, message, Utf8(d.name), Utf8(d.version), Utf8(TypeText(a.kind)) ]
  }

  /** The first place where two lists of byte strings differ though their hashes agree. */
  function FindCollision(keccak: ByteString -> Word, xs: seq<ByteString>, ys: seq<ByteString>)
    : (r: Option<(ByteString, ByteString)>)
    requires |xs| == |ys|
    ensures r.Some? ==> r.value.0 in xs && r.value.1 in ys
    ensures r.Some? ==> r.value.0 != r.value.1 && keccak(r.value.0) == keccak(r.value.1)
    ensures r.None? ==> forall i :: 0 <= i < |xs| && keccak(xs[i]) == keccak(ys[i]) ==> xs[i] == ys[i]
  {
    if xs == [] then None
    else if xs[0] != ys[0] && keccak(xs[0]) == keccak(ys[0]) then Some((xs[0], ys[0]))
    else FindCollision(keccak, xs[1..], ys[1..])
  }

  lemma PackInjective(vs: seq<AbiValue>, ws: seq<AbiValue>)
    requires Pack(vs) == Pack(ws)
    ensures |vs| == |ws| && forall i :: 0 <= i < |vs| ==> PackValue(vs[i]) == PackValue(ws[i])
  {
    ConcatInjective(PackWords(vs), PackWords(ws));
    assert |vs| == |PackWords(vs)| == |PackWords(ws)| == |ws|;
    forall i | 0 <= i < |vs|
      ensures PackValue(vs[i]) == PackValue(ws[i])
    {
      assert PackWords(vs)[i] == PackWords(ws)[i];
    }
  }

  lemma UintWordInjective(m: int, n: int)
    ensures UintWord(m) == UintWord(n) <==> SameWord(m, n)
  {
    WordUintOfUintWord(m);
    WordUintOfUintWord(n);
  }

  lemma AddressWordInjective(a: Address, b: Address)
    requires AddressWord(a) == AddressWord(b)
    ensures a == b
  {
    assert WordAddress(AddressWord(a)) == a && WordAddress(AddressWord(b)) == b;
  }

  lemma TypeTextStart(kind: Kind)
    requires Supported(kind)
    ensures TypeText(kind) != ""
    ensures TypeText(kind)[0] == match kind case TransferAuthorization => 'T' case ReceiveAuthorization => 'R' case _ => 'C'
  {
    assert "TransferWithAuthorization"[0] == 'T';
    assert "ReceiveWithAuthorization"[0] == 'R';
    assert "CancelAuthorization"[0] == 'C';
  }

  /** The three type texts are different, and so are their bytes. */
  lemma TypeTextsDiffer(j: Kind, k: Kind)
    requires Supported(j) && Supported(k) && Utf8(TypeText(j)) == Utf8(TypeText(k))
    ensures j == k
  {
    Utf8Injective(TypeText(j), TypeText(k));
    TypeTextStart(j);
    TypeTextStart(k);
  }

  lemma DomainBinding(c: Crypto, d: Domain, e: Domain)
    requires ValidateDomain(d).Ok? && ValidateDomain(e).Ok?
    requires Pack(DomainValues(c, d)) == Pack(DomainValues(c, e))
    requires c.keccak(Utf8(d.name)) == c.keccak(Utf8(e.name)) ==> Utf8(d.name) == Utf8(e.name)
    requires c.keccak(Utf8(d.version)) == c.keccak(Utf8(e.version)) ==> Utf8(d.version) == Utf8(e.version)
    ensures SameDomain(d, e)
  {
    var vs, ws := DomainValues(c, d), DomainValues(c, e);
    PackInjective(vs, ws);
    assert PackValue(vs[1]) == PackValue(ws[1]) && PackValue(vs[2]) == PackValue(ws[2]);
    assert PackValue(vs[3]) == PackValue(ws[3]) && PackValue(vs[4]) == PackValue(ws[4]);
    Utf8Injective(d.name, e.name);
    Utf8Injective(d.version, e.version);
    UintWordInjective(d.chainId.value, e.chainId.value);
    AddressWordInjective(d.verifyingContract, e.verifyingContract);
  }

  lemma MessageBinding(c: Crypto, a: Authorization, b: Authorization)
    requires ValidateAuthorization(a).Ok? && ValidateAuthorization(b).Ok?
    requires Pack(StructValues(c, a)) == Pack(StructValues(c, b))
    requires c.keccak(Utf8(TypeText(a.kind))) == c.keccak(Utf8(TypeText(b.kind)))
             ==> Utf8(TypeText(a.kind)) == Utf8(TypeText(b.kind))
    ensures SameAuthorization(a, b)
  {
    var vs, ws := StructValues(c, a), StructValues(c, b);
    PackInjective(vs, ws);
    assert PackValue(vs[0]) == PackValue(ws[0]) && PackValue(vs[1]) == PackValue(ws[1]);
    assert PackValue(vs[2]) == PackValue(ws[2]);
    TypeTextsDiffer(a.kind, b.kind);
    if a.kind == CancelAuthorization {
      AddressWordInjective(a.authorizer, b.authorizer);
    } else {
      TransferBinding(c, a, b);
    }
  }

  lemma TransferBinding(c: Crypto, a: Authorization, b: Authorization)
    requires ValidateAuthorization(a).Ok? && ValidateAuthorization(b).Ok?
    requires MovesTokens(a.kind) && MovesTokens(b.kind)
    requires forall i :: 0 <= i < 7 ==> PackValue(StructValues(c, a)[i]) == PackValue(StructValues(c, b)[i])
    ensures a.from == b.from && a.to == b.to && a.nonce == b.nonce && SameWord(a.value.value, b.value.value)
    ensures a.validAfter == b.validAfter && a.validBefore == b.validBefore
  {
    var vs, ws := StructValues(c, a), StructValues(c, b);
    assert PackValue(vs[1]) == PackValue(ws[1]) && PackValue(vs[2]) == PackValue(ws[2]);
    assert PackValue(vs[3]) == PackValue(ws[3]) && PackValue(vs[4]) == PackValue(ws[4]);
    assert PackValue(vs[5]) == PackValue(ws[5]) && PackValue(vs[6]) == PackValue(ws[6]);
    AddressWordInjective(a.from, b.from);
    AddressWordInjective(a.to, b.to);
    UintWordInjective(a.value.value, b.value.value);
    UintWordInjective(a.validAfter, b.validAfter);
    UintWordInjective(a.validBefore, b.validBefore);
    Uint64Words(a.validAfter);
    Uint64Words(b.validAfter);
    Uint64Words(a.validBefore);
    Uint64Words(b.validBefore);
  }

  lemma Uint64Words(n: uint64)
    ensures n % Uint256Limit() == n
  {
    Uint256Facts();
    SmallMod(n, Uint256Limit());
  }

  /** A digest binds everything that is signed: equal digests mean the same domain, kind and fields, or else two
      different byte strings with the same Keccak hash are found among the preimages. */
  lemma DigestBinding(c: Crypto, d: Domain, a: Authorization, e: Domain, b: Authorization)
    requires TypedDataHash(c, d, a).Ok? && TypedDataHash(c, d, a) == TypedDataHash(c, e, b)
    ensures (SameDomain(d, e) && SameAuthorization(a, b))
         || FindCollision(c.keccak, Preimages(c, d, a), Preimages(c, e, b)).Some?
  {
    var xs, ys := Preimages(c, d, a), Preimages(c, e, b);
    if FindCollision(c.keccak, xs, ys).None? {
      assert xs[0] == ys[0];
      assert c.keccak(xs[1]) == xs[0][2..34] && c.keccak(ys[1]) == ys[0][2..34];
      assert c.keccak(xs[2]) == xs[0][34..] && c.keccak(ys[2]) == ys[0][34..];
      assert xs[1] == ys[1] && xs[2] == ys[2];
      assert c.keccak(xs[3]) == c.keccak(ys[3]) ==> xs[3] == ys[3];
      assert c.keccak(xs[4]) == c.keccak(ys[4]) ==> xs[4] == ys[4];
      assert c.keccak(xs[5]) == c.keccak(ys[5]) ==> xs[5] == ys[5];
      DomainBinding(c, d, e);
      MessageBinding(c, a, b);
    }
  }

  lemma SameDomainPacked(c: Crypto, d: Domain, e: Domain)
    requires SameDomain(d, e)
    ensures Pack(DomainValues(c, d)) == Pack(DomainValues(c, e))
  {
    PackOf5(DomainValues(c, d));
    PackOf5(DomainValues(c, e));
    UintWordInjective(d.chainId.value, e.chainId.value);
  }

  lemma SameAuthorizationPacked(c: Crypto, a: Authorization, b: Authorization)
    requires ValidateAuthorization(a).Ok? && ValidateAuthorization(b).Ok? && SameAuthorization(a, b)
    ensures Pack(StructValues(c, a)) == Pack(StructValues(c, b))
  {
    if a.kind == CancelAuthorization {
      PackOf3(StructValues(c, a));
      PackOf3(StructValues(c, b));
    } else {
      PackOf7(StructValues(c, a));
      PackOf7(StructValues(c, b));
      UintWordInjective(a.value.value, b.value.value);
    }
  }

  /** The other direction: nothing but the domain, the kind and its fields enters the digest. In particular a value
      or chain id of 2^256 or more, which the validators let pass, has the digest of its remainder. */
  lemma DigestDetermined(c: Crypto, d: Domain, a: Authorization, e: Domain, b: Authorization)
    requires TypedDataHash(c, d, a).Ok? && TypedDataHash(c, e, b).Ok?
    requires SameDomain(d, e) && SameAuthorization(a, b)
    ensures TypedDataHash(c, d, a) == TypedDataHash(c, e, b)
  {
    SameDomainPacked(c, d, e);
    SameAuthorizationPacked(c, a, b);
  }

  /** So the digest does not bind a value as an integer: adding 2^256 leaves it the same. */
  lemma OversizedValueAliases(c: Crypto, d: Domain, a: Authorization)
    requires MovesTokens(a.kind) && ValidateDomain(d).Ok? && ValidateAuthorization(a).Ok?
    ensures var b := a.(value := Some(a.value.value + Uint256Limit()));
            ValidateAuthorization(b).Ok? && b != a && TypedDataHash(c, d, b) == TypedDataHash(c, d, a)
  {
    var b := a.(value := Some(a.value.value + Uint256Limit()));
    AddedLimit(a.value.value);
    DigestDetermined(c, d, b, d, a);
  }

  lemma AddedLimit(n: nat)
    ensures SameWord(n + Uint256Limit(), n)
  {
    var m := Uint256Limit();
    var q, r := n / m, n % m;
    assert n == q * m + r;
    DivModUnique(q + 1, r, m);
    assert n + m == (q + 1) * m + r;
  }

  /** A value or chain id in the uint256 range is bound exactly. */
  lemma SameWordInRange(m: nat, n: nat)
    requires m < Uint256Limit() && n < Uint256Limit()
    ensures SameWord(m, n) <==> m == n
  {
    SmallMod(m, Uint256Limit());
    SmallMod(n, Uint256Limit());
  }
}
