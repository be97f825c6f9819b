/** internal/eip3009/calldata.go: the calldata of an authorization, and how the contract's ABI decoder reads it. */
module Calldata {
  import opened Wrappers
  import opened Faults
  import opened Numerals
  import opened Bytes
  import opened Text
  import opened Types
  import opened Crypto
  import opened Eip712
  import Token

  // ----- Methods -----

  datatype Method = Method(name: string, inputs: seq<string>)

  const PERMIT_INPUTS: seq<string> :=
    ["address", "address", "uint256", "uint256", "uint256", "bytes32", "uint8", "bytes32", "bytes32"]
  const CANCEL_INPUTS: seq<string> := ["address", "bytes32", "uint8", "bytes32", "bytes32"]

  /** The entries of EIP3009ABI. */
  function Entry(i: nat): Method
    requires i < 7
  {
    match i
    case 0 => Method("transferWithAuthorization", PERMIT_INPUTS)
    case 1 => Method("receiveWithAuthorization", PERMIT_INPUTS)
    case 2 => Method("cancelAuthorization", CANCEL_INPUTS)
    case 3 => Method("authorizationState", ["address", "bytes32"])
    case 4 => Method("TRANSFER_WITH_AUTHORIZATION_TYPEHASH", [])
    case 5 => Method("RECEIVE_WITH_AUTHORIZATION_TYPEHASH", [])
    case 6 => Method("CANCEL_AUTHORIZATION_TYPEHASH", [])
  }

  function Methods(): (methods: seq<Method>)
    ensures |methods| == 7 && forall i :: 0 <= i < 7 ==> methods[i] == Entry(i)
  {
    seq(7, i requires 0 <= i < 7 => Entry(i))
  }

  /** go-ethereum's Method.Sig */
  function MethodText(m: Method): string {
    m.name + ("(" + Listed(m.inputs))
  }

  function Selector(c: Crypto, m: Method): (s: ByteString)
    ensures |s| == 4
  {
    c.keccak(Utf8(MethodText(m)))[..4]
  }

  /** A fact about Keccak-256: no two methods of the ABI have the same selector. */
  predicate DistinctSelectors(c: Crypto) {
    forall i, j :: 0 <= i < j < |Methods()| ==> Selector(c, Methods()[i]) != Selector(c, Methods()[j])
  }

  /** MethodById */
  function MethodOf(c: Crypto, selector: ByteString): Option<Method> {
    FindMethod(c, Methods(), selector)
  }

  function FindMethod(c: Crypto, methods: seq<Method>, selector: ByteString): (r: Option<Method>)
    ensures r.Some? ==> r.value in methods && Selector(c, r.value) == selector
  {
    if methods == [] then None
    else if Selector(c, methods[0]) == selector then Some(methods[0])
    else FindMethod(c, methods[1..], selector)
  }

  lemma {:induction false} FindsMethod(c: Crypto, methods: seq<Method>, k: nat)
    requires forall i, j :: 0 <= i < j < |methods| ==> Selector(c, methods[i]) != Selector(c, methods[j])
    requires k < |methods|
    ensures FindMethod(c, methods, Selector(c, methods[k])) == Some(methods[k])
  {
    if k > 0 {
      FindsMethod(c, methods[1..], k - 1);
    }
  }

  /** The ABI's map from names to methods. */
  function FindName(methods: seq<Method>, name: string): (r: Option<Method>)
    ensures r.Some? ==> r.value in methods && r.value.name == name
  {
    if methods == [] then None else if methods[0].name == name then Some(methods[0]) else FindName(methods[1..], name)
  }

  /** Which kind a method executes. */
  function ExecutedKind(name: string): Option<Kind> {
    if name == KindText(TransferAuthorization) then Some(TransferAuthorization)
    else if name == KindText(ReceiveAuthorization) then Some(ReceiveAuthorization)
    else if name == KindText(CancelAuthorization) then Some(CancelAuthorization)
    else None
  }

  lemma NamesDiffer(i: nat, j: nat)
    requires i < j < |Methods()|
    ensures Methods()[i].name != Methods()[j].name
  {
    assert |Methods()[0].name| == 25 && |Methods()[1].name| == 24 && |Methods()[2].name| == 19 && |Methods()[3].name| == 18;
    assert |Methods()[4].name| == 36 && |Methods()[5].name| == 35 && |Methods()[6].name| == 29;
  }

  lemma {:induction false} FindsName(methods: seq<Method>, k: nat)
    requires forall i, j :: 0 <= i < j < |methods| ==> methods[i].name != methods[j].name
    requires k < |methods|
    ensures FindName(methods, methods[k].name) == Some(methods[k])
  {
    if k > 0 {
      FindsName(methods[1..], k - 1);
    }
  }

  lemma MethodNamed(m: Method)
    requires m in Methods()
    ensures FindName(Methods(), m.name) == Some(m)
  {
    forall i: nat, j: nat | i < j < |Methods()|
      ensures Methods()[i].name != Methods()[j].name
    {
      NamesDiffer(i, j);
    }
    var k :| 0 <= k < |Methods()| && Methods()[k] == m;
    FindsName(Methods(), k);
  }

  lemma MethodOfKind(kind: Kind)
    requires Supported(kind)
    ensures ExecutedKind(KindText(kind)) == Some(kind)
    ensures FindName(Methods(), KindText(kind))
         == Some(Method(KindText(kind), if kind == CancelAuthorization then CANCEL_INPUTS else PERMIT_INPUTS))
  {
    assert |"transferWithAuthorization"| == 25 && |"receiveWithAuthorization"| == 24 && |"cancelAuthorization"| == 19;
    MethodNamed(Methods()[match kind case TransferAuthorization => 0 case ReceiveAuthorization => 1 case CancelAuthorization => 2]);
  }

  // ----- Encoding -----

  function PermitValues(a: Authorization, sig: Signature): seq<AbiValue>
    requires a.value.Some?
  {
    [ AbiAddress(a.from), AbiAddress(a.to), AbiUint256(a.value.value), AbiUint256(a.validAfter),
      AbiUint256(a.validBefore), AbiBytes32(a.nonce), AbiUint8(sig.v), AbiBytes32(sig.r), AbiBytes32(sig.s) ]
  }

  function CancelValues(a: Authorization, sig: Signature): seq<AbiValue> {
    [ AbiAddress(a.authorizer), AbiBytes32(a.nonce), AbiUint8(sig.v), AbiBytes32(sig.r), AbiBytes32(sig.s) ]
  }

  function ArgumentValues(a: Authorization, sig: Signature): seq<AbiValue>
    requires MovesTokens(a.kind) ==> a.value.Some?
  {
    if MovesTokens(a.kind) then PermitValues(a, sig) else CancelValues(a, sig)
  }

  function KindSelector(c: Crypto, kind: Kind): (s: ByteString)
    requires Supported(kind)
    ensures |s| == 4
  {
    MethodOfKind(kind);
    Selector(c, FindName(Methods(), KindText(kind)).value)
  }

  /** EIP3009ABI.Pack, with the kind's text as the name of the method. */
  function EncodeExecuteCalldata(c: Crypto, signed: SignedAuthorization): Result<ByteString, Fault> {
    if signed.signature.None? then Err(SignatureRequired) else
    var a, sig := signed.authorization, signed.signature.value;
    if !Supported(a.kind) then Err(UnsupportedKind)
    else if MovesTokens(a.kind) && a.value.None? then Err(NilValue)
    else Ok(KindSelector(c, a.kind) + Pack(ArgumentValues(a, sig)))
  }

  // ----- Decoding -----

  function WordAt(data: ByteString, i: nat): Word
    requires |data| >= 4 + 32 * (i + 1)
  {
    data[4 + 32 * i..4 + 32 * i + 32]
  }

  function BigToUint64(w: Word): Result<uint64, Fault> {
    if WordUint(w) < UINT64_LIMIT then Ok(WordUint(w)) else Err(Overflow)
  }

  function Uint8At(data: ByteString, i: nat): Result<byte, Fault>
    requires |data| >= 4 + 32 * (i + 1)
  {
    if WordUint(WordAt(data, i)) < 256 then Ok(WordUint(WordAt(data, i))) else Err(BadUint8)
  }

  function Arity(kind: Kind): nat {
    if kind == CancelAuthorization then 5 else 9
  }

  function DecodePermit(kind: Kind, data: ByteString): Result<SignedAuthorization, Fault>
    requires |data| >= 4 + 32 * 9
  {
    var v :- Uint8At(data, 6);
    var validAfter :- BigToUint64(WordAt(data, 3));
    var validBefore :- BigToUint64(WordAt(data, 4));
    Ok(SignedAuthorization(
      TransferRecord(kind, WordAddress(WordAt(data, 0)), WordAddress(WordAt(data, 1)), Some(WordUint(WordAt(data, 2))),
                     validAfter, validBefore, WordAt(data, 5)),
      EMPTY_DOMAIN,
      Some(Signature(v, WordAt(data, 7), WordAt(data, 8)))))
  }

  function DecodeCancel(data: ByteString): Result<SignedAuthorization, Fault>
    requires |data| >= 4 + 32 * 5
  {
    var v :- Uint8At(data, 2);
    Ok(SignedAuthorization(
      CancelRecord(WordAddress(WordAt(data, 0)), WordAt(data, 1)),
      EMPTY_DOMAIN,
      Some(Signature(v, WordAt(data, 3), WordAt(data, 4)))))
  }

  function DecodeArguments(kind: Kind, data: ByteString): Result<SignedAuthorization, Fault>
    requires |data| >= 4 + 32 * Arity(kind)
  {
    if kind == CancelAuthorization then DecodeCancel(data) else DecodePermit(kind, data)
  }

  function DecodeInputs(m: Method, data: ByteString): Result<SignedAuthorization, Fault> {
    if |data| < 4 + 32 * |m.inputs| then Err(CalldataTooShort) else
    match ExecutedKind(m.name)
    case None => Err(UnsupportedMethod)
    case Some(kind) => if |m.inputs| != Arity(kind) then Err(WrongInputs) else DecodeArguments(kind, data)
  }

  function DecodeExecuteCalldata(c: Crypto, data: ByteString): Result<SignedAuthorization, Fault> {
    if |data| < 4 then Err(CalldataTooShort) else
    match MethodOf(c, data[..4])
    case None => Err(UnknownSelector)
    case Some(m) => DecodeInputs(m, data)
  }

  // ----- The contract's decoder -----

  /** An address argument with anything in its upper 12 bytes makes the call revert. */
  predicate CleanAddress(w: Word) {
    w[..12] == Zeros(12)
  }

  function ContractPermit(data: ByteString): Option<(Token.Permit, Signature)> {
    if |data| < 4 + 32 * 9 || !CleanAddress(WordAt(data, 0)) || !CleanAddress(WordAt(data, 1)) then None else
    match Uint8At(data, 6)
    case Err(_) => None
    case Ok(v) =>
      Some((
        Token.Permit(WordAddress(WordAt(data, 0)), WordAddress(WordAt(data, 1)), WordUint(WordAt(data, 2)),
                     WordUint(WordAt(data, 3)), WordUint(WordAt(data, 4)), WordAt(data, 5)),
        Signature(v, WordAt(data, 7), WordAt(data, 8))))
  }

  function ContractCancel(data: ByteString): Option<Token.Call> {
    if |data| < 4 + 32 * 5 || !CleanAddress(WordAt(data, 0)) then None else
    match Uint8At(data, 2)
    case Err(_) => None
    case Ok(v) =>
      Some(Token.CancelAuthorization(
        WordAddress(WordAt(data, 0)), WordAt(data, 1), Signature(v, WordAt(data, 3), WordAt(data, 4))))
  }

  function ContractArguments(kind: Kind, data: ByteString): Option<Token.Call> {
    match kind
    case TransferAuthorization =>
      (match ContractPermit(data)
       case Some((p, sig)) => Some(Token.TransferWithAuthorization(p, sig))
       case None => None)
    case ReceiveAuthorization =>
      (match ContractPermit(data)
       case Some((p, sig)) => Some(Token.ReceiveWithAuthorization(p, sig))
       case None => None)
    case CancelAuthorization => ContractCancel(data)
    case OtherKind(_) => None
  }

  /** The contract's function of this kind. */
  function EntryPoint(kind: Kind): string
    requires Supported(kind)
  {
    match kind
    case TransferAuthorization => Token.TRANSFER_FUNCTION
    case ReceiveAuthorization => Token.RECEIVE_FUNCTION
    case CancelAuthorization => Token.CANCEL_FUNCTION
  }

  /** The contract's dispatch on the first four bytes. */
  function EntryOf(c: Crypto, selector: ByteString): (r: Option<Kind>)
    ensures r.Some? ==> Supported(r.value) && selector == Token.FunctionSelector(c, EntryPoint(r.value))
  {
    if selector == Token.FunctionSelector(c, EntryPoint(TransferAuthorization)) then Some(TransferAuthorization)
    else if selector == Token.FunctionSelector(c, EntryPoint(ReceiveAuthorization)) then Some(ReceiveAuthorization)
    else if selector == Token.FunctionSelector(c, EntryPoint(CancelAuthorization)) then Some(CancelAuthorization)
    else None
  }

  /** The authorization call that calldata makes on the contract, if it is well formed. */
  function ContractCall(c: Crypto, data: ByteString): Option<Token.Call> {
    if |data| < 4 then None else
    match EntryOf(c, data[..4])
    case None => None
    case Some(kind) => ContractArguments(kind, data)
  }

  // ----- Selectors -----

  lemma ListedSignature()
    ensures Listed(["uint8", "bytes32", "bytes32"]) == "uint8," + ("bytes32," + "bytes32)")
  {
  }

  lemma ListedCancel()
    ensures "(" + Listed(CANCEL_INPUTS) == Token.CANCEL_PARAMETERS
  {
    ListedSignature();
    assert CANCEL_INPUTS[2..] == ["uint8", "bytes32", "bytes32"];
  }

  lemma ListedPermitTail()
    ensures Listed(PERMIT_INPUTS[3..])
         == "uint256," + ("uint256," + ("bytes32," + ("uint8," + ("bytes32," + "bytes32)"))))
  {
    var rest := ["uint8", "bytes32", "bytes32"];
    ListedSignature();
    ListedCons("bytes32", rest);
    ListedCons("uint256", ["bytes32"] + rest);
    ListedCons("uint256", ["uint256"] + (["bytes32"] + rest));
    assert PERMIT_INPUTS[3..] == ["uint256"] + (["uint256"] + (["bytes32"] + rest));
  }

  lemma ListedPermitHead(rest: seq<string>)
    requires rest != []
    ensures "(" + Listed(["address", "address", "uint256"] + rest) == "(address," + ("address," + ("uint256," + Listed(rest)))
  {
    ListedCons("uint256", rest);
    ListedCons("address", ["uint256"] + rest);
    ListedCons("address", ["address"] + (["uint256"] + rest));
    assert ["address", "address", "uint256"] + rest == ["address"] + (["address"] + (["uint256"] + rest));
  }

  lemma ListedPermit()
    ensures "(" + Listed(PERMIT_INPUTS) == Token.PERMIT_PARAMETERS
  {
    ListedPermitTail();
    ListedPermitHead(PERMIT_INPUTS[3..]);
    assert PERMIT_INPUTS == ["address", "address", "uint256"] + PERMIT_INPUTS[3..];
  }

  /** The method that Go calls by the name of a kind is declared as the contract declares its function. */
  lemma SameDeclaration(kind: Kind)
    requires Supported(kind)
    ensures FindName(Methods(), KindText(kind)).Some?
    ensures MethodText(FindName(Methods(), KindText(kind)).value) == EntryPoint(kind)
  {
    MethodOfKind(kind);
    ListedPermit();
    ListedCancel();
  }

  /** Different methods of the ABI have different selectors. */
  lemma SelectorsDiffer(c: Crypto, m: Method, n: Method)
    requires DistinctSelectors(c) && m in Methods() && n in Methods() && m != n
    ensures Selector(c, m) != Selector(c, n)
  {
    var i :| 0 <= i < |Methods()| && Methods()[i] == m;
    var j :| 0 <= j < |Methods()| && Methods()[j] == n;
  }

  lemma SameSelector(c: Crypto, kind: Kind)
    requires Supported(kind)
    ensures KindSelector(c, kind) == Token.FunctionSelector(c, EntryPoint(kind))
  {
    SameDeclaration(kind);
  }

  lemma KindSelectorsDiffer(c: Crypto, j: Kind, k: Kind)
    requires DistinctSelectors(c) && Supported(j) && Supported(k) && KindSelector(c, j) == KindSelector(c, k)
    ensures j == k
  {
    MethodOfKind(j);
    MethodOfKind(k);
    if j != k {
      SelectorsDiffer(c, FindName(Methods(), KindText(j)).value, FindName(Methods(), KindText(k)).value);
    }
  }

  lemma EntrySelected(c: Crypto, kind: Kind)
    requires DistinctSelectors(c) && Supported(kind)
    ensures EntryOf(c, KindSelector(c, kind)) == Some(kind)
  {
    SameSelector(c, kind);
    var r := EntryOf(c, KindSelector(c, kind));
    assert r.Some?;
    SameSelector(c, r.value);
    KindSelectorsDiffer(c, kind, r.value);
  }

  lemma MethodSelected(c: Crypto, kind: Kind)
    requires DistinctSelectors(c) && Supported(kind)
    ensures MethodOf(c, KindSelector(c, kind)) == FindName(Methods(), KindText(kind))
  {
    MethodOfKind(kind);
    var m := FindName(Methods(), KindText(kind)).value;
    var k :| 0 <= k < |Methods()| && Methods()[k] == m;
    FindsMethod(c, Methods(), k);
  }

  /** So calldata that starts with a kind's selector in Go is read as that kind, in Go and by the contract. */
  lemma SelectorsAgree(c: Crypto, kind: Kind, data: ByteString)
    requires DistinctSelectors(c) && Supported(kind) && |data| >= 4 && data[..4] == KindSelector(c, kind)
    ensures ContractCall(c, data) == ContractArguments(kind, data)
    ensures DecodeExecuteCalldata(c, data)
         == if |data| < 4 + 32 * Arity(kind) then Err(CalldataTooShort) else DecodeArguments(kind, data)
  {
    EntrySelected(c, kind);
    MethodSelected(c, kind);
    MethodOfKind(kind);
  }

  lemma InputsUnfolded(m: Method, data: ByteString)
    requires |data| >= 4 && m in Methods() && DecodeInputs(m, data).Ok?
    ensures var r := DecodeInputs(m, data);
            var kind := r.value.authorization.kind;
            && Supported(kind) && |data| >= 4 + 32 * Arity(kind) && r == DecodeArguments(kind, data)
            && FindName(Methods(), KindText(kind)) == Some(m)
  {
    MethodNamed(m);
    assert m.name == KindText(ExecutedKind(m.name).value);
  }

  /** What is decoded at all starts with the selector of its kind. */
  lemma DecodedUnfolded(c: Crypto, data: ByteString)
    requires DecodeExecuteCalldata(c, data).Ok?
    ensures var r := DecodeExecuteCalldata(c, data);
            var kind := r.value.authorization.kind;
            && Supported(kind) && |data| >= 4 + 32 * Arity(kind)
            && data[..4] == KindSelector(c, kind) && r == DecodeArguments(kind, data)
  {
    InputsUnfolded(MethodOf(c, data[..4]).value, data);
  }

  // ----- Round trips -----

  /** What arrives: the fields of the record's kind, the value as a 256-bit word, and no domain. */
  function Delivered(signed: SignedAuthorization): SignedAuthorization {
    var a := signed.authorization;
    var arrived :=
      if a.kind == CancelAuthorization then CancelRecord(a.authorizer, a.nonce)
      else
        var value := if a.value.Some? then Some(a.value.value % Uint256Limit()) else None;
        TransferRecord(a.kind, a.from, a.to, value, a.validAfter, a.validBefore, a.nonce);
    SignedAuthorization(arrived, EMPTY_DOMAIN, signed.signature)
  }

  /** A record arrives unchanged, but for its domain, exactly if only its own fields are set and its value is a uint256. */
  lemma DeliveredUnchanged(signed: SignedAuthorization)
    requires Supported(signed.authorization.kind)
    ensures var a := signed.authorization;
            Delivered(signed) == signed.(domain := EMPTY_DOMAIN) <==>
              OnlyOwnFields(a) && (MovesTokens(a.kind) && a.value.Some? ==> 0 <= a.value.value < Uint256Limit())
  {
    var a := signed.authorization;
    if a.value.Some? && 0 <= a.value.value < Uint256Limit() {
      SmallMod(a.value.value, Uint256Limit());
    }
  }

  lemma PackedWord(head: ByteString, vs: seq<AbiValue>, i: nat)
    requires |head| == 4 && i < |vs|
    ensures |head + Pack(vs)| == 4 + 32 * |vs|
    ensures WordAt(head + Pack(vs), i) == PackValue(vs[i])
  {
    ConcatWord(PackWords(vs), i);
    var data := head + Pack(vs);
    assert WordAt(data, i) == Pack(vs)[32 * i..32 * i + 32];
  }

  lemma SmallWord(n: nat)
    requires n < UINT64_LIMIT
    ensures WordUint(UintWord(n)) == n
  {
    WordUintOfUintWord(n);
    Uint64Words(n);
  }

  lemma PackedWords(head: ByteString, vs: seq<AbiValue>)
    requires |head| == 4
    ensures |head + Pack(vs)| == 4 + 32 * |vs|
    ensures forall i: nat :: i < |vs| ==> WordAt(head + Pack(vs), i) == PackValue(vs[i])
  {
    ConcatLength(PackWords(vs));
    forall i: nat | i < |vs|
      ensures WordAt(head + Pack(vs), i) == PackValue(vs[i])
    {
      PackedWord(head, vs, i);
    }
  }

  lemma PermitRawWords(head: ByteString, a: Authorization, sig: Signature, data: ByteString)
    requires |head| == 4 && a.value.Some? && data == head + Pack(PermitValues(a, sig))
    ensures |data| == 4 + 32 * 9
    ensures WordAt(data, 0) == AddressWord(a.from) && WordAt(data, 1) == AddressWord(a.to)
    ensures WordAt(data, 2) == UintWord(a.value.value)
    ensures WordAt(data, 3) == UintWord(a.validAfter) && WordAt(data, 4) == UintWord(a.validBefore)
    ensures WordAt(data, 5) == a.nonce && WordAt(data, 6) == UintWord(sig.v)
    ensures WordAt(data, 7) == sig.r && WordAt(data, 8) == sig.s
  {
    var vs := PermitValues(a, sig);
    PackedWords(head, vs);
    assert WordAt(data, 0) == PackValue(vs[0]) && WordAt(data, 1) == PackValue(vs[1]) && WordAt(data, 2) == PackValue(vs[2]);
    assert WordAt(data, 3) == PackValue(vs[3]) && WordAt(data, 4) == PackValue(vs[4]) && WordAt(data, 5) == PackValue(vs[5]);
    assert WordAt(data, 6) == PackValue(vs[6]) && WordAt(data, 7) == PackValue(vs[7]) && WordAt(data, 8) == PackValue(vs[8]);
  }

  /** The words of an encoded permit, as both decoders see them. */
  lemma PermitWords(head: ByteString, a: Authorization, sig: Signature, data: ByteString)
    requires |head| == 4 && a.value.Some? && data == head + Pack(PermitValues(a, sig))
    ensures |data| == 4 + 32 * 9
    ensures WordAt(data, 0) == AddressWord(a.from) && WordAt(data, 1) == AddressWord(a.to)
    ensures WordUint(WordAt(data, 2)) == a.value.value % Uint256Limit()
    ensures WordUint(WordAt(data, 3)) == a.validAfter && WordUint(WordAt(data, 4)) == a.validBefore
    ensures WordAt(data, 5) == a.nonce && WordUint(WordAt(data, 6)) == sig.v
    ensures WordAt(data, 7) == sig.r && WordAt(data, 8) == sig.s
  {
    PermitRawWords(head, a, sig, data);
    WordUintOfUintWord(a.value.value);
    SmallWord(a.validAfter);
    SmallWord(a.validBefore);
    SmallWord(sig.v);
  }

  lemma CancelWords(head: ByteString, a: Authorization, sig: Signature, data: ByteString)
    requires |head| == 4 && data == head + Pack(CancelValues(a, sig))
    ensures |data| == 4 + 32 * 5
    ensures WordAt(data, 0) == AddressWord(a.authorizer) && WordAt(data, 1) == a.nonce
    ensures WordUint(WordAt(data, 2)) == sig.v
    ensures WordAt(data, 3) == sig.r && WordAt(data, 4) == sig.s
  {
    var vs := CancelValues(a, sig);
    PackedWords(head, vs);
    assert WordAt(data, 0) == PackValue(vs[0]) && WordAt(data, 1) == PackValue(vs[1]);
    assert WordAt(data, 2) == PackValue(vs[2]) && WordAt(data, 3) == PackValue(vs[3]) && WordAt(data, 4) == PackValue(vs[4]);
    SmallWord(sig.v);
  }

  lemma AddressWordClean(a: Address)
    ensures WordAddress(AddressWord(a)) == a && CleanAddress(AddressWord(a))
  {
  }

  /** The call that the contract is to make of a record. */
  function CallOf(signed: SignedAuthorization): Token.Call
    requires Supported(signed.authorization.kind) && signed.signature.Some?
    requires MovesTokens(signed.authorization.kind) ==> signed.authorization.value.Some?
  {
    var a, sig := signed.authorization, signed.signature.value;
    match a.kind
    case TransferAuthorization => Token.TransferWithAuthorization(PermitOf(a), sig)
    case ReceiveAuthorization => Token.ReceiveWithAuthorization(PermitOf(a), sig)
    case CancelAuthorization => Token.CancelAuthorization(a.authorizer, a.nonce, sig)
  }

  function PermitOf(a: Authorization): Token.Permit
    requires a.value.Some?
  {
    Uint256Facts();
    Token.Permit(a.from, a.to, a.value.value % Uint256Limit(), a.validAfter, a.validBefore, a.nonce)
  }

  /** The arguments after the selector, as either side reads them. */
  lemma ArgumentsRead(head: ByteString, signed: SignedAuthorization, data: ByteString)
    requires |head| == 4 && signed.signature.Some? && Supported(signed.authorization.kind)
    requires MovesTokens(signed.authorization.kind) ==> signed.authorization.value.Some?
    requires data == head + Pack(ArgumentValues(signed.authorization, signed.signature.value))
    ensures |data| == 4 + 32 * Arity(signed.authorization.kind)
    ensures DecodeArguments(signed.authorization.kind, data) == Ok(Delivered(signed))
    ensures ContractArguments(signed.authorization.kind, data) == Some(CallOf(signed))
  {
    var a, sig := signed.authorization, signed.signature.value;
    if a.kind == CancelAuthorization {
      CancelWords(head, a, sig, data);
      AddressWordClean(a.authorizer);
    } else {
      PermitWords(head, a, sig, data);
      AddressWordClean(a.from);
      AddressWordClean(a.to);
    }
  }

  /** Decoding undoes encoding. */
  lemma DecodeOfEncode(c: Crypto, signed: SignedAuthorization)
    requires DistinctSelectors(c)
    ensures var r := EncodeExecuteCalldata(c, signed);
            r.Ok? ==> DecodeExecuteCalldata(c, r.value) == Ok(Delivered(signed))
  {
    var r, a := EncodeExecuteCalldata(c, signed), signed.authorization;
    if r.Ok? {
      var head := KindSelector(c, a.kind);
      assert r.value[..4] == head;
      SelectorsAgree(c, a.kind, r.value);
      ArgumentsRead(head, signed, r.value);
    }
  }

  /** Records that arrive unchanged are told apart by their calldata. */
  lemma EncodeInjective(c: Crypto, x: SignedAuthorization, y: SignedAuthorization)
    requires DistinctSelectors(c)
    requires EncodeExecuteCalldata(c, x).Ok? && EncodeExecuteCalldata(c, x) == EncodeExecuteCalldata(c, y)
    requires Delivered(x) == x.(domain := EMPTY_DOMAIN) && Delivered(y) == y.(domain := EMPTY_DOMAIN)
    ensures x.authorization == y.authorization && x.signature == y.signature
  {
    DecodeOfEncode(c, x);
    DecodeOfEncode(c, y);
  }

  /** The contract reads the same record from the calldata. */
  lemma ContractReadsRecord(c: Crypto, signed: SignedAuthorization)
    requires DistinctSelectors(c)
    ensures var r := EncodeExecuteCalldata(c, signed);
            r.Ok? ==> ContractCall(c, r.value) == Some(CallOf(signed))
  {
    var r, a := EncodeExecuteCalldata(c, signed), signed.authorization;
    if r.Ok? {
      var head := KindSelector(c, a.kind);
      assert r.value[..4] == head;
      SelectorsAgree(c, a.kind, r.value);
      ArgumentsRead(head, signed, r.value);
    }
  }

  /** The time words of calldata for a transfer or receive call, which the contract takes whole. */
  predicate TimesFit(p: Token.Permit) {
    p.validAfter < UINT64_LIMIT && p.validBefore < UINT64_LIMIT
  }

  /** What Go is to decode of a call that the contract executes: that call, unless a time is out of its range. */
  function DecodedCall(call: Token.Call): Result<SignedAuthorization, Fault> {
    match call
    case TransferWithAuthorization(p, sig) => DecodedTransfer(TransferAuthorization, p, sig)
    case ReceiveWithAuthorization(p, sig) => DecodedTransfer(ReceiveAuthorization, p, sig)
    case CancelAuthorization(a, n, sig) => Ok(SignedAuthorization(CancelRecord(a, n), EMPTY_DOMAIN, Some(sig)))
    case _ => Err(UnsupportedMethod)
  }

  function DecodedTransfer(kind: Kind, p: Token.Permit, sig: Signature): Result<SignedAuthorization, Fault> {
    if !TimesFit(p) then Err(Overflow) else
    Ok(SignedAuthorization(
      TransferRecord(kind, p.from, p.to, Some(p.value), p.validAfter, p.validBefore, p.nonce), EMPTY_DOMAIN, Some(sig)))
  }

  lemma ArgumentsAsExecuted(kind: Kind, data: ByteString)
    requires ContractArguments(kind, data).Some?
    ensures Supported(kind) && |data| >= 4 + 32 * Arity(kind)
    ensures DecodeArguments(kind, data) == DecodedCall(ContractArguments(kind, data).value)
  {
  }

  predicate CleanAddresses(kind: Kind, data: ByteString)
    requires |data| >= 4 + 32 * Arity(kind)
  {
    CleanAddress(WordAt(data, 0)) && (kind != CancelAuthorization ==> CleanAddress(WordAt(data, 1)))
  }

  /** The contract is stricter than Go about the upper bytes of an address, laxer about large times, and otherwise takes
      the same calldata. */
  lemma ContractTakesExactly(c: Crypto, kind: Kind, data: ByteString)
    requires DistinctSelectors(c) && Supported(kind) && |data| >= 4 && data[..4] == KindSelector(c, kind)
    ensures var r := DecodeExecuteCalldata(c, data);
            ContractCall(c, data).Some? <==>
              |data| >= 4 + 32 * Arity(kind) && CleanAddresses(kind, data) && (r.Ok? || r == Err(Overflow))
  {
    SelectorsAgree(c, kind, data);
    if |data| >= 4 + 32 * Arity(kind) {
      ArgumentsTaken(kind, data);
    }
  }

  lemma ArgumentsTaken(kind: Kind, data: ByteString)
    requires Supported(kind) && |data| >= 4 + 32 * Arity(kind)
    ensures var r := DecodeArguments(kind, data);
            ContractArguments(kind, data).Some? <==> CleanAddresses(kind, data) && (r.Ok? || r == Err(Overflow))
  {
  }

  /** Of calldata that the contract takes, Go decodes exactly the call that the contract executes, or it reports that a
      time does not fit 64 bits; it never cuts one off. */
  lemma DecodedAsExecuted(c: Crypto, data: ByteString)
    requires DistinctSelectors(c) && ContractCall(c, data).Some?
    ensures DecodeExecuteCalldata(c, data) == DecodedCall(ContractCall(c, data).value)
  {
    var kind := EntryOf(c, data[..4]).value;
    SameSelector(c, kind);
    SelectorsAgree(c, kind, data);
    ArgumentsAsExecuted(kind, data);
  }

  lemma ArgumentTimes(kind: Kind, data: ByteString, x: SignedAuthorization)
    requires MovesTokens(kind) && |data| >= 4 + 32 * 9 && DecodeArguments(kind, data) == Ok(x)
    ensures x.authorization.validAfter == WordUint(WordAt(data, 3)) < UINT64_LIMIT
    ensures x.authorization.validBefore == WordUint(WordAt(data, 4)) < UINT64_LIMIT
  {
  }

  /** Whatever the calldata, a decoded time is the whole word. */
  lemma TimesNeverCut(c: Crypto, data: ByteString)
    ensures var r := DecodeExecuteCalldata(c, data);
            r.Ok? && MovesTokens(r.value.authorization.kind) ==>
              && |data| >= 4 + 32 * 9
              && r.value.authorization.validAfter == WordUint(WordAt(data, 3)) < UINT64_LIMIT
              && r.value.authorization.validBefore == WordUint(WordAt(data, 4)) < UINT64_LIMIT
  {
    var r := DecodeExecuteCalldata(c, data);
    if r.Ok? && MovesTokens(r.value.authorization.kind) {
      DecodedUnfolded(c, data);
      ArgumentTimes(r.value.authorization.kind, data, r.value);
    }
  }

  // ----- Encoding again -----

  /** Nothing after the last argument, and nothing above an address. */
  predicate Tidy(kind: Kind, data: ByteString) {
    |data| == 4 + 32 * Arity(kind) && CleanAddresses(kind, data)
  }

  lemma AddressWordOfWordAddress(w: Word)
    ensures AddressWord(WordAddress(w)) == w <==> CleanAddress(w)
  {
    assert w == w[..12] + w[12..];
  }

  /** Two byte strings of whole words are equal if they agree word by word. */
  lemma SameWords(x: ByteString, y: ByteString, n: nat)
    requires |x| == |y| == 4 + 32 * n && x[..4] == y[..4]
    requires forall i: nat :: i < n ==> WordAt(x, i) == WordAt(y, i)
    ensures x == y
  {
    forall j | 0 <= j < |x|
      ensures x[j] == y[j]
    {
      if j < 4 {
        assert x[j] == x[..4][j] && y[j] == y[..4][j];
      } else {
        var i := (j - 4) / 32;
        assert x[j] == WordAt(x, i)[(j - 4) % 32] && y[j] == WordAt(y, i)[(j - 4) % 32];
      }
    }
  }

  /** Encoding what was decoded gives the calldata back exactly if it was tidy: the decoder takes more than the encoder
      makes, since it drops trailing bytes and the upper bytes of an address word. */
  lemma EncodeOfDecode(c: Crypto, data: ByteString)
    requires DecodeExecuteCalldata(c, data).Ok?
    ensures var x := DecodeExecuteCalldata(c, data).value;
            EncodeExecuteCalldata(c, x) == Ok(data) <==> Tidy(x.authorization.kind, data)
  {
    var x := DecodeExecuteCalldata(c, data).value;
    DecodedUnfolded(c, data);
    Reencode(data[..4], x.authorization.kind, data, x);
    Encoded(c, x, data[..4]);
  }

  lemma Encoded(c: Crypto, x: SignedAuthorization, head: ByteString)
    requires x.signature.Some? && Supported(x.authorization.kind) && head == KindSelector(c, x.authorization.kind)
    requires MovesTokens(x.authorization.kind) ==> x.authorization.value.Some?
    ensures EncodeExecuteCalldata(c, x) == Ok(head + Pack(ArgumentValues(x.authorization, x.signature.value)))
  {
  }

  lemma Reencode(head: ByteString, kind: Kind, data: ByteString, x: SignedAuthorization)
    requires Supported(kind) && |data| >= 4 + 32 * Arity(kind) && head == data[..4]
    requires DecodeArguments(kind, data) == Ok(x)
    ensures x.authorization.kind == kind && x.signature.Some? && (MovesTokens(kind) ==> x.authorization.value.Some?)
    ensures head + Pack(ArgumentValues(x.authorization, x.signature.value)) == data <==> Tidy(kind, data)
  {
    if kind == CancelAuthorization {
      ReencodeCancel(head, data, x);
    } else {
      ReencodePermit(head, data, x);
    }
  }

  /** Equal numbers are equal words. */
  lemma SameUint(v: Word, w: Word)
    requires WordUint(v) == WordUint(w)
    ensures v == w
  {
    UintWordOfWordUint(v);
    UintWordOfWordUint(w);
  }

  /** Nine words that agree in what the decoder takes from them are the same nine words. */
  lemma SamePermitWords(x: ByteString, y: ByteString)
    requires |x| == |y| == 4 + 32 * 9 && x[..4] == y[..4]
    requires WordAt(x, 0) == WordAt(y, 0) && WordAt(x, 1) == WordAt(y, 1)
    requires WordUint(WordAt(x, 2)) == WordUint(WordAt(y, 2)) && WordUint(WordAt(x, 3)) == WordUint(WordAt(y, 3))
    requires WordUint(WordAt(x, 4)) == WordUint(WordAt(y, 4)) && WordUint(WordAt(x, 6)) == WordUint(WordAt(y, 6))
    requires WordAt(x, 5) == WordAt(y, 5) && WordAt(x, 7) == WordAt(y, 7) && WordAt(x, 8) == WordAt(y, 8)
    ensures x == y
  {
    SameUint(WordAt(x, 2), WordAt(y, 2));
    SameUint(WordAt(x, 3), WordAt(y, 3));
    SameUint(WordAt(x, 4), WordAt(y, 4));
    SameUint(WordAt(x, 6), WordAt(y, 6));
    SameWords(x, y, 9);
  }

  lemma ReencodePermit(head: ByteString, data: ByteString, x: SignedAuthorization)
    requires MovesTokens(x.authorization.kind) && |data| >= 4 + 32 * 9 && head == data[..4]
    requires DecodePermit(x.authorization.kind, data) == Ok(x)
    ensures head + Pack(PermitValues(x.authorization, x.signature.value)) == data <==> Tidy(x.authorization.kind, data)
  {
    var a, sig := x.authorization, x.signature.value;
    var again := head + Pack(PermitValues(a, sig));
    PermitWords(head, a, sig, again);
    AddressWordOfWordAddress(WordAt(data, 0));
    AddressWordOfWordAddress(WordAt(data, 1));
    if Tidy(a.kind, data) {
      assert again[..4] == head;
      SmallMod(WordUint(WordAt(data, 2)), Uint256Limit());
      SamePermitWords(again, data);
    }
  }

  lemma ReencodeCancel(head: ByteString, data: ByteString, x: SignedAuthorization)
    requires x.authorization.kind == CancelAuthorization && |data| >= 4 + 32 * 5 && head == data[..4]
    requires DecodeCancel(data) == Ok(x)
    ensures head + Pack(CancelValues(x.authorization, x.signature.value)) == data <==> Tidy(CancelAuthorization, data)
  {
    var a, sig := x.authorization, x.signature.value;
    var again := head + Pack(CancelValues(a, sig));
    CancelWords(head, a, sig, again);
    AddressWordOfWordAddress(WordAt(data, 0));
    SameUint(WordAt(again, 2), WordAt(data, 2));
    if Tidy(a.kind, data) {
      assert again[..4] == head;
      SameWords(again, data, 5);
    }
  }

  // ----- Bytes after the arguments -----

  lemma ArgumentsWithTail(kind: Kind, data: ByteString, tail: ByteString)
    requires Supported(kind) && |data| >= 4 + 32 * Arity(kind)
    ensures DecodeArguments(kind, data + tail) == DecodeArguments(kind, data)
    ensures ContractArguments(kind, data + tail) == ContractArguments(kind, data)
  {
    assert forall i: nat :: i < Arity(kind) ==> WordAt(data + tail, i) == WordAt(data, i);
  }

  /** Neither side looks at what follows the arguments. */
  lemma TailIgnored(c: Crypto, data: ByteString, tail: ByteString)
    requires DistinctSelectors(c)
    ensures ContractCall(c, data).Some? ==> ContractCall(c, data + tail) == ContractCall(c, data)
    ensures DecodeExecuteCalldata(c, data).Ok? ==> DecodeExecuteCalldata(c, data + tail) == DecodeExecuteCalldata(c, data)
  {
    if ContractCall(c, data).Some? {
      TailOfCall(c, data, tail);
    }
    if DecodeExecuteCalldata(c, data).Ok? {
      DecodedUnfolded(c, data);
      TailOfKind(c, DecodeExecuteCalldata(c, data).value.authorization.kind, data, tail);
    }
  }

  lemma TailOfCall(c: Crypto, data: ByteString, tail: ByteString)
    requires DistinctSelectors(c) && ContractCall(c, data).Some?
    ensures ContractCall(c, data + tail) == ContractCall(c, data)
  {
    var kind := EntryOf(c, data[..4]).value;
    SameSelector(c, kind);
    ArgumentsAsExecuted(kind, data);
    TailOfKind(c, kind, data, tail);
  }

  lemma TailOfKind(c: Crypto, kind: Kind, data: ByteString, tail: ByteString)
    requires DistinctSelectors(c) && Supported(kind) && |data| >= 4 + 32 * Arity(kind) && data[..4] == KindSelector(c, kind)
    ensures ContractCall(c, data + tail) == ContractCall(c, data)
    ensures DecodeExecuteCalldata(c, data + tail) == DecodeExecuteCalldata(c, data)
  {
    assert (data + tail)[..4] == data[..4];
    SelectorsAgree(c, kind, data);
    SelectorsAgree(c, kind, data + tail);
    ArgumentsWithTail(kind, data, tail);
  }
}
