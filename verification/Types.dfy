/** internal/eip3009/types.go: the records of an authorization and what makes them valid. */
module Types {
  import opened Wrappers
  import opened Faults
  import opened Bytes
  import opened Text

  /** AuthorizationKind, a string of which three values are supported. */
  datatype Kind = TransferAuthorization | ReceiveAuthorization | CancelAuthorization | OtherKind(name: string)

  datatype Domain = Domain(name: string, version: string, chainId: Option<int>, verifyingContract: Address)

  datatype Authorization = Authorization(
    kind: Kind,
    from: Address,
    to: Address,
    value: Option<int>,
    validAfter: uint64,
    validBefore: uint64,
    nonce: Word,
    authorizer: Address)

  datatype Signature = Signature(v: byte, r: Word, s: Word)

  datatype SignedAuthorization = SignedAuthorization(
    authorization: Authorization,
    domain: Domain,
    signature: Option<Signature>)

  const EMPTY_DOMAIN := Domain("", "", None, ZERO_ADDRESS)

  /** The record with the fields that Go leaves at their zero values. */
  function CancelRecord(authorizer: Address, nonce: Word): Authorization {
    Authorization(CancelAuthorization, ZERO_ADDRESS, ZERO_ADDRESS, None, 0, 0, nonce, authorizer)
  }

  function TransferRecord(kind: Kind, from: Address, to: Address, value: Option<int>,
                          validAfter: uint64, validBefore: uint64, nonce: Word): Authorization {
    Authorization(kind, from, to, value, validAfter, validBefore, nonce, ZERO_ADDRESS)
  }

  predicate MovesTokens(kind: Kind) {
    kind == TransferAuthorization || kind == ReceiveAuthorization
  }

  predicate Supported(kind: Kind) {
    MovesTokens(kind) || kind == CancelAuthorization
  }

  /** Only the fields of the record's kind are set. */
  predicate OnlyOwnFields(a: Authorization) {
    if a.kind == CancelAuthorization then a == CancelRecord(a.authorizer, a.nonce)
    else a.authorizer == ZERO_ADDRESS
  }

  function KindText(kind: Kind): string {
    match kind
    case TransferAuthorization => "transferWithAuthorization"
    case ReceiveAuthorization => "receiveWithAuthorization"
    case CancelAuthorization => "cancelAuthorization"
    case OtherKind(name) => name
  }

  function PrimaryType(kind: Kind): Result<string, Fault> {
    match kind
    case TransferAuthorization => Ok("TransferWithAuthorization")
    case ReceiveAuthorization => Ok("ReceiveWithAuthorization")
    case CancelAuthorization => Ok("CancelAuthorization")
    case OtherKind(_) => Err(UnsupportedKind)
  }

  function NormalizeAuthorizationKind(value: string): Result<Kind, Fault> {
    var text := Lower(TrimSpace(value));
    if text == "" || text == "transfer" || text == "transferwithauthorization" || text == "transfer_with_authorization" then
      Ok(TransferAuthorization)
    else if text == "receive" || text == "receivewithauthorization" || text == "receive_with_authorization" then
      Ok(ReceiveAuthorization)
    else if text == "cancel" || text == "cancelauthorization" || text == "cancel_authorization" then
      Ok(CancelAuthorization)
    else
      Err(UnsupportedKind)
  }

  /** A supported kind is understood by either of its names. */
  lemma KindNamesUnderstood(kind: Kind)
    requires Supported(kind)
    ensures NormalizeAuthorizationKind(KindText(kind)) == Ok(kind)
    ensures PrimaryType(kind).Ok? && NormalizeAuthorizationKind(PrimaryType(kind).value) == Ok(kind)
  {
    match kind {
      case TransferAuthorization => TransferNames();
      case ReceiveAuthorization => ReceiveNames();
      case CancelAuthorization => CancelNames();
    }
  }

  /** The names of a kind, in lower case: short, as a method, and with underscores. No name at all means a transfer. */
  function KindNames(kind: Kind): set<string> {
    match kind
    case TransferAuthorization =>
      {"", "transfer", "transfer" + "withauthorization", "transfer" + "_with_authorization"}
    case ReceiveAuthorization =>
      {"receive", "receive" + "withauthorization", "receive" + "_with_authorization"}
    case CancelAuthorization =>
      {"cancel", "cancel" + "authorization", "cancel" + "_authorization"}
    case OtherKind(_) => {}
  }

  /** A text is understood as a kind exactly if it is one of its names, in any letter case and with any white space
      around it. */
  lemma KindNamesExactly(text: string, kind: Kind)
    ensures NormalizeAuthorizationKind(text) == Ok(kind) <==> Lower(TrimSpace(text)) in KindNames(kind)
  {
    LongNames();
    assert |"transfer"| == 8 && |"receive"| == 7 && |"cancel"| == 6;
  }

  /** No two names have the same length. */
  lemma LongNames()
    ensures "transfer" + "withauthorization" == "transferwithauthorization" && |"transferwithauthorization"| == 25
    ensures "transfer" + "_with_authorization" == "transfer_with_authorization" && |"transfer_with_authorization"| == 27
    ensures "receive" + "withauthorization" == "receivewithauthorization" && |"receivewithauthorization"| == 24
    ensures "receive" + "_with_authorization" == "receive_with_authorization" && |"receive_with_authorization"| == 26
    ensures "cancel" + "authorization" == "cancelauthorization" && |"cancelauthorization"| == 19
    ensures "cancel" + "_authorization" == "cancel_authorization" && |"cancel_authorization"| == 20
  {
  }

  lemma LowerTransferNames()
    ensures Lower("transferWithAuthorization") == Lower("TransferWithAuthorization") == "transferwithauthorization"
  {
    assert |"transferWithAuthorization"| == |"TransferWithAuthorization"| == 25;
  }

  lemma LowerReceiveNames()
    ensures Lower("receiveWithAuthorization") == Lower("ReceiveWithAuthorization") == "receivewithauthorization"
  {
    assert |"receiveWithAuthorization"| == |"ReceiveWithAuthorization"| == 24;
  }

  lemma LowerCancelNames()
    ensures Lower("cancelAuthorization") == Lower("CancelAuthorization") == "cancelauthorization"
  {
    assert |"cancelAuthorization"| == |"CancelAuthorization"| == 19;
  }

  lemma TransferNames()
    ensures NormalizeAuthorizationKind("transferWithAuthorization") == Ok(TransferAuthorization)
    ensures NormalizeAuthorizationKind("TransferWithAuthorization") == Ok(TransferAuthorization)
  {
    TrimSpaceFixed("transferWithAuthorization");
    TrimSpaceFixed("TransferWithAuthorization");
    LowerTransferNames();
  }

  lemma ReceiveNames()
    ensures NormalizeAuthorizationKind("receiveWithAuthorization") == Ok(ReceiveAuthorization)
    ensures NormalizeAuthorizationKind("ReceiveWithAuthorization") == Ok(ReceiveAuthorization)
  {
    TrimSpaceFixed("receiveWithAuthorization");
    TrimSpaceFixed("ReceiveWithAuthorization");
    LowerReceiveNames();
  }

  lemma CancelNames()
    ensures NormalizeAuthorizationKind("cancelAuthorization") == Ok(CancelAuthorization)
    ensures NormalizeAuthorizationKind("CancelAuthorization") == Ok(CancelAuthorization)
  {
    TrimSpaceFixed("cancelAuthorization");
    TrimSpaceFixed("CancelAuthorization");
    LowerCancelNames();
  }

  function ValidateDomain(d: Domain): Result<(), Fault> {
    if d.name == "" then Err(NameRequired)
    else if d.version == "" then Err(VersionRequired)
    else if d.chainId.None? || d.chainId.value <= 0 then Err(ChainIdRequired)
    else if d.verifyingContract == ZERO_ADDRESS then Err(ContractRequired)
    else Ok(())
  }

  function ValidateAuthorization(a: Authorization): Result<(), Fault> {
    match a.kind
    case TransferAuthorization | ReceiveAuthorization =>
      if a.from == ZERO_ADDRESS then Err(FromRequired)
      else if a.to == ZERO_ADDRESS then Err(ToRequired)
      else if a.value.None? || a.value.value < 0 then Err(ValueRequired)
      else Ok(())
    case CancelAuthorization =>
      if a.authorizer == ZERO_ADDRESS then Err(AuthorizerRequired) else Ok(())
    case OtherKind(_) =>
      Err(UnsupportedKind)
  }

  /** Whose nonce a record uses. */
  function Holder(a: Authorization): Address {
    if a.kind == CancelAuthorization then a.authorizer else a.from
  }

  /** Whose signature an authorization needs. */
  function SignerAddress(a: Authorization): Result<Address, Fault> {
    match a.kind
    case TransferAuthorization | ReceiveAuthorization =>
      if a.from == ZERO_ADDRESS then Err(FromRequired) else Ok(a.from)
    case CancelAuthorization =>
      if a.authorizer == ZERO_ADDRESS then Err(AuthorizerRequired) else Ok(a.authorizer)
    case OtherKind(_) =>
      Err(UnsupportedKind)
  }
}
