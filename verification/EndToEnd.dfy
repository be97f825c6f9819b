/** From a signature made in Go, by message or calldata, to the contract's decision. */
module EndToEnd {
  import opened Wrappers
  import opened Faults
  import opened Bytes
  import opened Text
  import opened Types
  import opened Crypto
  import opened Eip712
  import opened Signing
  import opened Calldata
  import Json
  import Message
  import MessageRoundTrip
  import Token
  import Runs

  /** The contract's domain. */
  function DomainOf(t: Token.Config): Domain {
    Domain(t.name, t.version, Some(t.chainId), t.contract)
  }

  predicate Deployed(t: Token.Config, d: Domain) {
    d == DomainOf(t)
  }

  /** A call can be made of the record. */
  predicate Sendable(a: Authorization) {
    Supported(a.kind) && (MovesTokens(a.kind) ==> a.value.Some?)
  }

  /** What Go asks of a domain: names, a chain, and an address that is not zero. */
  predicate Named(d: Domain) {
    && |d.name| > 0 && |d.version| > 0
    && d.verifyingContract != ZERO_ADDRESS && d.chainId.Some? && d.chainId.value >= 1
  }

  /** What Go asks of the fields: no zero address and no negative value. */
  predicate Presentable(a: Authorization)
    requires Sendable(a)
  {
    Holder(a) != ZERO_ADDRESS && (MovesTokens(a.kind) ==> a.to != ZERO_ADDRESS && a.value.value >= 0)
  }

  /** Go signs exactly what is complete in this sense. */
  lemma SignsExactly(c: Crypto, d: Domain, a: Authorization, key: Key)
    ensures SignAuthorization(c, d, a, Some(key)).Ok? <==> Named(d) && Sendable(a) && Presentable(a)
  {
  }

  /** The struct hash that the contract computes when the record's call arrives. */
  function ContractStructHash(t: Token.Config, a: Authorization): Word
    requires Sendable(a)
  {
    match a.kind
    case TransferAuthorization => Token.PermitStructHash(t, Token.TypeHash(t, Token.TRANSFER_TYPE), PermitOf(a))
    case ReceiveAuthorization => Token.PermitStructHash(t, Token.TypeHash(t, Token.RECEIVE_TYPE), PermitOf(a))
    case CancelAuthorization => Token.CancelStructHash(t, a.authorizer, a.nonce)
  }

  // ----- One digest, computed twice -----

  lemma SameSeparator(t: Token.Config, d: Domain)
    requires Deployed(t, d) && ValidateDomain(d).Ok?
    ensures DomainSeparator(t.crypto, d) == Ok(Token.DomainSeparatorV4(t))
  {
    PackOf5(DomainValues(t.crypto, d));
  }

  lemma SameValueWord(n: int)
    ensures UintWord(n % Uint256Limit()) == UintWord(n)
  {
    SmallMod(n % Uint256Limit(), Uint256Limit());
  }

  lemma SamePermitHash(t: Token.Config, a: Authorization)
    requires MovesTokens(a.kind) && ValidateAuthorization(a).Ok?
    ensures AuthorizationStructHash(t.crypto, a)
         == Ok(Token.PermitStructHash(t, Token.TypeHash(t, TypeText(a.kind)), PermitOf(a)))
  {
    PackOf7(StructValues(t.crypto, a));
    SameValueWord(a.value.value);
  }

  lemma SameCancelHash(t: Token.Config, a: Authorization)
    requires a.kind == CancelAuthorization && ValidateAuthorization(a).Ok?
    ensures AuthorizationStructHash(t.crypto, a) == Ok(Token.CancelStructHash(t, a.authorizer, a.nonce))
  {
    PackOf3(StructValues(t.crypto, a));
  }

  /** The contract recomputes the digest that Go signed. */
  lemma SameDigest(t: Token.Config, d: Domain, a: Authorization)
    requires Deployed(t, d) && ValidateDomain(d).Ok? && ValidateAuthorization(a).Ok?
    ensures TypedDataHash(t.crypto, d, a) == Ok(Token.HashTypedDataV4(t, ContractStructHash(t, a)))
  {
    SameSeparator(t, d);
    if a.kind == CancelAuthorization {
      SameCancelHash(t, a);
    } else {
      SamePermitHash(t, a);
    }
  }

  // ----- Signatures -----

  /** What the contract's recovery adds to Go's: one convention for v, and a lower-half S. */
  lemma RecoveryCompared(c: Crypto, digest: Word, sig: Signature, signer: Address)
    requires signer != ZERO_ADDRESS
    ensures Token.EcdsaRecover(c, digest, sig) == Some(signer) <==>
              && sig.v in {27, 28} && c.lowS(sig.s)
              && c.recover(digest, Layout(sig.r, sig.s, RecoveryId(sig.v).value)) == Some(signer)
  {
  }

  lemma VerificationUnfolded(c: Crypto, signed: SignedAuthorization, digest: Word)
    requires signed.signature.Some? && TypedDataHash(c, signed.domain, signed.authorization) == Ok(digest)
    ensures var sig, want := signed.signature.value, SignerAddress(signed.authorization);
            VerifySignedAuthorization(c, signed).Ok? <==>
              && want.Ok? && RecoveryId(sig.v).Some?
              && c.recover(digest, Layout(sig.r, sig.s, RecoveryId(sig.v).value)) == Some(want.value)
  {
  }

  /** Go verifies a signature for the contract's domain, and its v is already 27 or 28 and its S in the lower half,
      exactly if the contract takes it, and contract and record are complete. */
  lemma AcceptedIffVerified(t: Token.Config, signed: SignedAuthorization)
    requires Deployed(t, signed.domain) && Sendable(signed.authorization) && signed.signature.Some?
    ensures var a, sig := signed.authorization, signed.signature.value;
            Named(DomainOf(t)) && Presentable(a) && Token.SignedBy(t, Holder(a), ContractStructHash(t, a), sig) <==>
              VerifySignedAuthorization(t.crypto, signed).Ok? && sig.v in {27, 28} && t.crypto.lowS(sig.s)
  {
    var a, sig := signed.authorization, signed.signature.value;
    SignsExactly(t.crypto, signed.domain, a, Key(0));
    if Named(DomainOf(t)) && Presentable(a) {
      var digest := Token.HashTypedDataV4(t, ContractStructHash(t, a));
      SameDigest(t, signed.domain, a);
      RecoveryCompared(t.crypto, digest, sig, Holder(a));
      VerificationUnfolded(t.crypto, signed, digest);
    }
  }

  /** An imported signature with v of 0 or 1 is refused as it is; with v normalized, any signature that verifies in Go
      and has a lower-half S is taken, and no other. */
  lemma NormalizedIsAccepted(t: Token.Config, signed: SignedAuthorization)
    requires Deployed(t, signed.domain) && Sendable(signed.authorization) && Named(DomainOf(t)) && Presentable(signed.authorization)
    requires signed.signature.Some? && NormalizedV(signed.signature.value.v).Ok?
    ensures var a, sig := signed.authorization, signed.signature.value;
            && (sig.v in {0, 1} ==> !Token.SignedBy(t, Holder(a), ContractStructHash(t, a), sig))
            && (Token.SignedBy(t, Holder(a), ContractStructHash(t, a), sig.(v := NormalizedV(sig.v).value)) <==>
                  VerifySignedAuthorization(t.crypto, signed).Ok? && t.crypto.lowS(sig.s))
  {
    AcceptedIffVerified(t, signed);
    AcceptedIffVerified(t, WithV(signed, NormalizedV(signed.signature.value.v).value));
    RecoveryStableUnderV(t.crypto, signed, VOptions(true, false, false), NoTerminal);
  }

  // ----- The whole way -----

  /** When the contract executes a record that its signer signed. */
  predicate Executable(s: Token.Ledger, caller: Address, now: nat, a: Authorization)
    requires Sendable(a)
  {
    if a.kind == CancelAuthorization then (a.authorizer, a.nonce) !in s.spent
    else
      && a.validAfter < now < a.validBefore
      && (a.from, a.nonce) !in s.spent
      && a.value.value % Uint256Limit() <= Token.Balance(s.balances, a.from)
      && (a.kind == ReceiveAuthorization ==> caller == a.to)
  }

  lemma UsableRecord(t: Token.Config, s: Token.Ledger, now: uint256, typeText: string, a: Authorization, sig: Signature)
    requires MovesTokens(a.kind) && Sendable(a)
    ensures Runs.Usable(t, s, now, typeText, PermitOf(a), sig) <==>
              && Token.SignedBy(t, a.from, Token.PermitStructHash(t, Token.TypeHash(t, typeText), PermitOf(a)), sig)
              && a.from != ZERO_ADDRESS && a.to != ZERO_ADDRESS
              && a.validAfter < now < a.validBefore
              && (a.from, a.nonce) !in s.spent
              && a.value.value % Uint256Limit() <= Token.Balance(s.balances, a.from)
  {
  }

  /** The contract's decision about a record's call, whoever signed it. */
  lemma DecisionOnRecord(t: Token.Config, signed: SignedAuthorization, s: Token.Ledger, caller: Address, now: uint256)
    requires Sendable(signed.authorization) && signed.signature.Some?
    ensures var a := signed.authorization;
            Runs.Acceptable(t, s, Token.Tx(caller, now, CallOf(signed))) <==>
              && Token.SignedBy(t, Holder(a), ContractStructHash(t, a), signed.signature.value)
              && Holder(a) != ZERO_ADDRESS && (MovesTokens(a.kind) ==> a.to != ZERO_ADDRESS)
              && Executable(s, caller, now, a)
  {
    var a, sig := signed.authorization, signed.signature.value;
    match a.kind {
      case TransferAuthorization => UsableRecord(t, s, now, Token.TRANSFER_TYPE, a, sig);
      case ReceiveAuthorization => UsableRecord(t, s, now, Token.RECEIVE_TYPE, a, sig);
      case CancelAuthorization =>
    }
  }

  lemma SignedIsExecuted(t: Token.Config, signed: SignedAuthorization, s: Token.Ledger, caller: Address, now: uint256)
    requires Deployed(t, signed.domain) && Named(DomainOf(t)) && Sendable(signed.authorization) && Presentable(signed.authorization)
    requires signed.signature.Some? && signed.signature.value.v in {27, 28} && t.crypto.lowS(signed.signature.value.s)
    ensures Runs.Acceptable(t, s, Token.Tx(caller, now, CallOf(signed))) <==>
              VerifySignedAuthorization(t.crypto, signed).Ok? && Executable(s, caller, now, signed.authorization)
  {
    AcceptedIffVerified(t, signed);
    DecisionOnRecord(t, signed, s, caller, now);
  }

  lemma SentAsItsCall(c: Crypto, signed: SignedAuthorization)
    requires DistinctSelectors(c) && Sendable(signed.authorization) && signed.signature.Some?
    ensures EncodeExecuteCalldata(c, signed).Ok?
    ensures ContractCall(c, EncodeExecuteCalldata(c, signed).value) == Some(CallOf(signed))
  {
    ContractReadsRecord(c, signed);
  }

  /** A record signed in Go and encoded as calldata arrives at the contract as the call of that record, and succeeds
      exactly if the key was the signer's and the contract's conditions are met. A value of 2^256 or more, which Go
      signs, counts as its remainder throughout. */
  lemma SignedInGoExecutedOnChain(
    t: Token.Config, d: Domain, a: Authorization, key: Key, signed: SignedAuthorization,
    s: Token.Ledger, caller: Address, now: uint256)
    requires Lawful(t.crypto) && DistinctSelectors(t.crypto) && Deployed(t, d)
    requires SignAuthorization(t.crypto, d, a, Some(key)) == Ok(signed)
    ensures signed.signature.Some? && signed.authorization == a && Sendable(a)
    ensures EncodeExecuteCalldata(t.crypto, signed).Ok?
    ensures ContractCall(t.crypto, EncodeExecuteCalldata(t.crypto, signed).value) == Some(CallOf(signed))
    ensures Runs.Acceptable(t, s, Token.Tx(caller, now, CallOf(signed))) <==>
              t.crypto.address(key) == Holder(a) && Executable(s, caller, now, a)
  {
    SignThenRecover(t.crypto, d, a, key);
    SignsExactly(t.crypto, d, a, key);
    SentAsItsCall(t.crypto, signed);
    SignedIsExecuted(t, signed, s, caller, now);
  }

  // ----- The way back -----

  /** The record of a call, with the contract's domain. */
  function RecordOf(t: Token.Config, call: Token.Call): Result<SignedAuthorization, Fault> {
    match DecodedCall(call)
    case Ok(x) => Ok(x.(domain := DomainOf(t)))
    case Err(e) => Err(e)
  }

  /** An authorization call with times of 64 bits, which is all that Go takes. */
  predicate InRange(call: Token.Call) {
    match call
    case TransferWithAuthorization(p, _) => TimesFit(p)
    case ReceiveWithAuthorization(p, _) => TimesFit(p)
    case CancelAuthorization(_, _, _) => true
    case _ => false
  }

  lemma RecordOfCall(t: Token.Config, call: Token.Call)
    requires InRange(call)
    ensures var r := RecordOf(t, call);
            && r.Ok? && r.value.signature.Some? && Deployed(t, r.value.domain)
            && Sendable(r.value.authorization) && CallOf(r.value) == call
            && (MovesTokens(r.value.authorization.kind) ==> r.value.authorization.value.value >= 0)
  {
    match call {
      case TransferWithAuthorization(p, _) => SmallMod(p.value, Uint256Limit());
      case ReceiveWithAuthorization(p, _) => SmallMod(p.value, Uint256Limit());
      case _ =>
    }
  }

  /** Whatever the contract accepts, from anyone's software, Go validates and verifies: the record of the call has a
      valid domain and valid fields, and its signature is its signer's. */
  lemma AcceptedIsVerified(t: Token.Config, s: Token.Ledger, tx: Token.Tx)
    requires Named(DomainOf(t)) && InRange(tx.call) && Runs.Acceptable(t, s, tx)
    ensures var r := RecordOf(t, tx.call);
            && r.Ok?
            && ValidateDomain(r.value.domain).Ok? && ValidateAuthorization(r.value.authorization).Ok?
            && VerifySignedAuthorization(t.crypto, r.value).Ok?
  {
    RecordOfCall(t, tx.call);
    var x := RecordOf(t, tx.call).value;
    DecisionOnRecord(t, x, s, tx.caller, tx.timestamp);
    AcceptedIffVerified(t, x);
    SignsExactly(t.crypto, x.domain, x.authorization, Key(0));
  }

  /** So of calldata that the contract accepts Go decodes a record that verifies under the contract's domain. */
  lemma AcceptedCalldataVerifies(t: Token.Config, s: Token.Ledger, caller: Address, now: uint256, data: ByteString)
    requires DistinctSelectors(t.crypto) && Named(DomainOf(t)) && ContractCall(t.crypto, data).Some?
    requires var call := ContractCall(t.crypto, data).value;
             InRange(call) && Runs.Acceptable(t, s, Token.Tx(caller, now, call))
    ensures var r := DecodeExecuteCalldata(t.crypto, data);
            && r.Ok?
            && VerifySignedAuthorization(t.crypto, r.value.(domain := DomainOf(t))).Ok?
  {
    DecodedAsExecuted(t.crypto, data);
    AcceptedIsVerified(t, s, Token.Tx(caller, now, ContractCall(t.crypto, data).value));
  }

  // ----- By message -----

  /** Printing a signed record, reading the message back and encoding it makes the same calldata: a broadcast of the
      printed message is a broadcast of the record. */
  lemma BroadcastOfPrinted(c: Crypto, style: Json.Style, signed: SignedAuthorization, signatureValid: Option<bool>)
    requires Json.Faithful(style) && EncodeExecuteCalldata(c, signed).Ok?
    ensures Json.SignedFields(style, signed, signatureValid).Ok?
    ensures var r := Message.ParseMessage(Json.JObject(Json.SignedFields(style, signed, signatureValid).value));
            r.Ok? && EncodeExecuteCalldata(c, r.value) == EncodeExecuteCalldata(c, signed)
  {
    MessageRoundTrip.SignedRoundTrip(style, signed, signatureValid);
  }
}
