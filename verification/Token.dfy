/** solidity-eip3009-token/src/EIP3009Token.sol: the contract. First what a transaction does to the ledger, as a
    specification; then the contract's own code, proved against it. */
module Token {
  import opened Wrappers
  import opened Bytes
  import opened Text
  import opened Crypto
  import Types

  type Signature = Types.Signature

  // ----- State and messages -----

  /** What the constructor fixes, and the chain it is deployed on. */
  datatype Config = Config(
    crypto: Crypto,
    name: string,
    version: string,
    chainId: uint256,
    contract: Address,
    owner: Address)

  datatype Event =
    | AuthorizationUsed(authorizer: Address, nonce: Word)
    | AuthorizationCanceled(authorizer: Address, nonce: Word)
    | Transferred(from: Address, to: Address, value: nat)

  datatype Ledger = Ledger(
    balances: map<Address, nat>,
    totalSupply: nat,
    /** the pairs that the mapping authorizationState sends to true */
    spent: set<(Address, Word)>,
    log: seq<Event>)

  const EMPTY_LEDGER := Ledger(map[], 0, {}, [])

  /** The signed fields of a transfer or receive authorization. */
  datatype Permit = Permit(
    from: Address,
    to: Address,
    value: uint256,
    validAfter: uint256,
    validBefore: uint256,
    nonce: Word)

  datatype Call =
    | TransferWithAuthorization(permit: Permit, sig: Signature)
    | ReceiveWithAuthorization(permit: Permit, sig: Signature)
    | CancelAuthorization(authorizer: Address, cancelNonce: Word, cancelSig: Signature)
    | Mint(mintTo: Address, minted: uint256)
    | PlainTransfer(payee: Address, amount: uint256)

  /** An external call: who sends it, and when its block is. */
  datatype Tx = Tx(caller: Address, timestamp: uint256, call: Call)

  datatype Revert =
    | CallerMustBePayee | AuthorizationNotYetValid | AuthorizationExpired | AuthorizationAlreadyUsed
    | BadSignature | InvalidSignature
    | InvalidSender | InvalidReceiver | InsufficientBalance | ArithmeticOverflow | NotOwner

  function Balance(balances: map<Address, nat>, a: Address): nat {
    if a in balances then balances[a] else 0
  }

  // ----- Entry points -----

  const PERMIT_PARAMETERS :=
    "(address," + ("address," + ("uint256," + ("uint256," + ("uint256,"
    + ("bytes32," + ("uint8," + ("bytes32," + "bytes32)")))))))
  const TRANSFER_FUNCTION := "transferWithAuthorization" + PERMIT_PARAMETERS
  const RECEIVE_FUNCTION := "receiveWithAuthorization" + PERMIT_PARAMETERS
  const CANCEL_PARAMETERS := "(address," + ("bytes32," + ("uint8," + ("bytes32," + "bytes32)")))
  const CANCEL_FUNCTION := "cancelAuthorization" + CANCEL_PARAMETERS

  /** The compiler dispatches on the first four bytes of the hash of a function's name and parameter types. */
  function FunctionSelector(c: Crypto, text: string): (s: ByteString)
    ensures |s| == 4
  {
    c.keccak(Utf8(text))[..4]
  }

  // ----- The digest, as the contract computes it -----

  const DOMAIN_TYPE :=
    "EIP712Domain" + ("(string name," + ("string version," + ("uint256 chainId," + "address verifyingContract)")))
  const TRANSFER_FIELDS :=
    "(address from," + ("address to," + ("uint256 value," + ("uint256 validAfter," + ("uint256 validBefore," + "bytes32 nonce)"))))
  const TRANSFER_TYPE := "TransferWithAuthorization" + TRANSFER_FIELDS
  const RECEIVE_TYPE := "ReceiveWithAuthorization" + TRANSFER_FIELDS
  const CANCEL_TYPE := "CancelAuthorization" + ("(address authorizer," + "bytes32 nonce)")

  function TypeHash(t: Config, typeText: string): Word {
    t.crypto.keccak(Utf8(typeText))
  }

  function DomainSeparatorV4(t: Config): Word {
    t.crypto.keccak(
      TypeHash(t, DOMAIN_TYPE) + t.crypto.keccak(Utf8(t.name)) + t.crypto.keccak(Utf8(t.version))
      + UintWord(t.chainId) + AddressWord(t.contract))
  }

  function HashTypedDataV4(t: Config, structHash: Word): Word {
    t.crypto.keccak([0x19, 0x01] + DomainSeparatorV4(t) + structHash)
  }

  /** keccak256(abi.encode(typeHash, from, to, value, validAfter, validBefore, nonce)) */
  function PermitStructHash(t: Config, typeHash: Word, p: Permit): Word {
    t.crypto.keccak(
      typeHash + AddressWord(p.from) + AddressWord(p.to) + UintWord(p.value)
      + UintWord(p.validAfter) + UintWord(p.validBefore) + p.nonce)
  }

  /** keccak256(abi.encode(CANCEL_AUTHORIZATION_TYPEHASH, authorizer, nonce)) */
  function CancelStructHash(t: Config, authorizer: Address, nonce: Word): Word {
    t.crypto.keccak(TypeHash(t, CANCEL_TYPE) + AddressWord(authorizer) + nonce)
  }

  /** ECDSA.recover: only lower-half S and v in {27, 28}, and never the zero address. */
  function EcdsaRecover(c: Crypto, digest: Word, sig: Signature): Option<Address> {
    if !c.lowS(sig.s) || (sig.v != 27 && sig.v != 28) then None
    else
      var signer := c.recover(digest, sig.r + sig.s + [sig.v - 27]);
      if signer == Some(ZERO_ADDRESS) then None else signer
  }

  /** The signature is the signer's own, over this struct hash and this contract's domain. */
  predicate SignedBy(t: Config, signer: Address, structHash: Word, sig: Signature) {
    EcdsaRecover(t.crypto, HashTypedDataV4(t, structHash), sig) == Some(signer)
  }

  // ----- What a transaction does -----

  function SignatureRefusal(t: Config, signer: Address, structHash: Word, sig: Signature): Option<Revert> {
    if SignedBy(t, signer, structHash, sig) then None
    else if EcdsaRecover(t.crypto, HashTypedDataV4(t, structHash), sig).None? then Some(BadSignature)
    else Some(InvalidSignature)
  }

  function UseRefusal(t: Config, s: Ledger, now: uint256, typeText: string, p: Permit, sig: Signature): Option<Revert> {
    if now <= p.validAfter then Some(AuthorizationNotYetValid)
    else if p.validBefore <= now then Some(AuthorizationExpired)
    else if (p.from, p.nonce) in s.spent then Some(AuthorizationAlreadyUsed)
    else SignatureRefusal(t, p.from, PermitStructHash(t, TypeHash(t, typeText), p), sig)
  }

  function MoveRefusal(s: Ledger, from: Address, to: Address, value: nat): Option<Revert> {
    if from == ZERO_ADDRESS then Some(InvalidSender)
    else if to == ZERO_ADDRESS then Some(InvalidReceiver)
    else if Balance(s.balances, from) < value then Some(InsufficientBalance)
    else None
  }

  function MintRefusal(t: Config, s: Ledger, caller: Address, to: Address, value: nat): Option<Revert> {
    if caller != t.owner then Some(NotOwner)
    else if to == ZERO_ADDRESS then Some(InvalidReceiver)
    else if s.totalSupply + value >= Uint256Limit() then Some(ArithmeticOverflow)
    else None
  }

  function OrElse(first: Option<Revert>, second: Option<Revert>): Option<Revert> {
    if first.Some? then first else second
  }

  /** Why a transaction reverts, if it does: the first objection counts. */
  function Refusal(t: Config, s: Ledger, tx: Tx): Option<Revert> {
    match tx.call
    case TransferWithAuthorization(p, sig) =>
      OrElse(UseRefusal(t, s, tx.timestamp, TRANSFER_TYPE, p, sig), MoveRefusal(s, p.from, p.to, p.value))
    case ReceiveWithAuthorization(p, sig) =>
      OrElse(if tx.caller != p.to then Some(CallerMustBePayee) else None,
        OrElse(UseRefusal(t, s, tx.timestamp, RECEIVE_TYPE, p, sig), MoveRefusal(s, p.from, p.to, p.value)))
    case CancelAuthorization(authorizer, nonce, sig) =>
      OrElse(if (authorizer, nonce) in s.spent then Some(AuthorizationAlreadyUsed) else None,
        SignatureRefusal(t, authorizer, CancelStructHash(t, authorizer, nonce), sig))
    case Mint(to, value) =>
      MintRefusal(t, s, tx.caller, to, value)
    case PlainTransfer(to, value) =>
      MoveRefusal(s, tx.caller, to, value)
  }

  /** The pair of authorizer and nonce that a call spends. */
  function Spends(tx: Tx): Option<(Address, Word)> {
    match tx.call
    case TransferWithAuthorization(p, _) => Some((p.from, p.nonce))
    case ReceiveWithAuthorization(p, _) => Some((p.from, p.nonce))
    case CancelAuthorization(authorizer, nonce, _) => Some((authorizer, nonce))
    case _ => None
  }

  function Events(tx: Tx): seq<Event> {
    match tx.call
    case TransferWithAuthorization(p, _) => [AuthorizationUsed(p.from, p.nonce), Transferred(p.from, p.to, p.value)]
    case ReceiveWithAuthorization(p, _) => [AuthorizationUsed(p.from, p.nonce), Transferred(p.from, p.to, p.value)]
    case CancelAuthorization(authorizer, nonce, _) => [AuthorizationCanceled(authorizer, nonce)]
    case Mint(to, value) => [Transferred(ZERO_ADDRESS, to, value)]
    case PlainTransfer(to, value) => [Transferred(tx.caller, to, value)]
  }

  function Debited(balances: map<Address, nat>, from: Address, value: nat): map<Address, nat> {
    var balance := Balance(balances, from);
    balances[from := if value <= balance then balance - value else 0]
  }

  /** Taking from the payer first matters when payer and payee are the same. */
  function Moved(balances: map<Address, nat>, from: Address, to: Address, value: nat): map<Address, nat> {
    var debited := if from == ZERO_ADDRESS then balances else Debited(balances, from, value);
    debited[to := Balance(debited, to) + value]
  }

  /** What an accepted transaction does. */
  function Effect(s: Ledger, tx: Tx): Ledger {
    var after :=
      match tx.call
      case TransferWithAuthorization(p, _) => s.(balances := Moved(s.balances, p.from, p.to, p.value))
      case ReceiveWithAuthorization(p, _) => s.(balances := Moved(s.balances, p.from, p.to, p.value))
      case CancelAuthorization(_, _, _) => s
      case Mint(to, value) =>
        s.(balances := Moved(s.balances, ZERO_ADDRESS, to, value), totalSupply := s.totalSupply + value)
      case PlainTransfer(to, value) => s.(balances := Moved(s.balances, tx.caller, to, value));
    var spent := match Spends(tx) case Some(pair) => s.spent + {pair} case None => s.spent;
    after.(spent := spent, log := s.log + Events(tx))
  }

  /** One transaction with the rollback of the EVM: all of its effect, or none. */
  function Apply(t: Config, s: Ledger, tx: Tx): Ledger {
    if Refusal(t, s, tx).None? then Effect(s, tx) else s
  }

  // ----- The sum of the balances -----

  ghost function Holder(balances: map<Address, nat>): (a: Address)
    requires balances != map[]
    ensures a in balances
  {
    assert balances.Keys != {};
    var a :| a in balances;
    a
  }

  ghost function Total(balances: map<Address, nat>): nat
    decreases |balances|
  {
    if balances == map[] then 0
    else
      var a := Holder(balances);
      balances[a] + Total(balances - {a})
  }

  lemma {:induction false} TotalWithout(balances: map<Address, nat>, a: Address)
    requires a in balances
    ensures Total(balances) == balances[a] + Total(balances - {a})
    decreases |balances|
  {
    var h := Holder(balances);
    if h != a {
      TotalWithout(balances - {h}, a);
      TotalWithout(balances - {a}, h);
      assert balances - {h} - {a} == balances - {a} - {h};
    }
  }

  lemma TotalUpdate(balances: map<Address, nat>, a: Address, value: nat)
    ensures Total(balances[a := value]) == Total(balances) - Balance(balances, a) + value
    ensures Balance(balances, a) <= Total(balances)
  {
    TotalWithout(balances[a := value], a);
    if a in balances {
      TotalWithout(balances, a);
      assert balances[a := value] - {a} == balances - {a};
    } else {
      assert balances[a := value] - {a} == balances;
    }
  }

  /** The supply is what the holders have, it fits 256 bits, and nobody is the zero address. */
  ghost predicate Solvent(s: Ledger) {
    Total(s.balances) == s.totalSupply < Uint256Limit() && ZERO_ADDRESS !in s.balances
  }

  lemma MovedTotal(balances: map<Address, nat>, from: Address, to: Address, value: nat)
    requires from != ZERO_ADDRESS ==> value <= Balance(balances, from)
    ensures Total(Moved(balances, from, to, value)) == Total(balances) + (if from == ZERO_ADDRESS then value else 0)
    ensures from != ZERO_ADDRESS ==> Balance(Debited(balances, from, value), to) + value <= Total(balances)
  {
    if from == ZERO_ADDRESS {
      TotalUpdate(balances, to, Balance(balances, to) + value);
    } else {
      var debited := Debited(balances, from, value);
      TotalUpdate(balances, from, Balance(balances, from) - value);
      TotalUpdate(debited, to, Balance(debited, to) + value);
    }
  }

  lemma ApplySolvent(t: Config, s: Ledger, tx: Tx)
    requires Solvent(s)
    ensures Solvent(Apply(t, s, tx))
  {
    if Refusal(t, s, tx).None? {
      match tx.call {
        case TransferWithAuthorization(p, _) => MovedTotal(s.balances, p.from, p.to, p.value);
        case ReceiveWithAuthorization(p, _) => MovedTotal(s.balances, p.from, p.to, p.value);
        case CancelAuthorization(_, _, _) =>
        case Mint(to, value) => MovedTotal(s.balances, ZERO_ADDRESS, to, value);
        case PlainTransfer(to, value) => MovedTotal(s.balances, tx.caller, to, value);
      }
    }
  }

  // ----- The contract's code -----

  function Reason<T>(r: Result<T, Revert>): Option<Revert> {
    match r
    case Ok(_) => None
    case Err(e) => Some(e)
  }

  function AfterUse(s: Ledger, p: Permit): Ledger {
    s.(spent := s.spent + {(p.from, p.nonce)}, log := s.log + [AuthorizationUsed(p.from, p.nonce)])
  }

  function AfterPermit(s: Ledger, p: Permit): Ledger {
    var used := AfterUse(s, p);
    used.(balances := Moved(s.balances, p.from, p.to, p.value), log := used.log + [Transferred(p.from, p.to, p.value)])
  }

  lemma PermitEffect(t: Config, s: Ledger, tx: Tx, p: Permit)
    requires tx.call.TransferWithAuthorization? || tx.call.ReceiveWithAuthorization?
    requires p == tx.call.permit && Refusal(t, s, tx).None?
    ensures Effect(s, tx) == AfterPermit(s, p)
  {
    assert s.log + [AuthorizationUsed(p.from, p.nonce)] + [Transferred(p.from, p.to, p.value)] == s.log + Events(tx);
  }

  class EIP3009Token {
    const config: Config
    var balances: map<Address, nat>
    var totalSupply: nat
    var authorizationState: set<(Address, Word)>
    var log: seq<Event>

    function State(): Ledger
      reads this
    {
      Ledger(balances, totalSupply, authorizationState, log)
    }

    ghost predicate Valid()
      reads this
    {
      Solvent(State())
    }

    constructor (config: Config)
      ensures this.config == config && Valid() && State() == EMPTY_LEDGER
    {
      this.config := config;
      balances, totalSupply, authorizationState, log := map[], 0, {}, [];
      new;
      Uint256Facts();
    }

    /** An external call. A revert undoes every write that was made before it. */
    method Transact(tx: Tx) returns (r: Result<(), Revert>)
      requires Valid()
      modifies this
      ensures Valid() && State() == Apply(config, old(State()), tx)
      ensures Reason(r) == Refusal(config, old(State()), tx)
    {
      ApplySolvent(config, State(), tx);
      var saved := State();
      r := Dispatch(tx);
      if r.Err? {
        balances, totalSupply, authorizationState, log :=
          saved.balances, saved.totalSupply, saved.spent, saved.log;
      }
    }

    /** The body of a call. When it fails, the state is whatever it has written so far. */
    method Dispatch(tx: Tx) returns (r: Result<(), Revert>)
      requires Valid()
      modifies this
      ensures Reason(r) == Refusal(config, old(State()), tx)
      ensures r.Ok? ==> State() == Effect(old(State()), tx)
    {
      ghost var saved := State();
      match tx.call {
        case TransferWithAuthorization(p, sig) =>
          r := DoTransferWithAuthorization(tx.timestamp, p, sig);
          if r.Ok? {
            PermitEffect(config, saved, tx, p);
          }
        case ReceiveWithAuthorization(p, sig) =>
          r := DoReceiveWithAuthorization(tx.caller, tx.timestamp, p, sig);
          if r.Ok? {
            PermitEffect(config, saved, tx, p);
          }
        case CancelAuthorization(authorizer, nonce, sig) =>
          r := DoCancelAuthorization(authorizer, nonce, sig);
        case Mint(to, value) =>
          r := DoMint(tx.caller, to, value);
        case PlainTransfer(to, value) =>
          r := TransferTokens(tx.caller, to, value);
      }
    }

    /** A failing transfer leaves the nonce marked; only the rollback in Transact clears it again. */
    method DoTransferWithAuthorization(now: uint256, p: Permit, sig: Signature) returns (r: Result<(), Revert>)
      requires Valid()
      modifies this
      ensures var use := UseRefusal(config, old(State()), now, TRANSFER_TYPE, p, sig);
              var move := MoveRefusal(old(State()), p.from, p.to, p.value);
              && OrElse(use, move) == Reason(r)
              && (r.Ok? ==> State() == AfterPermit(old(State()), p))
              && (r.Err? && use.None? ==> (p.from, p.nonce) in authorizationState)
    {
      r := UseTransferAuthorization(TypeHash(config, TRANSFER_TYPE), TRANSFER_TYPE, now, p, sig);
      if r.Err? {
        return;
      }
      r := TransferTokens(p.from, p.to, p.value);
    }

    method DoReceiveWithAuthorization(caller: Address, now: uint256, p: Permit, sig: Signature)
      returns (r: Result<(), Revert>)
      requires Valid()
      modifies this
      ensures var use := UseRefusal(config, old(State()), now, RECEIVE_TYPE, p, sig);
              var move := MoveRefusal(old(State()), p.from, p.to, p.value);
              && OrElse(if caller != p.to then Some(CallerMustBePayee) else None, OrElse(use, move))
                 == Reason(r)
              && (r.Ok? ==> State() == AfterPermit(old(State()), p))
              && (r.Err? && caller == p.to && use.None? ==> (p.from, p.nonce) in authorizationState)
    {
      if caller != p.to {
        return Err(CallerMustBePayee);
      }
      r := UseTransferAuthorization(TypeHash(config, RECEIVE_TYPE), RECEIVE_TYPE, now, p, sig);
      if r.Err? {
        return;
      }
      r := TransferTokens(p.from, p.to, p.value);
    }

    method DoCancelAuthorization(authorizer: Address, nonce: Word, sig: Signature) returns (r: Result<(), Revert>)
      modifies this
      ensures OrElse(if (authorizer, nonce) in old(authorizationState) then Some(AuthorizationAlreadyUsed) else None,
                SignatureRefusal(config, authorizer, CancelStructHash(config, authorizer, nonce), sig))
              == Reason(r)
      ensures State() == if r.Err? then old(State()) else old(State()).(
                spent := old(authorizationState) + {(authorizer, nonce)},
                log := old(log) + [AuthorizationCanceled(authorizer, nonce)])
    {
      var _ :- RequireUnusedAuthorization(authorizer, nonce);
      var structHash := CancelStructHash(config, authorizer, nonce);
      var _ :- RequireValidSignature(authorizer, structHash, sig);
      authorizationState := authorizationState + {(authorizer, nonce)};
      log := log + [AuthorizationCanceled(authorizer, nonce)];
      return Ok(());
    }

    method UseTransferAuthorization(typeHash: Word, ghost typeText: string, now: uint256, p: Permit, sig: Signature)
      returns (r: Result<(), Revert>)
      requires typeHash == TypeHash(config, typeText)
      modifies this`authorizationState, this`log
      ensures UseRefusal(config, old(State()), now, typeText, p, sig) == Reason(r)
      ensures State() == if r.Err? then old(State()) else AfterUse(old(State()), p)
    {
      var _ :- RequireValidTime(now, p.validAfter, p.validBefore);
      var _ :- RequireUnusedAuthorization(p.from, p.nonce);
      var structHash := PermitStructHash(config, typeHash, p);
      var _ :- RequireValidSignature(p.from, structHash, sig);
      authorizationState := authorizationState + {(p.from, p.nonce)};
      log := log + [AuthorizationUsed(p.from, p.nonce)];
      return Ok(());
    }

    method RequireValidTime(now: uint256, validAfter: uint256, validBefore: uint256) returns (r: Result<(), Revert>)
      ensures r.Ok? <==> validAfter < now < validBefore
      ensures r.Err? ==> r.error == if now <= validAfter then AuthorizationNotYetValid else AuthorizationExpired
    {
      if now <= validAfter {
        return Err(AuthorizationNotYetValid);
      }
      if now >= validBefore {
        return Err(AuthorizationExpired);
      }
      return Ok(());
    }

    method RequireUnusedAuthorization(authorizer: Address, nonce: Word) returns (r: Result<(), Revert>)
      ensures r == if (authorizer, nonce) in authorizationState then Err(AuthorizationAlreadyUsed) else Ok(())
    {
      if (authorizer, nonce) in authorizationState {
        return Err(AuthorizationAlreadyUsed);
      }
      return Ok(());
    }

    method RequireValidSignature(expectedSigner: Address, structHash: Word, sig: Signature) returns (r: Result<(), Revert>)
      ensures SignatureRefusal(config, expectedSigner, structHash, sig) == Reason(r)
    {
      var recoveredSigner := EcdsaRecover(config.crypto, HashTypedDataV4(config, structHash), sig);
      if recoveredSigner.None? {
        return Err(BadSignature);
      }
      if recoveredSigner.value != expectedSigner {
        return Err(InvalidSignature);
      }
      return Ok(());
    }

    method DoMint(caller: Address, to: Address, value: uint256) returns (r: Result<(), Revert>)
      requires Valid()
      modifies this
      ensures MintRefusal(config, old(State()), caller, to, value) == Reason(r)
      ensures r.Ok? ==> State() == old(State()).(
                balances := Moved(old(balances), ZERO_ADDRESS, to, value),
                totalSupply := old(totalSupply) + value,
                log := old(log) + [Transferred(ZERO_ADDRESS, to, value)])
    {
      if caller != config.owner {
        return Err(NotOwner);
      }
      if to == ZERO_ADDRESS {
        return Err(InvalidReceiver);
      }
      if totalSupply + value >= Uint256Limit() {
        return Err(ArithmeticOverflow);
      }
      MovedTotal(balances, ZERO_ADDRESS, to, value);
      TotalUpdate(balances, to, 0);
      totalSupply := totalSupply + value;
      r := Credit(to, value);
      log := log + [Transferred(ZERO_ADDRESS, to, value)];
    }

    /** _transfer, with checked arithmetic. The check on the payee's side never fails: the supply bounds it. */
    method TransferTokens(from: Address, to: Address, value: uint256) returns (r: Result<(), Revert>)
      requires Valid()
      modifies this`balances, this`log
      ensures MoveRefusal(old(State()), from, to, value) == Reason(r)
      ensures State() == if r.Err? then old(State()) else old(State()).(
                balances := Moved(old(balances), from, to, value),
                log := old(log) + [Transferred(from, to, value)])
    {
      if from == ZERO_ADDRESS {
        return Err(InvalidSender);
      }
      if to == ZERO_ADDRESS {
        return Err(InvalidReceiver);
      }
      var fromBalance := Balance(balances, from);
      if fromBalance < value {
        return Err(InsufficientBalance);
      }
      MovedTotal(balances, from, to, value);
      balances := balances[from := fromBalance - value];
      r := Credit(to, value);
      log := log + [Transferred(from, to, value)];
    }

    method Credit(to: Address, value: uint256) returns (r: Result<(), Revert>)
      modifies this`balances
      ensures r == if Balance(old(balances), to) + value >= Uint256Limit() then Err(ArithmeticOverflow) else Ok(())
      ensures balances == if r.Err? then old(balances) else old(balances)[to := Balance(old(balances), to) + value]
    {
      var toBalance := Balance(balances, to);
      if toBalance + value >= Uint256Limit() {
        return Err(ArithmeticOverflow);
      }
      balances := balances[to := toBalance + value];
      return Ok(());
    }
  }
}
