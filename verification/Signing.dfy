/** internal/eip3009/types.go and the broadcast policy of internal/cli/cli.go: signing, recovering the signer, and
    the two conventions for the recovery byte v. */
module Signing {
  import opened Wrappers
  import opened Faults
  import opened Bytes
  import opened Types
  import opened Crypto
  import opened Eip712

  // ----- Signing and recovering -----

  function SignAuthorization(c: Crypto, d: Domain, a: Authorization, key: Option<Key>)
    : (r: Result<SignedAuthorization, Fault>)
  {
    if key.None? then Err(KeyRequired) else
    var validDomain :- ValidateDomain(d);
    var validAuthorization :- ValidateAuthorization(a);
    var hash :- TypedDataHash(c, d, a);
    var signature := c.sign(key.value, hash);
    Ok(SignedAuthorization(a, d, Some(Signature(signature[64] + 27, signature[..32], signature[32..64]))))
  }

  /** v without the offset of 27; only 0, 1, 27 and 28 are understood. */
  function RecoveryId(v: byte): Option<byte> {
    if v == 27 || v == 28 then Some(v - 27) else if v == 0 || v == 1 then Some(v) else None
  }

  /** R, S and a last byte: the layout of crypto.SigToPub and of a printed signature. */
  function Layout(r: Word, s: Word, last: byte): ByteString {
    r + s + [last]
  }

  function RecoveredSigner(c: Crypto, signed: SignedAuthorization): Result<Address, Fault> {
    if signed.signature.None? then Err(SignatureRequired) else
    var hash :- TypedDataHash(c, signed.domain, signed.authorization);
    var sig := signed.signature.value;
    var id := RecoveryId(sig.v);
    if id.None? then Err(InvalidV(sig.v)) else
    match c.recover(hash, Layout(sig.r, sig.s, id.value))
    case Some(signer) => Ok(signer)
    case None => Err(RecoveryFailed)
  }

  /** RecoverAuthorizationSigner fills a 65-byte buffer. */
  method RecoverAuthorizationSigner(c: Crypto, signed: Option<SignedAuthorization>) returns (r: Result<Address, Fault>)
    ensures r == if signed.None? then Err(SignedRequired) else RecoveredSigner(c, signed.value)
  {
    if signed.None? {
      return Err(SignedRequired);
    }
    if signed.value.signature.None? {
      return Err(SignatureRequired);
    }
    var hash :- TypedDataHash(c, signed.value.domain, signed.value.authorization);
    var signature := signed.value.signature.value;
    var sig := new byte[65](i => 0);
    forall i | 0 <= i < 32 {
      sig[i] := signature.r[i];
    }
    forall i | 0 <= i < 32 {
      sig[32 + i] := signature.s[i];
    }
    if signature.v == 27 || signature.v == 28 {
      sig[64] := signature.v - 27;
    } else if signature.v == 0 || signature.v == 1 {
      sig[64] := signature.v;
    } else {
      return Err(InvalidV(signature.v));
    }
    assert sig[..] == Layout(signature.r, signature.s, RecoveryId(signature.v).value);
    var signer := c.recover(hash, sig[..]);
    if signer.None? {
      return Err(RecoveryFailed);
    }
    return Ok(signer.value);
  }

  function VerifySignedAuthorization(c: Crypto, signed: SignedAuthorization): Result<(), Fault> {
    var recovered :- RecoveredSigner(c, signed);
    var want :- SignerAddress(signed.authorization);
    if recovered != want then Err(WrongSigner) else Ok(())
  }

  /** Signing succeeds exactly on valid records; what it makes recovers to the address of the key, and verifies
      exactly if that is the signer that the record asks for. */
  lemma SignThenRecover(c: Crypto, d: Domain, a: Authorization, key: Key)
    requires Lawful(c)
    ensures var r := SignAuthorization(c, d, a, Some(key));
            && (r.Ok? <==> ValidateDomain(d).Ok? && ValidateAuthorization(a).Ok?)
            && (r.Ok? ==>
                  && r.value.domain == d && r.value.authorization == a
                  && r.value.signature.Some? && r.value.signature.value.v in {27, 28}
                  && c.lowS(r.value.signature.value.s)
                  && RecoveredSigner(c, r.value) == Ok(c.address(key))
                  && (VerifySignedAuthorization(c, r.value).Ok? <==> SignerAddress(a) == Ok(c.address(key))))
  {
    var r := SignAuthorization(c, d, a, Some(key));
    if r.Ok? {
      var hash := TypedDataHash(c, d, a).value;
      var bytes, sig := c.sign(key, hash), r.value.signature.value;
      assert RecoversTo(c, hash, bytes, c.address(key));
      assert Layout(sig.r, sig.s, bytes[64]) == bytes;
    }
  }

  // ----- The recovery byte -----

  /** v in the convention of the contract. */
  function NormalizedV(v: byte): Result<byte, Fault> {
    if v == 0 || v == 1 then Ok(v + 27) else if v == 27 || v == 28 then Ok(v) else Err(InvalidV(v))
  }

  /** A *Signature, whose v is rewritten in place. */
  class SignaturePointer {
    var v: byte
    var r: Word
    var s: Word

    constructor (signature: Signature)
      ensures Contents() == signature
    {
      v, r, s := signature.v, signature.r, signature.s;
    }

    function Contents(): Signature
      reads this
    {
      Signature(v, r, s)
    }
  }

  method NormalizeSignatureVForSolidity(signature: SignaturePointer?) returns (r: Result<bool, Fault>)
    modifies if signature == null then {} else {signature}
    ensures signature == null ==> r == Err(SignatureRequired)
    ensures signature != null ==>
              var before := old(signature.Contents());
              match NormalizedV(before.v)
              case Ok(v) => signature.Contents() == before.(v := v) && r == Ok(v != before.v)
              case Err(e) => signature.Contents() == before && r == Err(e)
  {
    if signature == null {
      return Err(SignatureRequired);
    }
    if signature.v == 0 || signature.v == 1 {
      signature.v := signature.v + 27;
      return Ok(true);
    } else if signature.v == 27 || signature.v == 28 {
      return Ok(false);
    } else {
      return Err(InvalidV(signature.v));
    }
  }

  datatype VOptions = VOptions(normalizeV: bool, keepV: bool, yes: bool) {
    /** signatureVOptions.validate */
    predicate Valid() {
      !(normalizeV && keepV) && !(yes && keepV)
    }
  }

  /** What asking the user would bring. */
  datatype Prompt = NoTerminal | Answer(normalize: bool) | Unreadable

  function ResolvedV(v: byte, opts: VOptions, prompt: Prompt): Result<byte, Fault> {
    if v == 27 || v == 28 then Ok(v)
    else if v != 0 && v != 1 then Err(InvalidV(v))
    else if opts.keepV then Ok(v)
    else if opts.normalizeV || opts.yes then Ok(v + 27)
    else match prompt
      case NoTerminal => Err(PolicyRequired)
      case Unreadable => Err(PromptFailed)
      case Answer(normalize) => Ok(if normalize then v + 27 else v)
  }

  method ResolveSignatureVForBroadcast(signature: SignaturePointer?, opts: VOptions, prompt: Prompt)
    returns (r: Result<(), Fault>)
    modifies if signature == null then {} else {signature}
    ensures signature == null ==> r.Ok?
    ensures signature != null ==>
              var before := old(signature.Contents());
              match ResolvedV(before.v, opts, prompt)
              case Ok(v) => r == Ok(()) && signature.Contents() == before.(v := v)
              case Err(e) => r == Err(e) && signature.Contents() == before
  {
    if signature == null {
      return Ok(());
    }
    if signature.v == 27 || signature.v == 28 {
      return Ok(());
    }
    if signature.v != 0 && signature.v != 1 {
      return Err(InvalidV(signature.v));
    }
    var normalizedV := signature.v + 27;
    if opts.keepV {
      return Ok(());
    }
    if opts.normalizeV || opts.yes {
      signature.v := normalizedV;
      return Ok(());
    }
    match prompt {
      case NoTerminal =>
        return Err(PolicyRequired);
      case Unreadable =>
        return Err(PromptFailed);
      case Answer(normalize) =>
        if normalize {
          signature.v := normalizedV;
        }
        return Ok(());
    }
  }

  function WithV(signed: SignedAuthorization, v: byte): SignedAuthorization
    requires signed.signature.Some?
  {
    signed.(signature := Some(signed.signature.value.(v := v)))
  }

  /** No accepted rewriting of v changes who is recovered, or whether the signature verifies. */
  lemma RecoveryStableUnderV(c: Crypto, signed: SignedAuthorization, opts: VOptions, prompt: Prompt)
    requires signed.signature.Some?
    ensures var v := signed.signature.value.v;
            && (NormalizedV(v).Ok? ==>
                  && RecoveredSigner(c, WithV(signed, NormalizedV(v).value)) == RecoveredSigner(c, signed)
                  && VerifySignedAuthorization(c, WithV(signed, NormalizedV(v).value)) == VerifySignedAuthorization(c, signed))
            && (ResolvedV(v, opts, prompt).Ok? ==>
                  && RecoveredSigner(c, WithV(signed, ResolvedV(v, opts, prompt).value)) == RecoveredSigner(c, signed))
  {
  }

  /** There is a policy for a v of 0 or 1: an option, or an answer. */
  predicate Decided(opts: VOptions, prompt: Prompt) {
    opts.keepV || opts.normalizeV || opts.yes || prompt.Answer?
  }

  /** The policy is to keep it: an option to keep beats all others, and any option beats the prompt. */
  predicate Keeps(opts: VOptions, prompt: Prompt) {
    opts.keepV || (!opts.normalizeV && !opts.yes && prompt == Answer(false))
  }

  /** Normalization accepts exactly the bytes from which a signer can be recovered, ends at 27 or 28, and is
      idempotent. A broadcast accepts the same bytes, 0 and 1 only under a policy, keeps the recovery id, and sends 27
      or 28 exactly if it was so already or the policy is not to keep it. */
  lemma NormalizationEnds(v: byte, opts: VOptions, prompt: Prompt)
    ensures NormalizedV(v).Ok? <==> RecoveryId(v).Some?
    ensures NormalizedV(v).Ok? ==> NormalizedV(v).value in {27, 28} && NormalizedV(NormalizedV(v).value) == NormalizedV(v)
    ensures var r := ResolvedV(v, opts, prompt);
            && (r.Ok? <==> RecoveryId(v).Some? && (v in {27, 28} || Decided(opts, prompt)))
            && (r.Ok? ==>
                  && RecoveryId(r.value) == RecoveryId(v)
                  && (r.value in {27, 28} <==> v in {27, 28} || !Keeps(opts, prompt)))
    ensures opts.Valid() && (opts.normalizeV || opts.yes) ==> !Keeps(opts, prompt)
  {
  }
}
