/** internal/eip3009/json.go: the JSON objects that the command line prints, as trees. */
module Json {
  import opened Wrappers
  import opened Faults
  import opened Bytes
  import opened Text
  import opened Types
  import opened Crypto
  import Amount
  import Signing

  /** A JSON value. Numbers and booleans are kept as their source text, as json.RawMessage does. */
  datatype Json =
    | JNull
    | JString(text: string)
    | JRaw(raw: string)
    | JArray(items: seq<Json>)
    | JObject(fields: Fields)

  type Fields = map<string, Json>

  // ----- Hexadecimal texts -----

  /** How addresses and hashes are printed. */
  datatype Style = Style(address: Address -> string, word: Word -> string)

  /** 0x and the hexadecimal digits of the bytes, each letter in either case. */
  predicate HexOf(s: string, bs: ByteString) {
    Has0x(s) && Lower(s[2..]) == Lower(HexEncode(bs))
  }

  ghost predicate Faithful(style: Style) {
    && (forall a: Address :: HexOf(style.address(a), a))
    && (forall w: Word :: HexOf(style.word(w), w))
  }

  function UpperChar(c: char): char {
    if 'a' <= c <= 'f' then (c as int - 32) as char else c
  }

  function Nibble(w: Word, i: nat): nat
    requires i < 64
  {
    if i % 2 == 0 then w[i / 2] / 16 else w[i / 2] % 16
  }

  /** The mixed-case checksum of EIP-55: a letter is a capital if its nibble of the hash of all digits is above 7. */
  function Checksum(c: Crypto, digits: string): string
    requires |digits| <= 64
  {
    var hash := c.keccak(Utf8(digits));
    seq(|digits|, i requires 0 <= i < |digits| => if Nibble(hash, i) > 7 then UpperChar(digits[i]) else digits[i])
  }

  /** common.Address.Hex and common.Hash.Hex */
  function GoStyle(c: Crypto): Style {
    Style((a: Address) => "0x" + Checksum(c, HexEncode(a)), (w: Word) => "0x" + HexEncode(w))
  }

  lemma ChecksumKeepsDigits(c: Crypto, digits: string)
    requires |digits| <= 64
    ensures Lower(Checksum(c, digits)) == Lower(digits)
  {
    var t := Checksum(c, digits);
    forall i: nat | i < |digits|
      ensures Lower(t)[i] == Lower(digits)[i]
    {
      LowerIndex(t, i);
      LowerIndex(digits, i);
    }
  }

  lemma GoStyleFaithful(c: Crypto)
    ensures Faithful(GoStyle(c))
  {
    var style := GoStyle(c);
    forall a: Address
      ensures HexOf(style.address(a), a)
    {
      ChecksumKeepsDigits(c, HexEncode(a));
      assert style.address(a)[2..] == Checksum(c, HexEncode(a));
    }
    forall w: Word
      ensures HexOf(style.word(w), w)
    {
      assert style.word(w)[2..] == HexEncode(w);
    }
  }

  // ----- Objects -----

  function DomainObject(style: Style, d: Domain): Fields {
    map[
      "name" := JString(d.name),
      "version" := JString(d.version),
      "chainId" := JString(if d.chainId.Some? then Show(d.chainId.value) else "0"),
      "verifyingContract" := JString(style.address(d.verifyingContract))]
  }

  function MessageObject(style: Style, a: Authorization): Fields {
    if a.kind == CancelAuthorization then
      map["authorizer" := JString(style.address(a.authorizer)), "nonce" := JString(style.word(a.nonce))]
    else
      map[
        "from" := JString(style.address(a.from)),
        "to" := JString(style.address(a.to)),
        "value" := JString(if a.value.Some? then Show(a.value.value) else "0"),
        "validAfter" := JString(Show(a.validAfter)),
        "validBefore" := JString(Show(a.validBefore)),
        "nonce" := JString(style.word(a.nonce))]
  }

  function TypeField(name: string, typeName: string): Json {
    JObject(map["name" := JString(name), "type" := JString(typeName)])
  }

  function TypedDataTypes(kind: Kind): Fields {
    var domain := JArray([TypeField("name", "string"), TypeField("version", "string"),
                          TypeField("chainId", "uint256"), TypeField("verifyingContract", "address")]);
    var transfer := JArray([TypeField("from", "address"), TypeField("to", "address"), TypeField("value", "uint256"),
                            TypeField("validAfter", "uint256"), TypeField("validBefore", "uint256"),
                            TypeField("nonce", "bytes32")]);
    match kind
    case CancelAuthorization =>
      map["EIP712Domain" := domain,
          "CancelAuthorization" := JArray([TypeField("authorizer", "address"), TypeField("nonce", "bytes32")])]
    case ReceiveAuthorization => map["EIP712Domain" := domain, "ReceiveWithAuthorization" := transfer]
    case _ => map["EIP712Domain" := domain, "TransferWithAuthorization" := transfer]
  }

  function TypedDataObject(style: Style, signed: SignedAuthorization): Result<Fields, Fault> {
    var primaryType :- PrimaryType(signed.authorization.kind);
    Ok(map[
      "types" := JObject(TypedDataTypes(signed.authorization.kind)),
      "primaryType" := JString(primaryType),
      "domain" := JObject(DomainObject(style, signed.domain)),
      "message" := JObject(MessageObject(style, signed.authorization))])
  }

  function SignatureText(sig: Signature): string {
    "0x" + HexEncode(Signing.Layout(sig.r, sig.s, sig.v))
  }

  function SignatureObject(style: Style, sig: Signature): Fields {
    map[
      "v" := JRaw(Show(sig.v)),
      "r" := JString(style.word(sig.r)),
      "s" := JString(style.word(sig.s)),
      "signature" := JString(SignatureText(sig))]
  }

  /** SignatureBytes fills a 65-byte buffer. */
  method SignatureBytes(sig: Signature) returns (out: array<byte>)
    ensures fresh(out) && out[..] == Signing.Layout(sig.r, sig.s, sig.v)
  {
    out := new byte[65](i => 0);
    forall i | 0 <= i < 32 {
      out[i] := sig.r[i];
    }
    forall i | 0 <= i < 32 {
      out[32 + i] := sig.s[i];
    }
    out[64] := sig.v;
  }

  function BoolText(b: bool): Json {
    JRaw(if b then "true" else "false")
  }

  function With(fields: Fields, key: string, value: Option<Json>): Fields {
    if value.Some? then fields[key := value.value] else fields
  }

  /** What a signed authorization prints: the typed data, the same domain and message again, and what is known of the
      signature. */
  function SignedFields(style: Style, signed: SignedAuthorization, signatureValid: Option<bool>): Result<Fields, Fault> {
    var typedData :- TypedDataObject(style, signed);
    var fields := map[
      "authorizationType" := JString(KindText(signed.authorization.kind)),
      "domain" := JObject(DomainObject(style, signed.domain)),
      "message" := JObject(MessageObject(style, signed.authorization)),
      "typedData" := JObject(typedData)];
    var signature := if signed.signature.Some? then Some(JObject(SignatureObject(style, signed.signature.value))) else None;
    var valid := if signatureValid.Some? then Some(BoolText(signatureValid.value)) else None;
    Ok(With(With(fields, "signature", signature), "signatureValid", valid))
  }

  method SignedAuthorizationObject(style: Style, signed: SignedAuthorization, signatureValid: Option<bool>)
    returns (r: Result<Fields, Fault>)
    ensures r == SignedFields(style, signed, signatureValid)
  {
    var typedData :- TypedDataObject(style, signed);
    var out := map[
      "authorizationType" := JString(KindText(signed.authorization.kind)),
      "domain" := JObject(DomainObject(style, signed.domain)),
      "message" := JObject(MessageObject(style, signed.authorization)),
      "typedData" := JObject(typedData)];
    if signed.signature.Some? {
      out := out["signature" := JObject(SignatureObject(style, signed.signature.value))];
    }
    if signatureValid.Some? {
      out := out["signatureValid" := BoolText(signatureValid.value)];
    }
    return Ok(out);
  }

  /** The message with its amount in units of the token, as far as decimals and symbol are known. */
  function ExtractedMessage(style: Style, a: Authorization, decimals: Option<nat>, symbol: string): Fields {
    var fields := MessageObject(style, a);
    if a.value.None? then fields else
    var raw := fields["valueRaw" := JString(Show(a.value.value))];
    if decimals.None? then raw else
    var formatted := Amount.Format(a.value.value, decimals.value);
    With(raw["valueFormatted" := JString(formatted)], "amount",
         if symbol == "" then None else Some(JString(formatted + " " + symbol)))
  }

  function TokenMetadata(decimals: Option<nat>, symbol: string): Fields {
    With(With(map[], "decimals", if decimals.Some? then Some(JRaw(Show(decimals.value))) else None),
         "symbol", if symbol != "" then Some(JString(symbol)) else None)
  }

  /** An extraction prints more in the outer message; the message inside the typed data is another object. */
  function ExtractionFields(style: Style, signed: SignedAuthorization, decimals: Option<nat>, symbol: string,
                            signatureValid: Option<bool>): Result<Fields, Fault>
  {
    var out :- SignedFields(style, signed, signatureValid);
    var message := JObject(ExtractedMessage(style, signed.authorization, decimals, symbol));
    Ok(With(out["message" := message], "tokenMetadata",
            if decimals.Some? || symbol != "" then Some(JObject(TokenMetadata(decimals, symbol))) else None))
  }

  method ExtractionObject(style: Style, signed: SignedAuthorization, decimals: Option<nat>, symbol: string,
                          signatureValid: Option<bool>)
    returns (r: Result<Fields, Fault>)
    ensures r == ExtractionFields(style, signed, decimals, symbol, signatureValid)
  {
    var out :- SignedAuthorizationObject(style, signed, signatureValid);
    var msg := MessageObject(style, signed.authorization);
    if signed.authorization.value.Some? {
      msg := msg["valueRaw" := JString(Show(signed.authorization.value.value))];
      if decimals.Some? {
        var formatted := Amount.FormatTokenValue(signed.authorization.value, decimals.value);
        msg := msg["valueFormatted" := JString(formatted)];
        if symbol != "" {
          msg := msg["amount" := JString(formatted + " " + symbol)];
        }
      }
    }
    assert msg == ExtractedMessage(style, signed.authorization, decimals, symbol);
    out := out["message" := JObject(msg)];
    if decimals.Some? || symbol != "" {
      var meta: Fields := map[];
      if decimals.Some? {
        meta := meta["decimals" := JRaw(Show(decimals.value))];
      }
      if symbol != "" {
        meta := meta["symbol" := JString(symbol)];
      }
      assert meta == TokenMetadata(decimals, symbol);
      out := out["tokenMetadata" := JObject(meta)];
    }
    return Ok(out);
  }
}
