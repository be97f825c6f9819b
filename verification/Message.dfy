/** internal/eip3009/message.go: reading an authorization message. */
module Message {
  import opened Wrappers
  import opened Faults
  import opened Numerals
  import opened Bytes
  import opened Text
  import opened Types
  import opened Json

  function Get(fields: Fields, key: string): Option<Json> {
    if key in fields then Some(fields[key]) else None
  }

  /** Unmarshalling into a map: null gives an empty one. */
  function AsObject(j: Json): Result<Fields, Fault> {
    match j
    case JObject(fields) => Ok(fields)
    case JNull => Ok(map[])
    case _ => Err(NotAnObject)
  }

  // ----- Texts and numbers -----

  function ParseStringLike(raw: Option<Json>): Result<string, Fault> {
    match raw
    case None => Err(FieldRequired)
    case Some(JNull) => Err(FieldRequired)
    case Some(JString(text)) => Ok(TrimSpace(text))
    case Some(JRaw(text)) => if TrimSpace(text) == "" then Err(FieldRequired) else Ok(TrimSpace(text))
    case Some(_) => Err(NotText)
  }

  function ParseOptionalString(raw: Option<Json>): Result<string, Fault> {
    if raw.None? then Ok("") else ParseStringLike(raw)
  }

  /** decodeHex drops "0x" and then also "0X". */
  function HexDigitsOf(value: string): string {
    var text := TrimSpace(value);
    var once := if |text| >= 2 && text[..2] == "0x" then text[2..] else text;
    if |once| >= 2 && once[..2] == "0X" then once[2..] else once
  }

  function DecodeHex(value: string): Option<ByteString> {
    HexDecode(PadEven(HexDigitsOf(value)))
  }

  function ParseAddress(raw: Option<Json>): Result<Address, Fault> {
    var value :- ParseStringLike(raw);
    if !IsHexAddress(value) then Err(BadAddress) else Ok(BytesToAddress(FromHex(value)))
  }

  /** The text is checked with one decoder and converted with another. */
  function ParseHash(raw: Option<Json>): Result<Word, Fault> {
    var value :- ParseStringLike(raw);
    match DecodeHex(value)
    case None => Err(BadHex)
    case Some(decoded) => if |decoded| > 32 then Err(HexTooLong) else Ok(BytesToWord(FromHex(value)))
  }

  function ParseBigInt(raw: Option<Json>): Result<int, Fault> {
    var text :- ParseStringLike(raw);
    var base := if Has0x(text) then 16 else 10;
    var value := Strip0x(text);
    if value == "" then Err(BadInteger) else
    match SetString(value, base)
    case None => Err(BadInteger)
    case Some(n) => Ok(n)
  }

  function ParseUint64(raw: Option<Json>): Result<uint64, Fault> {
    var n :- ParseBigInt(raw);
    if 0 <= n < UINT64_LIMIT then Ok(n) else Err(Overflow)
  }

  // ----- Records -----

  function ParseSignature(raw: Option<Json>): Result<Option<Signature>, Fault> {
    match raw
    case None => Ok(None)
    case Some(JNull) => Ok(None)
    case Some(JString(_)) =>
      var value :- ParseStringLike(raw);
      (match DecodeHex(value)
       case None => Err(BadHex)
       case Some(bytes) =>
         if |bytes| != 65 then Err(BadSignatureLength)
         else Ok(Some(Signature(bytes[64], BytesToWord(bytes[..32]), BytesToWord(bytes[32..64])))))
    case Some(other) =>
      var data :- AsObject(other);
      var v :- ParseUint64(Get(data, "v"));
      var r :- ParseHash(Get(data, "r"));
      var s :- ParseHash(Get(data, "s"));
      if v > 255 then Err(Overflow) else Ok(Some(Signature(v, r, s)))
  }

  function ParseKind(root: Fields): Result<Kind, Fault> {
    if "authorizationType" in root then
      var text :- ParseStringLike(Get(root, "authorizationType"));
      NormalizeAuthorizationKind(text)
    else if "primaryType" in root then
      var text :- ParseStringLike(Get(root, "primaryType"));
      NormalizeAuthorizationKind(text)
    else
      Ok(TransferAuthorization)
  }

  function ParseDomain(raw: Option<Json>): Result<Domain, Fault> {
    if raw.None? then Err(DomainRequired) else
    var data :- AsObject(raw.value);
    var name :- ParseOptionalString(Get(data, "name"));
    var version :- ParseOptionalString(Get(data, "version"));
    var chainId :- ParseBigInt(Get(data, "chainId"));
    var token :- ParseAddress(Get(data, "verifyingContract"));
    Ok(Domain(name, version, Some(chainId), token))
  }

  function ParseAuthorization(kind: Kind, raw: Option<Json>): (r: Result<Authorization, Fault>)
    ensures r.Ok? ==> r.value.kind == kind
  {
    if raw.None? then Err(MessageRequired) else
    var data :- AsObject(raw.value);
    var nonce :- ParseHash(Get(data, "nonce"));
    if kind == CancelAuthorization then
      var authorizer :- ParseAddress(Get(data, if "authorizer" in data then "authorizer" else "from"));
      Ok(CancelRecord(authorizer, nonce))
    else
      var from :- ParseAddress(Get(data, "from"));
      var to :- ParseAddress(Get(data, "to"));
      var value :- ParseBigInt(Get(data, "value"));
      var validAfter :- ParseUint64(Get(data, "validAfter"));
      var validBefore :- ParseUint64(Get(data, "validBefore"));
      Ok(TransferRecord(kind, from, to, Some(value), validAfter, validBefore, nonce))
  }

  function ParseRoot(root: Fields, signature: Option<Signature>): Result<SignedAuthorization, Fault> {
    var kind :- ParseKind(root);
    var domain :- ParseDomain(Get(root, "domain"));
    var auth :- ParseAuthorization(kind, Get(root, "message"));
    Ok(SignedAuthorization(auth, domain, signature))
  }

  /** Typed data, if there is any, takes the place of everything but the signature. */
  function ParseMessage(input: Json): Result<SignedAuthorization, Fault> {
    var outer :- AsObject(input);
    var signature :- ParseSignature(Get(outer, "signature"));
    var root :- if "typedData" in outer then AsObject(outer["typedData"]) else Ok(outer);
    ParseRoot(root, signature)
  }

  // ----- Where the two hex decoders part -----

  predicate AllZero(bs: ByteString) {
    forall i :: 0 <= i < |bs| ==> bs[i] == 0
  }

  lemma PaddedIsZero(bs: ByteString)
    requires |bs| <= 32
    ensures BytesToWord(bs) == ZERO_WORD <==> AllZero(bs)
  {
    var w, k := BytesToWord(bs), 32 - |bs|;
    assert forall i :: 0 <= i < |bs| ==> w[k + i] == bs[i];
  }

  /** Text with both prefixes, "0x0X": decodeHex drops the two, HexToHash only the first. */
  predicate TwoPrefixes(text: string) {
    |text| >= 4 && text[..4] == "0x0X"
  }

  /** The hash that is read is the one that was checked exactly if the text does not carry two prefixes, or has only
      zeros after them. */
  lemma HashReadAsChecked(text: string)
    requires Trimmed(text)
    requires DecodeHex(text).Some? && |DecodeHex(text).value| <= 32
    ensures BytesToWord(FromHex(text)) == BytesToWord(DecodeHex(text).value)
            <==> !TwoPrefixes(text) || AllZero(DecodeHex(text).value)
  {
    TrimSpaceFixed(text);
    if TwoPrefixes(text) {
      TwoPrefixesReadAsZero(text);
      PaddedIsZero(DecodeHex(text).value);
    } else {
      SinglePrefix(text);
    }
  }

  lemma SinglePrefix(text: string)
    requires !TwoPrefixes(text) && TrimSpace(text) == text
    requires DecodeHex(text).Some?
    ensures HexDigitsOf(text) == Strip0x(text)
  {
    if |text| >= 2 && text[..2] == "0x" {
      var once := text[2..];
      assert text[0] == text[..2][0] && text[1] == text[..2][1];
      if |once| >= 2 && once[..2] == "0X" {
        assert text[..4] == text[..2] + once[..2];
      }
    } else if |text| >= 2 {
      assert text[..2] == [text[0], text[1]];
      if Has0x(text) && text[1] == 'X' {
        assert text[..2] == "0X";
      }
    }
  }

  lemma TwoPrefixesReadAsZero(text: string)
    requires TwoPrefixes(text)
    ensures BytesToWord(FromHex(text)) == ZERO_WORD
  {
    assert text[0] == text[..4][0] && text[1] == text[..4][1] && text[2] == text[..4][2] && text[3] == text[..4][3];
    var digits := PadEven(Strip0x(text));
    assert CharValue('X') == 99 && CharValue('0') == 0;
    if |text| % 2 == 0 {
      assert HexPrefix(digits) == [];
    } else {
      assert digits[0] == '0' && digits[1] == '0' && digits[2..][0] == 'X';
      assert HexPrefix(digits[2..]) == [];
      assert HexPrefix(digits) == [0];
    }
    PaddedIsZero(FromHex(text));
  }

  /** For one, "0x0X01" is checked as the byte 1 and read as the zero hash. */
  lemma TwoPrefixesExample()
    ensures DecodeHex("0x0X01") == Some([1])
    ensures ParseHash(Some(JString("0x0X01"))) == Ok(ZERO_WORD)
  {
    var text := "0x0X01";
    TrimSpaceFixed(text);
    assert text[..2] == "0x" && text[2..][..2] == "0X";
    assert HexDigitsOf(text) == "01";
    assert HexPrefix("01"[2..]) == [];
    assert HexPrefix("01") == [1];
    assert text[..4] == "0x0X";
    TwoPrefixesReadAsZero(text);
  }
}
