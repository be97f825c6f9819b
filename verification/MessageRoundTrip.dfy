/** Printing an authorization and reading it back, whatever the letter case of its hexadecimal texts. */
module MessageRoundTrip {
  import opened Wrappers
  import opened Faults
  import opened Numerals
  import opened Bytes
  import opened Text
  import opened Types
  import opened Json
  import opened Message
  import Amount
  import Signing

  // ----- Spellings -----

  /** The hexadecimal digits of some bytes in any letter case, with or without 0x. */
  predicate HexText(s: string, bs: ByteString) {
    HexOf(s, bs) || Lower(s) == Lower(HexEncode(bs))
  }

  /** An integer in decimal, or after 0x as big-endian bytes. */
  ghost predicate SpellsNumber(s: string, n: int) {
    s == Show(n) || exists bs: ByteString :: bs != [] && HexOf(s, bs) && n == Value(256, bs)
  }

  /** A JSON number, or a string with white space around the digits. */
  ghost predicate SpellsInt(j: Option<Json>, n: int) {
    j == Some(JRaw(Show(n))) || (j.Some? && j.value.JString? && SpellsNumber(TrimSpace(j.value.text), n))
  }

  /** A name; a missing one is empty. */
  predicate SpellsName(j: Option<Json>, name: string) {
    if j.None? then name == "" else j.value.JString? && TrimSpace(j.value.text) == name
  }

  predicate SpellsAddress(j: Option<Json>, a: Address) {
    j.Some? && j.value.JString? && HexText(TrimSpace(j.value.text), a)
  }

  /** Up to 32 bytes, the last of which are the last of the word. */
  ghost predicate SpellsWord(j: Option<Json>, w: Word) {
    && j.Some? && j.value.JString?
    && exists bs: ByteString :: 0 < |bs| <= 32 && HexText(TrimSpace(j.value.text), bs) && BytesToWord(bs) == w
  }

  /** A signature is an object of v, r and s or the text of 65 bytes; to have none is to have nothing there, or null. */
  ghost predicate SpellsSignature(j: Option<Json>, signature: Option<Signature>) {
    match signature
    case None => j.None? || j == Some(JNull)
    case Some(sig) =>
      && j.Some?
      && match j.value
         case JString(text) => HexText(TrimSpace(text), Signing.Layout(sig.r, sig.s, sig.v))
         case JObject(data) =>
           SpellsInt(Get(data, "v"), sig.v) && SpellsWord(Get(data, "r"), sig.r) && SpellsWord(Get(data, "s"), sig.s)
         case _ => false
  }

  /** The kind is named under authorizationType, else under primaryType; if not at all, it is a transfer. */
  predicate SpellsKind(root: Fields, kind: Kind) {
    if "authorizationType" in root then NamesKind(root["authorizationType"], kind)
    else if "primaryType" in root then NamesKind(root["primaryType"], kind)
    else kind == TransferAuthorization
  }

  predicate NamesKind(j: Json, kind: Kind) {
    j.JString? && Lower(TrimSpace(j.text)) in KindNames(kind)
  }

  ghost predicate SpellsDomain(j: Option<Json>, d: Domain) {
    && j.Some? && j.value.JObject? && d.chainId.Some?
    && var data := j.value.fields;
       && SpellsName(Get(data, "name"), d.name) && SpellsName(Get(data, "version"), d.version)
       && SpellsInt(Get(data, "chainId"), d.chainId.value)
       && SpellsAddress(Get(data, "verifyingContract"), d.verifyingContract)
  }

  /** The fields of the record's kind, and no others are set in the record. A cancellation may call its authorizer
      "from". */
  ghost predicate SpellsMessage(j: Option<Json>, a: Authorization) {
    && j.Some? && j.value.JObject? && OnlyOwnFields(a)
    && var data := j.value.fields;
       && SpellsWord(Get(data, "nonce"), a.nonce)
       && if a.kind == CancelAuthorization then
            SpellsAddress(Get(data, if "authorizer" in data then "authorizer" else "from"), a.authorizer)
          else SpellsTransfer(data, a)
  }

  ghost predicate SpellsTransfer(data: Fields, a: Authorization) {
    && a.value.Some? && SpellsInt(Get(data, "value"), a.value.value)
    && SpellsAddress(Get(data, "from"), a.from) && SpellsAddress(Get(data, "to"), a.to)
    && SpellsInt(Get(data, "validAfter"), a.validAfter) && SpellsInt(Get(data, "validBefore"), a.validBefore)
  }

  ghost predicate SpellsRecord(root: Fields, x: SignedAuthorization) {
    && SpellsKind(root, x.authorization.kind)
    && SpellsDomain(Get(root, "domain"), x.domain) && SpellsMessage(Get(root, "message"), x.authorization)
  }

  /** A message spells a signed record: inside its typed data if it has any, else directly, and the signature outside
      in either case. Whatever else it holds does not matter. */
  ghost predicate Spells(outer: Fields, x: SignedAuthorization) {
    && SpellsSignature(Get(outer, "signature"), x.signature)
    && if "typedData" in outer then outer["typedData"].JObject? && SpellsRecord(outer["typedData"].fields, x)
       else SpellsRecord(outer, x)
  }

  // ----- Reading -----

  lemma HexTextRead(s: string, bs: ByteString)
    requires HexText(s, bs) && bs != []
    ensures TrimSpace(s) == s && s != ""
    ensures FromHex(s) == bs && |Strip0x(s)| == 2 * |bs| && AllDigits(Strip0x(s), 16)
    ensures DecodeHex(s) == Some(bs)
  {
    if HexOf(s, bs) {
      PrefixedRead(s, bs);
    } else {
      BareRead(s, bs);
    }
  }

  lemma DigitsRead(s: string, digits: string, bs: ByteString)
    requires Strip0x(s) == HexDigitsOf(s) == digits && Lower(digits) == Lower(HexEncode(bs))
    ensures FromHex(s) == bs && DecodeHex(s) == Some(bs)
  {
    HexDecodeOfFold(bs, digits);
    assert PadEven(digits) == digits;
  }

  lemma PrefixedRead(s: string, bs: ByteString)
    requires HexOf(s, bs) && bs != []
    ensures TrimSpace(s) == s && Strip0x(s) == s[2..]
    ensures FromHex(s) == bs && |s| == 2 + 2 * |bs| && AllDigits(s[2..], 16)
    ensures DecodeHex(s) == Some(bs)
  {
    var digits := s[2..];
    HexDecodeOfFold(bs, digits);
    assert CharValue(digits[|digits| - 1]) < 16 && s[|s| - 1] == digits[|digits| - 1];
    TrimSpaceFixed(s);
    DigitsAfterPrefix(s);
    DigitsRead(s, digits, bs);
  }

  lemma BareRead(s: string, bs: ByteString)
    requires Lower(s) == Lower(HexEncode(bs)) && bs != []
    ensures TrimSpace(s) == s && Strip0x(s) == s
    ensures FromHex(s) == bs && |s| == 2 * |bs| && AllDigits(s, 16)
    ensures DecodeHex(s) == Some(bs)
  {
    HexDecodeOfFold(bs, s);
    DigitsWithoutPrefix(s);
    DigitsRead(s, s, bs);
  }

  lemma DigitsWithoutPrefix(s: string)
    requires AllDigits(s, 16) && |s| >= 2
    ensures TrimSpace(s) == s && Strip0x(s) == s && HexDigitsOf(s) == s
  {
    assert CharValue(s[0]) < 16 && CharValue(s[1]) < 16 && CharValue(s[|s| - 1]) < 16;
    TrimSpaceFixed(s);
    assert s[..2][1] == s[1];
    assert s[..2] != "0x" && s[..2] != "0X" by {
      assert CharValue('x') == 99 && CharValue('X') == 99;
      assert "0x"[1] == 'x' && "0X"[1] == 'X';
    }
  }

  lemma DigitsAfterPrefix(s: string)
    requires Has0x(s) && AllDigits(s[2..], 16) && |s| >= 4 && TrimSpace(s) == s
    ensures HexDigitsOf(s) == s[2..]
  {
    assert s[..2] == [s[0], s[1]];
    var digits := s[2..];
    assert digits[..2] == [digits[0], digits[1]];
    assert CharValue(digits[1]) < 16;
    assert digits[..2] != "0X" by {
      assert CharValue('X') == 99;
      assert "0X"[1] == 'X';
    }
    if s[1] == 'x' {
      assert s[..2] == "0x";
    } else {
      assert s[..2] == "0X";
      assert "0x"[1] == 'x' && s[..2][1] == 'X';
    }
  }

  lemma AddressRead(j: Option<Json>, a: Address)
    requires SpellsAddress(j, a)
    ensures ParseAddress(j) == Ok(a)
  {
    var text := TrimSpace(j.value.text);
    HexTextRead(text, a);
    assert IsHexAddress(text);
    assert Zeros(0) + a == a;
  }

  lemma WordRead(j: Option<Json>, w: Word)
    requires SpellsWord(j, w)
    ensures ParseHash(j) == Ok(w)
  {
    var text := TrimSpace(j.value.text);
    var bs: ByteString :| 0 < |bs| <= 32 && HexText(text, bs) && BytesToWord(bs) == w;
    HexTextRead(text, bs);
  }

  /** A digit too few is a missing zero in front, with 0x or without. */
  lemma OddDigitsRead(s: string, padded: string, bs: ByteString)
    requires |bs| <= 32 && HexDecode(padded) == Some(bs) && padded != "" && padded[0] == '0'
    requires s == padded[1..] || (|s| >= 2 && s[..2] == "0x" && s[2..] == padded[1..])
    ensures ParseHash(Some(JString(s))) == Ok(BytesToWord(bs))
  {
    var digits := padded[1..];
    PaddedDigits(digits, padded);
    SpelledDigits(s, digits);
    PaddedRead(s, digits, padded, bs);
  }

  lemma SpelledDigits(s: string, digits: string)
    requires digits != "" && AllDigits(digits, 16)
    requires s == digits || (|s| >= 2 && s[..2] == "0x" && s[2..] == digits)
    ensures TrimSpace(s) == s && Strip0x(s) == HexDigitsOf(s) == digits
  {
    if s == digits {
      OneOrMoreDigits(s);
    } else {
      PrefixedDigits(s);
    }
  }

  lemma PaddedDigits(digits: string, padded: string)
    requires HexDecode(padded).Some? && padded != "" && padded[0] == '0' && digits == padded[1..]
    ensures digits != "" && AllDigits(digits, 16) && PadEven(digits) == padded
  {
    assert padded == "0" + digits;
    assert forall i :: 0 <= i < |digits| ==> digits[i] == padded[i + 1];
  }

  lemma PaddedRead(s: string, digits: string, padded: string, bs: ByteString)
    requires TrimSpace(s) == s && Strip0x(s) == HexDigitsOf(s) == digits
    requires PadEven(digits) == padded && HexDecode(padded) == Some(bs) && |bs| <= 32
    ensures ParseHash(Some(JString(s))) == Ok(BytesToWord(bs))
  {
  }

  lemma OneOrMoreDigits(s: string)
    requires s != "" && AllDigits(s, 16)
    ensures TrimSpace(s) == s && Strip0x(s) == s && HexDigitsOf(s) == s
  {
    if |s| >= 2 {
      DigitsWithoutPrefix(s);
    } else {
      assert CharValue(s[0]) < 16;
      TrimSpaceFixed(s);
    }
  }

  lemma PrefixedDigits(s: string)
    requires |s| >= 3 && s[..2] == "0x" && AllDigits(s[2..], 16)
    ensures TrimSpace(s) == s && Strip0x(s) == s[2..] && HexDigitsOf(s) == s[2..]
  {
    var digits := s[2..];
    assert s[0] == s[..2][0] && s[1] == s[..2][1];
    assert CharValue(digits[|digits| - 1]) < 16 && s[|s| - 1] == digits[|digits| - 1];
    TrimSpaceFixed(s);
    if |digits| >= 2 {
      DigitsAfterPrefix(s);
    }
  }

  lemma NumberRead(s: string, n: int)
    requires SpellsNumber(s, n)
    ensures TrimSpace(s) == s && s != ""
    ensures ParseBigInt(Some(JString(s))) == Ok(n)
  {
    if s == Show(n) {
      ShowRead(n);
    } else {
      var bs: ByteString :| bs != [] && HexOf(s, bs) && n == Value(256, bs);
      HexNumberRead(s, bs);
    }
  }

  lemma ShowRead(n: int)
    ensures TrimSpace(Show(n)) == Show(n) && Show(n) != ""
    ensures ParseBigInt(Some(JString(Show(n)))) == Ok(n)
  {
    var s := Show(n);
    ShowIsTrimmed(n);
    TrimSpaceFixed(s);
    assert !Has0x(s) && Strip0x(s) == s;
    SetStringOfShow(n);
  }

  lemma HexNumberRead(s: string, bs: ByteString)
    requires bs != [] && HexOf(s, bs)
    ensures TrimSpace(s) == s && s != ""
    ensures ParseBigInt(Some(JString(s))) == Ok(Value(256, bs))
  {
    PrefixedRead(s, bs);
    HexDecodeOfFold(bs, s[2..]);
    HexValue(s[2..]);
    UnsignedRead(s[2..]);
  }

  lemma UnsignedRead(digits: string)
    requires IsNumeral(digits, 16)
    ensures SetString(digits, 16) == Some(NumeralValue(digits, 16))
  {
    assert CharValue(digits[0]) < 16 && CharValue('-') == 99 && CharValue('+') == 99;
  }

  /** An integer is read as it is spelled, and a 64-bit one is never cut off. */
  lemma IntegerRead(j: Option<Json>, n: int)
    requires SpellsInt(j, n)
    ensures ParseBigInt(j) == Ok(n)
    ensures ParseUint64(j) == if 0 <= n < UINT64_LIMIT then Ok(n) else Err(Overflow)
  {
    if j == Some(JRaw(Show(n))) {
      assert SpellsNumber(Show(n), n);
      NumberRead(Show(n), n);
    } else {
      NumberRead(TrimSpace(j.value.text), n);
    }
  }

  lemma SignatureFromFields(data: Fields, v: nat, r: Word, s: Word)
    requires ParseUint64(Get(data, "v")) == if v < UINT64_LIMIT then Ok(v) else Err(Overflow)
    requires ParseHash(Get(data, "r")) == Ok(r) && ParseHash(Get(data, "s")) == Ok(s)
    ensures ParseSignature(Some(JObject(data))) == if v < 256 then Ok(Some(Signature(v, r, s))) else Err(Overflow)
  {
    assert AsObject(JObject(data)) == Ok(data);
    if v >= UINT64_LIMIT {
      assert ParseUint64(Get(data, "v")) == Err(Overflow);
    }
  }

  lemma SignatureObjectRead(data: Fields, v: nat, r: Word, s: Word)
    requires SpellsInt(Get(data, "v"), v) && SpellsWord(Get(data, "r"), r) && SpellsWord(Get(data, "s"), s)
    ensures ParseSignature(Some(JObject(data))) == if v < 256 then Ok(Some(Signature(v, r, s))) else Err(Overflow)
  {
    IntegerRead(Get(data, "v"), v);
    WordRead(Get(data, "r"), r);
    WordRead(Get(data, "s"), s);
    SignatureFromFields(data, v, r, s);
  }

  lemma SignatureTextRead(s: string, sig: Signature)
    requires HexText(TrimSpace(s), Signing.Layout(sig.r, sig.s, sig.v))
    ensures ParseSignature(Some(JString(s))) == Ok(Some(sig))
  {
    var bytes := Signing.Layout(sig.r, sig.s, sig.v);
    HexTextRead(TrimSpace(s), bytes);
    LayoutParts(sig);
    TrimSpaceFixed(s);
  }

  lemma LayoutParts(sig: Signature)
    ensures var bytes := Signing.Layout(sig.r, sig.s, sig.v);
            |bytes| == 65 && BytesToWord(bytes[..32]) == sig.r && BytesToWord(bytes[32..64]) == sig.s && bytes[64] == sig.v
  {
    var bytes := Signing.Layout(sig.r, sig.s, sig.v);
    assert bytes[..32] == sig.r && bytes[32..64] == sig.s;
    assert Zeros(0) + sig.r == sig.r && Zeros(0) + sig.s == sig.s;
  }

  lemma SignatureRead(j: Option<Json>, signature: Option<Signature>)
    requires SpellsSignature(j, signature)
    ensures ParseSignature(j) == Ok(signature)
  {
    if signature.Some? {
      var sig := signature.value;
      match j.value {
        case JString(text) => SignatureTextRead(text, sig);
        case JObject(data) => SignatureObjectRead(data, sig.v, sig.r, sig.s);
      }
    }
  }

  lemma NamedKindRead(j: Json, kind: Kind)
    requires NamesKind(j, kind)
    ensures ParseStringLike(Some(j)).Ok?
    ensures NormalizeAuthorizationKind(ParseStringLike(Some(j)).value) == Ok(kind)
  {
    TrimSpaceFixed(j.text);
    KindNamesExactly(TrimSpace(j.text), kind);
  }

  lemma KindRead(root: Fields, kind: Kind)
    requires SpellsKind(root, kind)
    ensures ParseKind(root) == Ok(kind)
  {
    if "authorizationType" in root {
      NamedKindRead(root["authorizationType"], kind);
    } else if "primaryType" in root {
      NamedKindRead(root["primaryType"], kind);
    }
  }

  lemma DomainRead(j: Option<Json>, d: Domain)
    requires SpellsDomain(j, d)
    ensures ParseDomain(j) == Ok(d)
  {
    var data := j.value.fields;
    IntegerRead(Get(data, "chainId"), d.chainId.value);
    AddressRead(Get(data, "verifyingContract"), d.verifyingContract);
  }

  lemma TransferFromFields(data: Fields, a: Authorization)
    requires a.kind != CancelAuthorization && a.authorizer == ZERO_ADDRESS && a.value.Some?
    requires ParseHash(Get(data, "nonce")) == Ok(a.nonce)
    requires ParseAddress(Get(data, "from")) == Ok(a.from) && ParseAddress(Get(data, "to")) == Ok(a.to)
    requires ParseBigInt(Get(data, "value")) == Ok(a.value.value)
    requires ParseUint64(Get(data, "validAfter")) == Ok(a.validAfter)
    requires ParseUint64(Get(data, "validBefore")) == Ok(a.validBefore)
    ensures ParseAuthorization(a.kind, Some(JObject(data))) == Ok(a)
  {
  }

  lemma CancelFromFields(data: Fields, a: Authorization)
    requires a == CancelRecord(a.authorizer, a.nonce) && ParseHash(Get(data, "nonce")) == Ok(a.nonce)
    requires ParseAddress(Get(data, if "authorizer" in data then "authorizer" else "from")) == Ok(a.authorizer)
    ensures ParseAuthorization(CancelAuthorization, Some(JObject(data))) == Ok(a)
  {
  }

  lemma TransferRead(j: Option<Json>, a: Authorization)
    requires SpellsMessage(j, a) && a.kind != CancelAuthorization
    ensures ParseAuthorization(a.kind, j) == Ok(a)
  {
    var data := j.value.fields;
    WordRead(Get(data, "nonce"), a.nonce);
    AddressRead(Get(data, "from"), a.from);
    AddressRead(Get(data, "to"), a.to);
    IntegerRead(Get(data, "value"), a.value.value);
    IntegerRead(Get(data, "validAfter"), a.validAfter);
    IntegerRead(Get(data, "validBefore"), a.validBefore);
    TransferFromFields(data, a);
  }

  lemma CancelRead(j: Option<Json>, a: Authorization)
    requires SpellsMessage(j, a) && a.kind == CancelAuthorization
    ensures ParseAuthorization(a.kind, j) == Ok(a)
  {
    var data := j.value.fields;
    WordRead(Get(data, "nonce"), a.nonce);
    AddressRead(Get(data, if "authorizer" in data then "authorizer" else "from"), a.authorizer);
    CancelFromFields(data, a);
  }

  lemma AuthorizationRead(j: Option<Json>, a: Authorization)
    requires SpellsMessage(j, a)
    ensures ParseAuthorization(a.kind, j) == Ok(a)
  {
    if a.kind == CancelAuthorization {
      CancelRead(j, a);
    } else {
      TransferRead(j, a);
    }
  }

  /** What is read of the part of a message that typed data carries. */
  predicate RootRead(root: Fields, x: SignedAuthorization) {
    && ParseKind(root) == Ok(x.authorization.kind) && ParseDomain(Get(root, "domain")) == Ok(x.domain)
    && ParseAuthorization(x.authorization.kind, Get(root, "message")) == Ok(x.authorization)
  }

  lemma MessageFromRoot(outer: Fields, x: SignedAuthorization)
    requires ParseSignature(Get(outer, "signature")) == Ok(x.signature)
    requires if "typedData" in outer then outer["typedData"].JObject? && RootRead(outer["typedData"].fields, x)
             else RootRead(outer, x)
    ensures ParseMessage(JObject(outer)) == Ok(x)
  {
    var root := if "typedData" in outer then outer["typedData"].fields else outer;
    assert ParseRoot(root, x.signature) == Ok(x);
  }

  lemma RecordRead(root: Fields, x: SignedAuthorization)
    requires SpellsRecord(root, x)
    ensures RootRead(root, x)
  {
    KindRead(root, x.authorization.kind);
    DomainRead(Get(root, "domain"), x.domain);
    AuthorizationRead(Get(root, "message"), x.authorization);
  }

  /** Every message is read as the record that it spells, with typed data or without, and with its signature. */
  lemma MessageRead(outer: Fields, x: SignedAuthorization)
    requires Spells(outer, x)
    ensures ParseMessage(JObject(outer)) == Ok(x)
  {
    SignatureRead(Get(outer, "signature"), x.signature);
    RecordRead(if "typedData" in outer then outer["typedData"].fields else outer, x);
    MessageFromRoot(outer, x);
  }

  predicate Given(j: Option<Json>) {
    j.Some? && j.value != JNull
  }

  /** A message that is read at all has an object for the domain and one for the message, with everything that the kind
      needs; a name may be missing but not null; and only a signature that is missing or null is none. */
  lemma RequiredFieldsGiven(outer: Fields, x: SignedAuthorization)
    requires ParseMessage(JObject(outer)) == Ok(x)
    ensures Get(outer, "signature") in {None, Some(JNull)} <==> x.signature.None?
    ensures "typedData" in outer ==> outer["typedData"].JObject?
    ensures var root := if "typedData" in outer then outer["typedData"].fields else outer;
            && Supported(x.authorization.kind) && DomainGiven(Get(root, "domain"))
            && FieldsGiven(x.authorization.kind, Get(root, "message"))
  {
    RootOfMessage(outer, x);
    SignatureGiven(Get(outer, "signature"));
    var root := if "typedData" in outer then AsObject(outer["typedData"]).value else outer;
    KindSupported(root);
    DomainNeeds(Get(root, "domain"));
    AuthorizationNeeds(x.authorization.kind, Get(root, "message"));
  }

  lemma RootOfMessage(outer: Fields, x: SignedAuthorization)
    requires ParseMessage(JObject(outer)) == Ok(x)
    ensures ParseSignature(Get(outer, "signature")) == Ok(x.signature)
    ensures if "typedData" in outer then AsObject(outer["typedData"]).Ok? && RootRead(AsObject(outer["typedData"]).value, x)
            else RootRead(outer, x)
  {
    var root := if "typedData" in outer then AsObject(outer["typedData"]).value else outer;
    assert ParseRoot(root, x.signature) == Ok(x);
    RootParts(root, x);
  }

  lemma RootParts(root: Fields, x: SignedAuthorization)
    requires ParseRoot(root, x.signature) == Ok(x)
    ensures RootRead(root, x)
  {
  }

  lemma SignatureGiven(j: Option<Json>)
    ensures ParseSignature(j) == Ok(None) <==> j in {None, Some(JNull)}
  {
  }

  lemma KindSupported(root: Fields)
    ensures ParseKind(root).Ok? ==> Supported(ParseKind(root).value)
  {
  }

  predicate DomainGiven(j: Option<Json>) {
    && j.Some? && j.value.JObject?
    && var data := j.value.fields;
       && Given(Get(data, "chainId")) && Given(Get(data, "verifyingContract"))
       && Get(data, "name") != Some(JNull) && Get(data, "version") != Some(JNull)
  }

  predicate FieldsGiven(kind: Kind, j: Option<Json>) {
    && j.Some? && j.value.JObject?
    && var data := j.value.fields;
       && Given(Get(data, "nonce"))
       && if kind == CancelAuthorization then Given(Get(data, "authorizer")) || Given(Get(data, "from"))
          else
            && Given(Get(data, "from")) && Given(Get(data, "to")) && Given(Get(data, "value"))
            && Given(Get(data, "validAfter")) && Given(Get(data, "validBefore"))
  }

  lemma DomainNeeds(j: Option<Json>)
    ensures ParseDomain(j).Ok? ==> DomainGiven(j)
  {
  }

  lemma AuthorizationNeeds(kind: Kind, j: Option<Json>)
    ensures ParseAuthorization(kind, j).Ok? ==> FieldsGiven(kind, j)
  {
  }

  // ----- What a message keeps -----

  function KeptDomain(d: Domain): Domain {
    Domain(TrimSpace(d.name), TrimSpace(d.version), Some(if d.chainId.Some? then d.chainId.value else 0), d.verifyingContract)
  }

  function KeptAuthorization(a: Authorization): Authorization {
    if a.kind == CancelAuthorization then CancelRecord(a.authorizer, a.nonce)
    else
      TransferRecord(a.kind, a.from, a.to, Some(if a.value.Some? then a.value.value else 0),
                     a.validAfter, a.validBefore, a.nonce)
  }

  /** What a message keeps of a record: names without outer white space, 0 for a missing number, and the fields of the
      record's kind. */
  function Kept(signed: SignedAuthorization): SignedAuthorization {
    SignedAuthorization(KeptAuthorization(signed.authorization), KeptDomain(signed.domain), signed.signature)
  }

  /** The message keeps everything exactly if there is nothing else to keep. */
  lemma KeptUnchanged(signed: SignedAuthorization)
    ensures var d, a := signed.domain, signed.authorization;
            Kept(signed) == signed <==>
              && Trimmed(d.name) && Trimmed(d.version) && d.chainId.Some?
              && OnlyOwnFields(a) && (a.kind != CancelAuthorization ==> a.value.Some?)
  {
    TrimSpaceFixed(signed.domain.name);
    TrimSpaceFixed(signed.domain.version);
  }

  // ----- Printing -----

  lemma PrintedAddress(style: Style, a: Address)
    requires Faithful(style)
    ensures SpellsAddress(Some(JString(style.address(a))), a)
  {
    HexTextRead(style.address(a), a);
  }

  lemma PrintedWord(style: Style, w: Word)
    requires Faithful(style)
    ensures SpellsWord(Some(JString(style.word(w))), w)
  {
    HexTextRead(style.word(w), w);
    assert Zeros(0) + w == w;
    assert HexText(TrimSpace(style.word(w)), w) && BytesToWord(w) == w;
  }

  lemma PrintedInt(n: int)
    ensures SpellsInt(Some(JString(Show(n))), n)
  {
    assert SpellsNumber(Show(n), n);
    NumberRead(Show(n), n);
  }

  lemma PrintedDomain(style: Style, d: Domain)
    requires Faithful(style)
    ensures SpellsDomain(Some(JObject(DomainObject(style, d))), KeptDomain(d))
  {
    var n := if d.chainId.Some? then d.chainId.value else 0;
    var data := DomainObject(style, d);
    assert Show(0) == "0";
    assert Get(data, "name") == Some(JString(d.name)) && Get(data, "version") == Some(JString(d.version));
    assert Get(data, "chainId") == Some(JString(Show(n)));
    assert Get(data, "verifyingContract") == Some(JString(style.address(d.verifyingContract)));
    PrintedInt(n);
    PrintedAddress(style, d.verifyingContract);
  }

  /** At least these fields. */
  predicate Includes(data: Fields, fields: Fields) {
    forall key :: key in fields ==> Get(data, key) == Some(fields[key])
  }

  lemma TransferFields(style: Style, a: Authorization, value: int, data: Fields)
    requires a.kind != CancelAuthorization && value == if a.value.Some? then a.value.value else 0
    requires Includes(data, MessageObject(style, a))
    ensures Get(data, "nonce") == Some(JString(style.word(a.nonce)))
    ensures Get(data, "from") == Some(JString(style.address(a.from)))
    ensures Get(data, "to") == Some(JString(style.address(a.to)))
    ensures Get(data, "value") == Some(JString(Show(value)))
    ensures Get(data, "validAfter") == Some(JString(Show(a.validAfter)))
    ensures Get(data, "validBefore") == Some(JString(Show(a.validBefore)))
  {
    var fields := MessageObject(style, a);
    assert Show(0) == "0";
    assert "value" in fields && fields["value"] == JString(Show(value));
    assert "from" in fields && "to" in fields && "validAfter" in fields && "validBefore" in fields && "nonce" in fields;
  }

  lemma PrintedTransfer(style: Style, a: Authorization, data: Fields)
    requires Faithful(style) && a.kind != CancelAuthorization && Includes(data, MessageObject(style, a))
    ensures SpellsMessage(Some(JObject(data)), KeptAuthorization(a))
  {
    var value := if a.value.Some? then a.value.value else 0;
    TransferFields(style, a, value, data);
    PrintedWord(style, a.nonce);
    PrintedAddress(style, a.from);
    PrintedAddress(style, a.to);
    PrintedInt(value);
    PrintedInt(a.validAfter);
    PrintedInt(a.validBefore);
  }

  lemma PrintedCancel(style: Style, a: Authorization, data: Fields)
    requires Faithful(style) && a.kind == CancelAuthorization && Includes(data, MessageObject(style, a))
    ensures SpellsMessage(Some(JObject(data)), KeptAuthorization(a))
  {
    var fields := MessageObject(style, a);
    assert "authorizer" in fields && "nonce" in fields;
    PrintedWord(style, a.nonce);
    PrintedAddress(style, a.authorizer);
  }

  function SignatureJson(style: Style, signature: Option<Signature>): Option<Json> {
    if signature.Some? then Some(JObject(SignatureObject(style, signature.value))) else None
  }

  lemma PrintedSignature(style: Style, signature: Option<Signature>)
    requires Faithful(style)
    ensures SpellsSignature(SignatureJson(style, signature), signature)
  {
    if signature.Some? {
      var sig := signature.value;
      var data := SignatureObject(style, sig);
      assert Get(data, "v") == Some(JRaw(Show(sig.v)));
      assert Get(data, "r") == Some(JString(style.word(sig.r))) && Get(data, "s") == Some(JString(style.word(sig.s)));
      PrintedWord(style, sig.r);
      PrintedWord(style, sig.s);
    }
  }

  /** The two layouts of a printed signature agree. */
  lemma SignatureLayoutsAgree(style: Style, sig: Signature)
    requires Faithful(style)
    ensures var printed := SignatureObject(style, sig);
            ParseSignature(Some(JObject(printed))) == ParseSignature(Get(printed, "signature")) == Ok(Some(sig))
  {
    assert Get(SignatureObject(style, sig), "signature") == Some(JString(SignatureText(sig)));
    var bytes := Signing.Layout(sig.r, sig.s, sig.v);
    PrintedSignature(style, Some(sig));
    SignatureRead(SignatureJson(style, Some(sig)), Some(sig));
    assert SignatureText(sig)[2..] == HexEncode(bytes);
    HexTextRead(SignatureText(sig), bytes);
    SignatureTextRead(SignatureText(sig), sig);
  }

  /** The printed domain and message under a name of the kind. */
  lemma PrintedRecord(style: Style, signed: SignedAuthorization, root: Fields, data: Fields)
    requires Faithful(style) && SpellsKind(root, signed.authorization.kind)
    requires Get(root, "domain") == Some(JObject(DomainObject(style, signed.domain)))
    requires Get(root, "message") == Some(JObject(data)) && Includes(data, MessageObject(style, signed.authorization))
    ensures SpellsRecord(root, Kept(signed))
  {
    PrintedDomain(style, signed.domain);
    if signed.authorization.kind == CancelAuthorization {
      PrintedCancel(style, signed.authorization, data);
    } else {
      PrintedTransfer(style, signed.authorization, data);
    }
  }

  lemma TypedDataFields(style: Style, signed: SignedAuthorization)
    requires Supported(signed.authorization.kind)
    ensures TypedDataObject(style, signed).Ok?
    ensures var root := TypedDataObject(style, signed).value;
            && Get(root, "primaryType") == Some(JString(PrimaryType(signed.authorization.kind).value))
            && Get(root, "domain") == Some(JObject(DomainObject(style, signed.domain)))
            && Get(root, "message") == Some(JObject(MessageObject(style, signed.authorization)))
            && "authorizationType" !in root && "signature" !in root && "typedData" !in root
  {
  }

  lemma PrimaryTypeTrimmed(kind: Kind)
    requires Supported(kind)
    ensures TrimSpace(PrimaryType(kind).value) == PrimaryType(kind).value
  {
    TrimSpaceFixed(PrimaryType(kind).value);
  }

  lemma KindTextTrimmed(kind: Kind)
    requires Supported(kind)
    ensures TrimSpace(KindText(kind)) == KindText(kind)
  {
    TrimSpaceFixed(KindText(kind));
  }

  /** Either printed name names the kind. */
  lemma PrintedKind(kind: Kind)
    requires Supported(kind)
    ensures NamesKind(JString(KindText(kind)), kind) && NamesKind(JString(PrimaryType(kind).value), kind)
  {
    KindNamesUnderstood(kind);
    KindTextTrimmed(kind);
    PrimaryTypeTrimmed(kind);
    KindNamesExactly(KindText(kind), kind);
    KindNamesExactly(PrimaryType(kind).value, kind);
  }

  lemma TypedDataSpells(style: Style, signed: SignedAuthorization)
    requires Faithful(style) && Supported(signed.authorization.kind)
    ensures TypedDataObject(style, signed).Ok?
    ensures SpellsRecord(TypedDataObject(style, signed).value, Kept(signed))
  {
    TypedDataFields(style, signed);
    PrintedKind(signed.authorization.kind);
    PrintedRecord(style, signed, TypedDataObject(style, signed).value, MessageObject(style, signed.authorization));
  }

  /** Unsigned typed data, as a dry run prints it, reads back as the record without a signature. */
  lemma TypedDataRoundTrip(style: Style, signed: SignedAuthorization)
    requires Faithful(style) && Supported(signed.authorization.kind)
    ensures TypedDataObject(style, signed).Ok?
    ensures ParseMessage(JObject(TypedDataObject(style, signed).value)) == Ok(Kept(signed).(signature := None))
  {
    TypedDataSpells(style, signed);
    TypedDataFields(style, signed);
    MessageRead(TypedDataObject(style, signed).value, Kept(signed).(signature := None));
  }

  /** Any object that holds the record's typed data and signature is read as that record, whatever else it holds. */
  lemma WrapperRead(style: Style, signed: SignedAuthorization, outer: Fields)
    requires Faithful(style) && Supported(signed.authorization.kind)
    requires TypedDataObject(style, signed).Ok?
    requires Get(outer, "typedData") == Some(JObject(TypedDataObject(style, signed).value))
    requires SpellsSignature(Get(outer, "signature"), signed.signature)
    ensures ParseMessage(JObject(outer)) == Ok(Kept(signed))
  {
    TypedDataSpells(style, signed);
    MessageRead(outer, Kept(signed));
  }

  /** So is any object without typed data that holds the record's kind, domain, message and signature. */
  lemma FlatRead(style: Style, signed: SignedAuthorization, outer: Fields, data: Fields)
    requires Faithful(style) && Supported(signed.authorization.kind) && "typedData" !in outer
    requires Get(outer, "authorizationType") == Some(JString(KindText(signed.authorization.kind)))
    requires Get(outer, "domain") == Some(JObject(DomainObject(style, signed.domain)))
    requires Get(outer, "message") == Some(JObject(data)) && Includes(data, MessageObject(style, signed.authorization))
    requires SpellsSignature(Get(outer, "signature"), signed.signature)
    ensures ParseMessage(JObject(outer)) == Ok(Kept(signed))
  {
    PrintedKind(signed.authorization.kind);
    PrintedRecord(style, signed, outer, data);
    MessageRead(outer, Kept(signed));
  }

  lemma WithoutKey(outer: Fields, removed: string)
    ensures removed !in outer - {removed}
    ensures forall key | key != removed :: Get(outer - {removed}, key) == Get(outer, key)
  {
  }

  /** An object that holds all of these is read as the record, and so it is without its typed data. */
  lemma ReadEitherWay(style: Style, signed: SignedAuthorization, outer: Fields, data: Fields)
    requires Faithful(style) && Supported(signed.authorization.kind)
    requires TypedDataObject(style, signed).Ok?
    requires Get(outer, "typedData") == Some(JObject(TypedDataObject(style, signed).value))
    requires Get(outer, "signature") == SignatureJson(style, signed.signature)
    requires Get(outer, "authorizationType") == Some(JString(KindText(signed.authorization.kind)))
    requires Get(outer, "domain") == Some(JObject(DomainObject(style, signed.domain)))
    requires Get(outer, "message") == Some(JObject(data)) && Includes(data, MessageObject(style, signed.authorization))
    ensures ParseMessage(JObject(outer)) == ParseMessage(JObject(outer - {"typedData"})) == Ok(Kept(signed))
  {
    PrintedSignature(style, signed.signature);
    WrapperRead(style, signed, outer);
    WithoutKey(outer, "typedData");
    FlatRead(style, signed, outer - {"typedData"}, data);
  }

  lemma SignedFieldsShape(style: Style, signed: SignedAuthorization, signatureValid: Option<bool>)
    requires TypedDataObject(style, signed).Ok?
    ensures SignedFields(style, signed, signatureValid).Ok?
    ensures var outer := SignedFields(style, signed, signatureValid).value;
            && Get(outer, "typedData") == Some(JObject(TypedDataObject(style, signed).value))
            && Get(outer, "signature") == SignatureJson(style, signed.signature)
            && Get(outer, "authorizationType") == Some(JString(KindText(signed.authorization.kind)))
            && Get(outer, "domain") == Some(JObject(DomainObject(style, signed.domain)))
            && Get(outer, "message") == Some(JObject(MessageObject(style, signed.authorization)))
            && (signatureValid.None? ==> "signatureValid" !in outer)
            && (signatureValid.Some? ==>
                  Get(outer, "signatureValid") == Some(JRaw(if signatureValid.value then "true" else "false")))
  {
  }

  /** A signed authorization reads back as what the message keeps of it, and so it does without its typed data. */
  lemma SignedRoundTrip(style: Style, signed: SignedAuthorization, signatureValid: Option<bool>)
    requires Faithful(style) && Supported(signed.authorization.kind)
    ensures SignedFields(style, signed, signatureValid).Ok?
    ensures var outer := SignedFields(style, signed, signatureValid).value;
            && ParseMessage(JObject(outer)) == Ok(Kept(signed))
            && ParseMessage(JObject(outer - {"typedData"})) == Ok(Kept(signed))
  {
    TypedDataFields(style, signed);
    SignedFieldsShape(style, signed, signatureValid);
    ReadEitherWay(style, signed, SignedFields(style, signed, signatureValid).value,
                  MessageObject(style, signed.authorization));
  }

  /** The two amounts that an extraction shows are both the value: the raw one as an integer, the formatted one as an
      amount with these decimals, which is shown again with the symbol. */
  lemma ExtractedAmountsRead(style: Style, a: Authorization, decimals: nat, symbol: string)
    requires a.value.Some?
    ensures var data := ExtractedMessage(style, a, Some(decimals), symbol);
            && ParseBigInt(Get(data, "valueRaw")) == Ok(a.value.value)
            && var shown := Get(data, "valueFormatted");
               shown.Some? && shown.value.JString?
               && (a.value.value >= 0 ==> Amount.HumanAmount(shown.value.text, decimals) == Ok(a.value.value))
               && (symbol != "" ==> Get(data, "amount") == Some(JString(shown.value.text + " " + symbol)))
  {
    var data := ExtractedMessage(style, a, Some(decimals), symbol);
    assert Get(data, "valueRaw") == Some(JString(Show(a.value.value)));
    assert Get(data, "valueFormatted") == Some(JString(Amount.Format(a.value.value, decimals)));
    PrintedInt(a.value.value);
    IntegerRead(Get(data, "valueRaw"), a.value.value);
    Amount.FormatRoundTrip(a.value.value, decimals);
  }

  /** The metadata of an extraction are the decimals and the symbol, as far as they are known. */
  lemma MetadataRead(decimals: Option<nat>, symbol: string)
    ensures var data := TokenMetadata(decimals, symbol);
            && (if decimals.Some? then ParseBigInt(Get(data, "decimals")) == Ok(decimals.value) else "decimals" !in data)
            && (if symbol != "" then Get(data, "symbol") == Some(JString(symbol)) else "symbol" !in data)
  {
    if decimals.Some? {
      assert Get(TokenMetadata(decimals, symbol), "decimals") == Some(JRaw(Show(decimals.value)));
      IntegerRead(Some(JRaw(Show(decimals.value))), decimals.value);
    }
  }

  lemma ExtractedMessageIncludes(style: Style, a: Authorization, decimals: Option<nat>, symbol: string)
    ensures Includes(ExtractedMessage(style, a, decimals, symbol), MessageObject(style, a))
  {
  }

  lemma ExtractionShape(style: Style, signed: SignedAuthorization, decimals: Option<nat>, symbol: string,
                        signatureValid: Option<bool>)
    requires SignedFields(style, signed, signatureValid).Ok?
    ensures ExtractionFields(style, signed, decimals, symbol, signatureValid).Ok?
    ensures var outer := SignedFields(style, signed, signatureValid).value;
            var e := ExtractionFields(style, signed, decimals, symbol, signatureValid).value;
            && Get(e, "message") == Some(JObject(ExtractedMessage(style, signed.authorization, decimals, symbol)))
            && (forall key | key != "message" && key != "tokenMetadata" :: Get(e, key) == Get(outer, key))
            && (decimals.Some? || symbol != "" ==> Get(e, "tokenMetadata") == Some(JObject(TokenMetadata(decimals, symbol))))
  {
  }

  /** An extraction reads back too, with or without its typed data, whatever amount and metadata were added to it. */
  lemma ExtractionRoundTrip(style: Style, signed: SignedAuthorization, decimals: Option<nat>, symbol: string,
                            signatureValid: Option<bool>)
    requires Faithful(style) && Supported(signed.authorization.kind)
    ensures ExtractionFields(style, signed, decimals, symbol, signatureValid).Ok?
    ensures var e := ExtractionFields(style, signed, decimals, symbol, signatureValid).value;
            && ParseMessage(JObject(e)) == Ok(Kept(signed))
            && ParseMessage(JObject(e - {"typedData"})) == Ok(Kept(signed))
  {
    TypedDataFields(style, signed);
    SignedFieldsShape(style, signed, signatureValid);
    ExtractionShape(style, signed, decimals, symbol, signatureValid);
    ExtractedMessageIncludes(style, signed.authorization, decimals, symbol);
    ReadEitherWay(style, signed, ExtractionFields(style, signed, decimals, symbol, signatureValid).value,
                  ExtractedMessage(style, signed.authorization, decimals, symbol));
  }
}
