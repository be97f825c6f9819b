/** What any wallet signs that is given the printed typed data: the digest of EIP-712, computed from the printed object
    alone, by the sections "Definition of encodeType", "Definition of encodeData", "Definition of hashStruct" and
    "Definition of domainSeparator" of that standard. It is the digest that Go signs. */
module TypedData {
  import opened Wrappers
  import opened Numerals
  import opened Bytes
  import opened Text
  import opened Types
  import opened Crypto
  import opened Json
  import opened Message
  import opened MessageRoundTrip
  import Eip712

  // ----- The standard -----

  datatype Member = Member(typeName: string, name: string)

  function ReadMember(j: Json): Option<Member> {
    if !j.JObject? then None else
    match (Get(j.fields, "type"), Get(j.fields, "name"))
    case (Some(JString(typeName)), Some(JString(name))) => Some(Member(typeName, name))
    case _ => None
  }

  function ReadMembers(items: seq<Json>): Option<seq<Member>> {
    if items == [] then Some([]) else
    match (ReadMember(items[0]), ReadMembers(items[1..]))
    case (Some(m), Some(rest)) => Some([m] + rest)
    case _ => None
  }

  function MemberTexts(members: seq<Member>): seq<string> {
    if members == [] then []
    else [members[0].typeName + (" " + members[0].name)] + MemberTexts(members[1..])
  }

  /** encodeType, for members that are not structs themselves. */
  function EncodeType(name: string, members: seq<Member>): string {
    name + ("(" + Listed(MemberTexts(members)))
  }

  /** encodeData of one member; a string is hashed, everything else is one word. */
  function EncodeValue(c: Crypto, typeName: string, j: Option<Json>): Option<Word> {
    if typeName == "address" then
      match ParseAddress(j) case Ok(a) => Some(AddressWord(a)) case Err(_) => None
    else if typeName == "bytes32" then
      match ParseHash(j) case Ok(w) => Some(w) case Err(_) => None
    else if typeName == "uint256" then
      match ParseBigInt(j) case Ok(n) => if 0 <= n < Uint256Limit() then Some(UintWord(n)) else None case Err(_) => None
    else if typeName == "string" then
      match j case Some(JString(text)) => Some(c.keccak(Utf8(text))) case _ => None
    else None
  }

  function EncodeValues(c: Crypto, members: seq<Member>, data: Fields): Option<seq<Word>> {
    if members == [] then Some([]) else
    match (EncodeValue(c, members[0].typeName, Get(data, members[0].name)), EncodeValues(c, members[1..], data))
    case (Some(w), Some(rest)) => Some([w] + rest)
    case _ => None
  }

  /** hashStruct */
  function HashStruct(c: Crypto, types: Fields, name: string, j: Option<Json>): Option<Word> {
    if name !in types || !types[name].JArray? || j.None? || !j.value.JObject? then None else
    match ReadMembers(types[name].items)
    case None => None
    case Some(members) =>
      match EncodeValues(c, members, j.value.fields)
      case None => None
      case Some(words) => Some(c.keccak(Concat([c.keccak(Utf8(EncodeType(name, members)))] + words)))
  }

  function WalletDigest(c: Crypto, root: Fields): Option<Word> {
    match (Get(root, "types"), Get(root, "primaryType"))
    case (Some(JObject(types)), Some(JString(primaryType))) =>
      (match (HashStruct(c, types, "EIP712Domain", Get(root, "domain")),
              HashStruct(c, types, primaryType, Get(root, "message")))
       case (Some(separator), Some(structHash)) => Some(c.keccak([0x19, 0x01] + separator + structHash))
       case _ => None)
    case _ => None
  }

  // ----- Types -----

  predicate DomainMembers(ms: seq<Member>) {
    && |ms| == 4 && ms[0] == Member("string", "name") && ms[1] == Member("string", "version")
    && ms[2] == Member("uint256", "chainId") && ms[3] == Member("address", "verifyingContract")
  }

  predicate TransferMembers(ms: seq<Member>) {
    && |ms| == 6 && ms[0] == Member("address", "from") && ms[1] == Member("address", "to")
    && ms[2] == Member("uint256", "value") && ms[3] == Member("uint256", "validAfter")
    && ms[4] == Member("uint256", "validBefore") && ms[5] == Member("bytes32", "nonce")
  }

  predicate CancelMembers(ms: seq<Member>) {
    |ms| == 2 && ms[0] == Member("address", "authorizer") && ms[1] == Member("bytes32", "nonce")
  }

  predicate MembersOf(kind: Kind, ms: seq<Member>) {
    if kind == CancelAuthorization then CancelMembers(ms) else TransferMembers(ms)
  }

  lemma {:induction false} MembersRead(items: seq<Json>)
    requires forall i :: 0 <= i < |items| ==> ReadMember(items[i]).Some?
    ensures ReadMembers(items).Some? && |ReadMembers(items).value| == |items|
    ensures forall i :: 0 <= i < |items| ==> ReadMember(items[i]) == Some(ReadMembers(items).value[i])
  {
    if items != [] {
      MembersRead(items[1..]);
    }
  }

  lemma TypeFieldRead(name: string, typeName: string)
    ensures ReadMember(TypeField(name, typeName)) == Some(Member(typeName, name))
  {
  }

  /** How a member appears in the list, with what follows it. */
  function MemberText(m: Member, next: string): string {
    m.typeName + (" " + (m.name + next))
  }

  lemma NextMember(members: seq<Member>, i: nat, text: string)
    requires i + 1 < |members| && text == MemberText(members[i], ",")
    ensures Listed(MemberTexts(members[i..])) == text + Listed(MemberTexts(members[i + 1..]))
  {
    var m, rest := members[i], members[i + 1..];
    assert members[i..][1..] == rest;
    ListedCons(m.typeName + (" " + m.name), MemberTexts(rest));
  }

  lemma LastMember(members: seq<Member>, i: nat, text: string)
    requires i + 1 == |members| && text == MemberText(members[i], ")")
    ensures Listed(MemberTexts(members[i..])) == text
  {
    assert members[i..] == [members[i]];
    assert MemberTexts(members[i..]) == [members[i].typeName + (" " + members[i].name)];
  }

  lemma TwoMembers(ms: seq<Member>, a: string, b: string)
    requires |ms| == 2 && a == MemberText(ms[0], ",") && b == MemberText(ms[1], ")")
    ensures Listed(MemberTexts(ms)) == a + b
  {
    NextMember(ms, 0, a);
    LastMember(ms, 1, b);
    assert ms[0..] == ms;
  }

  lemma FourMembers(ms: seq<Member>, a: string, b: string, c: string, d: string)
    requires |ms| == 4 && a == MemberText(ms[0], ",") && b == MemberText(ms[1], ",") && c == MemberText(ms[2], ",")
    requires d == MemberText(ms[3], ")")
    ensures Listed(MemberTexts(ms)) == a + (b + (c + d))
  {
    NextMember(ms, 0, a);
    NextMember(ms, 1, b);
    NextMember(ms, 2, c);
    LastMember(ms, 3, d);
    assert ms[0..] == ms;
  }

  lemma SixMembers(ms: seq<Member>, a: string, b: string, c: string, d: string, e: string, f: string)
    requires |ms| == 6 && a == MemberText(ms[0], ",") && b == MemberText(ms[1], ",") && c == MemberText(ms[2], ",")
    requires d == MemberText(ms[3], ",") && e == MemberText(ms[4], ",") && f == MemberText(ms[5], ")")
    ensures Listed(MemberTexts(ms)) == a + (b + (c + (d + (e + f))))
  {
    NextMember(ms, 0, a);
    NextMember(ms, 1, b);
    NextMember(ms, 2, c);
    NextMember(ms, 3, d);
    NextMember(ms, 4, e);
    LastMember(ms, 5, f);
    assert ms[0..] == ms;
  }

  lemma DomainPieces()
    ensures MemberText(Member("string", "name"), ",") == "string name,"
    ensures MemberText(Member("string", "version"), ",") == "string version,"
    ensures MemberText(Member("uint256", "chainId"), ",") == "uint256 chainId,"
    ensures forall rest :: "(" + ("string name," + rest) == "(string name," + rest
  {
  }

  lemma LastDomainPiece()
    ensures MemberText(Member("address", "verifyingContract"), ")") == "address verifyingContract)"
  {
  }

  lemma TransferPieces()
    ensures MemberText(Member("address", "from"), ",") == "address from,"
    ensures MemberText(Member("address", "to"), ",") == "address to,"
    ensures MemberText(Member("uint256", "value"), ",") == "uint256 value,"
    ensures MemberText(Member("uint256", "validAfter"), ",") == "uint256 validAfter,"
    ensures MemberText(Member("uint256", "validBefore"), ",") == "uint256 validBefore,"
    ensures MemberText(Member("bytes32", "nonce"), ")") == "bytes32 nonce)"
    ensures forall rest :: "(" + ("address from," + rest) == "(address from," + rest
  {
  }

  lemma CancelPieces()
    ensures MemberText(Member("address", "authorizer"), ",") == "address authorizer,"
    ensures MemberText(Member("bytes32", "nonce"), ")") == "bytes32 nonce)"
    ensures forall rest :: "(" + ("address authorizer," + rest) == "(address authorizer," + rest
  {
  }

  lemma DomainTypeText(ms: seq<Member>)
    requires DomainMembers(ms)
    ensures EncodeType("EIP712Domain", ms) == Eip712.DOMAIN_TYPE
  {
    DomainPieces();
    LastDomainPiece();
    FourMembers(ms, "string name,", "string version,", "uint256 chainId,", "address verifyingContract)");
  }

  lemma TransferTypeText(primaryType: string, ms: seq<Member>)
    requires TransferMembers(ms)
    ensures EncodeType(primaryType, ms) == primaryType + Eip712.TRANSFER_FIELDS
  {
    TransferPieces();
    SixMembers(ms, "address from,", "address to,", "uint256 value,", "uint256 validAfter,", "uint256 validBefore,",
               "bytes32 nonce)");
  }

  lemma CancelTypeText(ms: seq<Member>)
    requires CancelMembers(ms)
    ensures EncodeType("CancelAuthorization", ms) == Eip712.CANCEL_TYPE
  {
    CancelPieces();
    TwoMembers(ms, "address authorizer,", "bytes32 nonce)");
  }

  /** The type text of the standard, from the printed types, is the one that Go hashes. */
  lemma PrintedTypeText(kind: Kind, ms: seq<Member>)
    requires Supported(kind) && MembersOf(kind, ms)
    ensures PrimaryType(kind).Ok? && EncodeType(PrimaryType(kind).value, ms) == Eip712.TypeText(kind)
  {
    if kind == CancelAuthorization {
      CancelTypeText(ms);
    } else {
      TransferTypeText(PrimaryType(kind).value, ms);
    }
  }

  // ----- Values -----

  lemma {:induction false} ValuesEncoded(c: Crypto, members: seq<Member>, data: Fields, words: seq<Word>)
    requires |words| == |members|
    requires forall i :: 0 <= i < |members| ==> EncodeValue(c, members[i].typeName, Get(data, members[i].name)) == Some(words[i])
    ensures EncodeValues(c, members, data) == Some(words)
  {
    if members != [] {
      ValuesEncoded(c, members[1..], data, words[1..]);
      assert words == [words[0]] + words[1..];
    }
  }

  lemma {:induction false} ValueMissing(c: Crypto, members: seq<Member>, data: Fields, i: nat)
    requires i < |members| && EncodeValue(c, members[i].typeName, Get(data, members[i].name)) == None
    ensures EncodeValues(c, members, data) == None
  {
    if i > 0 {
      ValueMissing(c, members[1..], data, i - 1);
    }
  }

  lemma AddressEncoded(c: Crypto, j: Option<Json>, a: Address)
    requires SpellsAddress(j, a)
    ensures EncodeValue(c, "address", j) == Some(AddressWord(a))
  {
    AddressRead(j, a);
  }

  lemma WordEncoded(c: Crypto, j: Option<Json>, w: Word)
    requires SpellsWord(j, w)
    ensures EncodeValue(c, "bytes32", j) == Some(w)
  {
    WordRead(j, w);
    assert "bytes32"[0] == 'b' && "address"[0] == 'a';
  }

  lemma IntEncoded(c: Crypto, j: Option<Json>, n: int)
    requires SpellsInt(j, n)
    ensures EncodeValue(c, "uint256", j) == if 0 <= n < Uint256Limit() then Some(UintWord(n)) else None
  {
    IntegerRead(j, n);
    assert "uint256"[0] == 'u' && "bytes32"[0] == 'b' && "address"[0] == 'a';
  }

  lemma TextEncoded(c: Crypto, text: string)
    ensures EncodeValue(c, "string", Some(JString(text))) == Some(c.keccak(Utf8(text)))
  {
    assert |"string"| == 6 && |"uint256"| == |"bytes32"| == |"address"| == 7;
  }

  // ----- The printed object -----

  function Listing(types: Fields, name: string): Option<seq<Member>> {
    if name in types && types[name].JArray? then ReadMembers(types[name].items) else None
  }

  lemma DomainListing(kind: Kind)
    requires Supported(kind)
    ensures Listing(TypedDataTypes(kind), "EIP712Domain").Some?
    ensures DomainMembers(Listing(TypedDataTypes(kind), "EIP712Domain").value)
  {
    assert |"EIP712Domain"| == 12 && |"CancelAuthorization"| == 19;
    var items := TypedDataTypes(kind)["EIP712Domain"].items;
    TypeFieldRead("name", "string");
    TypeFieldRead("version", "string");
    TypeFieldRead("chainId", "uint256");
    TypeFieldRead("verifyingContract", "address");
    MembersRead(items);
  }

  lemma TransferItemsRead(items: seq<Json>)
    requires |items| == 6 && items[0] == TypeField("from", "address") && items[1] == TypeField("to", "address")
    requires items[2] == TypeField("value", "uint256") && items[3] == TypeField("validAfter", "uint256")
    requires items[4] == TypeField("validBefore", "uint256") && items[5] == TypeField("nonce", "bytes32")
    ensures ReadMembers(items).Some? && TransferMembers(ReadMembers(items).value)
  {
    TypeFieldRead("from", "address");
    TypeFieldRead("to", "address");
    TypeFieldRead("value", "uint256");
    TypeFieldRead("validAfter", "uint256");
    TypeFieldRead("validBefore", "uint256");
    TypeFieldRead("nonce", "bytes32");
    MembersRead(items);
  }

  lemma TransferListing(kind: Kind, primaryType: string)
    requires MovesTokens(kind) && PrimaryType(kind) == Ok(primaryType)
    ensures Listing(TypedDataTypes(kind), primaryType).Some?
    ensures TransferMembers(Listing(TypedDataTypes(kind), primaryType).value)
  {
    TransferItemsRead(TypedDataTypes(kind)[primaryType].items);
  }

  lemma CancelListing()
    ensures Listing(TypedDataTypes(CancelAuthorization), "CancelAuthorization").Some?
    ensures CancelMembers(Listing(TypedDataTypes(CancelAuthorization), "CancelAuthorization").value)
  {
    TypeFieldRead("authorizer", "address");
    TypeFieldRead("nonce", "bytes32");
    MembersRead(TypedDataTypes(CancelAuthorization)["CancelAuthorization"].items);
  }

  lemma MessageListing(kind: Kind)
    requires Supported(kind)
    ensures PrimaryType(kind).Ok? && Listing(TypedDataTypes(kind), PrimaryType(kind).value).Some?
    ensures MembersOf(kind, Listing(TypedDataTypes(kind), PrimaryType(kind).value).value)
  {
    if kind == CancelAuthorization {
      CancelListing();
    } else {
      TransferListing(kind, PrimaryType(kind).value);
    }
  }

  lemma DomainFields(style: Style, d: Domain)
    requires d.chainId.Some?
    ensures var data := DomainObject(style, d);
            && Get(data, "name") == Some(JString(d.name)) && Get(data, "version") == Some(JString(d.version))
            && Get(data, "chainId") == Some(JString(Show(d.chainId.value)))
            && Get(data, "verifyingContract") == Some(JString(style.address(d.verifyingContract)))
  {
  }

  lemma IntPrinted(c: Crypto, data: Fields, name: string, n: nat)
    requires Get(data, name) == Some(JString(Show(n)))
    ensures EncodeValue(c, "uint256", Get(data, name)) == if n < Uint256Limit() then Some(UintWord(n)) else None
  {
    PrintedInt(n);
    IntEncoded(c, Get(data, name), n);
  }

  lemma AddressPrinted(c: Crypto, style: Style, data: Fields, name: string, a: Address)
    requires Faithful(style) && Get(data, name) == Some(JString(style.address(a)))
    ensures EncodeValue(c, "address", Get(data, name)) == Some(AddressWord(a))
  {
    PrintedAddress(style, a);
    AddressEncoded(c, Get(data, name), a);
  }

  lemma WordPrinted(c: Crypto, style: Style, data: Fields, name: string, w: Word)
    requires Faithful(style) && Get(data, name) == Some(JString(style.word(w)))
    ensures EncodeValue(c, "bytes32", Get(data, name)) == Some(w)
  {
    PrintedWord(style, w);
    WordEncoded(c, Get(data, name), w);
  }

  function DomainWords(c: Crypto, d: Domain): seq<Word>
    requires d.chainId.Some?
  {
    [c.keccak(Utf8(d.name)), c.keccak(Utf8(d.version)), UintWord(d.chainId.value), AddressWord(d.verifyingContract)]
  }

  function TransferWords(a: Authorization): seq<Word>
    requires a.value.Some?
  {
    [AddressWord(a.from), AddressWord(a.to), UintWord(a.value.value), UintWord(a.validAfter), UintWord(a.validBefore), a.nonce]
  }

  /** The members' words of a printed domain; a chain id beyond 256 bits has none. */
  lemma DomainEncoded(c: Crypto, style: Style, d: Domain, ms: seq<Member>)
    requires Faithful(style) && DomainMembers(ms) && d.chainId.Some? && d.chainId.value >= 0
    ensures EncodeValues(c, ms, DomainObject(style, d))
         == if d.chainId.value >= Uint256Limit() then None else Some(DomainWords(c, d))
  {
    var data, n := DomainObject(style, d), d.chainId.value;
    if n >= Uint256Limit() {
      DomainFields(style, d);
      IntPrinted(c, data, "chainId", n);
      ValueMissing(c, ms, data, 2);
    } else {
      forall i: nat | i < 4
        ensures EncodeValue(c, ms[i].typeName, Get(data, ms[i].name)) == Some(DomainWords(c, d)[i])
      {
        DomainValue(c, style, d, ms, i);
      }
      ValuesEncoded(c, ms, data, DomainWords(c, d));
    }
  }

  lemma DomainValue(c: Crypto, style: Style, d: Domain, ms: seq<Member>, i: nat)
    requires Faithful(style) && DomainMembers(ms) && i < 4
    requires d.chainId.Some? && 0 <= d.chainId.value < Uint256Limit()
    ensures EncodeValue(c, ms[i].typeName, Get(DomainObject(style, d), ms[i].name)) == Some(DomainWords(c, d)[i])
  {
    var data := DomainObject(style, d);
    DomainFields(style, d);
    if i == 0 {
      TextEncoded(c, d.name);
    } else if i == 1 {
      TextEncoded(c, d.version);
    } else if i == 2 {
      IntPrinted(c, data, "chainId", d.chainId.value);
    } else {
      AddressPrinted(c, style, data, "verifyingContract", d.verifyingContract);
    }
  }

  /** The members' words of a printed message; a value beyond 256 bits has none. */
  lemma TransferEncoded(c: Crypto, style: Style, a: Authorization, ms: seq<Member>)
    requires Faithful(style) && TransferMembers(ms) && MovesTokens(a.kind) && a.value.Some? && a.value.value >= 0
    ensures EncodeValues(c, ms, MessageObject(style, a))
         == if a.value.value >= Uint256Limit() then None else Some(TransferWords(a))
  {
    var data, n := MessageObject(style, a), a.value.value;
    TransferFields(style, a, n, data);
    if n >= Uint256Limit() {
      IntPrinted(c, data, "value", n);
      ValueMissing(c, ms, data, 2);
    } else {
      forall i: nat | i < 6
        ensures EncodeValue(c, ms[i].typeName, Get(data, ms[i].name)) == Some(TransferWords(a)[i])
      {
        TransferValue(c, style, a, data, ms, i);
      }
      ValuesEncoded(c, ms, data, TransferWords(a));
    }
  }

  predicate HoldsTransfer(style: Style, a: Authorization, data: Fields)
    requires a.value.Some?
  {
    && Get(data, "from") == Some(JString(style.address(a.from))) && Get(data, "to") == Some(JString(style.address(a.to)))
    && Get(data, "value") == Some(JString(Show(a.value.value))) && Get(data, "nonce") == Some(JString(style.word(a.nonce)))
    && Get(data, "validAfter") == Some(JString(Show(a.validAfter)))
    && Get(data, "validBefore") == Some(JString(Show(a.validBefore)))
  }

  lemma TransferValue(c: Crypto, style: Style, a: Authorization, data: Fields, ms: seq<Member>, i: nat)
    requires Faithful(style) && TransferMembers(ms) && i < 6
    requires a.value.Some? && 0 <= a.value.value < Uint256Limit() && HoldsTransfer(style, a, data)
    ensures EncodeValue(c, ms[i].typeName, Get(data, ms[i].name)) == Some(TransferWords(a)[i])
  {
    if i < 2 {
      AddressPrinted(c, style, data, ms[i].name, if i == 0 then a.from else a.to);
    } else if i < 5 {
      TransferNumber(c, style, a, data, ms[i].name, i);
    } else {
      WordPrinted(c, style, data, ms[i].name, a.nonce);
    }
  }

  lemma TransferNumber(c: Crypto, style: Style, a: Authorization, data: Fields, name: string, i: nat)
    requires 2 <= i < 5 && name == if i == 2 then "value" else if i == 3 then "validAfter" else "validBefore"
    requires a.value.Some? && 0 <= a.value.value < Uint256Limit() && HoldsTransfer(style, a, data)
    ensures EncodeValue(c, "uint256", Get(data, name)) == Some(TransferWords(a)[i])
  {
    if i == 2 {
      IntPrinted(c, data, "value", a.value.value);
    } else if i == 3 {
      TimePrinted(c, data, "validAfter", a.validAfter);
    } else {
      TimePrinted(c, data, "validBefore", a.validBefore);
    }
  }

  lemma TimePrinted(c: Crypto, data: Fields, name: string, time: uint64)
    requires Get(data, name) == Some(JString(Show(time)))
    ensures EncodeValue(c, "uint256", Get(data, name)) == Some(UintWord(time))
  {
    Uint256Facts();
    IntPrinted(c, data, name, time);
  }

  lemma CancelEncoded(c: Crypto, style: Style, a: Authorization, ms: seq<Member>)
    requires Faithful(style) && CancelMembers(ms) && a.kind == CancelAuthorization
    ensures EncodeValues(c, ms, MessageObject(style, a)) == Some([AddressWord(a.authorizer), a.nonce])
  {
    var data := MessageObject(style, a);
    AddressPrinted(c, style, data, "authorizer", a.authorizer);
    WordPrinted(c, style, data, "nonce", a.nonce);
    ValuesEncoded(c, ms, data, [AddressWord(a.authorizer), a.nonce]);
  }

  // ----- The digest -----

  predicate ChainFits(d: Domain) {
    d.chainId.Some? ==> d.chainId.value < Uint256Limit()
  }

  predicate ValueFits(a: Authorization) {
    MovesTokens(a.kind) && a.value.Some? ==> a.value.value < Uint256Limit()
  }

  function MessageWords(a: Authorization): seq<Word>
    requires a.kind != CancelAuthorization ==> a.value.Some?
  {
    if a.kind == CancelAuthorization then [AddressWord(a.authorizer), a.nonce] else TransferWords(a)
  }

  lemma MessageEncoded(c: Crypto, style: Style, a: Authorization, ms: seq<Member>)
    requires Faithful(style) && Supported(a.kind) && MembersOf(a.kind, ms) && ValidateAuthorization(a).Ok?
    ensures EncodeValues(c, ms, MessageObject(style, a)) == if ValueFits(a) then Some(MessageWords(a)) else None
  {
    if a.kind == CancelAuthorization {
      CancelEncoded(c, style, a, ms);
    } else {
      TransferEncoded(c, style, a, ms);
    }
  }

  lemma StructHashed(c: Crypto, types: Fields, name: string, data: Fields, typeText: string, vs: seq<Eip712.AbiValue>)
    requires Listing(types, name).Some? && EncodeType(name, Listing(types, name).value) == typeText
    requires var words := EncodeValues(c, Listing(types, name).value, data);
             words.Some? && Eip712.PackWords(vs) == [c.keccak(Utf8(typeText))] + words.value
    ensures HashStruct(c, types, name, Some(JObject(data))) == Some(c.keccak(Eip712.Pack(vs)))
  {
  }

  lemma NotHashed(c: Crypto, types: Fields, name: string, data: Fields)
    requires Listing(types, name).Some? && EncodeValues(c, Listing(types, name).value, data).None?
    ensures HashStruct(c, types, name, Some(JObject(data))).None?
  {
  }

  lemma DomainPacked(c: Crypto, d: Domain)
    requires d.chainId.Some?
    ensures Eip712.PackWords(Eip712.DomainValues(c, d)) == [c.keccak(Utf8(Eip712.DOMAIN_TYPE))] + DomainWords(c, d)
  {
  }

  lemma SevenPacked(vs: seq<Eip712.AbiValue>, words: seq<Word>)
    requires |vs| == 7 && |words| == 6 && forall i :: 1 <= i < 7 ==> Eip712.PackValue(vs[i]) == words[i - 1]
    ensures Eip712.PackWords(vs) == [Eip712.PackValue(vs[0])] + words
  {
  }

  lemma TransferPacked(c: Crypto, a: Authorization)
    requires MovesTokens(a.kind) && ValidateAuthorization(a).Ok?
    ensures Eip712.PackWords(Eip712.StructValues(c, a)) == [c.keccak(Utf8(Eip712.TypeText(a.kind)))] + TransferWords(a)
  {
    var vs, words := Eip712.StructValues(c, a), TransferWords(a);
    assert vs[1] == Eip712.AbiAddress(a.from) && vs[2] == Eip712.AbiAddress(a.to) && vs[6] == Eip712.AbiBytes32(a.nonce);
    assert vs[3] == Eip712.AbiUint256(a.value.value);
    assert vs[4] == Eip712.AbiUint256(a.validAfter) && vs[5] == Eip712.AbiUint256(a.validBefore);
    SevenPacked(vs, words);
  }

  lemma MessagePacked(c: Crypto, a: Authorization)
    requires Supported(a.kind) && ValidateAuthorization(a).Ok?
    ensures Eip712.PackWords(Eip712.StructValues(c, a)) == [c.keccak(Utf8(Eip712.TypeText(a.kind)))] + MessageWords(a)
  {
    if a.kind != CancelAuthorization {
      TransferPacked(c, a);
    }
  }

  lemma DomainHashed(c: Crypto, style: Style, d: Domain, kind: Kind)
    requires Faithful(style) && Supported(kind) && ValidateDomain(d).Ok?
    ensures HashStruct(c, TypedDataTypes(kind), "EIP712Domain", Some(JObject(DomainObject(style, d))))
         == if ChainFits(d) then Some(Eip712.DomainSeparator(c, d).value) else None
  {
    var types, data := TypedDataTypes(kind), DomainObject(style, d);
    DomainListing(kind);
    DomainTypeText(Listing(types, "EIP712Domain").value);
    DomainEncoded(c, style, d, Listing(types, "EIP712Domain").value);
    if ChainFits(d) {
      DomainPacked(c, d);
      StructHashed(c, types, "EIP712Domain", data, Eip712.DOMAIN_TYPE, Eip712.DomainValues(c, d));
    } else {
      NotHashed(c, types, "EIP712Domain", data);
    }
  }

  lemma MessageHashed(c: Crypto, style: Style, a: Authorization)
    requires Faithful(style) && Supported(a.kind) && ValidateAuthorization(a).Ok?
    ensures PrimaryType(a.kind).Ok?
    ensures HashStruct(c, TypedDataTypes(a.kind), PrimaryType(a.kind).value, Some(JObject(MessageObject(style, a))))
         == if ValueFits(a) then Some(Eip712.AuthorizationStructHash(c, a).value) else None
  {
    var types, name, data := TypedDataTypes(a.kind), PrimaryType(a.kind).value, MessageObject(style, a);
    MessageListing(a.kind);
    var ms := Listing(types, name).value;
    PrintedTypeText(a.kind, ms);
    MessageEncoded(c, style, a, ms);
    if ValueFits(a) {
      MessagePacked(c, a);
      StructHashed(c, types, name, data, Eip712.TypeText(a.kind), Eip712.StructValues(c, a));
    } else {
      NotHashed(c, types, name, data);
    }
  }

  lemma WalletUnfolded(c: Crypto, root: Fields, types: Fields, name: string)
    requires Get(root, "types") == Some(JObject(types)) && Get(root, "primaryType") == Some(JString(name))
    ensures var d := HashStruct(c, types, "EIP712Domain", Get(root, "domain"));
            var m := HashStruct(c, types, name, Get(root, "message"));
            WalletDigest(c, root)
            == if d.Some? && m.Some? then Some(c.keccak(Eip712.DigestPreimage(d.value, m.value))) else None
  {
  }

  lemma TypesPrinted(style: Style, signed: SignedAuthorization)
    requires TypedDataObject(style, signed).Ok?
    ensures Get(TypedDataObject(style, signed).value, "types") == Some(JObject(TypedDataTypes(signed.authorization.kind)))
  {
  }

  /** A wallet that signs the printed typed data signs the digest that Go signs and the contract recomputes. Only where
      a value or chain id does not fit 256 bits, and Go hashes its remainder, does the standard give no digest. */
  lemma WalletSignsTheSame(c: Crypto, style: Style, signed: SignedAuthorization)
    requires Faithful(style) && Eip712.TypedDataHash(c, signed.domain, signed.authorization).Ok?
    ensures TypedDataObject(style, signed).Ok?
    ensures WalletDigest(c, TypedDataObject(style, signed).value)
         == if ChainFits(signed.domain) && ValueFits(signed.authorization)
            then Some(Eip712.TypedDataHash(c, signed.domain, signed.authorization).value) else None
  {
    var a := signed.authorization;
    TypedDataFields(style, signed);
    TypesPrinted(style, signed);
    var root := TypedDataObject(style, signed).value;
    WalletUnfolded(c, root, TypedDataTypes(a.kind), PrimaryType(a.kind).value);
    DomainHashed(c, style, signed.domain, a.kind);
    MessageHashed(c, style, a);
  }
}
