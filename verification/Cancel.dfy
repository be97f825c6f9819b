/** internal/cli/cli.go: the emergency cancel, from a message or from options, and what it does to the message's
    authorization. */
module Cancel {
  import opened Wrappers
  import opened Faults
  import opened Bytes
  import opened Types
  import opened Crypto
  import opened Eip712
  import opened Signing
  import opened Calldata
  import opened EndToEnd
  import Json
  import Message
  import MessageRoundTrip
  import Text
  import opened Numerals
  import Token
  import Runs
  import LifeCycle

  /** The options that decide what is cancelled; "" is an option not given. */
  datatype CancelOptions = CancelOptions(
    token: string, name: string, version: string, chainId: string, authorizer: string, nonce: string)

  const NO_OPTIONS := CancelOptions("", "", "", "", "", "")

  /** What the node would answer. */
  datatype Client = Client(
    chainId: Result<int, Fault>,
    tokenName: Address -> Result<string, Fault>,
    tokenVersion: Address -> Result<string, Fault>)

  function Argument(text: string): Option<Json.Json> {
    Some(Json.JString(text))
  }

  // ----- Specification -----

  /** Each part of the domain: the option if given, else the message's, else the node's. */
  function ResolvedDomain(client: Client, opts: CancelOptions, source: Option<SignedAuthorization>): Result<Domain, Fault> {
    var from := if source.Some? then source.value.domain else EMPTY_DOMAIN;
    var contract :- if opts.token == "" then Ok(from.verifyingContract) else Message.ParseAddress(Argument(opts.token));
    var given :- if opts.chainId == "" then Ok(from.chainId) else
                 (match Message.ParseBigInt(Argument(opts.chainId)) case Ok(n) => Ok(Some(n)) case Err(e) => Err(e));
    if contract == ZERO_ADDRESS then Err(ContractRequired) else
    var chainId :- if given.Some? then Ok(given.value) else client.chainId;
    var name :- FirstText([opts.name, from.name], client.tokenName(contract));
    var version :- FirstText([opts.version, from.version], client.tokenVersion(contract));
    Ok(Domain(name, version, Some(chainId), contract))
  }

  function FirstText(texts: seq<string>, otherwise: Result<string, Fault>): Result<string, Fault> {
    if texts == [] then otherwise else if texts[0] != "" then Ok(texts[0]) else FirstText(texts[1..], otherwise)
  }

  function CancelNonce(opts: CancelOptions, source: Option<SignedAuthorization>): Result<Word, Fault> {
    if opts.nonce != "" then Message.ParseHash(Argument(opts.nonce))
    else if source.Some? then Ok(source.value.authorization.nonce)
    else Err(NonceRequired)
  }

  function ResolvedAuthorizer(opts: CancelOptions, source: Option<SignedAuthorization>, keyAddress: Address)
    : Result<Address, Fault>
  {
    if opts.authorizer != "" then Message.ParseAddress(Argument(opts.authorizer))
    else if source.Some? then Ok(Holder(source.value.authorization))
    else Ok(keyAddress)
  }

  function BuiltCancel(c: Crypto, client: Client, opts: CancelOptions, source: Option<SignedAuthorization>, key: Key)
    : Result<SignedAuthorization, Fault>
  {
    var domain :- ResolvedDomain(client, opts, source);
    var nonce :- CancelNonce(opts, source);
    var authorizer :- ResolvedAuthorizer(opts, source, c.address(key));
    if authorizer != c.address(key) then Err(WrongKey)
    else SignAuthorization(c, domain, CancelRecord(authorizer, nonce), Some(key))
  }

  // ----- The code -----

  /** cancelDomain fills in a domain step by step. */
  method CancelDomain(client: Client, opts: CancelOptions, source: Option<SignedAuthorization>)
    returns (r: Result<Domain, Fault>)
    ensures r == ResolvedDomain(client, opts, source)
  {
    var domain := EMPTY_DOMAIN;
    if source.Some? {
      domain := source.value.domain;
    }
    ghost var from := domain;
    if opts.token != "" {
      var contract :- Message.ParseAddress(Argument(opts.token));
      domain := domain.(verifyingContract := contract);
    }
    if opts.name != "" {
      domain := domain.(name := opts.name);
    }
    if opts.version != "" {
      domain := domain.(version := opts.version);
    }
    if opts.chainId != "" {
      var chainId :- Message.ParseBigInt(Argument(opts.chainId));
      domain := domain.(chainId := Some(chainId));
    }
    if domain.verifyingContract == ZERO_ADDRESS {
      return Err(ContractRequired);
    }
    if domain.chainId.None? {
      var chainId :- client.chainId;
      domain := domain.(chainId := Some(chainId));
    }
    FirstOfTwo(opts.name, from.name, client.tokenName(domain.verifyingContract));
    FirstOfTwo(opts.version, from.version, client.tokenVersion(domain.verifyingContract));
    if domain.name == "" {
      var name :- client.tokenName(domain.verifyingContract);
      domain := domain.(name := name);
    }
    if domain.version == "" {
      var version :- client.tokenVersion(domain.verifyingContract);
      domain := domain.(version := version);
    }
    return Ok(domain);
  }

  lemma FirstOfTwo(x: string, y: string, otherwise: Result<string, Fault>)
    ensures FirstText([x, y], otherwise) == if x != "" then Ok(x) else if y != "" then Ok(y) else otherwise
  {
    assert [x, y][1..] == [y] && [y][1..] == [];
    assert FirstText([y], otherwise) == if y != "" then Ok(y) else otherwise;
  }

  /** buildCancelAuthorization, after the message and the key are read. */
  method BuildCancelAuthorization(c: Crypto, client: Client, opts: CancelOptions, source: Option<SignedAuthorization>, key: Key)
    returns (r: Result<SignedAuthorization, Fault>)
    ensures r == BuiltCancel(c, client, opts, source, key)
  {
    var keyAddress := c.address(key);
    var domain :- CancelDomain(client, opts, source);
    var nonce :- CancelNonce(opts, source);
    var authorizer := keyAddress;
    if opts.authorizer != "" {
      authorizer :- Message.ParseAddress(Argument(opts.authorizer));
    }
    if source.Some? && opts.authorizer == "" {
      if source.value.authorization.kind == CancelAuthorization {
        authorizer := source.value.authorization.authorizer;
      } else {
        authorizer := source.value.authorization.from;
      }
    }
    if authorizer != keyAddress {
      return Err(WrongKey);
    }
    r := SignAuthorization(c, domain, CancelRecord(authorizer, nonce), Some(key));
  }

  // ----- What it achieves -----

  /** Without options, the cancel of a message has its domain, its holder and its nonce; it is made exactly for the
      holder's key. */
  lemma CancelKeepsMessage(c: Crypto, client: Client, source: SignedAuthorization, key: Key)
    requires Lawful(c) && Named(source.domain)
    ensures var r := BuiltCancel(c, client, NO_OPTIONS, Some(source), key);
            && (r.Ok? <==> c.address(key) == Holder(source.authorization))
            && (r.Ok? ==>
                  && r.value.domain == source.domain
                  && r.value.authorization == CancelRecord(Holder(source.authorization), source.authorization.nonce))
  {
    var d := source.domain;
    FirstOfTwo("", d.name, client.tokenName(d.verifyingContract));
    FirstOfTwo("", d.version, client.tokenVersion(d.verifyingContract));
    assert ResolvedDomain(client, NO_OPTIONS, Some(source)) == Ok(d);
    KeyHasAddress(c, key);
    SignsExactly(c, d, CancelRecord(c.address(key), source.authorization.nonce), key);
    SignThenRecover(c, d, CancelRecord(c.address(key), source.authorization.nonce), key);
  }

  lemma KeyHasAddress(c: Crypto, key: Key)
    requires Lawful(c)
    ensures c.address(key) != ZERO_ADDRESS
  {
    assert RecoversTo(c, ZERO_WORD, c.sign(key, ZERO_WORD), c.address(key));
  }

  lemma BuiltCancelUnfolded(c: Crypto, client: Client, opts: CancelOptions, source: Option<SignedAuthorization>, key: Key)
    requires BuiltCancel(c, client, opts, source, key).Ok?
    ensures ResolvedDomain(client, opts, source).Ok? && CancelNonce(opts, source).Ok?
    ensures BuiltCancel(c, client, opts, source, key)
         == SignAuthorization(c, ResolvedDomain(client, opts, source).value,
                              CancelRecord(c.address(key), CancelNonce(opts, source).value), Some(key))
  {
  }

  /** Whatever the options and the message, a cancel that is made is the key holder's own, and verifies. */
  lemma CancelIsTheKeys(c: Crypto, client: Client, opts: CancelOptions, source: Option<SignedAuthorization>, key: Key)
    requires Lawful(c)
    ensures var r := BuiltCancel(c, client, opts, source, key);
            r.Ok? ==>
              && r.value.authorization.kind == CancelAuthorization && r.value.authorization.authorizer == c.address(key)
              && r.value.signature.Some?
              && Ok(r.value.authorization.nonce) == CancelNonce(opts, source)
              && Ok(r.value.domain) == ResolvedDomain(client, opts, source)
              && VerifySignedAuthorization(c, r.value).Ok?
  {
    if BuiltCancel(c, client, opts, source, key).Ok? {
      BuiltCancelUnfolded(c, client, opts, source, key);
      SignThenRecover(c, ResolvedDomain(client, opts, source).value,
                      CancelRecord(c.address(key), CancelNonce(opts, source).value), key);
    }
  }

  // ----- What the options achieve -----

  /** An option that gives some bytes in hexadecimal. */
  predicate GivesHex(option: string, bs: ByteString) {
    bs != [] && MessageRoundTrip.HexText(option, bs)
  }

  lemma GivenAddress(option: string, a: Address)
    requires GivesHex(option, a)
    ensures option != "" && Message.ParseAddress(Argument(option)) == Ok(a)
  {
    MessageRoundTrip.HexTextRead(option, a);
    MessageRoundTrip.AddressRead(Argument(option), a);
  }

  lemma GivenWord(option: string, w: Word)
    requires GivesHex(option, w)
    ensures option != "" && Message.ParseHash(Argument(option)) == Ok(w)
  {
    MessageRoundTrip.HexTextRead(option, w);
    assert Zeros(0) + w == w;
    assert MessageRoundTrip.HexText(Text.TrimSpace(option), w) && BytesToWord(w) == w;
    MessageRoundTrip.WordRead(Argument(option), w);
  }

  lemma GivenNumber(option: string, n: int)
    requires MessageRoundTrip.SpellsNumber(option, n)
    ensures option != "" && Message.ParseBigInt(Argument(option)) == Ok(n)
  {
    MessageRoundTrip.NumberRead(option, n);
  }

  /** Where each part of a cancel comes from: the option, else the message, else the node. The name and the version
      are those of the chosen contract; the key must be that of the authorizer, if one is named. */
  predicate ChoosesNonce(opts: CancelOptions, source: Option<SignedAuthorization>, n: Word) {
    if opts.nonce != "" then GivesHex(opts.nonce, n) else source.Some? && n == source.value.authorization.nonce
  }

  predicate ChoosesContract(opts: CancelOptions, source: Option<SignedAuthorization>, a: Address) {
    if opts.token != "" then GivesHex(opts.token, a) else source.Some? && a == source.value.domain.verifyingContract
  }

  ghost predicate ChoosesChain(client: Client, opts: CancelOptions, source: Option<SignedAuthorization>, n: int) {
    if opts.chainId != "" then MessageRoundTrip.SpellsNumber(opts.chainId, n)
    else if source.Some? && source.value.domain.chainId.Some? then source.value.domain.chainId == Some(n)
    else client.chainId == Ok(n)
  }

  predicate ChoosesText(option: string, kept: string, answer: Result<string, Fault>, text: string) {
    if option != "" then text == option else if kept != "" then text == kept else answer == Ok(text)
  }

  predicate ChoosesKey(opts: CancelOptions, source: Option<SignedAuthorization>, a: Address) {
    if opts.authorizer != "" then GivesHex(opts.authorizer, a)
    else source.Some? ==> a == Holder(source.value.authorization)
  }

  ghost predicate ChoosesDomain(client: Client, opts: CancelOptions, source: Option<SignedAuthorization>, d: Domain) {
    var kept := if source.Some? then source.value.domain else EMPTY_DOMAIN;
    && ChoosesContract(opts, source, d.verifyingContract)
    && d.chainId.Some? && ChoosesChain(client, opts, source, d.chainId.value)
    && ChoosesText(opts.name, kept.name, client.tokenName(d.verifyingContract), d.name)
    && ChoosesText(opts.version, kept.version, client.tokenVersion(d.verifyingContract), d.version)
  }

  lemma TextChosen(option: string, kept: string, answer: Result<string, Fault>, text: string)
    ensures FirstText([option, kept], answer) == Ok(text) <==> ChoosesText(option, kept, answer, text)
  {
    FirstOfTwo(option, kept, answer);
  }

  lemma ContractChosen(opts: CancelOptions, source: Option<SignedAuthorization>, a: Address)
    requires ChoosesContract(opts, source, a)
    ensures opts.token != "" ==> Message.ParseAddress(Argument(opts.token)) == Ok(a)
  {
    if opts.token != "" {
      GivenAddress(opts.token, a);
    }
  }

  lemma ChainChosen(client: Client, opts: CancelOptions, source: Option<SignedAuthorization>, n: int)
    requires ChoosesChain(client, opts, source, n)
    ensures opts.chainId != "" ==> Message.ParseBigInt(Argument(opts.chainId)) == Ok(n)
  {
    if opts.chainId != "" {
      GivenNumber(opts.chainId, n);
    }
  }

  lemma DomainChosen(client: Client, opts: CancelOptions, source: Option<SignedAuthorization>, d: Domain)
    requires ChoosesDomain(client, opts, source, d) && d.verifyingContract != ZERO_ADDRESS
    ensures ResolvedDomain(client, opts, source) == Ok(d)
  {
    var kept := if source.Some? then source.value.domain else EMPTY_DOMAIN;
    ContractChosen(opts, source, d.verifyingContract);
    ChainChosen(client, opts, source, d.chainId.value);
    TextChosen(opts.name, kept.name, client.tokenName(d.verifyingContract), d.name);
    TextChosen(opts.version, kept.version, client.tokenVersion(d.verifyingContract), d.version);
  }

  lemma NonceChosen(opts: CancelOptions, source: Option<SignedAuthorization>, n: Word)
    requires ChoosesNonce(opts, source, n)
    ensures CancelNonce(opts, source) == Ok(n)
  {
    if opts.nonce != "" {
      GivenWord(opts.nonce, n);
    }
  }

  lemma KeyChosen(opts: CancelOptions, source: Option<SignedAuthorization>, a: Address)
    requires ChoosesKey(opts, source, a)
    ensures ResolvedAuthorizer(opts, source, a) == Ok(a)
  {
    if opts.authorizer != "" {
      GivenAddress(opts.authorizer, a);
    }
  }

  /** The cancel that the options, the message and the node choose is made, and no other, whenever its domain is
      complete. */
  lemma CancelAsChosen(c: Crypto, client: Client, opts: CancelOptions, source: Option<SignedAuthorization>, key: Key,
                       d: Domain, n: Word)
    requires Lawful(c) && ChoosesDomain(client, opts, source, d) && ChoosesNonce(opts, source, n) && Named(d)
    requires ChoosesKey(opts, source, c.address(key))
    ensures var r := BuiltCancel(c, client, opts, source, key);
            && r.Ok? && r.value.domain == d && r.value.authorization == CancelRecord(c.address(key), n)
            && VerifySignedAuthorization(c, r.value).Ok?
  {
    DomainChosen(client, opts, source, d);
    NonceChosen(opts, source, n);
    KeyChosen(opts, source, c.address(key));
    KeyHasAddress(c, key);
    SignsExactly(c, d, CancelRecord(c.address(key), n), key);
    SignThenRecover(c, d, CancelRecord(c.address(key), n), key);
  }

  /** A key that is not the named authorizer's makes no cancel. */
  lemma OtherKeyRefused(c: Crypto, client: Client, opts: CancelOptions, source: Option<SignedAuthorization>, key: Key,
                        a: Address)
    requires c.address(key) != a
    requires if opts.authorizer != "" then GivesHex(opts.authorizer, a)
             else source.Some? && a == Holder(source.value.authorization)
    ensures BuiltCancel(c, client, opts, source, key).Err?
  {
    KeyChosen(opts, source, a);
  }

  /** Whatever the message and the node say, a cancel that is made has what an option gives, and its call spends the
      given nonce of the key. */
  lemma OptionsDecide(c: Crypto, client: Client, opts: CancelOptions, source: Option<SignedAuthorization>, key: Key,
                      n: Word, token: Address, chainId: int, caller: Address, now: uint256)
    requires Lawful(c) && BuiltCancel(c, client, opts, source, key).Ok?
    ensures BuiltCancel(c, client, opts, source, key).value.authorization.kind == CancelAuthorization
    ensures BuiltCancel(c, client, opts, source, key).value.signature.Some?
    ensures var x := BuiltCancel(c, client, opts, source, key).value;
            && (GivesHex(opts.nonce, n) ==>
                  x.authorization.nonce == n && Token.Spends(Token.Tx(caller, now, CallOf(x))) == Some((c.address(key), n)))
            && (GivesHex(opts.token, token) ==> x.domain.verifyingContract == token)
            && (MessageRoundTrip.SpellsNumber(opts.chainId, chainId) ==> x.domain.chainId == Some(chainId))
            && (opts.name != "" ==> x.domain.name == opts.name)
            && (opts.version != "" ==> x.domain.version == opts.version)
  {
    var x := BuiltCancel(c, client, opts, source, key).value;
    CancelIsTheKeys(c, client, opts, source, key);
    if GivesHex(opts.nonce, n) {
      GivenWord(opts.nonce, n);
    }
    DomainOptionsDecide(client, opts, source, x.domain, token, chainId);
  }

  lemma DomainOptionsDecide(client: Client, opts: CancelOptions, source: Option<SignedAuthorization>, d: Domain,
                            token: Address, chainId: int)
    requires ResolvedDomain(client, opts, source) == Ok(d)
    ensures GivesHex(opts.token, token) ==> d.verifyingContract == token
    ensures MessageRoundTrip.SpellsNumber(opts.chainId, chainId) ==> d.chainId == Some(chainId)
    ensures opts.name != "" ==> d.name == opts.name
    ensures opts.version != "" ==> d.version == opts.version
  {
    var kept := if source.Some? then source.value.domain else EMPTY_DOMAIN;
    FirstOfTwo(opts.name, kept.name, client.tokenName(d.verifyingContract));
    FirstOfTwo(opts.version, kept.version, client.tokenVersion(d.verifyingContract));
    if GivesHex(opts.token, token) {
      GivenAddress(opts.token, token);
    }
    if MessageRoundTrip.SpellsNumber(opts.chainId, chainId) {
      GivenNumber(opts.chainId, chainId);
    }
  }

  /** A spent nonce stays spent. */
  lemma SpentStays(t: Token.Config, history: seq<Token.Tx>, future: seq<Token.Tx>, pair: (Address, Word))
    requires pair in Runs.Run(t, Token.EMPTY_LEDGER, history).spent
    ensures pair in Runs.Run(t, Token.EMPTY_LEDGER, history + future).spent
  {
    Runs.RunConcat(t, Token.EMPTY_LEDGER, history, future);
    Runs.SpentByAccepted(t, Runs.Run(t, Token.EMPTY_LEDGER, history), future, pair);
  }

  /** Once a pair is spent, every call that would spend it is refused, in every continuation. */
  lemma SpentIsRefused(t: Token.Config, history: seq<Token.Tx>, future: seq<Token.Tx>, tx: Token.Tx, pair: (Address, Word))
    requires pair in Runs.Run(t, Token.EMPTY_LEDGER, history).spent && Token.Spends(tx) == Some(pair)
    ensures Token.Refusal(t, Runs.Run(t, Token.EMPTY_LEDGER, history + future), tx).Some?
  {
    SpentStays(t, history, future, pair);
    Runs.AcceptedExactly(t, Runs.Run(t, Token.EMPTY_LEDGER, history + future), tx);
  }

  /** The message's own call. */
  predicate Executes(tx: Token.Tx, a: Authorization)
    requires MovesTokens(a.kind) && a.value.Some?
  {
    LifeCycle.Presents(tx, PermitOf(a))
  }

  /** A cancel signed by the holder's key is accepted exactly if the nonce is unspent, from any caller at any time. */
  lemma CancelLands(t: Token.Config, source: SignedAuthorization, key: Key, built: SignedAuthorization, s: Token.Ledger,
                    caller: Address, now: uint256)
    requires Lawful(t.crypto) && DistinctSelectors(t.crypto)
    requires Deployed(t, source.domain) && MovesTokens(source.authorization.kind)
    requires t.crypto.address(key) == source.authorization.from
    requires Ok(built) == SignAuthorization(t.crypto, source.domain,
                            CancelRecord(source.authorization.from, source.authorization.nonce), Some(key))
    ensures built.authorization.kind == CancelAuthorization && built.signature.Some?
    ensures var pair := (source.authorization.from, source.authorization.nonce);
            && Token.Spends(Token.Tx(caller, now, CallOf(built))) == Some(pair)
            && (Token.Refusal(t, s, Token.Tx(caller, now, CallOf(built))).None? <==> pair !in s.spent)
  {
    var record := CancelRecord(source.authorization.from, source.authorization.nonce);
    SignThenRecover(t.crypto, source.domain, record, key);
    SignedInGoExecutedOnChain(t, source.domain, record, key, built, s, caller, now);
  }

  /** The emergency cancel of a transfer or receive message, sent to its contract by anyone at any time: it succeeds
      exactly if the nonce is unspent; then the message is refused ever after, whoever presents it, in every
      continuation; and if the message came first, the cancel is refused ever after. */
  lemma EmergencyCancel(t: Token.Config, client: Client, source: SignedAuthorization, key: Key,
                        history: seq<Token.Tx>, future: seq<Token.Tx>, caller: Address, now: uint256, tx: Token.Tx)
    requires Lawful(t.crypto) && DistinctSelectors(t.crypto)
    requires Deployed(t, source.domain) && Named(source.domain) && t.crypto.address(key) == source.authorization.from
    requires MovesTokens(source.authorization.kind) && source.authorization.value.Some?
    requires Executes(tx, source.authorization)
    ensures BuiltCancel(t.crypto, client, NO_OPTIONS, Some(source), key).Ok?
    ensures var s := Runs.Run(t, Token.EMPTY_LEDGER, history);
            var cancel := Token.Tx(caller, now, CallOf(BuiltCancel(t.crypto, client, NO_OPTIONS, Some(source), key).value));
            && (Token.Refusal(t, s, cancel).None? <==> (source.authorization.from, source.authorization.nonce) !in s.spent)
            && Token.Refusal(t, Runs.Run(t, Token.EMPTY_LEDGER, history + [cancel] + future), tx).Some?
            && (Token.Refusal(t, s, tx).None? ==>
                  Token.Refusal(t, Runs.Run(t, Token.EMPTY_LEDGER, history + [tx] + future), cancel).Some?)
  {
    var a := source.authorization;
    var pair := (a.from, a.nonce);
    CancelKeepsMessage(t.crypto, client, source, key);
    BuiltCancelUnfolded(t.crypto, client, NO_OPTIONS, Some(source), key);
    var built := BuiltCancel(t.crypto, client, NO_OPTIONS, Some(source), key).value;
    var s := Runs.Run(t, Token.EMPTY_LEDGER, history);
    CancelLands(t, source, key, built, s, caller, now);
    var cancel := Token.Tx(caller, now, CallOf(built));
    SpentAfter(t, history, cancel, future, tx, pair);
    if Token.Refusal(t, s, tx).None? {
      SpentAfter(t, history, tx, future, cancel, pair);
    }
  }

  /** After a call that spends a pair, or finds it spent, every call that would spend it is refused. */
  lemma SpentAfter(t: Token.Config, history: seq<Token.Tx>, first: Token.Tx, future: seq<Token.Tx>, second: Token.Tx,
                   pair: (Address, Word))
    requires Token.Spends(first) == Some(pair) && Token.Spends(second) == Some(pair)
    requires var s := Runs.Run(t, Token.EMPTY_LEDGER, history); Token.Refusal(t, s, first).None? || pair in s.spent
    ensures Token.Refusal(t, Runs.Run(t, Token.EMPTY_LEDGER, history + [first] + future), second).Some?
  {
    AfterOne(t, history, first);
    Runs.AcceptedExactly(t, Runs.Run(t, Token.EMPTY_LEDGER, history), first);
    SpentIsRefused(t, history + [first], future, second, pair);
  }

  lemma AfterOne(t: Token.Config, history: seq<Token.Tx>, tx: Token.Tx)
    ensures Runs.Run(t, Token.EMPTY_LEDGER, history + [tx]) == Token.Apply(t, Runs.Run(t, Token.EMPTY_LEDGER, history), tx)
  {
    assert (history + [tx])[..|history|] == history;
  }
}
