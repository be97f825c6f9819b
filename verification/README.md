# EIP-3009 authorizations, verified

This project models the command line tool and the reference token of this repository in Dafny 4.11 and proves what they
promise each other: an authorization that the Go code signs, prints, reads back and encodes is the one that the contract
decides on, and the contract spends each authorization at most once over every run.

`dafny verify dfyconfig.toml` checks everything.

## The modules

| file | content |
|---|---|
| `Wrappers.dfy`, `Faults.dfy` | optional values, outcomes, and one constructor for each error condition of the Go code |
| `Numerals.dfy` | positional numerals in any base |
| `Bytes.dfy` | byte strings, addresses, 32-byte words |
| `Text.dfy` | UTF-8, trimming, letter case, decimal and hexadecimal numerals |
| `Amount.dfy` | `amount.go`: decimal amounts |
| `Types.dfy`, `Crypto.dfy` | `types.go`: the records and their validation; the shared primitives as parameters |
| `Eip712.dfy` | `eip712.go`: the digest that Go signs, and what it binds |
| `Signing.dfy` | signing, recovery and the recovery byte v |
| `Token.dfy` | the contract: what a transaction does, and the contract's code proved against it |
| `Runs.dfy`, `LifeCycle.dfy` | whole runs of the contract, and the life of one authorization |
| `Calldata.dfy` | `calldata.go`, and the contract's ABI decoder |
| `Json.dfy`, `Message.dfy`, `MessageRoundTrip.dfy` | `json.go` and `message.go`: what a message spells, how it is read, and printing and reading back |
| `TypedData.dfy` | the digest that a wallet computes from the printed typed data |
| `EndToEnd.dfy`, `Cancel.dfy` | from Go to the contract, and the emergency cancel of `cli.go` |

## How the system is modelled

- Keccak-256, signing, public key recovery, the address of a key and the lower-half test on S are function parameters,
  collected in `Crypto.Crypto`. The one law is `Crypto.Lawful`: a signature recovers to the address of its key. Nothing is
  assumed about collisions: where binding would need it, `Eip712.FindCollision` computes a colliding pair of preimages.
- Selectors: Go finds a method of its ABI by the text of the kind and hashes the text built from the name and the input
  types; the contract dispatches on the functions that it declares. The two are written down separately, in `Calldata.Entry`
  and `Token.TRANSFER_FUNCTION` and its siblings, and `Calldata.SameDeclaration` proves that they agree.
- `Calldata.DistinctSelectors` states a fact about Keccak-256: the seven methods of the ABI have different selectors.
- The token is a class whose methods follow the contract's functions statement by statement. Each external call is
  `Token.EIP3009Token.Transact`, which undoes all writes when the call reverts. `Token.Apply` says what a transaction
  does; `Token.EIP3009Token.constructor` starts at `Token.EMPTY_LEDGER` and every `Transact` is one `Apply`, so the
  reachable states of the class are those of `Runs.Run`. Plain ERC-20 transfers by any holder are among the transactions.
- The inherited ERC-20 functions follow the "Methods" section of EIP-20 with checked 256-bit arithmetic: the zero address is
  refused on either side, and a transfer to oneself works.
- Go's ABI encoder writes big integers modulo 2^256. The validators do not bound values or chain ids
  (`internal/eip3009/types.go:188-224`), so statements about words say `% Uint256Limit()` instead of excluding such numbers.
  `Eip712.OversizedValueAliases` shows that the digest does not tell a value from the same value plus 2^256;
  `Eip712.DigestBinding` together with `Eip712.SameWordInRange` says when it does.
- JSON is a tree. Numbers and booleans keep their source text. Printed hexadecimal texts take a `Json.Style`, any way to
  print the digits with letters of either case; `Json.GoStyle` is the EIP-55 checksum case that go-ethereum prints.
- Strings are code points and are hashed as UTF-8, which is written out and proved injective.

## Where the code and its appearance differ

- An amount without digits, ".", is zero: the check for it at `internal/eip3009/amount.go:52` comes after the empty whole part
  became "0" and never fires (`Amount.LoneDotIsZero`).
- `parseHash` checks a text with one decoder and converts it with another. They disagree on texts that start with "0x0X"
  and are not otherwise zero, and on no others (`Message.HashReadAsChecked`, `Message.TwoPrefixesExample`).
- An expired authorization can never be used, but its nonce can still be spent, by a cancellation or by another
  authorization of the same payer; `LifeCycle.MayBecome` therefore lets the ledger's view go on from Expired.
- A signature with v of 0 or 1 verifies in Go and is refused by the contract (`EndToEnd.AcceptedIffVerified`).
- Go signs a value or chain id of 2^256 or more by its remainder; a wallet that follows EIP-712 has no digest for it
  (`TypedData.WalletSignsTheSame`).

## Model

| member | source | states |
|---|---|---|
| Amount.IsDecimalDigits | internal/eip3009/amount.go:103-113 | the loop accepts exactly the non-empty strings of digits |
| Amount.HumanAmountAccepts | internal/eip3009/amount.go:33-60 | the refusals leave exactly the digit strings with at most one dot and at most `decimals` digits after it |
| Amount.ParseHumanAmount | internal/eip3009/amount.go:33-77 | an accepted W.F is the integer WF times ten to the unused decimals; every refusal has its own reason |
| Amount.ScaleAndAdd | internal/eip3009/amount.go:62-76 | scaling whole part and padded fraction separately and adding them is exact, with no rounding |
| Amount.LoneDotIsZero | internal/eip3009/amount.go:49-54 | a lone dot is accepted as zero for any decimals |
| Amount.FormatTokenValue | internal/eip3009/amount.go:79-101 | quotient, remainder, padding and trimming print the digits of the value with the dot in its place, after a minus sign for a negative one |
| Amount.QuoAndMod | internal/eip3009/amount.go:92-95 | quotient and padded remainder by the scale are the digits before and after the dot, and the padding count is never negative |
| Amount.FormatRoundTrip | internal/eip3009/amount.go:33-101 | formatting and parsing gives every non-negative value back, for any decimals; a negative one prints as its opposite after a minus sign, which parsing refuses |
| Amount.FormatInjective | internal/eip3009/amount.go:79-101 | different integers, negative ones included, never print the same |
| Amount.FormatOfParsed | internal/eip3009/amount.go:43-100 | parsing and formatting an accepted amount strips leading zeros, trailing fraction zeros and a dot without fraction, and nothing else |
| Amount.EqualValuesIffEqualCanonical | internal/eip3009/amount.go:43-100 | two accepted amounts are equal if and only if their canonical texts are |
| Amount.ParseScales | internal/eip3009/amount.go:55-76 | an amount accepted with d decimals is accepted with d+1 and worth ten times as much |
| Amount.FormatScales | internal/eip3009/amount.go:83-100 | ten times a value with one more decimal prints the same, negative values included |
| Amount.ParseTokenValue | internal/eip3009/amount.go:10-31 | a value results only if exactly one of the two arguments is given, and from an amount only with its decimals known and respected |
| Amount.TokenValueExactly | internal/eip3009/amount.go:10-31 | a value results if and only if the one argument spells it as an integer, whatever the decimals, or the other as an amount with the decimals given, and the remaining one is blank |
| Amount.ValueAndAmountAgree | internal/eip3009/amount.go:10-31 | the raw integer, with any decimals or none, and the formatted amount name the same value |
| Types.KindNamesUnderstood | internal/eip3009/types.go:74-98 | each supported kind is recognised by its method name and by its primary type |
| Types.KindNamesExactly | internal/eip3009/types.go:74-85 | a text means a kind if and only if, trimmed and in lower case, it is one of the kind's short, joined or underscored names; blank means transfer |
| Eip712.FindCollision | internal/eip3009/eip712.go:34-97 | computes from two lists of hashed byte strings a pair that differs with equal hashes, or shows that equal hashes mean equal strings |
| Eip712.DigestBinding | internal/eip3009/eip712.go:18-97 | equal digests mean the same name, version, chain id, contract, kind and signed fields, or an explicit Keccak collision among the preimages |
| Eip712.DigestDetermined | internal/eip3009/eip712.go:18-97 | nothing else enters the digest |
| Eip712.OversizedValueAliases | internal/eip3009/types.go:204-213 | a value that passes validation and the same value plus 2^256 have one digest |
| Eip712.SameWordInRange | internal/eip3009/types.go:188-213 | below 2^256 equal words are equal numbers, so that binding is exact there |
| Eip712.TypeTextsDiffer | internal/eip3009/types.go:22-27 | the encoded types of the three kinds are different byte strings |
| Signing.RecoverAuthorizationSigner | internal/eip3009/types.go:159-186 | the filled buffer is R, S and the recovery id; a v other than 0, 1, 27, 28 is an error |
| Signing.SignThenRecover | internal/eip3009/types.go:130-186 | signing succeeds exactly on valid records, recovers to the key's address with v 27 or 28, and verifies exactly for the record's signer |
| Signing.NormalizeSignatureVForSolidity | internal/eip3009/types.go:59-72 | rewrites v in place, reports whether it changed, and touches nothing on error |
| Signing.ResolveSignatureVForBroadcast | internal/cli/cli.go:363-404 | each policy and prompt answer leads to the stated v, or to an error that leaves the signature alone |
| Signing.RecoveryStableUnderV | internal/eip3009/types.go:59-72 | no accepted rewriting of v changes the recovered signer or the verdict |
| Signing.NormalizationEnds | internal/cli/cli.go:351-404 | normalization is idempotent and ends at 27 or 28; a broadcast goes ahead if and only if v is understood and 0 or 1 has a policy, keeps the recovery id, and sends 27 or 28 unless the policy is to keep v |
| Token.EIP3009Token.constructor | solidity-eip3009-token/src/EIP3009Token.sol:33-42 | a new token has no balances, no supply, no spent nonces and an empty log |
| Token.EIP3009Token.Transact | solidity-eip3009-token/src/EIP3009Token.sol:56-103 | an external call has its whole effect or, with its reason, none, although the code writes before it checks the balance |
| Token.EIP3009Token.Dispatch | solidity-eip3009-token/src/EIP3009Token.sol:56-103 | the code of each entry point refuses for the first reason that applies and otherwise makes the stated change |
| Token.EIP3009Token.DoTransferWithAuthorization | solidity-eip3009-token/src/EIP3009Token.sol:60-75 | marks the nonce before moving tokens: on a failed transfer the mark is still there, until rolled back |
| Token.EIP3009Token.DoReceiveWithAuthorization | solidity-eip3009-token/src/EIP3009Token.sol:77-95 | the same for the payee's own call |
| Token.EIP3009Token.DoCancelAuthorization | solidity-eip3009-token/src/EIP3009Token.sol:97-103 | spends an unspent pair for its authorizer's signature, and nothing else changes |
| Token.EIP3009Token.UseTransferAuthorization | solidity-eip3009-token/src/EIP3009Token.sol:105-125 | window, nonce and signature are checked in this order before the nonce is marked and logged |
| Token.EIP3009Token.RequireValidTime | solidity-eip3009-token/src/EIP3009Token.sol:127-134 | passes exactly strictly inside the window |
| Token.EIP3009Token.RequireUnusedAuthorization | solidity-eip3009-token/src/EIP3009Token.sol:136-140 | passes exactly for an unspent pair |
| Token.EIP3009Token.RequireValidSignature | solidity-eip3009-token/src/EIP3009Token.sol:142-150 | passes exactly if the digest's signature recovers to the expected signer |
| Token.EIP3009Token.DoMint | solidity-eip3009-token/src/EIP3009Token.sol:56-58 | only the owner mints, never to the zero address and never past 2^256 |
| Token.EIP3009Token.TransferTokens | solidity-eip3009-token/src/EIP3009Token.sol:74 | moves exactly the value, also to oneself; the payee's balance never overflows |
| Token.ApplySolvent | solidity-eip3009-token/src/EIP3009Token.sol:56-95 | every transaction keeps the balances adding up to a 256-bit supply |
| Runs.AcceptedExactly | solidity-eip3009-token/src/EIP3009Token.sol:56-150 | the ordered checks refuse exactly what breaks one of the unordered conditions |
| Runs.WholeRunAccounting | solidity-eip3009-token/src/EIP3009Token.sol:56-95 | in every reachable state the log alone gives each balance, the transfers to the holder less those from it, and the supply, the transfers from the zero address; balances sum to the supply |
| Runs.RunAccounting | solidity-eip3009-token/src/EIP3009Token.sol:60-95 | the same law from any state on, over what the accepted calls log |
| Runs.LogOfAccepted | solidity-eip3009-token/src/EIP3009Token.sol:24-25 | the log is exactly what the accepted calls emit, in order |
| Runs.OneEntryPerSpending | solidity-eip3009-token/src/EIP3009Token.sol:97-125 | a transaction logs a pair exactly when it spends it, and only an unspent one |
| Runs.AtMostOneEffect | solidity-eip3009-token/src/EIP3009Token.sol:97-140 | in every reachable state a pair is spent if and only if the log names it exactly once |
| Runs.UsedOrCanceled | solidity-eip3009-token/src/EIP3009Token.sol:97-140 | a spent pair was used or cancelled, and never both |
| Runs.NoUseWithoutTransfer | solidity-eip3009-token/src/EIP3009Token.sol:71-74 | in every reachable state each logged use is directly followed by the movement of that payer's tokens |
| Runs.UseProvenance | solidity-eip3009-token/src/EIP3009Token.sol:77-150 | the log has a use if and only if some transaction of the run was a transfer or receive call for it, acceptable when it came: signed by the payer over these fields and kind, inside the window, by the payee for receive |
| Runs.CancelProvenance | solidity-eip3009-token/src/EIP3009Token.sol:97-103 | the same for cancellations and the authorizer's signature over the pair |
| Runs.OrderIndependence | solidity-eip3009-token/src/EIP3009Token.sol:56-125 | runs that accept the same calls in any order, whatever reverts in between, agree on balances, supply and spent nonces |
| Runs.PermutedRuns | solidity-eip3009-token/src/EIP3009Token.sol:56-125 | in particular two successful runs of permuted calls |
| Runs.Atomicity | solidity-eip3009-token/src/EIP3009Token.sol:56-125 | a call changes nothing, or does all that its arguments name and nothing else: a permit spends its own unspent pair and pays its value, a cancel only spends, a mint credits its recipient and the supply, a plain transfer only pays |
| LifeCycle.PhasesMoveForward | solidity-eip3009-token/src/EIP3009Token.sol:97-140 | from not yet valid to live to used, cancelled or expired, never back, in every continuation with a clock that does not go back |
| LifeCycle.HonouredExactlyWhileLive | solidity-eip3009-token/src/EIP3009Token.sol:60-134 | an authorization succeeds exactly while it is live, signed, funded and properly submitted, and is used afterwards |
| LifeCycle.RefusalTellsWhy | solidity-eip3009-token/src/EIP3009Token.sol:88-134 | the reason of a refusal tells the phase, by a fixed precedence: caller, too early, too late, spent, signature, addresses, funds |
| LifeCycle.EndsAreFinal | solidity-eip3009-token/src/EIP3009Token.sol:97-140 | used, cancelled and expired authorizations are refused in every later state of every run |
| LifeCycle.PhaseChanges | solidity-eip3009-token/src/EIP3009Token.sol:97-125 | a transaction changes a phase only by spending the nonce, and from another phase than live only as a cancellation or another authorization |
| Calldata.SameDeclaration | internal/eip3009/calldata.go:13-56 | the method that Go packs under a kind's name has the name and input types of the function that the contract declares for that kind |
| Calldata.SelectorsAgree | internal/eip3009/calldata.go:133-147 | calldata under a kind's selector is read as that kind by Go's lookup and by the contract's dispatch |
| Calldata.DecodeOfEncode | internal/eip3009/calldata.go:101-197 | decoding undoes encoding for all three kinds, with an empty domain and the value as a word |
| Calldata.DeliveredUnchanged | internal/eip3009/calldata.go:162-192 | the record arrives unchanged if and only if it has only its kind's fields and its value is a uint256 |
| Calldata.EncodeInjective | internal/eip3009/calldata.go:101-131 | such records are told apart by their calldata |
| Calldata.EncodeOfDecode | internal/eip3009/calldata.go:133-197 | encoding what was decoded gives the calldata back if and only if it has no trailing bytes and no dirty address words |
| Calldata.ContractTakesExactly | internal/eip3009/calldata.go:133-197 | under a kind's selector the contract takes calldata if and only if its address words are clean and Go decodes it or finds a time too large |
| Calldata.TailIgnored | internal/eip3009/calldata.go:142 | neither side looks at bytes after the arguments |
| Calldata.TimesNeverCut | internal/eip3009/calldata.go:154-161 | a decoded time is the whole word |
| Calldata.DecodedAsExecuted | internal/eip3009/calldata.go:133-227 | of calldata that the contract takes, Go decodes the very call that is executed, or reports a time beyond 64 bits |
| Calldata.ContractReadsRecord | internal/eip3009/calldata.go:101-131 | the contract's decoder reads the encoded record's own call |
| Json.GoStyleFaithful | internal/eip3009/json.go:116-137 | the checksum case of an address and the lower case of a hash are spellings of their bytes |
| Json.SignatureBytes | internal/eip3009/json.go:150-156 | the filled buffer is R, S and v |
| Json.SignedAuthorizationObject | internal/eip3009/json.go:24-42 | the keys added one by one are those of the wrapper, with signature and verdict only if known |
| Json.ExtractionObject | internal/eip3009/json.go:44-71 | amounts are added to the outer message only; the typed data keep theirs |
| Message.HashReadAsChecked | internal/eip3009/message.go:218-231 | the hash converted is the one checked if and only if the text has not both prefixes, or only zeros after them |
| Message.TwoPrefixesExample | internal/eip3009/message.go:218-231 | a text that is checked as 1 and read as 0 |
| MessageRoundTrip.MessageRead | internal/eip3009/message.go:15-152 | a message is read as the record that it spells, signature included, with typed data or without, by either key for the kind, in decimal or hexadecimal, in any letter case, whatever else it holds |
| MessageRoundTrip.FlatRead | internal/eip3009/message.go:25-59 | without typed data, the printed type, domain, message and signature are read as the record |
| MessageRoundTrip.RequiredFieldsGiven | internal/eip3009/message.go:72-152 | what is read at all has every field that its kind needs, not null, and is unsigned exactly if the signature is missing or null |
| MessageRoundTrip.IntegerRead | internal/eip3009/message.go:233-262 | decimal text, JSON number and hexadecimal bytes are read as their integer, and a time outside 64 bits is refused, never cut |
| MessageRoundTrip.OddDigitsRead | internal/eip3009/message.go:218-231 | a hash with an odd number of digits is read with a zero in front |
| MessageRoundTrip.SignatureLayoutsAgree | internal/eip3009/message.go:154-196 | the printed v/r/s object and the 65-byte text inside it both give every signature back |
| MessageRoundTrip.SignatureTextRead | internal/eip3009/message.go:158-175 | the 65-byte text does so in any letter case, with 0x or without |
| MessageRoundTrip.TypedDataRoundTrip | internal/eip3009/message.go:15-152 | printed typed data read back as the record without its signature |
| MessageRoundTrip.SignedRoundTrip | internal/eip3009/message.go:15-152 | a printed signed authorization reads back as itself, whatever the letter case of its hex texts, also with its typed data removed |
| MessageRoundTrip.ExtractionRoundTrip | internal/eip3009/json.go:44-71 | so does an extraction, for any decimals and symbol, also with its typed data removed |
| MessageRoundTrip.ExtractedAmountsRead | internal/eip3009/json.go:50-58 | the raw and the formatted amount of an extraction both read back as the value; the symbol follows the latter |
| MessageRoundTrip.MetadataRead | internal/eip3009/json.go:60-69 | the metadata are the decimals and symbol as far as they are known |
| MessageRoundTrip.WrapperRead | internal/eip3009/message.go:25-36 | typed data and signature decide what is read; the rest of the wrapper is ignored |
| MessageRoundTrip.KeptUnchanged | internal/eip3009/message.go:264-287 | reading back changes nothing if and only if names are trimmed, numbers present and only the kind's fields set |
| TypedData.PrintedTypeText | internal/eip3009/json.go:73-105 | the encodeType of EIP-712, computed from the printed types, is the type text that Go and the contract hash |
| TypedData.WalletSignsTheSame | internal/eip3009/json.go:11-22 | the digest that EIP-712 defines for the printed typed data is the one that Go signs, if and only if value and chain id fit 256 bits; else there is none |
| EndToEnd.SignsExactly | internal/eip3009/types.go:188-224 | Go signs if and only if the domain has names, a positive chain id and an address, and the record no zero address and no negative value |
| EndToEnd.SameDigest | internal/eip3009/eip712.go:18-97 | the contract recomputes the digest that Go signed, for every kind |
| EndToEnd.AcceptedIffVerified | solidity-eip3009-token/src/EIP3009Token.sol:142-150 | for a complete domain and record the contract takes a signature if and only if Go verifies it, its v is 27 or 28 and its S is in the lower half |
| EndToEnd.NormalizedIsAccepted | internal/eip3009/types.go:59-72 | v of 0 or 1 is refused on chain; with v normalized exactly the lower-half signatures that verify in Go are taken |
| EndToEnd.SignedInGoExecutedOnChain | internal/eip3009/types.go:130-157 | signed in Go, encoded and submitted, a record arrives as its own call and succeeds if and only if the key is the signer's and window, nonce, balance and payee allow it |
| EndToEnd.AcceptedIsVerified | internal/eip3009/eip712.go:99-112 | whatever authorization call the contract accepts, Go validates and verifies, if its times fit 64 bits |
| EndToEnd.AcceptedCalldataVerifies | internal/eip3009/calldata.go:133-197 | of calldata that the contract accepts Go decodes a record that verifies under the contract's domain |
| EndToEnd.BroadcastOfPrinted | internal/eip3009/json.go:24-42 | printing, reading and encoding a record makes the same calldata as encoding it |
| Cancel.CancelDomain | internal/cli/cli.go:666-712 | each part of the domain is the option if given, else the message's, else the node's |
| Cancel.BuildCancelAuthorization | internal/cli/cli.go:614-664 | the cancel is built and signed from the resolved domain, nonce and authorizer, for the authorizer's key only |
| Cancel.CancelKeepsMessage | internal/cli/cli.go:614-722 | without options it has the message's domain, holder and nonce, and is made if and only if the key is the holder's |
| Cancel.CancelAsChosen | internal/cli/cli.go:614-722 | the cancel that options, message and node choose, in this order for each part, is made whenever its domain is complete, and no other |
| Cancel.OptionsDecide | internal/cli/cli.go:666-722 | in every cancel that is made, a given nonce, token, name, version or chain id counts, whatever the message says, and the call spends the given nonce of the key |
| Cancel.OtherKeyRefused | internal/cli/cli.go:640-657 | no cancel is made with a key that is not the authorizer named by option or message |
| Cancel.CancelIsTheKeys | internal/cli/cli.go:614-664 | with any options and message, a cancel that is made names the key's own address, the resolved domain and nonce, and verifies |
| Cancel.SpentIsRefused | solidity-eip3009-token/src/EIP3009Token.sol:136-140 | a spent pair is refused to every call in every continuation |
| Cancel.EmergencyCancel | internal/cli/cli.go:614-722 | the cancel of a message succeeds on chain if and only if the nonce is unspent, after it the message fails in every continuation, and after the message the cancel does |

## Left out

- Network calls, gas, transaction building and the sender check of `internal/eip3009/client.go`: a broadcast is the arrival of calldata from a chosen sender.
- Flags, files, keystores, passwords and prompts of `internal/cli/cli.go`; the prompt's answer and the node's answers are inputs.
- Keccak-256, secp256k1, go-ethereum's reflection code and the OpenZeppelin sources are not part of this model; see the parameters above.
- JSON text syntax, invalid UTF-8 and the quoting of command line arguments: the model starts from the tree.
- A JSON object or array where a name or version is expected: the code takes its source text as the name, the model reports an error.
- Lower-casing of letters outside ASCII in the names of kinds.
- Go panics on a transfer without a value in `EncodeExecuteCalldata`; the model reports an error there.
- Allowances, `transferFrom` and ownership transfer: inherited, and the owner is fixed here.
- The order in which go-ethereum searches methods with equal selectors, which `Calldata.DistinctSelectors` makes irrelevant.
- A chain id that changes after deployment, for which the inherited domain separator would be rebuilt.
- Random nonces, `resolveValidBefore`, the support check and the metadata queries.
- Aliasing of the maps that `ExtractionObject` changes in place: they are values here, and the two message objects are separate in the source.
