/** What the Go code reports in its error values: one constructor for each condition. */
module Faults {
  datatype Fault =
    // amounts
    | AmountRequired | AmountNegative | AmountInvalid | AmountTooPrecise
    | ValueAndAmount | NeitherValueNorAmount | ValueInvalid | DecimalsRequired
    // records
    | NameRequired | VersionRequired | ChainIdRequired | ContractRequired
    | FromRequired | ToRequired | ValueRequired | AuthorizerRequired | UnsupportedKind
    | SignatureRequired | SignedRequired | InvalidV(v: nat) | RecoveryFailed | WrongSigner
    // messages and calldata
    | NotAnObject | NotText | FieldRequired | DomainRequired | MessageRequired
    | BadAddress | BadHex | HexTooLong | BadInteger | Overflow | BadSignatureLength
    | CalldataTooShort | UnknownSelector | BadUint8 | UnsupportedMethod | WrongInputs | NilValue
    // command line
    | PolicyRequired | PromptFailed | NonceRequired | KeyRequired | WrongKey
}
