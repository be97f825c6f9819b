/** The life of one transfer or receive authorization, from before its window to its end. */
module LifeCycle {
  import opened Wrappers
  import opened Bytes
  import opened Token
  import opened Runs

  datatype Phase = NotYetValid | Live | Used | Cancelled | Expired

  /** The phase at a time, read off the ledger. Used and Cancelled are about the nonce, which another authorization of
      the same payer may share. */
  function PhaseOf(s: Ledger, now: nat, p: Permit): Phase {
    if AuthorizationUsed(p.from, p.nonce) in s.log then Used
    else if AuthorizationCanceled(p.from, p.nonce) in s.log then Cancelled
    else if p.validBefore <= now then Expired
    else if now <= p.validAfter then NotYetValid
    else Live
  }

  predicate Ended(phase: Phase) {
    phase == Used || phase == Cancelled || phase == Expired
  }

  /** The only ways on. An expired authorization stays refused; that its nonce can still be spent, by cancelling it or
      by another authorization with a later window, shows in the ledger all the same. */
  predicate MayBecome(before: Phase, after: Phase) {
    match before
    case NotYetValid => true
    case Live => after != NotYetValid
    case Expired => Ended(after)
    case Used => after == Used
    case Cancelled => after == Cancelled
  }

  /** The call presents this authorization, as either kind and with any signature. */
  predicate Presents(tx: Tx, p: Permit) {
    (tx.call.TransferWithAuthorization? || tx.call.ReceiveWithAuthorization?) && tx.call.permit == p
  }

  function TypeOf(tx: Tx): string
    requires tx.call.TransferWithAuthorization? || tx.call.ReceiveWithAuthorization?
  {
    if tx.call.TransferWithAuthorization? then TRANSFER_TYPE else RECEIVE_TYPE
  }

  lemma LogGrows(t: Config, history: seq<Tx>, future: seq<Tx>, e: Event)
    ensures e in Run(t, EMPTY_LEDGER, history).log ==> e in Run(t, EMPTY_LEDGER, history + future).log
  {
    RunConcat(t, EMPTY_LEDGER, history, future);
    LogOfAccepted(t, Run(t, EMPTY_LEDGER, history), future);
  }

  /** However a run goes on, with a clock that does not go back the phase only moves forward. */
  lemma PhasesMoveForward(t: Config, history: seq<Tx>, now: nat, future: seq<Tx>, later: nat, p: Permit)
    requires now <= later
    ensures MayBecome(PhaseOf(Run(t, EMPTY_LEDGER, history), now, p),
                      PhaseOf(Run(t, EMPTY_LEDGER, history + future), later, p))
  {
    LogGrows(t, history, future, AuthorizationUsed(p.from, p.nonce));
    LogGrows(t, history, future, AuthorizationCanceled(p.from, p.nonce));
    UsedOrCanceled(t, history + future, p.from, p.nonce);
  }

  /** An authorization is honoured exactly while it is live, and then it is used up. */
  lemma HonouredExactlyWhileLive(t: Config, history: seq<Tx>, tx: Tx, p: Permit)
    requires Presents(tx, p)
    ensures var s := Run(t, EMPTY_LEDGER, history);
            && (Acceptable(t, s, tx) <==>
                  && PhaseOf(s, tx.timestamp, p) == Live
                  && SignedBy(t, p.from, PermitStructHash(t, TypeHash(t, TypeOf(tx)), p), tx.call.sig)
                  && p.from != ZERO_ADDRESS && p.to != ZERO_ADDRESS && p.value <= Balance(s.balances, p.from)
                  && (tx.call.ReceiveWithAuthorization? ==> tx.caller == p.to))
            && (Acceptable(t, s, tx) ==> PhaseOf(Apply(t, s, tx), tx.timestamp, p) == Used)
  {
    var s := Run(t, EMPTY_LEDGER, history);
    UsedOrCanceled(t, history, p.from, p.nonce);
    AcceptedExactly(t, s, tx);
    if Acceptable(t, s, tx) {
      assert Events(tx)[0] == AuthorizationUsed(p.from, p.nonce);
      assert Apply(t, s, tx).log[|s.log|] == AuthorizationUsed(p.from, p.nonce);
    }
  }

  /** The reason of a refusal tells where an authorization stands. Of several objections the caller is told the first
      of these: the wrong caller, too early, too late, a spent nonce, the signature, the addresses, the funds. */
  lemma RefusalTellsWhy(t: Config, history: seq<Tx>, tx: Tx, p: Permit)
    requires Presents(tx, p)
    ensures var s, now := Run(t, EMPTY_LEDGER, history), tx.timestamp;
            var r, phase := Refusal(t, s, tx), PhaseOf(s, now, p);
            var signed := SignedBy(t, p.from, PermitStructHash(t, TypeHash(t, TypeOf(tx)), p), tx.call.sig);
            if tx.call.ReceiveWithAuthorization? && tx.caller != p.to then r == Some(CallerMustBePayee)
            else if now <= p.validAfter then r == Some(AuthorizationNotYetValid)
            else if p.validBefore <= now then r == Some(AuthorizationExpired)
            else
              && (phase == Used || phase == Cancelled <==> r == Some(AuthorizationAlreadyUsed))
              && (phase == Live && !signed <==> r in {Some(BadSignature), Some(InvalidSignature)})
              && (phase == Live && signed <==>
                    r in {None, Some(InvalidSender), Some(InvalidReceiver), Some(InsufficientBalance)})
  {
    UsedOrCanceled(t, history, p.from, p.nonce);
    RefusalOrder(t, Run(t, EMPTY_LEDGER, history), tx, p);
  }

  lemma RefusalOrder(t: Config, s: Ledger, tx: Tx, p: Permit)
    requires Presents(tx, p)
    ensures Refusal(t, s, tx)
         == if tx.call.ReceiveWithAuthorization? && tx.caller != p.to then Some(CallerMustBePayee)
            else OrElse(UseRefusal(t, s, tx.timestamp, TypeOf(tx), p, tx.call.sig), MoveRefusal(s, p.from, p.to, p.value))
  {
  }

  /** An end is final: after it, no call at no later time gets the authorization through, in any continuation. */
  lemma EndsAreFinal(t: Config, history: seq<Tx>, now: nat, future: seq<Tx>, tx: Tx, p: Permit)
    requires Ended(PhaseOf(Run(t, EMPTY_LEDGER, history), now, p))
    requires Presents(tx, p) && now <= tx.timestamp
    ensures Refusal(t, Run(t, EMPTY_LEDGER, history + future), tx).Some?
  {
    PhasesMoveForward(t, history, now, future, tx.timestamp, p);
    HonouredExactlyWhileLive(t, history + future, tx, p);
    AcceptedExactly(t, Run(t, EMPTY_LEDGER, history + future), tx);
  }

  /** A transaction changes the phase only by spending the nonce: its own authorization does so from Live to Used;
      from any other phase it is a cancellation, or a different authorization with the same payer and nonce. */
  lemma PhaseChanges(t: Config, history: seq<Tx>, tx: Tx, p: Permit)
    ensures var s := Run(t, EMPTY_LEDGER, history);
            var before, after := PhaseOf(s, tx.timestamp, p), PhaseOf(Apply(t, s, tx), tx.timestamp, p);
            before != after ==>
              && Spends(tx) == Some((p.from, p.nonce))
              && after == (if tx.call.CancelAuthorization? then Cancelled else Used)
              && (before != Live ==> !Presents(tx, p))
  {
    var s := Run(t, EMPTY_LEDGER, history);
    UsedOrCanceled(t, history, p.from, p.nonce);
    AddedEntries(t, s, tx, p.from, p.nonce);
    if Presents(tx, p) {
      HonouredExactlyWhileLive(t, history, tx, p);
      AcceptedExactly(t, s, tx);
    }
  }

  /** What an entry about a pair that a transaction adds to the log says of the transaction. */
  lemma AddedEntries(t: Config, s: Ledger, tx: Tx, a: Address, n: Word)
    ensures var r := Apply(t, s, tx);
            && (AuthorizationUsed(a, n) in r.log && AuthorizationUsed(a, n) !in s.log ==>
                  Spends(tx) == Some((a, n)) && !tx.call.CancelAuthorization? && (a, n) !in s.spent)
            && (AuthorizationCanceled(a, n) in r.log && AuthorizationCanceled(a, n) !in s.log ==>
                  Spends(tx) == Some((a, n)) && tx.call.CancelAuthorization? && (a, n) !in s.spent)
            && (forall e :: e in s.log ==> e in r.log)
  {
    AcceptedExactly(t, s, tx);
  }
}
