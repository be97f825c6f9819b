/** Whole runs of the contract: any transactions from any callers, in any order, with replays and duplicates.
    Everything here holds in every state that a run can reach. */
module Runs {
  import opened Wrappers
  import opened Bytes
  import opened Token

  function Run(t: Config, s: Ledger, txs: seq<Tx>): Ledger {
    if txs == [] then s else Apply(t, Run(t, s, txs[..|txs| - 1]), txs[|txs| - 1])
  }

  /** The transactions of a run that do not revert. */
  function Accepted(t: Config, s: Ledger, txs: seq<Tx>): seq<Tx> {
    if txs == [] then []
    else
      var before, tx := Accepted(t, s, txs[..|txs| - 1]), txs[|txs| - 1];
      if Refusal(t, Run(t, s, txs[..|txs| - 1]), tx).None? then before + [tx] else before
  }

  lemma {:induction false} RunConcat(t: Config, s: Ledger, xs: seq<Tx>, ys: seq<Tx>)
    ensures Run(t, s, xs + ys) == Run(t, Run(t, s, xs), ys)
  {
    if ys == [] {
      assert xs + ys == xs;
    } else {
      var init := ys[..|ys| - 1];
      assert (xs + ys)[..|xs + ys| - 1] == xs + init;
      RunConcat(t, s, xs, init);
    }
  }

  // ----- Acceptance -----

  /** A permit of this type is usable now: inside its window, unspent, signed by its payer, and funded. */
  predicate Usable(t: Config, s: Ledger, now: uint256, typeText: string, p: Permit, sig: Signature) {
    && p.validAfter < now < p.validBefore
    && (p.from, p.nonce) !in s.spent
    && SignedBy(t, p.from, PermitStructHash(t, TypeHash(t, typeText), p), sig)
    && p.from != ZERO_ADDRESS && p.to != ZERO_ADDRESS
    && p.value <= Balance(s.balances, p.from)
  }

  /** What a transaction must meet, in no particular order. */
  predicate Acceptable(t: Config, s: Ledger, tx: Tx) {
    match tx.call
    case TransferWithAuthorization(p, sig) => Usable(t, s, tx.timestamp, TRANSFER_TYPE, p, sig)
    case ReceiveWithAuthorization(p, sig) => tx.caller == p.to && Usable(t, s, tx.timestamp, RECEIVE_TYPE, p, sig)
    case CancelAuthorization(a, n, sig) => (a, n) !in s.spent && SignedBy(t, a, CancelStructHash(t, a, n), sig)
    case Mint(to, value) => tx.caller == t.owner && to != ZERO_ADDRESS && s.totalSupply + value < Uint256Limit()
    case PlainTransfer(to, value) =>
      tx.caller != ZERO_ADDRESS && to != ZERO_ADDRESS && value <= Balance(s.balances, tx.caller)
  }

  lemma PermitAcceptedExactly(t: Config, s: Ledger, now: uint256, typeText: string, p: Permit, sig: Signature)
    ensures OrElse(UseRefusal(t, s, now, typeText, p, sig), MoveRefusal(s, p.from, p.to, p.value)).None?
            <==> Usable(t, s, now, typeText, p, sig)
  {
  }

  /** The checks of the code, in their order, refuse exactly what is not acceptable. */
  lemma AcceptedExactly(t: Config, s: Ledger, tx: Tx)
    ensures Refusal(t, s, tx).None? <==> Acceptable(t, s, tx)
  {
    match tx.call {
      case TransferWithAuthorization(p, sig) =>
        PermitAcceptedExactly(t, s, tx.timestamp, TRANSFER_TYPE, p, sig);
      case ReceiveWithAuthorization(p, sig) =>
        PermitAcceptedExactly(t, s, tx.timestamp, RECEIVE_TYPE, p, sig);
      case _ =>
    }
  }

  // ----- Accounting -----

  /** The ways in which an entry of the log is counted. */
  datatype Flow = Received(a: Address) | Sent(a: Address) | Issued

  function Share(flow: Flow, e: Event): nat {
    match e
    case Transferred(from, to, value) =>
      (match flow
       case Received(a) => if to == a then value else 0
       case Sent(a) => if from == a then value else 0
       case Issued => if from == ZERO_ADDRESS then value else 0)
    case _ => 0
  }

  /** The sum over a log. */
  function Sum(flow: Flow, log: seq<Event>): nat {
    if log == [] then 0 else Sum(flow, log[..|log| - 1]) + Share(flow, log[|log| - 1])
  }

  lemma {:induction false} SumConcat(flow: Flow, xs: seq<Event>, ys: seq<Event>)
    ensures Sum(flow, xs + ys) == Sum(flow, xs) + Sum(flow, ys)
  {
    if ys == [] {
      assert xs + ys == xs;
    } else {
      assert (xs + ys)[..|xs + ys| - 1] == xs + ys[..|ys| - 1];
      SumConcat(flow, xs, ys[..|ys| - 1]);
    }
  }

  lemma SumOfOne(flow: Flow, e: Event)
    ensures Sum(flow, [e]) == Share(flow, e)
  {
    assert [e][..|[e]| - 1] == [];
  }

  /** A call pays at most once, by the last of its entries. */
  lemma SumOfEvents(flow: Flow, tx: Tx)
    ensures Sum(flow, Events(tx)) == Share(flow, Events(tx)[|Events(tx)| - 1])
  {
    var log := Events(tx);
    SumOfOne(flow, log[0]);
    if |log| == 2 {
      SumOfOne(flow, log[1]);
      SumConcat(flow, [log[0]], [log[1]]);
      assert log == [log[0]] + [log[1]];
    } else {
      assert log == [log[0]];
    }
  }

  lemma {:induction false} RunSolvent(t: Config, s: Ledger, txs: seq<Tx>)
    requires Solvent(s)
    ensures Solvent(Run(t, s, txs))
  {
    if txs != [] {
      RunSolvent(t, s, txs[..|txs| - 1]);
      ApplySolvent(t, Run(t, s, txs[..|txs| - 1]), txs[|txs| - 1]);
    }
  }

  lemma EmptySolvent()
    ensures Solvent(EMPTY_LEDGER)
  {
    Uint256Facts();
  }

  /** One movement: what the payee gains and the payer loses, also when they are the same. */
  lemma MovedBalance(balances: map<Address, nat>, from: Address, to: Address, value: nat, a: Address)
    requires a != ZERO_ADDRESS
    requires from != ZERO_ADDRESS ==> value <= Balance(balances, from)
    ensures Balance(Moved(balances, from, to, value), a) + (if from == a then value else 0)
         == Balance(balances, a) + (if to == a then value else 0)
  {
  }

  /** From one ledger to the next, this payment and no other was made and logged. */
  ghost predicate Paid(s: Ledger, r: Ledger, from: Address, to: Address, value: nat) {
    && (forall a | a != ZERO_ADDRESS ::
          Balance(r.balances, a) + (if from == a then value else 0)
          == Balance(s.balances, a) + (if to == a then value else 0))
    && r.totalSupply == s.totalSupply + (if from == ZERO_ADDRESS then value else 0)
    && |r.log| > |s.log| && r.log[|r.log| - 1] == Transferred(from, to, value)
  }

  lemma MovedPays(s: Ledger, r: Ledger, from: Address, to: Address, value: nat)
    requires from != ZERO_ADDRESS ==> value <= Balance(s.balances, from)
    requires r.balances == Moved(s.balances, from, to, value)
    requires r.totalSupply == s.totalSupply + (if from == ZERO_ADDRESS then value else 0)
    requires |r.log| > |s.log| && r.log[|r.log| - 1] == Transferred(from, to, value)
    ensures Paid(s, r, from, to, value)
  {
    forall a: Address | a != ZERO_ADDRESS
      ensures Balance(r.balances, a) + (if from == a then value else 0)
           == Balance(s.balances, a) + (if to == a then value else 0)
    {
      MovedBalance(s.balances, from, to, value, a);
    }
  }

  ghost predicate Used(s: Ledger, r: Ledger, p: Permit) {
    && (p.from, p.nonce) !in s.spent && r.spent == s.spent + {(p.from, p.nonce)}
    && Paid(s, r, p.from, p.to, p.value)
    && r.log == s.log + [AuthorizationUsed(p.from, p.nonce), Transferred(p.from, p.to, p.value)]
  }

  lemma PermitUsed(t: Config, s: Ledger, tx: Tx, p: Permit)
    requires tx.call.TransferWithAuthorization? || tx.call.ReceiveWithAuthorization?
    requires p == tx.call.permit && Refusal(t, s, tx).None?
    ensures Used(s, Apply(t, s, tx), p)
  {
    var r := Apply(t, s, tx);
    AcceptedExactly(t, s, tx);
    assert r.log == s.log + [AuthorizationUsed(p.from, p.nonce), Transferred(p.from, p.to, p.value)];
    MovedPays(s, r, p.from, p.to, p.value);
  }

  /** One call: it changes nothing, or it has the effect that its arguments name, all of it and nothing else: a permit
      spends its own unspent pair and pays its own value, a cancellation only spends, a mint only issues, and a plain
      transfer only pays. */
  lemma Atomicity(t: Config, s: Ledger, tx: Tx)
    ensures var r := Apply(t, s, tx);
            if Refusal(t, s, tx).Some? then r == s else
            match tx.call
            case TransferWithAuthorization(p, _) => Used(s, r, p)
            case ReceiveWithAuthorization(p, _) => Used(s, r, p)
            case CancelAuthorization(a, n, _) =>
              (a, n) !in s.spent && r == s.(spent := s.spent + {(a, n)}, log := s.log + [AuthorizationCanceled(a, n)])
            case Mint(to, value) =>
              Paid(s, r, ZERO_ADDRESS, to, value) && r.spent == s.spent && |r.log| == |s.log| + 1 && s.log <= r.log
            case PlainTransfer(to, value) =>
              Paid(s, r, tx.caller, to, value) && r.spent == s.spent && |r.log| == |s.log| + 1 && s.log <= r.log
  {
    var r := Apply(t, s, tx);
    if Refusal(t, s, tx).None? {
      AcceptedExactly(t, s, tx);
      match tx.call {
        case TransferWithAuthorization(p, _) => PermitUsed(t, s, tx, p);
        case ReceiveWithAuthorization(p, _) => PermitUsed(t, s, tx, p);
        case CancelAuthorization(_, _, _) =>
        case Mint(to, value) => MovedPays(s, r, ZERO_ADDRESS, to, value);
        case PlainTransfer(to, value) => MovedPays(s, r, tx.caller, to, value);
      }
    }
  }

  /** What the last entry of a call says was paid. */
  lemma LastEntryPaid(t: Config, s: Ledger, tx: Tx)
    requires Refusal(t, s, tx).None? && !tx.call.CancelAuthorization?
    ensures var e := Events(tx)[|Events(tx)| - 1];
            e.Transferred? && Paid(s, Apply(t, s, tx), e.from, e.to, e.value)
  {
    Atomicity(t, s, tx);
  }

  lemma ApplyAccounting(t: Config, s: Ledger, tx: Tx, a: Address)
    requires Refusal(t, s, tx).None?
    ensures var r := Apply(t, s, tx);
            && (a != ZERO_ADDRESS ==>
                  Balance(r.balances, a) + Sum(Sent(a), Events(tx)) == Balance(s.balances, a) + Sum(Received(a), Events(tx)))
            && r.totalSupply == s.totalSupply + Sum(Issued, Events(tx))
  {
    if !tx.call.CancelAuthorization? {
      LastEntryPaid(t, s, tx);
    }
    SumOfEvents(Sent(a), tx);
    SumOfEvents(Received(a), tx);
    SumOfEvents(Issued, tx);
  }

  /** The sum over all that some calls log. */
  function Tally(flow: Flow, txs: seq<Tx>): nat {
    if txs == [] then 0 else Tally(flow, txs[..|txs| - 1]) + Sum(flow, Events(txs[|txs| - 1]))
  }

  lemma {:induction false} TallyOfLog(flow: Flow, txs: seq<Tx>)
    ensures Tally(flow, txs) == Sum(flow, AllEvents(txs))
  {
    if txs != [] {
      TallyOfLog(flow, txs[..|txs| - 1]);
      SumConcat(flow, AllEvents(txs[..|txs| - 1]), Events(txs[|txs| - 1]));
    }
  }

  /** From any state on, what is logged accounts for every balance and for the supply. */
  lemma {:induction false} RunAccounting(t: Config, s: Ledger, txs: seq<Tx>, a: Address)
    ensures var r, acc := Run(t, s, txs), Accepted(t, s, txs);
            && (a != ZERO_ADDRESS ==>
                  Balance(r.balances, a) + Tally(Sent(a), acc) == Balance(s.balances, a) + Tally(Received(a), acc))
            && r.totalSupply == s.totalSupply + Tally(Issued, acc)
  {
    if txs != [] {
      var init, tx := txs[..|txs| - 1], txs[|txs| - 1];
      RunAccounting(t, s, init, a);
      var acc := Accepted(t, s, init);
      if Refusal(t, Run(t, s, init), tx).None? {
        assert (acc + [tx])[..|acc|] == acc;
        ApplyAccounting(t, Run(t, s, init), tx, a);
      }
    }
  }

  lemma LogAccounting(t: Config, txs: seq<Tx>, a: Address)
    requires a != ZERO_ADDRESS
    ensures var r := Run(t, EMPTY_LEDGER, txs);
            && r.totalSupply == Sum(Issued, r.log)
            && Balance(r.balances, a) == Sum(Received(a), r.log) - Sum(Sent(a), r.log)
  {
    var acc := Accepted(t, EMPTY_LEDGER, txs);
    RunAccounting(t, EMPTY_LEDGER, txs, a);
    LogOfAccepted(t, EMPTY_LEDGER, txs);
    assert EMPTY_LEDGER.log + AllEvents(acc) == AllEvents(acc);
    TallyOfLog(Received(a), acc);
    TallyOfLog(Sent(a), acc);
    TallyOfLog(Issued, acc);
  }

  /** In every reachable state the log alone tells every balance and the supply: a holder has the transfers to it less
      those from it, and the supply is what came from the zero address. The balances add up to the supply, and each of
      them fits 256 bits. */
  lemma WholeRunAccounting(t: Config, txs: seq<Tx>, a: Address)
    requires a != ZERO_ADDRESS
    ensures var r := Run(t, EMPTY_LEDGER, txs);
            && Total(r.balances) == r.totalSupply == Sum(Issued, r.log)
            && Balance(r.balances, a) == Sum(Received(a), r.log) - Sum(Sent(a), r.log)
            && Balance(r.balances, a) <= r.totalSupply < Uint256Limit()
            && Balance(r.balances, ZERO_ADDRESS) == 0
  {
    EmptySolvent();
    RunSolvent(t, EMPTY_LEDGER, txs);
    LogAccounting(t, txs, a);
    TotalUpdate(Run(t, EMPTY_LEDGER, txs).balances, a, 0);
  }

  // ----- The log -----

  function AllEvents(txs: seq<Tx>): seq<Event> {
    if txs == [] then [] else AllEvents(txs[..|txs| - 1]) + Events(txs[|txs| - 1])
  }

  /** The log is what the accepted calls emitted, in their order, and nothing of the reverted ones. */
  lemma {:induction false} LogOfAccepted(t: Config, s: Ledger, txs: seq<Tx>)
    ensures Run(t, s, txs).log == s.log + AllEvents(Accepted(t, s, txs))
  {
    if txs != [] {
      var init, tx := txs[..|txs| - 1], txs[|txs| - 1];
      LogOfAccepted(t, s, init);
      var before, acc := Run(t, s, init), Accepted(t, s, init);
      if Refusal(t, before, tx).None? {
        assert (acc + [tx])[..|acc|] == acc;
        assert s.log + AllEvents(acc) + Events(tx) == s.log + (AllEvents(acc) + Events(tx));
      }
    } else {
      assert s.log + [] == s.log;
    }
  }

  /** The entry tells that the pair was spent. */
  predicate Tells(e: Event, a: Address, n: Word) {
    e == AuthorizationUsed(a, n) || e == AuthorizationCanceled(a, n)
  }

  function Count(log: seq<Event>, a: Address, n: Word): nat {
    if log == [] then 0 else Count(log[..|log| - 1], a, n) + if Tells(log[|log| - 1], a, n) then 1 else 0
  }

  lemma {:induction false} CountConcat(xs: seq<Event>, ys: seq<Event>, a: Address, n: Word)
    ensures Count(xs + ys, a, n) == Count(xs, a, n) + Count(ys, a, n)
  {
    if ys == [] {
      assert xs + ys == xs;
    } else {
      assert (xs + ys)[..|xs + ys| - 1] == xs + ys[..|ys| - 1];
      CountConcat(xs, ys[..|ys| - 1], a, n);
    }
  }

  lemma {:induction false} CountZero(log: seq<Event>, a: Address, n: Word)
    ensures Count(log, a, n) == 0 <==> AuthorizationUsed(a, n) !in log && AuthorizationCanceled(a, n) !in log
  {
    if log != [] {
      CountZero(log[..|log| - 1], a, n);
      assert log == log[..|log| - 1] + [log[|log| - 1]];
    }
  }

  lemma CountOfEvents(tx: Tx, a: Address, n: Word)
    ensures Count(Events(tx), a, n) == if Spends(tx) == Some((a, n)) then 1 else 0
  {
    var log := Events(tx);
    CountOne(log[0], a, n);
    if |log| == 2 {
      CountOne(log[1], a, n);
      CountConcat([log[0]], [log[1]], a, n);
      assert log == [log[0]] + [log[1]];
    } else {
      assert log == [log[0]];
    }
  }

  lemma CountOne(e: Event, a: Address, n: Word)
    ensures Count([e], a, n) == if Tells(e, a, n) then 1 else 0
  {
    assert [e][..|[e]| - 1] == [];
  }

  /** One transaction adds at most one entry about a pair, and then it spends it. */
  lemma OneEntryPerSpending(t: Config, s: Ledger, tx: Tx, a: Address, n: Word)
    ensures var r, spends := Apply(t, s, tx), Refusal(t, s, tx).None? && Spends(tx) == Some((a, n));
            && Count(r.log, a, n) == Count(s.log, a, n) + (if spends then 1 else 0)
            && ((a, n) in r.spent <==> (a, n) in s.spent || spends)
            && (spends ==> (a, n) !in s.spent)
  {
    if Refusal(t, s, tx).None? {
      AcceptedExactly(t, s, tx);
      CountConcat(s.log, Events(tx), a, n);
      CountOfEvents(tx, a, n);
    }
  }

  /** In every reachable state a pair is spent exactly if the log tells so exactly once: used once or cancelled once,
      never both, never twice, whatever was replayed. */
  lemma {:induction false} AtMostOneEffect(t: Config, txs: seq<Tx>, a: Address, n: Word)
    ensures var r := Run(t, EMPTY_LEDGER, txs);
            Count(r.log, a, n) == if (a, n) in r.spent then 1 else 0
  {
    if txs != [] {
      AtMostOneEffect(t, txs[..|txs| - 1], a, n);
      OneEntryPerSpending(t, Run(t, EMPTY_LEDGER, txs[..|txs| - 1]), txs[|txs| - 1], a, n);
    }
  }

  /** Never both used and cancelled. */
  lemma UsedOrCanceled(t: Config, txs: seq<Tx>, a: Address, n: Word)
    ensures var r := Run(t, EMPTY_LEDGER, txs);
            && ((a, n) in r.spent <==> AuthorizationUsed(a, n) in r.log || AuthorizationCanceled(a, n) in r.log)
            && !(AuthorizationUsed(a, n) in r.log && AuthorizationCanceled(a, n) in r.log)
  {
    var r := Run(t, EMPTY_LEDGER, txs);
    AtMostOneEffect(t, txs, a, n);
    CountZero(r.log, a, n);
    if AuthorizationUsed(a, n) in r.log && AuthorizationCanceled(a, n) in r.log {
      CountBoth(r.log, a, n);
    }
  }

  lemma {:induction false} CountBoth(log: seq<Event>, a: Address, n: Word)
    requires AuthorizationUsed(a, n) in log && AuthorizationCanceled(a, n) in log
    ensures Count(log, a, n) >= 2
  {
    var init, last := log[..|log| - 1], log[|log| - 1];
    assert log == init + [last];
    if Tells(last, a, n) {
      CountZero(init, a, n);
    } else {
      CountBoth(init, a, n);
    }
  }

  /** Although the code marks the nonce before it moves the tokens, no state of any run has the one without the other:
      right after each use, the log has the movement of the same payer's tokens. */
  lemma {:induction false} NoUseWithoutTransfer(t: Config, txs: seq<Tx>, i: nat)
    requires i < |Run(t, EMPTY_LEDGER, txs).log| && Run(t, EMPTY_LEDGER, txs).log[i].AuthorizationUsed?
    ensures var log := Run(t, EMPTY_LEDGER, txs).log;
            i + 1 < |log| && log[i + 1].Transferred? && log[i + 1].from == log[i].authorizer
  {
    var init, tx := txs[..|txs| - 1], txs[|txs| - 1];
    var before := Run(t, EMPTY_LEDGER, init);
    if i < |before.log| {
      NoUseWithoutTransfer(t, init, i);
    }
  }

  // ----- Provenance -----

  /** The i-th transaction of the run spends the pair, by a call that is acceptable in the state it finds. */
  predicate SpentBy(t: Config, s: Ledger, txs: seq<Tx>, i: nat, a: Address, n: Word)
    requires i < |txs|
  {
    Spends(txs[i]) == Some((a, n)) && Acceptable(t, Run(t, s, txs[..i]), txs[i])
  }

  /** Each use in the log comes from a transfer or receive call of the payer's own: its signature is over these very
      fields and this kind, the call came inside the window and, for receive, from the payee. */
  predicate UsedBy(t: Config, s: Ledger, txs: seq<Tx>, i: nat, a: Address, n: Word)
    requires i < |txs|
  {
    !txs[i].call.CancelAuthorization? && SpentBy(t, s, txs, i, a, n)
  }

  /** Each cancellation comes with the authorizer's signature over the pair. */
  predicate CanceledBy(t: Config, s: Ledger, txs: seq<Tx>, i: nat, a: Address, n: Word)
    requires i < |txs|
  {
    txs[i].call.CancelAuthorization? && SpentBy(t, s, txs, i, a, n)
  }

  /** The log of a run has exactly the uses that its transactions were entitled to. */
  lemma {:induction false} UseProvenance(t: Config, txs: seq<Tx>, a: Address, n: Word)
    ensures AuthorizationUsed(a, n) in Run(t, EMPTY_LEDGER, txs).log
            <==> exists i: nat :: i < |txs| && UsedBy(t, EMPTY_LEDGER, txs, i, a, n)
  {
    if txs != [] {
      var k: nat := |txs| - 1;
      UseProvenance(t, txs[..k], a, n);
      PrefixSpends(t, EMPTY_LEDGER, txs, a, n);
      LastEvents(t, EMPTY_LEDGER, txs, a, n);
      if i: nat :| i < k && UsedBy(t, EMPTY_LEDGER, txs[..k], i, a, n) {
        assert UsedBy(t, EMPTY_LEDGER, txs, i, a, n);
      } else if i: nat :| i < |txs| && UsedBy(t, EMPTY_LEDGER, txs, i, a, n) {
        assert i == k;
      }
    }
  }

  /** And exactly the cancellations. */
  lemma {:induction false} CancelProvenance(t: Config, txs: seq<Tx>, a: Address, n: Word)
    ensures AuthorizationCanceled(a, n) in Run(t, EMPTY_LEDGER, txs).log
            <==> exists i: nat :: i < |txs| && CanceledBy(t, EMPTY_LEDGER, txs, i, a, n)
  {
    if txs != [] {
      var k: nat := |txs| - 1;
      CancelProvenance(t, txs[..k], a, n);
      PrefixSpends(t, EMPTY_LEDGER, txs, a, n);
      LastEvents(t, EMPTY_LEDGER, txs, a, n);
      if i: nat :| i < k && CanceledBy(t, EMPTY_LEDGER, txs[..k], i, a, n) {
        assert CanceledBy(t, EMPTY_LEDGER, txs, i, a, n);
      } else if i: nat :| i < |txs| && CanceledBy(t, EMPTY_LEDGER, txs, i, a, n) {
        assert i == k;
      }
    }
  }

  lemma PrefixSpends(t: Config, s: Ledger, txs: seq<Tx>, a: Address, n: Word)
    requires txs != []
    ensures var init := txs[..|txs| - 1];
            forall i: nat :: i < |init| ==>
              && UsedBy(t, s, init, i, a, n) == UsedBy(t, s, txs, i, a, n)
              && CanceledBy(t, s, init, i, a, n) == CanceledBy(t, s, txs, i, a, n)
  {
    var init := txs[..|txs| - 1];
    forall i: nat | i < |init|
      ensures UsedBy(t, s, init, i, a, n) == UsedBy(t, s, txs, i, a, n)
      ensures CanceledBy(t, s, init, i, a, n) == CanceledBy(t, s, txs, i, a, n)
    {
      assert init[..i] == txs[..i];
    }
  }

  /** What the last transaction adds to the log. */
  lemma LastEvents(t: Config, s: Ledger, txs: seq<Tx>, a: Address, n: Word)
    requires txs != []
    ensures var k: nat := |txs| - 1;
            var before, after := Run(t, s, txs[..k]).log, Run(t, s, txs).log;
            && (AuthorizationUsed(a, n) in after <==> AuthorizationUsed(a, n) in before || UsedBy(t, s, txs, k, a, n))
            && (AuthorizationCanceled(a, n) in after <==>
                  AuthorizationCanceled(a, n) in before || CanceledBy(t, s, txs, k, a, n))
  {
    var k: nat := |txs| - 1;
    var before, tx := Run(t, s, txs[..k]), txs[k];
    AcceptedExactly(t, before, tx);
    assert AuthorizationUsed(a, n) in Events(tx) <==> Spends(tx) == Some((a, n)) && !tx.call.CancelAuthorization?;
    assert AuthorizationCanceled(a, n) in Events(tx) <==> Spends(tx) == Some((a, n)) && tx.call.CancelAuthorization?;
  }

  // ----- Order independence -----

  lemma LastTally(flow: Flow, txs: seq<Tx>, last: Tx)
    ensures Tally(flow, txs + [last]) == Tally(flow, txs) + Sum(flow, Events(last))
  {
    assert (txs + [last])[..|txs|] == txs;
  }

  lemma {:induction false} TallySplit(flow: Flow, txs: seq<Tx>, i: nat)
    requires i < |txs|
    ensures Tally(flow, txs) == Tally(flow, txs[..i] + txs[i + 1..]) + Sum(flow, Events(txs[i]))
  {
    var init, last := txs[..|txs| - 1], txs[|txs| - 1];
    if i == |init| {
      assert txs[..i] + txs[i + 1..] == init;
    } else {
      var rest := init[..i] + init[i + 1..];
      TallySplit(flow, init, i);
      LastTally(flow, init, last);
      LastTally(flow, rest, last);
      LastStays(txs, i);
    }
  }

  lemma LastStays(txs: seq<Tx>, i: nat)
    requires i + 1 < |txs|
    ensures var init, last := txs[..|txs| - 1], txs[|txs| - 1];
            txs == init + [last] && txs[..i] + txs[i + 1..] == init[..i] + init[i + 1..] + [last]
  {
  }

  lemma WithoutOne(xs: seq<Tx>, ys: seq<Tx>, i: nat)
    requires xs != [] && multiset(xs) == multiset(ys)
    requires i < |ys| && ys[i] == xs[|xs| - 1]
    ensures multiset(xs[..|xs| - 1]) == multiset(ys[..i] + ys[i + 1..])
  {
    var last := multiset{xs[|xs| - 1]};
    assert xs == xs[..|xs| - 1] + [xs[|xs| - 1]];
    assert ys == ys[..i] + [ys[i]] + ys[i + 1..];
    assert multiset(xs[..|xs| - 1]) == multiset(xs) - last;
    assert multiset(ys[..i] + ys[i + 1..]) == multiset(ys) - last;
  }

  /** A sum over what calls log does not depend on their order. */
  lemma {:induction false} TallyPermuted(flow: Flow, xs: seq<Tx>, ys: seq<Tx>)
    requires multiset(xs) == multiset(ys)
    ensures Tally(flow, xs) == Tally(flow, ys)
    decreases |xs|
  {
    if xs == [] {
      assert |multiset(ys)| == |ys| == 0;
    } else {
      assert xs[|xs| - 1] in multiset(ys);
      var i: nat :| i < |ys| && ys[i] == xs[|xs| - 1];
      WithoutOne(xs, ys, i);
      TallySplit(flow, ys, i);
      TallyPermuted(flow, xs[..|xs| - 1], ys[..i] + ys[i + 1..]);
    }
  }

  lemma {:induction false} SpentByAccepted(t: Config, s: Ledger, txs: seq<Tx>, pair: (Address, Word))
    ensures pair in Run(t, s, txs).spent <==>
              pair in s.spent || exists tx :: tx in Accepted(t, s, txs) && Spends(tx) == Some(pair)
  {
    if txs != [] {
      var init, last := txs[..|txs| - 1], txs[|txs| - 1];
      SpentByAccepted(t, s, init, pair);
      if Refusal(t, Run(t, s, init), last).None? {
        var acc := Accepted(t, s, init);
        assert forall tx :: tx in acc + [last] <==> tx in acc || tx == last;
      }
    }
  }

  /** Two histories that accept the same calls in different orders, with whatever reverted in between, agree on every
      balance, on the supply and on every nonce. */
  lemma OrderIndependence(t: Config, s: Ledger, xs: seq<Tx>, ys: seq<Tx>)
    requires multiset(Accepted(t, s, xs)) == multiset(Accepted(t, s, ys))
    ensures forall a | a != ZERO_ADDRESS ::
              Balance(Run(t, s, xs).balances, a) == Balance(Run(t, s, ys).balances, a)
    ensures Run(t, s, xs).totalSupply == Run(t, s, ys).totalSupply
    ensures Run(t, s, xs).spent == Run(t, s, ys).spent
  {
    var ax, ay := Accepted(t, s, xs), Accepted(t, s, ys);
    forall a: Address | a != ZERO_ADDRESS
      ensures Balance(Run(t, s, xs).balances, a) == Balance(Run(t, s, ys).balances, a)
    {
      RunAccounting(t, s, xs, a);
      RunAccounting(t, s, ys, a);
      TallyPermuted(Received(a), ax, ay);
      TallyPermuted(Sent(a), ax, ay);
    }
    RunAccounting(t, s, xs, ZERO_ADDRESS);
    RunAccounting(t, s, ys, ZERO_ADDRESS);
    TallyPermuted(Issued, ax, ay);
    forall pair
      ensures pair in Run(t, s, xs).spent <==> pair in Run(t, s, ys).spent
    {
      SpentByAccepted(t, s, xs, pair);
      SpentByAccepted(t, s, ys, pair);
      assert forall tx :: tx in ax <==> tx in multiset(ax);
      assert forall tx :: tx in ay <==> tx in multiset(ay);
    }
  }

  /** No transaction of the run reverts. */
  predicate Succeeds(t: Config, s: Ledger, txs: seq<Tx>) {
    txs == [] || (Succeeds(t, s, txs[..|txs| - 1]) && Acceptable(t, Run(t, s, txs[..|txs| - 1]), txs[|txs| - 1]))
  }

  lemma {:induction false} AllAccepted(t: Config, s: Ledger, txs: seq<Tx>)
    requires Succeeds(t, s, txs)
    ensures Accepted(t, s, txs) == txs
  {
    if txs != [] {
      var init, tx := txs[..|txs| - 1], txs[|txs| - 1];
      AllAccepted(t, s, init);
      AcceptedExactly(t, Run(t, s, init), tx);
      assert Accepted(t, s, txs) == init + [tx];
    }
  }

  /** In particular, two successful runs of the same calls in different orders. */
  lemma PermutedRuns(t: Config, xs: seq<Tx>, ys: seq<Tx>)
    requires multiset(xs) == multiset(ys)
    requires Succeeds(t, EMPTY_LEDGER, xs) && Succeeds(t, EMPTY_LEDGER, ys)
    ensures var r, q := Run(t, EMPTY_LEDGER, xs), Run(t, EMPTY_LEDGER, ys);
            && (forall a :: Balance(r.balances, a) == Balance(q.balances, a))
            && r.totalSupply == q.totalSupply && r.spent == q.spent
  {
    AllAccepted(t, EMPTY_LEDGER, xs);
    AllAccepted(t, EMPTY_LEDGER, ys);
    OrderIndependence(t, EMPTY_LEDGER, xs, ys);
    EmptySolvent();
    RunSolvent(t, EMPTY_LEDGER, xs);
    RunSolvent(t, EMPTY_LEDGER, ys);
  }
}
