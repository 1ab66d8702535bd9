/** Every interleaving of the settlement operations: balance, no overdrawn account, one settlement of each kind. */
module SettlementRuns {
  import opened Accounts
  import opened RewardLedger
  import opened Prelude
  import opened Settlement
  import opened Disputes
  import opened Expiry
  import opened ExpiryProofs
  import S = Split

  datatype Action =
    | Fund(funder: string, quote: Quote)
    | FundExpiring(funder: string, amount: int, cur: string, key: string, expires: int)
    | Pay(receipt: Receipt, env: Envelope, ws: seq<real>)
    | PayIntelligence(sha: string, legs: Legs, parties: Parties, pass: bool, ws: seq<real>)
    | Sweep(now: int)
    | Open(disputer: string, sha: string, bond: int, cur: string)
    | Rule(doc: Resolution, votes: nat, m: int, case_: Case)
    | Release(sha: string, cur: string)

  /** What the methods of the same operations ensure of the ledger. */
  ghost predicate Step(before: seq<Record>, action: Action, after: seq<Record>) {
    match action
    case Fund(funder, q) => after == before + [FundRecord(funder, q)]
    case FundExpiring(funder, amount, cur, key, expires) => after == before + [FundExpiringRecord(funder, amount, cur, key, expires)]
    case Pay(receipt, env, ws) => |ws| == 2 && exists outcome :: SettleStep(before, receipt, env, ws, outcome, after)
    case PayIntelligence(sha, legs, p, pass, ws) => |ws| == 2 && exists outcome :: IntelStep(before, sha, legs, p, pass, ws, outcome, after)
    case Sweep(now) => exists refunded :: SweepStep(before, now, refunded, after)
    case Open(disputer, sha, bond, cur) => after == before + [OpenRecord(disputer, sha, bond, cur)]
    case Rule(doc, votes, m, c) => exists reputation, reputation', outcome ::
      ResolveStep(before, doc, votes, m, c, reputation, outcome, after, reputation')
    case Release(sha, cur) => after == before + [ReleaseRecord(before, sha, cur)]
  }

  /**
    What the balances must allow, because no operation checks it: a negative amount put in must not overdraw the account
    it goes to, nor a negative held part the hold account; and no two keys that a sweep finds due share an escrow.
   */
  ghost predicate Admissible(before: seq<Record>, action: Action) {
    match action
    case Fund(_, q) => Balance(before, EscrowFor(q.sha), q.currency) + q.amount >= 0
    case FundExpiring(_, amount, cur, key, _) => Balance(before, EscrowFor(key), cur) + amount >= 0
    case Pay(receipt, env, ws) =>
      SettleRefusal(before, receipt, env).None? && |ws| == 2 && Payable(env.quote, ws) ==> HoldAllows(before, env.quote, ws)
    case Open(_, sha, bond, cur) => Balance(before, BondFor(sha), cur) + bond >= 0
    case Sweep(now) => OneDuePerAccount(before, now)
    case _ => true
  }

  ghost predicate HoldAllows(before: seq<Record>, q: Quote, ws: seq<real>)
    requires |ws| == 2 && !S.Refused(ws)
  {
    S.TotalPositive(ws);
    forall held, kept | S.IsSplit(LastShare(q.breakdown, "payee"), ws, [held, kept]) ::
      Balance(before, HoldFor(q.sha), q.currency) + held >= 0
  }

  // ---- the invariant ---------------------------------------------------------------------------

  ghost predicate NoneOverdrawn(entries: seq<Record>) {
    forall a: Account, cur | !a.Party? :: Balance(entries, a, cur) >= 0
  }

  /** The memos that close a quote or a key. */
  predicate Closing(m: Memo) {
    m.Settled? || m.IntelSettled? || m.Refunded?
  }

  ghost predicate ClosedOnce(entries: seq<Record>) {
    forall i, j | 0 <= i < j < |entries| && Closing(entries[i].memo) :: entries[i].memo != entries[j].memo
  }

  ghost predicate Inv(entries: seq<Record>) {
    AllBalanced(entries) && NoneOverdrawn(entries) && ClosedOnce(entries)
  }

  lemma ClosedOnceAppends(entries: seq<Record>, r: Record)
    requires ClosedOnce(entries) && (Closing(r.memo) ==> !HasMemo(entries, r.memo))
    ensures ClosedOnce(entries + [r])
  {
    forall i | 0 <= i < |entries| && entries[i].memo == r.memo ensures !Closing(r.memo) {
      assert entries[i] in entries;
    }
  }

  lemma InvAppends(entries: seq<Record>, r: Record)
    requires Inv(entries) && Balanced(r.postings)
    requires forall a: Account, cur | !a.Party? :: Balance(entries, a, cur) + Effect(r.postings, a, cur) >= 0
    requires Closing(r.memo) ==> !HasMemo(entries, r.memo)
    ensures Inv(entries + [r])
  {
    hide Balanced, Effect, Balance;
    forall a: Account, cur | !a.Party? ensures Balance(entries + [r], a, cur) >= 0 {
      BalanceAppends(entries, r, a, cur);
    }
    ClosedOnceAppends(entries, r);
  }

  // ---- one step --------------------------------------------------------------------------------

  lemma TransferKeepsTwo(entries: seq<Record>, from: Account, to: Account, amount: int, cur: string, memo: Memo)
    requires Inv(entries) && !Closing(memo)
    ensures var after := entries + [Record(Transfer(from, to, amount, cur), memo)];
            && AllBalanced(after) && ClosedOnce(after)
            && (NoneOverdrawn(after) ==> Inv(after))
            && forall a: Account, c :: Balance(after, a, c)
                 == Balance(entries, a, c)
                  + if c != cur then 0 else (if a == to then amount else 0) - if a == from then amount else 0
  {
    hide Balance, Transfer;
    var r := Record(Transfer(from, to, amount, cur), memo);
    TransferBalanced(from, to, amount, cur);
    forall a: Account, c ensures Balance(entries + [r], a, c)
      == Balance(entries, a, c) + if c != cur then 0 else (if a == to then amount else 0) - if a == from then amount else 0
    {
      BalanceAppends(entries, r, a, c);
      TransferSums(from, to, amount, cur, a, c);
    }
    ClosedOnceAppends(entries, r);
  }

  /** Money from a party keeps the invariant exactly if the account it goes to is not overdrawn. */
  lemma DepositIff(entries: seq<Record>, from: Account, to: Account, amount: int, cur: string, memo: Memo)
    requires Inv(entries) && !Closing(memo) && from.Party? && !to.Party?
    ensures var after := entries + [Record(Transfer(from, to, amount, cur), memo)];
            && (Inv(after) <==> Balance(entries, to, cur) + amount >= 0)
            && (NoneOverdrawn(after) <==> Balance(entries, to, cur) + amount >= 0)
  {
    hide Balance, Transfer, AllBalanced, ClosedOnce;
    TransferKeepsTwo(entries, from, to, amount, cur, memo);
    var after := entries + [Record(Transfer(from, to, amount, cur), memo)];
    assert NoneOverdrawn(after) ==> Balance(after, to, cur) >= 0;
    forall a: Account, c | !a.Party? ensures Balance(entries, a, c) >= 0 {
    }
  }

  /** Paying out all that an account holds keeps it. */
  lemma PayoutKeeps(entries: seq<Record>, from: Account, to: Account, amount: int, cur: string, memo: Memo)
    requires Inv(entries) && !Closing(memo) && !from.Party? && to.Party? && amount == Balance(entries, from, cur)
    ensures Inv(entries + [Record(Transfer(from, to, amount, cur), memo)])
  {
    hide Balance, Transfer, AllBalanced, ClosedOnce;
    TransferKeepsTwo(entries, from, to, amount, cur, memo);
    forall a: Account, c | !a.Party? ensures Balance(entries, a, c) >= 0 {
    }
  }

  /** A settlement keeps the invariant exactly if the hold account can take its part. */
  lemma SettlementIff(entries: seq<Record>, q: Quote, ws: seq<real>, r: Record)
    requires Inv(entries) && Payable(q, ws) && |ws| == 2 && IsSettlement(q, ws, r)
    requires IsFunded(entries, q) && !HasMemo(entries, Settled(q.sha))
    ensures Inv(entries + [r]) <==> HoldAllows(entries, q, ws)
  {
    hide Balance, SettlePostings, S.IsSplit, S.Total, LastShare, AllBalanced, ClosedOnce, Balanced, Effect;
    S.TotalPositive(ws);
    var payee := LastShare(q.breakdown, "payee");
    var held, kept :| S.IsSplit(payee, ws, [held, kept]) && r == Record(SettlePostings(q, held, kept), Settled(q.sha));
    PartsOfTwo(payee, ws, [held, kept]);
    SettleBalances(q, held, kept);
    forall h, k | S.IsSplit(payee, ws, [h, k]) ensures h == held {
      S.SplitUnique(payee, ws, [h, k], [held, kept]);
      assert [h, k][0] == [held, kept][0];
    }
    assert HoldAllows(entries, q, ws) <==> Balance(entries, HoldFor(q.sha), q.currency) + held >= 0;
    if HoldAllows(entries, q, ws) {
      forall a: Account, c | !a.Party? ensures Balance(entries, a, c) + Effect(r.postings, a, c) >= 0 {
        SettleSums(q, held, kept, a, c);
        assert Balance(entries, a, c) >= 0;
      }
      InvAppends(entries, r);
    } else {
      BalanceAppends(entries, r, HoldFor(q.sha), q.currency);
      SettleSums(q, held, kept, HoldFor(q.sha), q.currency);
    }
  }

  /** It can whenever the payee's share is not negative. */
  lemma PayeeShareSuffices(entries: seq<Record>, q: Quote, ws: seq<real>)
    requires NoneOverdrawn(entries) && |ws| == 2 && !S.Refused(ws) && LastShare(q.breakdown, "payee") >= 0
    ensures HoldAllows(entries, q, ws)
  {
    hide Balance, S.IsSplit, S.Total, LastShare;
    S.TotalPositive(ws);
    forall held, kept | S.IsSplit(LastShare(q.breakdown, "payee"), ws, [held, kept])
      ensures Balance(entries, HoldFor(q.sha), q.currency) + held >= 0
    {
      PartsNonNegative(LastShare(q.breakdown, "payee"), ws, [held, kept], 0);
      assert Balance(entries, HoldFor(q.sha), q.currency) >= 0;
    }
  }

  lemma IntelKeeps(entries: seq<Record>, sha: string, legs: Legs, p: Parties, pass: bool, ws: seq<real>, r: Record)
    requires Inv(entries) && |ws| == 2 && !HasMemo(entries, IntelSettled(sha))
    requires Balance(entries, EscrowFor(sha), legs.currency) >= legs.Total() && !IntelRaises(legs, pass, ws)
    requires IsIntel(sha, legs, p, Balance(entries, EscrowFor(sha), legs.currency), pass, ws, r)
    ensures Inv(entries + [r])
    ensures Balance(entries + [r], EscrowFor(sha), legs.currency) == 0
  {
    hide Balance, IntelPostings, S.IsSplit, S.Total;
    var funded := Balance(entries, EscrowFor(sha), legs.currency);
    var refund, penalty :|
      && (pass || (S.Total(ws) != 0.0 && S.IsSplit(legs.work, ws, [refund, penalty])))
      && r == Record(IntelPostings(sha, legs, p, funded, pass, refund, penalty), IntelSettled(sha));
    if !pass {
      PartsOfTwo(legs.work, ws, [refund, penalty]);
      PartsNonNegative(legs.work, ws, [refund, penalty], 0);
      PartsNonNegative(legs.work, ws, [refund, penalty], 1);
    }
    IntelBalances(sha, legs, p, funded, pass, refund, penalty);
    forall a: Account, c | !a.Party? ensures Balance(entries, a, c) + Effect(r.postings, a, c) >= 0 {
      IntelSums(sha, legs, p, funded, pass, refund, penalty, a, c);
      assert Balance(entries, a, c) >= 0;
    }
    InvAppends(entries, r);
    BalanceAppends(entries, r, EscrowFor(sha), legs.currency);
    IntelSums(sha, legs, p, funded, pass, refund, penalty, EscrowFor(sha), legs.currency);
  }

  lemma ResolutionKeeps(entries: seq<Record>, doc: Resolution, c: Case)
    requires Inv(entries)
    ensures Inv(entries + [ResolveRecord(entries, doc, c)])
  {
    hide Balance;
    var r := ResolveRecord(entries, doc, c);
    forall cur ensures Net(r.postings, cur) == 0 {
      ResolveSums(entries, doc, c, Party(""), cur);
    }
    forall a: Account, cur | !a.Party? ensures Balance(entries, a, cur) + Effect(r.postings, a, cur) >= 0 {
      ResolveSums(entries, doc, c, a, cur);
      assert Balance(entries, a, cur) >= 0;
    }
    InvAppends(entries, r);
  }

  lemma {:induction false} RefundsKeep(entries: seq<Record>, keys: seq<string>)
    requires Inv(entries) && AllFunded(entries, keys) && Ascending(keys)
    requires forall k | k in keys :: !HasMemo(entries, Refunded(k))
    ensures AllBalanced(entries + RefundRecords(entries, keys)) && ClosedOnce(entries + RefundRecords(entries, keys))
    ensures forall r | r in RefundRecords(entries, keys) :: r.memo.Refunded? && r.memo.key in keys
  {
    hide Balance, Transfer, LastFunding, Less;
    if keys == [] {
      assert entries + [] == entries;
    } else {
      var n := |keys| - 1;
      assert forall k | k in keys[..n] :: k in keys;
      RefundsKeep(entries, keys[..n]);
      var before := entries + RefundRecords(entries, keys[..n]);
      var r := RefundRecord(entries, keys[n]);
      assert keys[..n] + [keys[n]] == keys && keys[n] in keys;
      RefundsGrow(entries, keys[..n], keys[n]);
      TransferBalanced(EscrowFor(keys[n]), Party(LastFunding(entries, keys[n]).value.funder), HeldFor(entries, keys[n]), USD);
      MemosKept(entries, RefundRecords(entries, keys[..n]), Refunded(keys[n]));
      NotRepeated(keys);
      ClosedOnceAppends(before, r);
    }
  }

  lemma NotRepeated(keys: seq<string>)
    requires keys != [] && Ascending(keys)
    ensures keys[|keys| - 1] !in keys[..|keys| - 1]
  {
    var n := |keys| - 1;
    forall i | 0 <= i < n ensures keys[i] != keys[n] {
      NeverBelowItself(keys[n]);
      assert Less(keys[i], keys[n]);
    }
  }

  /** A sweep keeps the invariant exactly if no two due keys share an escrow account. */
  lemma SweepIff(entries: seq<Record>, now: int, refunded: seq<string>, after: seq<Record>)
    requires Inv(entries) && SweepStep(entries, now, refunded, after)
    ensures Inv(after) <==> OneDuePerAccount(entries, now)
  {
    hide Balance, LastFunding, RefundRecords, Less, AllBalanced, ClosedOnce;
    forall k | k in refunded ensures !HasMemo(entries, Refunded(k)) && LastFunding(entries, k).Some? {
      assert Due(entries, k, now);
    }
    RefundsKeep(entries, refunded);
    RefundedAreDue(entries, now, refunded, after);
    if OneDuePerAccount(entries, now) {
      forall a: Account, cur | !a.Party? ensures Balance(after, a, cur) >= 0 {
        SweepMoves(entries, now, refunded, after, a, cur);
        DrawnOnce(entries, refunded, a);
        assert Balance(entries, a, cur) >= 0;
      }
    } else {
      forall key ensures HeldFor(entries, key) >= 0 {
        assert Balance(entries, EscrowFor(key), USD) >= 0;
      }
      var key := SharedIsOverdrawn(entries, now, refunded, after);
      assert Balance(after, EscrowFor(key), USD) < 0;
    }
  }

  /** One step keeps the invariant exactly if the balances allow it. */
  lemma StepKeepsIff(before: seq<Record>, action: Action, after: seq<Record>)
    requires Inv(before) && Step(before, action, after)
    ensures Inv(after) <==> Admissible(before, action)
  {
    hide Inv, Balance, SweepStep, IsSettlement, IsIntel, IsFunded, Verifies, Due, Payable, HoldAllows, OneDuePerAccount;
    match action {
      case Fund(funder, q) =>
        DepositIff(before, Party(funder), EscrowFor(q.sha), q.amount, q.currency, FundRecord(funder, q).memo);
      case FundExpiring(funder, amount, cur, key, expires) =>
        DepositIff(before, Party(funder), EscrowFor(key), amount, cur, Funded(key, expires, funder));
      case Pay(receipt, env, ws) =>
        PayIff(before, receipt, env, ws, after);
      case PayIntelligence(sha, legs, p, pass, ws) =>
        var outcome :| IntelStep(before, sha, legs, p, pass, ws, outcome, after);
        if outcome == Done {
          var r :| IsIntel(sha, legs, p, Balance(before, EscrowFor(sha), legs.currency), pass, ws, r) && after == before + [r];
          IntelKeeps(before, sha, legs, p, pass, ws, r);
        }
      case Sweep(now) =>
        var refunded :| SweepStep(before, now, refunded, after);
        SweepIff(before, now, refunded, after);
      case Open(disputer, sha, bond, cur) =>
        DepositIff(before, Party(disputer), BondFor(sha), bond, cur, OpenRecord(disputer, sha, bond, cur).memo);
      case Rule(doc, votes, m, c) =>
        ResolutionKeeps(before, doc, c);
      case Release(sha, cur) =>
        PayoutKeeps(before, HoldFor(sha), Party("payee"), Balance(before, HoldFor(sha), cur), cur, ReleaseRecord(before, sha, cur).memo);
    }
  }

  lemma PayIff(before: seq<Record>, receipt: Receipt, env: Envelope, ws: seq<real>, after: seq<Record>)
    requires Inv(before) && Step(before, Pay(receipt, env, ws), after)
    ensures Inv(after) <==> Admissible(before, Pay(receipt, env, ws))
  {
    hide Inv, Balance, IsSettlement, IsFunded, Verifies, Payable, HoldAllows;
    var outcome :| SettleStep(before, receipt, env, ws, outcome, after);
    if outcome == Done {
      var r :| IsSettlement(env.quote, ws, r) && after == before + [r];
      SettlementIff(before, env.quote, ws, r);
    }
  }

  // ---- runs ------------------------------------------------------------------------------------

  ghost predicate IsRun(states: seq<seq<Record>>, actions: seq<Action>) {
    && |states| == |actions| + 1 && states[0] == []
    && forall i | 0 <= i < |actions| :: Admissible(states[i], actions[i]) && Step(states[i], actions[i], states[i + 1])
  }

  /**
   * Along every interleaving of the operations, from an empty ledger: each posting set balances, no escrow, hold
   * or bond account is ever below zero, and no quote or key has two records of one settlement kind.
   */
  lemma {:induction false} EveryRunIsSound(states: seq<seq<Record>>, actions: seq<Action>, k: nat)
    requires IsRun(states, actions) && k < |states|
    ensures Inv(states[k])
  {
    hide Step, Admissible;
    if k == 0 {
      assert Inv([]);
    } else {
      EveryRunIsSound(states, actions, k - 1);
      StepKeepsIff(states[k - 1], actions[k - 1], states[k]);
    }
  }

  /** Money is neither made nor lost in any run: all accounts together hold nothing, in every currency. */
  lemma RunsConserve(states: seq<seq<Record>>, actions: seq<Action>, k: nat, accounts: set<Account>, cur: string)
    requires IsRun(states, actions) && k < |states| && forall r | r in states[k] :: Touched(r.postings) <= accounts
    ensures Wealth(states[k], accounts, cur) == 0
  {
    EveryRunIsSound(states, actions, k);
    GlobalZero(states[k], accounts, cur);
  }

  /** Settlement takes the quoted amount: the escrow is empty afterwards exactly when it was not overfunded. */
  lemma SettlementDrains(entries: seq<Record>, q: Quote, ws: seq<real>, r: Record)
    requires IsSettlement(q, ws, r)
    ensures Balance(entries + [r], EscrowFor(q.sha), q.currency) == 0 <==> Balance(entries, EscrowFor(q.sha), q.currency) == q.amount
  {
    hide Balance, SettlePostings, S.IsSplit, LastShare;
    var held, kept :| S.IsSplit(LastShare(q.breakdown, "payee"), ws, [held, kept]) && r == Record(SettlePostings(q, held, kept), Settled(q.sha));
    BalanceAppends(entries, r, EscrowFor(q.sha), q.currency);
    SettleSums(q, held, kept, EscrowFor(q.sha), q.currency);
  }
}
