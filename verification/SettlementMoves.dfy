/** Who is paid what: the change that each operation makes to the balance of every account in every currency. */
module SettlementMoves {
  import opened Accounts
  import opened RewardLedger
  import opened Prelude
  import opened Settlement
  import opened Disputes
  import opened Expiry
  import S = Split

  /** amount, if it is this account and currency that is meant. */
  ghost function If(meant: bool, amount: int): int {
    if meant then amount else 0
  }

  lemma TransferMoves(entries: seq<Record>, from: Account, to: Account, amount: int, cur: string, memo: Memo, a: Account, c: string)
    ensures Balance(entries + [Record(Transfer(from, to, amount, cur), memo)], a, c)
         == Balance(entries, a, c) + If(a == to && c == cur, amount) - If(a == from && c == cur, amount)
  {
    hide Balance, Transfer;
    BalanceAppends(entries, Record(Transfer(from, to, amount, cur), memo), a, c);
    TransferSums(from, to, amount, cur, a, c);
  }

  lemma FundingMoves(entries: seq<Record>, funder: string, q: Quote, a: Account, c: string)
    ensures Balance(entries + [FundRecord(funder, q)], a, c)
         == Balance(entries, a, c) + If(a == EscrowFor(q.sha) && c == q.currency, q.amount)
                                   - If(a == Party(funder) && c == q.currency, q.amount)
  {
    hide Balance, Transfer;
    TransferMoves(entries, Party(funder), EscrowFor(q.sha), q.amount, q.currency, FundRecord(funder, q).memo, a, c);
  }

  lemma FundingWithExpiryMoves(entries: seq<Record>, funder: string, amount: int, cur: string, key: string, expires: int, a: Account, c: string)
    ensures Balance(entries + [FundExpiringRecord(funder, amount, cur, key, expires)], a, c)
         == Balance(entries, a, c) + If(a == EscrowFor(key) && c == cur, amount) - If(a == Party(funder) && c == cur, amount)
    ensures LastFunding(entries + [FundExpiringRecord(funder, amount, cur, key, expires)], key) == Some(Funding(expires, funder))
  {
    hide Balance, Transfer;
    TransferMoves(entries, Party(funder), EscrowFor(key), amount, cur, Funded(key, expires, funder), a, c);
  }

  /** The bond goes from the disputer to the bond account of the quote. */
  lemma DisputeMoves(entries: seq<Record>, disputer: string, sha: string, bond: int, cur: string, a: Account, c: string)
    ensures Balance(entries + [OpenRecord(disputer, sha, bond, cur)], a, c)
         == Balance(entries, a, c) + If(a == BondFor(sha) && c == cur, bond) - If(a == Party(disputer) && c == cur, bond)
  {
    hide Balance, Transfer;
    TransferMoves(entries, Party(disputer), BondFor(sha), bond, cur, OpenRecord(disputer, sha, bond, cur).memo, a, c);
  }

  /** All that is held goes to the payee. */
  lemma ReleaseMoves(entries: seq<Record>, sha: string, cur: string, a: Account, c: string)
    ensures var held := Balance(entries, HoldFor(sha), cur);
            Balance(entries + [ReleaseRecord(entries, sha, cur)], a, c)
            == Balance(entries, a, c) + If(a == Party("payee") && c == cur, held) - If(a == HoldFor(sha) && c == cur, held)
  {
    hide Balance, Transfer;
    var held := Balance(entries, HoldFor(sha), cur);
    TransferMoves(entries, HoldFor(sha), Party("payee"), held, cur, ReleaseRecord(entries, sha, cur).memo, a, c);
  }

  /**
    A settlement takes the amount out of the escrow and pays the fee share to fee, the payee's share to payee less the
    part that is held, and that part, the first of the exact split, to the hold account; nothing else moves.
   */
  lemma SettlementPays(entries: seq<Record>, q: Quote, ws: seq<real>, r: Record) returns (held: int, kept: int)
    requires IsSettlement(q, ws, r) && |ws| == 2
    ensures S.IsSplit(LastShare(q.breakdown, "payee"), ws, [held, kept]) && held + kept == LastShare(q.breakdown, "payee")
    ensures forall a: Account, c: string ::
      Balance(entries + [r], a, c)
      == Balance(entries, a, c)
       - If(a == EscrowFor(q.sha) && c == q.currency, q.amount)
       + If(a == Party("fee") && c == q.currency, LastShare(q.breakdown, "fee"))
       + If(a == Party("payee") && c == q.currency, LastShare(q.breakdown, "payee") - held)
       + If(a == HoldFor(q.sha) && c == q.currency, held)
  {
    hide Balance, Effect, LastShare, S.IsSplit;
    held, kept :| S.IsSplit(LastShare(q.breakdown, "payee"), ws, [held, kept]) && r == Record(SettlePostings(q, held, kept), Settled(q.sha));
    SplitInTwo(LastShare(q.breakdown, "payee"), ws, held, kept);
    hide SettlePostings;
    forall a: Account, c: string
      ensures Balance(entries + [r], a, c)
           == Balance(entries, a, c) - If(a == EscrowFor(q.sha) && c == q.currency, q.amount)
                                     + If(a == Party("fee") && c == q.currency, LastShare(q.breakdown, "fee"))
                                     + If(a == Party("payee") && c == q.currency, LastShare(q.breakdown, "payee") - held)
                                     + If(a == HoldFor(q.sha) && c == q.currency, held)
    {
      BalanceAppends(entries, r, a, c);
      SettleMoves(q, held, kept, a, c);
    }
  }

  lemma SettleMoves(q: Quote, held: int, kept: int, a: Account, c: string)
    ensures Effect(SettlePostings(q, held, kept), a, c)
         == If(a == Party("fee") && c == q.currency, LastShare(q.breakdown, "fee"))
          + If(a == Party("payee") && c == q.currency, kept)
          + If(a == HoldFor(q.sha) && c == q.currency, held)
          - If(a == EscrowFor(q.sha) && c == q.currency, q.amount)
  {
    hide Effect, LastShare;
    var ps := SettlePostings(q, held, kept);
    FourMoves(ps[0], ps[1], ps[2], ps[3], a, c);
    assert ps == [ps[0], ps[1], ps[2], ps[3]];
  }

  lemma SplitInTwo(units: int, ws: seq<real>, held: int, kept: int)
    requires |ws| == 2 && S.Total(ws) != 0.0 && S.IsSplit(units, ws, [held, kept])
    ensures held + kept == units
  {
    PartsOfTwo(units, ws, [held, kept]);
    assert [held, kept][0] == held && [held, kept][1] == kept;
  }

  lemma FourMoves(p: Posting, q: Posting, r: Posting, s: Posting, a: Account, c: string)
    ensures Effect([p, q, r, s], a, c) == One(p, a, c) + One(q, a, c) + One(r, a, c) + One(s, a, c)
  {
    assert [p, q, r, s] == [p, q] + [r, s];
    SumsConcat([p, q], [r, s], a, c);
    SumsTwo(p, q, a, c);
    SumsTwo(r, s, a, c);
  }

  lemma IfPositiveMoves(to: Account, amount: int, cur: string, a: Account, c: string)
    ensures Effect(IfPositive(to, amount, cur), a, c) == If(a == to && c == cur && amount > 0, amount)
  {
    SumsOne(Posting(to, amount, cur), a, c);
  }

  /**
    The intelligence gate empties the escrow: the pass-through leg goes to the provider, the fee leg to the fee account,
    the work leg to the payee if the schema was met, and else its two parts back to the initiator and, as a penalty, to
    the fee account; what was funded beyond the three legs returns to the initiator.
   */
  lemma IntelPays(entries: seq<Record>, sha: string, legs: Legs, p: Parties, pass: bool, ws: seq<real>, r: Record)
    returns (refund: int, penalty: int)
    requires |ws| == 2 && !IntelRaises(legs, pass, ws)
    requires IsIntel(sha, legs, p, Balance(entries, EscrowFor(sha), legs.currency), pass, ws, r)
    ensures !pass ==> S.Total(ws) != 0.0 && S.IsSplit(legs.work, ws, [refund, penalty]) && refund + penalty == legs.work
    ensures pass ==> refund == penalty == 0
    ensures !pass ==> refund >= 0 && penalty >= 0
    ensures Balance(entries + [r], EscrowFor(sha), legs.currency) == 0
    ensures forall a: Account, c: string | c != legs.currency :: Balance(entries + [r], a, c) == Balance(entries, a, c)
    ensures forall a: Account | a != EscrowFor(sha) ::
      Balance(entries + [r], a, legs.currency)
      == Balance(entries, a, legs.currency)
       + If(a == Party(p.provider), legs.passthrough)
       + If(a == Party(p.feeAccount), legs.fee + penalty)
       + If(a == Party(p.payee) && pass, legs.work)
       + If(a == Party(p.initiator), refund + Positive(Balance(entries, EscrowFor(sha), legs.currency)
                                                         - (legs.passthrough + legs.work + legs.fee)))
  {
    hide Balance, Effect, S.IsSplit, S.Total, IntelPostings;
    var funded := Balance(entries, EscrowFor(sha), legs.currency);
    refund, penalty := 0, 0;
    if pass {
      var x, y :| r == Record(IntelPostings(sha, legs, p, funded, pass, x, y), IntelSettled(sha));
      SameWhenPassed(sha, legs, p, funded, x, y);
    } else {
      refund, penalty :| S.Total(ws) != 0.0 && S.IsSplit(legs.work, ws, [refund, penalty])
                      && r == Record(IntelPostings(sha, legs, p, funded, pass, refund, penalty), IntelSettled(sha));
      SplitInTwo(legs.work, ws, refund, penalty);
      PartsNonNegative(legs.work, ws, [refund, penalty], 0);
      PartsNonNegative(legs.work, ws, [refund, penalty], 1);
    }
    forall a: Account, c: string
      ensures Balance(entries + [r], a, c) == Balance(entries, a, c) + Effect(r.postings, a, c)
      ensures c != legs.currency ==> Effect(r.postings, a, c) == 0
    {
      BalanceAppends(entries, r, a, c);
      IntelMoves(sha, legs, p, funded, pass, refund, penalty, a, c);
    }
    forall a: Account
      ensures Effect(r.postings, a, legs.currency)
           == If(a == Party(p.provider), legs.passthrough) + If(a == Party(p.feeAccount), legs.fee + penalty)
            + If(a == Party(p.payee) && pass, legs.work) + If(a == Party(p.initiator), refund + Positive(funded - legs.Total()))
            - If(a == EscrowFor(sha), funded)
    {
      IntelMoves(sha, legs, p, funded, pass, refund, penalty, a, legs.currency);
    }
  }

  lemma SameWhenPassed(sha: string, legs: Legs, p: Parties, funded: int, x: int, y: int)
    ensures IntelPostings(sha, legs, p, funded, true, x, y) == IntelPostings(sha, legs, p, funded, true, 0, 0)
  {
  }

  lemma IntelMoves(sha: string, legs: Legs, p: Parties, funded: int, pass: bool, refund: int, penalty: int, a: Account, c: string)
    requires pass ==> refund == penalty == 0
    requires refund >= 0 && penalty >= 0
    ensures c != legs.currency ==> Effect(IntelPostings(sha, legs, p, funded, pass, refund, penalty), a, c) == 0
    ensures c == legs.currency ==>
              Effect(IntelPostings(sha, legs, p, funded, pass, refund, penalty), a, c)
              == If(a == Party(p.provider), legs.passthrough) + If(a == Party(p.feeAccount), legs.fee + penalty)
               + If(a == Party(p.payee) && pass, legs.work) + If(a == Party(p.initiator), refund + Positive(funded - legs.Total()))
               - If(a == EscrowFor(sha), funded)
  {
    hide Effect, Net, IfPositive;
    var cur := legs.currency;
    var drain, give := Posting(EscrowFor(sha), -funded, cur), Posting(Party(p.provider), legs.passthrough, cur);
    var fee, paid := Posting(Party(p.feeAccount), legs.fee, cur), Posting(Party(p.payee), legs.work, cur);
    var pen, back := IfPositive(Party(p.feeAccount), penalty, cur), IfPositive(Party(p.initiator), refund, cur);
    var change := IfPositive(Party(p.initiator), funded - legs.Total(), cur);
    var mid := if pass then [paid] else pen + back;
    assert [drain, give, fee] == [drain, give] + [fee];
    SumsTwo(drain, give, a, c);
    SumsOne(fee, a, c);
    SumsOne(paid, a, c);
    SumsConcat([drain, give], [fee], a, c);
    SumsConcat(pen, back, a, c);
    IfPositiveMoves(Party(p.feeAccount), penalty, cur, a, c);
    IfPositiveMoves(Party(p.initiator), refund, cur, a, c);
    IfPositiveMoves(Party(p.initiator), funded - legs.Total(), cur, a, c);
    SumsConcat([drain, give, fee], mid, a, c);
    SumsConcat([drain, give, fee] + mid, change, a, c);
  }

  /** Upheld, the hold and the bond account are emptied to the disputer; rejected, the bond account to the payee. */
  lemma ResolutionPays(entries: seq<Record>, doc: Resolution, k: Case, a: Account, c: string)
    ensures var cur, upheld := doc.currency.GetOr("USD"), doc.outcome == "upheld";
            var held, bond := Balance(entries, HoldFor(k.sha), cur), Balance(entries, BondFor(k.sha), cur);
            Balance(entries + [ResolveRecord(entries, doc, k)], a, c)
            == Balance(entries, a, c)
             + If(a == Party(k.disputer) && c == cur && upheld, held + bond)
             + If(a == Party(k.payee) && c == cur && !upheld, bond)
             - If(a == HoldFor(k.sha) && c == cur && upheld, held)
             - If(a == BondFor(k.sha) && c == cur, bond)
  {
    hide Balance, Net, Effect, Transfer;
    var cur := doc.currency.GetOr("USD");
    var bond, held := Balance(entries, BondFor(k.sha), cur), Balance(entries, HoldFor(k.sha), cur);
    BalanceAppends(entries, ResolveRecord(entries, doc, k), a, c);
    var claw, back := Transfer(HoldFor(k.sha), Party(k.disputer), held, cur), Transfer(BondFor(k.sha), Party(k.disputer), bond, cur);
    TransferSums(HoldFor(k.sha), Party(k.disputer), held, cur, a, c);
    TransferSums(BondFor(k.sha), Party(k.disputer), bond, cur, a, c);
    TransferSums(BondFor(k.sha), Party(k.payee), bond, cur, a, c);
    SumsConcat(claw, back, a, c);
  }
}
