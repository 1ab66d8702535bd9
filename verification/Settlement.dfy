/** Funding, settlement, the intelligence gate, disputes and holdback: what each operation posts, and when. */
module Settlement {
  import opened Accounts
  import opened RewardLedger
  import opened Prelude
  import S = Split

  datatype Outcome = Done | Refused(reason: Reason) | Raised

  datatype Reason =
    | NotDualSigned | ValidationNotPass | QuoteInvalid | QuoteUnbound | AlreadySettled | Unfunded
    | QuorumTooSmall | InsufficientApprovals | InvalidOutcome

  // ---- quotes ----------------------------------------------------------------------------------

  datatype Share = Share(account: string, amount: int)

  /** sha stands for the quote's content id. */
  datatype Quote = Quote(sha: string, amount: int, currency: string, breakdown: seq<Share>)

  /** signed: the type, the signature and the payload check out. */
  datatype Envelope = Envelope(signed: bool, quote: Quote)

  datatype Receipt = Receipt(dualSigned: bool, validation: string, quoteSha: Option<string>)

  function Total(b: seq<Share>): int {
    if b == [] then 0 else Total(b[..|b| - 1]) + b[|b| - 1].amount
  }

  /** The dictionary of the breakdown: the last share of a name wins, a missing name is zero. */
  function LastShare(b: seq<Share>, name: string): int {
    if b == [] then 0
    else if b[|b| - 1].account == name then b[|b| - 1].amount
    else LastShare(b[..|b| - 1], name)
  }

  /** The last share of a name is its share, and a name without one has none. */
  lemma {:induction false} LastShareIs(b: seq<Share>, name: string, i: int)
    requires -1 <= i < |b| && (i >= 0 ==> b[i].account == name) && forall j | i < j < |b| :: b[j].account != name
    ensures LastShare(b, name) == if i >= 0 then b[i].amount else 0
  {
    if i < |b| - 1 {
      LastShareIs(b[..|b| - 1], name, i);
    }
  }

  lemma {:induction false} TotalConcat(a: seq<Share>, b: seq<Share>)
    ensures Total(a + b) == Total(a) + Total(b) && forall x :: Total([x]) == x.amount
  {
    if b == [] {
      assert a + b == a;
    } else {
      var n := |b| - 1;
      assert (a + b)[..|a + b| - 1] == a + b[..n];
      TotalConcat(a, b[..n]);
    }
    forall x: Share ensures Total([x]) == x.amount {
      assert [x][..0] == [];
    }
  }

  method BreakdownTotal(b: seq<Share>) returns (total: int)
    ensures total == Total(b)
  {
    total := 0;
    for i := 0 to |b|
      invariant total == Total(b[..i])
    {
      assert b[..i + 1][..i] == b[..i];
      total := total + b[i].amount;
    }
    assert b[..|b|] == b;
  }

  ghost predicate Verifies(env: Envelope) {
    env.signed && Total(env.quote.breakdown) == env.quote.amount
  }

  ghost predicate IsFunded(entries: seq<Record>, q: Quote) {
    Balance(entries, EscrowFor(q.sha), q.currency) >= q.amount
  }

  function Transfer(from: Account, to: Account, amount: int, cur: string): seq<Posting> {
    [Posting(from, -amount, cur), Posting(to, amount, cur)]
  }

  lemma TransferSums(from: Account, to: Account, amount: int, cur: string, a: Account, c: string)
    ensures Net(Transfer(from, to, amount, cur), c) == 0
    ensures Effect(Transfer(from, to, amount, cur), a, c)
         == if c != cur then 0 else (if a == to then amount else 0) - if a == from then amount else 0
  {
    SumsTwo(Posting(from, -amount, cur), Posting(to, amount, cur), a, c);
  }

  lemma TransferBalanced(from: Account, to: Account, amount: int, cur: string)
    ensures Balanced(Transfer(from, to, amount, cur))
  {
    forall c ensures Net(Transfer(from, to, amount, cur), c) == 0 {
      TransferSums(from, to, amount, cur, from, c);
    }
  }

  method FundQuote(ledger: RewardLedger, funder: string, q: Quote)
    modifies ledger
    ensures ledger.entries == old(ledger.entries) + [FundRecord(funder, q)]
  {
    TransferBalanced(Party(funder), EscrowFor(q.sha), q.amount, q.currency);
    var _ := ledger.Post(Transfer(Party(funder), EscrowFor(q.sha), q.amount, q.currency), Other("fund-quote:" + Cut(q.sha, 16)));
  }

  function FundRecord(funder: string, q: Quote): Record {
    Record(Transfer(Party(funder), EscrowFor(q.sha), q.amount, q.currency), Other("fund-quote:" + Cut(q.sha, 16)))
  }

  // ---- settle ----------------------------------------------------------------------------------

  /** The checks in the order of the source: the first that fails is the reason. */
  ghost function SettleRefusal(entries: seq<Record>, receipt: Receipt, env: Envelope): Option<Reason> {
    var sha := env.quote.sha;
    if !receipt.dualSigned then Some(NotDualSigned)
    else if receipt.validation != "pass" then Some(ValidationNotPass)
    else if !Verifies(env) then Some(QuoteInvalid)
    else if receipt.quoteSha != Some(sha) then Some(QuoteUnbound)
    else if HasMemo(entries, Settled(sha)) then Some(AlreadySettled)
    else if !IsFunded(entries, env.quote) then Some(Unfunded)
    else None
  }

  function SettlePostings(q: Quote, held: int, kept: int): seq<Posting> {
    [Posting(EscrowFor(q.sha), -q.amount, q.currency),
     Posting(Party("fee"), LastShare(q.breakdown, "fee"), q.currency),
     Posting(Party("payee"), kept, q.currency),
     Posting(HoldFor(q.sha), held, q.currency)]
  }

  /** The weights can be split by, and fee and payee make up the amount: else an exception, and nothing is written. */
  ghost predicate Payable(q: Quote, ws: seq<real>) {
    !S.Refused(ws) && LastShare(q.breakdown, "fee") + LastShare(q.breakdown, "payee") == q.amount
  }

  ghost predicate IsSettlement(q: Quote, ws: seq<real>, r: Record) {
    S.Total(ws) != 0.0 &&
    exists held, kept ::
      S.IsSplit(LastShare(q.breakdown, "payee"), ws, [held, kept]) && r == Record(SettlePostings(q, held, kept), Settled(q.sha))
  }

  /** At most one posting set, exactly when every check passes; nothing otherwise. */
  ghost predicate SettleStep(entries: seq<Record>, receipt: Receipt, env: Envelope, ws: seq<real>, outcome: Outcome, after: seq<Record>) {
    match SettleRefusal(entries, receipt, env)
    case Some(reason) => outcome == Refused(reason) && after == entries
    case None =>
      if Payable(env.quote, ws)
      then outcome == Done && exists r :: IsSettlement(env.quote, ws, r) && after == entries + [r]
      else outcome == Raised && after == entries
  }

  lemma WeightsOfTwo(x: real, y: real)
    ensures S.Refused([x, y]) <==> !(x >= 0.0 && y >= 0.0 && x + y > 0.0)
  {
    assert [x, y][1..] == [y] && [y][1..] == [];
    assert S.Total([y]) == y + S.Total([]) == y;
    assert x in [x, y] && y in [x, y];
  }

  lemma SumPair(x: int, y: int)
    ensures S.Sum([x, y]) == x + y
  {
    assert [x, y][1..] == [y] && [y][1..] == [];
    assert S.Sum([y]) == y;
  }

  lemma SettleSums(q: Quote, held: int, kept: int, a: Account, c: string)
    ensures Net(SettlePostings(q, held, kept), c)
         == if c == q.currency then LastShare(q.breakdown, "fee") + kept + held - q.amount else 0
    ensures !a.Party? ==> (Effect(SettlePostings(q, held, kept), a, c)
      == if c != q.currency then 0 else (if a == HoldFor(q.sha) then held else 0) - if a == EscrowFor(q.sha) then q.amount else 0)
  {
    var ps := SettlePostings(q, held, kept);
    assert ps == [ps[0], ps[1]] + [ps[2], ps[3]];
    SumsConcat([ps[0], ps[1]], [ps[2], ps[3]], a, c);
    SumsTwo(ps[0], ps[1], a, c);
    SumsTwo(ps[2], ps[3], a, c);
  }

  lemma SettleBalances(q: Quote, held: int, kept: int)
    ensures Balanced(SettlePostings(q, held, kept)) <==> LastShare(q.breakdown, "fee") + kept + held == q.amount
  {
    hide LastShare, SettlePostings;
    forall c ensures Net(SettlePostings(q, held, kept), c)
                  == if c == q.currency then LastShare(q.breakdown, "fee") + kept + held - q.amount else 0 {
      SettleSums(q, held, kept, Party(""), c);
    }
    assert Balanced(SettlePostings(q, held, kept)) ==> Net(SettlePostings(q, held, kept), q.currency) == 0;
  }

  method HasRecord(ledger: RewardLedger, m: Memo) returns (found: bool)
    ensures found <==> HasMemo(ledger.entries, m)
  {
    for i := 0 to |ledger.entries|
      invariant forall k | 0 <= k < i :: ledger.entries[k].memo != m
    {
      if ledger.entries[i].memo == m {
        return true;
      }
    }
    return false;
  }

  method ShareOf(b: seq<Share>, name: string) returns (amount: int)
    ensures amount == LastShare(b, name)
  {
    amount := 0;
    for i := 0 to |b|
      invariant amount == LastShare(b[..i], name)
    {
      assert b[..i + 1][..i] == b[..i];
      if b[i].account == name {
        amount := b[i].amount;
      }
    }
    assert b[..|b|] == b;
  }

  method Settle(ledger: RewardLedger, receipt: Receipt, env: Envelope, holdWeight: real, keepWeight: real) returns (outcome: Outcome)
    modifies ledger
    ensures SettleStep(old(ledger.entries), receipt, env, [holdWeight, keepWeight], outcome, ledger.entries)
    ensures outcome == Done <==>
              && receipt.dualSigned && receipt.validation == "pass"
              && env.signed && Total(env.quote.breakdown) == env.quote.amount
              && receipt.quoteSha == Some(env.quote.sha)
              && (forall r | r in old(ledger.entries) :: r.memo != Settled(env.quote.sha))
              && Balance(old(ledger.entries), EscrowFor(env.quote.sha), env.quote.currency) >= env.quote.amount
              && holdWeight >= 0.0 && keepWeight >= 0.0 && holdWeight + keepWeight > 0.0
              && LastShare(env.quote.breakdown, "fee") + LastShare(env.quote.breakdown, "payee") == env.quote.amount
    ensures outcome != Done ==> ledger.entries == old(ledger.entries)
  {
    hide Balance, LastShare, SettlePostings, S.IsSplit, S.Total;
    WeightsOfTwo(holdWeight, keepWeight);
    if !receipt.dualSigned {
      return Refused(NotDualSigned);
    }
    if receipt.validation != "pass" {
      return Refused(ValidationNotPass);
    }
    var q := env.quote;
    var total := BreakdownTotal(q.breakdown);
    if !env.signed || total != q.amount {
      return Refused(QuoteInvalid);
    }
    if receipt.quoteSha != Some(q.sha) {
      return Refused(QuoteUnbound);
    }
    var already := HasRecord(ledger, Settled(q.sha));
    if already {
      return Refused(AlreadySettled);
    }
    var bal := ledger.FoldBalances();
    if Get(bal, EscrowFor(q.sha), q.currency) < q.amount {
      return Refused(Unfunded);
    }
    var fee := ShareOf(q.breakdown, "fee");
    var payee := ShareOf(q.breakdown, "payee");
    var ws := [holdWeight, keepWeight];
    var parts := S.Split(payee, ws);
    if parts.None? {
      return Raised;
    }
    ghost var before := ledger.entries;
    PartsOfTwo(payee, ws, parts.value);
    var held, kept := parts.value[0], parts.value[1];
    SettleBalances(q, held, kept);
    var postings := SettlePostings(q, held, kept);
    var posted := ledger.Post(postings, Settled(q.sha));
    if !posted {
      return Raised;
    }
    assert IsSettlement(q, ws, Record(postings, Settled(q.sha)));
    return Done;
  }

  lemma PartsOfTwo(units: int, ws: seq<real>, parts: seq<int>)
    requires |ws| == 2 && S.Total(ws) != 0.0 && S.IsSplit(units, ws, parts)
    ensures |parts| == 2 && parts == [parts[0], parts[1]] && parts[0] + parts[1] == units
  {
    SumPair(parts[0], parts[1]);
  }

  // ---- the intelligence gate -------------------------------------------------------------------

  datatype Legs = Legs(passthrough: int, work: int, fee: int, currency: string) {
    function Total(): int { passthrough + work + fee }
  }

  datatype Parties = Parties(initiator: string, provider: string, payee: string, feeAccount: string)

  function IfPositive(account: Account, amount: int, cur: string): seq<Posting> {
    if amount > 0 then [Posting(account, amount, cur)] else []
  }

  /** What the escrow's whole balance is spent on; refund and penalty are the two parts of the work leg. */
  function IntelPostings(sha: string, legs: Legs, p: Parties, funded: int, pass: bool, refund: int, penalty: int): seq<Posting> {
    var cur := legs.currency;
    [Posting(EscrowFor(sha), -funded, cur), Posting(Party(p.provider), legs.passthrough, cur), Posting(Party(p.feeAccount), legs.fee, cur)]
    + (if pass then [Posting(Party(p.payee), legs.work, cur)]
       else IfPositive(Party(p.feeAccount), penalty, cur) + IfPositive(Party(p.initiator), refund, cur))
    + IfPositive(Party(p.initiator), funded - legs.Total(), cur)
  }

  /** The exception: a failed schema and weights that cannot be split by, or a negative work leg. */
  ghost predicate IntelRaises(legs: Legs, pass: bool, ws: seq<real>) {
    !pass && (S.Refused(ws) || legs.work < 0)
  }

  ghost predicate IsIntel(sha: string, legs: Legs, p: Parties, funded: int, pass: bool, ws: seq<real>, r: Record) {
    exists refund, penalty ::
      && (pass || (S.Total(ws) != 0.0 && S.IsSplit(legs.work, ws, [refund, penalty])))
      && r == Record(IntelPostings(sha, legs, p, funded, pass, refund, penalty), IntelSettled(sha))
  }

  ghost predicate IntelStep(entries: seq<Record>, sha: string, legs: Legs, p: Parties, pass: bool, ws: seq<real>,
                            outcome: Outcome, after: seq<Record>)
  {
    var funded := Balance(entries, EscrowFor(sha), legs.currency);
    if HasMemo(entries, IntelSettled(sha)) then outcome == Refused(AlreadySettled) && after == entries
    else if funded < legs.Total() then outcome == Refused(Unfunded) && after == entries
    else if IntelRaises(legs, pass, ws) then outcome == Raised && after == entries
    else outcome == Done && exists r :: IsIntel(sha, legs, p, funded, pass, ws, r) && after == entries + [r]
  }

  function Positive(x: int): int {
    if x > 0 then x else 0
  }

  lemma IfPositiveSums(to: Account, amount: int, cur: string, a: Account, c: string)
    requires to.Party?
    ensures Net(IfPositive(to, amount, cur), c) == if c == cur then Positive(amount) else 0
    ensures !a.Party? ==> Effect(IfPositive(to, amount, cur), a, c) == 0
  {
    SumsOne(Posting(to, amount, cur), a, c);
  }

  lemma IntelSums(sha: string, legs: Legs, p: Parties, funded: int, pass: bool, refund: int, penalty: int, a: Account, c: string)
    requires funded >= legs.Total()
    ensures Net(IntelPostings(sha, legs, p, funded, pass, refund, penalty), c)
         == if c != legs.currency || pass then 0 else Positive(refund) + Positive(penalty) - legs.work
    ensures !a.Party? ==> (Effect(IntelPostings(sha, legs, p, funded, pass, refund, penalty), a, c)
      == if c == legs.currency && a == EscrowFor(sha) then -funded else 0)
  {
    hide Net, Effect, IfPositive;
    var cur := legs.currency;
    var drain, give, fee := Posting(EscrowFor(sha), -funded, cur), Posting(Party(p.provider), legs.passthrough, cur), Posting(Party(p.feeAccount), legs.fee, cur);
    var paid := [Posting(Party(p.payee), legs.work, cur)];
    var pen, back := IfPositive(Party(p.feeAccount), penalty, cur), IfPositive(Party(p.initiator), refund, cur);
    var mid := if pass then paid else pen + back;
    var change := IfPositive(Party(p.initiator), funded - legs.Total(), cur);
    assert [drain, give, fee] == [drain, give] + [fee];
    SumsTwo(drain, give, a, c);
    SumsOne(fee, a, c);
    SumsConcat([drain, give], [fee], a, c);
    SumsOne(paid[0], a, c);
    SumsConcat(pen, back, a, c);
    IfPositiveSums(Party(p.feeAccount), penalty, cur, a, c);
    IfPositiveSums(Party(p.initiator), refund, cur, a, c);
    IfPositiveSums(Party(p.initiator), funded - legs.Total(), cur, a, c);
    SumsConcat([drain, give, fee], mid, a, c);
    SumsConcat([drain, give, fee] + mid, change, a, c);
  }

  lemma IntelBalances(sha: string, legs: Legs, p: Parties, funded: int, pass: bool, refund: int, penalty: int)
    requires funded >= legs.Total() && (!pass ==> refund + penalty == legs.work)
    requires !pass && legs.work >= 0 ==> refund >= 0 && penalty >= 0
    ensures Balanced(IntelPostings(sha, legs, p, funded, pass, refund, penalty)) <==> pass || legs.work >= 0
  {
    hide IntelPostings;
    forall c ensures Net(IntelPostings(sha, legs, p, funded, pass, refund, penalty), c)
                  == if c != legs.currency || pass then 0 else Positive(refund) + Positive(penalty) - legs.work {
      IntelSums(sha, legs, p, funded, pass, refund, penalty, Party(""), c);
    }
    assert Balanced(IntelPostings(sha, legs, p, funded, pass, refund, penalty)) ==>
      Net(IntelPostings(sha, legs, p, funded, pass, refund, penalty), legs.currency) == 0;
  }

  /** The parts of an amount that is not negative are not negative. */
  lemma PartsNonNegative(units: int, ws: seq<real>, parts: seq<int>, i: nat)
    requires !S.Refused(ws) && S.IsSplit(units, ws, parts) && units >= 0 && i < |ws|
    ensures parts[i] >= 0
  {
    S.TotalPositive(ws);
    assert ws[i] in ws;
    QuotaNonNegative(units as real, ws[i], S.Total(ws));
  }

  lemma QuotaNonNegative(u: real, w: real, t: real)
    requires u >= 0.0 && w >= 0.0 && t > 0.0
    ensures u * w / t >= 0.0
  {
    assert u * w >= 0.0;
  }

  method SettleIntelligence(ledger: RewardLedger, sha: string, legs: Legs, pass: bool, p: Parties,
                            refundWeight: real, penaltyWeight: real) returns (outcome: Outcome)
    modifies ledger
    ensures IntelStep(old(ledger.entries), sha, legs, p, pass, [refundWeight, penaltyWeight], outcome, ledger.entries)
    ensures outcome == Done <==>
              && (forall r | r in old(ledger.entries) :: r.memo != IntelSettled(sha))
              && Balance(old(ledger.entries), EscrowFor(sha), legs.currency) >= legs.passthrough + legs.work + legs.fee
              && (pass || (refundWeight >= 0.0 && penaltyWeight >= 0.0 && refundWeight + penaltyWeight > 0.0 && legs.work >= 0))
    ensures outcome != Done ==> ledger.entries == old(ledger.entries)
  {
    hide Balance, IntelPostings, S.IsSplit, S.Total;
    WeightsOfTwo(refundWeight, penaltyWeight);
    var already := HasRecord(ledger, IntelSettled(sha));
    if already {
      return Refused(AlreadySettled);
    }
    var bal := ledger.FoldBalances();
    var funded := Get(bal, EscrowFor(sha), legs.currency);
    if funded < legs.Total() {
      return Refused(Unfunded);
    }
    var ws := [refundWeight, penaltyWeight];
    var refund, penalty := 0, 0;
    if !pass {
      var parts := S.Split(legs.work, ws);
      if parts.None? {
        return Raised;
      }
      PartsOfTwo(legs.work, ws, parts.value);
      if legs.work >= 0 {
        PartsNonNegative(legs.work, ws, parts.value, 0);
        PartsNonNegative(legs.work, ws, parts.value, 1);
      }
      refund, penalty := parts.value[0], parts.value[1];
    }
    IntelBalances(sha, legs, p, funded, pass, refund, penalty);
    var postings := IntelPostings(sha, legs, p, funded, pass, refund, penalty);
    var posted := ledger.Post(postings, IntelSettled(sha));
    if !posted {
      return Raised;
    }
    assert IsIntel(sha, legs, p, funded, pass, ws, Record(postings, IntelSettled(sha)));
    return Done;
  }
}
