/** The double-entry reward ledger: posting sets, their balance, and the fold over the chain. */
module RewardLedger {
  import opened Accounts

  /** A signed amount in whole units of 0.0001. */
  datatype Posting = Posting(account: Account, amount: int, currency: string)

  datatype Record = Record(postings: seq<Posting>, memo: Memo)

  // ---- sums ------------------------------------------------------------------------------------

  /** The sum of a posting set in one currency. */
  function Net(postings: seq<Posting>, cur: string): int {
    if postings == [] then 0
    else
      var last := postings[|postings| - 1];
      Net(postings[..|postings| - 1], cur) + if last.currency == cur then last.amount else 0
  }

  ghost predicate Balanced(postings: seq<Posting>) {
    forall cur :: Net(postings, cur) == 0
  }

  /** What a posting set does to one account in one currency. */
  function Effect(postings: seq<Posting>, a: Account, cur: string): int {
    if postings == [] then 0
    else
      var last := postings[|postings| - 1];
      Effect(postings[..|postings| - 1], a, cur) + if last.account == a && last.currency == cur then last.amount else 0
  }

  function Balance(entries: seq<Record>, a: Account, cur: string): int {
    if entries == [] then 0
    else Balance(entries[..|entries| - 1], a, cur) + Effect(entries[|entries| - 1].postings, a, cur)
  }

  lemma NetAppends(ps: seq<Posting>, p: Posting, cur: string)
    ensures Net(ps + [p], cur) == Net(ps, cur) + if p.currency == cur then p.amount else 0
  {
    assert (ps + [p])[..|ps|] == ps;
  }

  lemma EffectAppends(ps: seq<Posting>, p: Posting, a: Account, cur: string)
    ensures Effect(ps + [p], a, cur) == Effect(ps, a, cur) + if p.account == a && p.currency == cur then p.amount else 0
  {
    assert (ps + [p])[..|ps|] == ps;
  }

  lemma BalanceAppends(entries: seq<Record>, r: Record, a: Account, cur: string)
    ensures Balance(entries + [r], a, cur) == Balance(entries, a, cur) + Effect(r.postings, a, cur)
  {
    assert (entries + [r])[..|entries|] == entries;
  }

  /** What one posting does to an account. */
  function One(p: Posting, a: Account, cur: string): int {
    if p.account == a && p.currency == cur then p.amount else 0
  }

  lemma {:induction false} SumsConcat(ps: seq<Posting>, qs: seq<Posting>, a: Account, cur: string)
    ensures Effect(ps + qs, a, cur) == Effect(ps, a, cur) + Effect(qs, a, cur)
    ensures Net(ps + qs, cur) == Net(ps, cur) + Net(qs, cur)
  {
    if qs == [] {
      assert ps + qs == ps;
    } else {
      var n := |qs| - 1;
      assert (ps + qs)[..|ps + qs| - 1] == ps + qs[..n];
      SumsConcat(ps, qs[..n], a, cur);
    }
  }

  lemma SumsOne(p: Posting, a: Account, cur: string)
    ensures Effect([p], a, cur) == One(p, a, cur)
    ensures Net([p], cur) == if p.currency == cur then p.amount else 0
  {
    assert [p][..0] == [];
  }

  lemma SumsTwo(p: Posting, q: Posting, a: Account, cur: string)
    ensures Effect([p, q], a, cur) == One(p, a, cur) + One(q, a, cur)
    ensures Net([p, q], cur) == (if p.currency == cur then p.amount else 0) + if q.currency == cur then q.amount else 0
  {
    assert [p, q] == [p] + [q];
    SumsConcat([p], [q], a, cur);
    SumsOne(p, a, cur);
    SumsOne(q, a, cur);
  }

  /** Postings to parties touch no other account. */
  lemma {:induction false} PartiesOnly(ps: seq<Posting>, a: Account, cur: string)
    requires !a.Party? && forall p | p in ps :: p.account.Party?
    ensures Effect(ps, a, cur) == 0
  {
    if ps != [] {
      var n := |ps| - 1;
      assert ps[n] in ps && forall p | p in ps[..n] :: p in ps;
      PartiesOnly(ps[..n], a, cur);
    }
  }

  ghost predicate HasMemo(entries: seq<Record>, m: Memo) {
    exists r :: r in entries && r.memo == m
  }

  // ---- the ledger ------------------------------------------------------------------------------

  method IsBalanced(postings: seq<Posting>) returns (balanced: bool)
    ensures balanced <==> Balanced(postings)
  {
    var byCur: map<string, int> := map[];
    for i := 0 to |postings|
      invariant forall c :: Net(postings[..i], c) == if c in byCur then byCur[c] else 0
    {
      var p := postings[i];
      assert postings[..i + 1] == postings[..i] + [p];
      forall c ensures Net(postings[..i + 1], c) == Net(postings[..i], c) + if p.currency == c then p.amount else 0 {
        NetAppends(postings[..i], p, c);
      }
      byCur := byCur[p.currency := (if p.currency in byCur then byCur[p.currency] else 0) + p.amount];
    }
    assert postings[..|postings|] == postings;
    balanced := forall c | c in byCur :: byCur[c] == 0;
  }

  type Balances = map<(Account, string), int>

  function Get(bal: Balances, a: Account, cur: string): int {
    if (a, cur) in bal then bal[(a, cur)] else 0
  }

  method AddPostings(bal0: Balances, postings: seq<Posting>) returns (bal: Balances)
    ensures forall a, c :: Get(bal, a, c) == Get(bal0, a, c) + Effect(postings, a, c)
  {
    hide Effect;
    bal := bal0;
    NoEffect();
    for i := 0 to |postings|
      invariant forall a, c :: Get(bal, a, c) == Get(bal0, a, c) + Effect(postings[..i], a, c)
    {
      var p := postings[i];
      assert postings[..i + 1] == postings[..i] + [p];
      forall a, c ensures Effect(postings[..i + 1], a, c)
                       == Effect(postings[..i], a, c) + if p.account == a && p.currency == c then p.amount else 0 {
        EffectAppends(postings[..i], p, a, c);
      }
      var k := (p.account, p.currency);
      bal := bal[k := (if k in bal then bal[k] else 0) + p.amount];
    }
    assert postings[..|postings|] == postings;
  }

  lemma NoEffect()
    ensures forall a, c :: Effect([], a, c) == 0
  {
  }

  /** An append-only list of posting sets behind the genesis record. */
  class RewardLedger {
    var entries: seq<Record>

    constructor ()
      ensures entries == []
    {
      entries := [];
    }

    /** Refuses what does not balance, and writes nothing then. */
    method Post(postings: seq<Posting>, memo: Memo) returns (posted: bool)
      modifies this
      ensures posted <==> Balanced(postings)
      ensures entries == if posted then old(entries) + [Record(postings, memo)] else old(entries)
    {
      posted := IsBalanced(postings);
      if posted {
        entries := entries + [Record(postings, memo)];
      }
    }

    method FoldBalances() returns (bal: Balances)
      ensures forall a, c :: Get(bal, a, c) == Balance(entries, a, c)
    {
      hide Effect;
      bal := map[];
      for i := 0 to |entries|
        invariant forall a, c :: Get(bal, a, c) == Balance(entries[..i], a, c)
      {
        assert entries[..i + 1] == entries[..i] + [entries[i]];
        forall a, c ensures Balance(entries[..i + 1], a, c) == Balance(entries[..i], a, c) + Effect(entries[i].postings, a, c) {
          BalanceAppends(entries[..i], entries[i], a, c);
        }
        bal := AddPostings(bal, entries[i].postings);
      }
      assert entries[..|entries|] == entries;
    }
  }

  // ---- conservation ----------------------------------------------------------------------------

  ghost predicate AllBalanced(entries: seq<Record>) {
    forall r | r in entries :: Balanced(r.postings)
  }

  /** The sum over a set of accounts. */
  ghost function Wealth(entries: seq<Record>, accounts: set<Account>, cur: string): int
    decreases |accounts|
  {
    if accounts == {} then 0
    else
      var a :| a in accounts;
      Balance(entries, a, cur) + Wealth(entries, accounts - {a}, cur)
  }

  ghost function Touched(postings: seq<Posting>): set<Account> {
    set p | p in postings :: p.account
  }

  ghost function EffectOn(postings: seq<Posting>, accounts: set<Account>, cur: string): int {
    if postings == [] then 0
    else
      var last := postings[|postings| - 1];
      EffectOn(postings[..|postings| - 1], accounts, cur) + if last.account in accounts && last.currency == cur then last.amount else 0
  }

  lemma {:induction false} EffectOnGains(postings: seq<Posting>, accounts: set<Account>, a: Account, cur: string)
    requires a in accounts
    ensures EffectOn(postings, accounts, cur) == EffectOn(postings, accounts - {a}, cur) + Effect(postings, a, cur)
  {
    if postings != [] {
      EffectOnGains(postings[..|postings| - 1], accounts, a, cur);
    }
  }

  lemma {:induction false} EffectOnNone(postings: seq<Posting>, cur: string)
    ensures EffectOn(postings, {}, cur) == 0
  {
    if postings != [] {
      EffectOnNone(postings[..|postings| - 1], cur);
    }
  }

  lemma {:induction false} EffectOnAll(postings: seq<Posting>, accounts: set<Account>, cur: string)
    requires Touched(postings) <= accounts
    ensures EffectOn(postings, accounts, cur) == Net(postings, cur)
  {
    if postings != [] {
      var n := |postings| - 1;
      assert postings[n] in postings && postings[n].account in Touched(postings);
      assert Touched(postings[..n]) <= Touched(postings);
      EffectOnAll(postings[..n], accounts, cur);
    }
  }

  lemma {:induction false} WealthAppends(entries: seq<Record>, r: Record, accounts: set<Account>, cur: string)
    ensures Wealth(entries + [r], accounts, cur) == Wealth(entries, accounts, cur) + EffectOn(r.postings, accounts, cur)
    decreases |accounts|
  {
    if accounts == {} {
      EffectOnNone(r.postings, cur);
    } else {
      var a :| a in accounts && Wealth(entries, accounts, cur) == Balance(entries, a, cur) + Wealth(entries, accounts - {a}, cur);
      WealthTakesAny(entries + [r], accounts, a, cur);
      WealthAppends(entries, r, accounts - {a}, cur);
      BalanceAppends(entries, r, a, cur);
      EffectOnGains(r.postings, accounts, a, cur);
    }
  }

  lemma {:induction false} WealthTakesAny(entries: seq<Record>, accounts: set<Account>, a: Account, cur: string)
    requires a in accounts
    ensures Wealth(entries, accounts, cur) == Balance(entries, a, cur) + Wealth(entries, accounts - {a}, cur)
    decreases |accounts|
  {
    var b :| b in accounts && Wealth(entries, accounts, cur) == Balance(entries, b, cur) + Wealth(entries, accounts - {b}, cur);
    if a != b {
      WealthTakesAny(entries, accounts - {b}, a, cur);
      WealthTakesAny(entries, accounts - {a}, b, cur);
      assert accounts - {a} - {b} == accounts - {b} - {a};
    }
  }

  lemma {:induction false} NoWealth(accounts: set<Account>, cur: string)
    ensures Wealth([], accounts, cur) == 0
    decreases |accounts|
  {
    if accounts != {} {
      var a :| a in accounts && Wealth([], accounts, cur) == Balance([], a, cur) + Wealth([], accounts - {a}, cur);
      assert Balance([], a, cur) == 0;
      NoWealth(accounts - {a}, cur);
    }
  }

  /** While every posting set balances, the balances of all accounts add up to zero in every currency. */
  lemma {:induction false} GlobalZero(entries: seq<Record>, accounts: set<Account>, cur: string)
    requires AllBalanced(entries) && forall r | r in entries :: Touched(r.postings) <= accounts
    ensures Wealth(entries, accounts, cur) == 0
  {
    if entries == [] {
      NoWealth(accounts, cur);
    } else {
      var n := |entries| - 1;
      assert entries[n] in entries && forall r | r in entries[..n] :: r in entries;
      GlobalZero(entries[..n], accounts, cur);
      assert entries == entries[..n] + [entries[n]];
      WealthAppends(entries[..n], entries[n], accounts, cur);
      EffectOnAll(entries[n].postings, accounts, cur);
    }
  }
}
