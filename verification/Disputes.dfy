/** The dispute lifecycle: bond, quorum of arbiters, resolution, and release of the holdback. */
module Disputes {
  import opened Accounts
  import opened RewardLedger
  import opened Prelude
  import opened Settlement
  import Graph

  // ---- the quorum ------------------------------------------------------------------------------

  /** An arbiter's claim, and the assertion that should prove it. */
  datatype Approval = Approval(arbiter: string, assertion: string)

  /** Whether an assertion over the resolution document verifies under a key. */
  type Check = (string, string) -> bool

  ghost predicate Votes(a: Approval, arbiters: map<string, string>, verify: Check, key: string) {
    a.arbiter in arbiters && arbiters[a.arbiter] == key && verify(key, a.assertion)
  }

  /** The registered keys that have a verifying approval. */
  ghost function Voters(approvals: seq<Approval>, arbiters: map<string, string>, verify: Check): set<string> {
    set a | a in approvals && a.arbiter in arbiters && verify(arbiters[a.arbiter], a.assertion) :: arbiters[a.arbiter]
  }

  lemma VotersGrow(approvals: seq<Approval>, a: Approval, arbiters: map<string, string>, verify: Check)
    ensures Voters(approvals + [a], arbiters, verify)
         == Voters(approvals, arbiters, verify)
          + if a.arbiter in arbiters && verify(arbiters[a.arbiter], a.assertion) then {arbiters[a.arbiter]} else {}
  {
  }

  /** One vote for each key: neither the order, nor repetition, nor two names for one key change the count. */
  method CountApprovals(approvals: seq<Approval>, arbiters: map<string, string>, verify: Check) returns (count: nat)
    ensures count == |Voters(approvals, arbiters, verify)|
  {
    hide Voters;
    var seenIds: set<string>, seenKeys: set<string> := {}, {};
    assert Voters([], arbiters, verify) == {} by { NoVoters(arbiters, verify); }
    for i := 0 to |approvals|
      invariant seenKeys == Voters(approvals[..i], arbiters, verify)
      invariant |seenIds| == |seenKeys|
      invariant forall id | id in seenIds :: id in arbiters && arbiters[id] in seenKeys
    {
      var a := approvals[i];
      assert approvals[..i + 1] == approvals[..i] + [a];
      VotersGrow(approvals[..i], a, arbiters, verify);
      if a.arbiter in seenIds || a.arbiter !in arbiters {
        continue;
      }
      var key := arbiters[a.arbiter];
      if key in seenKeys {
        continue;
      }
      if verify(key, a.assertion) {
        seenIds := seenIds + {a.arbiter};
        seenKeys := seenKeys + {key};
      }
    }
    assert approvals[..|approvals|] == approvals;
    count := |seenIds|;
  }

  lemma NoVoters(arbiters: map<string, string>, verify: Check)
    ensures Voters([], arbiters, verify) == {}
  {
  }

  /** A key counts exactly if some approval names an arbiter registered under it and verifies. */
  lemma VotersAre(approvals: seq<Approval>, arbiters: map<string, string>, verify: Check, key: string)
    ensures key in Voters(approvals, arbiters, verify) <==>
              exists a :: a in approvals && a.arbiter in arbiters && arbiters[a.arbiter] == key && verify(key, a.assertion)
  {
  }

  /** Whoever can sign under n registered keys can raise at most n votes, with any number of approvals. */
  lemma QuorumNeedsKeys(approvals: seq<Approval>, arbiters: map<string, string>, verify: Check, held: set<string>)
    requires forall a, key | a in approvals && Votes(a, arbiters, verify, key) :: key in held
    ensures |Voters(approvals, arbiters, verify)| <= |held * arbiters.Values|
  {
    forall key | key in Voters(approvals, arbiters, verify) ensures key in held * arbiters.Values {
      var a :| a in approvals && a.arbiter in arbiters && verify(arbiters[a.arbiter], a.assertion) && key == arbiters[a.arbiter];
      assert Votes(a, arbiters, verify, key);
    }
    Graph.SubsetSize(Voters(approvals, arbiters, verify), held * arbiters.Values);
  }

  // ---- the lifecycle ---------------------------------------------------------------------------

  function OpenRecord(disputer: string, sha: string, bond: int, cur: string): Record {
    Record(Transfer(Party(disputer), BondFor(sha), bond, cur), Other("dispute-open:" + Cut(sha, 16)))
  }

  method OpenDispute(ledger: RewardLedger, disputer: string, sha: string, bond: int, cur: string)
    modifies ledger
    ensures ledger.entries == old(ledger.entries) + [OpenRecord(disputer, sha, bond, cur)]
  {
    TransferBalanced(Party(disputer), BondFor(sha), bond, cur);
    var _ := ledger.Post(Transfer(Party(disputer), BondFor(sha), bond, cur), Other("dispute-open:" + Cut(sha, 16)));
  }

  datatype Resolution = Resolution(outcome: string, currency: Option<string>)

  datatype Case = Case(payee: string, disputer: string, sha: string)

  /** Upheld: holdback and bond go to the disputer. Rejected: the bond goes to the payee. */
  ghost function ResolveRecord(entries: seq<Record>, doc: Resolution, c: Case): Record {
    var cur := doc.currency.GetOr("USD");
    var bond := Balance(entries, BondFor(c.sha), cur);
    var held := Balance(entries, HoldFor(c.sha), cur);
    Record(if doc.outcome == "upheld"
             then Transfer(HoldFor(c.sha), Party(c.disputer), held, cur) + Transfer(BondFor(c.sha), Party(c.disputer), bond, cur)
             else Transfer(BondFor(c.sha), Party(c.payee), bond, cur),
           Other("dispute-resolve:" + doc.outcome + ":" + Cut(c.sha, 16)))
  }

  function Loser(doc: Resolution, c: Case): string {
    if doc.outcome == "upheld" then c.payee else c.disputer
  }

  function Rating(reputation: map<string, int>, name: string): int {
    if name in reputation then reputation[name] else 0
  }

  ghost function ResolveRefusal(doc: Resolution, votes: nat, m: int): Option<Reason> {
    if m < 2 then Some(QuorumTooSmall)
    else if votes < m then Some(InsufficientApprovals)
    else if doc.outcome != "upheld" && doc.outcome != "rejected" then Some(InvalidOutcome)
    else None
  }

  /** A record is posted, and a rating lost, exactly when the quorum stands behind a valid outcome. */
  ghost predicate ResolveStep(entries: seq<Record>, doc: Resolution, votes: nat, m: int, c: Case, reputation: map<string, int>,
                              outcome: Outcome, after: seq<Record>, reputation': map<string, int>)
  {
    match ResolveRefusal(doc, votes, m)
    case Some(reason) => outcome == Refused(reason) && after == entries && reputation' == reputation
    case None =>
      && outcome == Done && after == entries + [ResolveRecord(entries, doc, c)]
      && reputation' == reputation[Loser(doc, c) := Rating(reputation, Loser(doc, c)) - 1]
  }

  lemma ResolveSums(entries: seq<Record>, doc: Resolution, c: Case, a: Account, cur: string)
    ensures Net(ResolveRecord(entries, doc, c).postings, cur) == 0
    ensures !a.Party? ==> (Effect(ResolveRecord(entries, doc, c).postings, a, cur)
      == if cur == doc.currency.GetOr("USD") && (a == BondFor(c.sha) || (a == HoldFor(c.sha) && doc.outcome == "upheld"))
         then -Balance(entries, a, cur) else 0)
  {
    hide Balance, Net, Effect, Transfer;
    var cur0 := doc.currency.GetOr("USD");
    var bond := Balance(entries, BondFor(c.sha), cur0);
    var held := Balance(entries, HoldFor(c.sha), cur0);
    var claw, back := Transfer(HoldFor(c.sha), Party(c.disputer), held, cur0), Transfer(BondFor(c.sha), Party(c.disputer), bond, cur0);
    TransferSums(HoldFor(c.sha), Party(c.disputer), held, cur0, a, cur);
    TransferSums(BondFor(c.sha), Party(c.disputer), bond, cur0, a, cur);
    TransferSums(BondFor(c.sha), Party(c.payee), bond, cur0, a, cur);
    SumsConcat(claw, back, a, cur);
  }

  method Resolve(ledger: RewardLedger, doc: Resolution, approvals: seq<Approval>, m: int, c: Case, reputation: map<string, int>,
                 arbiters: map<string, string>, verify: Check) returns (outcome: Outcome, reputation': map<string, int>)
    modifies ledger
    ensures ResolveStep(old(ledger.entries), doc, |Voters(approvals, arbiters, verify)|, m, c, reputation,
                        outcome, ledger.entries, reputation')
    ensures outcome == Done <==>
              m >= 2 && |Voters(approvals, arbiters, verify)| >= m && (doc.outcome == "upheld" || doc.outcome == "rejected")
    ensures outcome != Done ==> ledger.entries == old(ledger.entries) && reputation' == reputation
    ensures outcome == Done ==>
              var loser := if doc.outcome == "upheld" then c.payee else c.disputer;
              reputation' == reputation[loser := (if loser in reputation then reputation[loser] else 0) - 1]
  {
    hide Balance, Voters, Transfer;
    reputation' := reputation;
    if m < 2 {
      outcome := Refused(QuorumTooSmall);
      return;
    }
    var count := CountApprovals(approvals, arbiters, verify);
    if count < m {
      outcome := Refused(InsufficientApprovals);
      return;
    }
    var cur := doc.currency.GetOr("USD");
    var bal := ledger.FoldBalances();
    var bond := Get(bal, BondFor(c.sha), cur);
    var held := Get(bal, HoldFor(c.sha), cur);
    if doc.outcome != "upheld" && doc.outcome != "rejected" {
      outcome := Refused(InvalidOutcome);
      return;
    }
    var postings;
    if doc.outcome == "upheld" {
      postings := Transfer(HoldFor(c.sha), Party(c.disputer), held, cur) + Transfer(BondFor(c.sha), Party(c.disputer), bond, cur);
      reputation' := reputation[c.payee := Rating(reputation, c.payee) - 1];
    } else {
      postings := Transfer(BondFor(c.sha), Party(c.payee), bond, cur);
      reputation' := reputation[c.disputer := Rating(reputation, c.disputer) - 1];
    }
    assert postings == ResolveRecord(ledger.entries, doc, c).postings;
    forall x ensures Net(postings, x) == 0 {
      ResolveSums(ledger.entries, doc, c, Party(""), x);
    }
    var _ := ledger.Post(postings, Other("dispute-resolve:" + doc.outcome + ":" + Cut(c.sha, 16)));
    outcome := Done;
  }

  ghost function ReleaseRecord(entries: seq<Record>, sha: string, cur: string): Record {
    Record(Transfer(HoldFor(sha), Party("payee"), Balance(entries, HoldFor(sha), cur), cur), Other("release-hold:" + Cut(sha, 16)))
  }

  method ReleaseHoldback(ledger: RewardLedger, sha: string, cur: string) returns (released: int)
    modifies ledger
    ensures released == Balance(old(ledger.entries), HoldFor(sha), cur)
    ensures ledger.entries == old(ledger.entries) + [ReleaseRecord(old(ledger.entries), sha, cur)]
  {
    hide Balance, Transfer;
    var bal := ledger.FoldBalances();
    released := Get(bal, HoldFor(sha), cur);
    TransferBalanced(HoldFor(sha), Party("payee"), released, cur);
    var _ := ledger.Post(Transfer(HoldFor(sha), Party("payee"), released, cur), Other("release-hold:" + Cut(sha, 16)));
  }
}
