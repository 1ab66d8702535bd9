/** Escrow expiry: fundings that carry a due time, the sweep that refunds them, and the audit for stale escrow. */
module Expiry {
  import opened Accounts
  import opened RewardLedger
  import opened Prelude
  import opened Settlement

  const USD := "USD"

  datatype Funding = Funding(expires: int, funder: string)

  function FundExpiringRecord(funder: string, amount: int, cur: string, key: string, expires: int): Record {
    Record(Transfer(Party(funder), EscrowFor(key), amount, cur), Funded(key, expires, funder))
  }

  method FundWithExpiry(ledger: RewardLedger, funder: string, amount: int, cur: string, key: string, expires: int)
    modifies ledger
    ensures ledger.entries == old(ledger.entries) + [FundExpiringRecord(funder, amount, cur, key, expires)]
  {
    TransferBalanced(Party(funder), EscrowFor(key), amount, cur);
    var _ := ledger.Post(Transfer(Party(funder), EscrowFor(key), amount, cur), Funded(key, expires, funder));
  }

  // ---- what the sweep reads --------------------------------------------------------------------

  /** The last funding of a key wins. */
  function LastFunding(entries: seq<Record>, key: string): Option<Funding> {
    if entries == [] then None
    else
      var n := |entries| - 1;
      match entries[n].memo
      case Funded(k, expires, funder) => if k == key then Some(Funding(expires, funder)) else LastFunding(entries[..n], key)
      case _ => LastFunding(entries[..n], key)
  }

  ghost predicate Drained(entries: seq<Record>, key: string) {
    HasMemo(entries, Settled(key)) || HasMemo(entries, Refunded(key))
  }

  ghost function HeldFor(entries: seq<Record>, key: string): int {
    Balance(entries, EscrowFor(key), USD)
  }

  ghost predicate Due(entries: seq<Record>, key: string, now: int) {
    && LastFunding(entries, key).Some? && LastFunding(entries, key).value.expires <= now
    && !Drained(entries, key) && HeldFor(entries, key) != 0
  }

  ghost predicate Stale(entries: seq<Record>, key: string, now: int, bound: int) {
    && LastFunding(entries, key).Some? && now >= LastFunding(entries, key).value.expires + bound
    && !Drained(entries, key) && HeldFor(entries, key) != 0
  }

  /** The dictionary of fundings, and its keys in insertion order. */
  method Fundings(ledger: RewardLedger) returns (out: map<string, Funding>, keys: seq<string>)
    ensures Distinct(keys) && forall k :: k in keys <==> k in out
    ensures forall k :: LastFunding(ledger.entries, k) == if k in out then Some(out[k]) else None
  {
    out, keys := map[], [];
    for i := 0 to |ledger.entries|
      invariant Distinct(keys) && forall k :: k in keys <==> k in out
      invariant forall k :: LastFunding(ledger.entries[..i], k) == if k in out then Some(out[k]) else None
    {
      assert ledger.entries[..i + 1][..i] == ledger.entries[..i];
      match ledger.entries[i].memo {
        case Funded(key, expires, funder) =>
          if key !in out {
            keys := keys + [key];
          }
          out := out[key := Funding(expires, funder)];
        case _ =>
      }
    }
    assert ledger.entries[..|ledger.entries|] == ledger.entries;
  }

  method SettledOrRefunded(ledger: RewardLedger) returns (done: set<string>)
    ensures forall key :: key in done <==> Drained(ledger.entries, key)
  {
    done := {};
    for i := 0 to |ledger.entries|
      invariant forall key :: key in done <==> Drained(ledger.entries[..i], key)
    {
      assert ledger.entries[..i + 1] == ledger.entries[..i] + [ledger.entries[i]];
      match ledger.entries[i].memo {
        case Settled(sha) => done := done + {sha};
        case Refunded(key) => done := done + {key};
        case _ =>
      }
    }
    assert ledger.entries[..|ledger.entries|] == ledger.entries;
  }

  // ---- sorted keys -----------------------------------------------------------------------------

  ghost predicate Distinct(keys: seq<string>) {
    forall i, j | 0 <= i < j < |keys| :: keys[i] != keys[j]
  }

  predicate Less(s: string, t: string) {
    t != "" && (s == "" || s[0] < t[0] || (s[0] == t[0] && Less(s[1..], t[1..])))
  }

  /** The first place at which they differ decides; a proper prefix comes first. */
  ghost predicate DifferAt(s: string, t: string, i: nat) {
    i <= |s| && i < |t| && s[..i] == t[..i] && (i == |s| || s[i] < t[i])
  }

  lemma {:induction false} LessMeans(s: string, t: string)
    ensures Less(s, t) <==> exists i: nat :: DifferAt(s, t, i)
  {
    if s != "" && t != "" && s[0] == t[0] {
      LessMeans(s[1..], t[1..]);
      forall i: nat | DifferAt(s[1..], t[1..], i) ensures DifferAt(s, t, i + 1) {
        assert s[..i + 1] == [s[0]] + s[1..][..i] && t[..i + 1] == [t[0]] + t[1..][..i];
      }
      forall i: nat | i > 0 && DifferAt(s, t, i) ensures DifferAt(s[1..], t[1..], i - 1) {
        assert s[1..][..i - 1] == s[..i][1..] && t[1..][..i - 1] == t[..i][1..];
      }
    } else if t != "" {
      if s == "" || s[0] < t[0] {
        assert DifferAt(s, t, 0);
      }
      forall i: nat | i > 0 && s != "" && s[0] != t[0] && i <= |s| && i <= |t| ensures s[..i] != t[..i] {
        assert s[..i][0] == s[0] && t[..i][0] == t[0];
      }
    }
  }

  lemma {:induction false} LessTotal(s: string, t: string)
    ensures s == t || Less(s, t) || Less(t, s)
  {
    if s != "" && t != "" && s[0] == t[0] {
      LessTotal(s[1..], t[1..]);
      assert s == [s[0]] + s[1..] && t == [t[0]] + t[1..];
    }
  }

  lemma {:induction false} LessTransitive(s: string, t: string, u: string)
    requires Less(s, t) && Less(t, u)
    ensures Less(s, u)
  {
    if s != "" && s[0] == t[0] == u[0] {
      LessTransitive(s[1..], t[1..], u[1..]);
    }
  }

  ghost predicate Ascending(keys: seq<string>) {
    forall i, j | 0 <= i < j < |keys| :: Less(keys[i], keys[j])
  }

  function InsertKey(key: string, keys: seq<string>): seq<string> {
    if keys == [] || Less(key, keys[0]) then [key] + keys else [keys[0]] + InsertKey(key, keys[1..])
  }

  function SortKeys(keys: seq<string>): seq<string> {
    if keys == [] then [] else InsertKey(keys[0], SortKeys(keys[1..]))
  }

  lemma {:induction false} InsertKeeps(key: string, keys: seq<string>)
    requires Ascending(keys) && key !in keys
    ensures Ascending(InsertKey(key, keys)) && forall k :: k in InsertKey(key, keys) <==> k == key || k in keys
  {
    hide Less;
    if keys == [] {
    } else if Less(key, keys[0]) {
      forall k | k in keys ensures Less(key, k) {
        if k != keys[0] {
          LessTransitive(key, keys[0], k);
        }
      }
    } else {
      var rest := keys[1..];
      assert forall k :: k in keys <==> k == keys[0] || k in rest;
      InsertKeeps(key, rest);
      LessTotal(key, keys[0]);
      forall k | k in InsertKey(key, rest) ensures Less(keys[0], k) {
      }
    }
  }

  lemma {:induction false} SortKeeps(keys: seq<string>)
    requires Distinct(keys)
    ensures Ascending(SortKeys(keys)) && forall k :: k in SortKeys(keys) <==> k in keys
  {
    if keys != [] {
      SortKeeps(keys[1..]);
      assert forall k :: k in keys <==> k == keys[0] || k in keys[1..];
      InsertKeeps(keys[0], SortKeys(keys[1..]));
    }
  }

  // ---- the sweep -------------------------------------------------------------------------------

  ghost function RefundRecord(entries: seq<Record>, key: string): Record
    requires LastFunding(entries, key).Some?
  {
    Record(Transfer(EscrowFor(key), Party(LastFunding(entries, key).value.funder), HeldFor(entries, key), USD), Refunded(key))
  }

  ghost function RefundRecords(entries: seq<Record>, keys: seq<string>): seq<Record>
    requires forall k | k in keys :: LastFunding(entries, k).Some?
  {
    if keys == [] then []
    else
      var n := |keys| - 1;
      assert forall k | k in keys[..n] :: k in keys;
      RefundRecords(entries, keys[..n]) + [RefundRecord(entries, keys[n])]
  }

  /** Every due key, in ascending order, is refunded what its escrow held before the sweep. */
  ghost predicate SweepStep(entries: seq<Record>, now: int, refunded: seq<string>, after: seq<Record>) {
    && Ascending(refunded) && (forall key :: key in refunded <==> Due(entries, key, now))
    && after == entries + RefundRecords(entries, refunded)
  }

  method SweepExpired(ledger: RewardLedger, now: int) returns (refunded: seq<string>)
    modifies ledger
    ensures SweepStep(old(ledger.entries), now, refunded, ledger.entries)
  {
    hide Balance, LastFunding, Drained, Transfer, Less;
    ghost var before := ledger.entries;
    var done := SettledOrRefunded(ledger);
    var bal := ledger.FoldBalances();
    var fundings, keys := Fundings(ledger);
    SortKeeps(keys);
    var sorted := SortKeys(keys);
    refunded := [];
    assert RefundRecords(before, []) == [] && before + [] == before;
    for i := 0 to |sorted|
      invariant forall key :: key in refunded <==> key in sorted[..i] && Due(before, key, now)
      invariant Ascending(refunded)
      invariant ledger.entries == before + RefundRecords(before, refunded)
    {
      var key := sorted[i];
      assert sorted[..i + 1] == sorted[..i] + [key] && key in sorted;
      if key in done || fundings[key].expires > now {
        continue;
      }
      var held := Get(bal, EscrowFor(key), USD);
      if held == 0 {
        continue;
      }
      var funder := fundings[key].funder;
      TransferBalanced(EscrowFor(key), Party(funder), held, USD);
      var _ := ledger.Post(Transfer(EscrowFor(key), Party(funder), held, USD), Refunded(key));
      RefundsGrow(before, refunded, key);
      AscendingGrows(sorted, i, refunded);
      refunded := refunded + [key];
    }
    assert sorted[..|sorted|] == sorted;
  }

  lemma RefundsGrow(entries: seq<Record>, keys: seq<string>, key: string)
    requires LastFunding(entries, key).Some? && forall k | k in keys :: LastFunding(entries, k).Some?
    ensures RefundRecords(entries, keys + [key]) == RefundRecords(entries, keys) + [RefundRecord(entries, key)]
    ensures entries + RefundRecords(entries, keys + [key]) == entries + RefundRecords(entries, keys) + [RefundRecord(entries, key)]
  {
    assert (keys + [key])[..|keys|] == keys;
  }

  lemma AscendingGrows(sorted: seq<string>, i: nat, refunded: seq<string>)
    requires i < |sorted| && Ascending(sorted) && Ascending(refunded) && forall k | k in refunded :: k in sorted[..i]
    ensures Ascending(refunded + [sorted[i]])
  {
    hide Less;
    forall j | 0 <= j < |refunded| ensures Less(refunded[j], sorted[i]) {
      assert refunded[j] in refunded;
    }
  }

  method StaleEscrowKeys(ledger: RewardLedger, now: int, bound: int) returns (stale: seq<string>)
    ensures Ascending(stale) && forall key :: key in stale <==> Stale(ledger.entries, key, now, bound)
  {
    hide Balance, LastFunding, Drained;
    var done := SettledOrRefunded(ledger);
    var bal := ledger.FoldBalances();
    var fundings, keys := Fundings(ledger);
    stale := [];
    for i := 0 to |keys|
      invariant Distinct(stale) && forall key :: key in stale <==> key in keys[..i] && Stale(ledger.entries, key, now, bound)
    {
      var key := keys[i];
      assert keys[..i + 1] == keys[..i] + [key] && key in keys;
      assert key !in keys[..i];
      if key in done || now < fundings[key].expires + bound {
        continue;
      }
      if Get(bal, EscrowFor(key), USD) != 0 {
        stale := stale + [key];
      }
    }
    assert keys[..|keys|] == keys;
    SortKeeps(stale);
    stale := SortKeys(stale);
  }
}
