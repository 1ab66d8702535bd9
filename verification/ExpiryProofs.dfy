/** What one sweep does to every account, and when it is exact. */
module ExpiryProofs {
  import opened Accounts
  import opened RewardLedger
  import opened Prelude
  import opened Settlement
  import opened Expiry

  ghost predicate AllFunded(entries: seq<Record>, keys: seq<string>) {
    forall k | k in keys :: LastFunding(entries, k).Some?
  }

  /** What the keys' refunds draw from one escrow account: the balance before the sweep, once for each key. */
  ghost function Drawn(entries: seq<Record>, keys: seq<string>, a: Account): int {
    if keys == [] then 0
    else
      var n := |keys| - 1;
      Drawn(entries, keys[..n], a) + if EscrowFor(keys[n]) == a then HeldFor(entries, keys[n]) else 0
  }

  /** What the keys' refunds owe to one funder. */
  ghost function Owed(entries: seq<Record>, keys: seq<string>, funder: string): int
    requires AllFunded(entries, keys)
  {
    if keys == [] then 0
    else
      var n := |keys| - 1;
      Owed(entries, keys[..n], funder) + if LastFunding(entries, keys[n]).value.funder == funder then HeldFor(entries, keys[n]) else 0
  }

  /** Escrow accounts lose what is drawn, funders gain what they are owed, and nothing else moves. */
  lemma {:induction false} RefundsMove(entries: seq<Record>, keys: seq<string>, a: Account, cur: string)
    requires AllFunded(entries, keys)
    ensures Balance(entries + RefundRecords(entries, keys), a, cur) == Balance(entries, a, cur)
         + if cur != USD then 0 else if a.Party? then Owed(entries, keys, a.name) else -Drawn(entries, keys, a)
  {
    hide LastFunding, Transfer, Balance, Effect;
    if keys == [] {
      assert entries + [] == entries;
    } else {
      var n := |keys| - 1;
      var r := RefundRecord(entries, keys[n]);
      assert AllFunded(entries, keys[..n]);
      RefundsMove(entries, keys[..n], a, cur);
      assert keys[..n] + [keys[n]] == keys;
      RefundsGrow(entries, keys[..n], keys[n]);
      BalanceAppends(entries + RefundRecords(entries, keys[..n]), r, a, cur);
      TransferSums(EscrowFor(keys[n]), Party(LastFunding(entries, keys[n]).value.funder), HeldFor(entries, keys[n]), USD, a, cur);
    }
  }

  lemma SweepMoves(entries: seq<Record>, now: int, refunded: seq<string>, after: seq<Record>, a: Account, cur: string)
    requires SweepStep(entries, now, refunded, after)
    ensures AllFunded(entries, refunded)
    ensures Balance(after, a, cur) == Balance(entries, a, cur)
         + if cur != USD then 0 else if a.Party? then Owed(entries, refunded, a.name) else -Drawn(entries, refunded, a)
  {
    RefundsMove(entries, refunded, a, cur);
  }

  /** Refunds are no fundings: what a key was funded with stays what it was. */
  lemma {:induction false} FundingKept(entries: seq<Record>, keys: seq<string>, key: string)
    requires AllFunded(entries, keys)
    ensures LastFunding(entries + RefundRecords(entries, keys), key) == LastFunding(entries, key)
  {
    hide Transfer, HeldFor;
    if keys == [] {
      assert entries + [] == entries;
    } else {
      var n := |keys| - 1;
      assert AllFunded(entries, keys[..n]);
      FundingKept(entries, keys[..n], key);
      assert keys[..n] + [keys[n]] == keys;
      RefundsGrow(entries, keys[..n], keys[n]);
      var before := entries + RefundRecords(entries, keys[..n]);
      assert (before + [RefundRecord(entries, keys[n])])[..|before|] == before;
    }
  }

  lemma {:induction false} RefundMemo(entries: seq<Record>, keys: seq<string>, key: string)
    requires AllFunded(entries, keys) && key in keys
    ensures HasMemo(RefundRecords(entries, keys), Refunded(key))
  {
    hide Transfer, HeldFor;
    var n := |keys| - 1;
    var r := RefundRecord(entries, keys[n]);
    if key == keys[n] {
      assert r in RefundRecords(entries, keys);
    } else {
      assert AllFunded(entries, keys[..n]);
      assert keys == keys[..n] + [keys[n]];
      RefundMemo(entries, keys[..n], key);
      var x :| x in RefundRecords(entries, keys[..n]) && x.memo == Refunded(key);
      assert x in RefundRecords(entries, keys);
    }
  }

  lemma {:induction false} NothingDrawn(entries: seq<Record>, keys: seq<string>, a: Account)
    requires Balance(entries, a, USD) == 0 || forall k | k in keys :: EscrowFor(k) != a
    ensures Drawn(entries, keys, a) == 0
  {
    if keys != [] {
      NothingDrawn(entries, keys[..|keys| - 1], a);
      assert keys[|keys| - 1] in keys;
    }
  }

  /** After a sweep the audit is clean, for every bound. */
  lemma SweepLeavesNothingStale(entries: seq<Record>, now: int, refunded: seq<string>, after: seq<Record>, key: string, bound: int)
    requires SweepStep(entries, now, refunded, after) && bound >= 0
    ensures !Stale(after, key, now, bound)
  {
    hide Balance, LastFunding, Ascending;
    assert AllFunded(entries, refunded);
    FundingKept(entries, refunded, key);
    var more := RefundRecords(entries, refunded);
    if Stale(after, key, now, bound) {
      MemosKept(entries, more, Settled(key));
      MemosKept(entries, more, Refunded(key));
      if key in refunded {
        RefundMemo(entries, refunded, key);
      } else {
        assert HeldFor(entries, key) == 0;
        SweepMoves(entries, now, refunded, after, EscrowFor(key), USD);
        NothingDrawn(entries, refunded, EscrowFor(key));
      }
    }
  }

  lemma MemosKept(entries: seq<Record>, more: seq<Record>, m: Memo)
    ensures HasMemo(entries + more, m) <==> HasMemo(entries, m) || HasMemo(more, m)
  {
    if HasMemo(entries, m) {
      var r :| r in entries && r.memo == m;
      assert r in entries + more;
    }
    if HasMemo(more, m) {
      var r :| r in more && r.memo == m;
      assert r in entries + more;
    }
  }

  /** A second sweep at the same time does nothing. */
  lemma SecondSweepIsIdle(entries: seq<Record>, now: int, refunded: seq<string>, after: seq<Record>,
                          again: seq<string>, last: seq<Record>)
    requires SweepStep(entries, now, refunded, after) && SweepStep(after, now, again, last)
    ensures again == [] && last == after
  {
    if again != [] {
      var key := again[0];
      assert key in again;
      SweepLeavesNothingStale(entries, now, refunded, after, key, 0);
    }
  }

  // ---- keys that share an account --------------------------------------------------------------

  ghost predicate OwnAccounts(keys: seq<string>) {
    forall i, j | 0 <= i < j < |keys| :: EscrowFor(keys[i]) != EscrowFor(keys[j])
  }

  lemma {:induction false} DrawnOnce(entries: seq<Record>, keys: seq<string>, a: Account)
    requires OwnAccounts(keys)
    ensures Drawn(entries, keys, a) == if exists k :: k in keys && EscrowFor(k) == a then Balance(entries, a, USD) else 0
  {
    if keys != [] {
      var n := |keys| - 1;
      assert OwnAccounts(keys[..n]);
      DrawnOnce(entries, keys[..n], a);
      assert keys == keys[..n] + [keys[n]] && keys[n] in keys;
      if EscrowFor(keys[n]) == a {
        NothingDrawn(entries, keys[..n], a);
      }
    }
  }

  lemma {:induction false} DrawnAtLeast(entries: seq<Record>, keys: seq<string>, a: Account)
    requires Balance(entries, a, USD) >= 0
    ensures Drawn(entries, keys, a) >= 0
    ensures (exists k :: k in keys && EscrowFor(k) == a) ==> Drawn(entries, keys, a) >= Balance(entries, a, USD)
  {
    if keys != [] {
      var n := |keys| - 1;
      DrawnAtLeast(entries, keys[..n], a);
      assert keys == keys[..n] + [keys[n]];
    }
  }

  lemma {:induction false} DrawnTwice(entries: seq<Record>, keys: seq<string>, i: nat, j: nat)
    requires i < j < |keys| && EscrowFor(keys[i]) == EscrowFor(keys[j]) && HeldFor(entries, keys[i]) >= 0
    ensures Drawn(entries, keys, EscrowFor(keys[i])) >= 2 * HeldFor(entries, keys[i])
  {
    var n := |keys| - 1;
    if j < n {
      DrawnTwice(entries, keys[..n], i, j);
    } else {
      assert keys[i] in keys[..n];
      DrawnAtLeast(entries, keys[..n], EscrowFor(keys[i]));
    }
  }

  ghost predicate NoEscrowNegative(entries: seq<Record>) {
    forall key :: HeldFor(entries, key) >= 0
  }

  /** No two keys that are due share an escrow account. */
  ghost predicate OneDuePerAccount(entries: seq<Record>, now: int) {
    forall k, l | Due(entries, k, now) && Due(entries, l, now) && EscrowFor(k) == EscrowFor(l) :: k == l
  }

  lemma {:induction false} NeverBelowItself(s: string)
    ensures !Less(s, s)
  {
    if s != "" {
      NeverBelowItself(s[1..]);
    }
  }

  lemma RefundedAreDue(entries: seq<Record>, now: int, refunded: seq<string>, after: seq<Record>)
    requires SweepStep(entries, now, refunded, after)
    ensures OwnAccounts(refunded) <==> OneDuePerAccount(entries, now)
  {
    hide Due, RefundRecords, Less;
    if OneDuePerAccount(entries, now) {
      forall i, j | 0 <= i < j < |refunded| ensures EscrowFor(refunded[i]) != EscrowFor(refunded[j]) {
        assert refunded[i] in refunded && refunded[j] in refunded;
        assert Less(refunded[i], refunded[j]);
        NeverBelowItself(refunded[i]);
      }
    }
    if OwnAccounts(refunded) {
      forall k, l | Due(entries, k, now) && Due(entries, l, now) && EscrowFor(k) == EscrowFor(l) ensures k == l {
        assert k in refunded && l in refunded;
        var i: nat :| i < |refunded| && refunded[i] == k;
        var j: nat :| j < |refunded| && refunded[j] == l;
        assert i < j || i == j || j < i;
      }
    }
  }

  /**
    Escrow accounts are named by the first 32 characters of the key, and the sweep refunds from the balances it read at
    the start. So it empties every refunded escrow, and keeps every escrow from going negative, exactly when no two
    keys that are due share those characters.
   */
  lemma SweepIsExact(entries: seq<Record>, now: int, refunded: seq<string>, after: seq<Record>)
    requires SweepStep(entries, now, refunded, after) && NoEscrowNegative(entries)
    ensures OneDuePerAccount(entries, now) <==> NoEscrowNegative(after)
    ensures OneDuePerAccount(entries, now) <==> forall key | key in refunded :: HeldFor(after, key) == 0
  {
    hide Balance, LastFunding, Drained, RefundRecords, Due;
    RefundedAreDue(entries, now, refunded, after);
    if OwnAccounts(refunded) {
      forall key ensures HeldFor(after, key) >= 0 && (key in refunded ==> HeldFor(after, key) == 0) {
        SweepMoves(entries, now, refunded, after, EscrowFor(key), USD);
        DrawnOnce(entries, refunded, EscrowFor(key));
        assert HeldFor(entries, key) >= 0;
      }
    } else {
      var key := SharedIsOverdrawn(entries, now, refunded, after);
    }
  }

  lemma SharedIsOverdrawn(entries: seq<Record>, now: int, refunded: seq<string>, after: seq<Record>) returns (key: string)
    requires SweepStep(entries, now, refunded, after) && NoEscrowNegative(entries) && !OwnAccounts(refunded)
    ensures key in refunded && HeldFor(after, key) < 0
  {
    hide Balance, LastFunding, Drained, RefundRecords;
    var i: nat, j: nat :| i < j < |refunded| && EscrowFor(refunded[i]) == EscrowFor(refunded[j]);
    key := refunded[i];
    assert key in refunded && HeldFor(entries, key) >= 0;
    SweepMoves(entries, now, refunded, after, EscrowFor(key), USD);
    DrawnTwice(entries, refunded, i, j);
  }

  /** Every account but the refunded escrows and their funders keeps its balance, and so does every other currency. */
  lemma SweepTouchesNoOther(entries: seq<Record>, now: int, refunded: seq<string>, after: seq<Record>, a: Account, cur: string)
    requires SweepStep(entries, now, refunded, after)
    requires cur != USD || forall key | key in refunded :: a != EscrowFor(key) && a != Party(LastFunding(entries, key).value.funder)
    ensures Balance(after, a, cur) == Balance(entries, a, cur)
  {
    hide Balance, LastFunding;
    SweepMoves(entries, now, refunded, after, a, cur);
    if cur == USD {
      if a.Party? {
        NothingOwed(entries, refunded, a.name);
      } else {
        NothingDrawn(entries, refunded, a);
      }
    }
  }

  lemma {:induction false} NothingOwed(entries: seq<Record>, keys: seq<string>, funder: string)
    requires AllFunded(entries, keys) && forall k | k in keys :: LastFunding(entries, k).value.funder != funder
    ensures Owed(entries, keys, funder) == 0
  {
    hide LastFunding;
    if keys != [] {
      assert AllFunded(entries, keys[..|keys| - 1]) && keys[|keys| - 1] in keys;
      NothingOwed(entries, keys[..|keys| - 1], funder);
    }
  }

  /** Two keys with the same 32 characters, funded 100 and 50 and both due: 150 is refunded twice. */
  lemma SharedEscrowIsRefundedTwice(now: int, refunded: seq<string>, after: seq<Record>)
    returns (entries: seq<Record>)
    ensures NoEscrowNegative(entries)
    ensures SweepStep(entries, now, refunded, after) ==> !NoEscrowNegative(after)
  {
    var k := seq(32, _ => 'k');
    var r1, r2 := FundExpiringRecord("u", 100, USD, k + "1", now), FundExpiringRecord("u", 50, USD, k + "2", now);
    entries := [r1, r2];
    assert Cut(k + "1", 32) == k == Cut(k + "2", 32);
    forall key ensures HeldFor(entries, key) == if EscrowFor(key) == Escrow(k) then 150 else 0 {
      assert [r1, r2] == [] + [r1] + [r2];
      BalanceAppends([] + [r1], r2, EscrowFor(key), USD);
      BalanceAppends([], r1, EscrowFor(key), USD);
      TransferSums(Party("u"), Escrow(k), 100, USD, EscrowFor(key), USD);
      TransferSums(Party("u"), Escrow(k), 50, USD, EscrowFor(key), USD);
    }
    if SweepStep(entries, now, refunded, after) {
      DueTogether(entries, k, r1, r2, now);
      assert EscrowFor(k + "1") == EscrowFor(k + "2") && (k + "1")[32] != (k + "2")[32];
      SweepIsExact(entries, now, refunded, after);
    }
  }

  lemma DueTogether(entries: seq<Record>, k: string, r1: Record, r2: Record, now: int)
    requires r1 == FundExpiringRecord("u", 100, USD, k + "1", now) && r2 == FundExpiringRecord("u", 50, USD, k + "2", now)
    requires entries == [r1, r2] && HeldFor(entries, k + "1") != 0 && HeldFor(entries, k + "2") != 0
    ensures Due(entries, k + "1", now) && Due(entries, k + "2", now)
  {
    hide HeldFor;
    assert (k + "1")[|k|] != (k + "2")[|k|];
    assert entries[..1] == [r1];
    assert LastFunding([r1], k + "1") == Some(Funding(now, "u"));
  }

  // ---- record by record ------------------------------------------------------------------------

  /** Record i is the last funding of the key. */
  ghost predicate FundedLast(entries: seq<Record>, i: nat, key: string, expires: int, funder: string) {
    && i < |entries| && entries[i].memo == Funded(key, expires, funder)
    && forall k | i < k < |entries| && entries[k].memo.Funded? :: entries[k].memo.key != key
  }

  lemma {:induction false} LastFundingIs(entries: seq<Record>, key: string, expires: int, funder: string)
    ensures LastFunding(entries, key) == Some(Funding(expires, funder)) <==> exists i: nat :: FundedLast(entries, i, key, expires, funder)
  {
    if entries != [] {
      var n := |entries| - 1;
      var init := entries[..n];
      LastFundingIs(init, key, expires, funder);
      if entries[n].memo.Funded? && entries[n].memo.key == key {
        assert entries[n].memo == Funded(key, expires, funder) ==> FundedLast(entries, n, key, expires, funder);
      } else {
        forall i: nat ensures FundedLast(entries, i, key, expires, funder) <==> FundedLast(init, i, key, expires, funder) {
          FundedStays(entries, i, key, expires, funder);
        }
      }
    }
  }

  lemma FundedStays(entries: seq<Record>, i: nat, key: string, expires: int, funder: string)
    requires entries != [] && (entries[|entries| - 1].memo.Funded? ==> entries[|entries| - 1].memo.key != key)
    ensures FundedLast(entries, i, key, expires, funder) <==> FundedLast(entries[..|entries| - 1], i, key, expires, funder)
  {
    var init := entries[..|entries| - 1];
    assert forall k | 0 <= k < |init| :: init[k] == entries[k];
  }

  /** The last funding of the key came to its time at the latest then. */
  ghost predicate RanOut(entries: seq<Record>, key: string, time: int) {
    exists i: nat, expires, funder :: FundedLast(entries, i, key, expires, funder) && expires <= time
  }

  lemma RanOutIs(entries: seq<Record>, key: string, time: int)
    ensures RanOut(entries, key, time) <==> LastFunding(entries, key).Some? && LastFunding(entries, key).value.expires <= time
  {
    hide LastFunding, FundedLast;
    var f := LastFunding(entries, key);
    if f.Some? && f.value.expires <= time {
      LastFundingIs(entries, key, f.value.expires, f.value.funder);
      var i: nat :| FundedLast(entries, i, key, f.value.expires, f.value.funder);
    }
    if i: nat, expires, funder :| FundedLast(entries, i, key, expires, funder) && expires <= time {
      LastFundingIs(entries, key, expires, funder);
    }
  }

  /** Some record says that the key was settled or refunded. */
  ghost predicate Closed(entries: seq<Record>, key: string) {
    exists r :: r in entries && (r.memo == Settled(key) || r.memo == Refunded(key))
  }

  lemma ClosedIs(entries: seq<Record>, key: string)
    ensures Closed(entries, key) <==> Drained(entries, key)
  {
  }

  /** Due is a key whose last funding has run out, that no record closes, and whose escrow holds dollars. */
  lemma DueMeans(entries: seq<Record>, key: string, now: int)
    ensures Due(entries, key, now) <==>
              RanOut(entries, key, now) && !Closed(entries, key) && Balance(entries, EscrowFor(key), "USD") != 0
  {
    hide Balance, LastFunding, Closed, RanOut, Drained;
    RanOutIs(entries, key, now);
    ClosedIs(entries, key);
  }

  /** Stale is such a key once the bound has passed as well. */
  lemma StaleMeans(entries: seq<Record>, key: string, now: int, bound: int)
    ensures Stale(entries, key, now, bound) <==>
              RanOut(entries, key, now - bound) && !Closed(entries, key) && Balance(entries, EscrowFor(key), "USD") != 0
  {
    hide Balance, LastFunding, Closed, RanOut, Drained;
    RanOutIs(entries, key, now - bound);
    ClosedIs(entries, key);
  }
}
