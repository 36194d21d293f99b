/** Where a plan's timestamps lie relative to one another and to the cutoff. */
module Ordering {
  import opened Wrappers
  import opened Records
  import opened Sorting
  import opened Timestamps
  import opened Ledgers
  import opened Plans
  import opened Replay
  import opened Migration

  function AccountTimestamps(accounts: seq<Account>): (r: seq<nat>)
    ensures |r| == |accounts|
  {
    seq(|accounts|, i requires 0 <= i < |accounts| => accounts[i].timestamp)
  }

  /** The planner's account loop computes the same least increasing timestamps as `Dedup`. */
  lemma {:induction false} AccountDedupIsDedup(accounts: seq<Account>, start: nat, i: nat)
    requires i < |accounts|
    ensures DedupAccounts(accounts, start)[i].timestamp == Dedup(AccountTimestamps(accounts), start)[i]
  {
    var init, n := accounts[..|accounts| - 1], |accounts| - 1;
    if i < n {
      AccountDedupIsDedup(init, start, i);
      DedupPrefix(AccountTimestamps(init), AccountTimestamps(accounts), start, i);
    } else if n > 0 {
      AccountDedupIsDedup(init, start, n - 1);
      DedupPrefix(AccountTimestamps(init), AccountTimestamps(accounts), start, n - 1);
    }
  }

  lemma RisingKept(accounts: seq<Account>, start: nat)
    requires Rising(accounts, start)
    ensures DedupAccounts(accounts, start) == accounts
  {
    hide DedupAccounts, DedupAt;
    var stamps := AccountTimestamps(accounts);
    DedupIdentityIff(stamps, start);
    forall i | 0 <= i < |accounts|
      ensures DedupAccounts(accounts, start)[i] == accounts[i]
    {
      AccountDedupIsDedup(accounts, start, i);
      DedupAccountsAt(accounts, start, i);
      assert Dedup(stamps, start)[i] == stamps[i];
    }
  }

  /** Accounts with different timestamps, all later than the genesis accounts, keep the timestamps they have. */
  lemma TimestampsKept(accounts: seq<Account>)
    requires DistinctBy(AccountTimestamp, accounts)
    requires forall a <- accounts :: a.timestamp > 2 * |SortedLedgers(accounts)|
    ensures RegularAccounts(accounts) == SortedAccounts(accounts)
  {
    SortedRise(accounts);
    hide SortedAccounts, SortedLedgers, DedupAccounts, Rising;
    RisingKept(SortedAccounts(accounts), 2 * |SortedLedgers(accounts)|);
  }

  lemma SortedRise(accounts: seq<Account>)
    requires DistinctBy(AccountTimestamp, accounts)
    requires forall a <- accounts :: a.timestamp > 2 * |SortedLedgers(accounts)|
    ensures Rising(SortedAccounts(accounts), 2 * |SortedLedgers(accounts)|)
  {
    hide SortedAccounts, SortedLedgers, DistinctBy, WithKey, FlattenGroups;
    var sorted := SortedAccounts(accounts);
    SortedAccountsPermute(accounts);
    DistinctByPermutation(AccountTimestamp, accounts, sorted);
    SortedDistinctStrict(AccountTimestamp, sorted);
    forall i | 0 <= i < |sorted|
      ensures sorted[i].timestamp > 2 * |SortedLedgers(accounts)|
    {
      assert sorted[i] in multiset(sorted);
    }
    assert forall i :: 0 <= i < |sorted| ==> sorted[i].timestamp == AccountTimestamp(sorted[i]);
  }

  /** Every synthetic transfer is later than `timestamp`. */
  predicate AllLater(ts: seq<SyntheticTransfer>, timestamp: nat) {
    forall k :: 0 <= k < |ts| ==> ts[k].timestamp > timestamp
  }

  predicate AllEarlier(ts: seq<SyntheticTransfer>, timestamp: nat) {
    forall k :: 0 <= k < |ts| ==> ts[k].timestamp < timestamp
  }

  lemma SyntheticRun(accounts: seq<Account>, windowedMode: bool, k: nat)
    requires LedgersFit(accounts) && k < |SnapshotPlan(accounts, windowedMode).syntheticTransfers|
    ensures SnapshotPlan(accounts, windowedMode).syntheticTransfers[k].timestamp
            == FloorOf(accounts, windowedMode) + k + 1
    ensures SnapshotPlan(accounts, windowedMode).syntheticTransfers[k].id == k + 1
  {
    RegularLedgersFit(accounts);
    SyntheticNumbers(RegularAccounts(accounts), FloorOf(accounts, windowedMode), k);
  }

  /**
    Synthetic timestamps are the consecutive run after the floor: later than every genesis account and
    every account with a balance (in snapshot mode, than every account), and all below a cutoff exactly
    when the floor plus their number is.
   */
  lemma SyntheticOrdering(accounts: seq<Account>, windowedMode: bool, cutoffTs: nat)
    requires LedgersFit(accounts)
    ensures var plan, floor := SnapshotPlan(accounts, windowedMode), FloorOf(accounts, windowedMode);
            var n := |plan.syntheticTransfers|;
            && n == SumBy(SideCount(), accounts)
            && (forall g <- plan.genesisAccounts :: AllLater(plan.syntheticTransfers, g.timestamp))
            && (forall a <- plan.regularAccounts :: (Active(a) || !windowedMode) ==>
                AllLater(plan.syntheticTransfers, a.timestamp))
            && (n > 0 ==> (AllEarlier(plan.syntheticTransfers, cutoffTs) <==> floor + n < cutoffTs))
  {
    hide FloorOf, SortedLedgers, RegularAccounts, SnapshotPlan;
    var plan, floor := SnapshotPlan(accounts, windowedMode), FloorOf(accounts, windowedMode);
    PlanCount(accounts, windowedMode);
    forall k | 0 <= k < |plan.syntheticTransfers|
      ensures plan.syntheticTransfers[k].timestamp == floor + k + 1
    {
      SyntheticRun(accounts, windowedMode, k);
    }
    FloorDominates(accounts, windowedMode);
    var n := |plan.syntheticTransfers|;
    assert n > 0 ==> plan.syntheticTransfers[n - 1].timestamp == floor + n;
  }

  lemma PlanCount(accounts: seq<Account>, windowedMode: bool)
    requires LedgersFit(accounts)
    ensures |SnapshotPlan(accounts, windowedMode).syntheticTransfers| == SumBy(SideCount(), accounts)
  {
    RegularLedgersFit(accounts);
    SyntheticCount(RegularAccounts(accounts), FloorOf(accounts, windowedMode));
    RegularSums(accounts, SideCount());
  }

  lemma FloorDominates(accounts: seq<Account>, windowedMode: bool)
    requires LedgersFit(accounts)
    ensures var plan, floor := SnapshotPlan(accounts, windowedMode), FloorOf(accounts, windowedMode);
            && (forall g <- plan.genesisAccounts :: g.timestamp <= floor)
            && (forall a <- plan.regularAccounts :: (Active(a) || !windowedMode) ==> a.timestamp <= floor)
  {
    var plan, floor := SnapshotPlan(accounts, windowedMode), FloorOf(accounts, windowedMode);
    FloorBounds(accounts, windowedMode);
    GenesisOfOrder(accounts);
    assert plan.genesisAccounts == GenesisOf(accounts);
    forall g <- plan.genesisAccounts
      ensures g.timestamp <= floor
    {
      var i :| 0 <= i < |plan.genesisAccounts| && plan.genesisAccounts[i] == g;
    }
    forall a <- plan.regularAccounts | Active(a) || !windowedMode
      ensures a.timestamp <= floor
    {
      var i :| 0 <= i < |plan.regularAccounts| && plan.regularAccounts[i] == a;
    }
  }

  /**
    An account with a balance at the cutoff and created right before it leaves no room: its synthetic
    transfers get timestamps at or after the cutoff, against the documented ordering guarantee.
   */
  lemma NoRoomBelowCutoff(accounts: seq<Account>, windowed: seq<Transfer>, cutoffTs: nat, a: Account)
    requires LedgersFit(accounts) && a in accounts && a.timestamp + 1 == cutoffTs
    requires Active(AtCutoff(a, windowed, cutoffTs))
    ensures !AllEarlier(WindowedPlan(accounts, windowed, cutoffTs).syntheticTransfers, cutoffTs)
  {
    hide SnapshotPlan, FloorOf, AllEarlier, AccountsAtCutoff, SumBy, SideCount, Active, LedgersFit;
    var adjusted := AccountsAtCutoff(accounts, windowed, cutoffTs);
    CutoffLedgersFit(accounts, windowed, cutoffTs);
    var i :| 0 <= i < |accounts| && accounts[i] == a;
    assert adjusted[i] == AtCutoff(a, windowed, cutoffTs) && adjusted[i] in adjusted;
    FloorPastActive(adjusted, AtCutoff(a, windowed, cutoffTs));
    EarlierIff(adjusted, true, cutoffTs);
  }

  /** With transfers to make, they all lie below the cutoff exactly when the last of them does. */
  lemma EarlierIff(accounts: seq<Account>, windowedMode: bool, cutoffTs: nat)
    requires LedgersFit(accounts) && SumBy(SideCount(), accounts) > 0
    ensures AllEarlier(SnapshotPlan(accounts, windowedMode).syntheticTransfers, cutoffTs) <==>
            FloorOf(accounts, windowedMode) + SumBy(SideCount(), accounts) < cutoffTs
  {
    hide *;
    SyntheticOrdering(accounts, windowedMode, cutoffTs);
  }

  /** An account with a balance pushes the floor to its timestamp at least. */
  lemma FloorPastActive(accounts: seq<Account>, c: Account)
    requires c in accounts && Active(c)
    ensures FloorOf(accounts, true) >= c.timestamp && SumBy(SideCount(), accounts) > 0
  {
    hide FloorOf, RegularAccounts, SortedAccounts, SortedLedgers, SumBy;
    var i :| 0 <= i < |accounts| && accounts[i] == c;
    SumByOfPart(SideCount(), accounts, i);
    RegularFromSorted(accounts);
    assert c in multiset(SortedAccounts(accounts));
    var j :| 0 <= j < |accounts| && SortedAccounts(accounts)[j] == c;
    RegularNoEarlier(accounts, j);
    FloorBounds(accounts, true);
  }

  lemma RegularNoEarlier(accounts: seq<Account>, j: nat)
    requires j < |SortedAccounts(accounts)| == |RegularAccounts(accounts)|
    ensures RegularAccounts(accounts)[j].timestamp >= SortedAccounts(accounts)[j].timestamp
  {
    DedupAccountsAt(SortedAccounts(accounts), 2 * |SortedLedgers(accounts)|, j);
  }

  /** A concrete ledger on which the guarantee fails: one account created at 9, cutoff 10, empty window. */
  lemma NoRoomExample()
    ensures var accounts := [Account(7, 0, 5, 0, 5, 0, 0, 0, 0, 1, 1, 0, 9)];
            LedgersFit(accounts) && !AllEarlier(WindowedPlan(accounts, [], 10).syntheticTransfers, 10)
  {
    var a := Account(7, 0, 5, 0, 5, 0, 0, 0, 0, 1, 1, 0, 9);
    assert Debits([], 7) == 0 && Credits([], 7) == 0;
    NoRoomBelowCutoff([a], [], 10, a);
  }

  /** Every synthetic transfer is later than every regular account, as the design document draws it. */
  predicate AfterAllAccounts(plan: BalancePlan) {
    forall k, i :: 0 <= k < |plan.syntheticTransfers| && 0 <= i < |plan.regularAccounts| ==>
      plan.syntheticTransfers[k].timestamp > plan.regularAccounts[i].timestamp
  }

  /** Transfers that run on from `floor` against accounts that rise. */
  lemma RunAfterAccounts(plan: BalancePlan, floor: nat)
    requires forall k :: 0 <= k < |plan.syntheticTransfers| ==> plan.syntheticTransfers[k].timestamp == floor + k + 1
    requires Rising(plan.regularAccounts, 0)
    ensures AfterAllAccounts(plan) <==>
            plan.syntheticTransfers == [] || LastTimestamp(plan.regularAccounts, 0) <= floor
  {
    var regular := plan.regularAccounts;
    if regular != [] {
      var last := |regular| - 1;
      assert forall i :: 0 <= i < |regular| ==> regular[i].timestamp <= regular[last].timestamp;
      if plan.syntheticTransfers != [] && regular[last].timestamp > floor {
        assert plan.syntheticTransfers[0].timestamp <= regular[last].timestamp;
      }
    }
  }

  /** That holds exactly when there is no transfer, or no account was created after the floor. */
  lemma AfterAllAccountsIff(accounts: seq<Account>, windowedMode: bool)
    requires LedgersFit(accounts)
    ensures AfterAllAccounts(SnapshotPlan(accounts, windowedMode)) <==>
            || SumBy(SideCount(), accounts) == 0
            || LastTimestamp(RegularAccounts(accounts), 0) <= FloorOf(accounts, windowedMode)
  {
    PlannedRegular(accounts, windowedMode);
    RegularRising(accounts);
    hide SnapshotPlan, FloorOf, RegularAccounts, AfterAllAccounts, LedgersFit, SortedLedgers;
    var plan, floor := SnapshotPlan(accounts, windowedMode), FloorOf(accounts, windowedMode);
    PlanCount(accounts, windowedMode);
    forall k | 0 <= k < |plan.syntheticTransfers|
      ensures plan.syntheticTransfers[k].timestamp == floor + k + 1
    {
      SyntheticRun(accounts, windowedMode, k);
    }
    RunAfterAccounts(plan, floor);
  }

  lemma PlannedRegular(accounts: seq<Account>, windowedMode: bool)
    requires LedgersFit(accounts)
    ensures SnapshotPlan(accounts, windowedMode).regularAccounts == RegularAccounts(accounts)
  {
  }

  /** A list that is already sorted, in one ledger and above the genesis timestamps is planned as it is. */
  lemma TwoAccounts(a: Account, b: Account)
    requires a.ledger == b.ledger && 2 < a.timestamp < b.timestamp
    ensures RegularAccounts([a, b]) == [a, b] && SortedLedgers([a, b]) == [a.ledger]
  {
    var l := a.ledger;
    assert [a, b][..1] == [a] && [a][..0] == [] && [l][..0] == [];
    assert SortedLedgers([a]) == [l] && SortedLedgers([a, b]) == [l];
    assert InLedger([a], l) == [a] && InLedger([a, b], l) == [a, b];
    assert FlattenGroups([l], [a, b]) == [] + [a, b] == [a, b];
    assert SortByKey(AccountTimestamp, [a]) == [a];
    assert SortByKey(AccountTimestamp, [a, b]) == [a, b];
    assert DedupAccounts([a], 2) == [a];
  }

  /** An account with a balance and a later one without, both before the cutoff, and an empty window. */
  lemma EmptyAfterActive(a: Account, b: Account, cutoffTs: nat)
    requires a.ledger == b.ledger <= U32_MAX && 2 < a.timestamp < b.timestamp < cutoffTs && Active(a) && !Active(b)
    ensures LedgersFit([a, b]) && LedgersFit(AccountsAtCutoff([a, b], [], cutoffTs))
    ensures !AfterAllAccounts(WindowedPlan([a, b], [], cutoffTs))
  {
    TwoAccounts(a, b);
    ActiveThenEmpty(a, b);
    NothingInWindow(a, b, cutoffTs);
    hide RegularAccounts, SortedLedgers, SnapshotPlan, WindowedPlan, FloorOf, AfterAllAccounts, SumBy, AccountsAtCutoff;
    AfterAllAccountsIff([a, b], true);
    WindowedIsSnapshot([a, b], [], cutoffTs);
  }

  lemma NothingInWindow(a: Account, b: Account, cutoffTs: nat)
    requires a.timestamp < cutoffTs && b.timestamp < cutoffTs
    ensures AccountsAtCutoff([a, b], [], cutoffTs) == [a, b]
  {
    assert AtCutoff(a, [], cutoffTs) == a && AtCutoff(b, [], cutoffTs) == b;
  }

  /** A windowed plan against that drawing: an account with balance from 9, an empty one from 100, cutoff 1000. */
  lemma EmptyAccountAfterTransfers()
    ensures var accounts := [Account(7, 0, 5, 0, 5, 0, 0, 0, 0, 1, 1, 0, 9),
                             Account(8, 0, 0, 0, 0, 0, 0, 0, 0, 1, 1, 0, 100)];
            && LedgersFit(accounts) && LedgersFit(AccountsAtCutoff(accounts, [], 1000))
            && !AfterAllAccounts(WindowedPlan(accounts, [], 1000))
  {
    hide AfterAllAccounts, WindowedPlan, AccountsAtCutoff, LedgersFit;
    EmptyAfterActive(Account(7, 0, 5, 0, 5, 0, 0, 0, 0, 1, 1, 0, 9), Account(8, 0, 0, 0, 0, 0, 0, 0, 0, 1, 1, 0, 100),
                     1000);
  }

  /** With a balance on the first of two accounts only, the floor is its timestamp. */
  lemma ActiveThenEmpty(a: Account, b: Account)
    requires RegularAccounts([a, b]) == [a, b] && Active(a) && !Active(b)
    ensures FloorOf([a, b], true) == a.timestamp && SumBy(SideCount(), [a, b]) > 0
  {
    hide RegularAccounts, SortedLedgers;
    assert [a, b][..1] == [a] && [a][..0] == [];
    assert MaxActiveTimestamp([a]) == Some(a.timestamp);
    assert MaxActiveTimestamp([a, b]) == Some(a.timestamp);
    assert SumBy(SideCount(), [a]) > 0;
  }

  /** A windowed plan is the plan of the accounts at the cutoff, but for the window. */
  lemma WindowedIsSnapshot(accounts: seq<Account>, windowed: seq<Transfer>, cutoffTs: nat)
    requires LedgersFit(accounts)
    ensures LedgersFit(AccountsAtCutoff(accounts, windowed, cutoffTs))
    ensures var plan := SnapshotPlan(AccountsAtCutoff(accounts, windowed, cutoffTs), true);
            AfterAllAccounts(WindowedPlan(accounts, windowed, cutoffTs)) <==> AfterAllAccounts(plan)
  {
    hide SnapshotPlan, AccountsAtCutoff;
    CutoffLedgersFit(accounts, windowed, cutoffTs);
  }

  predicate InSlots(timestamp: nat, floor: nat, n: nat) {
    floor < timestamp <= floor + n
  }

  /** A synthetic transfer shares its timestamp with an account. */
  predicate TimestampShared(plan: BalancePlan) {
    exists k, i :: 0 <= k < |plan.syntheticTransfers| && 0 <= i < |plan.regularAccounts| &&
      plan.syntheticTransfers[k].timestamp == plan.regularAccounts[i].timestamp
  }

  /**
    Snapshot plans never give an account and a transfer the same timestamp; windowed plans do so
    exactly when an account without balance was created in the slots right after the floor.
   */
  lemma TimestampSharedIff(accounts: seq<Account>, windowedMode: bool)
    requires LedgersFit(accounts)
    ensures var plan, floor := SnapshotPlan(accounts, windowedMode), FloorOf(accounts, windowedMode);
            && (TimestampShared(plan) <==>
                exists i | 0 <= i < |plan.regularAccounts| ::
                  InSlots(plan.regularAccounts[i].timestamp, floor, |plan.syntheticTransfers|))
            && (!windowedMode ==> !TimestampShared(plan))
  {
    var plan, floor := SnapshotPlan(accounts, windowedMode), FloorOf(accounts, windowedMode);
    forall k | 0 <= k < |plan.syntheticTransfers|
      ensures plan.syntheticTransfers[k].timestamp == floor + k + 1
    {
      SyntheticRun(accounts, windowedMode, k);
    }
    FloorBounds(accounts, windowedMode);
    var n := |plan.syntheticTransfers|;
    if i :| 0 <= i < |plan.regularAccounts| && InSlots(plan.regularAccounts[i].timestamp, floor, n) {
      var k := plan.regularAccounts[i].timestamp - floor - 1;
      assert plan.syntheticTransfers[k].timestamp == plan.regularAccounts[i].timestamp;
    }
  }
}
