/** A migration request: the pending-balance check, the choice of plan, and what importing it does. */
module Service {
  import opened Records
  import opened Ledgers
  import opened Plans
  import opened Importers
  import opened Acceptance
  import opened Migration

  predicate HasPending(a: Account) {
    a.debitsPending > 0 || a.creditsPending > 0
  }

  function PendingCount(accounts: seq<Account>): nat {
    if accounts == [] then 0
    else PendingCount(accounts[..|accounts| - 1]) + (if HasPending(accounts[|accounts| - 1]) then 1 else 0)
  }

  /** Where the accounts with a pending balance on either side are. */
  function PendingIndices(accounts: seq<Account>): set<nat> {
    set i: nat | i < |accounts| && (accounts[i].debitsPending > 0 || accounts[i].creditsPending > 0)
  }

  lemma {:induction false} PendingCountIs(accounts: seq<Account>)
    ensures PendingCount(accounts) == |PendingIndices(accounts)|
  {
    if accounts == [] {
      assert PendingIndices(accounts) == {};
    } else {
      var n, init := |accounts| - 1, accounts[..|accounts| - 1];
      PendingCountIs(init);
      assert PendingIndices(accounts)
          == PendingIndices(init) + (if accounts[n].debitsPending > 0
                                     || accounts[n].creditsPending > 0 then {n} else {});
    }
  }

  /** The account as an accounts-only migration imports it. */
  function Zeroed(a: Account): Account {
    a.(debitsPosted := 0, creditsPosted := 0, debitsPending := 0, creditsPending := 0)
  }

  function ZeroedAccounts(accounts: seq<Account>): (r: seq<Account>)
    ensures |r| == |accounts| && forall i :: 0 <= i < |r| ==> r[i] == Zeroed(accounts[i])
  {
    if accounts == [] then []
    else ZeroedAccounts(accounts[..|accounts| - 1]) + [Zeroed(accounts[|accounts| - 1])]
  }

  function AccountsOnly(plan: BalancePlan): BalancePlan {
    BalancePlan([], ZeroedAccounts(plan.regularAccounts), [], [])
  }

  function MigrationPlan(accounts: seq<Account>, windowed: seq<Transfer>, cutoffTs: nat,
                         accountsOnly: bool): BalancePlan
    requires LedgersFit(accounts)
  {
    var plan := if cutoffTs > 0 then WindowedPlan(accounts, windowed, cutoffTs) else SnapshotPlan(accounts, false);
    if accountsOnly then AccountsOnly(plan) else plan
  }

  /** Drops genesis accounts and all transfers and resets every balance. */
  method StripToAccounts(plan: BalancePlan) returns (r: BalancePlan)
    ensures r == AccountsOnly(plan)
    ensures r.genesisAccounts == [] && r.syntheticTransfers == [] && r.windowedTransfers == []
    ensures |r.regularAccounts| == |plan.regularAccounts|
    ensures forall i :: 0 <= i < |r.regularAccounts| ==>
              var a, b := plan.regularAccounts[i], r.regularAccounts[i];
              && b.debitsPosted == b.creditsPosted == b.debitsPending == b.creditsPending == 0
              && a == b.(debitsPosted := a.debitsPosted, creditsPosted := a.creditsPosted,
                         debitsPending := a.debitsPending, creditsPending := a.creditsPending)
  {
    var regular := plan.regularAccounts;
    for i := 0 to |regular|
      invariant |regular| == |plan.regularAccounts|
      invariant forall j :: 0 <= j < i ==> regular[j] == Zeroed(plan.regularAccounts[j])
      invariant forall j :: i <= j < |regular| ==> regular[j] == plan.regularAccounts[j]
    {
      regular := regular[i := Zeroed(regular[i])];
    }
    assert regular == ZeroedAccounts(plan.regularAccounts);
    r := BalancePlan([], regular, [], []);
  }

  method CountPending(accounts: seq<Account>) returns (pendingCount: nat)
    ensures pendingCount == PendingCount(accounts) == |PendingIndices(accounts)|
  {
    PendingCountIs(accounts);
    pendingCount := 0;
    for i := 0 to |accounts|
      invariant pendingCount == PendingCount(accounts[..i])
    {
      assert accounts[..i + 1][..i] == accounts[..i];
      if HasPending(accounts[i]) {
        pendingCount := pendingCount + 1;
      }
    }
    assert accounts[..|accounts|] == accounts;
  }

  /** The plan a migration request asks for. */
  method PlanMigration(accounts: seq<Account>, windowed: seq<Transfer>, cutoffTs: nat, accountsOnly: bool)
    returns (plan: BalancePlan)
    requires LedgersFit(accounts)
    ensures plan == MigrationPlan(accounts, windowed, cutoffTs, accountsOnly)
  {
    if cutoffTs > 0 {
      plan := BuildWindowed(accounts, windowed, cutoffTs);
    } else {
      plan := Build(accounts);
    }
    if accountsOnly {
      plan := StripToAccounts(plan);
    }
  }

  // ---------------------------------------------------------------------------
  // Outcomes on an empty cluster
  // ---------------------------------------------------------------------------

  /**
    End to end, without a cutoff: the import into an empty cluster reports success exactly when the
    network delivers every request and the accounts are importable, and then the cluster holds every
    account with its original balances.
   */
  lemma SnapshotExecution(net: Network, c: ImportState, accounts: seq<Account>, clock: nat)
    requires LedgersFit(accounts) && c.ok && c.ledger == EmptyLedger(clock)
    ensures var phases := Phases(MigrationPlan(accounts, [], 0, false));
            var r := SendPhases(net, c, phases, 0);
            && (r.ok <==> AllDelivered(net, |c.sent|, |c.sent| + |AllBatches(phases)|)
                          && Importable(accounts, false, clock))
            && (r.ok ==> forall a <- accounts :: Holds(r.ledger, a, a.debitsPosted, a.creditsPosted))
  {
    hide Run, Importable, SendPhases, AllBatches, AllProgress, SnapshotPlan;
    var phases := Phases(MigrationPlan(accounts, [], 0, false));
    var m := ImportRun(net, c, phases);
    SnapshotMigration(accounts, clock);
  }

  /**
    End to end, with a cutoff: success exactly when the network delivers every request and accounts and
    window are importable; then every account holds its cutoff balance plus its window.
   */
  lemma WindowedExecution(net: Network, c: ImportState, accounts: seq<Account>, windowed: seq<Transfer>, cutoffTs: nat,
                          clock: nat)
    requires LedgersFit(accounts) && c.ok && c.ledger == EmptyLedger(clock) && cutoffTs > 0
    ensures var phases := Phases(MigrationPlan(accounts, windowed, cutoffTs, false));
            var r := SendPhases(net, c, phases, 0);
            && (r.ok <==> AllDelivered(net, |c.sent|, |c.sent| + |AllBatches(phases)|)
                          && WindowImportable(accounts, windowed, cutoffTs, clock))
            && (r.ok ==> Replayed(r.ledger, windowed))
            && (r.ok ==> forall a <- accounts :: WindowedOutcome(r.ledger, a, windowed, cutoffTs))
  {
    hide Replayed, Run, WindowImportable, SendPhases, AllBatches, AllProgress, WindowedPlan, WindowedOutcome;
    var phases := Phases(MigrationPlan(accounts, windowed, cutoffTs, false));
    var m := ImportRun(net, c, phases);
    WindowedMigration(accounts, windowed, cutoffTs, clock);
  }

  /** What an accounts-only import needs: creatable accounts; genesis ids no longer matter. */
  ghost predicate CreatableAlone(accounts: seq<Account>, clock: nat) {
    && (forall a <- accounts :: AllowedShape(a)) && DistinctIds(accounts)
    && (accounts != [] ==> TimestampOk(LastTimestamp(RegularAccounts(accounts), 0), clock))
  }

  lemma ZeroedConvert(accounts: seq<Account>)
    ensures ConvertAccounts(ZeroedAccounts(accounts)) == ConvertAccounts(accounts)
  {
  }

  lemma AccountsOnlyRun(s: Ledger, plan: BalancePlan)
    ensures Run(s, PlanEvents(AccountsOnly(plan))) == Run(s, AccountEvents(ConvertAccounts(plan.regularAccounts)))
  {
    hide Apply;
    var stripped := AccountsOnly(plan);
    PlanRuns(s, stripped);
    ZeroedConvert(plan.regularAccounts);
    assert [] + stripped.regularAccounts == stripped.regularAccounts;
    assert TransferEvents(ConvertTransfers(stripped.syntheticTransfers)) == [];
    assert TransferEvents(ConvertWindowedTransfers(stripped.windowedTransfers)) == [];
  }

  lemma RegularShapesIff(accounts: seq<Account>)
    ensures (forall i :: 0 <= i < |RegularAccounts(accounts)| ==> AllowedShape(RegularAccounts(accounts)[i]))
            <==> forall a <- accounts :: AllowedShape(a)
  {
    var regular := RegularAccounts(accounts);
    RegularFromSorted(accounts);
    if forall i :: 0 <= i < |regular| ==> AllowedShape(regular[i]) {
      forall a <- accounts
        ensures AllowedShape(a)
      {
        var i := RegularIndex(accounts, a);
        assert AllowedShape(regular[i]);
      }
    }
    if forall a <- accounts :: AllowedShape(a) {
      forall i | 0 <= i < |regular|
        ensures AllowedShape(regular[i])
      {
        var a := RegularSource(accounts, i);
        assert AllowedShape(a);
      }
    }
  }

  /** The accounts whose plan a request strips: with a cutoff, as they stood then. */
  function PlannedFrom(accounts: seq<Account>, windowed: seq<Transfer>, cutoffTs: nat): (r: seq<Account>)
    ensures |r| == |accounts|
  {
    if cutoffTs > 0 then AccountsAtCutoff(accounts, windowed, cutoffTs) else accounts
  }

  lemma StrippedRun(s: Ledger, accounts: seq<Account>, windowed: seq<Transfer>, cutoffTs: nat)
    requires LedgersFit(accounts)
    ensures Run(s, PlanEvents(MigrationPlan(accounts, windowed, cutoffTs, true)))
         == Run(s, AccountEvents(ConvertAccounts(RegularAccounts(PlannedFrom(accounts, windowed, cutoffTs)))))
  {
    hide Run, PlanEvents, SortedLedgers, RegularAccounts, AccountsAtCutoff;
    if cutoffTs > 0 {
      CutoffLedgersFit(accounts, windowed, cutoffTs);
      AccountsOnlyRun(s, WindowedPlan(accounts, windowed, cutoffTs));
    } else {
      AccountsOnlyRun(s, SnapshotPlan(accounts, false));
    }
  }

  /** Where the accounts-only import has put account `a`. */
  lemma StrippedAt(accounts: seq<Account>, clock: nat, a: Account)
    requires CreatableAlone(accounts, clock) && a in accounts
    ensures Holds(AfterAccounts(EmptyLedger(clock), ConvertAccounts(RegularAccounts(accounts))), a, 0, 0)
  {
    hide SortedLedgers;
    var events := ConvertAccounts(RegularAccounts(accounts));
    RegularFromSorted(accounts);
    RegularDistinctIff(accounts);
    var i := RegularIndex(accounts, a);
    assert DistinctIds(events);
    BalancesOfAt(events, i);
    NotEarlier(accounts, a, i);
  }

  /**
    An accounts-only migration, with or without a cutoff, is accepted exactly when the accounts it plans
    from are creatable, and leaves every account in the cluster at zero, ready for transfers from CSV.
   */
  lemma AccountsOnlyMigration(accounts: seq<Account>, windowed: seq<Transfer>, cutoffTs: nat, clock: nat)
    requires LedgersFit(accounts)
    ensures var r := Run(EmptyLedger(clock), PlanEvents(MigrationPlan(accounts, windowed, cutoffTs, true)));
            && (r.Ok? <==> CreatableAlone(PlannedFrom(accounts, windowed, cutoffTs), clock))
            && (r.Ok? ==> r.value == AccountsAlone(PlannedFrom(accounts, windowed, cutoffTs), clock))
            && (r.Ok? ==> forall a <- accounts :: Holds(r.value, a, 0, 0))
  {
    hide Run, PlanEvents, SortedLedgers, RegularAccounts, AfterAccounts, CreatableAlone;
    var from := PlannedFrom(accounts, windowed, cutoffTs);
    StrippedRun(EmptyLedger(clock), accounts, windowed, cutoffTs);
    AccountsAcceptedIff(EmptyLedger(clock), ConvertAccounts(RegularAccounts(from)));
    RegularOnlyIff(from, clock);
    if CreatableAlone(from, clock) {
      forall a <- accounts
        ensures Holds(AccountsAlone(from, clock), a, 0, 0)
      {
        var i :| 0 <= i < |accounts| && accounts[i] == a;
        assert from[i] in from;
        StrippedAt(from, clock, from[i]);
      }
    }
  }

  /** The cluster after an accepted accounts-only import. */
  function AccountsAlone(accounts: seq<Account>, clock: nat): Ledger {
    AfterAccounts(EmptyLedger(clock), ConvertAccounts(RegularAccounts(accounts)))
  }

  /** What the caller knows of it. */
  function EmptyAccounts(accounts: seq<Account>, clock: nat): Cluster {
    Cluster(RegularAccounts(accounts), (id: nat) => 0, (id: nat) => 0, 0, 0, clock)
  }

  lemma EmptyAccountsDescribes(accounts: seq<Account>, clock: nat)
    requires CreatableAlone(accounts, clock)
    ensures EmptyAccounts(accounts, clock).Describes(AccountsAlone(accounts, clock))
  {
    hide RegularAccounts, BalancesOf, CreatableAlone, DistinctIds, ConvertAccountFlags, TransferIds;
    AloneDistinct(accounts, clock);
    NoneUsed(accounts, clock);
    var regular, s := RegularAccounts(accounts), AccountsAlone(accounts, clock);
    BalancesOfKeys(ConvertAccounts(regular));
    ConvertedIds(regular);
    assert s.accounts == BalancesOf(ConvertAccounts(regular));
    forall a <- regular
      ensures a.id in s.accounts && s.accounts[a.id] == EmptyAccounts(accounts, clock).Stored(a)
    {
      CreatedBalance(regular, a);
    }
  }

  lemma AloneDistinct(accounts: seq<Account>, clock: nat)
    requires CreatableAlone(accounts, clock)
    ensures DistinctIds(RegularAccounts(accounts))
  {
    hide RegularAccounts;
    RegularDistinctIff(accounts);
  }

  lemma NoneUsed(accounts: seq<Account>, clock: nat)
    ensures AccountsAlone(accounts, clock).UsedIds() == {}
  {
    hide RegularAccounts, BalancesOf;
  }

  lemma CreatedBalance(regular: seq<Account>, a: Account)
    requires DistinctIds(regular) && a in regular
    ensures var m := BalancesOf(ConvertAccounts(regular));
            a.id in m && m[a.id] == Balance(a.ledger, ConvertAccountFlags(a.flags), a.timestamp, TagsOf(a), 0, 0)
  {
    hide BalancesOf, ConvertAccountFlags;
    var events := ConvertAccounts(regular);
    assert DistinctIds(events) by {
      assert forall i :: 0 <= i < |events| ==> AccountId(events[i]) == AccountId(regular[i]);
    }
    var i :| 0 <= i < |regular| && regular[i] == a;
    BalancesOfAt(events, i);
  }

  lemma RegularOnlyIff(accounts: seq<Account>, clock: nat)
    ensures AccountsImportable(EmptyLedger(clock), ConvertAccounts(RegularAccounts(accounts))) <==>
            CreatableAlone(accounts, clock)
  {
    var regular := RegularAccounts(accounts);
    var events := ConvertAccounts(regular);
    RegularFromSorted(accounts);
    RegularRising(accounts);
    RegularDistinctIff(accounts);
    RegularShapesIff(accounts);
    RisingImportableIff(regular, clock);
    forall i | 0 <= i < |regular|
      ensures AcceptableShape(events[i]) <==> AllowedShape(regular[i])
    {
      ConvertedShape(regular[i]);
    }
    assert DistinctIds(events) <==> DistinctIds(regular);
  }
}
