/** The two-step migration: accounts only from the data file, then transfers from CSV. */
module CsvMigration {
  import opened Records
  import opened Ledgers
  import opened Plans
  import opened Importers
  import opened Acceptance
  import opened Migration
  import opened Service
  import opened CsvPlanning
  import opened CsvOrders
  import opened Sorting
  import opened Timestamps

  /** A CSV plan creates no accounts, so importing it runs its transfers. */
  lemma CsvPlanRuns(s: Ledger, ts: seq<Transfer>, cutoffTs: nat, order: seq<Key>)
    ensures var plan := CsvPlan(ts, cutoffTs, order);
            Run(s, PlanEvents(plan)) == Run(s, TransferEvents(PlanTransfers(plan)))
  {
    NoAccountsPlanned(ts, cutoffTs, order);
    hide *;
    TransfersAlone(s, CsvPlan(ts, cutoffTs, order));
  }

  lemma NoAccountsPlanned(ts: seq<Transfer>, cutoffTs: nat, order: seq<Key>)
    ensures CsvPlan(ts, cutoffTs, order).genesisAccounts == [] && CsvPlan(ts, cutoffTs, order).regularAccounts == []
  {
  }

  lemma TransfersAlone(s: Ledger, plan: BalancePlan)
    requires plan.genesisAccounts == [] && plan.regularAccounts == []
    ensures Run(s, PlanEvents(plan)) == Run(s, TransferEvents(PlanTransfers(plan)))
  {
    hide Apply, PlanEvents;
    PlanRuns(s, plan);
    assert plan.genesisAccounts + plan.regularAccounts == [];
    var a := TransferEvents(ConvertTransfers(plan.syntheticTransfers));
    var b := TransferEvents(ConvertWindowedTransfers(plan.windowedTransfers));
    assert TransferEvents(PlanTransfers(plan)) == a + b;
    RunAppend(s, a, b);
  }

  /**
    On the cluster that an accounts-only migration has left, a CSV import is accepted exactly under the
    import rules for empty accounts, and then every account holds its totals in the CSV transfers.
   */
  lemma AccountsThenCsv(accounts: seq<Account>, windowed: seq<Transfer>, migrationCutoffTs: nat, clock: nat,
                        ts: seq<Transfer>, cutoffTs: nat, order: seq<Key>)
    requires LedgersFit(accounts) && PossibleOrder(ts, cutoffTs, order)
    requires Run(EmptyLedger(clock), PlanEvents(MigrationPlan(accounts, windowed, migrationCutoffTs, true))).Ok?
    ensures var accountsOnly := MigrationPlan(accounts, windowed, migrationCutoffTs, true);
            var from := PlannedFrom(accounts, windowed, migrationCutoffTs);
            var s := Run(EmptyLedger(clock), PlanEvents(accountsOnly)).value;
            var plan, r := CsvPlan(ts, cutoffTs, order), Run(s, PlanEvents(CsvPlan(ts, cutoffTs, order)));
            && (r.Ok? <==> TransfersImportable(EmptyAccounts(from, clock), PlannedTransfers(plan)))
            && (r.Ok? ==> forall a <- accounts :: Holds(r.value, a, Debits(ts, a.id), Credits(ts, a.id)))
  {
    hide *;
    var from := PlannedFrom(accounts, windowed, migrationCutoffTs);
    AccountsOnlyMigration(accounts, windowed, migrationCutoffTs, clock);
    EmptyAccountsDescribes(from, clock);
    var s := AccountsAlone(from, clock);
    CsvPlanRuns(s, ts, cutoffTs, order);
    CsvPlanAcceptedIff(s, EmptyAccounts(from, clock), ts, cutoffTs, order);
    var r := Run(s, PlanEvents(CsvPlan(ts, cutoffTs, order)));
    if r.Ok? {
      forall a <- accounts
        ensures Holds(r.value, a, Debits(ts, a.id), Credits(ts, a.id))
      {
        TotalsHeld(s, r.value, ts, a);
      }
    }
  }

  lemma TotalsHeld(s: Ledger, s': Ledger, ts: seq<Transfer>, a: Account)
    requires Holds(s, a, 0, 0) && s'.accounts == WithTotals(s, ts)
    ensures Holds(s', a, Debits(ts, a.id), Credits(ts, a.id))
  {
  }

  /**
    The same without knowing the hash map's order: the CSV import after an accounts-only migration is
    certain to be accepted exactly when the CSV transfers are importable on empty accounts.
   */
  lemma AccountsThenCsvInEveryOrder(accounts: seq<Account>, windowed: seq<Transfer>, migrationCutoffTs: nat,
                                    clock: nat, ts: seq<Transfer>, cutoffTs: nat)
    requires LedgersFit(accounts)
    requires Run(EmptyLedger(clock), PlanEvents(MigrationPlan(accounts, windowed, migrationCutoffTs, true))).Ok?
    ensures var from := PlannedFrom(accounts, windowed, migrationCutoffTs);
            var accountsOnly := MigrationPlan(accounts, windowed, migrationCutoffTs, true);
            var s := Run(EmptyLedger(clock), PlanEvents(accountsOnly)).value;
            (forall order :: PossibleOrder(ts, cutoffTs, order) ==>
               Run(s, PlanEvents(CsvPlan(ts, cutoffTs, order))).Ok?)
            <==> CsvImportable(EmptyAccounts(from, clock), ts, cutoffTs)
  {
    hide *;
    var from := PlannedFrom(accounts, windowed, migrationCutoffTs);
    AccountsOnlyMigration(accounts, windowed, migrationCutoffTs, clock);
    EmptyAccountsDescribes(from, clock);
    var s := AccountsAlone(from, clock);
    forall order | PossibleOrder(ts, cutoffTs, order)
      ensures Run(s, PlanEvents(CsvPlan(ts, cutoffTs, order)))
           == Run(s, TransferEvents(PlanTransfers(CsvPlan(ts, cutoffTs, order))))
    {
      CsvPlanRuns(s, ts, cutoffTs, order);
    }
    AcceptedInEveryOrderIff(s, EmptyAccounts(from, clock), ts, cutoffTs);
  }

  /** The CSV import as the importer runs it, batch by batch over a network. */
  lemma CsvExecution(net: Network, c: ImportState, cluster: Cluster, ts: seq<Transfer>, cutoffTs: nat, order: seq<Key>)
    requires PossibleOrder(ts, cutoffTs, order) && c.ok && cluster.Describes(c.ledger)
    ensures var phases := Phases(CsvPlan(ts, cutoffTs, order));
            var r := SendPhases(net, c, phases, 0);
            && (r.ok <==> AllDelivered(net, |c.sent|, |c.sent| + |AllBatches(phases)|)
                          && TransfersImportable(cluster, PlannedTransfers(CsvPlan(ts, cutoffTs, order))))
            && (r.ok ==> r.ledger.accounts == WithTotals(c.ledger, ts))
  {
    hide *;
    var phases := Phases(CsvPlan(ts, cutoffTs, order));
    var m := ImportRun(net, c, phases);
    CsvPlanRuns(c.ledger, ts, cutoffTs, order);
    CsvPlanAcceptedIff(c.ledger, cluster, ts, cutoffTs, order);
    EventsOfPlan(CsvPlan(ts, cutoffTs, order));
  }

  lemma EventsOfPlan(plan: BalancePlan)
    ensures PlanEvents(plan) == AllEvents(Phases(plan))
  {
  }

  /** How many requests a CSV import takes; every order gives the same number. */
  function CsvBatchCount(ts: seq<Transfer>, cutoffTs: nat): nat {
    BatchCount(|KeySet(Before(ts, cutoffTs))|) + BatchCount(|WindowedPart(ts, cutoffTs)|)
  }

  lemma CsvBatches(ts: seq<Transfer>, cutoffTs: nat, order: seq<Key>)
    requires PossibleOrder(ts, cutoffTs, order)
    ensures |AllBatches(Phases(CsvPlan(ts, cutoffTs, order)))| == CsvBatchCount(ts, cutoffTs)
  {
    hide Before, WindowedPart, Chunk, Aggregated, IsEnumeration;
    var phases := Phases(CsvPlan(ts, cutoffTs, order));
    CompressedCount(ts, cutoffTs, order);
    assert phases[..3][..2][..1][..0] == [];
    assert phases[..1] == [phases[0]] && phases[..2][..1] == phases[..1] && phases[..3][..2] == phases[..2];
    assert |AllBatches(phases[..1])| == 0;
    assert |AllBatches(phases[..2])| == 0;
    assert |AllBatches(phases[..3])| == BatchCount(|phases[2].events|);
  }

  lemma CompressedCount(ts: seq<Transfer>, cutoffTs: nat, order: seq<Key>)
    requires PossibleOrder(ts, cutoffTs, order)
    ensures |CsvPlan(ts, cutoffTs, order).syntheticTransfers| == |KeySet(Before(ts, cutoffTs))|
  {
    hide Before, WindowedPart;
    EnumerationLength(order, KeySet(Before(ts, cutoffTs)));
    if cutoffTs == 0 {
      NothingBeforeZero(ts);
    }
  }

  /** End to end for every order: the import is certain to succeed exactly when all is delivered and importable. */
  lemma CsvExecutionInEveryOrder(net: Network, c: ImportState, cluster: Cluster, ts: seq<Transfer>, cutoffTs: nat)
    requires c.ok && cluster.Describes(c.ledger)
    ensures (forall order :: PossibleOrder(ts, cutoffTs, order) ==>
               SendPhases(net, c, Phases(CsvPlan(ts, cutoffTs, order)), 0).ok)
            <==> && AllDelivered(net, |c.sent|, |c.sent| + CsvBatchCount(ts, cutoffTs))
                 && CsvImportable(cluster, ts, cutoffTs)
  {
    hide *;
    forall order | PossibleOrder(ts, cutoffTs, order)
      ensures SendPhases(net, c, Phases(CsvPlan(ts, cutoffTs, order)), 0).ok <==>
              && AllDelivered(net, |c.sent|, |c.sent| + CsvBatchCount(ts, cutoffTs))
              && TransfersImportable(cluster, PlannedTransfers(CsvPlan(ts, cutoffTs, order)))
    {
      CsvExecution(net, c, cluster, ts, cutoffTs, order);
      CsvBatches(ts, cutoffTs, order);
    }
    ImportableInEveryOrderIff(cluster, c.ledger, ts, cutoffTs);
    AlwaysImportableIs(cluster, ts, cutoffTs);
    var order := SomeOrder(ts, cutoffTs);
  }

  lemma SomeOrder(ts: seq<Transfer>, cutoffTs: nat) returns (order: seq<Key>)
    ensures PossibleOrder(ts, cutoffTs, order)
  {
    order := EnumerationExists(KeySet(Before(ts, cutoffTs)));
  }

  /** Two transfers must not share an id, and the compressed ones take the ids from 1 on. */
  lemma CsvIdCollisionRejected(s: Ledger, c: Cluster, ts: seq<Transfer>, cutoffTs: nat, order: seq<Key>, t: Transfer)
    requires PossibleOrder(ts, cutoffTs, order) && c.Describes(s)
    requires t in ts && t.timestamp >= cutoffTs && 1 <= t.id <= |KeySet(Before(ts, cutoffTs))|
    ensures Run(s, PlanEvents(CsvPlan(ts, cutoffTs, order))).Err?
  {
    hide *;
    CsvPlanRuns(s, ts, cutoffTs, order);
    CsvPlanAcceptedIff(s, c, ts, cutoffTs, order);
    var k := WindowedIndex(ts, cutoffTs, t);
    CompressedCount(ts, cutoffTs, order);
    if TransfersImportable(c, PlannedTransfers(CsvPlan(ts, cutoffTs, order))) {
      PlannedIdsDiffer(c, ts, cutoffTs, order, k, t.id - 1);
    }
  }

  /** Every transfer since the cutoff is replayed, unchanged but for its timestamp. */
  lemma WindowedIndex(ts: seq<Transfer>, cutoffTs: nat, t: Transfer) returns (k: nat)
    requires t in ts && t.timestamp >= cutoffTs
    ensures k < |WindowedPart(ts, cutoffTs)| && WindowedPart(ts, cutoffTs)[k].(timestamp := t.timestamp) == t
  {
    hide Dedup, SortByKey;
    var source := if cutoffTs == 0 then ts else Since(ts, cutoffTs);
    var start := if cutoffTs == 0 then 0 else cutoffTs - 1;
    SinceHas(ts, cutoffTs, t);
    SortPermutes(TransferTimestamp, source);
    var sorted := SortByKey(TransferTimestamp, source);
    assert t in multiset(source);
    assert t in sorted;
    k :| 0 <= k < |sorted| && sorted[k] == t;
    DedupTransfersAt(sorted, start, k);
  }

  lemma {:induction false} SinceHas(ts: seq<Transfer>, cutoffTs: nat, t: Transfer)
    requires t in ts && t.timestamp >= cutoffTs
    ensures t in Since(ts, cutoffTs)
  {
    if t != ts[|ts| - 1] {
      SinceHas(ts[..|ts| - 1], cutoffTs, t);
    }
  }

  lemma PlannedIdsDiffer(c: Cluster, ts: seq<Transfer>, cutoffTs: nat, order: seq<Key>, k: nat, j: nat)
    requires k < |WindowedPart(ts, cutoffTs)| && j < |CsvPlan(ts, cutoffTs, order).syntheticTransfers|
    requires TransfersImportable(c, PlannedTransfers(CsvPlan(ts, cutoffTs, order)))
    ensures WindowedPart(ts, cutoffTs)[k].id != j + 1
  {
    hide WindowedPart, TransfersImportable, Before;
    var plan := CsvPlan(ts, cutoffTs, order);
    assert plan.syntheticTransfers[j].id == j + 1;
    var all, n := PlannedTransfers(plan), |plan.syntheticTransfers|;
    assert all[j] == ConvertTransfer(plan.syntheticTransfers[j]) && all[n + k] == plan.windowedTransfers[k];
    EarlierIdDiffers(c, all, j, n + k);
  }

  lemma EarlierIdDiffers(c: Cluster, ts: seq<Transfer>, j: nat, k: nat)
    requires TransfersImportable(c, ts) && j < k < |ts|
    ensures ts[j].id != ts[k].id
  {
    assert Taken(c, ts, k);
  }
}
