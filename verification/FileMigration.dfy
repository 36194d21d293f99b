/** A migration from end to end: from the bytes of the old data file to the balances of the new cluster. */
module FileMigration {
  import opened Wrappers
  import opened Records
  import opened Sorting
  import opened Layout
  import opened Streams
  import opened Ledgers
  import opened Plans
  import opened Importers
  import opened Migration
  import opened Service
  import opened Manifest
  import opened Merge
  import opened DataFile
  import opened Image

  datatype MigrationError =
    | ReadFailed(read: ReaderError)
    | PendingBalances(count: nat)
    | ImportFailed(failure: ImportError)

  lemma DecodedLedgersFit(accounts: seq<Account>)
    requires AllDecoded(ACCOUNTS, accounts)
    ensures LedgersFit(accounts)
  {
    forall i | 0 <= i < |accounts|
      ensures accounts[i].ledger <= U32_MAX
    {
      assert Decoded(ACCOUNTS, accounts[i]);
      var b: Slot :| accounts[i] == ACCOUNTS.fromBytes(b);
      FromLEFits(b[112..116]);
      assert Pow256(4) == U32_MAX + 1;
    }
  }

  /** The plan to import, or why the request fails before anything is sent. */
  function RequestedPlan(accounts: Result<seq<Account>, ReaderError>, windowed: Result<seq<Transfer>, ReaderError>,
                         cutoffTs: nat, accountsOnly: bool): Result<BalancePlan, MigrationError>
    requires accounts.Ok? ==> LedgersFit(accounts.value)
  {
    if accounts.Err? then Err(ReadFailed(accounts.error))
    else if PendingCount(accounts.value) > 0 then Err(PendingBalances(PendingCount(accounts.value)))
    else if windowed.Err? then Err(ReadFailed(windowed.error))
    else Ok(MigrationPlan(accounts.value, windowed.value, cutoffTs, accountsOnly))
  }

  /** What the request has to read cannot be read to the end. */
  ghost predicate Damaged(file: File, config: Config, info: SuperblockInfo, cutoffTs: nat) {
    || !Intact(ACCOUNTS, ACCOUNT_OBJECTS_TREE_ID, file, config, info)
    || (cutoffTs > 0 && !Intact(TRANSFERS, TRANSFER_OBJECTS_TREE_ID, file, config, info))
  }

  lemma ReadsNeedIntact(file: File, config: Config, info: SuperblockInfo, cutoffTs: nat)
    ensures forall r :: AccountsRead(file, config, info, r) && r.Ok? ==>
              Intact(ACCOUNTS, ACCOUNT_OBJECTS_TREE_ID, file, config, info)
    ensures forall r :: TransfersRead(file, config, info, cutoffTs, r) && r.Ok? ==>
              Intact(TRANSFERS, TRANSFER_OBJECTS_TREE_ID, file, config, info)
  {
    hide Intact;
  }

  /**
    Reads the file, refuses while any account has a pending balance, plans, and imports. `accounts` and
    `windowed` are what the reads returned; without a cutoff no transfer is read. From a damaged file
    nothing is imported.
   */
  method ExecuteMigration(file: File, config: Config, info: SuperblockInfo, cutoffTs: nat, accountsOnly: bool,
                          importer: Importer)
    returns (r: Result<(), MigrationError>,
             ghost accounts: Result<seq<Account>, ReaderError>, ghost windowed: Result<seq<Transfer>, ReaderError>)
    modifies importer, importer.client
    ensures AccountsRead(file, config, info, accounts) && (accounts.Ok? ==> LedgersFit(accounts.value))
    ensures if cutoffTs > 0 && accounts.Ok? && PendingCount(accounts.value) == 0
            then TransfersRead(file, config, info, cutoffTs, windowed)
            else windowed == Ok([])
    ensures var plan := RequestedPlan(accounts, windowed, cutoffTs, accountsOnly);
            && (plan.Err? ==> r == Err(plan.error) && importer.State(true) == old(importer.State(true)))
            && (plan.Ok? ==> (importer.State(r.Ok?)
                              == SendPhases(importer.client.net, old(importer.State(true)), Phases(plan.value), 0)))
    ensures Damaged(file, config, info, cutoffTs) ==> r.Err? && importer.State(true) == old(importer.State(true))
    ensures accounts.Ok? && PendingIndices(accounts.value) != {} ==>
              r == Err(PendingBalances(|PendingIndices(accounts.value)|))
              && importer.State(true) == old(importer.State(true))
    ensures r.Ok? ==> accounts.Ok? && forall a <- accounts.value :: a.debitsPending == 0 && a.creditsPending == 0
  {
    hide AccountsRead, TransfersRead, MigrationPlan, SendPhases, PendingCount, PendingIndices, LedgersFit, Intact;
    ReadsNeedIntact(file, config, info, cutoffTs);
    windowed := Ok([]);
    var read := ReadAccounts(file, config, info);
    accounts := read;
    if read.Err? {
      return Err(ReadFailed(read.error)), accounts, windowed;
    }
    OnlyDecoded(file, config, info, read.value);
    var pendingCount := CountPending(read.value);
    NonePending(read.value);
    if pendingCount > 0 {
      return Err(PendingBalances(pendingCount)), accounts, windowed;
    }
    var window: Result<seq<Transfer>, ReaderError> := Ok([]);
    if cutoffTs > 0 {
      window := ReadTransfersSince(file, config, info, cutoffTs);
    }
    windowed := window;
    if window.Err? {
      return Err(ReadFailed(window.error)), accounts, windowed;
    }
    var plan := PlanMigration(read.value, window.value, cutoffTs, accountsOnly);
    var outcome := importer.ImportAllWithProgress(plan);
    r := match outcome case Ok(_) => Ok(()) case Err(e) => Err(ImportFailed(e));
  }

  lemma NonePending(accounts: seq<Account>)
    ensures PendingIndices(accounts) == {} <==> forall a <- accounts :: a.debitsPending == 0 && a.creditsPending == 0
    ensures PendingIndices(accounts) == {} <==> |PendingIndices(accounts)| == 0
  {
    if PendingIndices(accounts) == {} {
      forall a <- accounts
        ensures a.debitsPending == 0 && a.creditsPending == 0
      {
        var i: nat :| i < |accounts| && accounts[i] == a;
        assert i !in PendingIndices(accounts);
      }
    }
    if forall a <- accounts :: a.debitsPending == 0 && a.creditsPending == 0 {
      assert forall i: nat :: i < |accounts| ==> accounts[i] in accounts;
    }
  }

  lemma OnlyDecoded(file: File, config: Config, info: SuperblockInfo, accounts: seq<Account>)
    requires AccountsRead(file, config, info, Ok(accounts))
    ensures LedgersFit(accounts)
  {
    DecodedLedgersFit(accounts);
  }

  /** The account is in the file, and which version of it is meant is certain. */
  ghost predicate CertainAccount(file: File, config: Config, info: SuperblockInfo, a: Account) {
    Certain(Checkpointed(ACCOUNTS, ACCOUNT_OBJECTS_TREE_ID, file, config, info), Logged(ACCOUNTS, file, config, info),
            a)
  }

  /** Every account of the file that is certain is among the accounts read, whatever becomes of the others. */
  lemma CertainAccountsRead(file: File, config: Config, info: SuperblockInfo, accounts: seq<Account>, a: Account)
    requires AccountsRead(file, config, info, Ok(accounts)) && CertainAccount(file, config, info, a)
    ensures a in accounts
  {
    hide Certain, IsAccountList, Intact;
  }

  /**
    From file to cluster, without a cutoff: the import of the accounts read into an empty cluster reports
    success exactly when all is delivered and they are importable, and then every certain account of the
    file is in the cluster with its posted balances.
   */
  lemma FileToCluster(net: Network, c: ImportState, file: File, config: Config, info: SuperblockInfo,
                      accounts: seq<Account>, clock: nat)
    requires AccountsRead(file, config, info, Ok(accounts)) && c.ok && c.ledger == EmptyLedger(clock)
    ensures LedgersFit(accounts)
    ensures var phases := Phases(MigrationPlan(accounts, [], 0, false));
            var r := SendPhases(net, c, phases, 0);
            && (r.ok <==> AllDelivered(net, |c.sent|, |c.sent| + |AllBatches(phases)|)
                          && Importable(accounts, false, clock))
            && (r.ok ==> forall a | CertainAccount(file, config, info, a) ::
                  Holds(r.ledger, a, a.debitsPosted, a.creditsPosted))
  {
    hide *;
    OnlyDecoded(file, config, info, accounts);
    SnapshotExecution(net, c, accounts, clock);
    forall a | CertainAccount(file, config, info, a)
      ensures a in accounts
    {
      CertainAccountsRead(file, config, info, accounts, a);
    }
  }

  /**
    From file to cluster, with a cutoff: success exactly when all is delivered and accounts and window are
    importable. Then every certain account holds its cutoff balances plus what the window moved, which is
    its final balance exactly if the window explains it; and the window holds meant transfers of the file
    since the cutoff only, and every one of them whose id is decided.
   */
  lemma FileToClusterWindowed(net: Network, c: ImportState, file: File, config: Config, info: SuperblockInfo,
                              accounts: seq<Account>, windowed: seq<Transfer>, cutoffTs: nat, clock: nat)
    requires AccountsRead(file, config, info, Ok(accounts)) && TransfersRead(file, config, info, cutoffTs, Ok(windowed))
    requires c.ok && c.ledger == EmptyLedger(clock) && cutoffTs > 0
    ensures LedgersFit(accounts)
    ensures var phases := Phases(MigrationPlan(accounts, windowed, cutoffTs, false));
            var r := SendPhases(net, c, phases, 0);
            && (r.ok <==> AllDelivered(net, |c.sent|, |c.sent| + |AllBatches(phases)|)
                          && WindowImportable(accounts, windowed, cutoffTs, clock))
            && (r.ok ==> Replayed(r.ledger, windowed))
            && (r.ok ==> forall a | CertainAccount(file, config, info, a) ::
                  WindowedOutcome(r.ledger, a, windowed, cutoffTs))
    ensures IsMeantWindow(windowed, Checkpointed(TRANSFERS, TRANSFER_OBJECTS_TREE_ID, file, config, info),
                          Logged(TRANSFERS, file, config, info), cutoffTs)
  {
    OnlyDecoded(file, config, info, accounts);
    hide *;
    WindowRead(file, config, info, cutoffTs, windowed);
    WindowedExecution(net, c, accounts, windowed, cutoffTs, clock);
    forall a | CertainAccount(file, config, info, a)
      ensures a in accounts
    {
      CertainAccountsRead(file, config, info, accounts, a);
    }
  }

  lemma WindowRead(file: File, config: Config, info: SuperblockInfo, cutoffTs: nat, windowed: seq<Transfer>)
    requires TransfersRead(file, config, info, cutoffTs, Ok(windowed))
    ensures IsMeantWindow(windowed, Checkpointed(TRANSFERS, TRANSFER_OBJECTS_TREE_ID, file, config, info),
                          Logged(TRANSFERS, file, config, info), cutoffTs)
  {
  }

  /**
    From what is written to the cluster: the accounts of a written file are read, and when their import reports
    success, every account written once in it is in the cluster with the balances that were written.
   */
  lemma WrittenFileToCluster(net: Network, c: ImportState, image: Image, file: File, config: Config,
                             info: SuperblockInfo, read: Result<seq<Account>, ReaderError>, clock: nat)
    requires Written(image, 7, file, config, info) && AccountsRead(file, config, info, read)
    requires c.ok && c.ledger == EmptyLedger(clock)
    ensures read.Ok? && LedgersFit(read.value)
    ensures var tables, log := WrittenTables(ACCOUNTS, image), WrittenLog(ACCOUNTS, image, info.checkpointOp);
            var r := SendPhases(net, c, Phases(MigrationPlan(read.value, [], 0, false)), 0);
            r.ok ==> forall a | WrittenOnce(tables, log, a) :: Holds(r.ledger, a, a.debitsPosted, a.creditsPosted)
  {
    hide *;
    ReadsBack(ACCOUNTS, image, 7, file, config, info);
    WrittenAccountsRead(image, file, config, info, read);
    FileToCluster(net, c, file, config, info, read.value, clock);
    forall a | WrittenOnce(WrittenTables(ACCOUNTS, image), WrittenLog(ACCOUNTS, image, info.checkpointOp), a)
      ensures CertainAccount(file, config, info, a)
    {
      WrittenOnceIsCertain(WrittenTables(ACCOUNTS, image), WrittenLog(ACCOUNTS, image, info.checkpointOp), a);
      CertainAccountIs(file, config, info, a);
    }
  }

  lemma CertainAccountIs(file: File, config: Config, info: SuperblockInfo, a: Account)
    ensures CertainAccount(file, config, info, a) <==>
            Certain(Checkpointed(ACCOUNTS, 7, file, config, info), Logged(ACCOUNTS, file, config, info), a)
  {
    hide Checkpointed, Logged, Certain;
  }

  // ---------------------------------------------------------------------------
  // Tables that are not merged
  // ---------------------------------------------------------------------------

  /** Two tables of the file hold the same account id. */
  ghost predicate HeldTwice(tables: map<nat, seq<Account>>, id: nat) {
    exists p, q :: p in tables && q in tables && p != q && HasId(AccountId, tables[p], id)
      && HasId(AccountId, tables[q], id)
  }

  lemma {:induction false} RecordOfId(tables: map<nat, seq<Account>>, order: seq<nat>, p: nat, id: nat) returns (i: nat)
    requires p in order && p in tables && HasId(AccountId, tables[p], id)
    ensures i < |Concat(tables, order)| && Concat(tables, order)[i].id == id
  {
    var k :| 0 <= k < |tables[p]| && AccountId(tables[p][k]) == id;
    ConcatContains(tables, order, p, tables[p][k]);
    i :| 0 <= i < |Concat(tables, order)| && Concat(tables, order)[i] == tables[p][k];
  }

  lemma {:induction false} HeldTwiceListedTwice(tables: map<nat, seq<Account>>, order: seq<nat>, p: nat, q: nat,
                                                id: nat)
    requires p in order && q in order && p in tables && q in tables && p != q
    requires HasId(AccountId, tables[p], id) && HasId(AccountId, tables[q], id)
    ensures !DistinctIds(Concat(tables, order))
    decreases |order|
  {
    var first, rest := order[0], order[1..];
    if first != p && first != q {
      HeldTwiceListedTwice(tables, rest, p, q, id);
      var tail := Concat(tables, rest);
      var i, j :| 0 <= i < j < |tail| && AccountId(tail[i]) == AccountId(tail[j]);
      var skip := |Concat(tables, order)| - |tail|;
      assert Concat(tables, order)[skip + i] == tail[i] && Concat(tables, order)[skip + j] == tail[j];
    } else {
      var other := if first == p then q else p;
      var k :| 0 <= k < |tables[first]| && AccountId(tables[first][k]) == id;
      var i := RecordOfId(tables, rest, other, id);
      var all := Concat(tables, order);
      assert all[k] == tables[first][k] && all[|tables[first]| + i] == Concat(tables, rest)[i];
      assert AccountId(all[k]) == AccountId(all[|tables[first]| + i]);
    }
  }

  /** With no account in the log, two live tables that hold one id make every import of the file fail. */
  lemma UnmergedTablesRejected(file: File, config: Config, info: SuperblockInfo, accounts: seq<Account>, id: nat,
                               windowed: seq<Transfer>, cutoffTs: nat, clock: nat)
    requires AccountsRead(file, config, info, Ok(accounts)) && Logged(ACCOUNTS, file, config, info) == []
    requires HeldTwice(Checkpointed(ACCOUNTS, ACCOUNT_OBJECTS_TREE_ID, file, config, info), id)
    ensures LedgersFit(accounts)
    ensures !Importable(accounts, false, clock) && !CreatableAlone(accounts, clock)
    ensures !WindowImportable(accounts, windowed, cutoffTs, clock)
  {
    OnlyDecoded(file, config, info, accounts);
    hide Intact, IsMeantList, SortedLedgers;
    var tables := Checkpointed(ACCOUNTS, ACCOUNT_OBJECTS_TREE_ID, file, config, info);
    var read :| IsEnumeration(read, tables.Keys) && IsAccountList(accounts, Concat(tables, read), []);
    var p, q :| p in tables && q in tables && p != q && HasId(AccountId, tables[p], id)
      && HasId(AccountId, tables[q], id);
    HeldTwiceListedTwice(tables, read, p, q, id);
    CutoffKeepsIds(accounts, windowed, cutoffTs);
  }

  /** Two live tables with an old and a new version of account 7. */
  const TWO_VERSIONS: map<nat, seq<Account>> := map[1 := [Account(7, 0, 5, 0, 5, 0, 0, 0, 0, 1, 1, 0, 9)],
                                                    2 := [Account(7, 0, 8, 0, 8, 0, 0, 0, 0, 1, 1, 0, 9)]]

  /** With an empty log, both versions are read whatever the order of the tables, and no import is accepted. */
  lemma UnmergedExample(order: seq<nat>, accounts: seq<Account>, clock: nat)
    requires IsEnumeration(order, {1, 2}) && IsAccountList(accounts, Concat(TWO_VERSIONS, order), [])
    ensures LedgersFit(accounts)
    ensures Run(EmptyLedger(clock), PlanEvents(SnapshotPlan(accounts, false))).Err?
  {
    hide Run, PlanEvents, SnapshotPlan, SortedLedgers, IsEnumeration;
    BothListed(order);
    assert AccountId(TWO_VERSIONS[1][0]) == 7 && AccountId(TWO_VERSIONS[2][0]) == 7;
    HeldTwiceListedTwice(TWO_VERSIONS, order, 1, 2, 7);
    SmallLedgers(TWO_VERSIONS, order);
    SnapshotMigration(accounts, clock);
  }

  lemma BothListed(order: seq<nat>)
    requires IsEnumeration(order, {1, 2})
    ensures 1 in order && 2 in order
  {
  }

  lemma {:induction false} SmallLedgers(tables: map<nat, seq<Account>>, order: seq<nat>)
    requires forall p <- tables :: LedgersFit(tables[p])
    ensures LedgersFit(Concat(tables, order))
  {
    if order != [] {
      SmallLedgers(tables, order[1..]);
    }
  }

  lemma CutoffKeepsIds(accounts: seq<Account>, windowed: seq<Transfer>, cutoffTs: nat)
    ensures DistinctIds(AccountsAtCutoff(accounts, windowed, cutoffTs)) <==> DistinctIds(accounts)
  {
    hide Debits, Credits;
    var adjusted := AccountsAtCutoff(accounts, windowed, cutoffTs);
    assert forall i :: 0 <= i < |accounts| ==> AccountId(adjusted[i]) == AccountId(accounts[i]);
  }
}
