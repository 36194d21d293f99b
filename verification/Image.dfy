/** A whole data file as it is written, and the theorem that reading it gives back what was written. */
module Image {
  import opened Wrappers
  import opened Records
  import opened Sorting
  import opened Layout
  import opened Streams
  import opened Manifest
  import opened Merge
  import opened DataFile
  import opened Format
  import opened ManifestFormat
  import opened LogFormat

  /** The manifest chain, newest block first, the live tables of one tree by address, and the log by slot. */
  datatype Image = Image(chain: seq<ManifestImage>, tables: map<nat, TableImage>, messages: seq<Message>)

  /** The file is this image, as far as the records of one tree are concerned. */
  ghost predicate Written(image: Image, tree: nat, file: File, config: Config, info: SuperblockInfo) {
    && info.manifestBlockCount > 0 && image.chain != [] && |image.chain| <= info.manifestBlockCount + 1
    && ChainStored(file, config, info.manifestNewestAddress, image.chain)
    && (forall a :: a in image.tables <==> NewestKeeps(ChainEvents(image.chain), Some(tree), a))
    && (forall a <- image.tables :: TableStored(file, config, a, image.tables[a]))
    && LogStored(file, config, image.messages)
  }

  /** The records written into each table, without padding. */
  function WrittenTables<T>(kind: RecordKind<T>, image: Image): map<nat, seq<T>> {
    map a <- image.tables :: Unpadded(kind, SlotsOf(image.tables[a].values, 0))
  }

  /** The records written into the log after the checkpoint, without padding. */
  function WrittenLog<T>(kind: RecordKind<T>, image: Image, checkpointOp: nat): seq<T> {
    Unpadded(kind, LoggedSlots(image.messages, kind.walOperation, checkpointOp, 0))
  }

  lemma LiveAsWritten(image: Image, tree: nat, file: File, config: Config, info: SuperblockInfo)
    requires Written(image, tree, file, config, info)
    ensures LiveTables(file, config, info, tree) == Ok(image.tables.Keys)
  {
    hide ManifestStored, TableStored, LogStored, ChainEvents, FirstSeen, Wanted, Flatten, NewestKeeps, Log;
    var log := ChainEvents(image.chain);
    NotNull(file, config, info.manifestNewestAddress, image.chain[0]);
    ChainReadBack(file, config, info.manifestNewestAddress, image.chain, info.manifestBlockCount + 1);
    var seen := FirstSeen(Wanted(Flatten(log), Some(tree)));
    assert WalkResult(file, config, info, Some(tree)) == Ok(seen);
    forall a
      ensures a in LiveIn(seen) <==> a in image.tables
    {
      WalkLiveIff(log, Some(tree), a);
    }
    assert LiveIn(seen) == image.tables.Keys;
  }

  /**
    Reading a file gives back exactly what was written into it: the records of the live tables, table by table,
    and those of the log after the checkpoint, without padding and in order.
   */
  lemma ReadsBack<T>(kind: RecordKind<T>, image: Image, tree: nat, file: File, config: Config, info: SuperblockInfo)
    requires Written(image, tree, file, config, info)
    ensures Intact(kind, tree, file, config, info)
    ensures Checkpointed(kind, tree, file, config, info) == WrittenTables(kind, image)
    ensures Logged(kind, file, config, info) == WrittenLog(kind, image, info.checkpointOp)
  {
    LiveAsWritten(image, tree, file, config, info);
    hide LiveTables, ChainStored, NewestKeeps, TableStored, LogStored, Unpadded, Lsm.TableStream, Wal.SlotsFrom;
    TablesReadBack(kind, image, file, config);
    LogReadBack(kind, file, config, info.checkpointOp, image.messages, 0);
  }

  lemma TablesReadBack<T>(kind: RecordKind<T>, image: Image, file: File, config: Config)
    requires forall a <- image.tables :: TableStored(file, config, a, image.tables[a])
    ensures AllReadable(kind, file, config, image.tables.Keys)
    ensures Tables(kind, file, config, image.tables.Keys) == WrittenTables(kind, image)
  {
    hide TableStored, Unpadded, Lsm.TableStream, SlotsOf;
    forall a <- image.tables
      ensures Lsm.TableStream(kind, file, config, a) == Stream(Unpadded(kind, SlotsOf(image.tables[a].values, 0)), None)
    {
      TableReadBack(kind, file, config, a, image.tables[a]);
    }
  }

  // ---------------------------------------------------------------------------
  // Accounts and transfers
  // ---------------------------------------------------------------------------

  function AccountSlots(accounts: seq<Account>): seq<Slot> {
    hide AccountToBytes;
    if accounts == [] then [] else [AccountToBytes(accounts[0])] + AccountSlots(accounts[1..])
  }

  function TransferSlots(transfers: seq<Transfer>): seq<Slot> {
    hide TransferToBytes;
    if transfers == [] then [] else [TransferToBytes(transfers[0])] + TransferSlots(transfers[1..])
  }

  /** Every account that fits its fields, and whose id is not one of the two that mark padding, is given back. */
  lemma {:induction false} AccountsGivenBack(accounts: seq<Account>)
    requires forall i :: 0 <= i < |accounts| ==>
               AccountFits(accounts[i]) && 0 < accounts[i].id < 0xFFFF_FFFF_FFFF_FFFF_FFFF_FFFF_FFFF_FFFF
    ensures Unpadded(ACCOUNTS, AccountSlots(accounts)) == accounts
  {
    hide AccountFits, AccountToBytes, AccountFromBytes;
    if accounts != [] {
      AccountEncodeDecode(accounts[0]);
      AccountsGivenBack(accounts[1..]);
    }
  }

  lemma {:induction false} TransfersGivenBack(transfers: seq<Transfer>)
    requires forall i :: 0 <= i < |transfers| ==>
               TransferFits(transfers[i]) && 0 < transfers[i].id < 0xFFFF_FFFF_FFFF_FFFF_FFFF_FFFF_FFFF_FFFF
    ensures Unpadded(TRANSFERS, TransferSlots(transfers)) == transfers
  {
    hide TransferFits, TransferToBytes, TransferFromBytes;
    if transfers != [] {
      TransferEncodeDecode(transfers[0]);
      TransfersGivenBack(transfers[1..]);
    }
  }

  /** Slots that hold padding are given back as nothing, accounts and transfers alike. */
  lemma PaddingDropped(a: Account, t: Transfer)
    requires AccountFits(a) && TransferFits(t)
    requires a.id == 0 || a.id == 0xFFFF_FFFF_FFFF_FFFF_FFFF_FFFF_FFFF_FFFF
    requires t.id == 0 || t.id == 0xFFFF_FFFF_FFFF_FFFF_FFFF_FFFF_FFFF_FFFF
    ensures Unpadded(ACCOUNTS, [AccountToBytes(a)]) == [] && Unpadded(TRANSFERS, [TransferToBytes(t)]) == []
  {
    hide AccountFits, TransferFits, AccountToBytes, TransferToBytes, AccountFromBytes, TransferFromBytes;
    AccountEncodeDecode(a);
    TransferEncodeDecode(t);
  }

  /** Accounts are logged by operation 138 and transfers by operation 139. */
  lemma OperationsLogged(image: Image, checkpointOp: nat)
    ensures WrittenLog(ACCOUNTS, image, checkpointOp)
         == Unpadded(ACCOUNTS, LoggedSlots(image.messages, 138, checkpointOp, 0))
    ensures WrittenLog(TRANSFERS, image, checkpointOp)
         == Unpadded(TRANSFERS, LoggedSlots(image.messages, 139, checkpointOp, 0))
  {
    hide Unpadded, LoggedSlots;
  }

  // ---------------------------------------------------------------------------
  // What reading the accounts of a written file returns
  // ---------------------------------------------------------------------------

  /** The accounts of a written file are read, and are the account list of what was written. */
  lemma WrittenAccountsRead(image: Image, file: File, config: Config, info: SuperblockInfo,
                            r: Result<seq<Account>, ReaderError>)
    requires Written(image, 7, file, config, info) && AccountsRead(file, config, info, r)
    ensures r.Ok?
    ensures exists order :: IsEnumeration(order, image.tables.Keys) && IsAccountList(
              r.value, Concat(WrittenTables(ACCOUNTS, image), order), WrittenLog(ACCOUNTS, image, info.checkpointOp))
  {
    hide Written, Intact, Checkpointed, Logged, IsAccountList, IsMeantList, AllDecoded, FailsWith, WrittenLog;
    ReadsBack(ACCOUNTS, image, 7, file, config, info);
  }

  /** The transfers of a written file since a cutoff are read, and are the window of what was written. */
  lemma WrittenTransfersRead(image: Image, file: File, config: Config, info: SuperblockInfo, cutoffTs: nat,
                             r: Result<seq<Transfer>, ReaderError>)
    requires Written(image, 18, file, config, info) && TransfersRead(file, config, info, cutoffTs, r)
    ensures r.Ok?
    ensures exists order :: IsEnumeration(order, image.tables.Keys) && IsWindow(
              r.value, Concat(WrittenTables(TRANSFERS, image), order), WrittenLog(TRANSFERS, image, info.checkpointOp),
              cutoffTs)
  {
    hide Written, Intact, Checkpointed, Logged, IsWindow, IsMeantWindow, FailsWith, WrittenLog;
    ReadsBack(TRANSFERS, image, 18, file, config, info);
  }

  /** The account is written into a live table or the log, and nothing else is written under its id. */
  ghost predicate WrittenOnce(tables: map<nat, seq<Account>>, log: seq<Account>, a: Account) {
    && (a in log || exists t :: t in tables && a in tables[t])
    && (forall x <- log :: x.id == a.id ==> x == a)
    && (forall t <- tables :: SameUnderId(tables[t], a))
  }

  predicate SameUnderId(records: seq<Account>, a: Account) {
    forall x <- records :: x.id == a.id ==> x == a
  }

  lemma VersionIs(records: seq<Account>, a: Account)
    requires SameUnderId(records, a)
    ensures a in records ==> Version(AccountId, records, a.id) == Some(a)
    ensures Version(AccountId, records, a.id).Some? ==> Version(AccountId, records, a.id) == Some(a)
  {
    LastByIdKeys(AccountId, records, a.id);
    if a in records {
      var k :| 0 <= k < |records| && records[k] == a;
      assert AccountId(records[k]) == a.id;
    }
  }

  /** Such an account is certain to be among the accounts read. */
  lemma WrittenOnceIsCertain(tables: map<nat, seq<Account>>, log: seq<Account>, a: Account)
    requires WrittenOnce(tables, log, a)
    ensures Certain(tables, log, a)
  {
    hide LastById, Version;
    VersionIs(log, a);
    VersionIsKeptOf(log, a);
    forall t <- tables
      ensures a in tables[t] ==> Version(AccountId, tables[t], a.id) == Some(a)
      ensures Version(AccountId, tables[t], a.id).Some? ==> Version(AccountId, tables[t], a.id) == Some(a)
    {
      VersionIs(tables[t], a);
    }
  }

  lemma VersionIsKeptOf(log: seq<Account>, a: Account)
    requires SameUnderId(log, a)
    ensures HasId(AccountId, log, a.id) <==> a in log
    ensures a in log ==> IsLast(AccountId, log, a)
  {
    VersionIs(log, a);
    IsLastIff(AccountId, log, a);
    if a in log {
      var k :| 0 <= k < |log| && log[k] == a;
      assert AccountId(log[k]) == a.id;
    }
  }
}
