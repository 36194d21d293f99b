/** A writer: any list of accounts that fits one block can be written as a data file, and is read back. */
module WrittenFile {
  import opened Wrappers
  import opened Records
  import opened Sorting
  import opened Layout
  import opened Streams
  import opened Manifest
  import opened Merge
  import opened DataFile
  import opened Format
  import opened ManifestFormat
  import opened LogFormat
  import opened Image

  function Zeros(n: nat): (b: seq<Byte>)
    ensures |b| == n
  {
    seq(n, _ => 0)
  }

  function PlainHeader(size: nat, metadata: seq<Byte>, address: nat, blockType: Byte): Header {
    Header(Zeros(96), size, Zeros(14), 20, Zeros(13), metadata, address, Zeros(8), blockType, Zeros(15))
  }

  /** Room for one index entry, one manifest entry, or all the accounts. */
  function BlockSize(accounts: seq<Account>): nat {
    640 + 128 * |accounts|
  }

  function TheConfig(accounts: seq<Account>): Config {
    Config(BlockSize(accounts), 0, 0, 0, 0, 0)
  }

  // ---------------------------------------------------------------------------
  // The three blocks: manifest, index, values
  // ---------------------------------------------------------------------------

  function Values(accounts: seq<Account>): ValueImage {
    var header := PlainHeader(256 + 128 * |accounts|, Zeros(96), 3, 5);
    var slots := AccountSlots(accounts);
    ValueImage(HeaderBytes(header) + (SlotBytes(slots) + Zeros(384)), header, slots, 0, Zeros(384))
  }

  function TheIndex(accounts: seq<Account>): Index {
    Index(1, 0, Zeros(84), Zeros(32), [], [], [3], Zeros(344 + 128 * |accounts|))
  }

  function Table(accounts: seq<Account>): TableImage {
    var index := TheIndex(accounts);
    var header := PlainHeader(296, IndexMetadata(index), 2, 4);
    TableImage(HeaderBytes(header) + IndexBody(index), header, index, [Values(accounts)])
  }

  function Manifested(accounts: seq<Account>): ManifestImage {
    var entries, rest := [Entry(Zeros(96), 2, Zeros(20), 7, 64, 0)], Zeros(256 + 128 * |accounts|);
    var m := ManifestImage([], PlainHeader(384, [], 1, 3), Zeros(32), 0, Zeros(52), entries, rest);
    var header := PlainHeader(384, ManifestMetadata(m), 1, 3);
    m.(header := header, block := HeaderBytes(header) + (EntriesBytes(entries) + rest))
  }

  function TheFile(accounts: seq<Account>): File {
    Manifested(accounts).block + Table(accounts).block + Values(accounts).block
  }

  function TheImage(accounts: seq<Account>): Image {
    Image([Manifested(accounts)], map[2 := Table(accounts)], [])
  }

  const INFO: SuperblockInfo := SuperblockInfo(1, 1, 1, 0)

  predicate Writable(accounts: seq<Account>) {
    256 + 128 * |accounts| < 0x1_0000_0000
  }

  lemma Widths()
    ensures Pow256(2) == 0x1_0000 && Pow256(4) == 0x1_0000_0000 && Pow256(8) == 0x1_0000_0000_0000_0000
  {
    assert Pow256(4) == 0x1_0000 * Pow256(2);
    assert Pow256(8) == 0x1_0000_0000 * Pow256(4);
  }

  lemma {:induction false} SlotPerAccount(accounts: seq<Account>)
    ensures |AccountSlots(accounts)| == |accounts|
  {
    if accounts != [] {
      SlotPerAccount(accounts[1..]);
    }
  }

  lemma HeaderLength(h: Header)
    requires HeaderFits(h)
    ensures |HeaderBytes(h)| == 256
  {
    HeaderReadBack(h, []);
  }

  lemma ValueBlockFits(accounts: seq<Account>)
    requires Writable(accounts)
    ensures var v := Values(accounts);
            && |v.block| == BlockSize(accounts) && IsBlock(v.block, v.header, 5, SlotBytes(v.slots) + v.rest)
            && v.header.size == 256 + 128 * |v.slots|
  {
    Widths();
    SlotPerAccount(accounts);
    HeaderLength(Values(accounts).header);
    hide HeaderBytes, AccountSlots, SlotBytes, Pow256;
  }

  lemma BlockSizeIs(accounts: seq<Account>)
    ensures BlockSize(accounts) == 640 + 128 * |accounts|
  {
  }

  lemma IndexIsFit(accounts: seq<Account>)
    ensures var x := TheIndex(accounts);
            && IndexFits(x) && |IndexMetadata(x)| == 96 && |IndexBody(x)| == BlockSize(accounts) - 256
            && Nonzero(x.entries) == [3]
  {
    Widths();
    assert [3][..0] == [];
    hide Pow256, ToLE;
  }

  lemma TableBlockFits(accounts: seq<Account>)
    ensures var t := Table(accounts);
            && |t.block| == BlockSize(accounts) && IsBlock(t.block, t.header, 4, IndexBody(t.index))
            && IndexFits(t.index) && t.header.metadata == IndexMetadata(t.index) && Nonzero(t.index.entries) == [3]
  {
    Widths();
    hide HeaderBytes, Pow256, IndexMetadata, IndexBody, IndexFits, Nonzero, TheIndex, BlockSize;
    IndexIsFit(accounts);
    HeaderLength(Table(accounts).header);
    assert BlockSize(accounts) >= 296 by {
      BlockSizeIs(accounts);
    }
  }

  lemma ManifestBlockFits(accounts: seq<Account>)
    ensures var m := Manifested(accounts);
            && |m.block| == BlockSize(accounts) && IsBlock(m.block, m.header, 3, EntriesBytes(m.entries) + m.rest)
            && m.header.metadata == ManifestMetadata(m) && AllFit(m.entries)
            && |m.checksums| == 32 && m.previous == 0 && |m.entries| == 1 && |m.otherMetadata| == 52
  {
    Widths();
    var m := Manifested(accounts);
    EntryReadBack(m.entries[0]);
    assert m.entries[..0] == [];
    assert EntriesBytes(m.entries) == [] + EntryBytes(m.entries[0]);
    HeaderLength(m.header);
    hide HeaderBytes, Pow256, EntriesBytes;
  }

  lemma ThreeBlocks(a: seq<Byte>, b: seq<Byte>, c: seq<Byte>, config: Config)
    requires |a| == |b| == |c| == config.blockSize && config.gridZoneStart == 0
    ensures BlockStored(a + b + c, config, 1, a) && BlockStored(a + b + c, config, 2, b)
            && BlockStored(a + b + c, config, 3, c)
  {
    Middle([], a, b + c);
    assert [] + a + (b + c) == a + b + c;
    Middle(a, b, c);
    Middle(a + b, c, []);
    assert a + b + c + [] == a + b + c;
  }

  /** The three blocks lie where addresses 1, 2 and 3 say. */
  lemma BlocksInPlace(accounts: seq<Account>)
    requires Writable(accounts)
    ensures BlockStored(TheFile(accounts), TheConfig(accounts), 1, Manifested(accounts).block)
    ensures BlockStored(TheFile(accounts), TheConfig(accounts), 2, Table(accounts).block)
    ensures BlockStored(TheFile(accounts), TheConfig(accounts), 3, Values(accounts).block)
  {
    hide Values, Table, Manifested, IsBlock, IndexFits, Nonzero, BlockSize, Writable, BlockStored, IndexMetadata,
         IndexBody, ManifestMetadata, EntriesBytes, SlotBytes, AllFit;
    ValueBlockFits(accounts);
    TableBlockFits(accounts);
    ManifestBlockFits(accounts);
    ThreeBlocks(Manifested(accounts).block, Table(accounts).block, Values(accounts).block, TheConfig(accounts));
  }

  lemma TableIsStored(accounts: seq<Account>)
    requires Writable(accounts)
    ensures TableStored(TheFile(accounts), TheConfig(accounts), 2, Table(accounts))
  {
    ValuesAre(accounts);
    hide BlockStored, IsBlock, IndexFits, IndexBody, Nonzero, Values, TheFile, IndexMetadata, SlotBytes, Table;
    BlocksInPlace(accounts);
    ValueBlockFits(accounts);
    TableBlockFits(accounts);
    assert ValueStored(TheFile(accounts), TheConfig(accounts), 3, Values(accounts));
  }

  lemma ValuesAre(accounts: seq<Account>)
    ensures Table(accounts).values == [Values(accounts)]
    ensures Values(accounts).slots == AccountSlots(accounts)
    ensures Values(accounts).spare == 0 && |Values(accounts).rest| == 384
  {
    hide HeaderBytes, SlotBytes, AccountSlots, IndexMetadata, IndexBody;
  }

  lemma ManifestIsStored(accounts: seq<Account>)
    requires Writable(accounts)
    ensures ManifestStored(TheFile(accounts), TheConfig(accounts), 1, Manifested(accounts))
    ensures Manifested(accounts).previous == 0
  {
    Widths();
    hide BlockStored, IsBlock, Manifested, TheFile, ManifestMetadata, EntriesBytes, Pow256, AllFit;
    BlocksInPlace(accounts);
    ManifestBlockFits(accounts);
  }

  /** The file is a written file: the predicate has an instance for every list of accounts. */
  lemma FileIsWritten(accounts: seq<Account>)
    requires Writable(accounts)
    ensures Written(TheImage(accounts), 7, TheFile(accounts), TheConfig(accounts), INFO)
  {
    hide TableStored, ManifestStored, Table, Manifested, TheFile, NewestKeeps, ChainEvents, MessageStored;
    TableIsStored(accounts);
    ManifestIsStored(accounts);
    OneLiveTable(accounts);
    var chain := TheImage(accounts).chain;
    assert chain[1..] == [];
    assert ChainStored(TheFile(accounts), TheConfig(accounts), 0, []);
  }

  lemma OneLiveTable(accounts: seq<Account>)
    ensures forall a: nat :: NewestKeeps(ChainEvents([Manifested(accounts)]), Some(7), a) <==> a == 2
  {
    var e := TableInfo(2, 7, Insert);
    EventsAre(accounts);
    hide Events, Manifested;
    var m := Manifested(accounts);
    assert [m][1..] == [] && ChainEvents([]) == [];
    var log := ChainEvents([m]);
    assert log == [[e]] + [];
    assert KeptAt(log, Some(7), 2, 0, 0);
  }

  lemma EventsAre(accounts: seq<Account>)
    ensures Events(Manifested(accounts).entries) == [TableInfo(2, 7, Insert)]
  {
    var entries := Manifested(accounts).entries;
    assert entries[..0] == [];
    assert Events([]) == [];
  }

  /**
    Reading back what was written: the accounts of the written file are read, and are exactly the accounts
    written, in order.
   */
  lemma AccountsRoundTrip(accounts: seq<Account>, r: Result<seq<Account>, ReaderError>)
    requires Writable(accounts)
    requires forall i :: 0 <= i < |accounts| ==>
               AccountFits(accounts[i]) && 0 < accounts[i].id < 0xFFFF_FFFF_FFFF_FFFF_FFFF_FFFF_FFFF_FFFF
    requires AccountsRead(TheFile(accounts), TheConfig(accounts), INFO, r)
    ensures r == Ok(accounts)
  {
    hide Written, AccountsRead, TheFile, TheConfig, AccountSlots, AccountFits, IsEnumeration, Table, Unpadded, Concat,
         WrittenTables, WrittenLog, Manifested, Writable;
    var image := TheImage(accounts);
    FileIsWritten(accounts);
    WrittenAccountsRead(image, TheFile(accounts), TheConfig(accounts), INFO, r);
    AccountsGivenBack(accounts);
    OneTable(accounts);
    var tables, log := WrittenTables(ACCOUNTS, image), WrittenLog(ACCOUNTS, image, 0);
    var order :| IsEnumeration(order, image.tables.Keys) && IsAccountList(r.value, Concat(tables, order), log);
    assert image.tables.Keys == {2};
    OnlyOrder(order, 2);
    ConcatOne(2, accounts);
  }

  lemma ConcatOne(a: nat, accounts: seq<Account>)
    ensures Concat(map[a := accounts], [a]) == accounts
  {
    assert [a][1..] == [];
    assert Concat(map[a := accounts], [a]) == accounts + [];
  }

  lemma OneTable(accounts: seq<Account>)
    ensures WrittenTables(ACCOUNTS, TheImage(accounts)) == map[2 := Unpadded(ACCOUNTS, AccountSlots(accounts))]
    ensures WrittenLog(ACCOUNTS, TheImage(accounts), 0) == []
  {
    hide Table, Values, Manifested, AccountSlots, Unpadded, SlotsOf, LoggedSlots;
    ValuesAre(accounts);
    OneBlock(Values(accounts));
    NoSlots(ACCOUNTS);
    NoMessages();
    var image := TheImage(accounts);
    assert image.tables.Keys == {2} && image.tables[2] == Table(accounts);
  }

  lemma OneBlock(v: ValueImage)
    ensures SlotsOf([v], 0) == v.slots
  {
    assert SlotsOf([v], 1) == [];
    assert SlotsOf([v], 0) == v.slots + [];
  }

  lemma NoMessages()
    ensures LoggedSlots([], ACCOUNTS.walOperation, 0, 0) == []
  {
  }

  lemma OnlyOrder(order: seq<nat>, a: nat)
    requires IsEnumeration(order, {a})
    ensures order == [a]
  {
    EnumerationLength(order, {a});
    assert order[0] in order;
  }
}
