/** The manifest log as it is written, and what reading it gives back. */
module ManifestFormat {
  import opened Wrappers
  import opened Records
  import opened Layout
  import opened Manifest
  import opened Format

  /** A manifest entry of 128 bytes; the two high bits of `mark` (its label) are the event, the others the level. */
  datatype Entry = Entry(keys: seq<Byte>, address: nat, snapshots: seq<Byte>, treeId: nat, mark: Byte, reserved: Byte)

  predicate EntryFits(e: Entry) {
    |e.keys| == 96 && e.address < Pow256(8) && |e.snapshots| == 20 && e.treeId < Pow256(2)
  }

  function EntryBytes(e: Entry): seq<Byte> {
    e.keys + ToLE(e.address, 8) + e.snapshots + ToLE(e.treeId, 2) + [e.mark, e.reserved]
  }

  /** Labels 64..127 insert, 128..191 update, 192..255 remove; labels below 64 are skipped. */
  lemma EntryReadBack(e: Entry)
    requires EntryFits(e)
    ensures |EntryBytes(e)| == 128
    ensures TableInfoFromBytes(EntryBytes(e))
         == if e.mark < 64 then None
            else if e.mark < 128 then Some(TableInfo(e.address, e.treeId, Insert))
            else if e.mark < 192 then Some(TableInfo(e.address, e.treeId, Update))
            else Some(TableInfo(e.address, e.treeId, Remove))
  {
    var b := EntryBytes(e);
    var afterAddress := e.snapshots + ToLE(e.treeId, 2) + [e.mark, e.reserved];
    assert b == e.keys + ToLE(e.address, 8) + afterAddress;
    ReadBack(e.keys, e.address, 8, afterAddress, b);
    ReadBack(e.keys + ToLE(e.address, 8) + e.snapshots, e.treeId, 2, [e.mark, e.reserved], b);
    hide ToLE, ReadUInt;
    assert b[126] == e.mark;
  }

  function EntriesBytes(entries: seq<Entry>): (b: seq<Byte>) {
    if entries == [] then [] else EntriesBytes(entries[..|entries| - 1]) + EntryBytes(entries[|entries| - 1])
  }

  predicate AllFit(entries: seq<Entry>) {
    forall i :: 0 <= i < |entries| ==> EntryFits(entries[i])
  }

  /** The events written: insert, update or remove by the two high bits of the mark, none below 64. */
  function Events(entries: seq<Entry>): seq<TableInfo> {
    if entries == [] then []
    else
      var e := entries[|entries| - 1];
      Events(entries[..|entries| - 1])
      + (if e.mark < 64 then []
         else [TableInfo(e.address, e.treeId, if e.mark < 128 then Insert else if e.mark < 192 then Update
                         else Remove)])
  }

  lemma {:induction false} EntriesReadBack(block: seq<Byte>, before: seq<Byte>, entries: seq<Entry>, rest: seq<Byte>)
    requires |before| == 256 && AllFit(entries) && block == before + EntriesBytes(entries) + rest
    ensures 256 + 128 * |entries| <= |block| && |EntriesBytes(entries)| == 128 * |entries|
    ensures Entries(block, |entries|) == Events(entries)
  {
    if entries != [] {
      var n, init, e := |entries| - 1, entries[..|entries| - 1], entries[|entries| - 1];
      hide TableInfoFromBytes, EntryBytes;
      EntryReadBack(e);
      assert block == before + EntriesBytes(init) + (EntryBytes(e) + rest);
      EntriesReadBack(block, before, init, EntryBytes(e) + rest);
      assert block == (before + EntriesBytes(init)) + EntryBytes(e) + rest;
      Middle(before + EntriesBytes(init), EntryBytes(e), rest);
      assert EntryAt(block, n) == TableInfoFromBytes(EntryBytes(e));
    }
  }

  // ---------------------------------------------------------------------------
  // Manifest blocks and their chain
  // ---------------------------------------------------------------------------

  datatype ManifestImage = ManifestImage(
    block: seq<Byte>, header: Header, checksums: seq<Byte>, previous: nat, otherMetadata: seq<Byte>,
    entries: seq<Entry>, rest: seq<Byte>)

  function ManifestMetadata(m: ManifestImage): seq<Byte> {
    m.checksums + ToLE(m.previous, 8) + ToLE(|m.entries|, 4) + m.otherMetadata
  }

  predicate ManifestStored(file: File, config: Config, address: nat, m: ManifestImage) {
    && BlockStored(file, config, address, m.block) && IsBlock(m.block, m.header, 3, EntriesBytes(m.entries) + m.rest)
    && |m.checksums| == 32 && m.previous < Pow256(8) && |m.entries| < Pow256(4) && |m.otherMetadata| == 52
    && m.header.metadata == ManifestMetadata(m) && AllFit(m.entries)
  }

  lemma ManifestMetadataReadBack(block: seq<Byte>, m: ManifestImage)
    requires |block| >= 256 && block[128..224] == ManifestMetadata(m)
    requires |m.checksums| == 32 && m.previous < Pow256(8) && |m.entries| < Pow256(4) && |m.otherMetadata| == 52
    ensures ReadU64(block, 160) == m.previous && ReadU32(block, 168) == |m.entries|
  {
    var d, p, n := ManifestMetadata(m), ToLE(m.previous, 8), ToLE(|m.entries|, 4);
    assert d == m.checksums + p + (n + m.otherMetadata);
    assert d == (m.checksums + p) + n + m.otherMetadata;
    ReadBack(m.checksums, m.previous, 8, n + m.otherMetadata, d);
    ReadBack(m.checksums + p, |m.entries|, 4, m.otherMetadata, d);
    SliceOfSlice(block, 128, 224, 32, 40);
    SliceOfSlice(block, 128, 224, 40, 44);
  }

  lemma ManifestReadBack(file: File, config: Config, address: nat, m: ManifestImage)
    requires ManifestStored(file, config, address, m)
    ensures ReadManifest(file, config, address) == Ok(ManifestBlock(m.previous, Events(m.entries)))
  {
    var body := EntriesBytes(m.entries) + m.rest;
    BlockReadBack(file, config, address, m.block, m.header, 3, body);
    HeaderReadBack(m.header, body);
    hide HeaderBytes, ReadBlock, ParseHeader, HeaderFits, ManifestMetadata, ReadUInt, Entries, Events, Stored, ToLE;
    ManifestMetadataReadBack(m.block, m);
    var header := HeaderBytes(m.header);
    assert m.block == header + EntriesBytes(m.entries) + m.rest;
    EntriesReadBack(m.block, header, m.entries, m.rest);
  }

  /** The chain from `address`: newest block first, each pointing to the one before, the oldest to 0. */
  predicate ChainStored(file: File, config: Config, address: nat, chain: seq<ManifestImage>)
    decreases |chain|
  {
    if chain == [] then address == 0
    else
      ManifestStored(file, config, address, chain[0]) && ChainStored(file, config, chain[0].previous, chain[1..])
  }

  function ChainEvents(chain: seq<ManifestImage>): seq<seq<TableInfo>> {
    if chain == [] then [] else [Events(chain[0].entries)] + ChainEvents(chain[1..])
  }

  /** A chain is read back whole, block by block, if it is no longer than the reader allows. */
  lemma {:induction false} ChainReadBack(file: File, config: Config, address: nat, chain: seq<ManifestImage>, fuel: nat)
    requires ChainStored(file, config, address, chain) && |chain| <= fuel
    ensures Log(file, config, address, fuel) == Ok(ChainEvents(chain))
    decreases |chain|
  {
    hide ManifestStored, ReadManifest, Events;
    if chain != [] {
      ManifestReadBack(file, config, address, chain[0]);
      NotNull(file, config, address, chain[0]);
      ChainReadBack(file, config, chain[0].previous, chain[1..], fuel - 1);
    }
  }

  lemma NotNull(file: File, config: Config, address: nat, m: ManifestImage)
    requires ManifestStored(file, config, address, m)
    ensures address != 0
  {
  }
}
