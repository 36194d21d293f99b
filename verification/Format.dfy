/** The data file as it is written: blocks, manifest entries and log messages put together from their parts. */
module Format {
  import opened Wrappers
  import opened Records
  import opened Layout
  import opened Streams
  import opened LsmIterator

  // ---------------------------------------------------------------------------
  // Bytes in a row
  // ---------------------------------------------------------------------------

  lemma Middle(a: seq<Byte>, b: seq<Byte>, c: seq<Byte>)
    ensures (a + b + c)[|a|..|a| + |b|] == b
  {
  }

  lemma SliceOfSlice(b: seq<Byte>, lo: nat, hi: nat, i: nat, j: nat)
    requires lo <= hi <= |b| && i <= j <= hi - lo
    ensures b[lo..hi][i..j] == b[lo + i..lo + j]
  {
    var r, s := b[lo..hi][i..j], b[lo + i..lo + j];
    assert |r| == |s|;
    forall k | 0 <= k < |r|
      ensures r[k] == s[k]
    {
      assert r[k] == b[lo..hi][i + k] == b[lo + (i + k)];
    }
  }

  /** An integer written after `|a|` bytes is read back there. */
  lemma ReadBack(a: seq<Byte>, v: nat, n: nat, c: seq<Byte>, block: seq<Byte>)
    requires v < Pow256(n) && block == a + ToLE(v, n) + c
    ensures |a| + n <= |block| && ReadUInt(block, |a|, n) == v
  {
    Middle(a, ToLE(v, n), c);
    FromLEToLE(v, n);
  }

  // ---------------------------------------------------------------------------
  // Block headers
  // ---------------------------------------------------------------------------

  /**
    The fields of a 256-byte block header that the reader looks at, and the bytes between them: checksums and
    cluster, epoch to protocol, the frame after the command, and what follows the block type.
   */
  datatype Header = Header(
    checksums: seq<Byte>, size: nat, versions: seq<Byte>, command: Byte, frame: seq<Byte>, metadata: seq<Byte>,
    address: nat, snapshot: seq<Byte>, blockType: Byte, reserved: seq<Byte>)

  predicate HeaderFits(h: Header) {
    && |h.checksums| == 96 && h.size < Pow256(4) && |h.versions| == 14 && |h.frame| == 13 && |h.metadata| == 96
    && h.address < Pow256(8) && |h.snapshot| == 8 && |h.reserved| == 15
  }

  function HeaderBytes(h: Header): seq<Byte> {
    h.checksums + ToLE(h.size, 4) + h.versions + [h.command] + h.frame + h.metadata + ToLE(h.address, 8) + h.snapshot
    + [h.blockType] + h.reserved
  }

  lemma HeaderReadBack(h: Header, body: seq<Byte>)
    requires HeaderFits(h)
    ensures |HeaderBytes(h)| == 256
    ensures var b := HeaderBytes(h) + body;
            && ReadU32(b, 96) == h.size && b[114] == h.command && ReadU64(b, 224) == h.address
            && b[240] == h.blockType && b[128..224] == h.metadata
  {
    var b := HeaderBytes(h) + body;
    var afterSize := h.versions + [h.command] + h.frame + h.metadata + ToLE(h.address, 8) + h.snapshot
      + [h.blockType] + h.reserved + body;
    assert b == h.checksums + ToLE(h.size, 4) + afterSize;
    ReadBack(h.checksums, h.size, 4, afterSize, b);
    var beforeAddress := h.checksums + ToLE(h.size, 4) + h.versions + [h.command] + h.frame + h.metadata;
    var afterAddress := h.snapshot + [h.blockType] + h.reserved + body;
    assert b == beforeAddress + ToLE(h.address, 8) + afterAddress;
    ReadBack(beforeAddress, h.address, 8, afterAddress, b);
  }

  /** Any 256 bytes are a header. */
  function HeaderOf(b: seq<Byte>): Header
    requires |b| >= 256
  {
    Header(b[..96], ReadU32(b, 96), b[100..114], b[114], b[115..128], b[128..224], ReadU64(b, 224), b[232..240], b[240],
           b[241..256])
  }

  lemma HeaderOfIsHeader(b: seq<Byte>)
    requires |b| >= 256
    ensures HeaderFits(HeaderOf(b)) && HeaderBytes(HeaderOf(b)) + b[256..] == b
  {
    hide FromLE, ToLE, Pow256;
    FromLEFits(b[96..100]);
    FromLEFits(b[224..232]);
    ToLEFromLE(b[96..100]);
    ToLEFromLE(b[224..232]);
  }

  /** A block is accepted if and only if it starts with a header of command 20, a size in range and an address. */
  lemma ParseHeaderIff(h: Header, body: seq<Byte>)
    requires HeaderFits(h)
    ensures var block := HeaderBytes(h) + body;
            ParseHeader(block) == if h.command == 20 && 256 <= h.size <= |block| && h.address != 0
                                  then Ok(BlockHeader(h.size, h.blockType)) else Err(InvalidBlock)
  {
    HeaderReadBack(h, body);
  }

  /** The file holds these bytes from `offset` on. */
  predicate Stored(file: File, offset: nat, bytes: seq<Byte>) {
    offset + |bytes| <= |file| && file[offset..offset + |bytes|] == bytes
  }

  /** A whole block at its place in the grid: blocks are numbered from 1. */
  predicate BlockStored(file: File, config: Config, address: nat, block: seq<Byte>) {
    && address > 0 && |block| == config.blockSize
    && Stored(file, config.gridZoneStart + (address - 1) * config.blockSize, block)
  }

  /** What every block of a given type looks like: an accepted header, then the body. */
  predicate IsBlock(block: seq<Byte>, h: Header, blockType: Byte, body: seq<Byte>) {
    && HeaderFits(h) && block == HeaderBytes(h) + body
    && h.command == 20 && 256 <= h.size <= |block| && h.address != 0 && h.blockType == blockType
  }

  lemma BlockReadBack(file: File, config: Config, address: nat, block: seq<Byte>, h: Header, blockType: Byte,
                      body: seq<Byte>)
    requires BlockStored(file, config, address, block) && IsBlock(block, h, blockType, body)
    ensures ReadBlock(file, config, address, blockType) == Ok(block)
    ensures ParseHeader(block) == Ok(BlockHeader(h.size, blockType))
    ensures |block| == 256 + |body| && block[128..224] == h.metadata && block[256..] == body
    ensures ReadU32(block, 96) == h.size
  {
    hide HeaderBytes, ParseHeader, ReadUInt, HeaderFits;
    HeaderReadBack(h, body);
    ParseHeaderIff(h, body);
  }

  /** Where the block with this address begins. Address 0 is not refused here: it is the block before the first. */
  function Place(config: Config, address: nat): int {
    config.gridZoneStart + address * config.blockSize - config.blockSize
  }

  /** A block is read if and only if the file has it and it is a block of the type wanted. */
  lemma ReadBlockIff(file: File, config: Config, address: nat, blockType: Byte)
    ensures ReadBlock(file, config, address, blockType).Ok? <==>
            var at := Place(config, address);
            && 0 <= at && at + config.blockSize <= |file| && 256 <= config.blockSize
            && var block := file[at..at + config.blockSize];
               IsBlock(block, HeaderOf(block), blockType, block[256..])
  {
    hide HeaderBytes, HeaderFits, ReadUInt;
    var at := Place(config, address);
    assert at == config.BlockOffset(address);
    if 0 <= at && at + config.blockSize <= |file| && 256 <= config.blockSize {
      var block := file[at..at + config.blockSize];
      HeaderOfIsHeader(block);
      ParseHeaderIff(HeaderOf(block), block[256..]);
    }
  }

  // ---------------------------------------------------------------------------
  // Index blocks
  // ---------------------------------------------------------------------------

  /** What an index block says: room for `max` value blocks, of which the entries are used. */
  datatype Index = Index(
    max: nat, keySize: nat, otherMetadata: seq<Byte>,
    checksums: seq<Byte>, minKeys: seq<Byte>, maxKeys: seq<Byte>, entries: seq<nat>, rest: seq<Byte>)

  predicate IndexFits(x: Index) {
    && x.max < Pow256(4) && x.keySize < Pow256(4) && |x.otherMetadata| == 84
    && |x.checksums| == x.max * 32 && |x.minKeys| == |x.maxKeys| == x.max * x.keySize
    && |x.entries| <= x.max && forall i :: 0 <= i < |x.entries| ==> x.entries[i] < Pow256(8)
  }

  function IndexMetadata(x: Index): seq<Byte> {
    ToLE(|x.entries|, 4) + ToLE(x.max, 4) + ToLE(x.keySize, 4) + x.otherMetadata
  }

  function Words(entries: seq<nat>): (b: seq<Byte>)
    ensures |b| == 8 * |entries|
  {
    if entries == [] then [] else Words(entries[..|entries| - 1]) + ToLE(entries[|entries| - 1], 8)
  }

  function IndexBody(x: Index): seq<Byte> {
    x.checksums + x.minKeys + x.maxKeys + Words(x.entries) + x.rest
  }

  /** The addresses that are not the null sentinel. */
  function Nonzero(entries: seq<nat>): seq<nat> {
    if entries == [] then []
    else
      var addr := entries[|entries| - 1];
      Nonzero(entries[..|entries| - 1]) + (if addr == 0 then [] else [addr])
  }

  lemma WordsSnoc(entries: seq<nat>)
    requires entries != []
    ensures Words(entries) == Words(entries[..|entries| - 1]) + ToLE(entries[|entries| - 1], 8)
  {
  }

  lemma {:induction false} WordAt(a: seq<Byte>, entries: seq<nat>, c: seq<Byte>, block: seq<Byte>, i: nat)
    requires block == a + Words(entries) + c && i < |entries| && entries[i] < Pow256(8)
    ensures |a| + 8 * i + 8 <= |block| && ReadUInt(block, |a| + 8 * i, 8) == entries[i]
  {
    hide Words, ToLE, ReadUInt, Pow256;
    WordsSnoc(entries);
    var n, init, last := |entries| - 1, entries[..|entries| - 1], ToLE(entries[|entries| - 1], 8);
    if i < n {
      assert block == a + Words(init) + (last + c);
      WordAt(a, init, last + c, block, i);
    } else {
      assert block == (a + Words(init)) + last + c;
      ReadBack(a + Words(init), entries[n], 8, c, block);
    }
  }

  lemma {:induction false} NonzeroReadBack(block: seq<Byte>, off: nat, entries: seq<nat>, n: nat)
    requires n <= |entries| && off + 8 * |entries| <= |block|
    requires forall i :: 0 <= i < |entries| ==> ReadUInt(block, off + 8 * i, 8) == entries[i]
    ensures NonzeroAddresses(block, off, n) == Nonzero(entries[..n])
  {
    hide ReadUInt;
    if n > 0 {
      NonzeroReadBack(block, off, entries, n - 1);
      assert entries[..n][..n - 1] == entries[..n - 1];
    }
  }

  lemma MetadataReadBack(block: seq<Byte>, x: Index)
    requires IndexFits(x) && |block| >= 256 && block[128..224] == IndexMetadata(x)
    ensures ReadU32(block, 128) == |x.entries| && ReadU32(block, 132) == x.max && ReadU32(block, 136) == x.keySize
  {
    var m := IndexMetadata(x);
    var n, k := ToLE(|x.entries|, 4), ToLE(x.keySize, 4);
    assert m == [] + n + (ToLE(x.max, 4) + k + x.otherMetadata);
    assert m == n + ToLE(x.max, 4) + (k + x.otherMetadata);
    assert m == (n + ToLE(x.max, 4)) + k + x.otherMetadata;
    ReadBack([], |x.entries|, 4, ToLE(x.max, 4) + k + x.otherMetadata, m);
    ReadBack(n, x.max, 4, k + x.otherMetadata, m);
    ReadBack(n + ToLE(x.max, 4), x.keySize, 4, x.otherMetadata, m);
    SliceOfSlice(block, 128, 224, 0, 4);
    SliceOfSlice(block, 128, 224, 4, 8);
    SliceOfSlice(block, 128, 224, 8, 12);
  }

  /** The value-block addresses written into an index block are read back, null sentinels dropped. */
  lemma IndexReadBack(file: File, config: Config, address: nat, block: seq<Byte>, h: Header, x: Index)
    requires BlockStored(file, config, address, block) && IsBlock(block, h, 4, IndexBody(x))
    requires IndexFits(x) && h.metadata == IndexMetadata(x)
    ensures IndexValues(file, config, address) == Ok(Nonzero(x.entries))
  {
    hide HeaderBytes, ReadBlock, ParseHeader, ReadUInt, HeaderFits, IndexMetadata, Words, NonzeroAddresses, Stored;
    BlockReadBack(file, config, address, block, h, 4, IndexBody(x));
    MetadataReadBack(block, x);
    AddressesReadBack(block, HeaderBytes(h), x);
  }

  /** The addresses start after the header, the checksums and the two key sections. */
  lemma SectionReadBack(block: seq<Byte>, x: Index)
    requires |block| >= 256 && IndexFits(x)
    requires ReadU32(block, 132) == x.max && ReadU32(block, 136) == x.keySize
    ensures AddressSection(block) == 256 + |x.checksums| + |x.minKeys| + |x.maxKeys|
    ensures forall i :: 0 <= i < |x.entries| ==> x.entries[i] < Pow256(8)
  {
    hide ReadUInt;
  }

  lemma AddressesReadBack(block: seq<Byte>, header: seq<Byte>, x: Index)
    requires |header| == 256 && block == header + IndexBody(x) && IndexFits(x)
    requires ReadU32(block, 132) == x.max && ReadU32(block, 136) == x.keySize
    ensures AddressSection(block) + 8 * |x.entries| <= |block|
    ensures NonzeroAddresses(block, AddressSection(block), |x.entries|) == Nonzero(x.entries)
  {
    hide IndexFits, AddressSection, ReadUInt, NonzeroAddresses, Words, Pow256, Nonzero;
    SectionReadBack(block, x);
    var before := header + x.checksums + x.minKeys + x.maxKeys;
    assert block == before + Words(x.entries) + x.rest;
    EntriesReadBack(block, before, x.entries, x.rest);
  }

  lemma EntriesReadBack(block: seq<Byte>, before: seq<Byte>, entries: seq<nat>, rest: seq<Byte>)
    requires block == before + Words(entries) + rest && forall i :: 0 <= i < |entries| ==> entries[i] < Pow256(8)
    ensures |before| + 8 * |entries| <= |block|
    ensures NonzeroAddresses(block, |before|, |entries|) == Nonzero(entries)
  {
    hide ReadUInt, NonzeroAddresses, Words;
    forall i | 0 <= i < |entries|
      ensures ReadUInt(block, |before| + 8 * i, 8) == entries[i]
    {
      WordAt(before, entries, rest, block, i);
    }
    NonzeroReadBack(block, |before|, entries, |entries|);
    assert entries[..|entries|] == entries;
  }

  // ---------------------------------------------------------------------------
  // Value blocks
  // ---------------------------------------------------------------------------

  function SlotBytes(slots: seq<Slot>): (b: seq<Byte>)
    ensures |b| == 128 * |slots|
  {
    if slots == [] then [] else slots[0] + SlotBytes(slots[1..])
  }

  /** The records in these slots, without padding. */
  function Unpadded<T>(kind: RecordKind<T>, slots: seq<Slot>): seq<T> {
    if slots == [] then []
    else
      var x := kind.fromBytes(slots[0]);
      (if kind.isPadding(x) then [] else [x]) + Unpadded(kind, slots[1..])
  }

  lemma SlotsStep<T>(kind: RecordKind<T>, slots: seq<Slot>, i: nat)
    requires i < |slots|
    ensures SlotBytes(slots[i..]) == slots[i] + SlotBytes(slots[i + 1..])
    ensures var x, rest := kind.fromBytes(slots[i]), Unpadded(kind, slots[i + 1..]);
            Unpadded(kind, slots[i..]) == if kind.isPadding(x) then rest else [x] + rest
  {
    assert slots[i..][1..] == slots[i + 1..];
  }

  lemma NoSlots<T>(kind: RecordKind<T>)
    ensures Unpadded(kind, []) == [] && SlotBytes([]) == []
  {
  }

  /** Slot `i` of `bytes`, and what lies behind it. */
  lemma SlotHere(bytes: seq<Byte>, at: nat, slot: Slot, tail: seq<Byte>)
    requires at <= |bytes| && bytes[at..] == slot + tail
    ensures at + 128 <= |bytes| && bytes[at..at + 128] == slot && bytes[at + 128..] == tail
  {
    assert |bytes[at..]| == 128 + |tail|;
    assert bytes[at..at + 128] == bytes[at..][..128];
    assert bytes[at + 128..] == bytes[at..][128..];
  }

  lemma NoRecords<T>(kind: RecordKind<T>, bytes: seq<Byte>, base: nat, count: nat)
    ensures RecordsFrom(kind, bytes, base, count, count) == []
  {
  }

  /** Slots are read back from wherever they start, up to the count that fits. */
  lemma {:induction false} SlotsReadBack<T>(kind: RecordKind<T>, bytes: seq<Byte>, base: nat, slots: seq<Slot>, i: nat,
                                            rest: seq<Byte>)
    requires i <= |slots| && base + 128 * i <= |bytes|
    requires bytes[base + 128 * i..] == SlotBytes(slots[i..]) + rest
    ensures base + |slots| * RECORD_SIZE <= |bytes|
    ensures RecordsFrom(kind, bytes, base, i, |slots|) == Unpadded(kind, slots[i..])
    decreases |slots| - i
  {
    hide SlotBytes, Unpadded, RecordsFrom;
    if i == |slots| {
      NoSlots(kind);
      NoRecords(kind, bytes, base, i);
      assert slots[i..] == [];
    } else {
      SlotsStep(kind, slots, i);
      var tail := SlotBytes(slots[i + 1..]) + rest;
      assert SlotBytes(slots[i..]) + rest == slots[i] + tail;
      SlotHere(bytes, base + 128 * i, slots[i], tail);
      SlotsReadBack(kind, bytes, base, slots, i + 1, rest);
      RecordStep(kind, bytes, base, i, |slots|);
    }
  }

  /**
    A value block: its header declares the slots and fewer than 128 further bytes; the rest is not read.
   */
  datatype ValueImage = ValueImage(block: seq<Byte>, header: Header, slots: seq<Slot>, spare: nat, rest: seq<Byte>)

  predicate ValueStored(file: File, config: Config, address: nat, v: ValueImage) {
    && BlockStored(file, config, address, v.block) && IsBlock(v.block, v.header, 5, SlotBytes(v.slots) + v.rest)
    && v.spare < 128 && v.spare <= |v.rest| && v.header.size == 256 + 128 * |v.slots| + v.spare
  }

  /** Exactly the records written into a value block are read back, in order, without padding. */
  lemma ValuesReadBack<T>(kind: RecordKind<T>, file: File, config: Config, address: nat, v: ValueImage)
    requires ValueStored(file, config, address, v)
    ensures ValueStream(kind, file, config, address) == Stream(Unpadded(kind, v.slots), None)
  {
    var block, body := v.block, SlotBytes(v.slots) + v.rest;
    BlockReadBack(file, config, address, block, v.header, 5, body);
    hide HeaderBytes, ReadBlock, ParseHeader, HeaderFits, Unpadded, RecordsFrom;
    assert RecordCount(block) == |v.slots|;
    assert v.slots[0..] == v.slots;
    assert block[256 + 128 * 0..] == body;
    SlotsReadBack(kind, block, 256, v.slots, 0, v.rest);
  }

  lemma {:induction false} UnpaddedAppend<T>(kind: RecordKind<T>, a: seq<Slot>, b: seq<Slot>)
    ensures Unpadded(kind, a + b) == Unpadded(kind, a) + Unpadded(kind, b)
  {
    if a == [] {
      assert a + b == b;
    } else {
      assert (a + b)[1..] == a[1..] + b;
      UnpaddedAppend(kind, a[1..], b);
    }
  }

  // ---------------------------------------------------------------------------
  // Tables
  // ---------------------------------------------------------------------------

  /** A table: its index block, and a value block for each address in it. */
  datatype TableImage = TableImage(block: seq<Byte>, header: Header, index: Index, values: seq<ValueImage>)

  predicate TableStored(file: File, config: Config, address: nat, t: TableImage) {
    && BlockStored(file, config, address, t.block) && IsBlock(t.block, t.header, 4, IndexBody(t.index))
    && IndexFits(t.index) && t.header.metadata == IndexMetadata(t.index)
    && ValuesStored(file, config, Nonzero(t.index.entries), t.values)
  }

  predicate ValuesStored(file: File, config: Config, addrs: seq<nat>, values: seq<ValueImage>) {
    |addrs| == |values| && forall k :: 0 <= k < |addrs| ==> ValueStored(file, config, addrs[k], values[k])
  }

  /** The slots of value blocks `k..`, in order. */
  function SlotsOf(values: seq<ValueImage>, k: nat): seq<Slot>
    requires k <= |values|
    decreases |values| - k
  {
    if k == |values| then [] else values[k].slots + SlotsOf(values, k + 1)
  }

  lemma {:induction false} ValueBlocksReadBack<T>(kind: RecordKind<T>, file: File, config: Config, addrs: seq<nat>,
                                                  values: seq<ValueImage>, k: nat)
    requires ValuesStored(file, config, addrs, values) && k <= |addrs|
    ensures ValuesFrom(kind, file, config, addrs, k) == Stream(Unpadded(kind, SlotsOf(values, k)), None)
    decreases |addrs| - k
  {
    hide ValueStored, ValueStream;
    if k < |addrs| {
      ValuesReadBack(kind, file, config, addrs[k], values[k]);
      ValueBlocksReadBack(kind, file, config, addrs, values, k + 1);
      UnpaddedAppend(kind, values[k].slots, SlotsOf(values, k + 1));
    } else {
      assert Unpadded(kind, []) == [];
    }
  }

  /** Exactly the records written into the value blocks of a table are read back, in order, without padding. */
  lemma TableReadBack<T>(kind: RecordKind<T>, file: File, config: Config, address: nat, t: TableImage)
    requires TableStored(file, config, address, t)
    ensures TableStream(kind, file, config, address) == Stream(Unpadded(kind, SlotsOf(t.values, 0)), None)
  {
    hide IndexValues, ValuesFrom, BlockStored, IndexFits, IndexMetadata, IndexBody, IsBlock, ValuesStored, Nonzero;
    IndexReadBack(file, config, address, t.block, t.header, t.index);
    ValueBlocksReadBack(kind, file, config, Nonzero(t.index.entries), t.values, 0);
  }
}
