/** The lazy iterator over checkpointed records: index blocks, then their value blocks, then record slots. */
module LsmIterator {
  import opened Wrappers
  import opened Records
  import opened Layout
  import opened Streams

  const META_OFF_VALUE_BLOCK_COUNT: nat := OFF_METADATA
  const META_OFF_VALUE_BLOCK_COUNT_MAX: nat := OFF_METADATA + 4
  const META_OFF_KEY_SIZE: nat := OFF_METADATA + 8

  // ---------------------------------------------------------------------------
  // The flat specification
  // ---------------------------------------------------------------------------

  /** The nonzero addresses among entries `0..n` of the address section at `off`. */
  function NonzeroAddresses(block: seq<Byte>, off: nat, n: nat): (r: seq<nat>)
    requires off + n * 8 <= |block|
    ensures forall i :: 0 <= i < |r| ==> r[i] != 0
  {
    if n == 0 then []
    else
      var addr := ReadU64(block, off + (n - 1) * 8);
      NonzeroAddresses(block, off, n - 1) + (if addr != 0 then [addr] else [])
  }

  /** Where the value-block addresses of an index block start: after the checksums and two key sections. */
  function AddressSection(block: seq<Byte>): nat
    requires |block| >= HEADER_SIZE
  {
    var valueCountMax := ReadU32(block, META_OFF_VALUE_BLOCK_COUNT_MAX);
    var keysSection := valueCountMax * ReadU32(block, META_OFF_KEY_SIZE);
    HEADER_SIZE + valueCountMax * 32 + keysSection + keysSection
  }

  /** The value blocks an index block points to. */
  function IndexValues(file: File, config: Config, address: nat): Result<seq<nat>, ReaderError> {
    var block :- ReadBlock(file, config, address, BLOCK_TYPE_INDEX);
    var valueCount := ReadU32(block, META_OFF_VALUE_BLOCK_COUNT);
    if valueCount > ReadU32(block, META_OFF_VALUE_BLOCK_COUNT_MAX) then Err(InvalidBlock)
    else if AddressSection(block) + valueCount * 8 > |block| then Err(InvalidBlock)
    else Ok(NonzeroAddresses(block, AddressSection(block), valueCount))
  }

  function RecordCount(block: seq<Byte>): (n: nat)
    requires ParseHeader(block).Ok?
    ensures HEADER_SIZE + n * RECORD_SIZE <= |block|
  {
    ParseHeader(block).value.BodySize() / RECORD_SIZE
  }

  /** The records of one value block. */
  function ValueStream<T>(kind: RecordKind<T>, file: File, config: Config, address: nat): Stream<T> {
    match ReadBlock(file, config, address, BLOCK_TYPE_VALUE)
    case Err(e) => Stream([], Some(e))
    case Ok(block) => Stream(RecordsFrom(kind, block, HEADER_SIZE, 0, RecordCount(block)), None)
  }

  function ValuesFrom<T>(kind: RecordKind<T>, file: File, config: Config, addrs: seq<nat>, k: nat): Stream<T>
    requires k <= |addrs|
    decreases |addrs| - k
  {
    if k == |addrs| then Nothing()
    else ValueStream(kind, file, config, addrs[k]).Then(ValuesFrom(kind, file, config, addrs, k + 1))
  }

  /** The records of one table: its value blocks in the order the index block lists them. */
  function TableStream<T>(kind: RecordKind<T>, file: File, config: Config, address: nat): Stream<T> {
    match IndexValues(file, config, address)
    case Err(e) => Stream([], Some(e))
    case Ok(addrs) => ValuesFrom(kind, file, config, addrs, 0)
  }

  /** The records of all tables, in the order of their index blocks. */
  function TablesStream<T>(kind: RecordKind<T>, file: File, config: Config, indexAddrs: seq<nat>): Stream<T> {
    if indexAddrs == [] then Nothing()
    else TableStream(kind, file, config, indexAddrs[0]).Then(TablesStream(kind, file, config, indexAddrs[1..]))
  }

  // ---------------------------------------------------------------------------
  // The iterator
  // ---------------------------------------------------------------------------

  method SeekAndRead(file: File, config: Config, address: nat, block: array<Byte>) returns (r: Result<(), ReaderError>)
    requires block.Length == config.blockSize
    modifies block
    ensures r.Ok? <==> ReadExact(file, config.BlockOffset(address), config.blockSize).Ok?
    ensures r.Ok? ==> ReadExact(file, config.BlockOffset(address), config.blockSize) == Ok(block[..])
    ensures r.Err? ==> r.error == Io
  {
    var offset := config.BlockOffset(address);
    if offset < 0 || offset + config.blockSize > |file| {
      return Err(Io);
    }
    forall i | 0 <= i < block.Length {
      block[i] := file[offset + i];
    }
    assert block[..] == file[offset..offset + config.blockSize];
    return Ok(());
  }

  class ObjectIter<T> {
    const kind: RecordKind<T>
    const file: File
    const config: Config
    const block: array<Byte> // holds whichever block is being processed
    var indexAddrs: seq<nat> // index blocks still to visit
    var valueAddrs: seq<nat> // value blocks of the current index block
    var valueIdx: nat
    var recordCount: nat // record slots of the current value block
    var recordIdx: nat
    var done: bool

    ghost predicate Valid()
      reads this, block
    {
      && block.Length == config.blockSize
      && valueIdx <= |valueAddrs| && recordIdx <= recordCount
      && (recordIdx < recordCount ==> HoldsValueBlock())
    }

    /** Whatever is decoded comes from a value block, never from an index block left in the buffer. */
    ghost predicate HoldsValueBlock()
      reads this, block
    {
      && ParseHeader(block[..]).Ok? && ParseHeader(block[..]).value.blockType == BLOCK_TYPE_VALUE
      && recordCount == RecordCount(block[..])
    }

    /** Everything still to come, according to the flat specification. */
    ghost function Remaining(): Stream<T>
      reads this, block
      requires Valid()
    {
      if done then Nothing()
      else
        Upcoming(kind, block[..], HEADER_SIZE, recordIdx, recordCount,
                ValuesFrom(kind, file, config, valueAddrs, valueIdx).Then(TablesStream(kind, file, config, indexAddrs)))
    }

    constructor (kind: RecordKind<T>, file: File, config: Config, indexAddrs: seq<nat>)
      ensures Valid() && fresh(block)
      ensures Remaining() == TablesStream(kind, file, config, indexAddrs)
    {
      this.kind, this.file, this.config := kind, file, config;
      block := new Byte[config.blockSize](_ => 0);
      this.indexAddrs := indexAddrs;
      valueAddrs, valueIdx, recordCount, recordIdx, done := [], 0, 0, 0, false;
      new;
      ThenAssoc(Nothing(), Nothing(), TablesStream(kind, file, config, indexAddrs));
    }

    method LoadIndexBlock(address: nat) returns (r: Result<(), ReaderError>)
      requires Valid() && recordIdx == recordCount
      modifies this`valueAddrs, this`valueIdx, this`recordCount, this`recordIdx, block
      ensures Valid() && recordIdx == recordCount
      ensures match IndexValues(file, config, address)
              case Ok(addrs) => r.Ok? && valueAddrs == addrs && valueIdx == 0
              case Err(e) => r == Err(e)
    {
      var read := SeekAndRead(file, config, address, block);
      if read.Err? {
        return Err(read.error);
      }
      var header := ParseHeader(block[..]);
      if header.Err? {
        return Err(header.error);
      }
      if header.value.blockType != BLOCK_TYPE_INDEX {
        return Err(InvalidBlock);
      }
      var valueCount := ReadU32(block[..], META_OFF_VALUE_BLOCK_COUNT);
      var valueCountMax := ReadU32(block[..], META_OFF_VALUE_BLOCK_COUNT_MAX);
      if valueCount > valueCountMax {
        return Err(InvalidBlock);
      }
      var off := AddressSection(block[..]);
      if off + valueCount * 8 > block.Length {
        return Err(InvalidBlock);
      }
      valueAddrs := CollectAddresses(block[..], off, valueCount);
      valueIdx, recordCount, recordIdx := 0, 0, 0;
      return Ok(());
    }

    method LoadValueBlock(address: nat) returns (r: Result<(), ReaderError>)
      requires Valid() && recordIdx == recordCount
      modifies this`recordCount, this`recordIdx, block
      ensures Valid()
      ensures match ReadBlock(file, config, address, BLOCK_TYPE_VALUE)
              case Ok(bytes) => r.Ok? && block[..] == bytes && recordIdx == 0 && recordCount == RecordCount(bytes)
              case Err(e) => r == Err(e) && recordIdx == recordCount
      ensures r.Ok? ==> |block[..]| >= 256
                        && 256 + recordCount * 128 <= ReadU32(block[..], 96) < 256 + (recordCount + 1) * 128
    {
      var read := SeekAndRead(file, config, address, block);
      if read.Err? {
        return Err(read.error);
      }
      var header := ParseHeader(block[..]);
      if header.Err? {
        return Err(header.error);
      }
      if header.value.blockType != BLOCK_TYPE_VALUE {
        return Err(InvalidBlock);
      }
      recordCount := header.value.BodySize() / RECORD_SIZE;
      recordIdx := 0;
      return Ok(());
    }

    /** What is still to come after the records of the current value block. */
    ghost function Tail(): Stream<T>
      reads this
      requires valueIdx <= |valueAddrs|
    {
      ValuesFrom(kind, file, config, valueAddrs, valueIdx).Then(TablesStream(kind, file, config, indexAddrs))
    }

    /** Scans the current value block for the next record that is not padding. */
    method NextInBlock() returns (r: Option<T>)
      requires Valid() && !done
      modifies this`recordIdx
      ensures Valid()
      ensures r.Some? ==> old(Remaining()).Next() == Some(Ok(r.value)) && Remaining() == old(Remaining()).Rest()
      ensures r.None? ==> recordIdx == recordCount && old(Remaining()) == Tail()
    {
      hide ValuesFrom, TablesStream, ParseHeader, ReadBlock, RecordCount, Upcoming, RecordsFrom;
      ghost var all, tail := Remaining(), Tail();
      while recordIdx < recordCount
        invariant Valid() && Tail() == tail
        invariant Upcoming(kind, block[..], HEADER_SIZE, recordIdx, recordCount, tail) == all
        decreases recordCount - recordIdx
      {
        UpcomingStep(kind, block[..], HEADER_SIZE, recordIdx, recordCount, tail);
        var record := kind.fromBytes(SlotAt(block[..], HEADER_SIZE, recordIdx));
        recordIdx := recordIdx + 1;
        if !kind.isPadding(record) {
          return Some(record);
        }
      }
      NothingUpcoming(kind, block[..], HEADER_SIZE, recordCount, tail);
      return None;
    }

    /** Moves on to the next value block of the current table. */
    method AdvanceValue() returns (failure: Option<ReaderError>)
      requires Valid() && !done && recordIdx == recordCount && valueIdx < |valueAddrs|
      modifies this`valueIdx, this`recordCount, this`recordIdx, this`done, block
      ensures Valid() && valueIdx == old(valueIdx) + 1
      ensures failure.None? ==> !done && Remaining() == old(Tail())
      ensures failure.Some? ==> done && old(Tail()) == Stream([], failure)
    {
      hide ParseHeader, ReadBlock;
      var addr := valueAddrs[valueIdx];
      ghost var later := ValuesFrom(kind, file, config, valueAddrs, valueIdx + 1);
      ThenAssoc(ValueStream(kind, file, config, addr), later, TablesStream(kind, file, config, indexAddrs));
      valueIdx := valueIdx + 1;
      var loaded := LoadValueBlock(addr);
      if loaded.Err? {
        done := true;
        return Some(loaded.error);
      }
      return None;
    }

    /** Moves on to the next table. */
    method AdvanceIndex() returns (failure: Option<ReaderError>)
      requires Valid() && !done && recordIdx == recordCount && valueIdx == |valueAddrs| && indexAddrs != []
      modifies this`indexAddrs, this`valueAddrs, this`valueIdx, this`recordCount, this`recordIdx, this`done, block
      ensures Valid() && indexAddrs == old(indexAddrs)[1..]
      ensures failure.None? ==> !done && Remaining() == old(Tail())
      ensures failure.Some? ==> done && old(Tail()) == Stream([], failure)
    {
      hide ParseHeader, ReadBlock, IndexValues;
      ThenAssoc(TablesStream(kind, file, config, indexAddrs), Nothing(), Nothing());
      var indexAddr := indexAddrs[0];
      indexAddrs := indexAddrs[1..];
      var loaded := LoadIndexBlock(indexAddr);
      if loaded.Err? {
        done := true;
        return Some(loaded.error);
      }
      ThenAssoc(Tail(), Nothing(), Nothing());
      return None;
    }

    /** Yields the next record, an error once, or nothing: exactly what the flat specification says comes next. */
    method Next() returns (r: Option<Result<T, ReaderError>>)
      requires Valid()
      modifies this`indexAddrs, this`valueAddrs, this`valueIdx, this`recordCount, this`recordIdx, this`done, block
      ensures Valid()
      ensures r == old(Remaining()).Next()
      ensures Remaining() == old(Remaining()).Rest()
    {
      if done {
        return None;
      }
      hide RecordsFrom, ParseHeader, ReadBlock, IndexValues, RecordCount;
      ghost var all := Remaining();
      while true
        invariant Valid() && !done && Remaining() == all
        decreases |indexAddrs|, |valueAddrs| - valueIdx
      {
        var record := NextInBlock();
        if record.Some? {
          return Some(Ok(record.value));
        }
        var failure;
        if valueIdx < |valueAddrs| {
          failure := AdvanceValue();
        } else {
          if indexAddrs == [] {
            assert Tail() == Nothing<T>();
            return None;
          }
          failure := AdvanceIndex();
        }
        if failure.Some? {
          return Some(Err(failure.value));
        }
      }
    }
  }

  /** Reads the address section entry by entry and drops the zeros. */
  method CollectAddresses(block: seq<Byte>, off: nat, n: nat) returns (r: seq<nat>)
    requires off + n * 8 <= |block|
    ensures r == NonzeroAddresses(block, off, n)
  {
    r := [];
    for i := 0 to n
      invariant r == NonzeroAddresses(block, off, i)
    {
      var addr := ReadU64(block, off + i * 8);
      if addr != 0 {
        r := r + [addr];
      }
    }
  }

  /** One page of an iterator's records: skip the earlier pages, take at most `limit`, stop at an error. */
  method ReadPage<T>(iter: ObjectIter<T>, page: nat, limit: nat) returns (r: Result<seq<T>, ReaderError>)
    requires iter.Valid()
    modifies iter, iter.block
    ensures iter.Valid()
    ensures r == PageOf(old(iter.Remaining()), page, limit)
  {
    hide RecordsFrom, ReadBlock, ParseHeader, ValuesFrom, TablesStream, Collect, Prefixed;
    var skip: nat := page * limit;
    ghost var start := iter.Remaining();
    while skip > 0
      invariant iter.Valid() && Advance(iter.Remaining(), skip) == Advance(start, page * limit)
    {
      var skipped := iter.Next();
      skip := skip - 1;
    }
    var records: seq<T> := [];
    var room: nat := limit;
    CollectStep(records, iter.Remaining(), room);
    while room > 0
      invariant iter.Valid()
      invariant PageOf(start, page, limit) == Prefixed(records, Collect(iter.Remaining(), room))
    {
      CollectStep(records, iter.Remaining(), room);
      var next := iter.Next();
      match next {
        case None => return Ok(records);
        case Some(Err(e)) => return Err(e);
        case Some(Ok(record)) =>
          records := records + [record];
          room := room - 1;
      }
    }
    CollectStep(records, iter.Remaining(), 0);
    return Ok(records);
  }

  // ---------------------------------------------------------------------------
  // What the flat specification says, record by record
  // ---------------------------------------------------------------------------

  /** Slot `i` of the value block at `address` lies within the declared size and holds the record, not padding. */
  ghost predicate InBlock<T>(kind: RecordKind<T>, file: File, config: Config, address: nat, i: nat, record: T) {
    var block := ReadBlock(file, config, address, BLOCK_TYPE_VALUE);
    && block.Ok? && 256 + (i + 1) * 128 <= ReadU32(block.value, 96)
    && record == kind.fromBytes(SlotAt(block.value, 256, i)) && !kind.isPadding(record)
  }

  /** The record count is how many whole slots the header's size has room for. */
  lemma RecordCountIs(block: seq<Byte>, i: nat)
    requires ParseHeader(block).Ok?
    ensures |block| >= 256 && ReadU32(block, 96) <= |block|
    ensures i < RecordCount(block) <==> 256 + (i + 1) * 128 <= ReadU32(block, 96)
  {
  }

  /** Slot `i` of value block `v` of the table at `address` holds the record. */
  ghost predicate IsRecord<T>(kind: RecordKind<T>, file: File, config: Config, address: nat, v: nat, i: nat,
                              record: T) {
    var values := IndexValues(file, config, address);
    values.Ok? && v < |values.value| && InBlock(kind, file, config, values.value[v], i, record)
  }

  lemma BlockRecords<T>(kind: RecordKind<T>, file: File, config: Config, address: nat, x: T)
    ensures x in ValueStream(kind, file, config, address).items <==>
            exists i: nat :: InBlock(kind, file, config, address, i, x)
  {
    hide ParseHeader, RecordsFrom, RecordCount;
    var block := ReadBlock(file, config, address, BLOCK_TYPE_VALUE);
    if block.Ok? {
      var count := RecordCount(block.value);
      RecordsFromContains(kind, block.value, HEADER_SIZE, 0, count);
      if x in RecordsFrom(kind, block.value, HEADER_SIZE, 0, count) {
        var k := RecordSlot(kind, block.value, HEADER_SIZE, count, x);
        RecordCountIs(block.value, k);
        assert InBlock(kind, file, config, address, k, x);
      }
      if i: nat :| InBlock(kind, file, config, address, i, x) {
        RecordCountIs(block.value, i);
        assert 0 <= i && HoldsRecord(kind, block.value, HEADER_SIZE, i, count, x);
      }
    }
  }

  lemma {:induction false} ValuesRecords<T>(kind: RecordKind<T>, file: File, config: Config, addrs: seq<nat>, k: nat,
                                            x: T)
    requires k <= |addrs| && ValuesFrom(kind, file, config, addrs, k).failure.None?
    ensures x in ValuesFrom(kind, file, config, addrs, k).items <==>
            exists v: nat, i: nat :: k <= v < |addrs| && InBlock(kind, file, config, addrs[v], i, x)
    decreases |addrs| - k
  {
    hide InBlock, ReadBlock;
    if k < |addrs| {
      BlockRecords(kind, file, config, addrs[k], x);
      ValuesRecords(kind, file, config, addrs, k + 1, x);
    }
  }

  /** A table that can be read yields exactly the non-padding records of its value blocks. */
  lemma TableYieldsExactlyTheRecords<T>(kind: RecordKind<T>, file: File, config: Config, address: nat, x: T)
    requires TableStream(kind, file, config, address).failure.None?
    ensures x in TableStream(kind, file, config, address).items <==>
            exists v: nat, i: nat :: IsRecord(kind, file, config, address, v, i, x)
  {
    hide InBlock, ReadBlock, IndexValues;
    var addrs := IndexValues(file, config, address).value;
    ValuesRecords(kind, file, config, addrs, 0, x);
    if v: nat, i: nat :| 0 <= v < |addrs| && InBlock(kind, file, config, addrs[v], i, x) {
      assert IsRecord(kind, file, config, address, v, i, x);
    }
    if v: nat, i: nat :| IsRecord(kind, file, config, address, v, i, x) {
      assert 0 <= v < |addrs| && InBlock(kind, file, config, addrs[v], i, x);
    }
  }

  /** An index block is accepted if and only if its entries are no more than it has room for, and lie inside it. */
  lemma IndexOkIff(file: File, config: Config, address: nat, block: seq<Byte>)
    requires ReadBlock(file, config, address, 4) == Ok(block)
    ensures var n, max, keySize := ReadU32(block, 128), ReadU32(block, 132), ReadU32(block, 136);
            IndexValues(file, config, address).Ok? <==>
            n <= max && 256 + 32 * max + 2 * (max * keySize) + 8 * n <= |block|
  {
  }

  /** A table is read to the end if and only if its index block and all its value blocks are accepted. */
  lemma TableReadableIff<T>(kind: RecordKind<T>, file: File, config: Config, address: nat)
    ensures TableStream(kind, file, config, address).failure.None? <==>
            && IndexValues(file, config, address).Ok?
            && forall addr <- IndexValues(file, config, address).value :: ReadBlock(file, config, addr, 5).Ok?
  {
    hide ReadBlock, IndexValues;
    var values := IndexValues(file, config, address);
    if values.Ok? {
      ValuesReadableIff(kind, file, config, values.value, 0);
      assert forall addr <- values.value :: exists k :: 0 <= k < |values.value| && values.value[k] == addr;
    }
  }

  lemma {:induction false} ValuesReadableIff<T>(kind: RecordKind<T>, file: File, config: Config, addrs: seq<nat>,
                                                k: nat)
    requires k <= |addrs|
    ensures ValuesFrom(kind, file, config, addrs, k).failure.None? <==>
            forall j :: k <= j < |addrs| ==> ReadBlock(file, config, addrs[j], 5).Ok?
    decreases |addrs| - k
  {
    hide ReadBlock;
    if k < |addrs| {
      ValuesReadableIff(kind, file, config, addrs, k + 1);
    }
  }

  /** A table fails to be read or is invalid; no other error comes from it. */
  lemma {:induction false} ValuesFailure<T>(kind: RecordKind<T>, file: File, config: Config, addrs: seq<nat>, k: nat)
    requires k <= |addrs|
    ensures var f := ValuesFrom(kind, file, config, addrs, k).failure;
            f.Some? ==> f.value == Io || f.value == InvalidBlock
    decreases |addrs| - k
  {
    if k < |addrs| {
      ValuesFailure(kind, file, config, addrs, k + 1);
    }
  }

  lemma TableFailure<T>(kind: RecordKind<T>, file: File, config: Config, address: nat)
    ensures var f := TableStream(kind, file, config, address).failure;
            f.Some? ==> f.value == Io || f.value == InvalidBlock
  {
    var values := IndexValues(file, config, address);
    if values.Ok? {
      ValuesFailure(kind, file, config, values.value, 0);
    }
  }

  lemma {:induction false} ValuesDecoded<T>(kind: RecordKind<T>, file: File, config: Config, addrs: seq<nat>, k: nat)
    requires k <= |addrs|
    ensures AllDecoded(kind, ValuesFrom(kind, file, config, addrs, k).items)
    decreases |addrs| - k
  {
    if k < |addrs| {
      ValuesDecoded(kind, file, config, addrs, k + 1);
      var block := ReadBlock(file, config, addrs[k], BLOCK_TYPE_VALUE);
      if block.Ok? {
        RecordsDecoded(kind, block.value, HEADER_SIZE, 0, RecordCount(block.value));
      }
    }
  }

  lemma {:induction false} TablesDecoded<T>(kind: RecordKind<T>, file: File, config: Config, indexAddrs: seq<nat>)
    ensures AllDecoded(kind, TablesStream(kind, file, config, indexAddrs).items)
  {
    hide ReadBlock, IndexValues, ValuesFrom;
    if indexAddrs != [] {
      TablesDecoded(kind, file, config, indexAddrs[1..]);
      var values := IndexValues(file, config, indexAddrs[0]);
      if values.Ok? {
        ValuesDecoded(kind, file, config, values.value, 0);
      }
    }
  }
}
