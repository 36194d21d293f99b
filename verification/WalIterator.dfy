/** The lazy iterator over write-ahead-log records that are not yet checkpointed. */
module WalIterator {
  import opened Wrappers
  import opened Records
  import opened Layout
  import opened Streams

  const WAL_HDR_SIZE: nat := 96
  const WAL_HDR_OP: nat := 224
  const WAL_HDR_OPERATION: nat := 252

  // ---------------------------------------------------------------------------
  // The flat specification
  // ---------------------------------------------------------------------------

  function ReadSlotHeader(file: File, config: Config, slot: nat): (r: Result<seq<Byte>, ReaderError>)
    ensures r.Ok? ==> |r.value| == 256
  {
    ReadExact(file, config.WalHeadersStart() + slot * 256, 256)
  }

  /** The slot holds a prepare of this record type, not yet checkpointed. */
  predicate Matches<T>(kind: RecordKind<T>, header: seq<Byte>, checkpointOp: nat)
    requires |header| == 256
  {
    && header[WAL_HDR_OPERATION] == kind.walOperation
    && ReadU64(header, WAL_HDR_OP) != 0 && ReadU64(header, WAL_HDR_OP) > checkpointOp
  }

  /** Bytes of body after the 256-byte message header. */
  function BodySize(header: seq<Byte>): nat
    requires |header| == 256
  {
    var size := ReadU32(header, WAL_HDR_SIZE);
    if size <= 256 then 0 else size - 256
  }

  function ReadBody(file: File, config: Config, slot: nat, size: nat): (r: Result<seq<Byte>, ReaderError>)
    ensures r.Ok? ==> |r.value| == size
  {
    ReadExact(file, config.WalPreparesStart() + slot * config.messageSizeMax + 256, size)
  }

  /** The records of one slot; the body is read only if the slot matches and has room for a record. */
  function SlotStream<T>(kind: RecordKind<T>, file: File, config: Config, checkpointOp: nat, slot: nat): Stream<T> {
    match ReadSlotHeader(file, config, slot)
    case Err(e) => Stream([], Some(e))
    case Ok(header) =>
      if !Matches(kind, header, checkpointOp) || BodySize(header) < RECORD_SIZE then Nothing()
      else
        BodyStream(kind, file, config, slot, BodySize(header))
  }

  /** The records of the first `size` bytes of a slot's body. */
  function BodyStream<T>(kind: RecordKind<T>, file: File, config: Config, slot: nat, size: nat): Stream<T> {
    match ReadBody(file, config, slot, size)
    case Err(e) => Stream([], Some(e))
    case Ok(body) => Stream(RecordsFrom(kind, body, 0, 0, |body| / RECORD_SIZE), None)
  }

  /** The records of slots `slot..journalSlotCount`, in slot order. */
  function SlotsFrom<T>(kind: RecordKind<T>, file: File, config: Config, checkpointOp: nat, slot: nat): Stream<T>
    requires slot <= config.journalSlotCount
    decreases config.journalSlotCount - slot
  {
    if slot == config.journalSlotCount then Nothing()
    else SlotStream(kind, file, config, checkpointOp, slot).Then(SlotsFrom(kind, file, config, checkpointOp, slot + 1))
  }

  // ---------------------------------------------------------------------------
  // The iterator
  // ---------------------------------------------------------------------------

  class WalObjectIter<T> {
    const kind: RecordKind<T>
    const file: File
    const config: Config
    const checkpointOp: nat
    var slot: nat // next slot to examine
    var body: seq<Byte> // body of the loaded slot
    var recordCount: nat
    var recordIdx: nat
    var done: bool

    ghost predicate Valid()
      reads this
    {
      && slot <= config.journalSlotCount
      && recordIdx <= recordCount
      && recordCount * RECORD_SIZE <= |body|
    }

    /** What is still to come after the records of the loaded slot. */
    ghost function Tail(): Stream<T>
      reads this
      requires Valid()
    {
      SlotsFrom(kind, file, config, checkpointOp, slot)
    }

    /** Everything still to come, according to the flat specification. */
    ghost function Remaining(): Stream<T>
      reads this
      requires Valid()
    {
      if done then Nothing()
      else Upcoming(kind, body, 0, recordIdx, recordCount, Tail())
    }

    constructor (kind: RecordKind<T>, file: File, config: Config, checkpointOp: nat)
      ensures Valid() && Remaining() == SlotsFrom(kind, file, config, checkpointOp, 0)
    {
      this.kind, this.file, this.config, this.checkpointOp := kind, file, config, checkpointOp;
      slot, body, recordCount, recordIdx, done := 0, [], 0, 0, false;
      new;
      ThenAssoc(SlotsFrom(kind, file, config, checkpointOp, 0), Nothing(), Nothing());
    }

    /** How many bytes of body slot `slot` has to offer, none if it must be skipped. */
    method ExamineSlot(slot: nat) returns (r: Result<Option<nat>, ReaderError>)
      ensures r.Err? ==> SlotStream(kind, file, config, checkpointOp, slot) == Stream([], Some(r.error))
      ensures r.Ok? && r.value.None? ==> SlotStream(kind, file, config, checkpointOp, slot) == Nothing()
      ensures r.Ok? && r.value.Some? ==>
                r.value.value >= RECORD_SIZE
                && SlotStream(kind, file, config, checkpointOp, slot)
                   == BodyStream(kind, file, config, slot, r.value.value)
      ensures r.Ok? ==>
                var header := ReadSlotHeader(file, config, slot);
                && header.Ok?
                && r.value == if Offers(kind.walOperation, header.value, checkpointOp)
                                 && ReadU32(header.value, 96) >= 384
                              then Some(ReadU32(header.value, 96) - 256) else None
    {
      var header := ReadSlotHeader(file, config, slot);
      if header.Err? {
        return Err(header.error);
      }
      if header.value[WAL_HDR_OPERATION] != kind.walOperation {
        return Ok(None);
      }
      var op := ReadU64(header.value, WAL_HDR_OP);
      if op == 0 || op <= checkpointOp {
        return Ok(None);
      }
      var msgSize := ReadU32(header.value, WAL_HDR_SIZE);
      if msgSize <= 256 || (msgSize - 256) / RECORD_SIZE == 0 {
        return Ok(None);
      }
      return Ok(Some(msgSize - 256));
    }

    /** Scans forward to the next matching slot and loads its body; `Ok(false)` when there is none left. */
    method LoadNextMatchingSlot() returns (r: Result<bool, ReaderError>)
      requires Valid() && !done && recordIdx == recordCount
      modifies this`slot, this`body, this`recordCount, this`recordIdx
      ensures Valid() && !done
      ensures match r
              case Ok(true) => slot > old(slot) && Remaining() == old(Tail())
              case Ok(false) => recordIdx == recordCount && Tail() == old(Tail()) == Nothing()
              case Err(e) => old(Tail()) == Stream([], Some(e))
    {
      hide SlotStream, RecordsFrom, ReadBody;
      ghost var tail := Tail();
      while slot < config.journalSlotCount
        invariant Valid() && !done && recordIdx == recordCount && slot >= old(slot) && Tail() == tail
        decreases config.journalSlotCount - slot
      {
        var current := slot;
        slot := slot + 1;
        ghost var later := Tail();
        ThenAssoc(later, Nothing(), Nothing());
        var bodySize := ExamineSlot(current);
        if bodySize.Err? {
          return Err(bodySize.error);
        }
        if bodySize.value.Some? {
          var bytes := ReadBody(file, config, current, bodySize.value.value);
          if bytes.Err? {
            return Err(bytes.error);
          }
          body, recordCount, recordIdx := bytes.value, bodySize.value.value / RECORD_SIZE, 0;
          return Ok(true);
        }
      }
      return Ok(false);
    }

    /** Scans the loaded body for the next record that is not padding. */
    method NextInBody() returns (r: Option<T>)
      requires Valid() && !done
      modifies this`recordIdx
      ensures Valid()
      ensures r.Some? ==> old(Remaining()).Next() == Some(Ok(r.value)) && Remaining() == old(Remaining()).Rest()
      ensures r.None? ==> recordIdx == recordCount && old(Remaining()) == Tail()
    {
      hide SlotsFrom, Upcoming, RecordsFrom;
      ghost var all, tail := Remaining(), Tail();
      while recordIdx < recordCount
        invariant Valid() && Tail() == tail
        invariant Upcoming(kind, body, 0, recordIdx, recordCount, tail) == all
        decreases recordCount - recordIdx
      {
        UpcomingStep(kind, body, 0, recordIdx, recordCount, tail);
        var record := kind.fromBytes(SlotAt(body, 0, recordIdx));
        recordIdx := recordIdx + 1;
        if !kind.isPadding(record) {
          return Some(record);
        }
      }
      NothingUpcoming(kind, body, 0, recordCount, tail);
      return None;
    }

    /** Yields the next record, an error once, or nothing: exactly what the flat specification says comes next. */
    method Next() returns (r: Option<Result<T, ReaderError>>)
      requires Valid()
      modifies this`slot, this`body, this`recordCount, this`recordIdx, this`done
      ensures Valid()
      ensures r == old(Remaining()).Next()
      ensures Remaining() == old(Remaining()).Rest()
    {
      if done {
        return None;
      }
      hide RecordsFrom, SlotsFrom;
      ghost var all := Remaining();
      while true
        invariant Valid() && !done && Remaining() == all
        decreases config.journalSlotCount - slot
      {
        var record := NextInBody();
        if record.Some? {
          return Some(Ok(record.value));
        }
        var loaded := LoadNextMatchingSlot();
        if loaded.Err? {
          done := true;
          return Some(Err(loaded.error));
        }
        if !loaded.value {
          return None;
        }
      }
    }
  }

  /** One page of an iterator's records: skip the earlier pages, take at most `limit`, stop at an error. */
  method ReadPage<T>(iter: WalObjectIter<T>, page: nat, limit: nat) returns (r: Result<seq<T>, ReaderError>)
    requires iter.Valid()
    modifies iter
    ensures iter.Valid()
    ensures r == PageOf(old(iter.Remaining()), page, limit)
  {
    hide RecordsFrom, SlotsFrom, Collect, Prefixed;
    var skip: nat := page * limit;
    ghost var start := iter.Remaining();
    while skip > 0
      invariant iter.Valid() && Advance(iter.Remaining(), skip) == Advance(start, page * limit)
    {
      var skipped := iter.Next();
      skip := skip - 1;
    }
    var records: seq<T> := [];
    var room: nat := limit;
    CollectStep(records, iter.Remaining(), room);
    while room > 0
      invariant iter.Valid()
      invariant PageOf(start, page, limit) == Prefixed(records, Collect(iter.Remaining(), room))
    {
      CollectStep(records, iter.Remaining(), room);
      var next := iter.Next();
      match next {
        case None => return Ok(records);
        case Some(Err(e)) => return Err(e);
        case Some(Ok(record)) =>
          records := records + [record];
          room := room - 1;
      }
    }
    CollectStep(records, iter.Remaining(), 0);
    return Ok(records);
  }

  // ---------------------------------------------------------------------------
  // What the flat specification says, record by record
  // ---------------------------------------------------------------------------

  /** Slot `slot` is readable: its header, and its body if it matches. */
  predicate Readable<T>(kind: RecordKind<T>, file: File, config: Config, checkpointOp: nat, slot: nat) {
    SlotStream(kind, file, config, checkpointOp, slot).failure.None?
  }

  /** Where the header and the body of a slot begin: headers after the superblock copies, bodies after all headers. */
  function HeaderPlace(config: Config, slot: nat): nat {
    config.superblockCopies * config.superblockCopySize + slot * 256
  }

  function BodyPlace(config: Config, slot: nat): nat {
    HeaderPlace(config, config.journalSlotCount) + slot * config.messageSizeMax + 256
  }

  /** A slot is readable if and only if the file has its header and, should it offer a record, its body. */
  lemma ReadableIff<T>(kind: RecordKind<T>, file: File, config: Config, checkpointOp: nat, slot: nat)
    ensures Readable(kind, file, config, checkpointOp, slot) <==>
            var at, bodyAt := HeaderPlace(config, slot), BodyPlace(config, slot);
            && at + 256 <= |file|
            && var header := file[at..at + 256];
               Offers(kind.walOperation, header, checkpointOp) && ReadU32(header, 96) >= 384 ==>
                 bodyAt + ReadU32(header, 96) - 256 <= |file|
  {
    hide ReadUInt, RecordsFrom;
    var header := ReadSlotHeader(file, config, slot);
    if header.Ok? {
      OffersIff(kind, header.value, checkpointOp);
    }
  }

  /** Record `i` of slot `slot` is one the iterator must yield. */
  ghost predicate IsRecord<T>(kind: RecordKind<T>, file: File, config: Config, checkpointOp: nat, slot: nat, i: nat,
                              record: T) {
    var header := ReadSlotHeader(file, config, slot);
    && header.Ok? && Offers(kind.walOperation, header.value, checkpointOp)
    && 256 + (i + 1) * 128 <= ReadU32(header.value, 96)
    && var body := ReadBody(file, config, slot, ReadU32(header.value, 96) - 256);
       body.Ok? && record == kind.fromBytes(SlotAt(body.value, 0, i)) && !kind.isPadding(record)
  }

  /** The header is that of an operation of this kind, numbered after the checkpoint. */
  predicate Offers(operation: Byte, header: seq<Byte>, checkpointOp: nat)
    requires |header| == 256
  {
    header[252] == operation && ReadU64(header, 224) != 0 && ReadU64(header, 224) > checkpointOp
  }

  lemma OffersIff<T>(kind: RecordKind<T>, header: seq<Byte>, checkpointOp: nat)
    requires |header| == 256
    ensures Matches(kind, header, checkpointOp) <==> Offers(kind.walOperation, header, checkpointOp)
    ensures BodySize(header) == if ReadU32(header, 96) <= 256 then 0 else ReadU32(header, 96) - 256
  {
  }

  /** No record of an operation at or below the checkpoint is ever yielded. */
  lemma CheckpointedNotYielded<T>(kind: RecordKind<T>, file: File, config: Config, checkpointOp: nat, slot: nat, x: T)
    requires Readable(kind, file, config, checkpointOp, slot)
    requires x in SlotStream(kind, file, config, checkpointOp, slot).items
    ensures ReadSlotHeader(file, config, slot).Ok?
    ensures var header := ReadSlotHeader(file, config, slot).value;
            ReadU64(header, 224) > checkpointOp && header[252] == kind.walOperation && ReadU32(header, 96) >= 384
  {
    hide SlotStream, ReadSlotHeader;
    SlotRecords(kind, file, config, checkpointOp, slot);
    var i: nat :| IsRecord(kind, file, config, checkpointOp, slot, i, x);
  }

  /** If every slot is readable, the iterator yields exactly the records of the matching slots. */
  lemma {:induction false} YieldsExactlyTheRecords<T>(kind: RecordKind<T>, file: File, config: Config,
                                                      checkpointOp: nat, slot: nat)
    requires slot <= config.journalSlotCount
    requires forall s :: slot <= s < config.journalSlotCount ==> Readable(kind, file, config, checkpointOp, s)
    ensures SlotsFrom(kind, file, config, checkpointOp, slot).failure.None?
    ensures forall x :: x in SlotsFrom(kind, file, config, checkpointOp, slot).items <==>
              exists s: nat, i: nat :: slot <= s < config.journalSlotCount
                && IsRecord(kind, file, config, checkpointOp, s, i, x)
    decreases config.journalSlotCount - slot
  {
    hide SlotStream, IsRecord;
    if slot < config.journalSlotCount {
      assert Readable(kind, file, config, checkpointOp, slot);
      YieldsExactlyTheRecords(kind, file, config, checkpointOp, slot + 1);
      SlotRecords(kind, file, config, checkpointOp, slot);
      var here := SlotStream(kind, file, config, checkpointOp, slot);
      var later := SlotsFrom(kind, file, config, checkpointOp, slot + 1);
      forall x
        ensures x in SlotsFrom(kind, file, config, checkpointOp, slot).items <==>
                exists s: nat, i: nat :: slot <= s < config.journalSlotCount
                  && IsRecord(kind, file, config, checkpointOp, s, i, x)
      {
        assert x in here.items + later.items <==> x in here.items || x in later.items;
        if s: nat, i: nat :|
          slot <= s < config.journalSlotCount && IsRecord(kind, file, config, checkpointOp, s, i, x) {
          assert s == slot || slot + 1 <= s;
        }
      }
    }
  }

  lemma SlotRecords<T>(kind: RecordKind<T>, file: File, config: Config, checkpointOp: nat, slot: nat)
    requires Readable(kind, file, config, checkpointOp, slot)
    ensures forall x :: x in SlotStream(kind, file, config, checkpointOp, slot).items <==>
              exists i: nat :: IsRecord(kind, file, config, checkpointOp, slot, i, x)
  {
    var header := ReadSlotHeader(file, config, slot).value;
    OffersIff(kind, header, checkpointOp);
    if Matches(kind, header, checkpointOp) && BodySize(header) >= RECORD_SIZE {
      var body := ReadBody(file, config, slot, BodySize(header)).value;
      var count := |body| / RECORD_SIZE;
      var records := RecordsFrom(kind, body, 0, 0, count);
      RecordsFromContains(kind, body, 0, 0, count);
      forall x | x in records
        ensures exists i: nat :: IsRecord(kind, file, config, checkpointOp, slot, i, x)
      {
        var k := RecordSlot(kind, body, 0, count, x);
        assert IsRecord(kind, file, config, checkpointOp, slot, k, x);
      }
      forall x, i: nat | IsRecord(kind, file, config, checkpointOp, slot, i, x)
        ensures x in records
      {
        assert HoldsRecord(kind, body, 0, i, count, x);
      }
    }
  }

  lemma {:induction false} SlotsDecoded<T>(kind: RecordKind<T>, file: File, config: Config, checkpointOp: nat,
                                           slot: nat)
    requires slot <= config.journalSlotCount
    ensures AllDecoded(kind, SlotsFrom(kind, file, config, checkpointOp, slot).items)
    decreases config.journalSlotCount - slot
  {
    if slot < config.journalSlotCount {
      SlotsDecoded(kind, file, config, checkpointOp, slot + 1);
      var header := ReadSlotHeader(file, config, slot);
      if header.Ok? {
        var body := ReadBody(file, config, slot, BodySize(header.value));
        if body.Ok? {
          RecordsDecoded(kind, body.value, 0, 0, |body.value| / RECORD_SIZE);
        }
      }
    }
  }
}
