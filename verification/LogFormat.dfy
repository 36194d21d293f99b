/** The write-ahead log as it is written, and what reading it gives back. */
module LogFormat {
  import opened Wrappers
  import opened Records
  import opened Layout
  import opened Streams
  import opened WalIterator
  import opened Format

  /**
    A message of the log: a 256-byte header with the message size, the op and the operation, then a body of
    128-byte slots and fewer than 128 spare bytes. An unused slot may declare less than a header.
   */
  datatype Message = Message(
    checksums: seq<Byte>, size: nat, versions: seq<Byte>, op: nat, gap: seq<Byte>, operation: Byte,
    reserved: seq<Byte>, slots: seq<Slot>, spare: seq<Byte>)

  predicate MessageFits(m: Message) {
    && |m.checksums| == 96 && |m.versions| == 124 && m.op < Pow256(8) && |m.gap| == 20 && |m.reserved| == 3
    && |m.spare| < 128 && m.size < Pow256(4)
    && (m.size == 256 + 128 * |m.slots| + |m.spare| || (m.size < 256 && m.slots == []))
  }

  function MessageHeader(m: Message): seq<Byte> {
    m.checksums + ToLE(m.size, 4) + m.versions + ToLE(m.op, 8) + m.gap + [m.operation] + m.reserved
  }

  lemma MessageHeaderReadBack(m: Message)
    requires MessageFits(m)
    ensures var b := MessageHeader(m);
            && |b| == 256 && ReadU32(b, 96) == m.size && ReadU64(b, 224) == m.op && b[252] == m.operation
  {
    hide ToLE, Pow256, FromLE;
    var b := MessageHeader(m);
    var afterSize := m.versions + ToLE(m.op, 8) + m.gap + [m.operation] + m.reserved;
    assert b == m.checksums + ToLE(m.size, 4) + afterSize;
    ReadBack(m.checksums, m.size, 4, afterSize, b);
    var beforeOp, afterOp := m.checksums + ToLE(m.size, 4) + m.versions, m.gap + [m.operation] + m.reserved;
    assert b == beforeOp + ToLE(m.op, 8) + afterOp;
    ReadBack(beforeOp, m.op, 8, afterOp, b);
  }

  /** Where the headers and the bodies of the log lie: after the superblock copies, then after all headers. */
  predicate MessageStored(file: File, config: Config, slot: nat, m: Message) {
    var headers := config.superblockCopies * config.superblockCopySize;
    && MessageFits(m)
    && Stored(file, headers + slot * 256, MessageHeader(m))
    && Stored(file, headers + config.journalSlotCount * 256 + slot * config.messageSizeMax + 256,
              SlotBytes(m.slots) + m.spare)
  }

  /** A message of this operation that is not yet checkpointed. */
  predicate Pertinent(m: Message, operation: Byte, checkpointOp: nat) {
    m.operation == operation && m.op > checkpointOp
  }

  /** A slot gives back exactly the records of its message, without padding, if they are not yet checkpointed. */
  lemma SlotReadBack<T>(kind: RecordKind<T>, file: File, config: Config, checkpointOp: nat, slot: nat, m: Message)
    requires MessageStored(file, config, slot, m)
    ensures SlotStream(kind, file, config, checkpointOp, slot)
         == Stream(if Pertinent(m, kind.walOperation, checkpointOp) then Unpadded(kind, m.slots) else [], None)
  {
    hide ReadUInt, MessageHeader, SlotBytes, Unpadded, RecordsFrom;
    var header, body := MessageHeader(m), SlotBytes(m.slots) + m.spare;
    MessageHeaderReadBack(m);
    assert ReadSlotHeader(file, config, slot) == Ok(header);
    if Pertinent(m, kind.walOperation, checkpointOp) {
      assert ReadBody(file, config, slot, |body|) == Ok(body);
      assert m.slots[0..] == m.slots && body[0 + 128 * 0..] == body;
      SlotsReadBack(kind, body, 0, m.slots, 0, m.spare);
      assert |body| / RECORD_SIZE == |m.slots|;
      if m.slots == [] {
        NoSlots(kind);
      }
    }
  }

  /** The log holds one message per slot. */
  predicate LogStored(file: File, config: Config, messages: seq<Message>) {
    && |messages| == config.journalSlotCount
    && forall slot :: 0 <= slot < |messages| ==> MessageStored(file, config, slot, messages[slot])
  }

  /** The records of the messages of slots `slot..` that are of this operation and not yet checkpointed. */
  function LoggedSlots(messages: seq<Message>, operation: Byte, checkpointOp: nat, slot: nat): seq<Slot>
    requires slot <= |messages|
    decreases |messages| - slot
  {
    if slot == |messages| then []
    else
      var m := messages[slot];
      (if Pertinent(m, operation, checkpointOp) then m.slots else [])
      + LoggedSlots(messages, operation, checkpointOp, slot + 1)
  }

  /** The log gives back exactly the records written into it after the checkpoint, in slot order, without padding. */
  lemma {:induction false} LogReadBack<T>(kind: RecordKind<T>, file: File, config: Config, checkpointOp: nat,
                                          messages: seq<Message>, slot: nat)
    requires LogStored(file, config, messages) && slot <= |messages|
    ensures SlotsFrom(kind, file, config, checkpointOp, slot)
         == Stream(Unpadded(kind, LoggedSlots(messages, kind.walOperation, checkpointOp, slot)), None)
    decreases |messages| - slot
  {
    hide MessageStored, SlotStream, Unpadded;
    NoSlots(kind);
    if slot < |messages| {
      var m := messages[slot];
      SlotReadBack(kind, file, config, checkpointOp, slot, m);
      LogReadBack(kind, file, config, checkpointOp, messages, slot + 1);
      var later := LoggedSlots(messages, kind.walOperation, checkpointOp, slot + 1);
      UnpaddedAppend(kind, if Pertinent(m, kind.walOperation, checkpointOp) then m.slots else [], later);
    }
  }
}
