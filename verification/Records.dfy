/** The 128-byte account and transfer records, and the little-endian codec that reads them. */
module Records {
  import opened Wrappers

  type Byte = b: int | 0 <= b < 256

  const U128_MAX: nat := 0xFFFF_FFFF_FFFF_FFFF_FFFF_FFFF_FFFF_FFFF
  const RECORD_SIZE: nat := 128

  // ---------------------------------------------------------------------------
  // Record types
  // ---------------------------------------------------------------------------

  /** An account. `flags` is the raw 16-bit flag word. */
  datatype Account = Account(
    id: nat, debitsPending: nat, debitsPosted: nat, creditsPending: nat, creditsPosted: nat,
    userData128: nat, userData64: nat, userData32: nat, reserved: nat,
    ledger: nat, code: nat, flags: nat, timestamp: nat)

  /** A transfer. `flags` is the raw 16-bit flag word. */
  datatype Transfer = Transfer(
    id: nat, debitAccountId: nat, creditAccountId: nat, amount: nat, pendingId: nat,
    userData128: nat, userData64: nat, userData32: nat, timeout: nat,
    ledger: nat, code: nat, flags: nat, timestamp: nat)

  // Flag accessors on the raw word of an account.

  predicate AccountLinked(raw: nat) {
    raw % 2 == 1
  }

  predicate DebitsMustNotExceedCredits(raw: nat) {
    raw / 2 % 2 == 1
  }

  predicate CreditsMustNotExceedDebits(raw: nat) {
    raw / 4 % 2 == 1
  }

  predicate History(raw: nat) {
    raw / 8 % 2 == 1
  }

  predicate AccountImported(raw: nat) {
    raw / 16 % 2 == 1
  }

  predicate Closed(raw: nat) {
    raw / 32 % 2 == 1
  }

  // Flag accessors on the raw word of a transfer.

  predicate TransferLinked(raw: nat) {
    raw % 2 == 1
  }

  predicate Pending(raw: nat) {
    raw / 2 % 2 == 1
  }

  predicate PostPendingTransfer(raw: nat) {
    raw / 4 % 2 == 1
  }

  predicate VoidPendingTransfer(raw: nat) {
    raw / 8 % 2 == 1
  }

  predicate BalancingDebit(raw: nat) {
    raw / 16 % 2 == 1
  }

  predicate BalancingCredit(raw: nat) {
    raw / 32 % 2 == 1
  }

  predicate ClosingDebit(raw: nat) {
    raw / 64 % 2 == 1
  }

  predicate ClosingCredit(raw: nat) {
    raw / 128 % 2 == 1
  }

  predicate TransferImported(raw: nat) {
    raw / 256 % 2 == 1
  }

  const ACCOUNT_IMPORTED: nat := 16
  const TRANSFER_IMPORTED: nat := 256

  // ---------------------------------------------------------------------------
  // Little-endian integers
  // ---------------------------------------------------------------------------

  function Pow256(n: nat): (p: nat)
    ensures p > 0
  {
    if n == 0 then 1 else 256 * Pow256(n - 1)
  }

  /** The unsigned integer whose little-endian bytes are `s`. */
  function FromLE(s: seq<Byte>): nat {
    if s == [] then 0 else s[0] + 256 * FromLE(s[1..])
  }

  /** The `n` low-order bytes of `v`, least significant first. */
  function ToLE(v: nat, n: nat): (s: seq<Byte>)
    ensures |s| == n
  {
    if n == 0 then [] else [v % 256] + ToLE(v / 256, n - 1)
  }

  lemma {:induction false} FromLEFits(s: seq<Byte>)
    ensures FromLE(s) < Pow256(|s|)
  {
    if s != [] {
      FromLEFits(s[1..]);
    }
  }

  /** Each further byte is more significant than all before it. */
  lemma {:induction false} NextByte(s: seq<Byte>, b: Byte)
    ensures FromLE(s + [b]) == FromLE(s) + Pow256(|s|) * b
  {
    if s == [] {
      assert [] + [b] == [b] && [b][1..] == [];
    } else {
      assert (s + [b])[1..] == s[1..] + [b];
      NextByte(s[1..], b);
    }
  }

  lemma {:induction false} ToLEFromLE(s: seq<Byte>)
    ensures ToLE(FromLE(s), |s|) == s
  {
    if s != [] {
      ToLEFromLE(s[1..]);
      assert FromLE(s) / 256 == FromLE(s[1..]) && FromLE(s) % 256 == s[0];
    }
  }

  lemma {:induction false} FromLEToLE(v: nat, n: nat)
    requires v < Pow256(n)
    ensures FromLE(ToLE(v, n)) == v
  {
    if n > 0 {
      FromLEToLE(v / 256, n - 1);
    }
  }

  function ReadUInt(b: seq<Byte>, off: nat, width: nat): nat
    requires off + width <= |b|
  {
    FromLE(b[off..off + width])
  }

  function ReadU16(b: seq<Byte>, off: nat): nat
    requires off + 2 <= |b|
  {
    ReadUInt(b, off, 2)
  }

  function ReadU32(b: seq<Byte>, off: nat): nat
    requires off + 4 <= |b|
  {
    ReadUInt(b, off, 4)
  }

  function ReadU64(b: seq<Byte>, off: nat): nat
    requires off + 8 <= |b|
  {
    ReadUInt(b, off, 8)
  }

  function ReadU128(b: seq<Byte>, off: nat): nat
    requires off + 16 <= |b|
  {
    ReadUInt(b, off, 16)
  }

  // ---------------------------------------------------------------------------
  // Decoding
  // ---------------------------------------------------------------------------

  function AccountFromBytes(b: seq<Byte>): Account
    requires |b| >= 128
  {
    Account(
      ReadU128(b, 0), ReadU128(b, 16), ReadU128(b, 32), ReadU128(b, 48), ReadU128(b, 64),
      ReadU128(b, 80), ReadU64(b, 96), ReadU32(b, 104), ReadU32(b, 108),
      ReadU32(b, 112), ReadU16(b, 116), ReadU16(b, 118), ReadU64(b, 120))
  }

  function TransferFromBytes(b: seq<Byte>): Transfer
    requires |b| >= 128
  {
    Transfer(
      ReadU128(b, 0), ReadU128(b, 16), ReadU128(b, 32), ReadU128(b, 48), ReadU128(b, 64),
      ReadU128(b, 80), ReadU64(b, 96), ReadU32(b, 104), ReadU32(b, 108),
      ReadU32(b, 112), ReadU16(b, 116), ReadU16(b, 118), ReadU64(b, 120))
  }

  // What records are merged and sorted by.

  function AccountId(a: Account): nat {
    a.id
  }

  function AccountTimestamp(a: Account): nat {
    a.timestamp
  }

  function TransferId(t: Transfer): nat {
    t.id
  }

  function TransferTimestamp(t: Transfer): nat {
    t.timestamp
  }

  datatype ManifestEvent = Insert | Update | Remove

  /** A manifest log entry: what happened to the table whose index block is at `address`. */
  datatype TableInfo = TableInfo(address: nat, treeId: nat, event: ManifestEvent) {
    predicate Live() {
      event != Remove
    }
  }

  function TableInfoFromBytes(b: seq<Byte>): (r: Option<TableInfo>)
    requires |b| >= 128
  {
    var eventBits := b[126] / 64;
    if eventBits == 0 then None
    else Some(TableInfo(ReadU64(b, 96), ReadU16(b, 124),
                        if eventBits == 1 then Insert else if eventBits == 2 then Update else Remove))
  }

  // ---------------------------------------------------------------------------
  // The record layout, and decoding as a bijection
  // ---------------------------------------------------------------------------

  /** Widths of the thirteen fields of a record, in file order. */
  const WIDTHS: seq<nat> := [16, 16, 16, 16, 16, 16, 8, 4, 4, 4, 2, 2, 8]

  function TotalWidth(widths: seq<nat>): nat {
    if widths == [] then 0 else widths[0] + TotalWidth(widths[1..])
  }

  ghost predicate FieldsFit(fields: seq<nat>, widths: seq<nat>) {
    |fields| == |widths| && forall i :: 0 <= i < |widths| ==> fields[i] < Pow256(widths[i])
  }

  /** Lays the fields out one after the other: no gap, no overlap. */
  function PackFields(fields: seq<nat>, widths: seq<nat>): (b: seq<Byte>)
    requires |fields| == |widths|
    ensures |b| == TotalWidth(widths)
  {
    if widths == [] then [] else ToLE(fields[0], widths[0]) + PackFields(fields[1..], widths[1..])
  }

  function UnpackFields(b: seq<Byte>, widths: seq<nat>): (fields: seq<nat>)
    requires |b| == TotalWidth(widths)
    ensures |fields| == |widths|
  {
    if widths == [] then [] else [FromLE(b[..widths[0]])] + UnpackFields(b[widths[0]..], widths[1..])
  }

  lemma {:induction false} UnpackedFieldsFit(b: seq<Byte>, widths: seq<nat>)
    requires |b| == TotalWidth(widths)
    ensures FieldsFit(UnpackFields(b, widths), widths)
  {
    if widths != [] {
      FromLEFits(b[..widths[0]]);
      UnpackedFieldsFit(b[widths[0]..], widths[1..]);
    }
  }

  lemma {:induction false} PackUnpack(b: seq<Byte>, widths: seq<nat>)
    requires |b| == TotalWidth(widths)
    ensures PackFields(UnpackFields(b, widths), widths) == b
  {
    if widths != [] {
      var w, rest := widths[0], widths[1..];
      var head, tail := b[..w], b[w..];
      var fields := UnpackFields(tail, rest);
      PackUnpack(tail, rest);
      ToLEFromLE(head);
      assert ([FromLE(head)] + fields)[1..] == fields;
      assert PackFields([FromLE(head)] + fields, widths) == ToLE(FromLE(head), w) + PackFields(fields, rest);
      assert b == head + tail;
    }
  }

  lemma {:induction false} UnpackPack(fields: seq<nat>, widths: seq<nat>)
    requires FieldsFit(fields, widths)
    ensures UnpackFields(PackFields(fields, widths), widths) == fields
  {
    if widths != [] {
      var b, w := PackFields(fields, widths), widths[0];
      FromLEToLE(fields[0], w);
      UnpackPack(fields[1..], widths[1..]);
      assert b[..w] == ToLE(fields[0], w) && b[w..] == PackFields(fields[1..], widths[1..]);
    }
  }

  function AccountFields(a: Account): seq<nat> {
    [a.id, a.debitsPending, a.debitsPosted, a.creditsPending, a.creditsPosted, a.userData128, a.userData64,
     a.userData32, a.reserved, a.ledger, a.code, a.flags, a.timestamp]
  }

  function TransferFields(t: Transfer): seq<nat> {
    [t.id, t.debitAccountId, t.creditAccountId, t.amount, t.pendingId, t.userData128, t.userData64,
     t.userData32, t.timeout, t.ledger, t.code, t.flags, t.timestamp]
  }

  ghost predicate AccountFits(a: Account) {
    FieldsFit(AccountFields(a), WIDTHS)
  }

  ghost predicate TransferFits(t: Transfer) {
    FieldsFit(TransferFields(t), WIDTHS)
  }

  lemma LayoutIs128()
    ensures TotalWidth(WIDTHS) == RECORD_SIZE
  {
    assert WIDTHS[6..] == [8, 4, 4, 4, 2, 2, 8];
    assert TotalWidth([8, 4, 4, 4, 2, 2, 8]) == 32 by {
      assert TotalWidth([4, 2, 2, 8]) == 16;
    }
    assert TotalWidth(WIDTHS[3..]) == 48 + TotalWidth(WIDTHS[6..]) by {
      assert WIDTHS[3..][1..] == WIDTHS[4..] && WIDTHS[4..][1..] == WIDTHS[5..] && WIDTHS[5..][1..] == WIDTHS[6..];
    }
    assert WIDTHS[1..][1..] == WIDTHS[2..] && WIDTHS[2..][1..] == WIDTHS[3..];
  }

  function AccountToBytes(a: Account): (b: seq<Byte>)
    ensures |b| == RECORD_SIZE
  {
    LayoutIs128();
    PackFields(AccountFields(a), WIDTHS)
  }

  function TransferToBytes(t: Transfer): (b: seq<Byte>)
    ensures |b| == RECORD_SIZE
  {
    LayoutIs128();
    PackFields(TransferFields(t), WIDTHS)
  }

  /** Where field `k` starts: the sum of the widths before it. */
  function Offset(widths: seq<nat>, k: nat): nat
    requires k <= |widths|
  {
    if k == 0 then 0 else Offset(widths, k - 1) + widths[k - 1]
  }

  lemma {:induction false} OffsetOfTail(widths: seq<nat>, k: nat)
    requires 0 < k <= |widths|
    ensures Offset(widths, k) == widths[0] + Offset(widths[1..], k - 1)
  {
    if k > 1 {
      OffsetOfTail(widths, k - 1);
    }
  }

  lemma ReadInTail(b: seq<Byte>, w: nat, off: nat, width: nat)
    requires w + off + width <= |b|
    ensures ReadUInt(b[w..], off, width) == ReadUInt(b, w + off, width)
  {
    assert b[w..][off..off + width] == b[w + off..w + off + width];
  }

  /** Unpacking field `k` is the read at its offset. */
  lemma {:induction false} UnpackAt(b: seq<Byte>, widths: seq<nat>, k: nat)
    requires |b| == TotalWidth(widths) && k < |widths|
    ensures Offset(widths, k) + widths[k] <= |b|
    ensures UnpackFields(b, widths)[k] == ReadUInt(b, Offset(widths, k), widths[k])
  {
    var w, rest := widths[0], widths[1..];
    var fields := UnpackFields(b[w..], rest);
    assert UnpackFields(b, widths) == [FromLE(b[..w])] + fields;
    if k > 0 {
      UnpackAt(b[w..], rest, k - 1);
      OffsetOfTail(widths, k);
      ReadInTail(b, w, Offset(rest, k - 1), widths[k]);
      assert ([FromLE(b[..w])] + fields)[k] == fields[k - 1];
    }
  }

  /** The offsets of the thirteen fields. */
  const OFFSETS: seq<nat> := [0, 16, 32, 48, 64, 80, 96, 104, 108, 112, 116, 118, 120]

  lemma {:induction false} OffsetTable(k: nat)
    requires k < 13
    ensures Offset(WIDTHS, k) == OFFSETS[k]
  {
    if k > 0 {
      OffsetTable(k - 1);
    }
  }

  /** `fields` are the reads of `b` at the thirteen offsets. */
  ghost predicate FieldsRead(b: seq<Byte>, fields: seq<nat>) {
    && |b| == RECORD_SIZE && |fields| == 13
    && forall k :: 0 <= k < 13 ==> OFFSETS[k] + WIDTHS[k] <= |b| && fields[k] == ReadUInt(b, OFFSETS[k], WIDTHS[k])
  }

  lemma UnpackReads(b: seq<Byte>, widths: seq<nat>)
    requires widths == WIDTHS && |b| == TotalWidth(widths) == RECORD_SIZE
    ensures FieldsRead(b, UnpackFields(b, widths))
  {
    forall k | 0 <= k < 13
      ensures OFFSETS[k] + widths[k] <= |b| && UnpackFields(b, widths)[k] == ReadUInt(b, OFFSETS[k], widths[k])
    {
      UnpackAt(b, widths, k);
      OffsetTable(k);
    }
  }

  /** Every 128-byte slice is the packing of the thirteen fields read from it. */
  lemma ReadFieldsPackBack(b: seq<Byte>, widths: seq<nat>) returns (fields: seq<nat>)
    requires widths == WIDTHS && |b| == RECORD_SIZE
    ensures FieldsRead(b, fields) && FieldsFit(fields, widths) && PackFields(fields, widths) == b
  {
    LayoutIs128();
    fields := UnpackFields(b, widths);
    UnpackReads(b, widths);
    UnpackedFieldsFit(b, widths);
    PackUnpack(b, widths);
  }

  /** Packed fields are read back unchanged. */
  lemma PackedFieldsReadBack(fields: seq<nat>, widths: seq<nat>)
    requires widths == WIDTHS && FieldsFit(fields, widths)
    ensures FieldsRead(PackFields(fields, widths), fields)
  {
    LayoutIs128();
    UnpackPack(fields, widths);
    UnpackReads(PackFields(fields, widths), widths);
  }

  function AccountOfFields(f: seq<nat>): Account
    requires |f| == 13
  {
    Account(f[0], f[1], f[2], f[3], f[4], f[5], f[6], f[7], f[8], f[9], f[10], f[11], f[12])
  }

  function TransferOfFields(f: seq<nat>): Transfer
    requires |f| == 13
  {
    Transfer(f[0], f[1], f[2], f[3], f[4], f[5], f[6], f[7], f[8], f[9], f[10], f[11], f[12])
  }

  lemma OffsetsRunOn(k: nat)
    requires k < 12
    ensures OFFSETS[k] + WIDTHS[k] == OFFSETS[k + 1]
  {
    OffsetTable(k);
    OffsetTable(k + 1);
  }

  lemma DecodersRead(b: seq<Byte>, fields: seq<nat>)
    requires FieldsRead(b, fields)
    ensures AccountFromBytes(b) == AccountOfFields(fields)
    ensures TransferFromBytes(b) == TransferOfFields(fields)
  {
    hide ReadUInt;
    assert fields[0] == ReadUInt(b, 0, 16);
    assert fields[1] == ReadUInt(b, 16, 16);
    assert fields[2] == ReadUInt(b, 32, 16);
    assert fields[3] == ReadUInt(b, 48, 16);
    assert fields[4] == ReadUInt(b, 64, 16);
    assert fields[5] == ReadUInt(b, 80, 16);
    assert fields[6] == ReadUInt(b, 96, 8);
    assert fields[7] == ReadUInt(b, 104, 4);
    assert fields[8] == ReadUInt(b, 108, 4);
    assert fields[9] == ReadUInt(b, 112, 4);
    assert fields[10] == ReadUInt(b, 116, 2);
    assert fields[11] == ReadUInt(b, 118, 2);
    assert fields[12] == ReadUInt(b, 120, 8);
  }

  /**
    The offsets are the running sums of the widths, each field starts where the one before it ends and the
    last ends the record; and the decoders read exactly at these offsets.
   */
  lemma OffsetsTileTheRecord(b: seq<Byte>, fields: seq<nat>)
    requires FieldsRead(b, fields)
    ensures OFFSETS[0] == 0 && OFFSETS[12] + WIDTHS[12] == RECORD_SIZE
    ensures forall k :: 0 <= k < 12 ==> OFFSETS[k] + WIDTHS[k] == OFFSETS[k + 1]
    ensures forall k :: 0 <= k < 13 ==> OFFSETS[k] == Offset(WIDTHS, k)
    ensures AccountFromBytes(b) == AccountOfFields(fields)
    ensures TransferFromBytes(b) == TransferOfFields(fields)
  {
    DecodersRead(b, fields);
    hide *;
    forall k | 0 <= k < 13
      ensures OFFSETS[k] == Offset(WIDTHS, k)
    {
      OffsetTable(k);
    }
    forall k | 0 <= k < 12
      ensures OFFSETS[k] + WIDTHS[k] == OFFSETS[k + 1]
    {
      OffsetsRunOn(k);
    }
  }

  /** Which bytes of an account are which field. */
  lemma AccountFieldsAt(b: seq<Byte>)
    requires |b| == 128
    ensures var a := AccountFromBytes(b);
            && a.id == FromLE(b[0..16]) && a.debitsPending == FromLE(b[16..32]) && a.debitsPosted == FromLE(b[32..48])
            && a.creditsPending == FromLE(b[48..64]) && a.creditsPosted == FromLE(b[64..80])
            && a.userData128 == FromLE(b[80..96]) && a.userData64 == FromLE(b[96..104])
            && a.userData32 == FromLE(b[104..108]) && a.reserved == FromLE(b[108..112])
            && a.ledger == FromLE(b[112..116]) && a.code == FromLE(b[116..118]) && a.flags == FromLE(b[118..120])
            && a.timestamp == FromLE(b[120..128])
  {
    hide FromLE;
  }

  /** Which bytes of a transfer are which field. */
  lemma TransferFieldsAt(b: seq<Byte>)
    requires |b| == 128
    ensures var t := TransferFromBytes(b);
            && t.id == FromLE(b[0..16]) && t.debitAccountId == FromLE(b[16..32])
            && t.creditAccountId == FromLE(b[32..48]) && t.amount == FromLE(b[48..64])
            && t.pendingId == FromLE(b[64..80]) && t.userData128 == FromLE(b[80..96])
            && t.userData64 == FromLE(b[96..104]) && t.userData32 == FromLE(b[104..108])
            && t.timeout == FromLE(b[108..112]) && t.ledger == FromLE(b[112..116]) && t.code == FromLE(b[116..118])
            && t.flags == FromLE(b[118..120]) && t.timestamp == FromLE(b[120..128])
  {
    hide FromLE;
  }

  lemma FieldsOfAccount(fields: seq<nat>)
    requires |fields| == 13
    ensures AccountFields(AccountOfFields(fields)) == fields
  {
  }

  lemma FieldsOfTransfer(fields: seq<nat>)
    requires |fields| == 13
    ensures TransferFields(TransferOfFields(fields)) == fields
  {
  }

  /** Decoding an account loses nothing: encoding it again gives back the 128 bytes. */
  lemma AccountDecodeEncode(b: seq<Byte>)
    requires |b| == RECORD_SIZE
    ensures AccountFits(AccountFromBytes(b))
    ensures AccountToBytes(AccountFromBytes(b)) == b
  {
    var fields := ReadFieldsPackBack(b, WIDTHS);
    DecodersRead(b, fields);
    FieldsOfAccount(fields);
  }

  /** Every account whose fields fit their widths is read back from its encoding. */
  lemma AccountEncodeDecode(a: Account)
    requires AccountFits(a)
    ensures AccountFromBytes(AccountToBytes(a)) == a
  {
    PackedFieldsReadBack(AccountFields(a), WIDTHS);
    OffsetsTileTheRecord(AccountToBytes(a), AccountFields(a));
  }

  lemma TransferDecodeEncode(b: seq<Byte>)
    requires |b| == RECORD_SIZE
    ensures TransferFits(TransferFromBytes(b))
    ensures TransferToBytes(TransferFromBytes(b)) == b
  {
    var fields := ReadFieldsPackBack(b, WIDTHS);
    DecodersRead(b, fields);
    FieldsOfTransfer(fields);
  }

  lemma TransferEncodeDecode(t: Transfer)
    requires TransferFits(t)
    ensures TransferFromBytes(TransferToBytes(t)) == t
  {
    PackedFieldsReadBack(TransferFields(t), WIDTHS);
    OffsetsTileTheRecord(TransferToBytes(t), TransferFields(t));
  }
}
