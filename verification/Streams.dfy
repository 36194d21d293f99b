/** The flat view of a record iterator: the records it will yield, then possibly one error. */
module Streams {
  import opened Wrappers
  import opened Records
  import opened Layout

  datatype Stream<T> = Stream(items: seq<T>, failure: Option<ReaderError>) {
    /** This stream, then the next one unless this one fails. */
    function Then(next: Stream<T>): Stream<T> {
      if failure.Some? then this else Stream(items + next.items, next.failure)
    }

    /** What is left after one call of `next`. */
    function Rest(): Stream<T> {
      if items != [] then Stream(items[1..], failure) else Stream([], None)
    }

    /** What one call of `next` yields. */
    function Next(): Option<Result<T, ReaderError>> {
      if items != [] then Some(Ok(items[0]))
      else if failure.Some? then Some(Err(failure.value))
      else None
    }
  }

  function Nothing<T>(): Stream<T> {
    Stream([], None)
  }

  lemma ThenAssoc<T>(a: Stream<T>, b: Stream<T>, c: Stream<T>)
    ensures a.Then(b).Then(c) == a.Then(b.Then(c))
    ensures Nothing<T>().Then(a) == a && a.Then(Nothing()) == a
  {
    assert a.items + b.items + c.items == a.items + (b.items + c.items);
    assert [] + a.items == a.items && a.items + [] == a.items;
  }

  /** The bytes of one record. */
  type Slot = s: seq<Byte> | |s| == RECORD_SIZE witness seq(RECORD_SIZE, _ => 0)

  /** How one record type is decoded, told from padding, and marked in the write-ahead log. */
  datatype RecordKind<!T> = RecordKind(fromBytes: Slot -> T, isPadding: T -> bool, walOperation: Byte)

  /** Id 0 marks an unused slot and the greatest id an internal sentinel. */
  predicate PaddingId(id: nat) {
    id == 0 || id == U128_MAX
  }

  const ACCOUNTS: RecordKind<Account> := RecordKind((b: Slot) => AccountFromBytes(b), (a: Account) => PaddingId(a.id),
                                                    138)
  const TRANSFERS: RecordKind<Transfer> := RecordKind((b: Slot) => TransferFromBytes(b),
                                                      (t: Transfer) => PaddingId(t.id), 139)

  function SlotAt(bytes: seq<Byte>, base: nat, i: nat): Slot
    requires base + (i + 1) * RECORD_SIZE <= |bytes|
  {
    bytes[base + i * RECORD_SIZE..base + (i + 1) * RECORD_SIZE]
  }

  /** The non-padding records among slots `i..count` of `bytes`, the first slot starting at `base`. */
  function RecordsFrom<T>(kind: RecordKind<T>, bytes: seq<Byte>, base: nat, i: nat, count: nat): seq<T>
    requires i <= count && (i < count ==> base + count * RECORD_SIZE <= |bytes|)
    decreases count - i
  {
    if i == count then []
    else
      var record := kind.fromBytes(SlotAt(bytes, base, i));
      (if kind.isPadding(record) then [] else [record]) + RecordsFrom(kind, bytes, base, i + 1, count)
  }

  lemma RecordStep<T>(kind: RecordKind<T>, bytes: seq<Byte>, base: nat, i: nat, count: nat)
    requires i < count && base + count * RECORD_SIZE <= |bytes|
    ensures var record, rest := kind.fromBytes(SlotAt(bytes, base, i)), RecordsFrom(kind, bytes, base, i + 1, count);
            RecordsFrom(kind, bytes, base, i, count) == if kind.isPadding(record) then rest else [record] + rest
  {
  }

  /** Slot `k` of `bytes` lies before `count` and holds `x`, which is not padding. */
  ghost predicate HoldsRecord<T>(kind: RecordKind<T>, bytes: seq<Byte>, base: nat, k: nat, count: nat, x: T) {
    k < count && base + (k + 1) * RECORD_SIZE <= |bytes| && x == kind.fromBytes(SlotAt(bytes, base, k))
      && !kind.isPadding(x)
  }

  lemma {:induction false} RecordsFromContains<T>(kind: RecordKind<T>, bytes: seq<Byte>, base: nat, i: nat, count: nat)
    requires i <= count && base + count * RECORD_SIZE <= |bytes|
    ensures forall x :: x in RecordsFrom(kind, bytes, base, i, count) <==>
              exists k: nat :: i <= k && HoldsRecord(kind, bytes, base, k, count, x)
    decreases count - i
  {
    if i < count {
      RecordsFromContains(kind, bytes, base, i + 1, count);
      RecordStep(kind, bytes, base, i, count);
      var record, rest := kind.fromBytes(SlotAt(bytes, base, i)), RecordsFrom(kind, bytes, base, i + 1, count);
      forall x
        ensures x in RecordsFrom(kind, bytes, base, i, count) <==>
                exists k: nat :: i <= k && HoldsRecord(kind, bytes, base, k, count, x)
      {
        if !kind.isPadding(record) && x == record {
          assert HoldsRecord(kind, bytes, base, i, count, x);
        } else if x in rest {
          var k: nat :| i + 1 <= k && HoldsRecord(kind, bytes, base, k, count, x);
        }
      }
    }
  }

  lemma RecordSlot<T>(kind: RecordKind<T>, bytes: seq<Byte>, base: nat, count: nat, x: T) returns (k: nat)
    requires base + count * RECORD_SIZE <= |bytes| && x in RecordsFrom(kind, bytes, base, 0, count)
    ensures HoldsRecord(kind, bytes, base, k, count, x)
  {
    RecordsFromContains(kind, bytes, base, 0, count);
    k :| 0 <= k && HoldsRecord(kind, bytes, base, k, count, x);
  }

  /** The record was decoded from 128 bytes, so its fields fit their widths. */
  ghost predicate Decoded<T>(kind: RecordKind<T>, x: T) {
    exists b: Slot :: x == kind.fromBytes(b)
  }

  ghost predicate AllDecoded<T>(kind: RecordKind<T>, xs: seq<T>) {
    forall i :: 0 <= i < |xs| ==> Decoded(kind, xs[i])
  }

  lemma {:induction false} RecordsDecoded<T>(kind: RecordKind<T>, bytes: seq<Byte>, base: nat, i: nat, count: nat)
    requires i <= count && (i < count ==> base + count * RECORD_SIZE <= |bytes|)
    ensures AllDecoded(kind, RecordsFrom(kind, bytes, base, i, count))
    decreases count - i
  {
    if i < count {
      RecordsDecoded(kind, bytes, base, i + 1, count);
      RecordStep(kind, bytes, base, i, count);
    }
  }

  /** The records of slots `i..count`, then `tail`. */
  function Upcoming<T>(kind: RecordKind<T>, bytes: seq<Byte>, base: nat, i: nat, count: nat, tail: Stream<T>): Stream<T>
    requires i <= count && (i < count ==> base + count * RECORD_SIZE <= |bytes|)
  {
    Stream(RecordsFrom(kind, bytes, base, i, count), None).Then(tail)
  }

  /** Padding is passed over; any other record is the next one. */
  lemma UpcomingStep<T>(kind: RecordKind<T>, bytes: seq<Byte>, base: nat, i: nat, count: nat, tail: Stream<T>)
    requires i < count && base + count * RECORD_SIZE <= |bytes|
    ensures var record := kind.fromBytes(SlotAt(bytes, base, i));
            var all, rest := Upcoming(kind, bytes, base, i, count, tail),
              Upcoming(kind, bytes, base, i + 1, count, tail);
            if kind.isPadding(record) then all == rest
            else all.Next() == Some(Ok(record)) && all.Rest() == rest
  {
    var record, later := kind.fromBytes(SlotAt(bytes, base, i)), RecordsFrom(kind, bytes, base, i + 1, count);
    RecordStep(kind, bytes, base, i, count);
    assert [record] + later + tail.items == [record] + (later + tail.items);
  }

  lemma NothingUpcoming<T>(kind: RecordKind<T>, bytes: seq<Byte>, base: nat, count: nat, tail: Stream<T>)
    ensures Upcoming(kind, bytes, base, count, count, tail) == tail
  {
    ThenAssoc(tail, tail, tail);
  }

  // ---------------------------------------------------------------------------
  // Paging: skip, take, collect
  // ---------------------------------------------------------------------------

  /** The stream after `n` calls of `next`. */
  function Advance<T>(s: Stream<T>, n: nat): Stream<T>
    decreases n
  {
    if n == 0 then s else Advance(s.Rest(), n - 1)
  }

  /** Collects at most `n` results, giving up at the first error. */
  function Collect<T>(s: Stream<T>, n: nat): Result<seq<T>, ReaderError>
    decreases n
  {
    if n == 0 then Ok([])
    else
      match s.Next()
      case None => Ok([])
      case Some(Err(e)) => Err(e)
      case Some(Ok(x)) =>
        var rest :- Collect(s.Rest(), n - 1);
        Ok([x] + rest)
  }

  /** `records` already collected, followed by the rest of a collection. */
  function Prefixed<T>(records: seq<T>, rest: Result<seq<T>, ReaderError>): Result<seq<T>, ReaderError> {
    match rest
    case Ok(xs) => Ok(records + xs)
    case Err(e) => Err(e)
  }

  lemma CollectStep<T>(records: seq<T>, s: Stream<T>, n: nat)
    ensures Prefixed([], Collect(s, n)) == Collect(s, n)
    ensures n == 0 ==> Prefixed(records, Collect(s, n)) == Ok(records)
    ensures n > 0 && s.Next().None? ==> Prefixed(records, Collect(s, n)) == Ok(records)
    ensures n > 0 && s.Next().Some? && s.Next().value.Err? ==>
            Prefixed(records, Collect(s, n)) == Err(s.Next().value.error)
    ensures n > 0 && s.Next().Some? && s.Next().value.Ok? ==>
              Prefixed(records, Collect(s, n)) == Prefixed(records + [s.Next().value.value], Collect(s.Rest(), n - 1))
  {
    var r := Collect(s, n);
    assert r.Ok? ==> [] + r.value == r.value;
    assert records + [] == records;
    if n > 0 && s.items != [] {
      var rest := Collect(s.Rest(), n - 1);
      assert rest.Ok? ==> records + ([s.items[0]] + rest.value) == records + [s.items[0]] + rest.value;
    }
  }

  function PageOf<T>(s: Stream<T>, page: nat, limit: nat): Result<seq<T>, ReaderError> {
    Collect(Advance(s, page * limit), limit)
  }

  function Min(a: nat, b: nat): nat {
    if a <= b then a else b
  }

  lemma {:induction false} AdvanceIs<T>(s: Stream<T>, n: nat)
    ensures Advance(s, n) == Stream(s.items[Min(n, |s.items|)..], if n <= |s.items| then s.failure else None)
    decreases n
  {
    if n > 0 {
      AdvanceIs(s.Rest(), n - 1);
      if s.items != [] {
        assert s.items[1..][Min(n - 1, |s.items| - 1)..] == s.items[Min(n, |s.items|)..];
      }
    }
  }

  lemma {:induction false} CollectIs<T>(s: Stream<T>, n: nat)
    ensures Collect(s, n) == if s.failure.Some? && |s.items| < n then Err(s.failure.value)
            else Ok(s.items[..Min(n, |s.items|)])
    decreases n
  {
    if n > 0 && s.items != [] {
      CollectIs(s.Rest(), n - 1);
      var m := Min(n, |s.items|);
      assert [s.items[0]] + s.items[1..][..m - 1] == s.items[..m];
    }
  }

  /** Records `lo..hi` of the stream, or its error if that falls between them. */
  function Slice<T>(s: Stream<T>, lo: nat, hi: nat): Result<seq<T>, ReaderError>
    requires lo <= hi
  {
    if s.failure.Some? && lo <= |s.items| < hi then Err(s.failure.value)
    else Ok(s.items[Min(lo, |s.items|)..Min(hi, |s.items|)])
  }

  lemma CollectAfterAdvance<T>(s: Stream<T>, lo: nat, limit: nat)
    ensures Collect(Advance(s, lo), limit) == Slice(s, lo, lo + limit)
  {
    AdvanceIs(s, lo);
    CollectIs(Advance(s, lo), limit);
    hide Advance, Collect;
    var n := |s.items|;
    assert s.items[Min(lo, n)..][..Min(limit, n - Min(lo, n))] == s.items[Min(lo, n)..Min(lo + limit, n)];
  }

  /**
    A page is a slice of the records. It is an error exactly when the iterator's error falls inside the
    page; on pages after that the error has been skipped and the page is empty.
   */
  lemma PageIs<T>(s: Stream<T>, page: nat, limit: nat)
    ensures PageOf(s, page, limit) == Slice(s, page * limit, page * limit + limit)
  {
    CollectAfterAdvance(s, page * limit, limit);
  }

  /** Pages `0..k`, one after the other. */
  function Pages<T>(s: Stream<T>, limit: nat, k: nat): seq<T>
    requires s.failure.None?
  {
    if k == 0 then []
    else
      PageIs(s, k - 1, limit);
      Pages(s, limit, k - 1) + PageOf(s, k - 1, limit).value
  }

  /** Without an error the pages tile the records, and enough of them give back all of them. */
  lemma {:induction false} PagesTile<T>(s: Stream<T>, limit: nat, k: nat)
    requires s.failure.None?
    ensures Pages(s, limit, k) == s.items[..Min(k * limit, |s.items|)]
    ensures k * limit >= |s.items| ==> Pages(s, limit, k) == s.items
  {
    if k > 0 {
      PagesTile(s, limit, k - 1);
      PageIs(s, k - 1, limit);
      assert k * limit == (k - 1) * limit + limit;
    }
  }
}
