/** Reading a whole data file: manifest, tables and write-ahead log, joined and merged. */
module DataFile {
  import opened Wrappers
  import opened Records
  import opened Sorting
  import opened Layout
  import opened Streams
  import Lsm = LsmIterator
  import Wal = WalIterator
  import opened Manifest
  import opened Merge

  // ---------------------------------------------------------------------------
  // Opening the iterators
  // ---------------------------------------------------------------------------

  /** The tables a record iterator must read, or why it cannot be opened. */
  function LiveTables(file: File, config: Config, info: SuperblockInfo, tree: nat): Result<set<nat>, ReaderError> {
    if info.manifestBlockCount == 0 then
      if info.sequence > 0 then Err(NotCheckpointed(info.sequence)) else Ok({})
    else
      var seen :- WalkResult(file, config, info, Some(tree));
      Ok(LiveIn(seen))
  }

  lemma {:induction false} LogNotCheckpointed(file: File, config: Config, address: nat, fuel: nat)
    ensures var log := Log(file, config, address, fuel);
            log.Err? ==> !log.error.NotCheckpointed?
    decreases fuel
  {
    if address != 0 && fuel > 0 {
      var m := ReadManifest(file, config, address);
      if m.Ok? {
        LogNotCheckpointed(file, config, m.value.previous, fuel - 1);
      }
    }
  }

  lemma WalkNotCheckpointed(file: File, config: Config, info: SuperblockInfo, tree: Option<nat>)
    ensures var r := WalkResult(file, config, info, tree);
            r.Err? ==> !r.error.NotCheckpointed?
  {
    LogNotCheckpointed(file, config, info.manifestNewestAddress, info.manifestBlockCount + 1);
  }

  /** Opens the checkpointed records; the tables come in whatever order the manifest's hash map iterates. */
  method OpenLsm<T>(kind: RecordKind<T>, tree: nat, file: File, config: Config, info: SuperblockInfo)
    returns (r: Result<Lsm.ObjectIter<T>, ReaderError>, ghost order: seq<nat>)
    ensures match LiveTables(file, config, info, tree)
            case Err(e) => r == Err(e)
            case Ok(live) =>
              && r.Ok? && fresh(r.value) && fresh(r.value.block) && r.value.Valid() && IsEnumeration(order, live)
              && r.value.Remaining() == Lsm.TablesStream(kind, file, config, order)
    ensures r == Err(NotCheckpointed(info.sequence)) <==> info.manifestBlockCount == 0 && info.sequence > 0
    ensures r.Ok? ==> forall a :: a in order <==> LiveTable(file, config, info, Some(tree), a)
  {
    hide Lsm.TablesStream, WalkResult;
    WalkNotCheckpointed(file, config, info, Some(tree));
    order := [];
    if info.manifestBlockCount == 0 {
      if info.sequence > 0 {
        return Err(NotCheckpointed(info.sequence)), order;
      }
      var empty := new Lsm.ObjectIter(kind, file, config, []);
      return Ok(empty), order;
    }
    var collected := CollectIndexBlocks(file, config, info, tree);
    if collected.Err? {
      return Err(collected.error), order;
    }
    order := collected.value;
    var iter := new Lsm.ObjectIter(kind, file, config, collected.value);
    return Ok(iter), order;
  }

  /** One page of checkpointed records; before the first checkpoint every page is empty. */
  method ReadLsmPage<T>(kind: RecordKind<T>, tree: nat, file: File, config: Config, info: SuperblockInfo, page: nat,
                        limit: nat)
    returns (r: Result<seq<T>, ReaderError>)
    ensures var live := LiveTables(file, config, info, tree);
            && (live.Ok? ==> exists order :: IsEnumeration(order, live.value)
                                             && r == PageOf(Lsm.TablesStream(kind, file, config, order), page, limit))
            && (live.Err? ==> r == if live.error.NotCheckpointed? then Ok([]) else Err(live.error))
  {
    hide Lsm.TablesStream, PageOf, LiveTables;
    var iter;
    ghost var order;
    iter, order := OpenLsm(kind, tree, file, config, info);
    match iter {
      case Err(NotCheckpointed(_)) => return Ok([]);
      case Err(e) => return Err(e);
      case Ok(records) =>
        r := Lsm.ReadPage(records, page, limit);
    }
  }

  /** One page of the records still in the log. */
  method ReadWalPage<T>(kind: RecordKind<T>, file: File, config: Config, info: SuperblockInfo, page: nat, limit: nat)
    returns (r: Result<seq<T>, ReaderError>)
    ensures r == PageOf(Wal.SlotsFrom(kind, file, config, info.checkpointOp, 0), page, limit)
  {
    hide PageOf;
    var iter := new Wal.WalObjectIter(kind, file, config, info.checkpointOp);
    r := Wal.ReadPage(iter, page, limit);
  }

  // ---------------------------------------------------------------------------
  // Collecting everything
  // ---------------------------------------------------------------------------

  /** All records of a stream, or its error. */
  function Everything<T>(s: Stream<T>): Result<seq<T>, ReaderError> {
    if s.failure.Some? then Err(s.failure.value) else Ok(s.items)
  }

  lemma EverythingStep<T>(records: seq<T>, s: Stream<T>)
    ensures s.Next().None? ==> Prefixed(records, Everything(s)) == Ok(records)
    ensures s.Next().Some? && s.Next().value.Err? ==> Prefixed(records, Everything(s)) == Err(s.Next().value.error)
    ensures s.Next().Some? && s.Next().value.Ok? ==>
              && Prefixed(records, Everything(s)) == Prefixed(records + [s.Next().value.value], Everything(s.Rest()))
              && |s.Rest().items| < |s.items|
    ensures Prefixed([], Everything(s)) == Everything(s)
  {
    if s.items != [] {
      assert records + s.items == records + [s.items[0]] + s.items[1..];
    }
    assert [] + s.items == s.items && records + [] == records;
  }

  method CollectLsm<T>(iter: Lsm.ObjectIter<T>) returns (r: Result<seq<T>, ReaderError>)
    requires iter.Valid()
    modifies iter, iter.block
    ensures r == Everything(old(iter.Remaining()))
  {
    hide *;
    var records: seq<T> := [];
    EverythingStep(records, iter.Remaining());
    while true
      invariant iter.Valid() && Prefixed(records, Everything(iter.Remaining())) == Everything(old(iter.Remaining()))
      decreases |iter.Remaining().items|
    {
      EverythingStep(records, iter.Remaining());
      var next := iter.Next();
      match next {
        case None => return Ok(records);
        case Some(Err(e)) => return Err(e);
        case Some(Ok(record)) => records := records + [record];
      }
    }
  }

  method CollectWal<T>(iter: Wal.WalObjectIter<T>) returns (r: Result<seq<T>, ReaderError>)
    requires iter.Valid()
    modifies iter
    ensures r == Everything(old(iter.Remaining()))
  {
    hide *;
    var records: seq<T> := [];
    EverythingStep(records, iter.Remaining());
    while true
      invariant iter.Valid() && Prefixed(records, Everything(iter.Remaining())) == Everything(old(iter.Remaining()))
      decreases |iter.Remaining().items|
    {
      EverythingStep(records, iter.Remaining());
      var next := iter.Next();
      match next {
        case None => return Ok(records);
        case Some(Err(e)) => return Err(e);
        case Some(Ok(record)) => records := records + [record];
      }
    }
  }

  /** Reading all live tables, in the order given, comes to `lsm`. */
  ghost predicate IsLsmRead<T>(kind: RecordKind<T>, tree: nat, file: File, config: Config, info: SuperblockInfo,
                               lsm: Result<seq<T>, ReaderError>, order: seq<nat>) {
    match LiveTables(file, config, info, tree)
    case Err(e) => lsm == Err(e)
    case Ok(live) => IsEnumeration(order, live) && lsm == Everything(Lsm.TablesStream(kind, file, config, order))
  }

  /** All checkpointed records and all records still in the log. */
  method ReadBoth<T>(kind: RecordKind<T>, tree: nat, file: File, config: Config, info: SuperblockInfo)
    returns (lsm: Result<seq<T>, ReaderError>, wal: Result<seq<T>, ReaderError>, ghost order: seq<nat>)
    ensures IsLsmRead(kind, tree, file, config, info, lsm, order)
    ensures wal == Everything(Wal.SlotsFrom(kind, file, config, info.checkpointOp, 0))
    ensures lsm.Ok? ==> AllDecoded(kind, lsm.value)
    ensures wal.Ok? ==> AllDecoded(kind, wal.value)
  {
    hide LiveTables, IsEnumeration, Lsm.TablesStream, Wal.SlotsFrom;
    var iter;
    iter, order := OpenLsm(kind, tree, file, config, info);
    match iter {
      case Err(e) => lsm := Err(e);
      case Ok(records) =>
        lsm := CollectLsm(records);
        Lsm.TablesDecoded(kind, file, config, order);
    }
    var walIter := new Wal.WalObjectIter(kind, file, config, info.checkpointOp);
    wal := CollectWal(walIter);
    Wal.SlotsDecoded(kind, file, config, info.checkpointOp, 0);
  }

  // ---------------------------------------------------------------------------
  // Does the order of the tables matter?
  // ---------------------------------------------------------------------------

  /** The records of the tables, one table after the other. */
  function Concat<T>(tables: map<nat, seq<T>>, order: seq<nat>): seq<T> {
    if order == [] then []
    else (if order[0] in tables then tables[order[0]] else []) + Concat(tables, order[1..])
  }

  lemma {:induction false} ConcatAppend<T>(tables: map<nat, seq<T>>, xs: seq<nat>, ys: seq<nat>)
    ensures Concat(tables, xs + ys) == Concat(tables, xs) + Concat(tables, ys)
  {
    if xs == [] {
      assert xs + ys == ys;
    } else {
      assert (xs + ys)[1..] == xs[1..] + ys;
      ConcatAppend(tables, xs[1..], ys);
    }
  }

  lemma {:induction false} ConcatContains<T>(tables: map<nat, seq<T>>, order: seq<nat>, t: nat, x: T)
    requires t in order && t in tables && x in tables[t]
    ensures x in Concat(tables, order)
  {
    if order[0] != t {
      ConcatContains(tables, order[1..], t, x);
    }
  }

  /** The record a table keeps for an id: its last one. */
  function Version<T>(idOf: T -> nat, records: seq<T>, id: nat): Option<T> {
    if id in LastById(idOf, records) then Some(LastById(idOf, records)[id]) else None
  }

  /** All tables that have the id have the same version of it. */
  ghost predicate AgreeOn<T>(idOf: T -> nat, tables: map<nat, seq<T>>, id: nat) {
    forall a, b | a in tables && b in tables :: !Disagree(idOf, tables[a], tables[b], id)
  }

  /** The log decides the id, or else the tables agree on it. */
  ghost predicate Decided<T>(idOf: T -> nat, tables: map<nat, seq<T>>, wal: seq<T>, id: nat) {
    HasId(idOf, wal, id) || AgreeOn(idOf, tables, id)
  }

  ghost predicate AllDecided<T>(idOf: T -> nat, tables: map<nat, seq<T>>, wal: seq<T>) {
    forall id: nat :: Decided(idOf, tables, wal, id)
  }

  /** What the merge keeps for an id. */
  ghost function Kept<T>(idOf: T -> nat, lsm: seq<T>, wal: seq<T>, id: nat): Option<T> {
    Version(idOf, if HasId(idOf, wal, id) then wal else lsm, id)
  }

  predicate Disagree<T(==)>(idOf: T -> nat, xs: seq<T>, ys: seq<T>, id: nat) {
    Version(idOf, xs, id).Some? && Version(idOf, ys, id).Some? && Version(idOf, xs, id) != Version(idOf, ys, id)
  }

  /** The merge keeps the same records for two orders of the tables. */
  ghost predicate SameCurrent<T(!new)>(idOf: T -> nat, tables: map<nat, seq<T>>, wal: seq<T>, p: seq<nat>,
                                       q: seq<nat>) {
    forall t :: Current(idOf, Concat(tables, p), wal, t) <==> Current(idOf, Concat(tables, q), wal, t)
  }

  /** Reading tables `order`, an id has the version of some table that has it. */
  lemma {:induction false} VersionOfConcat<T>(idOf: T -> nat, tables: map<nat, seq<T>>, order: seq<nat>, id: nat)
    ensures Version(idOf, Concat(tables, order), id).Some? ==>
              exists a :: a in order && a in tables
                && Version(idOf, Concat(tables, order), id) == Version(idOf, tables[a], id)
    ensures Version(idOf, Concat(tables, order), id).None? ==>
              forall a :: a in order && a in tables ==> Version(idOf, tables[a], id).None?
  {
    if order != [] {
      var first, rest := order[0], order[1..];
      VersionOfConcat(idOf, tables, rest, id);
      LastByIdAppend(idOf, if first in tables then tables[first] else [], Concat(tables, rest));
      assert forall a :: a in order <==> a == first || a in rest;
    }
  }

  /** A table listed last decides its ids. */
  lemma LastTableDecides<T>(idOf: T -> nat, tables: map<nat, seq<T>>, before: seq<nat>, a: nat, id: nat)
    requires a in tables && Version(idOf, tables[a], id).Some?
    ensures Version(idOf, Concat(tables, before + [a]), id) == Version(idOf, tables[a], id)
  {
    ConcatAppend(tables, before, [a]);
    assert Concat(tables, [a]) == tables[a] + [] == tables[a];
    LastByIdAppend(idOf, Concat(tables, before), tables[a]);
  }

  lemma CurrentIsKept<T>(idOf: T -> nat, lsm: seq<T>, wal: seq<T>, t: T)
    ensures Current(idOf, lsm, wal, t) <==> Kept(idOf, lsm, wal, idOf(t)) == Some(t)
  {
    IsLastIff(idOf, wal, t);
    IsLastIff(idOf, lsm, t);
  }

  lemma AgreeingTablesSameVersion<T>(idOf: T -> nat, tables: map<nat, seq<T>>, p: seq<nat>, q: seq<nat>, id: nat)
    requires AgreeOn(idOf, tables, id)
    requires IsEnumeration(p, tables.Keys) && IsEnumeration(q, tables.Keys)
    ensures Version(idOf, Concat(tables, p), id) == Version(idOf, Concat(tables, q), id)
  {
    VersionOfConcat(idOf, tables, p, id);
    VersionOfConcat(idOf, tables, q, id);
    if Version(idOf, Concat(tables, p), id).Some? && Version(idOf, Concat(tables, q), id).Some? {
      var a :| a in p && a in tables && Version(idOf, Concat(tables, p), id) == Version(idOf, tables[a], id);
      var b :| b in q && b in tables && Version(idOf, Concat(tables, q), id) == Version(idOf, tables[b], id);
      assert !Disagree(idOf, tables[a], tables[b], id);
    }
  }

  /** An order that lists table `a` last. */
  lemma OrderEndingIn(keys: set<nat>, a: nat) returns (before: seq<nat>)
    requires a in keys
    ensures IsEnumeration(before + [a], keys)
  {
    before := EnumerationExists(keys - {a});
  }

  lemma DisagreeingTablesShow<T>(idOf: T -> nat, tables: map<nat, seq<T>>, a: nat, b: nat, id: nat)
    returns (p: seq<nat>, q: seq<nat>)
    requires a in tables && b in tables && Disagree(idOf, tables[a], tables[b], id)
    ensures IsEnumeration(p, tables.Keys) && IsEnumeration(q, tables.Keys)
    ensures Version(idOf, Concat(tables, p), id) == Version(idOf, tables[a], id)
    ensures Version(idOf, Concat(tables, q), id) == Version(idOf, tables[b], id)
  {
    var beforeA := OrderEndingIn(tables.Keys, a);
    var beforeB := OrderEndingIn(tables.Keys, b);
    p, q := beforeA + [a], beforeB + [b];
    LastTableDecides(idOf, tables, beforeA, a, id);
    LastTableDecides(idOf, tables, beforeB, b, id);
  }

  /** Two orders of the tables. */
  ghost predicate TwoOrders<T>(tables: map<nat, seq<T>>, p: seq<nat>, q: seq<nat>) {
    IsEnumeration(p, tables.Keys) && IsEnumeration(q, tables.Keys)
  }

  /** What the merge keeps for one id is the same for every order of the tables exactly if the id is decided. */
  lemma IdOrderIrrelevantIff<T>(idOf: T -> nat, tables: map<nat, seq<T>>, wal: seq<T>, id: nat)
    ensures (forall p, q | TwoOrders(tables, p, q) ::
               Kept(idOf, Concat(tables, p), wal, id) == Kept(idOf, Concat(tables, q), wal, id))
            <==> Decided(idOf, tables, wal, id)
  {
    if Decided(idOf, tables, wal, id) {
      forall p, q | TwoOrders(tables, p, q)
        ensures Kept(idOf, Concat(tables, p), wal, id) == Kept(idOf, Concat(tables, q), wal, id)
      {
        if !HasId(idOf, wal, id) {
          AgreeingTablesSameVersion(idOf, tables, p, q, id);
        }
      }
    } else {
      var a, b :| a in tables && b in tables && Disagree(idOf, tables[a], tables[b], id);
      var p, q := DisagreeingTablesShow(idOf, tables, a, b, id);
      assert TwoOrders(tables, p, q);
    }
  }

  /**
    What a merged read keeps does not depend on the order in which the manifest's hash map lists the tables
    if and only if no two live tables hold different versions of an id that the log does not override.
    Accounts are merged only when the log holds accounts.
   */
  lemma OrderIrrelevantIff<T(!new)>(idOf: T -> nat, tables: map<nat, seq<T>>, wal: seq<T>)
    ensures (forall p, q | TwoOrders(tables, p, q) :: SameCurrent(idOf, tables, wal, p, q))
            <==> AllDecided(idOf, tables, wal)
  {
    if AllDecided(idOf, tables, wal) {
      forall p, q | TwoOrders(tables, p, q)
        ensures SameCurrent(idOf, tables, wal, p, q)
      {
        DecidedSameCurrent(idOf, tables, wal, p, q);
      }
    } else {
      var id: nat :| !Decided(idOf, tables, wal, id);
      IdOrderIrrelevantIff(idOf, tables, wal, id);
      var p, q :| TwoOrders(tables, p, q)
        && Kept(idOf, Concat(tables, p), wal, id) != Kept(idOf, Concat(tables, q), wal, id);
      DifferentKept(idOf, tables, wal, p, q, id);
    }
  }

  lemma DecidedSameCurrent<T(!new)>(idOf: T -> nat, tables: map<nat, seq<T>>, wal: seq<T>, p: seq<nat>, q: seq<nat>)
    requires AllDecided(idOf, tables, wal) && TwoOrders(tables, p, q)
    ensures SameCurrent(idOf, tables, wal, p, q)
  {
    hide Kept, Concat, Current, Decided;
    forall t
      ensures Current(idOf, Concat(tables, p), wal, t) <==> Current(idOf, Concat(tables, q), wal, t)
    {
      CurrentIsKept(idOf, Concat(tables, p), wal, t);
      CurrentIsKept(idOf, Concat(tables, q), wal, t);
      IdOrderIrrelevantIff(idOf, tables, wal, idOf(t));
    }
  }

  lemma DifferentKept<T(!new)>(idOf: T -> nat, tables: map<nat, seq<T>>, wal: seq<T>, p: seq<nat>, q: seq<nat>, id: nat)
    requires Kept(idOf, Concat(tables, p), wal, id) != Kept(idOf, Concat(tables, q), wal, id)
    ensures !SameCurrent(idOf, tables, wal, p, q)
  {
    var r, s := Kept(idOf, Concat(tables, p), wal, id), Kept(idOf, Concat(tables, q), wal, id);
    var t := if r.Some? then r.value else s.value;
    assert idOf(t) == id;
    CurrentIsKept(idOf, Concat(tables, p), wal, t);
    CurrentIsKept(idOf, Concat(tables, q), wal, t);
  }

  /**
    Two live tables with an old and a new version of account 7, and a log that holds account 8 only: which
    version is read depends on the order of the tables. With an empty log both versions are read.
   */
  lemma StaleVersionExample(r: seq<Account>)
    ensures var stale := Account(7, 0, 5, 0, 5, 0, 0, 0, 0, 1, 1, 0, 9);
            var latest := Account(7, 0, 8, 0, 8, 0, 0, 0, 0, 1, 1, 0, 9);
            var log := [Account(8, 0, 0, 0, 0, 0, 0, 0, 0, 1, 1, 0, 10)];
            var tables := map[1 := [stale], 2 := [latest]];
            && TwoOrders(tables, [1, 2], [2, 1])
            && (IsAccountList(r, Concat(tables, [1, 2]), log) ==> latest in r && stale !in r)
            && (IsAccountList(r, Concat(tables, [2, 1]), log) ==> stale in r && latest !in r)
            && (IsAccountList(r, Concat(tables, [1, 2]), []) ==> r == [stale, latest])
  {
    var a, b := Account(7, 0, 5, 0, 5, 0, 0, 0, 0, 1, 1, 0, 9), Account(7, 0, 8, 0, 8, 0, 0, 0, 0, 1, 1, 0, 9);
    var c := Account(8, 0, 0, 0, 0, 0, 0, 0, 0, 1, 1, 0, 10);
    var tables := map[1 := [a], 2 := [b]];
    LastOfTwo(tables, 1, 2, a, b, c);
    LastOfTwo(tables, 2, 1, b, a, c);
  }

  lemma LastOfTwo(tables: map<nat, seq<Account>>, p: nat, q: nat, a: Account, b: Account, c: Account)
    requires p in tables && q in tables && tables[p] == [a] && tables[q] == [b] && a.id == b.id != c.id
    ensures Concat(tables, [p, q]) == [a, b]
    ensures Current(AccountId, [a, b], [c], b) && (a != b ==> !Current(AccountId, [a, b], [c], a))
  {
    assert [p, q][1..] == [q] && [q][1..] == [];
    assert Concat(tables, [q]) == [b] + Concat(tables, []) == [b];
    assert Concat(tables, [p, q]) == [a] + Concat(tables, [q]) == [a, b];
    assert [a, b][..1] == [a] && [a][..0] == [];
    assert LastById(AccountId, [a, b]) == map[a.id := b];
    CurrentIsKept(AccountId, [a, b], [c], a);
    CurrentIsKept(AccountId, [a, b], [c], b);
  }

  // ---------------------------------------------------------------------------
  // From the bytes of a file to its current records
  // ---------------------------------------------------------------------------

  /** The records of each live table. */
  function Tables<T>(kind: RecordKind<T>, file: File, config: Config, live: set<nat>): map<nat, seq<T>> {
    map a <- live :: Lsm.TableStream(kind, file, config, a).items
  }

  predicate AllReadable<T>(kind: RecordKind<T>, file: File, config: Config, live: set<nat>) {
    forall a <- live :: Lsm.TableStream(kind, file, config, a).failure.None?
  }

  /** If every live table is readable, the iterator yields the tables whole, one after the other. */
  lemma {:induction false} TablesInOrder<T>(kind: RecordKind<T>, file: File, config: Config, live: set<nat>,
                                            order: seq<nat>)
    requires AllReadable(kind, file, config, live) && forall i :: 0 <= i < |order| ==> order[i] in live
    ensures Lsm.TablesStream(kind, file, config, order) == Stream(Concat(Tables(kind, file, config, live), order), None)
  {
    if order != [] {
      assert order[0] in live;
      TablesInOrder(kind, file, config, live, order[1..]);
    }
  }

  /** A file both of whose sources can be read to the end; before the first checkpoint that is the log alone. */
  ghost predicate Intact<T>(kind: RecordKind<T>, tree: nat, file: File, config: Config, info: SuperblockInfo) {
    && (match LiveTables(file, config, info, tree)
        case Ok(live) => AllReadable(kind, file, config, live)
        case Err(e) => e.NotCheckpointed?)
    && Wal.SlotsFrom(kind, file, config, info.checkpointOp, 0).failure.None?
  }

  /** The log's records, in slot order. */
  function Logged<T>(kind: RecordKind<T>, file: File, config: Config, info: SuperblockInfo): seq<T> {
    Wal.SlotsFrom(kind, file, config, info.checkpointOp, 0).items
  }

  /** The tables a merged read finds. */
  function Checkpointed<T>(kind: RecordKind<T>, tree: nat, file: File, config: Config, info: SuperblockInfo)
    : map<nat, seq<T>>
  {
    match LiveTables(file, config, info, tree)
    case Ok(live) => Tables(kind, file, config, live)
    case Err(_) => map[]
  }

  /** The log's last record with its id, or else the version that a live table has of it. */
  ghost predicate Meant<T>(idOf: T -> nat, tables: map<nat, seq<T>>, wal: seq<T>, t: T) {
    if HasId(idOf, wal, idOf(t)) then IsLast(idOf, wal, t)
    else exists a :: a in tables && Version(idOf, tables[a], idOf(t)) == Some(t)
  }

  /** Whatever the order, a current record is a meant one; and for a decided id the other way round. */
  lemma CurrentIsMeant<T>(idOf: T -> nat, tables: map<nat, seq<T>>, wal: seq<T>, order: seq<nat>, t: T)
    requires IsEnumeration(order, tables.Keys)
    ensures Current(idOf, Concat(tables, order), wal, t) ==> Meant(idOf, tables, wal, t)
    ensures Decided(idOf, tables, wal, idOf(t)) ==>
              (Current(idOf, Concat(tables, order), wal, t) <==> Meant(idOf, tables, wal, t))
  {
    var id := idOf(t);
    CurrentIsKept(idOf, Concat(tables, order), wal, t);
    VersionOfConcat(idOf, tables, order, id);
    IsLastIff(idOf, wal, t);
    if !HasId(idOf, wal, id) && Decided(idOf, tables, wal, id) {
      if a :| a in tables && Version(idOf, tables[a], id) == Some(t) {
        assert a in order;
        var version := Version(idOf, Concat(tables, order), id);
        var b :| b in order && b in tables && version == Version(idOf, tables[b], id);
        assert !Disagree(idOf, tables[a], tables[b], id);
      }
    }
  }

  /** Reading both sources to the end fails with `e`: the error of the manifest, of a live table, or of the log. */
  ghost predicate FailsWith<T>(kind: RecordKind<T>, tree: nat, file: File, config: Config, info: SuperblockInfo,
                               e: ReaderError) {
    match LiveTables(file, config, info, tree)
    case Err(x) =>
      if x.NotCheckpointed? then Wal.SlotsFrom(kind, file, config, info.checkpointOp, 0).failure == Some(e) else e == x
    case Ok(live) =>
      if AllReadable(kind, file, config, live)
      then Wal.SlotsFrom(kind, file, config, info.checkpointOp, 0).failure == Some(e)
      else exists a :: a in live && Lsm.TableStream(kind, file, config, a).failure == Some(e)
  }

  /** The iterator over the tables fails exactly if one of them does, and then with that table's error. */
  lemma {:induction false} TablesFail<T>(kind: RecordKind<T>, file: File, config: Config, order: seq<nat>)
    ensures Lsm.TablesStream(kind, file, config, order).failure.Some? <==>
            exists i :: 0 <= i < |order| && Lsm.TableStream(kind, file, config, order[i]).failure.Some?
    ensures Lsm.TablesStream(kind, file, config, order).failure.Some? ==>
              exists i :: 0 <= i < |order| && (Lsm.TableStream(kind, file, config, order[i]).failure
                                               == Lsm.TablesStream(kind, file, config, order).failure)
    ensures Lsm.TablesStream(kind, file, config, order).failure.Some? ==>
              !Lsm.TablesStream(kind, file, config, order).failure.value.NotCheckpointed?
  {
    hide Lsm.TableStream;
    if order != [] {
      var rest := order[1..];
      Lsm.TableFailure(kind, file, config, order[0]);
      TablesFail(kind, file, config, rest);
      assert forall i :: 0 <= i < |rest| ==> rest[i] == order[i + 1];
      assert forall i :: 0 < i < |order| ==> order[i] == rest[i - 1];
    }
  }

  /**
    Reading both sources succeeds exactly on an intact file, and otherwise fails with the error of one of
    them; on an intact file the merge is given the tables whole, in the order they were read.
   */
  lemma BothRead<T>(kind: RecordKind<T>, tree: nat, file: File, config: Config, info: SuperblockInfo,
                    lsm: Result<seq<T>, ReaderError>, wal: Result<seq<T>, ReaderError>, order: seq<nat>)
    returns (read: seq<nat>)
    requires IsLsmRead(kind, tree, file, config, info, lsm, order)
    requires wal == Everything(Wal.SlotsFrom(kind, file, config, info.checkpointOp, 0))
    ensures var lsmOk := lsm.Ok? || lsm.error.NotCheckpointed?;
            && (Intact(kind, tree, file, config, info) <==> lsmOk && wal.Ok?)
            && (!lsmOk ==> FailsWith(kind, tree, file, config, info, lsm.error))
            && (lsmOk && wal.Err? ==> FailsWith(kind, tree, file, config, info, wal.error))
    ensures Intact(kind, tree, file, config, info) ==>
              && IsEnumeration(read, Checkpointed(kind, tree, file, config, info).Keys)
              && (if lsm.Ok? then lsm.value else []) == Concat(Checkpointed(kind, tree, file, config, info), read)
  {
    hide Lsm.TablesStream, Lsm.TableStream, Wal.SlotsFrom, LiveTables;
    read := [];
    match LiveTables(file, config, info, tree) {
      case Ok(live) =>
        TablesFail(kind, file, config, order);
        if AllReadable(kind, file, config, live) {
          TablesInOrder(kind, file, config, live, order);
          assert Tables(kind, file, config, live).Keys == live;
          read := order;
        } else {
          var a :| a in live && Lsm.TableStream(kind, file, config, a).failure.Some?;
          assert a in order;
        }
      case Err(_) =>
    }
  }

  /**
    A windowed read: sorted by timestamp, each id once, only meant transfers since the cutoff, and every
    one of them whose id is decided.
   */
  ghost predicate IsMeantWindow(r: seq<Transfer>, tables: map<nat, seq<Transfer>>, wal: seq<Transfer>, cutoffTs: nat) {
    && SortedBy(TransferTimestamp, r)
    && DistinctBy(TransferId, r)
    && (forall t :: t in r ==> Meant(TransferId, tables, wal, t) && t.timestamp >= cutoffTs)
    && (forall t | Meant(TransferId, tables, wal, t) && t.timestamp >= cutoffTs ::
          Decided(TransferId, tables, wal, t.id) ==> t in r)
  }

  /** If all ids are decided and meant transfers have different timestamps, there is only one such window. */
  lemma MeantWindowUnique(r: seq<Transfer>, q: seq<Transfer>, tables: map<nat, seq<Transfer>>, wal: seq<Transfer>,
                          cutoffTs: nat)
    requires IsMeantWindow(r, tables, wal, cutoffTs) && IsMeantWindow(q, tables, wal, cutoffTs)
    requires AllDecided(TransferId, tables, wal)
    requires forall t, u | Meant(TransferId, tables, wal, t) && Meant(TransferId, tables, wal, u) ::
               t.timestamp == u.timestamp ==> t == u
    ensures r == q
  {
    hide Meant, Decided;
    MeantWindowStrict(r, tables, wal, cutoffTs);
    MeantWindowStrict(q, tables, wal, cutoffTs);
    StrictlySortedUnique(TransferTimestamp, r, q);
  }

  lemma MeantWindowStrict(r: seq<Transfer>, tables: map<nat, seq<Transfer>>, wal: seq<Transfer>, cutoffTs: nat)
    requires IsMeantWindow(r, tables, wal, cutoffTs)
    requires forall t, u | Meant(TransferId, tables, wal, t) && Meant(TransferId, tables, wal, u) ::
               t.timestamp == u.timestamp ==> t == u
    ensures StrictlySortedBy(TransferTimestamp, r)
  {
    hide Meant, Decided;
    forall i, j | 0 <= i < j < |r|
      ensures TransferTimestamp(r[i]) < TransferTimestamp(r[j])
    {
      assert r[i] in r && r[j] in r;
      assert r[i].id != r[j].id;
    }
  }

  lemma WindowIsMeant(r: seq<Transfer>, tables: map<nat, seq<Transfer>>, wal: seq<Transfer>, order: seq<nat>,
                      cutoffTs: nat)
    requires IsEnumeration(order, tables.Keys) && IsWindow(r, Concat(tables, order), wal, cutoffTs)
    ensures IsMeantWindow(r, tables, wal, cutoffTs)
  {
    hide Meant, Decided, Current;
    forall t: Transfer
      ensures t in r ==> Meant(TransferId, tables, wal, t)
      ensures Meant(TransferId, tables, wal, t) && t.timestamp >= cutoffTs && Decided(TransferId, tables, wal, t.id) ==>
              t in r
    {
      CurrentIsMeant(TransferId, tables, wal, order, t);
    }
  }

  /**
    What a windowed read of the file's transfers promises. It succeeds exactly on an intact file and passes
    the error on otherwise. The result is the window for some order of the tables, and so holds meant
    transfers only and every one of them whose id is decided.
   */
  ghost predicate TransfersRead(file: File, config: Config, info: SuperblockInfo, cutoffTs: nat,
                                r: Result<seq<Transfer>, ReaderError>) {
    var tables := Checkpointed(TRANSFERS, TRANSFER_OBJECTS_TREE_ID, file, config, info);
    var wal := Logged(TRANSFERS, file, config, info);
    && (r.Ok? <==> Intact(TRANSFERS, TRANSFER_OBJECTS_TREE_ID, file, config, info))
    && (r.Err? ==> FailsWith(TRANSFERS, TRANSFER_OBJECTS_TREE_ID, file, config, info, r.error))
    && (r.Ok? ==>
          exists read :: IsEnumeration(read, tables.Keys) && IsWindow(r.value, Concat(tables, read), wal, cutoffTs))
    && (r.Ok? ==> IsMeantWindow(r.value, tables, wal, cutoffTs))
  }

  method ReadTransfersSince(file: File, config: Config, info: SuperblockInfo, cutoffTs: nat)
    returns (r: Result<seq<Transfer>, ReaderError>)
    ensures TransfersRead(file, config, info, cutoffTs, r)
  {
    var lsm, wal;
    ghost var order;
    lsm, wal, order := ReadBoth(TRANSFERS, TRANSFER_OBJECTS_TREE_ID, file, config, info);
    r := ReadAllTransfersSince(lsm, wal, cutoffTs);
    ghost var read := BothRead(TRANSFERS, TRANSFER_OBJECTS_TREE_ID, file, config, info, lsm, wal, order);
    hide Intact, FailsWith;
    if Intact(TRANSFERS, TRANSFER_OBJECTS_TREE_ID, file, config, info) {
      ghost var tables := Checkpointed(TRANSFERS, TRANSFER_OBJECTS_TREE_ID, file, config, info);
      WindowIsMeant(r.value, tables, Logged(TRANSFERS, file, config, info), read, cutoffTs);
    }
  }

  /** A list of accounts against the file: no account that is not meant, and every meant one that is certain. */
  ghost predicate IsMeantList(r: seq<Account>, tables: map<nat, seq<Account>>, wal: seq<Account>) {
    && (forall a :: a in r && wal != [] ==> Meant(AccountId, tables, wal, a))
    && (forall a :: Certain(tables, wal, a) ==> a in r)
  }

  /**
    The version of the account is certain: it is meant, and its id is decided unless the log is empty, in
    which case nothing is merged and every version is read.
   */
  ghost predicate Certain(tables: map<nat, seq<Account>>, wal: seq<Account>, a: Account) {
    Meant(AccountId, tables, wal, a) && (wal == [] || Decided(AccountId, tables, wal, a.id))
  }

  lemma AccountsAreMeant(r: seq<Account>, tables: map<nat, seq<Account>>, wal: seq<Account>, order: seq<nat>)
    requires IsEnumeration(order, tables.Keys) && IsAccountList(r, Concat(tables, order), wal)
    ensures IsMeantList(r, tables, wal)
  {
    forall a: Account
      ensures a in r && wal != [] ==> Meant(AccountId, tables, wal, a)
      ensures Certain(tables, wal, a) ==> a in r
    {
      CurrentIsMeant(AccountId, tables, wal, order, a);
      if wal == [] && Meant(AccountId, tables, wal, a) {
        var t :| t in tables && Version(AccountId, tables[t], a.id) == Some(a);
        assert t in order && a in tables[t];
        ConcatContains(tables, order, t, a);
      }
    }
  }

  /**
    What a read of the file's accounts promises. It succeeds exactly on an intact file and passes the error
    on otherwise. The result is the account list for some order of the tables, and so holds every certain
    account and, if the log holds accounts, meant ones only, each id once.
   */
  ghost predicate AccountsRead(file: File, config: Config, info: SuperblockInfo, r: Result<seq<Account>, ReaderError>) {
    var tables := Checkpointed(ACCOUNTS, ACCOUNT_OBJECTS_TREE_ID, file, config, info);
    var wal := Logged(ACCOUNTS, file, config, info);
    && (r.Ok? <==> Intact(ACCOUNTS, ACCOUNT_OBJECTS_TREE_ID, file, config, info))
    && (r.Err? ==> FailsWith(ACCOUNTS, ACCOUNT_OBJECTS_TREE_ID, file, config, info, r.error))
    && (r.Ok? ==> AllDecoded(ACCOUNTS, r.value))
    && (r.Ok? ==> exists read :: IsEnumeration(read, tables.Keys) && IsAccountList(r.value, Concat(tables, read), wal))
    && (r.Ok? ==> IsMeantList(r.value, tables, wal))
  }

  method ReadAccounts(file: File, config: Config, info: SuperblockInfo) returns (r: Result<seq<Account>, ReaderError>)
    ensures AccountsRead(file, config, info, r)
  {
    var lsm, wal;
    ghost var order;
    lsm, wal, order := ReadBoth(ACCOUNTS, ACCOUNT_OBJECTS_TREE_ID, file, config, info);
    r := ReadAllAccounts(lsm, wal);
    ghost var read := BothRead(ACCOUNTS, ACCOUNT_OBJECTS_TREE_ID, file, config, info, lsm, wal, order);
    hide Intact, FailsWith, IsMeantList;
    if Intact(ACCOUNTS, ACCOUNT_OBJECTS_TREE_ID, file, config, info) {
      MergeDecoded(if lsm.Ok? then lsm.value else [], wal.value, r.value);
      ghost var tables := Checkpointed(ACCOUNTS, ACCOUNT_OBJECTS_TREE_ID, file, config, info);
      AccountsAreMeant(r.value, tables, Logged(ACCOUNTS, file, config, info), read);
    }
  }

  lemma MergeDecoded(lsm: seq<Account>, wal: seq<Account>, r: seq<Account>)
    requires AllDecoded(ACCOUNTS, lsm) && AllDecoded(ACCOUNTS, wal)
    requires r == lsm || forall a :: a in r ==> Current(AccountId, lsm, wal, a)
    ensures AllDecoded(ACCOUNTS, r)
  {
    hide Decoded;
    if r != lsm {
      forall i | 0 <= i < |r|
        ensures Decoded(ACCOUNTS, r[i])
      {
        assert r[i] in r && Current(AccountId, lsm, wal, r[i]);
      }
    }
  }
}
