/** Merging the checkpointed records of a data file with those still in its write-ahead log. */
module Merge {
  import opened Wrappers
  import opened Records
  import opened Sorting
  import opened Layout

  // ---------------------------------------------------------------------------
  // Last one with an id wins
  // ---------------------------------------------------------------------------

  /** The map left by inserting the records in order: the last one with an id wins. */
  function LastById<T>(idOf: T -> nat, ts: seq<T>): (m: map<nat, T>)
    ensures forall id <- m :: idOf(m[id]) == id && m[id] in ts
  {
    if ts == [] then map[] else LastById(idOf, ts[..|ts| - 1])[idOf(ts[|ts| - 1]) := ts[|ts| - 1]]
  }

  lemma {:induction false} LastByIdAppend<T>(idOf: T -> nat, xs: seq<T>, ys: seq<T>)
    ensures LastById(idOf, xs + ys) == LastById(idOf, xs) + LastById(idOf, ys)
  {
    if ys == [] {
      assert xs + ys == xs;
    } else {
      assert (xs + ys)[..|xs + ys| - 1] == xs + ys[..|ys| - 1];
      LastByIdAppend(idOf, xs, ys[..|ys| - 1]);
    }
  }

  /** The entry for an id is the last record with that id. */
  lemma {:induction false} LastByIdIsLast<T>(idOf: T -> nat, ts: seq<T>, k: nat)
    requires k < |ts| && forall j :: k < j < |ts| ==> idOf(ts[j]) != idOf(ts[k])
    ensures idOf(ts[k]) in LastById(idOf, ts) && LastById(idOf, ts)[idOf(ts[k])] == ts[k]
  {
    if k < |ts| - 1 {
      LastByIdIsLast(idOf, ts[..|ts| - 1], k);
    }
  }

  ghost predicate HasId<T>(idOf: T -> nat, ts: seq<T>, id: nat) {
    exists k :: 0 <= k < |ts| && idOf(ts[k]) == id
  }

  lemma {:induction false} LastByIdKeys<T>(idOf: T -> nat, ts: seq<T>, id: nat)
    ensures id in LastById(idOf, ts) <==> HasId(idOf, ts, id)
  {
    if ts != [] {
      var init := ts[..|ts| - 1];
      LastByIdKeys(idOf, init, id);
      if k :| 0 <= k < |init| && idOf(init[k]) == id {
        assert idOf(ts[k]) == id;
      }
    }
  }

  /** `t` is the record the merge keeps for its id: the last one in the log, or else the last checkpointed one. */
  ghost predicate Current<T>(idOf: T -> nat, lsm: seq<T>, wal: seq<T>, t: T) {
    if HasId(idOf, wal, idOf(t)) then IsLast(idOf, wal, t) else IsLast(idOf, lsm, t)
  }

  ghost predicate IsLast<T>(idOf: T -> nat, ts: seq<T>, t: T) {
    exists k :: IsLastAt(idOf, ts, t, k)
  }

  ghost predicate IsLastAt<T>(idOf: T -> nat, ts: seq<T>, t: T, k: nat) {
    k < |ts| && ts[k] == t && forall j :: k < j < |ts| ==> idOf(ts[j]) != idOf(t)
  }

  lemma {:induction false} FindLast<T>(idOf: T -> nat, ts: seq<T>, t: T) returns (k: nat)
    requires idOf(t) in LastById(idOf, ts) && LastById(idOf, ts)[idOf(t)] == t
    ensures IsLastAt(idOf, ts, t, k)
  {
    k := |ts| - 1;
    if idOf(ts[k]) != idOf(t) {
      k := FindLast(idOf, ts[..|ts| - 1], t);
    }
  }

  lemma IsLastIff<T>(idOf: T -> nat, ts: seq<T>, t: T)
    ensures IsLast(idOf, ts, t) <==> idOf(t) in LastById(idOf, ts) && LastById(idOf, ts)[idOf(t)] == t
  {
    if k: nat :| IsLastAt(idOf, ts, t, k) {
      LastByIdIsLast(idOf, ts, k);
    }
    if idOf(t) in LastById(idOf, ts) && LastById(idOf, ts)[idOf(t)] == t {
      var k := FindLast(idOf, ts, t);
    }
  }

  /** The merged map holds exactly the current records. */
  lemma MergedIffCurrent<T>(idOf: T -> nat, lsm: seq<T>, wal: seq<T>, t: T)
    ensures var m := LastById(idOf, lsm + wal);
            idOf(t) in m && m[idOf(t)] == t <==> Current(idOf, lsm, wal, t)
  {
    LastByIdAppend(idOf, lsm, wal);
    LastByIdKeys(idOf, wal, idOf(t));
    IsLastIff(idOf, lsm, t);
    IsLastIff(idOf, wal, t);
  }

  method InsertAll<T>(idOf: T -> nat, m: map<nat, T>, ts: seq<T>, ghost before: seq<T>) returns (r: map<nat, T>)
    requires m == LastById(idOf, before)
    ensures r == LastById(idOf, before + ts)
  {
    r := m;
    assert before + ts[..0] == before;
    for i := 0 to |ts|
      invariant r == LastById(idOf, before + ts[..i])
    {
      LastByIdSnoc(idOf, before, ts, i);
      r := r[idOf(ts[i]) := ts[i]];
    }
    assert ts[..|ts|] == ts;
  }

  lemma LastByIdSnoc<T>(idOf: T -> nat, before: seq<T>, ts: seq<T>, i: nat)
    requires i < |ts|
    ensures LastById(idOf, before + ts[..i + 1]) == LastById(idOf, before + ts[..i])[idOf(ts[i]) := ts[i]]
  {
    var all := before + ts[..i + 1];
    assert all[..|all| - 1] == before + ts[..i];
  }

  // ---------------------------------------------------------------------------
  // Accounts
  // ---------------------------------------------------------------------------

  /** With an empty log, the checkpointed accounts as they stand; otherwise every current account once, in any order. */
  ghost predicate IsAccountList(r: seq<Account>, checkpointed: seq<Account>, wal: seq<Account>) {
    && (wal == [] ==> r == checkpointed)
    && (wal != [] ==> DistinctBy(AccountId, r) && forall a :: a in r <==> Current(AccountId, checkpointed, wal, a))
  }

  /**
    The accounts of a data file. An empty log returns the checkpointed accounts untouched; otherwise
    every current account is returned once, in whatever order the hash map iterates.
   */
  method ReadAllAccounts(lsm: Result<seq<Account>, ReaderError>, wal: Result<seq<Account>, ReaderError>)
    returns (r: Result<seq<Account>, ReaderError>)
    ensures lsm.Err? && !lsm.error.NotCheckpointed? ==> r == Err(lsm.error)
    ensures (lsm.Ok? || lsm.error.NotCheckpointed?) && wal.Err? ==> r == Err(wal.error)
    ensures (lsm.Ok? || lsm.error.NotCheckpointed?) && wal.Ok? ==>
              r.Ok? && IsAccountList(r.value, if lsm.Ok? then lsm.value else [], wal.value)
  {
    if lsm.Err? && !lsm.error.NotCheckpointed? {
      return Err(lsm.error);
    }
    var checkpointed := if lsm.Ok? then lsm.value else [];
    if wal.Err? {
      return Err(wal.error);
    }
    if wal.value == [] {
      return Ok(checkpointed);
    }
    hide Current;
    assert [] + checkpointed == checkpointed;
    var byId := InsertAll(AccountId, map[], checkpointed, []);
    byId := InsertAll(AccountId, byId, wal.value, checkpointed);
    var accounts := ValuesOf(byId);
    forall a: Account
      ensures (a.id in byId && byId[a.id] == a) <==> Current(AccountId, checkpointed, wal.value, a)
    {
      MergedIffCurrent(AccountId, checkpointed, wal.value, a);
    }
    return Ok(accounts);
  }

  /** The values of the map, in whatever order it iterates. */
  method ValuesOf(byId: map<nat, Account>) returns (accounts: seq<Account>)
    requires forall id <- byId :: byId[id].id == id
    ensures DistinctBy(AccountId, accounts)
    ensures forall a :: a in accounts <==> a.id in byId && byId[a.id] == a
  {
    var order := Enumerate(byId.Keys);
    accounts := [];
    for i := 0 to |order|
      invariant |accounts| == i && forall k :: 0 <= k < i ==> accounts[k] == byId[order[k]]
    {
      assert order[i] in byId.Keys;
      accounts := accounts + [byId[order[i]]];
    }
    forall a: Account | a.id in byId && byId[a.id] == a
      ensures a in accounts
    {
      assert a.id in order;
    }
  }

  // ---------------------------------------------------------------------------
  // Transfers
  // ---------------------------------------------------------------------------

  /** What a windowed read must return: every current record since the cutoff, once, in timestamp order. */
  ghost predicate IsWindow(r: seq<Transfer>, lsm: seq<Transfer>, wal: seq<Transfer>, cutoffTs: nat) {
    && SortedBy(TransferTimestamp, r)
    && DistinctBy(TransferId, r)
    && forall t :: t in r <==> Current(TransferId, lsm, wal, t) && t.timestamp >= cutoffTs
  }

  /** If current timestamps differ, the window is unique: the hash map's order cannot show. */
  lemma WindowUnique(r: seq<Transfer>, q: seq<Transfer>, lsm: seq<Transfer>, wal: seq<Transfer>, cutoffTs: nat)
    requires IsWindow(r, lsm, wal, cutoffTs) && IsWindow(q, lsm, wal, cutoffTs)
    requires forall t, u | Current(TransferId, lsm, wal, t) && Current(TransferId, lsm, wal, u) ::
               t.timestamp == u.timestamp ==> t == u
    ensures r == q
  {
    WindowStrict(r, lsm, wal, cutoffTs);
    WindowStrict(q, lsm, wal, cutoffTs);
    StrictlySortedUnique(TransferTimestamp, r, q);
  }

  lemma WindowStrict(r: seq<Transfer>, lsm: seq<Transfer>, wal: seq<Transfer>, cutoffTs: nat)
    requires IsWindow(r, lsm, wal, cutoffTs)
    requires forall t, u | Current(TransferId, lsm, wal, t) && Current(TransferId, lsm, wal, u) ::
               t.timestamp == u.timestamp ==> t == u
    ensures StrictlySortedBy(TransferTimestamp, r)
  {
    forall i, j | 0 <= i < j < |r|
      ensures TransferTimestamp(r[i]) < TransferTimestamp(r[j])
    {
      assert r[i] in r && r[j] in r;
      assert r[i].id != r[j].id;
    }
  }

  /** Log records override checkpointed ones with the same id; before the first checkpoint there are none of those. */
  method ReadAllTransfersSince(lsm: Result<seq<Transfer>, ReaderError>, wal: Result<seq<Transfer>, ReaderError>,
                               cutoffTs: nat)
    returns (r: Result<seq<Transfer>, ReaderError>)
    ensures lsm.Err? && !lsm.error.NotCheckpointed? ==> r == Err(lsm.error)
    ensures (lsm.Ok? || lsm.error.NotCheckpointed?) && wal.Err? ==> r == Err(wal.error)
    ensures (lsm.Ok? || lsm.error.NotCheckpointed?) && wal.Ok? ==>
              r.Ok? && IsWindow(r.value, if lsm.Ok? then lsm.value else [], wal.value, cutoffTs)
  {
    if lsm.Err? && !lsm.error.NotCheckpointed? {
      return Err(lsm.error);
    }
    var checkpointed := if lsm.Ok? then lsm.value else [];
    if wal.Err? {
      return Err(wal.error);
    }
    assert [] + checkpointed == checkpointed;
    var byId := InsertAll(TransferId, map[], checkpointed, []);
    byId := InsertAll(TransferId, byId, wal.value, checkpointed);
    var window := WindowOf(byId, cutoffTs);
    forall t: Transfer
      ensures (t.id in byId && byId[t.id] == t) <==> Current(TransferId, checkpointed, wal.value, t)
    {
      MergedIffCurrent(TransferId, checkpointed, wal.value, t);
    }
    return Ok(window);
  }

  /** The values since the cutoff, from whatever order the hash map iterates, sorted by timestamp. */
  method WindowOf(byId: map<nat, Transfer>, cutoffTs: nat) returns (window: seq<Transfer>)
    requires forall id <- byId :: byId[id].id == id
    ensures SortedBy(TransferTimestamp, window)
    ensures DistinctBy(TransferId, window)
    ensures forall t :: t in window <==> t.id in byId && byId[t.id] == t && t.timestamp >= cutoffTs
  {
    var order := Enumerate(byId.Keys);
    var kept: seq<Transfer> := [];
    for i := 0 to |order|
      invariant forall t <- kept :: t.id in order[..i] && t.id in byId && byId[t.id] == t && t.timestamp >= cutoffTs
      invariant forall k :: 0 <= k < i && byId[order[k]].timestamp >= cutoffTs ==> byId[order[k]] in kept
      invariant DistinctBy(TransferId, kept)
    {
      var t := byId[order[i]];
      assert order[i] !in order[..i];
      if t.timestamp >= cutoffTs {
        assert forall p :: 0 <= p < |kept| ==> kept[p] in kept;
        kept := kept + [t];
      }
    }
    forall t: Transfer | t.id in byId && byId[t.id] == t && t.timestamp >= cutoffTs
      ensures t in kept
    {
      assert t.id in order;
    }
    SortByKeyIsStableSort(TransferTimestamp, kept);
    SortKeepsElements(TransferTimestamp, kept);
    window := SortByKey(TransferTimestamp, kept);
    DistinctByPermutation(TransferId, kept, window);
  }
}
