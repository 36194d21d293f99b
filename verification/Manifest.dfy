/** The manifest log: walking the chain newest first, and which tables it leaves live. */
module Manifest {
  import opened Wrappers
  import opened Records
  import opened Sorting
  import opened Layout

  const ACCOUNT_OBJECTS_TREE_ID: nat := 7
  const TRANSFER_OBJECTS_TREE_ID: nat := 18
  const TREE_COUNT: nat := 0x1_0000
  const TABLE_INFO_SIZE: nat := 128
  const META_OFF_PREV_ADDRESS: nat := OFF_METADATA + 32
  const META_OFF_ENTRY_COUNT: nat := OFF_METADATA + 40

  /** What the reader needs from the superblock. */
  datatype SuperblockInfo = SuperblockInfo(
    sequence: nat, manifestNewestAddress: nat, manifestBlockCount: nat, checkpointOp: nat)

  // ---------------------------------------------------------------------------
  // One manifest block
  // ---------------------------------------------------------------------------

  datatype ManifestBlock = ManifestBlock(previous: nat, entries: seq<TableInfo>)

  function EntryAt(block: seq<Byte>, i: nat): Option<TableInfo>
    requires HEADER_SIZE + (i + 1) * TABLE_INFO_SIZE <= |block|
  {
    TableInfoFromBytes(block[HEADER_SIZE + i * TABLE_INFO_SIZE..HEADER_SIZE + (i + 1) * TABLE_INFO_SIZE])
  }

  /** The first `n` entries; entries with the reserved event are skipped. */
  function Entries(block: seq<Byte>, n: nat): seq<TableInfo>
    requires HEADER_SIZE + n * TABLE_INFO_SIZE <= |block|
  {
    if n == 0 then []
    else
      var e := EntryAt(block, n - 1);
      Entries(block, n - 1) + (if e.Some? then [e.value] else [])
  }

  function ReadManifest(file: File, config: Config, address: nat): Result<ManifestBlock, ReaderError> {
    var block :- ReadBlock(file, config, address, BLOCK_TYPE_MANIFEST);
    var entryCount := ReadU32(block, META_OFF_ENTRY_COUNT);
    if entryCount > (config.blockSize - HEADER_SIZE) / TABLE_INFO_SIZE then Err(InvalidBlock)
    else Ok(ManifestBlock(ReadU64(block, META_OFF_PREV_ADDRESS), Entries(block, entryCount)))
  }

  /** A manifest block is accepted if and only if its entries lie inside it. */
  lemma ManifestOkIff(file: File, config: Config, address: nat)
    ensures ReadManifest(file, config, address).Ok? <==>
            var block := ReadBlock(file, config, address, 3);
            block.Ok? && 256 + 128 * ReadU32(block.value, 168) <= config.blockSize
  {
  }

  // ---------------------------------------------------------------------------
  // The chain
  // ---------------------------------------------------------------------------

  /** The entries of the chain from `address`, newest block first, giving up after `fuel` blocks. */
  function Log(file: File, config: Config, address: nat, fuel: nat): Result<seq<seq<TableInfo>>, ReaderError>
    decreases fuel
  {
    if address == 0 then Ok([])
    else if fuel == 0 then Err(InvalidBlock)
    else
      var m :- ReadManifest(file, config, address);
      var older :- Log(file, config, m.previous, fuel - 1);
      Ok([m.entries] + older)
  }

  /** Address 0 is reached after exactly `k` valid manifest blocks. */
  predicate ReachesEnd(file: File, config: Config, address: nat, k: nat)
    decreases k
  {
    if address == 0 || k == 0 then address == 0 && k == 0
    else
      var m := ReadManifest(file, config, address);
      m.Ok? && ReachesEnd(file, config, m.value.previous, k - 1)
  }

  lemma {:induction false} ReadLogEnds(file: File, config: Config, address: nat, fuel: nat) returns (k: nat)
    requires Log(file, config, address, fuel).Ok?
    ensures k <= fuel && ReachesEnd(file, config, address, k)
    decreases fuel
  {
    hide ReadManifest;
    if address == 0 {
      k := 0;
    } else {
      k := ReadLogEnds(file, config, ReadManifest(file, config, address).value.previous, fuel - 1);
      k := k + 1;
    }
  }

  lemma {:induction false} EndingLogIsRead(file: File, config: Config, address: nat, fuel: nat, k: nat)
    requires ReachesEnd(file, config, address, k) && k <= fuel
    ensures Log(file, config, address, fuel).Ok?
    decreases fuel
  {
    hide ReadManifest;
    if address != 0 {
      EndingLogIsRead(file, config, ReadManifest(file, config, address).value.previous, fuel - 1, k - 1);
    }
  }

  /** The chain is read successfully exactly when it ends within `fuel` valid blocks. */
  lemma LogOkIff(file: File, config: Config, address: nat, fuel: nat)
    ensures Log(file, config, address, fuel).Ok? <==> exists k: nat :: k <= fuel && ReachesEnd(file, config, address, k)
  {
    hide *;
    if Log(file, config, address, fuel).Ok? {
      var k := ReadLogEnds(file, config, address, fuel);
      assert k <= fuel && ReachesEnd(file, config, address, k);
    }
    if k: nat :| k <= fuel && ReachesEnd(file, config, address, k) {
      EndingLogIsRead(file, config, address, fuel, k);
    }
  }

  /** The address `n` steps down the chain. */
  function Follow(file: File, config: Config, address: nat, n: nat): Option<nat>
    decreases n
  {
    if n == 0 then Some(address)
    else if address == 0 then None
    else
      var m := ReadManifest(file, config, address);
      if m.Ok? then Follow(file, config, m.value.previous, n - 1) else None
  }

  lemma {:induction false} FollowTowardsEnd(file: File, config: Config, address: nat, n: nat, k: nat)
    requires ReachesEnd(file, config, address, k) && Follow(file, config, address, n).Some?
    ensures n <= k && ReachesEnd(file, config, Follow(file, config, address, n).value, k - n)
    decreases n
  {
    hide ReadManifest;
    if n > 0 {
      FollowTowardsEnd(file, config, ReadManifest(file, config, address).value.previous, n - 1, k - 1);
    }
  }

  lemma {:induction false} CycleNeverEnds(file: File, config: Config, address: nat, m: nat, k: nat)
    requires m > 0 && Follow(file, config, address, m) == Some(address)
    ensures !ReachesEnd(file, config, address, k)
    decreases k
  {
    hide ReadManifest;
    if ReachesEnd(file, config, address, k) {
      FollowTowardsEnd(file, config, address, m, k);
      CycleNeverEnds(file, config, address, m, k - m);
    }
  }

  /** A chain that runs into a cycle is rejected, whatever the declared block count. */
  lemma CyclicChainRejected(file: File, config: Config, address: nat, n: nat, m: nat, fuel: nat)
    requires m > 0 && Follow(file, config, address, n).Some?
    requires var a := Follow(file, config, address, n).value;
             Follow(file, config, a, m) == Some(a)
    ensures Log(file, config, address, fuel).Err?
  {
    hide *;
    LogOkIff(file, config, address, fuel);
    if k: nat :| k <= fuel && ReachesEnd(file, config, address, k) {
      FollowTowardsEnd(file, config, address, n, k);
      CycleNeverEnds(file, config, Follow(file, config, address, n).value, m, k - n);
    }
  }

  // ---------------------------------------------------------------------------
  // First seen wins
  // ---------------------------------------------------------------------------

  function Flatten(log: seq<seq<TableInfo>>): seq<TableInfo> {
    if log == [] then [] else log[0] + Flatten(log[1..])
  }

  /** The entries of one tree, or all entries. */
  function Wanted(events: seq<TableInfo>, tree: Option<nat>): seq<TableInfo> {
    if events == [] then []
    else
      var e := events[|events| - 1];
      Wanted(events[..|events| - 1], tree) + (if tree.None? || e.treeId == tree.value then [e] else [])
  }

  /** Liveness by address when the first event of an address counts. */
  function FirstSeen(events: seq<TableInfo>): map<nat, bool> {
    if events == [] then map[]
    else
      var seen, e := FirstSeen(events[..|events| - 1]), events[|events| - 1];
      if e.address in seen then seen else seen[e.address := e.Live()]
  }

  /** Liveness by address when every event overrides the ones before it. */
  function Replay(events: seq<TableInfo>): map<nat, bool> {
    if events == [] then map[]
    else Replay(events[..|events| - 1])[events[|events| - 1].address := events[|events| - 1].Live()]
  }

  function LiveIn(seen: map<nat, bool>): set<nat> {
    set a <- seen | seen[a]
  }

  lemma {:induction false} FirstSeenAppend(xs: seq<TableInfo>, ys: seq<TableInfo>)
    ensures FirstSeen(xs + ys) == FirstSeen(ys) + FirstSeen(xs)
  {
    if ys == [] {
      assert xs + ys == xs;
    } else {
      assert (xs + ys)[..|xs + ys| - 1] == xs + ys[..|ys| - 1];
      FirstSeenAppend(xs, ys[..|ys| - 1]);
    }
  }

  lemma {:induction false} ReplayAppend(xs: seq<TableInfo>, ys: seq<TableInfo>)
    ensures Replay(xs + ys) == Replay(xs) + Replay(ys)
  {
    if ys == [] {
      assert xs + ys == xs;
    } else {
      assert (xs + ys)[..|xs + ys| - 1] == xs + ys[..|ys| - 1];
      ReplayAppend(xs, ys[..|ys| - 1]);
    }
  }

  lemma {:induction false} SameKeys(events: seq<TableInfo>)
    ensures FirstSeen(events).Keys == Replay(events).Keys
    ensures forall a :: a in FirstSeen(events) <==> exists e <- events :: e.address == a
  {
    if events != [] {
      SameKeys(events[..|events| - 1]);
      assert events == events[..|events| - 1] + [events[|events| - 1]];
    }
  }

  /** The log read the other way: oldest block first, entries of a block still in ascending order. */
  function OldestFirst(log: seq<seq<TableInfo>>): seq<TableInfo> {
    if log == [] then [] else OldestFirst(log[1..]) + log[0]
  }

  /** In the newest block that mentions an address, its first and its last event agree. */
  ghost predicate NewestAgrees(log: seq<seq<TableInfo>>) {
    forall k, a :: 0 <= k < |log| && a in FirstSeen(log[k]) && (forall j :: 0 <= j < k ==> a !in FirstSeen(log[j])) ==>
      a in Replay(log[k]) && FirstSeen(log[k])[a] == Replay(log[k])[a]
  }

  /**
    Walking newest first with first-seen-wins gives the same liveness as replaying the whole log oldest
    first with last-event-wins if and only if, for every address, the first and last event in the newest
    block that mentions it agree.
   */
  lemma WalkIsReplayIff(log: seq<seq<TableInfo>>)
    ensures FirstSeen(Flatten(log)) == Replay(OldestFirst(log)) <==> NewestAgrees(log)
  {
    forall a
      ensures a in FirstSeen(Flatten(log)) <==> a in Replay(OldestFirst(log))
    {
      SameAddresses(log, a);
    }
    if NewestAgrees(log) {
      forall a | a in FirstSeen(Flatten(log))
        ensures FirstSeen(Flatten(log))[a] == Replay(OldestFirst(log))[a]
      {
        var k := NewestMention(log, a);
      }
    }
    if FirstSeen(Flatten(log)) == Replay(OldestFirst(log)) {
      forall k, a | 0 <= k < |log| && a in FirstSeen(log[k]) && (forall j :: 0 <= j < k ==> a !in FirstSeen(log[j]))
        ensures a in Replay(log[k]) && FirstSeen(log[k])[a] == Replay(log[k])[a]
      {
        MentionDecides(log, a, k);
      }
    }
  }

  lemma {:induction false} SameAddresses(log: seq<seq<TableInfo>>, a: nat)
    ensures a in FirstSeen(Flatten(log)) <==> exists k :: 0 <= k < |log| && a in FirstSeen(log[k])
    ensures a in FirstSeen(Flatten(log)) <==> a in Replay(OldestFirst(log))
  {
    if log != [] {
      var older := log[1..];
      SameAddresses(older, a);
      FirstSeenAppend(log[0], Flatten(older));
      ReplayAppend(OldestFirst(older), log[0]);
      SameKeys(log[0]);
      if k :| 0 <= k < |older| && a in FirstSeen(older[k]) {
        assert log[k + 1] == older[k];
      }
      if k :| 0 <= k < |log| && a in FirstSeen(log[k]) {
        assert k > 0 ==> older[k - 1] == log[k];
      }
    }
  }

  /** The newest block mentioning an address decides both readings of the log. */
  lemma {:induction false} MentionDecides(log: seq<seq<TableInfo>>, a: nat, k: nat)
    requires k < |log| && a in FirstSeen(log[k]) && forall j :: 0 <= j < k ==> a !in FirstSeen(log[j])
    ensures a in Replay(log[k]) && a in FirstSeen(Flatten(log)) && a in Replay(OldestFirst(log))
    ensures FirstSeen(Flatten(log))[a] == FirstSeen(log[k])[a]
    ensures Replay(OldestFirst(log))[a] == Replay(log[k])[a]
  {
    var older := log[1..];
    FirstSeenAppend(log[0], Flatten(older));
    ReplayAppend(OldestFirst(older), log[0]);
    SameKeys(log[0]);
    if k > 0 {
      assert older[k - 1] == log[k];
      assert forall j :: 0 <= j < k - 1 ==> older[j] == log[j + 1];
      MentionDecides(older, a, k - 1);
    }
  }

  lemma NewestMention(log: seq<seq<TableInfo>>, a: nat) returns (k: nat)
    requires a in FirstSeen(Flatten(log))
    ensures k < |log| && a in FirstSeen(log[k]) && forall j :: 0 <= j < k ==> a !in FirstSeen(log[j])
    ensures a in Replay(log[k]) && a in Replay(OldestFirst(log))
    ensures FirstSeen(Flatten(log))[a] == FirstSeen(log[k])[a]
    ensures Replay(OldestFirst(log))[a] == Replay(log[k])[a]
  {
    SameAddresses(log, a);
    k :| 0 <= k < |log| && a in FirstSeen(log[k]);
    while exists j :: 0 <= j < k && a in FirstSeen(log[j])
      invariant k < |log| && a in FirstSeen(log[k])
      decreases k
    {
      var j :| 0 <= j < k && a in FirstSeen(log[j]);
      k := j;
    }
    MentionDecides(log, a, k);
  }

  // ---------------------------------------------------------------------------
  // One tree
  // ---------------------------------------------------------------------------

  function WantedLog(log: seq<seq<TableInfo>>, tree: Option<nat>): seq<seq<TableInfo>> {
    if log == [] then [] else [Wanted(log[0], tree)] + WantedLog(log[1..], tree)
  }

  lemma WantedOne(events: seq<TableInfo>, e: TableInfo, tree: Option<nat>)
    ensures var w := Wanted(events, tree);
            && Wanted(events + [e], tree) == (if tree.None? || e.treeId == tree.value then w + [e] else w)
            && FirstSeen(w + [e]) == if e.address in FirstSeen(w) then FirstSeen(w)
               else FirstSeen(w)[e.address := e.Live()]
  {
    assert (events + [e])[..|events|] == events;
    assert (Wanted(events, tree) + [e])[..|Wanted(events, tree)|] == Wanted(events, tree);
  }

  lemma {:induction false} WantedAppend(xs: seq<TableInfo>, ys: seq<TableInfo>, tree: Option<nat>)
    ensures Wanted(xs + ys, tree) == Wanted(xs, tree) + Wanted(ys, tree)
  {
    if ys == [] {
      assert xs + ys == xs;
    } else {
      assert (xs + ys)[..|xs + ys| - 1] == xs + ys[..|ys| - 1];
      WantedAppend(xs, ys[..|ys| - 1], tree);
    }
  }

  lemma {:induction false} WantedOfLog(log: seq<seq<TableInfo>>, tree: Option<nat>)
    ensures Flatten(WantedLog(log, tree)) == Wanted(Flatten(log), tree)
    ensures OldestFirst(WantedLog(log, tree)) == Wanted(OldestFirst(log), tree)
  {
    if log != [] {
      WantedOfLog(log[1..], tree);
      WantedAppend(log[0], Flatten(log[1..]), tree);
      WantedAppend(OldestFirst(log[1..]), log[0], tree);
      assert WantedLog(log, tree)[1..] == WantedLog(log[1..], tree);
    }
  }

  /** No address has two events in one block. */
  predicate OneEventPerAddress(log: seq<seq<TableInfo>>) {
    forall k :: 0 <= k < |log| ==> DistinctAddresses(log[k])
  }

  lemma {:induction false} DistinctBlockAgrees(events: seq<TableInfo>)
    requires DistinctAddresses(events)
    ensures FirstSeen(events) == Replay(events)
  {
    if events != [] {
      var init, e := events[..|events| - 1], events[|events| - 1];
      DistinctBlockAgrees(init);
      SameKeys(init);
      assert forall f <- init :: f.address != e.address;
    }
  }

  predicate DistinctAddresses(events: seq<TableInfo>) {
    forall i, j :: 0 <= i < j < |events| ==> events[i].address != events[j].address
  }

  lemma {:induction false} WantedKeepsDistinct(events: seq<TableInfo>, tree: Option<nat>)
    requires DistinctAddresses(events)
    ensures forall e <- Wanted(events, tree) :: e in events
    ensures DistinctAddresses(Wanted(events, tree))
  {
    if events != [] {
      var init, e := events[..|events| - 1], events[|events| - 1];
      WantedKeepsDistinct(init, tree);
      assert events == init + [e];
      var w := Wanted(init, tree);
      forall i | 0 <= i < |w|
        ensures w[i].address != e.address
      {
        assert w[i] in w && w[i] in init;
        var k :| 0 <= k < |init| && init[k] == w[i];
        assert events[k] == w[i] && events[|init|] == e;
      }
    }
  }

  lemma {:induction false} WantedLogDistinct(log: seq<seq<TableInfo>>, tree: Option<nat>)
    requires OneEventPerAddress(log)
    ensures |WantedLog(log, tree)| == |log| && OneEventPerAddress(WantedLog(log, tree))
  {
    if log != [] {
      var older := log[1..];
      assert OneEventPerAddress(older) by {
        assert forall k :: 0 <= k < |older| ==> older[k] == log[k + 1];
      }
      WantedLogDistinct(older, tree);
      WantedKeepsDistinct(log[0], tree);
      var wanted := WantedLog(log, tree);
      assert forall k :: 0 <= k < |wanted| ==> wanted[k] == if k == 0 then Wanted(log[0], tree)
             else WantedLog(older, tree)[k - 1];
    }
  }

  /**
    With at most one event per address in each block, the walk finds exactly the tables that are live
    after replaying the whole log oldest first, for one tree or for all.
   */
  lemma WalkFindsLiveTables(log: seq<seq<TableInfo>>, tree: Option<nat>)
    requires OneEventPerAddress(log)
    ensures LiveIn(FirstSeen(Wanted(Flatten(log), tree))) == LiveIn(Replay(Wanted(OldestFirst(log), tree)))
  {
    var wanted := WantedLog(log, tree);
    WantedOfLog(log, tree);
    WantedLogDistinct(log, tree);
    forall k, a | 0 <= k < |wanted| && a in FirstSeen(wanted[k])
      ensures a in Replay(wanted[k]) && FirstSeen(wanted[k])[a] == Replay(wanted[k])[a]
    {
      DistinctBlockAgrees(wanted[k]);
    }
    WalkIsReplayIff(wanted);
  }

  // ---------------------------------------------------------------------------
  // Live tables, event by event
  // ---------------------------------------------------------------------------

  /** An event of table `a`, in the wanted tree if there is one. */
  predicate Mentions(e: TableInfo, tree: Option<nat>, a: nat) {
    e.address == a && (tree.None? || e.treeId == tree.value)
  }

  /** The event leaves its table in place. */
  predicate Keeps(e: TableInfo) {
    e.event == Insert || e.event == Update
  }

  ghost predicate FirstEventKeeps(events: seq<TableInfo>, tree: Option<nat>, a: nat) {
    exists i :: 0 <= i < |events| && Mentions(events[i], tree, a) && Keeps(events[i])
                && forall j :: 0 <= j < i ==> !Mentions(events[j], tree, a)
  }

  ghost predicate LastEventKeeps(events: seq<TableInfo>, tree: Option<nat>, a: nat) {
    exists i :: 0 <= i < |events| && Mentions(events[i], tree, a) && Keeps(events[i])
                && forall j :: i < j < |events| ==> !Mentions(events[j], tree, a)
  }

  /** Event `i` of block `k` keeps the table, and neither a newer block nor an earlier event of it mentions it. */
  ghost predicate KeptAt(log: seq<seq<TableInfo>>, tree: Option<nat>, a: nat, k: nat, i: nat) {
    && k < |log| && i < |log[k]| && Mentions(log[k][i], tree, a) && Keeps(log[k][i])
    && (forall j :: 0 <= j < i ==> !Mentions(log[k][j], tree, a))
    && forall n :: 0 <= n < k ==> Unmentioned(log[n], tree, a)
  }

  predicate Unmentioned(events: seq<TableInfo>, tree: Option<nat>, a: nat) {
    forall i :: 0 <= i < |events| ==> !Mentions(events[i], tree, a)
  }

  /** The newest block that mentions the table keeps it, by its first event for it. */
  ghost predicate NewestKeeps(log: seq<seq<TableInfo>>, tree: Option<nat>, a: nat) {
    exists k: nat, i: nat :: KeptAt(log, tree, a, k, i)
  }

  lemma {:induction false} FirstSeenIff(events: seq<TableInfo>, tree: Option<nat>, a: nat)
    ensures a in FirstSeen(Wanted(events, tree)) <==> !Unmentioned(events, tree, a)
    ensures a in LiveIn(FirstSeen(Wanted(events, tree))) <==> FirstEventKeeps(events, tree, a)
  {
    if events != [] {
      var init, e := events[..|events| - 1], events[|events| - 1];
      assert events == init + [e];
      FirstSeenIff(init, tree, a);
      WantedOne(init, e, tree);
      FirstSnoc(init, e, tree, a);
    }
  }

  lemma FirstSnoc(events: seq<TableInfo>, e: TableInfo, tree: Option<nat>, a: nat)
    ensures var all := events + [e];
            && (Unmentioned(all, tree, a) <==> Unmentioned(events, tree, a) && !Mentions(e, tree, a))
            && (FirstEventKeeps(all, tree, a) <==>
                FirstEventKeeps(events, tree, a) || (Unmentioned(events, tree, a) && Mentions(e, tree, a) && Keeps(e)))
  {
    var all, n := events + [e], |events|;
    assert all[n] == e && forall j :: 0 <= j < n ==> all[j] == events[j];
    if i :| 0 <= i < n && Mentions(events[i], tree, a) && Keeps(events[i])
            && forall j :: 0 <= j < i ==> !Mentions(events[j], tree, a) {
      assert Mentions(all[i], tree, a);
    }
  }

  lemma {:induction false} ReplayIff(events: seq<TableInfo>, tree: Option<nat>, a: nat)
    ensures a in LiveIn(Replay(Wanted(events, tree))) <==> LastEventKeeps(events, tree, a)
  {
    if events != [] {
      var init, e := events[..|events| - 1], events[|events| - 1];
      assert events == init + [e];
      ReplayIff(init, tree, a);
      WantedOne(init, e, tree);
      var w := Wanted(init, tree);
      assert (w + [e])[..|w|] == w;
      LastSnoc(init, e, tree, a);
    }
  }

  lemma LastSnoc(events: seq<TableInfo>, e: TableInfo, tree: Option<nat>, a: nat)
    ensures LastEventKeeps(events + [e], tree, a) <==>
            if Mentions(e, tree, a) then Keeps(e) else LastEventKeeps(events, tree, a)
  {
    var all, n := events + [e], |events|;
    assert all[n] == e && forall j :: 0 <= j < n ==> all[j] == events[j];
    if i :| 0 <= i < n && Mentions(events[i], tree, a) && Keeps(events[i])
            && forall j :: i < j < n ==> !Mentions(events[j], tree, a) {
      assert Mentions(all[i], tree, a);
    }
    if Mentions(e, tree, a) && Keeps(e) {
      assert Mentions(all[n], tree, a);
    }
  }

  lemma {:induction false} NewestIsFirst(log: seq<seq<TableInfo>>, tree: Option<nat>, a: nat)
    ensures NewestKeeps(log, tree, a) <==> FirstEventKeeps(Flatten(log), tree, a)
    ensures Unmentioned(Flatten(log), tree, a) <==> forall n :: 0 <= n < |log| ==> Unmentioned(log[n], tree, a)
  {
    if log != [] {
      var older := log[1..];
      NewestIsFirst(older, tree, a);
      FirstOfTwo(log[0], Flatten(older), tree, a);
      NewestOfTwo(log, tree, a);
      assert forall n :: 0 <= n < |older| ==> older[n] == log[n + 1];
      assert forall n :: 0 < n < |log| ==> log[n] == older[n - 1];
    }
  }

  lemma FirstOfTwo(xs: seq<TableInfo>, ys: seq<TableInfo>, tree: Option<nat>, a: nat)
    ensures Unmentioned(xs + ys, tree, a) <==> Unmentioned(xs, tree, a) && Unmentioned(ys, tree, a)
    ensures FirstEventKeeps(xs + ys, tree, a) <==>
            FirstEventKeeps(xs, tree, a) || (Unmentioned(xs, tree, a) && FirstEventKeeps(ys, tree, a))
  {
    FirstSeenIff(xs, tree, a);
    FirstSeenIff(ys, tree, a);
    FirstSeenIff(xs + ys, tree, a);
    WantedAppend(xs, ys, tree);
    FirstSeenAppend(Wanted(xs, tree), Wanted(ys, tree));
  }

  lemma NewestOfTwo(log: seq<seq<TableInfo>>, tree: Option<nat>, a: nat)
    requires log != []
    ensures NewestKeeps(log, tree, a) <==>
            FirstEventKeeps(log[0], tree, a) || (Unmentioned(log[0], tree, a) && NewestKeeps(log[1..], tree, a))
  {
    var older := log[1..];
    assert forall n :: 0 <= n < |older| ==> older[n] == log[n + 1];
    if k: nat, i: nat :| KeptAt(log, tree, a, k, i) {
      if k > 0 {
        assert Unmentioned(log[0], tree, a);
        assert KeptAt(older, tree, a, k - 1, i);
      }
    }
    if i :| 0 <= i < |log[0]| && Mentions(log[0][i], tree, a) && Keeps(log[0][i])
            && forall j :: 0 <= j < i ==> !Mentions(log[0][j], tree, a) {
      assert KeptAt(log, tree, a, 0, i);
    }
    if k: nat, i: nat :| Unmentioned(log[0], tree, a) && KeptAt(older, tree, a, k, i) {
      assert forall n :: 0 < n < k + 1 ==> log[n] == older[n - 1];
      assert KeptAt(log, tree, a, k + 1, i);
    }
  }

  /**
    On any log, the walk finds a table live exactly if the newest block that mentions it keeps it: by its first
    event for it, an insert or an update. With one event per address and block, that is the last event of the
    whole log, oldest first.
   */
  lemma WalkLiveIff(log: seq<seq<TableInfo>>, tree: Option<nat>, a: nat)
    ensures a in LiveIn(FirstSeen(Wanted(Flatten(log), tree))) <==> NewestKeeps(log, tree, a)
    ensures OneEventPerAddress(log) ==> (NewestKeeps(log, tree, a) <==> LastEventKeeps(OldestFirst(log), tree, a))
  {
    hide *;
    FirstSeenIff(Flatten(log), tree, a);
    NewestIsFirst(log, tree, a);
    if OneEventPerAddress(log) {
      WalkFindsLiveTables(log, tree);
      ReplayIff(OldestFirst(log), tree, a);
    }
  }

  /** A block that inserts and then removes a table misleads the walk: it reports a removed table as live. */
  lemma TwoEventsMislead()
    ensures var log := [[TableInfo(5, 7, Insert), TableInfo(5, 7, Remove)]];
            LiveIn(FirstSeen(Flatten(log))) == {5} && LiveIn(Replay(OldestFirst(log))) == {}
  {
    var a, b := TableInfo(5, 7, Insert), TableInfo(5, 7, Remove);
    assert Flatten([[a, b]]) == [a, b] && OldestFirst([[a, b]]) == [a, b];
    assert [a, b][..1] == [a] && [a][..0] == [];
    assert FirstSeen([a]) == map[5 := true] && FirstSeen([a, b]) == map[5 := true];
    assert Replay([a]) == map[5 := true] && Replay([a, b]) == map[5 := false];
  }

  // ---------------------------------------------------------------------------
  // Counting over all trees
  // ---------------------------------------------------------------------------

  /** Each table address belongs to one tree, and tree ids are 16-bit. */
  ghost predicate OneTreePerAddress(events: seq<TableInfo>) {
    && (forall i, j :: 0 <= i < |events| && 0 <= j < |events| && events[i].address == events[j].address ==>
          events[i].treeId == events[j].treeId)
    && forall i :: 0 <= i < |events| ==> events[i].treeId < TREE_COUNT
  }

  /** The live tables of one tree, as `collect_index_blocks_for_tree` finds them. */
  function LiveOf(events: seq<TableInfo>, tree: Option<nat>): set<nat> {
    LiveIn(FirstSeen(Wanted(events, tree)))
  }

  /** The number of live tables of trees `0..n`. */
  function LiveCountBelow(events: seq<TableInfo>, n: nat): nat {
    if n == 0 then 0 else LiveCountBelow(events, n - 1) + |LiveOf(events, Some(n - 1))|
  }

  /** The tree of an address. */
  function TreeOf(events: seq<TableInfo>, a: nat): nat {
    if events == [] then 0
    else if events[|events| - 1].address == a then events[|events| - 1].treeId
    else TreeOf(events[..|events| - 1], a)
  }

  lemma {:induction false} FilterIsRestriction(events: seq<TableInfo>, t: nat, a: nat)
    requires OneTreePerAddress(events)
    ensures var all, one := FirstSeen(events), FirstSeen(Wanted(events, Some(t)));
            && (a in one <==> a in all && TreeOf(events, a) == t)
            && (a in one ==> one[a] == all[a])
    ensures a in FirstSeen(events) ==> TreeOf(events, a) < TREE_COUNT
  {
    if events != [] {
      var init, e := events[..|events| - 1], events[|events| - 1];
      assert events == init + [e];
      assert OneTreePerAddress(init) by {
        assert forall i :: 0 <= i < |init| ==> init[i] == events[i];
      }
      FilterIsRestriction(init, t, a);
      WantedOne(init, e, Some(t));
      if e.address == a && a in FirstSeen(init) {
        SameTree(init, e);
      }
    }
  }

  /** An event of a known address belongs to the tree that address already has. */
  lemma SameTree(events: seq<TableInfo>, e: TableInfo)
    requires OneTreePerAddress(events + [e]) && e.address in FirstSeen(events)
    ensures TreeOf(events, e.address) == e.treeId
  {
    SameKeys(events);
    TreeOfMention(events, e.address);
    var i :| 0 <= i < |events| && events[i].address == e.address && events[i].treeId == TreeOf(events, e.address);
    var all := events + [e];
    assert all[i] == events[i] && all[|events|] == e;
  }

  lemma {:induction false} TreeOfMention(events: seq<TableInfo>, a: nat)
    requires exists e <- events :: e.address == a
    ensures exists i :: 0 <= i < |events| && events[i].address == a && events[i].treeId == TreeOf(events, a)
  {
    var init, e := events[..|events| - 1], events[|events| - 1];
    if e.address != a {
      var f :| f in events && f.address == a;
      assert f in init;
      TreeOfMention(init, a);
    }
  }

  lemma {:induction false} WantedAll(events: seq<TableInfo>)
    ensures Wanted(events, None) == events
  {
    if events != [] {
      var init, e := events[..|events| - 1], events[|events| - 1];
      WantedAll(init);
      WantedOne(init, e, None);
      assert events == init + [e];
      hide Wanted, FirstSeen;
    }
  }

  function LiveBelow(events: seq<TableInfo>, n: nat): set<nat> {
    set a <- LiveOf(events, None) | TreeOf(events, a) < n
  }

  /** The live tables of tree `t` are the live tables whose address belongs to it. */
  lemma LiveOfIsRestriction(events: seq<TableInfo>, t: nat)
    requires OneTreePerAddress(events)
    ensures LiveOf(events, Some(t)) == set a <- LiveOf(events, None) | TreeOf(events, a) == t
  {
    WantedAll(events);
    forall a
      ensures a in LiveOf(events, Some(t)) <==> a in LiveOf(events, None) && TreeOf(events, a) == t
    {
      FilterIsRestriction(events, t, a);
    }
  }

  lemma {:induction false} CountBelow(events: seq<TableInfo>, n: nat)
    requires OneTreePerAddress(events)
    ensures LiveCountBelow(events, n) == |LiveBelow(events, n)|
  {
    hide LiveOf, TreeOf, OneTreePerAddress;
    if n == 0 {
      assert LiveBelow(events, 0) == {};
    } else {
      CountBelow(events, n - 1);
      LiveOfIsRestriction(events, n - 1);
      var below, here := LiveBelow(events, n - 1), LiveOf(events, Some(n - 1));
      assert LiveBelow(events, n) == below + here;
      assert below !! here;
    }
  }

  /** Counting over all trees at once is the same as adding up the trees one by one. */
  lemma CountIsSumOverTrees(events: seq<TableInfo>)
    requires OneTreePerAddress(events)
    ensures |LiveOf(events, None)| == LiveCountBelow(events, TREE_COUNT)
  {
    WantedAll(events);
    CountBelow(events, TREE_COUNT);
    forall a | a in LiveOf(events, None)
      ensures TreeOf(events, a) < TREE_COUNT
    {
      FilterIsRestriction(events, 0, a);
    }
    assert LiveBelow(events, TREE_COUNT) == LiveOf(events, None);
  }

  // ---------------------------------------------------------------------------
  // The walk
  // ---------------------------------------------------------------------------

  /** What the walk computes: the liveness map of the whole chain, or the chain's error. */
  function WalkResult(file: File, config: Config, info: SuperblockInfo, tree: Option<nat>)
    : Result<map<nat, bool>, ReaderError>
  {
    if info.manifestNewestAddress == 0 || info.manifestBlockCount == 0 then Ok(map[])
    else
      var log :- Log(file, config, info.manifestNewestAddress, info.manifestBlockCount + 1);
      Ok(FirstSeen(Wanted(Flatten(log), tree)))
  }

  /** Adds one block's entries to `seen`, first seen first; entries of other trees are skipped. */
  method RecordBlock(seen: map<nat, bool>, block: seq<Byte>, entryCount: nat, tree: Option<nat>,
                     ghost before: seq<TableInfo>)
    returns (r: map<nat, bool>)
    requires HEADER_SIZE + entryCount * TABLE_INFO_SIZE <= |block|
    requires seen == FirstSeen(Wanted(before, tree))
    ensures r == FirstSeen(Wanted(before + Entries(block, entryCount), tree))
  {
    hide FirstSeen, Wanted, TableInfoFromBytes;
    r := seen;
    assert before + [] == before;
    for i := 0 to entryCount
      invariant r == FirstSeen(Wanted(before + Entries(block, i), tree))
    {
      ghost var events := before + Entries(block, i);
      var entry := EntryAt(block, i);
      if entry.None? {
        assert Entries(block, i + 1) == Entries(block, i);
        continue;
      }
      assert before + Entries(block, i + 1) == events + [entry.value];
      WantedOne(events, entry.value, tree);
      if tree.Some? && entry.value.treeId != tree.value {
        continue;
      }
      var address := entry.value.address;
      r := if address in r then r else r[address := entry.value.Live()];
    }
  }

  /** Reads one manifest block and records its entries; returns the address of the block before it. */
  method VisitBlock(file: File, config: Config, address: nat, seen: map<nat, bool>, tree: Option<nat>,
                    ghost before: seq<TableInfo>)
    returns (r: Result<nat, ReaderError>, updated: map<nat, bool>)
    requires seen == FirstSeen(Wanted(before, tree))
    ensures r.Ok? <==> ReadManifest(file, config, address).Ok?
    ensures r.Err? ==> r.error == ReadManifest(file, config, address).error
    ensures r.Ok? ==>
              var m := ReadManifest(file, config, address).value;
              r.value == m.previous && updated == FirstSeen(Wanted(before + m.entries, tree))
  {
    hide ReadBlock, FirstSeen, Wanted, Entries;
    var block := ReadBlock(file, config, address, BLOCK_TYPE_MANIFEST);
    if block.Err? {
      return Err(block.error), seen;
    }
    var previous := ReadU64(block.value, META_OFF_PREV_ADDRESS);
    var entryCount := ReadU32(block.value, META_OFF_ENTRY_COUNT);
    if entryCount > (config.blockSize - HEADER_SIZE) / TABLE_INFO_SIZE {
      return Err(InvalidBlock), seen;
    }
    updated := RecordBlock(seen, block.value, entryCount, tree, before);
    r := Ok(previous);
  }

  /** The rest of the walk from `current`, given what the blocks so far have left in `seen`. */
  function WalkFrom(file: File, config: Config, current: nat, fuel: nat, tree: Option<nat>, before: seq<TableInfo>)
    : Result<map<nat, bool>, ReaderError>
  {
    var log :- Log(file, config, current, fuel);
    Ok(FirstSeen(Wanted(before + Flatten(log), tree)))
  }

  lemma WalkFromStep(file: File, config: Config, current: nat, fuel: nat, tree: Option<nat>, before: seq<TableInfo>)
    ensures current == 0 ==> WalkFrom(file, config, current, fuel, tree, before) == Ok(FirstSeen(Wanted(before, tree)))
    ensures current > 0 && fuel == 0 ==> WalkFrom(file, config, current, fuel, tree, before) == Err(InvalidBlock)
    ensures current > 0 && fuel > 0 ==>
              var m := ReadManifest(file, config, current);
              && (m.Err? ==> WalkFrom(file, config, current, fuel, tree, before) == Err(m.error))
              && (m.Ok? ==> (WalkFrom(file, config, current, fuel, tree, before)
                             == WalkFrom(file, config, m.value.previous, fuel - 1, tree, before + m.value.entries)))
  {
    hide ReadManifest, FirstSeen, Wanted;
    assert before + [] == before;
    if current > 0 && fuel > 0 && ReadManifest(file, config, current).Ok? {
      var m := ReadManifest(file, config, current).value;
      var older := Log(file, config, m.previous, fuel - 1);
      if older.Ok? {
        assert ([m.entries] + older.value)[1..] == older.value;
        assert before + (m.entries + Flatten(older.value)) == before + m.entries + Flatten(older.value);
      }
    }
  }

  /** One turn of the walk: reads one block and moves on to the one before it. */
  method WalkStep(file: File, config: Config, current: nat, ghost fuel: nat, seen: map<nat, bool>, tree: Option<nat>,
                  ghost before: seq<TableInfo>)
    returns (r: Result<nat, ReaderError>, updated: map<nat, bool>, ghost after: seq<TableInfo>)
    requires current > 0 && fuel > 0 && seen == FirstSeen(Wanted(before, tree))
    ensures r.Err? ==> WalkFrom(file, config, current, fuel, tree, before) == Err(r.error)
    ensures r.Ok? ==> updated == FirstSeen(Wanted(after, tree))
    ensures r.Ok? ==>
              var rest := WalkFrom(file, config, r.value, fuel - 1, tree, after);
              WalkFrom(file, config, current, fuel, tree, before) == rest
  {
    WalkFromStep(file, config, current, fuel, tree, before);
    hide *;
    after := before;
    r, updated := VisitBlock(file, config, current, seen, tree, before);
    if r.Ok? {
      after := before + ReadManifest(file, config, current).value.entries;
    }
  }

  /** The loop: counts each block before reading it and gives up once the count passes `limit`. */
  method FollowChain(file: File, config: Config, newest: nat, limit: nat, tree: Option<nat>)
    returns (r: Result<map<nat, bool>, ReaderError>, blocksRead: nat)
    ensures r == WalkFrom(file, config, newest, limit, tree, [])
    ensures blocksRead <= limit
  {
    hide *;
    NothingSeen(tree);
    var seen: map<nat, bool>, current, blocksVisited := map[], newest, 0;
    ghost var before: seq<TableInfo> := [];
    ghost var result := WalkFrom(file, config, newest, limit, tree, []);
    blocksRead := 0;
    while current != 0
      invariant blocksRead == blocksVisited <= limit && seen == FirstSeen(Wanted(before, tree))
      invariant WalkFrom(file, config, current, limit - blocksVisited, tree, before) == result
      decreases limit - blocksVisited
    {
      blocksVisited := blocksVisited + 1;
      if blocksVisited > limit {
        WalkFromStep(file, config, current, 0, tree, before);
        return Err(InvalidBlock), blocksRead;
      }
      blocksRead := blocksRead + 1;
      var step;
      step, seen, before := WalkStep(file, config, current, limit - blocksVisited + 1, seen, tree, before);
      if step.Err? {
        return Err(step.error), blocksRead;
      }
      current := step.value;
    }
    WalkFromStep(file, config, 0, limit - blocksVisited, tree, before);
    return Ok(seen), blocksRead;
  }

  lemma NothingSeen(tree: Option<nat>)
    ensures FirstSeen(Wanted([], tree)) == map[]
  {
  }

  /**
    Follows the chain newest first, reading at most `manifestBlockCount + 1` blocks. The loops of
    `collect_index_blocks_for_tree` (one tree) and `count_live_index_blocks` (all trees) are this walk.
   */
  method WalkManifest(file: File, config: Config, info: SuperblockInfo, tree: Option<nat>)
    returns (r: Result<map<nat, bool>, ReaderError>, blocksRead: nat)
    ensures r == WalkResult(file, config, info, tree)
    ensures blocksRead <= info.manifestBlockCount + 1
  {
    if info.manifestNewestAddress == 0 || info.manifestBlockCount == 0 {
      return Ok(map[]), 0;
    }
    WalkIsWalkFrom(file, config, info, tree);
    hide *;
    r, blocksRead := FollowChain(file, config, info.manifestNewestAddress, info.manifestBlockCount + 1, tree);
  }

  lemma WalkIsWalkFrom(file: File, config: Config, info: SuperblockInfo, tree: Option<nat>)
    requires info.manifestNewestAddress != 0 && info.manifestBlockCount != 0
    ensures WalkFrom(file, config, info.manifestNewestAddress, info.manifestBlockCount + 1, tree, [])
         == WalkResult(file, config, info, tree)
  {
    var log := Log(file, config, info.manifestNewestAddress, info.manifestBlockCount + 1);
    assert log.Ok? ==> [] + Flatten(log.value) == Flatten(log.value);
  }

  /** The manifest log, if there is one, keeps table `a`. */
  ghost predicate LiveTable(file: File, config: Config, info: SuperblockInfo, tree: Option<nat>, a: nat) {
    && info.manifestNewestAddress != 0 && info.manifestBlockCount != 0
    && var log := Log(file, config, info.manifestNewestAddress, info.manifestBlockCount + 1);
       log.Ok? && NewestKeeps(log.value, tree, a)
  }

  lemma LiveTableIff(file: File, config: Config, info: SuperblockInfo, tree: Option<nat>, a: nat)
    requires WalkResult(file, config, info, tree).Ok?
    ensures a in LiveIn(WalkResult(file, config, info, tree).value) <==> LiveTable(file, config, info, tree, a)
  {
    hide Log, FirstSeen, Wanted, Flatten, NewestKeeps;
    if info.manifestNewestAddress != 0 && info.manifestBlockCount != 0 {
      WalkLiveIff(Log(file, config, info.manifestNewestAddress, info.manifestBlockCount + 1).value, tree, a);
    }
  }

  /** The live index blocks of one tree, in whatever order the hash map iterates. */
  method CollectIndexBlocks(file: File, config: Config, info: SuperblockInfo, tree: nat)
    returns (r: Result<seq<nat>, ReaderError>)
    ensures match WalkResult(file, config, info, Some(tree))
            case Ok(seen) => r.Ok? && IsEnumeration(r.value, LiveIn(seen))
            case Err(e) => r == Err(e)
    ensures r.Ok? ==> forall a :: a in r.value <==> LiveTable(file, config, info, Some(tree), a)
  {
    hide Log, FirstSeen, Wanted;
    var seen, blocksRead := WalkManifest(file, config, info, Some(tree));
    if seen.Err? {
      return Err(seen.error);
    }
    var order := Enumerate(LiveIn(seen.value));
    forall a
      ensures a in LiveIn(seen.value) <==> LiveTable(file, config, info, Some(tree), a)
    {
      LiveTableIff(file, config, info, Some(tree), a);
    }
    return Ok(order);
  }

  /** The number of live index blocks over all trees. */
  method CountLiveIndexBlocks(file: File, config: Config, info: SuperblockInfo) returns (r: Result<nat, ReaderError>)
    ensures match WalkResult(file, config, info, None)
            case Ok(seen) => r == Ok(|LiveIn(seen)|)
            case Err(e) => r == Err(e)
    ensures r.Ok? ==> exists live: set<nat> ::
              r.value == |live| && forall a :: a in live <==> LiveTable(file, config, info, None, a)
  {
    hide Log, FirstSeen, Wanted;
    var seen, blocksRead := WalkManifest(file, config, info, None);
    if seen.Err? {
      return Err(seen.error);
    }
    forall a
      ensures a in LiveIn(seen.value) <==> LiveTable(file, config, info, None, a)
    {
      LiveTableIff(file, config, info, None, a);
    }
    return Ok(|LiveIn(seen.value)|);
  }

  /** Past the empty-log check, the walk succeeds exactly when the chain ends within the declared count plus one. */
  lemma WalkSucceedsIff(file: File, config: Config, info: SuperblockInfo, tree: Option<nat>)
    requires info.manifestNewestAddress != 0 && info.manifestBlockCount != 0
    ensures WalkResult(file, config, info, tree).Ok? <==>
            exists k: nat :: k <= info.manifestBlockCount + 1 && ReachesEnd(file, config, info.manifestNewestAddress, k)
  {
    LogOkIff(file, config, info.manifestNewestAddress, info.manifestBlockCount + 1);
  }

  /** On one log, the count is the sum over all trees of what collecting that tree returns. */
  lemma WalkCountIsSum(file: File, config: Config, info: SuperblockInfo)
    requires info.manifestNewestAddress != 0 && info.manifestBlockCount != 0
    requires var log := Log(file, config, info.manifestNewestAddress, info.manifestBlockCount + 1);
             log.Ok? && OneTreePerAddress(Flatten(log.value))
    ensures var log := Log(file, config, info.manifestNewestAddress, info.manifestBlockCount + 1);
            && WalkResult(file, config, info, None).Ok?
            && |LiveIn(WalkResult(file, config, info, None).value)| == LiveCountBelow(Flatten(log.value), TREE_COUNT)
            && forall t: nat :: WalkResult(file, config, info, Some(t)).Ok?
                 && LiveIn(WalkResult(file, config, info, Some(t)).value) == LiveOf(Flatten(log.value), Some(t))
  {
    var log := Log(file, config, info.manifestNewestAddress, info.manifestBlockCount + 1);
    CountIsSumOverTrees(Flatten(log.value));
  }
}
