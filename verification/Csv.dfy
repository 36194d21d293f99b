/** Planning an import from CSV transfers alone: compression before a cutoff, replay after it. */
module CsvPlanning {
  import opened Wrappers
  import opened Records
  import opened Sorting
  import opened Timestamps
  import opened Ledgers
  import opened Plans
  import opened Importers
  import opened Acceptance

  /** What pre-cutoff transfers are aggregated by. */
  datatype Key = Key(debitAccountId: nat, creditAccountId: nat, ledger: nat)

  function KeyOf(t: Transfer): Key {
    Key(t.debitAccountId, t.creditAccountId, t.ledger)
  }

  function Before(ts: seq<Transfer>, cutoffTs: nat): (r: seq<Transfer>)
    ensures forall i :: 0 <= i < |r| ==> r[i].timestamp < cutoffTs
  {
    if ts == [] then []
    else
      Before(ts[..|ts| - 1], cutoffTs) + (if ts[|ts| - 1].timestamp < cutoffTs then [ts[|ts| - 1]] else [])
  }

  function Since(ts: seq<Transfer>, cutoffTs: nat): (r: seq<Transfer>)
    ensures |r| + |Before(ts, cutoffTs)| == |ts|
    ensures forall i :: 0 <= i < |r| ==> r[i].timestamp >= cutoffTs
  {
    if ts == [] then []
    else
      Since(ts[..|ts| - 1], cutoffTs) + (if ts[|ts| - 1].timestamp < cutoffTs then [] else [ts[|ts| - 1]])
  }

  function KeySet(ts: seq<Transfer>): set<Key> {
    set t <- ts :: KeyOf(t)
  }

  /** The total amount moved under `key`. */
  function AmountFor(ts: seq<Transfer>, key: Key): nat {
    if ts == [] then 0
    else AmountFor(ts[..|ts| - 1], key) + (if KeyOf(ts[|ts| - 1]) == key then ts[|ts| - 1].amount else 0)
  }

  function BaseTimestamp(cutoffTs: nat, n: nat): nat {
    SaturatingSub(cutoffTs, n)
  }

  /** One synthetic transfer per key, in the order the hash map happens to iterate. */
  function Aggregated(pre: seq<Transfer>, order: seq<Key>, cutoffTs: nat): (r: seq<SyntheticTransfer>)
    ensures |r| == |order|
    ensures forall i :: 0 <= i < |r| ==> r[i] == AggregatedAt(pre, order[i], i, BaseTimestamp(cutoffTs, |order|))
  {
    seq(|order|, i requires 0 <= i < |order| => AggregatedAt(pre, order[i], i, BaseTimestamp(cutoffTs, |order|)))
  }

  function AggregatedAt(pre: seq<Transfer>, key: Key, i: nat, base: nat): SyntheticTransfer {
    SyntheticTransfer(i + 1, key.debitAccountId, key.creditAccountId, AmountFor(pre, key), key.ledger, SYNTHETIC_CODE,
                      base + i)
  }

  /** The plan for a given hash-map order; `order` is irrelevant when the cutoff is 0. */
  function CsvPlan(ts: seq<Transfer>, cutoffTs: nat, order: seq<Key>): BalancePlan {
    BalancePlan([], [], if cutoffTs == 0 then [] else Aggregated(Before(ts, cutoffTs), order, cutoffTs),
                WindowedPart(ts, cutoffTs))
  }

  /** The transfers replayed one by one: those since the cutoff, and all of them without a cutoff. */
  function WindowedPart(ts: seq<Transfer>, cutoffTs: nat): seq<Transfer> {
    if cutoffTs == 0 then DedupTransfers(SortByKey(TransferTimestamp, ts), 0)
    else DedupTransfers(SortByKey(TransferTimestamp, Since(ts, cutoffTs)), cutoffTs - 1)
  }

  ghost predicate PossibleOrder(ts: seq<Transfer>, cutoffTs: nat, order: seq<Key>) {
    IsEnumeration(order, KeySet(Before(ts, cutoffTs)))
  }

  // ---------------------------------------------------------------------------
  // The planner
  // ---------------------------------------------------------------------------

  method Aggregate(pre: seq<Transfer>) returns (agg: map<Key, nat>)
    ensures agg.Keys == KeySet(pre)
    ensures forall k <- agg :: agg[k] == AmountFor(pre, k)
  {
    agg := map[];
    for i := 0 to |pre|
      invariant agg.Keys == KeySet(pre[..i])
      invariant forall k <- agg :: agg[k] == AmountFor(pre[..i], k)
    {
      var t := pre[i];
      assert pre[..i + 1] == pre[..i] + [t] && pre[..i + 1][..i] == pre[..i];
      if KeyOf(t) !in agg {
        NothingFor(pre[..i], KeyOf(t));
      }
      agg := agg[KeyOf(t) := (if KeyOf(t) in agg then agg[KeyOf(t)] else 0) + t.amount];
    }
    assert pre[..|pre|] == pre;
  }

  lemma {:induction false} NothingFor(ts: seq<Transfer>, key: Key)
    requires key !in KeySet(ts)
    ensures AmountFor(ts, key) == 0
  {
    if ts != [] {
      assert ts[|ts| - 1] in ts;
      NothingFor(ts[..|ts| - 1], key);
    }
  }

  /** Sorts by timestamp, then makes the timestamps strictly increasing in place. */
  method SortAndDedupe(ts: seq<Transfer>, startPrev: nat) returns (r: seq<Transfer>)
    ensures r == DedupTransfers(SortByKey(TransferTimestamp, ts), startPrev)
  {
    var sorted := SortByKey(TransferTimestamp, ts);
    var a := new Transfer[|sorted|](i requires 0 <= i < |sorted| => sorted[i]);
    assert a[..] == sorted;
    DedupeTimestamps(a, startPrev);
    r := a[..];
  }

  method BuildPlanFromCsv(ts: seq<Transfer>, cutoffTs: nat) returns (plan: BalancePlan)
    ensures exists order :: PossibleOrder(ts, cutoffTs, order) && plan == CsvPlan(ts, cutoffTs, order)
  {
    hide Before, Since, DedupTransfers, SortByKey, Aggregated, KeySet, IsEnumeration;
    if cutoffTs == 0 {
      var windowed := SortAndDedupe(ts, 0);
      plan := BalancePlan([], [], [], windowed);
      NothingBeforeZero(ts);
      assert plan == CsvPlan(ts, 0, []);
      return;
    }
    var pre, post := Before(ts, cutoffTs), Since(ts, cutoffTs);
    var synthetic := SynthesizeFromCsv(pre, cutoffTs);
    ghost var order :| IsEnumeration(order, KeySet(pre)) && synthetic == Aggregated(pre, order, cutoffTs);
    post := SortAndDedupe(post, SaturatingSub(cutoffTs, 1));
    plan := BalancePlan([], [], synthetic, post);
    assert PossibleOrder(ts, cutoffTs, order) && plan == CsvPlan(ts, cutoffTs, order);
  }

  /** Aggregates and numbers the pre-cutoff transfers in whatever order the hash map iterates. */
  method SynthesizeFromCsv(pre: seq<Transfer>, cutoffTs: nat) returns (synthetic: seq<SyntheticTransfer>)
    ensures exists order :: IsEnumeration(order, KeySet(pre)) && synthetic == Aggregated(pre, order, cutoffTs)
  {
    var agg := Aggregate(pre);
    var keys := Enumerate(agg.Keys);
    EnumerationLength(keys, agg.Keys);
    var num := |agg|;
    var baseTs := SaturatingSub(cutoffTs, num);
    synthetic := [];
    for i := 0 to |keys|
      invariant |synthetic| == i
      invariant forall j :: 0 <= j < i ==> synthetic[j] == AggregatedAt(pre, keys[j], j, baseTs)
    {
      var key := keys[i];
      assert key in agg.Keys;
      synthetic := synthetic + [SyntheticTransfer(
        i + 1, key.debitAccountId, key.creditAccountId, agg[key], key.ledger, SYNTHETIC_CODE, baseTs + i)];
    }
    assert |agg| == |agg.Keys|;
    assert synthetic == Aggregated(pre, keys, cutoffTs);
    SortOfSorted(SyntheticTimestamp, synthetic);
    synthetic := SortByKey(SyntheticTimestamp, synthetic);
  }

  function SyntheticTimestamp(t: SyntheticTransfer): nat {
    t.timestamp
  }

  lemma {:induction false} AllSinceZero(ts: seq<Transfer>)
    ensures Before(ts, 0) == [] && Since(ts, 0) == ts
  {
    if ts != [] {
      AllSinceZero(ts[..|ts| - 1]);
      assert ts == ts[..|ts| - 1] + [ts[|ts| - 1]];
    }
  }

  lemma NothingBeforeZero(ts: seq<Transfer>)
    ensures Before(ts, 0) == [] && Since(ts, 0) == ts && PossibleOrder(ts, 0, [])
  {
    AllSinceZero(ts);
    hide Before, Since;
  }

  // ---------------------------------------------------------------------------
  // Compression does not change any total
  // ---------------------------------------------------------------------------

  function DebitOf(id: nat): Transfer -> nat {
    (t: Transfer) => if t.debitAccountId == id then t.amount else 0
  }

  function CreditOf(id: nat): Transfer -> nat {
    (t: Transfer) => if t.creditAccountId == id then t.amount else 0
  }

  lemma {:induction false} TotalsAreSums(ts: seq<Transfer>, id: nat)
    ensures Debits(ts, id) == SumBy(DebitOf(id), ts) && Credits(ts, id) == SumBy(CreditOf(id), ts)
  {
    if ts != [] {
      TotalsAreSums(ts[..|ts| - 1], id);
    }
  }

  lemma {:induction false} TotalsSplit(ts: seq<Transfer>, cutoffTs: nat, id: nat)
    ensures Debits(Before(ts, cutoffTs), id) + Debits(Since(ts, cutoffTs), id) == Debits(ts, id)
    ensures Credits(Before(ts, cutoffTs), id) + Credits(Since(ts, cutoffTs), id) == Credits(ts, id)
  {
    if ts != [] {
      var init, t := ts[..|ts| - 1], ts[|ts| - 1];
      TotalsSplit(init, cutoffTs, id);
      OneMore(Before(init, cutoffTs), t, id);
      OneMore(Since(init, cutoffTs), t, id);
    }
  }

  lemma OneMore(ts: seq<Transfer>, t: Transfer, id: nat)
    ensures Debits(ts + [t], id) == Debits(ts, id) + DebitOf(id)(t)
    ensures Credits(ts + [t], id) == Credits(ts, id) + CreditOf(id)(t)
    ensures Debits(ts + [], id) == Debits(ts, id) && Credits(ts + [], id) == Credits(ts, id)
  {
    assert (ts + [t])[..|ts|] == ts && ts + [] == ts;
  }

  lemma {:induction false} DedupKeepsTotals(ts: seq<Transfer>, start: nat, id: nat)
    ensures Debits(DedupTransfers(ts, start), id) == Debits(ts, id)
    ensures Credits(DedupTransfers(ts, start), id) == Credits(ts, id)
  {
    if ts != [] {
      var init := ts[..|ts| - 1];
      DedupKeepsTotals(init, start, id);
      var r := DedupTransfers(ts, start);
      assert r[..|r| - 1] == DedupTransfers(init, start);
    }
  }

  lemma SortKeepsTotals(ts: seq<Transfer>, id: nat)
    ensures Debits(SortByKey(TransferTimestamp, ts), id) == Debits(ts, id)
    ensures Credits(SortByKey(TransferTimestamp, ts), id) == Credits(ts, id)
  {
    var sorted := SortByKey(TransferTimestamp, ts);
    SortPermutes(TransferTimestamp, ts);
    TotalsAreSums(ts, id);
    TotalsAreSums(sorted, id);
    SumByPermutation(DebitOf(id), sorted, ts);
    SumByPermutation(CreditOf(id), sorted, ts);
  }

  /** Sorting, bumping timestamps and adding the imported flag leave every total alone. */
  lemma ReplayTotals(ts: seq<Transfer>, start: nat, id: nat)
    ensures var r := ConvertWindowedTransfers(DedupTransfers(SortByKey(TransferTimestamp, ts), start));
            Debits(r, id) == Debits(ts, id) && Credits(r, id) == Credits(ts, id)
  {
    var sorted := SortByKey(TransferTimestamp, ts);
    SortKeepsTotals(ts, id);
    DedupKeepsTotals(sorted, start, id);
    ConvertedTotals(DedupTransfers(sorted, start), id);
  }

  /** What the keys of one debit (or credit) account add up to. */
  function KeyDebit(ts: seq<Transfer>, id: nat): Key -> nat {
    (k: Key) => if k.debitAccountId == id then AmountFor(ts, k) else 0
  }

  function KeyCredit(ts: seq<Transfer>, id: nat): Key -> nat {
    (k: Key) => if k.creditAccountId == id then AmountFor(ts, k) else 0
  }

  /** Adding up by key, over any list of distinct keys that covers `ts`, loses nothing. */
  lemma {:induction false} KeysCoverTotals(ts: seq<Transfer>, order: seq<Key>, id: nat)
    requires Distinct(order) && forall t <- ts :: KeyOf(t) in order
    ensures SumBy(KeyDebit(ts, id), order) == Debits(ts, id)
    ensures SumBy(KeyCredit(ts, id), order) == Credits(ts, id)
  {
    if ts == [] {
      SumByZero(KeyDebit(ts, id), order);
      SumByZero(KeyCredit(ts, id), order);
    } else {
      var init, t := ts[..|ts| - 1], ts[|ts| - 1];
      assert ts == init + [t];
      KeysCoverTotals(init, order, id);
      assert t in ts;
      var j :| 0 <= j < |order| && order[j] == KeyOf(t);
      SumByRaised(KeyDebit(init, id), KeyDebit(ts, id), order, j, DebitOf(id)(t));
      SumByRaised(KeyCredit(init, id), KeyCredit(ts, id), order, j, CreditOf(id)(t));
    }
  }

  lemma {:induction false} AggregatedTotals(pre: seq<Transfer>, keys: seq<Key>, r: seq<SyntheticTransfer>, id: nat)
    requires |r| == |keys|
    requires forall i :: 0 <= i < |r| ==>
               && r[i].debitAccountId == keys[i].debitAccountId && r[i].creditAccountId == keys[i].creditAccountId
               && r[i].amount == AmountFor(pre, keys[i])
    ensures Debits(ConvertTransfers(r), id) == SumBy(KeyDebit(pre, id), keys)
    ensures Credits(ConvertTransfers(r), id) == SumBy(KeyCredit(pre, id), keys)
  {
    if r != [] {
      var init := r[..|r| - 1];
      AggregatedTotals(pre, keys[..|keys| - 1], init, id);
      assert ConvertTransfers(r)[..|r| - 1] == ConvertTransfers(init);
    }
  }

  /** The transfers a CSV plan submits. */
  function PlanTransfers(plan: BalancePlan): seq<Transfer> {
    ConvertTransfers(plan.syntheticTransfers) + ConvertWindowedTransfers(plan.windowedTransfers)
  }

  /** For every cutoff and every hash-map order, each account's totals are those of the CSV transfers. */
  lemma CompressionKeepsTotals(ts: seq<Transfer>, cutoffTs: nat, order: seq<Key>, id: nat)
    requires PossibleOrder(ts, cutoffTs, order)
    ensures Debits(PlanTransfers(CsvPlan(ts, cutoffTs, order)), id) == Debits(ts, id)
    ensures Credits(PlanTransfers(CsvPlan(ts, cutoffTs, order)), id) == Credits(ts, id)
  {
    hide Debits, Credits, SortByKey, DedupTransfers, Before, Since, Aggregated, ConvertTransfers,
         ConvertWindowedTransfers;
    var plan := CsvPlan(ts, cutoffTs, order);
    TotalsAppend(ConvertTransfers(plan.syntheticTransfers), ConvertWindowedTransfers(plan.windowedTransfers), id);
    if cutoffTs == 0 {
      ReplayTotals(ts, 0, id);
      NoTotals(id);
      assert ConvertTransfers(plan.syntheticTransfers) == [];
    } else {
      TotalsSplit(ts, cutoffTs, id);
      ReplayTotals(Since(ts, cutoffTs), cutoffTs - 1, id);
      CompressedTotals(Before(ts, cutoffTs), cutoffTs, order, id);
    }
  }

  lemma NoTotals(id: nat)
    ensures Debits([], id) == 0 && Credits([], id) == 0
  {
  }

  lemma CompressedTotals(pre: seq<Transfer>, cutoffTs: nat, order: seq<Key>, id: nat)
    requires IsEnumeration(order, KeySet(pre))
    ensures Debits(ConvertTransfers(Aggregated(pre, order, cutoffTs)), id) == Debits(pre, id)
    ensures Credits(ConvertTransfers(Aggregated(pre, order, cutoffTs)), id) == Credits(pre, id)
  {
    AggregatedTotals(pre, order, Aggregated(pre, order, cutoffTs), id);
    forall t <- pre
      ensures KeyOf(t) in order
    {
      assert KeyOf(t) in KeySet(pre);
    }
    KeysCoverTotals(pre, order, id);
  }

  /** The transfers of a CSV plan before the importer converts them. */
  function PlannedTransfers(plan: BalancePlan): seq<Transfer> {
    ConvertTransfers(plan.syntheticTransfers) + plan.windowedTransfers
  }

  lemma PlannedConvert(plan: BalancePlan)
    ensures ConvertWindowedTransfers(PlannedTransfers(plan)) == PlanTransfers(plan)
  {
    var synthetic := ConvertTransfers(plan.syntheticTransfers);
    PlainFlagsIff(TRANSFER_IMPORTED);
    forall i | 0 <= i < |synthetic|
      ensures ConvertWindowedTransfer(synthetic[i]) == synthetic[i]
    {
    }
  }

  /**
    On a cluster that is described by `c`, a CSV plan is accepted exactly under the import rules, and then
    adds to every account its totals in the CSV transfers, whatever the cutoff and the hash-map order; the
    transfers since the cutoff are posted last, in every field but their timestamps as they were.
   */
  lemma CsvPlanAcceptedIff(s: Ledger, c: Cluster, ts: seq<Transfer>, cutoffTs: nat, order: seq<Key>)
    requires PossibleOrder(ts, cutoffTs, order) && c.Describes(s)
    ensures var plan := CsvPlan(ts, cutoffTs, order);
            var r := Run(s, TransferEvents(PlanTransfers(plan)));
            && (r.Ok? <==> TransfersImportable(c, PlannedTransfers(plan)))
            && (r.Ok? ==> r.value.accounts == WithTotals(s, ts) && Replayed(r.value, WindowedPart(ts, cutoffTs)))
  {
    hide Run, AllAcceptable, CsvPlan, PlanTransfers, PlannedTransfers, TransfersImportable, Replayed, WindowedPart;
    var events := PlanTransfers(CsvPlan(ts, cutoffTs, order));
    WindowReplayed(s, ts, cutoffTs, order);
    PlannedConvert(CsvPlan(ts, cutoffTs, order));
    TransfersImportableIff(c, s, PlannedTransfers(CsvPlan(ts, cutoffTs, order)));
    TransfersAcceptedIff(s, events);
    forall id
      ensures Debits(events, id) == Debits(ts, id) && Credits(events, id) == Credits(ts, id)
    {
      CompressionKeepsTotals(ts, cutoffTs, order, id);
    }
  }

  lemma WindowReplayed(s: Ledger, ts: seq<Transfer>, cutoffTs: nat, order: seq<Key>)
    ensures Replayed(After(s, PlanTransfers(CsvPlan(ts, cutoffTs, order))), WindowedPart(ts, cutoffTs))
  {
    hide Before, Since, Replayed, After, Aggregated, WindowedPart;
    var plan := CsvPlan(ts, cutoffTs, order);
    ReplayedAfter(s, ConvertTransfers(plan.syntheticTransfers), plan.windowedTransfers);
  }

  /** The accounts with what the transfers move added to their balances. */
  function WithTotals(s: Ledger, ts: seq<Transfer>): map<nat, Balance> {
    map id <- s.accounts ::
      s.accounts[id].(debits := s.accounts[id].debits + Debits(ts, id),
                      credits := s.accounts[id].credits + Credits(ts, id))
  }

  // ---------------------------------------------------------------------------
  // Timestamps and counts
  // ---------------------------------------------------------------------------

  /**
    Synthetic timestamps are consecutive, distinct and end just below the cutoff exactly when there
    are fewer keys than the cutoff; otherwise the first of them is 0, which no ledger accepts.
   */
  lemma SyntheticWindowIff(ts: seq<Transfer>, cutoffTs: nat, order: seq<Key>)
    requires cutoffTs > 0 && order != []
    ensures var r := CsvPlan(ts, cutoffTs, order).syntheticTransfers;
            && |r| == |order|
            && (|order| < cutoffTs <==> forall i :: 0 <= i < |r| ==> 0 < r[i].timestamp < cutoffTs)
            && (|order| < cutoffTs ==> forall i :: 0 <= i < |r| ==> r[i].timestamp == cutoffTs - |order| + i)
            && (|order| >= cutoffTs ==> r[0].timestamp == 0)
            && (forall i :: 0 <= i < |r| ==> r[i].id == i + 1 && r[i].code == 999)
  {
    var r := CsvPlan(ts, cutoffTs, order).syntheticTransfers;
    assert r[0] == AggregatedAt(Before(ts, cutoffTs), order[0], 0, BaseTimestamp(cutoffTs, |order|));
  }

  /** Windowed timestamps are strictly increasing and not before the cutoff. */
  lemma WindowedAfterCutoff(ts: seq<Transfer>, cutoffTs: nat, order: seq<Key>)
    ensures var r := CsvPlan(ts, cutoffTs, order).windowedTransfers;
            && (forall i :: 0 <= i < |r| ==> r[i].timestamp >= cutoffTs && r[i].timestamp > 0)
            && (forall i, j :: 0 <= i < j < |r| ==> r[i].timestamp < r[j].timestamp)
  {
    hide SortByKey, Before, Since, DedupTransfers, DedupAt, Aggregated;
    var source := SortByKey(TransferTimestamp, if cutoffTs == 0 then ts else Since(ts, cutoffTs));
    var start := if cutoffTs == 0 then 0 else cutoffTs - 1;
    var r := CsvPlan(ts, cutoffTs, order).windowedTransfers;
    DedupIsLeast(TransferTimestamps(source), start);
    forall i | 0 <= i < |r|
      ensures r[i].timestamp == Dedup(TransferTimestamps(source), start)[i]
    {
      DedupTransfersAt(source, start, i);
    }
  }

  /** Transfers since the cutoff with different timestamps are replayed with the timestamps they have. */
  lemma WindowedUnchanged(ts: seq<Transfer>, cutoffTs: nat)
    requires cutoffTs > 0 && DistinctBy(TransferTimestamp, Since(ts, cutoffTs))
    ensures WindowedPart(ts, cutoffTs) == SortByKey(TransferTimestamp, Since(ts, cutoffTs))
  {
    hide SortByKey, DedupTransfers, DedupAt, Since, SortedBy, DistinctBy;
    var since := Since(ts, cutoffTs);
    var sorted := SortByKey(TransferTimestamp, since);
    SortedDistinctKeysStrict(TransferTimestamp, since);
    SortKeepsElements(TransferTimestamp, since);
    var stamps := TransferTimestamps(sorted);
    forall i | 0 <= i < |sorted|
      ensures stamps[i] > cutoffTs - 1
    {
      assert sorted[i] in sorted;
      var k :| 0 <= k < |since| && since[k] == sorted[i];
    }
    assert forall i :: 0 <= i < |sorted| ==> stamps[i] == TransferTimestamp(sorted[i]);
    DedupIdentityIff(stamps, cutoffTs - 1);
    forall i | 0 <= i < |sorted|
      ensures DedupTransfers(sorted, cutoffTs - 1)[i] == sorted[i]
    {
      DedupTransfersAt(sorted, cutoffTs - 1, i);
      assert Dedup(stamps, cutoffTs - 1)[i] == stamps[i];
    }
  }

  datatype CsvCounts = CsvCounts(total: nat, preCutoff: nat, synthetic: nat, windowed: nat)

  /** The pre-flight report; `None` when nothing was uploaded. */
  method PlanCsvMigration(cached: seq<Transfer>, cutoffTs: nat) returns (r: Option<CsvCounts>)
    ensures r.None? <==> cached == []
    ensures r.Some? ==> forall order :: PossibleOrder(cached, cutoffTs, order) ==>
              var plan := CsvPlan(cached, cutoffTs, order);
              && r.value.synthetic == |plan.syntheticTransfers| && r.value.windowed == |plan.windowedTransfers|
              && r.value.total == |cached| == r.value.preCutoff + r.value.windowed
  {
    if cached == [] {
      return None;
    }
    var total := |cached|;
    var pre, post := 0, total;
    assert |Since(cached, cutoffTs)| + |Before(cached, cutoffTs)| == total;
    if cutoffTs > 0 {
      pre := |Before(cached, cutoffTs)|;
      post := total - pre;
    }
    var synthetic := 0;
    if cutoffTs > 0 {
      var keys: set<Key> := {};
      var early := Before(cached, cutoffTs);
      for i := 0 to |early|
        invariant keys == KeySet(early[..i])
      {
        assert early[..i + 1] == early[..i] + [early[i]];
        keys := keys + {KeyOf(early[i])};
      }
      assert early[..|early|] == early;
      synthetic := |keys|;
    }
    forall order | PossibleOrder(cached, cutoffTs, order)
      ensures cutoffTs > 0 ==> |order| == synthetic
    {
      EnumerationLength(order, KeySet(Before(cached, cutoffTs)));
    }
    return Some(CsvCounts(total, pre, synthetic, post));
  }
}
