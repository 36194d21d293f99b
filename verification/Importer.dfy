/** Submitting a balance plan to a cluster: four phases, in batches, with progress reports. */
module Importers {
  import opened Wrappers
  import opened Bits
  import opened Records
  import opened Ledgers
  import opened Plans

  const BATCH_SIZE: nat := 8000

  // ---------------------------------------------------------------------------
  // Conversion to client events
  // ---------------------------------------------------------------------------

  /** The flags of an imported account: the original ones, with `imported` set. */
  function ConvertAccountFlags(raw: nat): nat {
    ACCOUNT_IMPORTED
    + (if AccountLinked(raw) then 1 else 0)
    + (if DebitsMustNotExceedCredits(raw) then 2 else 0)
    + (if CreditsMustNotExceedDebits(raw) then 4 else 0)
    + (if History(raw) then 8 else 0)
    + (if Closed(raw) then 32 else 0)
  }

  /** Conversion sets `imported`, keeps the five other flags, and adds no other bit. */
  lemma AccountFlagsPreserved(raw: nat)
    ensures var c := ConvertAccountFlags(raw);
            && AccountImported(c)
            && (AccountLinked(c) <==> AccountLinked(raw))
            && (DebitsMustNotExceedCredits(c) <==> DebitsMustNotExceedCredits(raw))
            && (CreditsMustNotExceedDebits(c) <==> CreditsMustNotExceedDebits(raw))
            && (History(c) <==> History(raw))
            && (Closed(c) <==> Closed(raw))
            && c < 64
            && c == raw % 16 + 16 + 32 * (raw / 32 % 2)
  {
    LowFourBits(raw);
    SixBits(Bit(AccountLinked(raw)), Bit(DebitsMustNotExceedCredits(raw)), Bit(CreditsMustNotExceedDebits(raw)),
            Bit(History(raw)), 1, Bit(Closed(raw)));
  }

  function Bit(b: bool): nat {
    if b then 1 else 0
  }

  function ConvertAccount(a: Account): Account {
    Account(a.id, 0, 0, 0, 0, a.userData128, a.userData64, a.userData32, 0,
            a.ledger, a.code, ConvertAccountFlags(a.flags), a.timestamp)
  }

  function ConvertTransfer(t: SyntheticTransfer): Transfer {
    Transfer(t.id, t.debitAccountId, t.creditAccountId, t.amount, 0, 0, 0, 0, 0,
             t.ledger, t.code, TRANSFER_IMPORTED, t.timestamp)
  }

  function ConvertWindowedFlags(raw: nat): nat {
    TRANSFER_IMPORTED
    + (if TransferLinked(raw) then 1 else 0)
    + (if Pending(raw) then 2 else 0)
    + (if PostPendingTransfer(raw) then 4 else 0)
    + (if VoidPendingTransfer(raw) then 8 else 0)
    + (if BalancingDebit(raw) then 16 else 0)
    + (if BalancingCredit(raw) then 32 else 0)
    + (if ClosingDebit(raw) then 64 else 0)
    + (if ClosingCredit(raw) then 128 else 0)
  }

  function ConvertWindowedTransfer(t: Transfer): Transfer {
    t.(flags := ConvertWindowedFlags(t.flags))
  }

  function ConvertAccounts(accounts: seq<Account>): (r: seq<Account>)
    ensures |r| == |accounts|
    ensures forall i :: 0 <= i < |r| ==> r[i] == ConvertAccount(accounts[i])
  {
    seq(|accounts|, i requires 0 <= i < |accounts| => ConvertAccount(accounts[i]))
  }

  function ConvertTransfers(ts: seq<SyntheticTransfer>): (r: seq<Transfer>)
    ensures |r| == |ts|
    ensures forall i :: 0 <= i < |r| ==> r[i] == ConvertTransfer(ts[i])
  {
    seq(|ts|, i requires 0 <= i < |ts| => ConvertTransfer(ts[i]))
  }

  function ConvertWindowedTransfers(ts: seq<Transfer>): (r: seq<Transfer>)
    ensures |r| == |ts|
    ensures forall i :: 0 <= i < |r| ==> r[i] == ConvertWindowedTransfer(ts[i])
  {
    seq(|ts|, i requires 0 <= i < |ts| => ConvertWindowedTransfer(ts[i]))
  }

  lemma LowByteKept(raw: nat)
    ensures ConvertWindowedFlags(raw) == 256 + raw % 256
  {
    LowBits(raw);
    KindBits(raw);
    hide TransferLinked, Pending, PostPendingTransfer, VoidPendingTransfer, BalancingDebit, BalancingCredit, ClosingDebit,
         ClosingCredit;
  }

  lemma KindBits(raw: nat)
    ensures Bit(TransferLinked(raw)) == raw % 2 && Bit(Pending(raw)) == raw / 2 % 2
    ensures Bit(PostPendingTransfer(raw)) == raw / 4 % 2 && Bit(VoidPendingTransfer(raw)) == raw / 8 % 2
    ensures Bit(BalancingDebit(raw)) == raw / 16 % 2 && Bit(BalancingCredit(raw)) == raw / 32 % 2
    ensures Bit(ClosingDebit(raw)) == raw / 64 % 2 && Bit(ClosingCredit(raw)) == raw / 128 % 2
  {
  }

  /** Conversion sets `imported`, keeps each of the eight kinds of a transfer, and adds no other bit. */
  lemma TransferFlagsPreserved(raw: nat)
    ensures var c := ConvertWindowedFlags(raw);
            && TransferImported(c) && c == 256 + raw % 256
            && (TransferLinked(c) <==> TransferLinked(raw)) && (Pending(c) <==> Pending(raw))
            && (PostPendingTransfer(c) <==> PostPendingTransfer(raw))
            && (VoidPendingTransfer(c) <==> VoidPendingTransfer(raw))
            && (BalancingDebit(c) <==> BalancingDebit(raw)) && (BalancingCredit(c) <==> BalancingCredit(raw))
            && (ClosingDebit(c) <==> ClosingDebit(raw)) && (ClosingCredit(c) <==> ClosingCredit(raw))
  {
    LowByteKept(raw);
    hide TransferImported, TransferLinked, Pending, PostPendingTransfer, VoidPendingTransfer, BalancingDebit,
         BalancingCredit, ClosingDebit, ClosingCredit;
    KindsOf(Bit(TransferLinked(raw)), Bit(Pending(raw)), Bit(PostPendingTransfer(raw)), Bit(VoidPendingTransfer(raw)),
            Bit(BalancingDebit(raw)), Bit(BalancingCredit(raw)), Bit(ClosingDebit(raw)), Bit(ClosingCredit(raw)));
  }

  lemma KindsOf(b0: nat, b1: nat, b2: nat, b3: nat, b4: nat, b5: nat, b6: nat, b7: nat)
    requires b0 < 2 && b1 < 2 && b2 < 2 && b3 < 2 && b4 < 2 && b5 < 2 && b6 < 2 && b7 < 2
    ensures var c := 256 + b0 + 2 * b1 + 4 * b2 + 8 * b3 + 16 * b4 + 32 * b5 + 64 * b6 + 128 * b7;
            && TransferImported(c) && (TransferLinked(c) <==> b0 == 1) && (Pending(c) <==> b1 == 1)
            && (PostPendingTransfer(c) <==> b2 == 1) && (VoidPendingTransfer(c) <==> b3 == 1)
            && (BalancingDebit(c) <==> b4 == 1) && (BalancingCredit(c) <==> b5 == 1)
            && (ClosingDebit(c) <==> b6 == 1) && (ClosingCredit(c) <==> b7 == 1)
  {
    NineBits(b0, b1, b2, b3, b4, b5, b6, b7);
  }

  /**
    What conversion carries over: of an account everything but its balances and the reserved word, which the
    ledger wants zero; of a windowed transfer everything; a synthetic transfer has no user data and no kind.
   */
  lemma ConversionKeepsFields(a: Account, t: Transfer, s: SyntheticTransfer)
    ensures var c := ConvertAccount(a);
            && a == c.(debitsPending := a.debitsPending, debitsPosted := a.debitsPosted,
                       creditsPending := a.creditsPending, creditsPosted := a.creditsPosted,
                       reserved := a.reserved, flags := a.flags)
            && c.debitsPending == c.debitsPosted == c.creditsPending == c.creditsPosted == c.reserved == 0
    ensures ConvertWindowedTransfer(t).(flags := t.flags) == t
    ensures var c := ConvertTransfer(s);
            && SyntheticTransfer(c.id, c.debitAccountId, c.creditAccountId, c.amount, c.ledger, c.code, c.timestamp)
               == s
            && c.pendingId == c.userData128 == c.userData64 == c.userData32 == c.timeout == 0 && c.flags == 256
  {
  }

  /** The last transfers posted are these, in order and in every field but the flags, which say `imported`. */
  predicate Replayed(s: Ledger, windowed: seq<Transfer>) {
    && |windowed| <= |s.posted|
    && forall k :: 0 <= k < |windowed| ==>
         var p := s.posted[|s.posted| - |windowed| + k];
         p.(flags := windowed[k].flags) == windowed[k] && TransferImported(p.flags)
  }

  lemma ReplayedAfter(s: Ledger, before: seq<Transfer>, windowed: seq<Transfer>)
    ensures Replayed(After(s, before + ConvertWindowedTransfers(windowed)), windowed)
  {
    hide ConvertWindowedFlags, TransferImported, Debits, Credits;
    var posted := s.posted + (before + ConvertWindowedTransfers(windowed));
    forall k | 0 <= k < |windowed|
      ensures var p := posted[|posted| - |windowed| + k];
              p.(flags := windowed[k].flags) == windowed[k] && TransferImported(p.flags)
    {
      assert posted[|posted| - |windowed| + k] == ConvertWindowedTransfer(windowed[k]);
      TransferFlagsPreserved(windowed[k].flags);
    }
  }

  lemma {:induction false} ConvertedTotals(ts: seq<Transfer>, id: nat)
    ensures Debits(ConvertWindowedTransfers(ts), id) == Debits(ts, id)
    ensures Credits(ConvertWindowedTransfers(ts), id) == Credits(ts, id)
  {
    if ts != [] {
      var init := ts[..|ts| - 1];
      ConvertedTotals(init, id);
      assert ConvertWindowedTransfers(ts)[..|ts| - 1] == ConvertWindowedTransfers(init);
    }
  }

  // ---------------------------------------------------------------------------
  // Phases and batches
  // ---------------------------------------------------------------------------

  datatype Phase = Phase(name: string, events: seq<Event>)

  datatype ImportProgress = ImportProgress(phase: string, imported: nat, total: nat)

  function Phases(plan: BalancePlan): seq<Phase> {
    [Phase("genesis_accounts", AccountEvents(ConvertAccounts(plan.genesisAccounts))),
     Phase("accounts", AccountEvents(ConvertAccounts(plan.regularAccounts))),
     Phase("synthetic_transfers", TransferEvents(ConvertTransfers(plan.syntheticTransfers))),
     Phase("windowed_transfers", TransferEvents(ConvertWindowedTransfers(plan.windowedTransfers)))]
  }

  /** The names under which the phases report, and whose records each of them sends. */
  lemma PhasesAre(plan: BalancePlan)
    ensures var r := Phases(plan);
            && |r| == 4 && r[0].name == "genesis_accounts" && |r[0].events| == |plan.genesisAccounts|
            && r[1].name == "accounts" && |r[1].events| == |plan.regularAccounts|
            && r[2].name == "synthetic_transfers" && |r[2].events| == |plan.syntheticTransfers|
            && r[3].name == "windowed_transfers" && |r[3].events| == |plan.windowedTransfers|
  {
  }

  /** How many of `n` records the first `k` batches hold. */
  function Cut(n: nat, k: nat): (c: nat)
    ensures c <= n
  {
    if BATCH_SIZE * k < n then BATCH_SIZE * k else n
  }

  function BatchCount(n: nat): nat {
    (n + BATCH_SIZE - 1) / BATCH_SIZE
  }

  function Chunk(events: seq<Event>, k: nat): seq<Event>
    requires k < BatchCount(|events|)
  {
    events[Cut(|events|, k)..Cut(|events|, k + 1)]
  }

  /** Consecutive slices of `BATCH_SIZE` events, the last one possibly shorter. */
  function Chunks(events: seq<Event>): (r: seq<seq<Event>>)
    ensures |r| == BatchCount(|events|)
    ensures forall k :: 0 <= k < |r| ==> r[k] == Chunk(events, k)
  {
    seq(BatchCount(|events|), k requires 0 <= k < BatchCount(|events|) => Chunk(events, k))
  }

  function PhaseProgress(phase: Phase): (r: seq<ImportProgress>)
    ensures |r| == BatchCount(|phase.events|)
    ensures forall k :: 0 <= k < |r| ==>
              r[k] == ImportProgress(phase.name, Cut(|phase.events|, k + 1), |phase.events|)
  {
    seq(BatchCount(|phase.events|), k requires 0 <= k < BatchCount(|phase.events|) =>
      ImportProgress(phase.name, Cut(|phase.events|, k + 1), |phase.events|))
  }

  function AllEvents(phases: seq<Phase>): seq<Event> {
    if phases == [] then [] else AllEvents(phases[..|phases| - 1]) + phases[|phases| - 1].events
  }

  function AllBatches(phases: seq<Phase>): seq<seq<Event>> {
    if phases == [] then [] else AllBatches(phases[..|phases| - 1]) + Chunks(phases[|phases| - 1].events)
  }

  function AllProgress(phases: seq<Phase>): (r: seq<ImportProgress>)
    ensures |r| == |AllBatches(phases)|
  {
    if phases == [] then [] else AllProgress(phases[..|phases| - 1]) + PhaseProgress(phases[|phases| - 1])
  }

  function Flatten(batches: seq<seq<Event>>): seq<Event> {
    if batches == [] then [] else Flatten(batches[..|batches| - 1]) + batches[|batches| - 1]
  }

  lemma {:induction false} FlattenAppend(a: seq<seq<Event>>, b: seq<seq<Event>>)
    ensures Flatten(a + b) == Flatten(a) + Flatten(b)
  {
    if b == [] {
      assert a + b == a;
    } else {
      assert (a + b)[..|a + b| - 1] == a + b[..|b| - 1];
      FlattenAppend(a, b[..|b| - 1]);
    }
  }

  lemma {:induction false} FlattenChunks(events: seq<Event>, k: nat)
    requires k <= BatchCount(|events|)
    ensures Flatten(Chunks(events)[..k]) == events[..Cut(|events|, k)]
  {
    if k > 0 {
      FlattenChunks(events, k - 1);
      assert Chunks(events)[..k][..k - 1] == Chunks(events)[..k - 1];
    }
  }

  lemma {:induction false} FlattenAllBatches(phases: seq<Phase>)
    ensures Flatten(AllBatches(phases)) == AllEvents(phases)
  {
    if phases != [] {
      var init, last := phases[..|phases| - 1], phases[|phases| - 1];
      FlattenAllBatches(init);
      FlattenChunks(last.events, BatchCount(|last.events|));
      assert Chunks(last.events)[..BatchCount(|last.events|)] == Chunks(last.events);
      FlattenAppend(AllBatches(init), Chunks(last.events));
    }
  }

  /** `b` is a nonempty slice of at most 8000 events of one phase. */
  ghost predicate WithinOnePhase(b: seq<Event>, phases: seq<Phase>) {
    && 0 < |b| <= 8000
    && exists p, lo, hi :: 0 <= p < |phases| && 0 <= lo <= hi <= |phases[p].events| && b == phases[p].events[lo..hi]
  }

  lemma {:induction false} BatchesWithinPhases(phases: seq<Phase>)
    ensures forall k :: 0 <= k < |AllBatches(phases)| ==> WithinOnePhase(AllBatches(phases)[k], phases)
  {
    if phases != [] {
      var init, last := phases[..|phases| - 1], phases[|phases| - 1];
      var early := AllBatches(init);
      BatchesWithinPhases(init);
      forall k | 0 <= k < |AllBatches(phases)|
        ensures WithinOnePhase(AllBatches(phases)[k], phases)
      {
        if k < |early| {
          var b := early[k];
          assert WithinOnePhase(b, init);
          var p, lo, hi :| 0 <= p < |init| && 0 <= lo <= hi <= |init[p].events| && b == init[p].events[lo..hi];
          assert phases[p] == init[p];
        } else {
          var j := k - |early|;
          assert AllBatches(phases)[k] == Chunk(last.events, j)
                 == phases[|phases| - 1].events[Cut(|last.events|, j)..Cut(|last.events|, j + 1)];
        }
      }
    }
  }

  /**
    The batches, taken together, are the whole event list in order, so any number of leading batches
    is a prefix of it; every batch is nonempty, at most 8000 long and inside one phase.
   */
  lemma BatchesTileTheEvents(phases: seq<Phase>, k: nat)
    requires k <= |AllBatches(phases)|
    ensures Flatten(AllBatches(phases)[..k]) <= AllEvents(phases)
    ensures k == |AllBatches(phases)| ==> Flatten(AllBatches(phases)[..k]) == AllEvents(phases)
    ensures k < |AllBatches(phases)| ==> WithinOnePhase(AllBatches(phases)[k], phases)
  {
    hide *;
    BatchesWithinPhases(phases);
    var all := AllBatches(phases);
    FlattenAllBatches(phases);
    FlattenAppend(all[..k], all[k..]);
    assert all == all[..k] + all[k..] && all[..|all|] == all;
  }

  /** Only the last batch of a phase may be shorter than 8000. */
  lemma BatchesAreFull(events: seq<Event>, k: nat)
    requires k + 1 < |Chunks(events)|
    ensures |Chunks(events)[k]| == 8000
  {
  }

  /** Within a phase the reported counts strictly increase, count the records sent, and end at the total. */
  lemma ProgressCountsRecords(phase: Phase)
    ensures var r := PhaseProgress(phase);
            && |r| == |Chunks(phase.events)|
            && (forall k :: 0 <= k < |r| ==> r[k].imported == |Flatten(Chunks(phase.events)[..k + 1])|)
            && (forall k :: 0 <= k < |r| ==> r[k].phase == phase.name && r[k].total == |phase.events|)
            && (forall j, k :: 0 <= j < k < |r| ==> r[j].imported < r[k].imported)
            && (|phase.events| > 0 ==> |r| > 0 && r[|r| - 1].imported == r[|r| - 1].total == |phase.events|)
  {
    var r := PhaseProgress(phase);
    forall k | 0 <= k < |r|
      ensures r[k].imported == |Flatten(Chunks(phase.events)[..k + 1])|
    {
      FlattenChunks(phase.events, k + 1);
    }
  }

  // ---------------------------------------------------------------------------
  // The cluster's side of a request
  // ---------------------------------------------------------------------------

  datatype Failure = Failure(index: nat, code: Rejection)

  /** What the network does with a request: it may be lost, or only its reply may be. */
  datatype Delivery = Delivered | RequestLost | ReplyLost

  /** Unlinked events succeed or fail one by one; the failures are reported by index. */
  function ApplyAll(s: Ledger, batch: seq<Event>): (Ledger, seq<Failure>) {
    if batch == [] then (s, [])
    else
      var (s', failures) := ApplyAll(s, batch[..|batch| - 1]);
      match Apply(s', batch[|batch| - 1])
      case Ok(s'') => (s'', failures)
      case Err(code) => (s', failures + [Failure(|batch| - 1, code)])
  }

  /** A batch reports no failure exactly when the run through it is accepted. */
  lemma {:induction false} NoFailuresIff(s: Ledger, batch: seq<Event>)
    ensures ApplyAll(s, batch).1 == [] <==> Run(s, batch).Ok?
    ensures ApplyAll(s, batch).1 == [] ==> ApplyAll(s, batch).0 == Run(s, batch).value
  {
    if batch != [] {
      NoFailuresIff(s, batch[..|batch| - 1]);
    }
  }

  datatype ImportError = ClientError | CreationFailed(count: nat)

  type Network = nat -> Delivery // what happens to the n-th request

  /** The client's view of an import: cluster state, batches sent, progress reported, no failure yet. */
  datatype ImportState = ImportState(ledger: Ledger, sent: seq<seq<Event>>, progress: seq<ImportProgress>, ok: bool)

  /** Sends one batch and, if nothing failed, reports `report`. */
  function SendBatch(net: Network, c: ImportState, batch: seq<Event>, report: ImportProgress): ImportState {
    var (after, failures) := ApplyAll(c.ledger, batch);
    var outcome := net(|c.sent|);
    var ok := outcome == Delivered && failures == [];
    ImportState(if outcome == RequestLost then c.ledger else after, c.sent + [batch],
                if ok then c.progress + [report] else c.progress, ok)
  }

  /** Sends the batches from `k` on, stopping at the first failure. */
  function SendFrom(net: Network, c: ImportState, batches: seq<seq<Event>>, reports: seq<ImportProgress>,
                    k: nat): ImportState
    requires k <= |batches| == |reports|
    decreases |batches| - k
  {
    if k == |batches| || !c.ok then c
    else SendFrom(net, SendBatch(net, c, batches[k], reports[k]), batches, reports, k + 1)
  }

  function SendPhases(net: Network, c: ImportState, phases: seq<Phase>, i: nat): ImportState
    requires i <= |phases|
    decreases |phases| - i
  {
    if i == |phases| || !c.ok then c
    else SendPhases(net, SendFrom(net, c, Chunks(phases[i].events), PhaseProgress(phases[i]), 0), phases, i + 1)
  }

  // ---------------------------------------------------------------------------
  // The importer
  // ---------------------------------------------------------------------------

  class Client {
    var ledger: Ledger
    var sent: seq<seq<Event>>
    const net: Network

    constructor (ledger: Ledger, net: Network)
      ensures this.ledger == ledger && this.net == net && sent == []
    {
      this.ledger, this.net, sent := ledger, net, [];
    }

    /** Sends one batch; the answer is the list of failures, or a transport error. */
    method Create(batch: seq<Event>) returns (r: Result<seq<Failure>, ImportError>)
      modifies this
      ensures sent == old(sent) + [batch]
      ensures r == (if net(|old(sent)|) == Delivered then Ok(ApplyAll(old(ledger), batch).1) else Err(ClientError))
      ensures ledger == if net(|old(sent)|) == RequestLost then old(ledger) else ApplyAll(old(ledger), batch).0
    {
      var outcome := net(|sent|);
      sent := sent + [batch];
      var (after, failures) := ApplyAll(ledger, batch);
      if outcome != RequestLost {
        ledger := after;
      }
      r := if outcome == Delivered then Ok(failures) else Err(ClientError);
    }
  }

  class Importer {
    const client: Client
    var progress: seq<ImportProgress>

    constructor (client: Client)
      ensures this.client == client && progress == []
    {
      this.client, progress := client, [];
    }

    ghost function State(ok: bool): ImportState
      reads this, client
    {
      ImportState(client.ledger, client.sent, progress, ok)
    }

    /** Sends one chunk; any reported failure fails it, otherwise `report` is sent to the caller. */
    method SendChunk(chunk: seq<Event>, report: ImportProgress) returns (r: Result<(), ImportError>)
      modifies this, client
      ensures State(r.Ok?) == SendBatch(client.net, old(State(true)), chunk, report)
    {
      var reply := client.Create(chunk);
      if reply.Err? {
        return Err(reply.error);
      }
      if reply.value != [] {
        return Err(CreationFailed(|reply.value|));
      }
      progress := progress + [report];
      return Ok(());
    }

    /** One phase: send chunk after chunk, report after each accepted one, stop at the first failure. */
    method ImportPhase(phase: Phase) returns (r: Result<(), ImportError>)
      modifies this, client
      ensures State(r.Ok?) == SendFrom(client.net, old(State(true)), Chunks(phase.events), PhaseProgress(phase), 0)
    {
      hide SendFrom, SendBatch, BatchCount, Chunk, Cut;
      ghost var batches, reports := Chunks(phase.events), PhaseProgress(phase);
      ghost var outcome := SendFrom(client.net, State(true), batches, reports, 0);
      var imported := 0;
      ghost var k := 0;
      NoneImported(|phase.events|);
      while imported < |phase.events|
        invariant k <= |batches| && imported == Cut(|phase.events|, k)
        invariant SendFrom(client.net, State(true), batches, reports, k) == outcome
        decreases |phase.events| - imported
      {
        CutStep(|phase.events|, k);
        var next := if imported + BATCH_SIZE < |phase.events| then imported + BATCH_SIZE else |phase.events|;
        var chunk, report := phase.events[imported..next], ImportProgress(phase.name, next, |phase.events|);
        NextChunk(phase, k);
        SendFromStep(client.net, State(true), batches, reports, k);
        r := SendChunk(chunk, report);
        if r.Err? {
          return;
        }
        imported := next;
        k := k + 1;
      }
      CutStep(|phase.events|, k);
      AllSent(client.net, State(true), batches, reports);
      return Ok(());
    }

    /** All four phases in order; the first failure ends the import. */
    method ImportAllWithProgress(plan: BalancePlan) returns (r: Result<(), ImportError>)
      modifies this, client
      ensures State(r.Ok?) == SendPhases(client.net, old(State(true)), Phases(plan), 0)
    {
      var phases := Phases(plan);
      ghost var outcome := SendPhases(client.net, State(true), phases, 0);
      for i := 0 to |phases|
        invariant SendPhases(client.net, State(true), phases, i) == outcome
      {
        r := ImportPhase(phases[i]);
        if r.Err? {
          return;
        }
      }
      return Ok(());
    }
  }

  lemma SendFromStep(net: Network, c: ImportState, batches: seq<seq<Event>>, reports: seq<ImportProgress>, k: nat)
    requires c.ok && k < |batches| == |reports|
    ensures var next := SendBatch(net, c, batches[k], reports[k]);
            && SendFrom(net, c, batches, reports, k) == SendFrom(net, next, batches, reports, k + 1)
            && (!next.ok ==> SendFrom(net, c, batches, reports, k) == next)
  {
    var next := SendBatch(net, c, batches[k], reports[k]);
    assert !next.ok ==> SendFrom(net, next, batches, reports, k + 1) == next;
  }

  lemma NoneImported(n: nat)
    ensures Cut(n, 0) == 0
  {
  }

  /** Chunk `k` and the report sent after it. */
  lemma NextChunk(phase: Phase, k: nat)
    requires k < BatchCount(|phase.events|)
    ensures var n := |phase.events|;
            && Cut(n, k) <= Cut(n, k + 1)
            && Chunks(phase.events)[k] == phase.events[Cut(n, k)..Cut(n, k + 1)]
            && PhaseProgress(phase)[k] == ImportProgress(phase.name, Cut(n, k + 1), n)
  {
  }

  lemma AllSent(net: Network, c: ImportState, batches: seq<seq<Event>>, reports: seq<ImportProgress>)
    requires |batches| == |reports|
    ensures SendFrom(net, c, batches, reports, |batches|) == c
  {
  }

  lemma CutStep(n: nat, k: nat)
    requires k <= BatchCount(n)
    ensures Cut(n, k) < n <==> k < BatchCount(n)
    ensures Cut(n, k) < n ==> Cut(n, k) < Cut(n, k + 1)
    ensures Cut(n, k + 1) == if Cut(n, k) + BATCH_SIZE < n then Cut(n, k) + BATCH_SIZE else n
  {
  }

  // ---------------------------------------------------------------------------
  // What every import run does
  // ---------------------------------------------------------------------------

  ghost predicate AllDelivered(net: Network, lo: nat, hi: nat) {
    forall k: nat :: lo <= k < hi ==> net(k) == Delivered
  }

  /** `c'` is `c` after `m` accepted batches out of `batches`, and one failed batch unless it is ok. */
  ghost predicate SentPrefix(c: ImportState, c': ImportState, batches: seq<seq<Event>>, reports: seq<ImportProgress>,
                             m: nat)
    requires |batches| == |reports|
  {
    && (if c'.ok then m == |batches| else m < |batches|)
    && c'.sent == c.sent + batches[..if c'.ok then m else m + 1]
    && c'.progress == c.progress + reports[..m]
  }

  /** Sending batches from `k` submits exactly the next ones up to the first failure. */
  lemma {:induction false} SendFromSendsPrefix(net: Network, c: ImportState, batches: seq<seq<Event>>,
                                               reports: seq<ImportProgress>,
                                               c0: ImportState, k: nat) returns (m: nat)
    requires c.ok && k <= |batches| == |reports|
    requires c.sent == c0.sent + batches[..k] && c.progress == c0.progress + reports[..k]
    ensures k <= m && SentPrefix(c0, SendFrom(net, c, batches, reports, k), batches, reports, m)
    decreases |batches| - k
  {
    m := k;
    if k < |batches| {
      var next := SendBatch(net, c, batches[k], reports[k]);
      assert batches[..k + 1] == batches[..k] + [batches[k]];
      assert reports[..k + 1] == reports[..k] + [reports[k]];
      if next.ok {
        m := SendFromSendsPrefix(net, next, batches, reports, c0, k + 1);
      } else {
        assert SendFrom(net, next, batches, reports, k + 1) == next;
      }
    }
  }

  /** The import succeeds exactly when every request was delivered and the ledger accepts every event. */
  lemma {:induction false} SendFromOkIff(net: Network, c: ImportState, batches: seq<seq<Event>>,
                                         reports: seq<ImportProgress>, k: nat)
    requires c.ok && k <= |batches| == |reports|
    ensures var r := SendFrom(net, c, batches, reports, k);
            && (r.ok <==> AllDelivered(net, |c.sent|, |c.sent| + |batches| - k)
                          && Run(c.ledger, Flatten(batches[k..])).Ok?)
            && (r.ok ==> Run(c.ledger, Flatten(batches[k..])) == Ok(r.ledger))
    decreases |batches| - k
  {
    if k < |batches| {
      var b := batches[k];
      var next := SendBatch(net, c, b, reports[k]);
      NoFailuresIff(c.ledger, b);
      assert batches[k..] == [b] + batches[k + 1..];
      FlattenAppend([b], batches[k + 1..]);
      assert [b][..0] == [] && Flatten([b][..0]) == [] && Flatten([b]) == [] + b == b;
      RunAppend(c.ledger, b, Flatten(batches[k + 1..]));
      if next.ok {
        SendFromOkIff(net, next, batches, reports, k + 1);
        DeliveredSplit(net, |c.sent|, |c.sent| + |batches| - k);
      }
    } else {
      assert batches[k..] == [];
    }
  }

  lemma DeliveredSplit(net: Network, lo: nat, hi: nat)
    requires lo < hi
    ensures AllDelivered(net, lo, hi) <==> net(lo) == Delivered && AllDelivered(net, lo + 1, hi)
  {
  }

  lemma {:induction false} SendFromAppend(net: Network, c: ImportState, xs: seq<seq<Event>>, rs: seq<ImportProgress>,
                                          ys: seq<seq<Event>>, qs: seq<ImportProgress>, k: nat)
    requires k <= |xs| == |rs| && |ys| == |qs|
    ensures SendFrom(net, c, xs + ys, rs + qs, k) == SendFrom(net, SendFrom(net, c, xs, rs, k), ys, qs, 0)
    decreases |xs| - k
  {
    hide SendBatch;
    if k == |xs| {
      SendFromShift(net, c, xs, rs, ys, qs, 0);
    } else if c.ok {
      assert (xs + ys)[k] == xs[k] && (rs + qs)[k] == rs[k];
      SendFromStep(net, c, xs, rs, k);
      SendFromStep(net, c, xs + ys, rs + qs, k);
      SendFromAppend(net, SendBatch(net, c, xs[k], rs[k]), xs, rs, ys, qs, k + 1);
    }
  }

  lemma {:induction false} SendFromShift(net: Network, c: ImportState, xs: seq<seq<Event>>, rs: seq<ImportProgress>,
                                         ys: seq<seq<Event>>, qs: seq<ImportProgress>, k: nat)
    requires |xs| == |rs| && k <= |ys| == |qs|
    ensures SendFrom(net, c, xs + ys, rs + qs, |xs| + k) == SendFrom(net, c, ys, qs, k)
    decreases |ys| - k
  {
    hide SendBatch;
    if k < |ys| && c.ok {
      assert (xs + ys)[|xs| + k] == ys[k] && (rs + qs)[|xs| + k] == qs[k];
      SendFromStep(net, c, ys, qs, k);
      SendFromStep(net, c, xs + ys, rs + qs, |xs| + k);
      SendFromShift(net, SendBatch(net, c, ys[k], qs[k]), xs, rs, ys, qs, k + 1);
    }
  }

  /** Phase by phase is the same as one pass over all batches. */
  lemma {:induction false} PhasesAreOnePass(net: Network, c: ImportState, phases: seq<Phase>, i: nat)
    requires i <= |phases|
    ensures SendFrom(net, c, AllBatches(phases), AllProgress(phases), 0)
         == SendPhases(net, SendFrom(net, c, AllBatches(phases[..i]), AllProgress(phases[..i]), 0), phases, i)
    decreases |phases| - i
  {
    if i == |phases| {
      assert phases[..i] == phases;
    } else {
      var c' := SendFrom(net, c, AllBatches(phases[..i]), AllProgress(phases[..i]), 0);
      PhasesAreOnePass(net, c, phases, i + 1);
      assert phases[..i + 1][..i] == phases[..i];
      SendFromAppend(net, c, AllBatches(phases[..i]), AllProgress(phases[..i]),
                     Chunks(phases[i].events), PhaseProgress(phases[i]), 0);
      StoppedPhases(net, c', phases, i + 1);
    }
  }

  lemma StoppedPhases(net: Network, c: ImportState, phases: seq<Phase>, i: nat)
    requires i <= |phases|
    ensures !c.ok ==> SendPhases(net, c, phases, i) == c
  {
  }

  /**
    Every import run submits a prefix of the plan's batches, reports progress for exactly the accepted
    ones, and succeeds exactly when every request was delivered and the ledger accepts the whole
    sequence of events, phase after phase.
   */
  lemma ImportRun(net: Network, c: ImportState, phases: seq<Phase>) returns (m: nat)
    requires c.ok
    ensures var r := SendPhases(net, c, phases, 0);
            && SentPrefix(c, r, AllBatches(phases), AllProgress(phases), m)
            && (r.ok <==> AllDelivered(net, |c.sent|, |c.sent| + |AllBatches(phases)|)
                          && Run(c.ledger, AllEvents(phases)).Ok?)
            && (r.ok ==> Run(c.ledger, AllEvents(phases)) == Ok(r.ledger))
  {
    hide *;
    PhasesAreSendFrom(net, c, phases);
    FlattenAllBatches(phases);
    m := SendAll(net, c, AllBatches(phases), AllProgress(phases));
  }

  lemma PhasesAreSendFrom(net: Network, c: ImportState, phases: seq<Phase>)
    ensures SendPhases(net, c, phases, 0) == SendFrom(net, c, AllBatches(phases), AllProgress(phases), 0)
  {
    assert AllBatches(phases[..0]) == [] && AllProgress(phases[..0]) == [];
    PhasesAreOnePass(net, c, phases, 0);
  }

  lemma SendAll(net: Network, c: ImportState, batches: seq<seq<Event>>, reports: seq<ImportProgress>) returns (m: nat)
    requires c.ok && |batches| == |reports|
    ensures var r := SendFrom(net, c, batches, reports, 0);
            && SentPrefix(c, r, batches, reports, m)
            && (r.ok <==> AllDelivered(net, |c.sent|, |c.sent| + |batches|) && Run(c.ledger, Flatten(batches)).Ok?)
            && (r.ok ==> Run(c.ledger, Flatten(batches)) == Ok(r.ledger))
  {
    assert batches[0..] == batches;
    SendFromOkIff(net, c, batches, reports, 0);
    m := SendFromSendsPrefix(net, c, batches, reports, c, 0);
  }
}
