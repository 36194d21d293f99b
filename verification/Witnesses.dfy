/** Concrete inputs on which the outcome of an import hangs on one id or on the order of a hash map. */
module Witnesses {
  import opened Records
  import opened Sorting
  import opened Timestamps
  import opened Ledgers
  import opened Plans
  import opened Importers
  import opened Acceptance
  import opened Replay
  import opened Migration
  import opened Ordering
  import opened CsvPlanning
  import opened CsvOrders
  import opened CsvMigration

  // ---------------------------------------------------------------------------
  // A windowed migration
  // ---------------------------------------------------------------------------

  /** Account 7 opens with 5 on the credit side; account 8 is empty at the cutoff, 15. */
  const PAYER := Account(7, 0, 3, 0, 5, 0, 0, 0, 0, 1, 1, 0, 8)
  const PAYEE := Account(8, 0, 0, 0, 3, 0, 0, 0, 0, 1, 1, 0, 12)

  /** After the cutoff, 7 pays 3 to 8. */
  function Payment(id: nat): Transfer {
    Transfer(id, 7, 8, 3, 0, 0, 0, 0, 0, 1, 1, 0, 20)
  }

  lemma PairAtCutoff(id: nat)
    ensures AccountsAtCutoff([PAYER, PAYEE], [Payment(id)], 15)
         == [PAYER.(debitsPosted := 0), PAYEE.(creditsPosted := 0)]
    ensures ExplainedByWindow(PAYER, [Payment(id)], 15) && ExplainedByWindow(PAYEE, [Payment(id)], 15)
  {
    TotalOfOne(Payment(id), 7);
    TotalOfOne(Payment(id), 8);
    hide Debits, Credits;
    assert [PAYER, PAYEE][..1] == [PAYER] && [PAYER][..0] == [];
  }

  /** Two accounts of one ledger, of which only the first has a balance, and on its credit side only. */
  predicate CreditThenEmpty(a: Account, b: Account) {
    && a.ledger == b.ledger == 1 && a.code == b.code == 1 && a.flags == b.flags == 0
    && 0 < a.id < b.id < 100 && 2 < a.timestamp < b.timestamp < TIMESTAMP_LIMIT
    && a.debitsPosted == b.debitsPosted == b.creditsPosted == 0 < a.creditsPosted <= U128_MAX
  }

  lemma CreditThenEmptyPlanned(a: Account, b: Account)
    requires CreditThenEmpty(a, b)
    ensures LedgersFit([a, b])
    ensures RegularAccounts([a, b]) == [a, b] && FloorOf([a, b], true) == a.timestamp
    ensures SumBy(SideCount(), [a, b]) == 1
  {
    TwoAccounts(a, b);
    ActiveThenEmpty(a, b);
    hide RegularAccounts, FloorOf;
    assert [a, b][..1] == [a] && [a][..0] == [];
    assert SumBy(SideCount(), [a]) == 1;
  }

  lemma CreditThenEmptyImportable(a: Account, b: Account, clock: nat)
    requires CreditThenEmpty(a, b) && b.timestamp + 1 < clock && b.timestamp + 1 < TIMESTAMP_LIMIT
    ensures Importable([a, b], true, clock)
  {
    hide RegularAccounts, FloorOf, SumBy, SumsFit, SideCount;
    CreditThenEmptyPlanned(a, b);
    PairCreatable(a, b, clock);
    PairSumsFit(a, b);
    hide Creatable;
    assert Refillable([a, b], true, clock);
  }

  lemma PairCreatable(a: Account, b: Account, clock: nat)
    requires CreditThenEmpty(a, b) && b.timestamp < clock && RegularAccounts([a, b]) == [a, b]
    ensures Creatable([a, b], clock)
  {
    PairClear(a, b);
    PlainPair(a, b);
    hide RegularAccounts, AllowedShape, ClearOfGenesis;
  }

  lemma PlainPair(a: Account, b: Account)
    requires CreditThenEmpty(a, b)
    ensures AllowedShape(a) && AllowedShape(b)
  {
  }

  lemma PairClear(a: Account, b: Account)
    requires CreditThenEmpty(a, b)
    ensures ClearOfGenesis([a, b])
  {
  }

  lemma PairSumsFit(a: Account, b: Account)
    requires CreditThenEmpty(a, b)
    ensures SumsFit([a, b])
  {
    hide SumBy;
    forall l: nat
      ensures SumBy(CreditIn(l), [a, b]) <= U128_MAX && SumBy(DebitIn(l), [a, b]) <= U128_MAX
    {
      SumOfTwo(CreditIn(l), a, b);
      SumOfTwo(DebitIn(l), a, b);
    }
  }

  lemma SumOfTwo<T>(f: T -> nat, a: T, b: T)
    ensures SumBy(f, [a, b]) == f(a) + f(b)
  {
    assert [a, b][..1] == [a] && [a][..0] == [];
    assert SumBy(f, [a]) == f(a);
  }

  /** When nothing else stands in the way of a transfer, its id decides. */
  lemma IdDecides(c: Cluster, t: Transfer, a: Account, b: Account)
    requires a in c.accounts && a.id == t.debitAccountId && a.flags == 0 && Usable(a, t)
    requires b in c.accounts && b.id == t.creditAccountId && b.flags == 0 && Usable(b, t)
    requires c.debits(a.id) + t.amount <= U128_MAX && c.credits(b.id) + t.amount <= U128_MAX
    requires t.flags == 0 && t.pendingId == 0 && t.timeout == 0 && a.id != b.id && t.ledger != 0 && t.code != 0
    requires c.lastTimestamp < t.timestamp && TimestampOk(t.timestamp, c.clock)
    ensures TransfersImportable(c, [t]) <==> c.idsUsed < t.id && t.id != U128_MAX
  {
    assert [t][..0] == [];
    assert Taken(c, [t], 0) <==> WellFormed(t) && InTurn(c, [t], 0);
    assert TransfersImportable(c, [t]) <==> Taken(c, [t], 0);
  }

  lemma PairPlanned(a: Account, b: Account)
    requires RegularAccounts([a, b]) == [a, b] && LedgersFit([a, b])
    ensures a in PlanAccounts([a, b]) && b in PlanAccounts([a, b])
  {
    hide RegularAccounts, GenesisOf, LedgersFit;
    assert a in [a, b] && b in [a, b];
  }

  lemma PairBalances(a: Account, b: Account)
    requires CreditThenEmpty(a, b)
    ensures SumBy(DebitedFrom(a.id), [a, b]) == 0 && SumBy(CreditedTo(b.id), [a, b]) == 0
  {
    hide SumBy;
    SumOfTwo(DebitedFrom(a.id), a, b);
    SumOfTwo(CreditedTo(b.id), a, b);
  }

  /** After the opening balance, transfer id 1 is taken and only the first account has moved. */
  lemma PairCluster(a: Account, b: Account, clock: nat)
    requires CreditThenEmpty(a, b) && LedgersFit([a, b])
    ensures var c := PlanCluster([a, b], clock);
            && a in c.accounts && b in c.accounts && c.debits(a.id) == 0 && c.credits(b.id) == 0
            && c.idsUsed == 1 && c.lastTimestamp == a.timestamp + 1 && c.clock == clock
  {
    hide RegularAccounts, FloorOf, SumBy, PlanAccounts, LedgersFit, CreditThenEmpty, DebitedFrom, CreditedTo, SideCount;
    CreditThenEmptyPlanned(a, b);
    PairPlanned(a, b);
    PairBalances(a, b);
  }

  lemma PaymentImportableIff(a: Account, b: Account, id: nat, clock: nat)
    requires CreditThenEmpty(a, b) && a.id == 7 && b.id == 8
    requires b.timestamp < 19 && 20 < clock && LedgersFit([a, b])
    ensures TransfersImportable(PlanCluster([a, b], clock), [Payment(id)]) <==> 1 < id && id != U128_MAX
  {
    hide PlanCluster, TransfersImportable, LedgersFit;
    PairCluster(a, b, clock);
    IdDecides(PlanCluster([a, b], clock), Payment(id), a, b);
  }

  lemma PairFits()
    ensures LedgersFit([PAYER, PAYEE])
  {
  }

  /**
    The transfer id alone decides: this import, of two accounts and the one transfer that explains them,
    is accepted if and only if the transfer does not have the id of the one synthetic transfer.
   */
  lemma IdCollisionExample(id: nat, clock: nat)
    requires clock > 20
    ensures LedgersFit([PAYER, PAYEE])
    ensures Run(EmptyLedger(clock), PlanEvents(WindowedPlan([PAYER, PAYEE], [Payment(id)], 15))).Ok? <==>
            1 < id && id != U128_MAX
  {
    var a, b := PAYER.(debitsPosted := 0), PAYEE.(creditsPosted := 0);
    hide Run, PlanEvents, WindowedPlan, Importable, PlanCluster, TransfersImportable, AccountsAtCutoff, FloorOf,
         RegularAccounts, SumBy, SideCount, WindowedOutcome, LedgersFit, ExplainedByWindow;
    PairFits();
    PairAtCutoff(id);
    CreditThenEmptyPlanned(a, b);
    CreditThenEmptyImportable(a, b, clock);
    PaymentImportableIff(a, b, id, clock);
    WindowedMigration([PAYER, PAYEE], [Payment(id)], 15, clock);
  }

  // ---------------------------------------------------------------------------
  // A CSV import
  // ---------------------------------------------------------------------------

  const DEBITS_LIMITED: nat := 2 // debits_must_not_exceed_credits

  /** An account created with a zero balance. */
  function Opened(id: nat, flags: nat): Account {
    Account(id, 0, 0, 0, 0, 0, 0, 0, 0, 1, 1, flags, 10 + id)
  }

  function Move(id: nat, debit: nat, credit: nat, timestamp: nat): Transfer {
    Transfer(id, debit, credit, 5, 0, 0, 0, 0, 0, 1, 1, 0, timestamp)
  }

  /** Accounts 1, 2 and 3 without balances; account 2 may not owe more than it is owed. */
  function Three(clock: nat): Cluster {
    Cluster([Opened(1, 0), Opened(2, DEBITS_LIMITED), Opened(3, 0)], (id: nat) => 0, (id: nat) => 0, 0, 0, clock)
  }

  function ThreeStored(clock: nat): Ledger {
    var c := Three(clock);
    Ledger(map[1 := c.Stored(c.accounts[0]), 2 := c.Stored(c.accounts[1]), 3 := c.Stored(c.accounts[2])],
           [], 13, 0, clock)
  }

  lemma ThreeDescribes(clock: nat)
    ensures Three(clock).Describes(ThreeStored(clock))
  {
    hide ConvertAccountFlags;
    var c := Three(clock);
    assert c.accounts[0] in c.accounts && c.accounts[1] in c.accounts && c.accounts[2] in c.accounts;
    assert forall a <- c.accounts :: a == c.accounts[0] || a == c.accounts[1] || a == c.accounts[2];
    assert ThreeStored(clock).accounts.Keys == {1, 2, 3} == set a <- c.accounts :: a.id;
  }

  const IN: Key := Key(1, 2, 1)
  const OUT: Key := Key(2, 3, 1)

  /** 1 pays 5 to 2, then 2 pays 5 to 3. */
  const THROUGH: seq<Transfer> := [Move(10, 1, 2, 100), Move(11, 2, 3, 101)]

  lemma ThroughParts()
    ensures Before(THROUGH, 200) == THROUGH && WindowedPart(THROUGH, 200) == []
  {
    var t, u := Move(10, 1, 2, 100), Move(11, 2, 3, 101);
    assert THROUGH[..1] == [t] && [t][..0] == [];
    assert Before([t], 200) == [t] && Since([t], 200) == [];
    assert Before(THROUGH, 200) == [t] + [u];
  }

  lemma ThroughAmounts()
    ensures AmountFor(THROUGH, IN) == 5 == AmountFor(THROUGH, OUT)
  {
    var t := Move(10, 1, 2, 100);
    assert THROUGH[..1] == [t] && [t][..0] == [];
    assert AmountFor([t], IN) == 5 && AmountFor([t], OUT) == 0;
  }

  lemma ThroughOrders()
    ensures PossibleOrder(THROUGH, 200, [IN, OUT]) && PossibleOrder(THROUGH, 200, [OUT, IN])
  {
    ThroughParts();
    hide Before;
    assert KeyOf(THROUGH[0]) == IN && KeyOf(THROUGH[1]) == OUT && THROUGH[0] in THROUGH && THROUGH[1] in THROUGH;
    assert KeySet(THROUGH) == {IN, OUT};
  }

  lemma TwoImportableIff(c: Cluster, t: Transfer, u: Transfer)
    ensures TransfersImportable(c, [t, u]) <==> Taken(c, [t, u], 0) && Taken(c, [t, u], 1)
  {
  }

  function Compressed(id: nat, key: Key, timestamp: nat): Transfer {
    ConvertTransfer(SyntheticTransfer(id, key.debitAccountId, key.creditAccountId, 5, key.ledger, SYNTHETIC_CODE,
                                      timestamp))
  }

  /** The two compressed transfers in one order. */
  lemma ThroughPlanned(first: Key, second: Key)
    requires {first, second} == {IN, OUT} && first != second
    ensures PlannedTransfers(CsvPlan(THROUGH, 200, [first, second]))
         == [Compressed(1, first, 198), Compressed(2, second, 199)]
  {
    ThroughParts();
    ThroughAmounts();
    ThroughOrders();
    assert first == IN || first == OUT;
    assert second == IN || second == OUT;
    hide AmountFor, Before, WindowedPart, PossibleOrder;
    PlannedParts(THROUGH, 200, [first, second]);
  }

  lemma InThenOut(clock: nat)
    requires clock > 200
    ensures TransfersImportable(Three(clock), PlannedTransfers(CsvPlan(THROUGH, 200, [IN, OUT])))
  {
    ThroughPlanned(IN, OUT);
    hide PlannedTransfers, CsvPlan, DebitTaken, CreditTaken;
    var c, us := Three(clock), PlannedTransfers(CsvPlan(THROUGH, 200, [IN, OUT]));
    TwoImportableIff(c, us[0], us[1]);
    InAccepted(c, us, clock);
    OutAccepted(c, us, clock);
  }

  lemma InAccepted(c: Cluster, us: seq<Transfer>, clock: nat)
    requires c == Three(clock) && us == [Compressed(1, IN, 198), Compressed(2, OUT, 199)]
    ensures DebitTaken(c, us, 0) && CreditTaken(c, us, 0)
  {
    NoTotals(1);
    NoTotals(2);
    hide Debits, Credits;
    assert us[..0] == [];
    assert c.accounts[0] in c.accounts && c.accounts[1] in c.accounts;
  }

  lemma OutAccepted(c: Cluster, us: seq<Transfer>, clock: nat)
    requires c == Three(clock) && us == [Compressed(1, IN, 198), Compressed(2, OUT, 199)]
    ensures DebitTaken(c, us, 1) && CreditTaken(c, us, 1)
  {
    TotalOfOne(us[0], 2);
    TotalOfOne(us[0], 3);
    hide Debits, Credits;
    assert us[..1] == [us[0]];
    assert c.accounts[1] in c.accounts && c.accounts[2] in c.accounts;
  }

  lemma OutThenIn(clock: nat)
    ensures !TransfersImportable(Three(clock), PlannedTransfers(CsvPlan(THROUGH, 200, [OUT, IN])))
  {
    ThroughPlanned(OUT, IN);
    hide PlannedTransfers, CsvPlan;
    var c, us := Three(clock), PlannedTransfers(CsvPlan(THROUGH, 200, [OUT, IN]));
    TwoImportableIff(c, us[0], us[1]);
    assert us[..0] == [];
    assert forall a <- c.accounts | a.id == 2 :: a == Opened(2, DEBITS_LIMITED);
    assert !DebitTaken(c, us, 0);
  }

  /**
    The order of the hash map decides: one list, one cutoff and one cluster, accepted when account 2 is
    credited first and rejected when it is debited first.
   */
  lemma OrderDecidesExample(clock: nat)
    requires clock > 200
    ensures PossibleOrder(THROUGH, 200, [IN, OUT]) && PossibleOrder(THROUGH, 200, [OUT, IN])
    ensures Run(ThreeStored(clock), PlanEvents(CsvPlan(THROUGH, 200, [IN, OUT]))).Ok?
    ensures Run(ThreeStored(clock), PlanEvents(CsvPlan(THROUGH, 200, [OUT, IN]))).Err?
  {
    hide *;
    ThroughOrders();
    ThreeDescribes(clock);
    CsvPlanRuns(ThreeStored(clock), THROUGH, 200, [IN, OUT]);
    CsvPlanRuns(ThreeStored(clock), THROUGH, 200, [OUT, IN]);
    CsvPlanAcceptedIff(ThreeStored(clock), Three(clock), THROUGH, 200, [IN, OUT]);
    CsvPlanAcceptedIff(ThreeStored(clock), Three(clock), THROUGH, 200, [OUT, IN]);
    InThenOut(clock);
    OutThenIn(clock);
  }

  /** One transfer before the cutoff, and one with id `id` after it. */
  function Twice(id: nat): seq<Transfer> {
    [Move(10, 1, 3, 100), Move(id, 1, 3, 300)]
  }

  lemma TwiceSplits(t: Transfer, u: Transfer)
    requires t.timestamp < 200 <= u.timestamp
    ensures Before([t, u], 200) == [t] && Since([t, u], 200) == [u]
  {
    assert [t, u][..1] == [t] && [t][..0] == [];
    assert Before([t], 200) == [t] && Since([t], 200) == [];
  }

  lemma OneWindowed(u: Transfer)
    requires u.timestamp >= 200
    ensures DedupTransfers(SortByKey(TransferTimestamp, [u]), 199) == [u]
  {
    assert [u][..0] == [];
    assert SortByKey(TransferTimestamp, [u]) == [u];
  }

  lemma TwiceParts(id: nat)
    ensures Before(Twice(id), 200) == [Move(10, 1, 3, 100)] && WindowedPart(Twice(id), 200) == [Move(id, 1, 3, 300)]
    ensures KeySet([Move(10, 1, 3, 100)]) == {Key(1, 3, 1)}
  {
    hide Before, Since, DedupTransfers, SortByKey;
    var t, u := Move(10, 1, 3, 100), Move(id, 1, 3, 300);
    TwiceSplits(t, u);
    OneWindowed(u);
    assert t in [t];
  }

  lemma TwiceKeys(id: nat, clock: nat)
    requires clock > 300
    ensures KeysImportable(Three(clock), [Move(10, 1, 3, 100)], 200)
    ensures AfterKeys(Three(clock), [Move(10, 1, 3, 100)], 200).idsUsed == 1
  {
    var t, c := Move(10, 1, 3, 100), Three(clock);
    TwiceParts(id);
    TotalOfOne(t, 1);
    TotalOfOne(t, 3);
    hide KeySet, Debits, Credits;
    assert c.accounts[0] in c.accounts && c.accounts[2] in c.accounts;
    assert Compressible(c, [t], t, 199);
  }

  lemma TwiceWindow(id: nat, clock: nat)
    requires clock > 300
    ensures TransfersImportable(AfterKeys(Three(clock), [Move(10, 1, 3, 100)], 200), [Move(id, 1, 3, 300)]) <==>
            1 < id && id != U128_MAX
  {
    var t, c := Move(10, 1, 3, 100), Three(clock);
    TwiceParts(id);
    TotalOfOne(t, 1);
    TotalOfOne(t, 3);
    hide KeySet, Debits, Credits, TransfersImportable;
    assert c.accounts[0] in c.accounts && c.accounts[2] in c.accounts;
    IdDecides(AfterKeys(c, [t], 200), Move(id, 1, 3, 300), Opened(1, 0), Opened(3, 0));
  }

  /** The id alone decides: a transfer since the cutoff must not have the id of the one compressed transfer. */
  lemma CsvIdCollisionExample(id: nat, clock: nat, order: seq<Key>)
    requires clock > 300 && PossibleOrder(Twice(id), 200, order)
    ensures Run(ThreeStored(clock), PlanEvents(CsvPlan(Twice(id), 200, order))).Ok? <==> 1 < id && id != U128_MAX
  {
    hide *;
    ThreeDescribes(clock);
    CsvPlanRuns(ThreeStored(clock), Twice(id), 200, order);
    CsvPlanAcceptedIff(ThreeStored(clock), Three(clock), Twice(id), 200, order);
    TwiceParts(id);
    TwiceKeys(id, clock);
    TwiceWindow(id, clock);
    PlannedInParts(Three(clock), Twice(id), 200, order);
  }
}
