/** Replaying the synthetic transfers: what they total to, and when the ledger accepts them. */
module Replay {
  import opened Records
  import opened Sorting
  import opened Ledgers
  import opened Plans
  import opened Importers

  /** The synthetic transfers as the importer submits them. */
  function SyntheticEvents(regular: seq<Account>, floor: nat): seq<Transfer>
    requires LedgersFit(regular)
  {
    ConvertTransfers(SyntheticTransfers(regular, floor))
  }

  function CreditSide(a: Account, floor: nat, n: nat): Transfer
    requires a.ledger <= U32_MAX
  {
    Transfer(n + 1, GenesisCreditId(a.ledger), a.id, a.creditsPosted, 0, 0, 0, 0, 0,
             a.ledger, SYNTHETIC_CODE, TRANSFER_IMPORTED, floor + n + 1)
  }

  function DebitSide(a: Account, floor: nat, n: nat): Transfer
    requires a.ledger <= U32_MAX
  {
    Transfer(n + 1, a.id, GenesisDebitId(a.ledger), a.debitsPosted, 0, 0, 0, 0, 0,
             a.ledger, SYNTHETIC_CODE, TRANSFER_IMPORTED, floor + n + 1)
  }

  function CreditPart(a: Account, floor: nat, n: nat): seq<Transfer>
    requires a.ledger <= U32_MAX
  {
    if a.creditsPosted > 0 then [CreditSide(a, floor, n)] else []
  }

  function DebitPart(a: Account, floor: nat, n: nat): seq<Transfer>
    requires a.ledger <= U32_MAX
  {
    if a.debitsPosted > 0 then [DebitSide(a, floor, n)] else []
  }

  lemma SyntheticStep(regular: seq<Account>, a: Account, floor: nat)
    requires LedgersFit(regular) && a.ledger <= U32_MAX
    ensures LedgersFit(regular + [a])
    ensures var before := SyntheticEvents(regular, floor);
            var credit := CreditPart(a, floor, |before|);
            SyntheticEvents(regular + [a], floor) == before + credit + DebitPart(a, floor, |before| + |credit|)
  {
    var all := regular + [a];
    assert all[..|all| - 1] == regular;
  }

  /** Ids and timestamps are consecutive: the k-th transfer has id k and timestamp floor + k. */
  lemma {:induction false} SyntheticNumbers(regular: seq<Account>, floor: nat, k: nat)
    requires LedgersFit(regular) && k < |SyntheticTransfers(regular, floor)|
    ensures SyntheticTransfers(regular, floor)[k].id == k + 1
    ensures SyntheticTransfers(regular, floor)[k].timestamp == floor + k + 1
    ensures SyntheticTransfers(regular, floor)[k].code == 999
  {
    hide SyntheticFor;
    var init := regular[..|regular| - 1];
    var n := |SyntheticTransfers(init, floor)|;
    if k < n {
      SyntheticNumbers(init, floor, k);
    } else {
      NumbersOfOne(regular[|regular| - 1], floor, n, k - n);
    }
  }

  lemma NumbersOfOne(a: Account, floor: nat, n: nat, k: nat)
    requires a.ledger <= U32_MAX && k < |SyntheticFor(a, floor, n)|
    ensures SyntheticFor(a, floor, n)[k].id == n + k + 1
    ensures SyntheticFor(a, floor, n)[k].timestamp == floor + n + k + 1
    ensures SyntheticFor(a, floor, n)[k].code == 999
  {
  }

  // ---------------------------------------------------------------------------
  // Totals
  // ---------------------------------------------------------------------------

  predicate CreditGenesisOf(a: Account, id: nat) {
    a.ledger <= U32_MAX && GenesisCreditId(a.ledger) == id
  }

  predicate DebitGenesisOf(a: Account, id: nat) {
    a.ledger <= U32_MAX && GenesisDebitId(a.ledger) == id
  }

  /** What the synthetic transfers of one account debit from account `id`. */
  function DebitedFrom(id: nat): Account -> nat {
    (a: Account) =>
      (if CreditGenesisOf(a, id) then a.creditsPosted else 0) + (if a.id == id then a.debitsPosted else 0)
  }

  /** What the synthetic transfers of one account credit to account `id`. */
  function CreditedTo(id: nat): Account -> nat {
    (a: Account) =>
      (if a.id == id then a.creditsPosted else 0) + (if DebitGenesisOf(a, id) then a.debitsPosted else 0)
  }

  lemma TotalOfOne(t: Transfer, id: nat)
    ensures Debits([t], id) == if t.debitAccountId == id then t.amount else 0
    ensures Credits([t], id) == if t.creditAccountId == id then t.amount else 0
  {
    assert [t][..0] == [];
  }

  lemma {:induction false} SyntheticTotals(regular: seq<Account>, floor: nat, id: nat)
    requires LedgersFit(regular)
    ensures Debits(SyntheticEvents(regular, floor), id) == SumBy(DebitedFrom(id), regular)
    ensures Credits(SyntheticEvents(regular, floor), id) == SumBy(CreditedTo(id), regular)
  {
    if regular != [] {
      var init, a := regular[..|regular| - 1], regular[|regular| - 1];
      assert regular == init + [a];
      SyntheticTotals(init, floor, id);
      SyntheticStep(init, a, floor);
      var before := SyntheticEvents(init, floor);
      var credit := CreditPart(a, floor, |before|);
      var debit := DebitPart(a, floor, |before| + |credit|);
      TotalsAppend(before, credit, id);
      TotalsAppend(before + credit, debit, id);
      PartTotals(a, floor, |before|, |before| + |credit|, id);
    }
  }

  lemma PartTotals(a: Account, floor: nat, n: nat, m: nat, id: nat)
    requires a.ledger <= U32_MAX
    ensures Debits(CreditPart(a, floor, n), id) + Debits(DebitPart(a, floor, m), id) == DebitedFrom(id)(a)
    ensures Credits(CreditPart(a, floor, n), id) + Credits(DebitPart(a, floor, m), id) == CreditedTo(id)(a)
  {
    TotalOfOne(CreditSide(a, floor, n), id);
    TotalOfOne(DebitSide(a, floor, m), id);
  }

  // Sums of one ledger's balances.

  function CreditIn(ledger: nat): Account -> nat {
    (a: Account) => if a.ledger == ledger then a.creditsPosted else 0
  }

  function DebitIn(ledger: nat): Account -> nat {
    (a: Account) => if a.ledger == ledger then a.debitsPosted else 0
  }

  /** No account carries the genesis id of a ledger in use. */
  predicate ClearOfGenesis(accounts: seq<Account>) {
    forall i, j :: 0 <= i < |accounts| && 0 <= j < |accounts| ==>
      !CreditGenesisOf(accounts[j], accounts[i].id) && !DebitGenesisOf(accounts[j], accounts[i].id)
  }

  /** The replay gives every regular account exactly its balances. */
  lemma RegularTotals(regular: seq<Account>, floor: nat, k: nat)
    requires LedgersFit(regular) && DistinctIds(regular) && ClearOfGenesis(regular) && k < |regular|
    ensures Debits(SyntheticEvents(regular, floor), regular[k].id) == regular[k].debitsPosted
    ensures Credits(SyntheticEvents(regular, floor), regular[k].id) == regular[k].creditsPosted
  {
    var id := regular[k].id;
    SyntheticTotals(regular, floor, id);
    SumByOnly(DebitedFrom(id), regular, k);
    SumByOnly(CreditedTo(id), regular, k);
  }

  /** The replay gives the two genesis accounts of a ledger the sums of its balances. */
  lemma GenesisTotals(regular: seq<Account>, floor: nat, l: nat)
    requires LedgersFit(regular) && l <= U32_MAX
    requires forall i :: 0 <= i < |regular| ==>
               regular[i].id != GenesisCreditId(l) && regular[i].id != GenesisDebitId(l)
    ensures Debits(SyntheticEvents(regular, floor), GenesisCreditId(l)) == SumBy(CreditIn(l), regular)
    ensures Credits(SyntheticEvents(regular, floor), GenesisCreditId(l)) == 0
    ensures Debits(SyntheticEvents(regular, floor), GenesisDebitId(l)) == 0
    ensures Credits(SyntheticEvents(regular, floor), GenesisDebitId(l)) == SumBy(DebitIn(l), regular)
  {
    var c, d := GenesisCreditId(l), GenesisDebitId(l);
    SyntheticTotals(regular, floor, c);
    SyntheticTotals(regular, floor, d);
    forall i | 0 <= i < |regular|
      ensures CreditGenesisOf(regular[i], c) <==> regular[i].ledger == l
      ensures DebitGenesisOf(regular[i], d) <==> regular[i].ledger == l
      ensures !CreditGenesisOf(regular[i], d) && !DebitGenesisOf(regular[i], c)
    {
      assert regular[i] in regular;
      GenesisIdsNeverClash(regular[i].ledger, l);
      GenesisIdsNeverClash(l, regular[i].ledger);
    }
    SumByCongruence(DebitedFrom(c), CreditIn(l), regular);
    SumByCongruence(CreditedTo(d), DebitIn(l), regular);
    SumByZero(CreditedTo(c), regular);
    SumByZero(DebitedFrom(d), regular);
  }

  /** The genesis totals of a ledger agree if and only if the ledger is balanced. */
  lemma GenesisBalancedIff(regular: seq<Account>, floor: nat, l: nat)
    requires LedgersFit(regular) && l <= U32_MAX
    requires forall i :: 0 <= i < |regular| ==>
               regular[i].id != GenesisCreditId(l) && regular[i].id != GenesisDebitId(l)
    ensures Debits(SyntheticEvents(regular, floor), GenesisCreditId(l))
            == Credits(SyntheticEvents(regular, floor), GenesisDebitId(l))
            <==> SumBy(CreditIn(l), regular) == SumBy(DebitIn(l), regular)
  {
    GenesisTotals(regular, floor, l);
  }

  // ---------------------------------------------------------------------------
  // Conservation at every prefix
  // ---------------------------------------------------------------------------

  /** What `ts` has credited so far to an account, if it belongs to ledger `l`. */
  function CreditedSoFar(ts: seq<Transfer>, l: nat): Account -> nat {
    (a: Account) => if a.ledger == l then Credits(ts, a.id) else 0
  }

  function DebitedSoFar(ts: seq<Transfer>, l: nat): Account -> nat {
    (a: Account) => if a.ledger == l then Debits(ts, a.id) else 0
  }

  /** `t` moves value between `a` and the genesis account of its ledger. */
  predicate MovesFor(t: Transfer, a: Account) {
    && a.ledger <= U32_MAX
    && (|| (t.debitAccountId == GenesisCreditId(a.ledger) && t.creditAccountId == a.id)
        || (t.debitAccountId == a.id && t.creditAccountId == GenesisDebitId(a.ledger)))
  }

  lemma {:induction false} SyntheticMoves(regular: seq<Account>, floor: nat, k: nat) returns (i: nat)
    requires LedgersFit(regular) && k < |SyntheticEvents(regular, floor)|
    ensures i < |regular| && MovesFor(SyntheticEvents(regular, floor)[k], regular[i])
  {
    var init, a := regular[..|regular| - 1], regular[|regular| - 1];
    assert regular == init + [a];
    SyntheticStep(init, a, floor);
    i := |regular| - 1;
    if k < |SyntheticEvents(init, floor)| {
      i := SyntheticMoves(init, floor, k);
    }
  }

  lemma OneMoreTotal(ts: seq<Transfer>, t: Transfer, id: nat)
    ensures Debits(ts + [t], id) == Debits(ts, id) + (if t.debitAccountId == id then t.amount else 0)
    ensures Credits(ts + [t], id) == Credits(ts, id) + (if t.creditAccountId == id then t.amount else 0)
  {
    assert (ts + [t])[..|ts|] == ts;
  }

  /** One transfer between `regular[i]` and genesis keeps both genesis totals equal to what was given out. */
  lemma ConservationStep(regular: seq<Account>, ts: seq<Transfer>, t: Transfer, i: nat, l: nat)
    requires LedgersFit(regular) && DistinctIds(regular) && ClearOfGenesis(regular)
    requires i < |regular| && MovesFor(t, regular[i]) && l <= U32_MAX
    ensures Debits(ts + [t], GenesisCreditId(l)) - Debits(ts, GenesisCreditId(l))
         == SumBy(CreditedSoFar(ts + [t], l), regular) - SumBy(CreditedSoFar(ts, l), regular)
    ensures Credits(ts + [t], GenesisDebitId(l)) - Credits(ts, GenesisDebitId(l))
         == SumBy(DebitedSoFar(ts + [t], l), regular) - SumBy(DebitedSoFar(ts, l), regular)
    requires forall j :: 0 <= j < |regular| ==>
               regular[j].id != GenesisCreditId(l) && regular[j].id != GenesisDebitId(l)
  {
    var a := regular[i];
    GenesisIdsNeverClash(a.ledger, l);
    GenesisIdsNeverClash(l, a.ledger);
    OneMoreTotal(ts, t, GenesisCreditId(l));
    OneMoreTotal(ts, t, GenesisDebitId(l));
    forall j | 0 <= j < |regular|
      ensures Credits(ts + [t], regular[j].id) == Credits(ts, regular[j].id)
              + (if j == i && t.creditAccountId == a.id then t.amount else 0)
      ensures Debits(ts + [t], regular[j].id) == Debits(ts, regular[j].id)
              + (if j == i && t.debitAccountId == a.id then t.amount else 0)
    {
      OneMoreTotal(ts, t, regular[j].id);
      assert !CreditGenesisOf(a, regular[j].id) && !DebitGenesisOf(a, regular[j].id);
      assert j != i ==> regular[j].id != a.id;
    }
    var credited := if a.ledger == l && t.creditAccountId == a.id then t.amount else 0;
    var debited := if a.ledger == l && t.debitAccountId == a.id then t.amount else 0;
    SumByRaised(CreditedSoFar(ts, l), CreditedSoFar(ts + [t], l), regular, i, credited);
    SumByRaised(DebitedSoFar(ts, l), DebitedSoFar(ts + [t], l), regular, i, debited);
  }

  /**
    At every prefix of the synthetic replay the credit-genesis debits of a ledger equal the credits
    given so far to its regular accounts, and the debit-genesis credits equal their debits.
   */
  lemma {:induction false} ConservationAtEveryPrefix(regular: seq<Account>, floor: nat, k: nat, l: nat)
    requires LedgersFit(regular) && DistinctIds(regular) && ClearOfGenesis(regular)
    requires k <= |SyntheticEvents(regular, floor)| && l <= U32_MAX
    requires forall j :: 0 <= j < |regular| ==>
               regular[j].id != GenesisCreditId(l) && regular[j].id != GenesisDebitId(l)
    ensures Debits(SyntheticEvents(regular, floor)[..k], GenesisCreditId(l))
         == SumBy(CreditedSoFar(SyntheticEvents(regular, floor)[..k], l), regular)
    ensures Credits(SyntheticEvents(regular, floor)[..k], GenesisDebitId(l))
         == SumBy(DebitedSoFar(SyntheticEvents(regular, floor)[..k], l), regular)
  {
    hide SyntheticEvents;
    var ts := SyntheticEvents(regular, floor);
    if k == 0 {
      assert ts[..0] == [] && Debits([], GenesisCreditId(l)) == 0 && Credits([], GenesisDebitId(l)) == 0;
      SumByZero(CreditedSoFar(ts[..0], l), regular);
      SumByZero(DebitedSoFar(ts[..0], l), regular);
    } else {
      ConservationAtEveryPrefix(regular, floor, k - 1, l);
      var i := SyntheticMoves(regular, floor, k - 1);
      ConservationStep(regular, ts[..k - 1], ts[k - 1], i, l);
      assert ts[..k] == ts[..k - 1] + [ts[k - 1]];
    }
  }

  // ---------------------------------------------------------------------------
  // Acceptance
  // ---------------------------------------------------------------------------

  /** A ledger that holds the genesis and regular accounts with zero balances and no transfers yet. */
  ghost predicate Prepared(s: Ledger, regular: seq<Account>, floor: nat) {
    && LedgersFit(regular) && DistinctIds(regular) && ClearOfGenesis(regular)
    && s.UsedIds() == {} && s.lastTransferTimestamp <= floor
    && forall i :: 0 <= i < |regular| ==> HoldsAccount(s, regular[i], floor)
  }

  ghost predicate HoldsAccount(s: Ledger, a: Account, floor: nat)
    requires a.ledger <= U32_MAX
  {
    && a.ledger != 0 && a.id in s.accounts
    && s.accounts[a.id] == Balance(a.ledger, ConvertAccountFlags(a.flags), a.timestamp, TagsOf(a), 0, 0)
    && (Active(a) ==> a.timestamp <= floor)
    && HoldsGenesis(s, GenesisCreditId(a.ledger), a.ledger, floor)
    && HoldsGenesis(s, GenesisDebitId(a.ledger), a.ledger, floor)
  }

  ghost predicate HoldsGenesis(s: Ledger, id: nat, ledger: nat, floor: nat) {
    && id in s.accounts && s.accounts[id].ledger == ledger && s.accounts[id].flags == ACCOUNT_IMPORTED
    && s.accounts[id].timestamp <= floor && s.accounts[id].debits == 0 && s.accounts[id].credits == 0
  }

  /** The balances of one account can be rebuilt, credit side first, under its own flags. */
  predicate Rebuildable(a: Account) {
    && (Closed(a.flags) ==> !Active(a))
    && (DebitsMustNotExceedCredits(a.flags) ==> a.debitsPosted <= a.creditsPosted)
    && (CreditsMustNotExceedDebits(a.flags) ==> a.creditsPosted == 0)
  }

  /** What the flags allow once `credits` of an account were already credited. */
  predicate CreditSideAllowed(a: Account) {
    a.creditsPosted > 0 ==> !Closed(a.flags) && !CreditsMustNotExceedDebits(a.flags)
  }

  predicate DebitSideAllowed(a: Account) {
    a.debitsPosted > 0 ==> !Closed(a.flags) && (DebitsMustNotExceedCredits(a.flags) ==>
                                                a.debitsPosted <= a.creditsPosted)
  }

  lemma RebuildableIff(a: Account)
    ensures Rebuildable(a) <==> CreditSideAllowed(a) && DebitSideAllowed(a)
  {
  }

  /** The credit-side transfer, sent to an account with no balance, is refused only for four reasons. */
  lemma CreditSideAcceptedIff(s: Ledger, a: Account, floor: nat, n: nat)
    requires a.ledger <= U32_MAX && a.ledger != 0 && a.creditsPosted > 0
    requires a.id in s.accounts && s.accounts[a.id]
             == Balance(a.ledger, ConvertAccountFlags(a.flags), a.timestamp, TagsOf(a), 0, 0)
    requires a.timestamp <= floor && a.id != GenesisCreditId(a.ledger)
    requires GenesisCreditId(a.ledger) in s.accounts
    requires var g := s.accounts[GenesisCreditId(a.ledger)];
             g.ledger == a.ledger && g.flags == ACCOUNT_IMPORTED && g.timestamp <= floor && g.credits == 0
    requires n + 1 !in s.UsedIds() && s.lastTransferTimestamp <= floor + n
    ensures Accepts(s, CreditSide(a, floor, n)) <==>
            && TimestampOk(floor + n + 1, s.clock) && CreditSideAllowed(a)
            && s.accounts[GenesisCreditId(a.ledger)].debits + a.creditsPosted <= U128_MAX
            && a.creditsPosted <= U128_MAX
  {
    AccountFlagsPreserved(a.flags);
  }

  /** The debit-side transfer, sent once the credits are in place. */
  lemma DebitSideAcceptedIff(s: Ledger, a: Account, floor: nat, n: nat)
    requires a.ledger <= U32_MAX && a.ledger != 0 && a.debitsPosted > 0
    requires a.id in s.accounts && s.accounts[a.id]
             == Balance(a.ledger, ConvertAccountFlags(a.flags), a.timestamp, TagsOf(a), 0, a.creditsPosted)
    requires a.timestamp <= floor && a.id != GenesisDebitId(a.ledger)
    requires GenesisDebitId(a.ledger) in s.accounts
    requires var g := s.accounts[GenesisDebitId(a.ledger)];
             g.ledger == a.ledger && g.flags == ACCOUNT_IMPORTED && g.timestamp <= floor && g.debits == 0
    requires n + 1 !in s.UsedIds() && s.lastTransferTimestamp <= floor + n
    ensures Accepts(s, DebitSide(a, floor, n)) <==>
            && TimestampOk(floor + n + 1, s.clock) && DebitSideAllowed(a)
            && s.accounts[GenesisDebitId(a.ledger)].credits + a.debitsPosted <= U128_MAX
            && a.debitsPosted <= U128_MAX
  {
    AccountFlagsPreserved(a.flags);
  }

  lemma SyntheticIdsBelow(regular: seq<Account>, floor: nat)
    requires LedgersFit(regular)
    ensures var ts := SyntheticEvents(regular, floor);
            && (forall id <- TransferIds(ts) :: id <= |ts|)
            && (ts != [] ==> ts[|ts| - 1].timestamp == floor + |ts|)
  {
    var ts := SyntheticEvents(regular, floor);
    forall k | 0 <= k < |ts|
      ensures ts[k].id == k + 1 && ts[k].timestamp == floor + k + 1
    {
      SyntheticNumbers(regular, floor, k);
    }
  }

  /** Before its own transfers an account is still at zero, and its genesis accounts hold the sums so far. */
  lemma TotalsBefore(regular: seq<Account>, a: Account, floor: nat)
    requires LedgersFit(regular + [a]) && DistinctIds(regular + [a]) && ClearOfGenesis(regular + [a])
    ensures LedgersFit(regular) && a.ledger <= U32_MAX
    ensures var ts := SyntheticEvents(regular, floor);
            && Debits(ts, a.id) == 0 && Credits(ts, a.id) == 0
            && Debits(ts, GenesisCreditId(a.ledger)) == SumBy(CreditIn(a.ledger), regular)
            && Credits(ts, GenesisCreditId(a.ledger)) == 0
            && Debits(ts, GenesisDebitId(a.ledger)) == 0
            && Credits(ts, GenesisDebitId(a.ledger)) == SumBy(DebitIn(a.ledger), regular)
  {
    var all := regular + [a];
    assert all[|regular|] == a && a in all;
    forall i | 0 <= i < |regular|
      ensures regular[i].ledger <= U32_MAX && regular[i].id != a.id
      ensures !CreditGenesisOf(a, regular[i].id) && !DebitGenesisOf(a, regular[i].id)
      ensures !CreditGenesisOf(regular[i], a.id) && !DebitGenesisOf(regular[i], a.id)
    {
      assert all[i] == regular[i] && regular[i] in all;
    }
    SyntheticTotals(regular, floor, a.id);
    SumByZero(DebitedFrom(a.id), regular);
    SumByZero(CreditedTo(a.id), regular);
    GenesisTotals(regular, floor, a.ledger);
  }

  /** The conditions on one more account when the synthetic transfers of `regular` were accepted. */
  predicate CreditFits(regular: seq<Account>, a: Account, floor: nat, n: nat, clock: nat) {
    a.creditsPosted > 0 ==>
      && TimestampOk(floor + n + 1, clock) && CreditSideAllowed(a)
      && SumBy(CreditIn(a.ledger), regular) + a.creditsPosted <= U128_MAX
  }

  predicate DebitFits(regular: seq<Account>, a: Account, floor: nat, n: nat, clock: nat) {
    a.debitsPosted > 0 ==>
      && TimestampOk(floor + n + 1, clock) && DebitSideAllowed(a)
      && SumBy(DebitIn(a.ledger), regular) + a.debitsPosted <= U128_MAX
  }

  lemma CreditPartAcceptedIff(s: Ledger, regular: seq<Account>, a: Account, floor: nat)
    requires Prepared(s, regular + [a], floor) && a.creditsPosted > 0
    ensures LedgersFit(regular) && a.ledger <= U32_MAX
    ensures var ts := SyntheticEvents(regular, floor);
            Accepts(After(s, ts), CreditSide(a, floor, |ts|)) <==> CreditFits(regular, a, floor, |ts|, s.clock)
  {
    hide CreateTransfer, CreateAccount, Accepts, After;
    var all := regular + [a];
    TotalsBefore(regular, a, floor);
    var ts := SyntheticEvents(regular, floor);
    assert HoldsAccount(s, all[|regular|], floor);
    assert !CreditGenesisOf(all[|regular|], all[|regular|].id);
    SyntheticIdsBelow(regular, floor);
    AfterAt(s, ts, a.id);
    AfterAt(s, ts, GenesisCreditId(a.ledger));
    AfterScalars(s, ts);
    CreditSideAcceptedIff(After(s, ts), a, floor, |ts|);
  }

  /** Once its credits are in, an account holds exactly them, and debit genesis is untouched. */
  lemma TotalsAfterCredit(regular: seq<Account>, a: Account, floor: nat)
    requires LedgersFit(regular + [a]) && DistinctIds(regular + [a]) && ClearOfGenesis(regular + [a])
    ensures LedgersFit(regular) && a.ledger <= U32_MAX
    ensures var ts := SyntheticEvents(regular, floor);
            var us := ts + CreditPart(a, floor, |ts|);
            && Debits(us, a.id) == 0 && Credits(us, a.id) == a.creditsPosted
            && Debits(us, GenesisDebitId(a.ledger)) == 0
            && Credits(us, GenesisDebitId(a.ledger)) == SumBy(DebitIn(a.ledger), regular)
  {
    TotalsBefore(regular, a, floor);
    var ts := SyntheticEvents(regular, floor);
    var part := CreditPart(a, floor, |ts|);
    var d := GenesisDebitId(a.ledger);
    assert a == (regular + [a])[|regular|];
    assert !CreditGenesisOf(a, a.id) && !DebitGenesisOf(a, a.id);
    GenesisIdsNeverClash(a.ledger, a.ledger);
    TotalsAppend(ts, part, a.id);
    TotalsAppend(ts, part, d);
    TotalOfOne(CreditSide(a, floor, |ts|), a.id);
    TotalOfOne(CreditSide(a, floor, |ts|), d);
  }

  lemma NumbersAfterCredit(regular: seq<Account>, a: Account, floor: nat)
    requires LedgersFit(regular) && a.ledger <= U32_MAX
    ensures var ts := SyntheticEvents(regular, floor);
            var us := ts + CreditPart(a, floor, |ts|);
            && (forall id <- TransferIds(us) :: id <= |us|)
            && (us != [] ==> us[|us| - 1].timestamp == floor + |us|)
  {
    SyntheticIdsBelow(regular, floor);
    var ts := SyntheticEvents(regular, floor);
    var part := CreditPart(a, floor, |ts|);
    assert TransferIds(ts + part) == TransferIds(ts) + TransferIds(part);
  }

  lemma DebitPartAcceptedIff(s: Ledger, regular: seq<Account>, a: Account, floor: nat)
    requires Prepared(s, regular + [a], floor) && a.debitsPosted > 0
    ensures LedgersFit(regular) && a.ledger <= U32_MAX
    ensures var ts := SyntheticEvents(regular, floor);
            var us := ts + CreditPart(a, floor, |ts|);
            Accepts(After(s, us), DebitSide(a, floor, |us|)) <==> DebitFits(regular, a, floor, |us|, s.clock)
  {
    hide CreateTransfer, CreateAccount, Accepts, After;
    var all := regular + [a];
    TotalsAfterCredit(regular, a, floor);
    NumbersAfterCredit(regular, a, floor);
    var ts := SyntheticEvents(regular, floor);
    var us := ts + CreditPart(a, floor, |ts|);
    assert HoldsAccount(s, all[|regular|], floor);
    assert !DebitGenesisOf(all[|regular|], all[|regular|].id);
    AfterAt(s, us, a.id);
    AfterAt(s, us, GenesisDebitId(a.ledger));
    AfterScalars(s, us);
    DebitSideAcceptedIff(After(s, us), a, floor, |us|);
  }

  // ---------------------------------------------------------------------------
  // The whole synthetic phase
  // ---------------------------------------------------------------------------

  ghost predicate SumsFit(accounts: seq<Account>) {
    forall l: nat :: SumBy(CreditIn(l), accounts) <= U128_MAX && SumBy(DebitIn(l), accounts) <= U128_MAX
  }

  /** What makes the synthetic phase acceptable, in terms of the accounts alone. */
  ghost predicate Replayable(regular: seq<Account>, floor: nat, clock: nat)
    requires LedgersFit(regular)
  {
    && (forall i :: 0 <= i < |regular| ==> Rebuildable(regular[i]))
    && SumsFit(regular)
    && (SyntheticTransfers(regular, floor) != [] ==> TimestampOk(floor + |SyntheticTransfers(regular, floor)|, clock))
  }

  lemma ReplayableStep(regular: seq<Account>, a: Account, floor: nat, clock: nat)
    requires LedgersFit(regular) && a.ledger <= U32_MAX
    ensures LedgersFit(regular + [a])
    ensures var n := |SyntheticEvents(regular, floor)|;
            Replayable(regular + [a], floor, clock) <==>
            && Replayable(regular, floor, clock)
            && CreditFits(regular, a, floor, n, clock)
            && DebitFits(regular, a, floor, n + |CreditPart(a, floor, n)|, clock)
  {
    var all := regular + [a];
    var n := |SyntheticEvents(regular, floor)|;
    SyntheticStep(regular, a, floor);
    assert all[..|regular|] == regular;
    assert forall i :: 0 <= i < |all| ==> all[i] == if i < |regular| then regular[i] else a;
    forall l: nat
      ensures SumBy(CreditIn(l), all) == SumBy(CreditIn(l), regular) + (if a.ledger == l then a.creditsPosted else 0)
      ensures SumBy(DebitIn(l), all) == SumBy(DebitIn(l), regular) + (if a.ledger == l then a.debitsPosted else 0)
    {
    }
    RebuildableIff(a);
    if Replayable(all, floor, clock) {
      assert Rebuildable(all[|regular|]);
      assert forall i :: 0 <= i < |regular| ==> Rebuildable(all[i]);
    }
  }

  /** The synthetic phase is accepted if and only if the accounts are replayable. */
  lemma {:induction false} SyntheticAcceptedIff(s: Ledger, regular: seq<Account>, floor: nat)
    requires Prepared(s, regular, floor)
    ensures Run(s, TransferEvents(SyntheticEvents(regular, floor))).Ok? <==> Replayable(regular, floor, s.clock)
  {
    if regular == [] {
      assert SyntheticEvents(regular, floor) == [];
      assert forall l: nat :: SumBy(CreditIn(l), regular) == 0 && SumBy(DebitIn(l), regular) == 0;
    } else {
      var init, a := regular[..|regular| - 1], regular[|regular| - 1];
      assert regular == init + [a];
      PreparedInit(s, init, a, floor);
      SyntheticAcceptedIff(s, init, floor);
      SyntheticPhaseStep(s, init, a, floor);
      ReplayableStep(init, a, floor, s.clock);
    }
  }

  lemma PreparedInit(s: Ledger, regular: seq<Account>, a: Account, floor: nat)
    requires Prepared(s, regular + [a], floor)
    ensures Prepared(s, regular, floor) && a.ledger <= U32_MAX
  {
    var all := regular + [a];
    assert all[|regular|] in all;
    forall i | 0 <= i < |regular|
      ensures regular[i].ledger <= U32_MAX && HoldsAccount(s, regular[i], floor)
    {
      assert all[i] == regular[i] && regular[i] in all;
    }
    assert forall i :: 0 <= i < |regular| ==> all[i] == regular[i];
  }

  lemma SyntheticPhaseStep(s: Ledger, regular: seq<Account>, a: Account, floor: nat)
    requires Prepared(s, regular + [a], floor) && Prepared(s, regular, floor) && a.ledger <= U32_MAX
    ensures var n := |SyntheticEvents(regular, floor)|;
            Run(s, TransferEvents(SyntheticEvents(regular + [a], floor))).Ok? <==>
            && Run(s, TransferEvents(SyntheticEvents(regular, floor))).Ok?
            && CreditFits(regular, a, floor, n, s.clock)
            && DebitFits(regular, a, floor, n + |CreditPart(a, floor, n)|, s.clock)
  {
    hide CreateTransfer, CreateAccount, After, Run;
    var ts := SyntheticEvents(regular, floor);
    var us := ts + CreditPart(a, floor, |ts|);
    SyntheticStep(regular, a, floor);
    TransfersAcceptedIff(s, ts);
    TransfersAcceptedIff(s, us);
    if a.creditsPosted > 0 {
      RunTransfersStep(s, ts, CreditSide(a, floor, |ts|));
      CreditPartAcceptedIff(s, regular, a, floor);
    }
    if a.debitsPosted > 0 {
      RunTransfersStep(s, us, DebitSide(a, floor, |us|));
      DebitPartAcceptedIff(s, regular, a, floor);
    }
    assert us + [] == us && ts + [] == ts;
  }
}
