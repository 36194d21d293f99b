/**
  An abstract TigerBeetle ledger: the specification the importer runs against.

  It applies account and transfer events one at a time and follows the documented rules for imported
  events, the balance-limit flags and the documented rejection reasons. Only what the migration sends
  is accepted: events with the `imported` flag, unlinked accounts, and plain posted transfers.
 */
module Ledgers {
  import opened Wrappers
  import opened Records
  import opened Sorting

  const TIMESTAMP_LIMIT: nat := 0x8000_0000_0000_0000 // 2^63

  /** What an account or a transfer carries along without meaning for the ledger. */
  datatype Tags = Tags(code: nat, userData128: nat, userData64: nat, userData32: nat)

  function TagsOf(a: Account): Tags {
    Tags(a.code, a.userData128, a.userData64, a.userData32)
  }

  /** An account as the cluster stores it; pending balances stay zero here and are not kept. */
  datatype Balance = Balance(ledger: nat, flags: nat, timestamp: nat, tags: Tags, debits: nat, credits: nat)

  /** The accounts by id, and the transfers posted, oldest first. */
  datatype Ledger = Ledger(
    accounts: map<nat, Balance>, posted: seq<Transfer>,
    lastAccountTimestamp: nat, lastTransferTimestamp: nat, clock: nat)
  {
    function UsedIds(): set<nat> {
      TransferIds(posted)
    }
  }

  function EmptyLedger(clock: nat): Ledger {
    Ledger(map[], [], 0, 0, clock)
  }

  datatype Event = AccountEvent(account: Account) | TransferEvent(transfer: Transfer)

  datatype Rejection =
    | ImportedEventExpected | Unsupported
    | TimestampOutOfRange | TimestampMustNotAdvance | TimestampMustNotRegress
    | IdMustNotBeZero | IdMustNotBeIntMax | FlagsAreMutuallyExclusive | BalancesMustBeZero
    | LedgerMustNotBeZero | CodeMustNotBeZero | Exists
    | AccountsMustBeDifferent | PendingIdMustBeZero | TimeoutMustBeZero
    | DebitAccountNotFound | CreditAccountNotFound
    | AccountsMustHaveTheSameLedger | TransferMustHaveTheSameLedgerAsAccounts
    | MustPostdateDebitAccount | MustPostdateCreditAccount
    | DebitAccountAlreadyClosed | CreditAccountAlreadyClosed
    | OverflowsDebitsPosted | OverflowsCreditsPosted | ExceedsCredits | ExceedsDebits

  function CreateAccount(s: Ledger, a: Account): Result<Ledger, Rejection> {
    if !AccountImported(a.flags) then Err(ImportedEventExpected)
    else if AccountLinked(a.flags) then Err(Unsupported)
    else if a.timestamp == 0 || a.timestamp >= TIMESTAMP_LIMIT then Err(TimestampOutOfRange)
    else if a.timestamp >= s.clock then Err(TimestampMustNotAdvance)
    else if a.id == 0 then Err(IdMustNotBeZero)
    else if a.id == U128_MAX then Err(IdMustNotBeIntMax)
    else if a.id in s.accounts then Err(Exists)
    else if DebitsMustNotExceedCredits(a.flags) && CreditsMustNotExceedDebits(a.flags)
    then Err(FlagsAreMutuallyExclusive)
    else if a.debitsPending != 0 || a.debitsPosted != 0 || a.creditsPending != 0 || a.creditsPosted != 0
    then Err(BalancesMustBeZero)
    else if a.ledger == 0 then Err(LedgerMustNotBeZero)
    else if a.code == 0 then Err(CodeMustNotBeZero)
    else if a.timestamp <= s.lastAccountTimestamp then Err(TimestampMustNotRegress)
    else Ok(s.(accounts := s.accounts[a.id := NewBalance(a)], lastAccountTimestamp := a.timestamp))
  }

  function NewBalance(a: Account): Balance {
    Balance(a.ledger, a.flags, a.timestamp, TagsOf(a), 0, 0)
  }

  function CreateTransfer(s: Ledger, t: Transfer): Result<Ledger, Rejection> {
    if !TransferImported(t.flags) then Err(ImportedEventExpected)
    else if t.flags != TRANSFER_IMPORTED then Err(Unsupported)
    else if t.timestamp == 0 || t.timestamp >= TIMESTAMP_LIMIT then Err(TimestampOutOfRange)
    else if t.timestamp >= s.clock then Err(TimestampMustNotAdvance)
    else if t.id == 0 then Err(IdMustNotBeZero)
    else if t.id == U128_MAX then Err(IdMustNotBeIntMax)
    else if t.id in s.UsedIds() then Err(Exists)
    else if t.debitAccountId == t.creditAccountId then Err(AccountsMustBeDifferent)
    else if t.pendingId != 0 then Err(PendingIdMustBeZero)
    else if t.timeout != 0 then Err(TimeoutMustBeZero)
    else if t.ledger == 0 then Err(LedgerMustNotBeZero)
    else if t.code == 0 then Err(CodeMustNotBeZero)
    else if t.debitAccountId !in s.accounts then Err(DebitAccountNotFound)
    else if t.creditAccountId !in s.accounts then Err(CreditAccountNotFound)
    else
      var dr, cr := s.accounts[t.debitAccountId], s.accounts[t.creditAccountId];
      if dr.ledger != cr.ledger then Err(AccountsMustHaveTheSameLedger)
      else if t.ledger != dr.ledger then Err(TransferMustHaveTheSameLedgerAsAccounts)
      else if t.timestamp <= s.lastTransferTimestamp then Err(TimestampMustNotRegress)
      else if t.timestamp <= dr.timestamp then Err(MustPostdateDebitAccount)
      else if t.timestamp <= cr.timestamp then Err(MustPostdateCreditAccount)
      else if Closed(dr.flags) then Err(DebitAccountAlreadyClosed)
      else if Closed(cr.flags) then Err(CreditAccountAlreadyClosed)
      else if dr.debits + t.amount > U128_MAX then Err(OverflowsDebitsPosted)
      else if cr.credits + t.amount > U128_MAX then Err(OverflowsCreditsPosted)
      else if DebitsMustNotExceedCredits(dr.flags) && dr.debits + t.amount > dr.credits
      then Err(ExceedsCredits)
      else if CreditsMustNotExceedDebits(cr.flags) && cr.credits + t.amount > cr.debits
      then Err(ExceedsDebits)
      else Ok(Posted(s, t))
  }

  /** The ledger once `t` is posted. */
  function Posted(s: Ledger, t: Transfer): Ledger
    requires t.debitAccountId in s.accounts && t.creditAccountId in s.accounts
    requires t.debitAccountId != t.creditAccountId
  {
    var dr, cr := s.accounts[t.debitAccountId], s.accounts[t.creditAccountId];
    s.(accounts := s.accounts[t.debitAccountId := dr.(debits := dr.debits + t.amount)]
                             [t.creditAccountId := cr.(credits := cr.credits + t.amount)],
       posted := s.posted + [t], lastTransferTimestamp := t.timestamp)
  }

  function Apply(s: Ledger, e: Event): Result<Ledger, Rejection> {
    match e
    case AccountEvent(a) => CreateAccount(s, a)
    case TransferEvent(t) => CreateTransfer(s, t)
  }

  /** Applies the events in order and stops at the first rejection. */
  function Run(s: Ledger, events: seq<Event>): Result<Ledger, Rejection> {
    if events == [] then Ok(s)
    else
      var s' :- Run(s, events[..|events| - 1]);
      Apply(s', events[|events| - 1])
  }

  lemma {:induction false} RunAppend(s: Ledger, es: seq<Event>, fs: seq<Event>)
    ensures Run(s, es + fs) == (match Run(s, es) case Ok(s') => Run(s', fs) case Err(e) => Err(e))
  {
    if fs == [] {
      assert es + fs == es;
    } else {
      assert (es + fs)[..|es + fs| - 1] == es + fs[..|fs| - 1];
      RunAppend(s, es, fs[..|fs| - 1]);
    }
  }

  function AccountEvents(accounts: seq<Account>): (r: seq<Event>)
    ensures |r| == |accounts|
  {
    seq(|accounts|, i requires 0 <= i < |accounts| => AccountEvent(accounts[i]))
  }

  function TransferEvents(transfers: seq<Transfer>): (r: seq<Event>)
    ensures |r| == |transfers|
  {
    seq(|transfers|, i requires 0 <= i < |transfers| => TransferEvent(transfers[i]))
  }

  // ---------------------------------------------------------------------------
  // Safety of every run
  // ---------------------------------------------------------------------------

  /** No balance leaves u128 and every balance-limit flag is respected. */
  ghost predicate Sound(s: Ledger) {
    forall id <- s.accounts ::
      var b := s.accounts[id];
      && b.debits <= U128_MAX && b.credits <= U128_MAX
      && (DebitsMustNotExceedCredits(b.flags) ==> b.debits <= b.credits)
      && (CreditsMustNotExceedDebits(b.flags) ==> b.credits <= b.debits)
  }

  lemma {:induction false} RunKeepsSound(s: Ledger, events: seq<Event>)
    requires Sound(s) && Run(s, events).Ok?
    ensures Sound(Run(s, events).value)
  {
    if events != [] {
      var init, e := events[..|events| - 1], events[|events| - 1];
      RunKeepsSound(s, init);
      match e {
        case AccountEvent(a) =>
        case TransferEvent(t) => PostKeepsSound(Run(s, init).value, t);
      }
    }
  }

  lemma PostKeepsSound(s: Ledger, t: Transfer)
    requires Sound(s) && CreateTransfer(s, t).Ok?
    ensures Sound(CreateTransfer(s, t).value)
  {
    var s' := CreateTransfer(s, t).value;
    forall id <- s'.accounts
      ensures id in s.accounts && (id != t.debitAccountId && id != t.creditAccountId ==>
                                   s'.accounts[id] == s.accounts[id])
    {
    }
  }

  // ---------------------------------------------------------------------------
  // Balance totals of a list of transfers
  // ---------------------------------------------------------------------------

  /** What the transfers debit from account `id`. */
  function Debits(ts: seq<Transfer>, id: nat): nat {
    if ts == [] then 0
    else Debits(ts[..|ts| - 1], id) + (if ts[|ts| - 1].debitAccountId == id then ts[|ts| - 1].amount else 0)
  }

  /** What the transfers credit to account `id`. */
  function Credits(ts: seq<Transfer>, id: nat): nat {
    if ts == [] then 0
    else Credits(ts[..|ts| - 1], id) + (if ts[|ts| - 1].creditAccountId == id then ts[|ts| - 1].amount else 0)
  }

  lemma {:induction false} TotalsAppend(ts: seq<Transfer>, us: seq<Transfer>, id: nat)
    ensures Debits(ts + us, id) == Debits(ts, id) + Debits(us, id)
    ensures Credits(ts + us, id) == Credits(ts, id) + Credits(us, id)
  {
    if us == [] {
      assert ts + us == ts;
    } else {
      assert (ts + us)[..|ts + us| - 1] == ts + us[..|us| - 1];
      TotalsAppend(ts, us[..|us| - 1], id);
    }
  }

  function TransferIds(ts: seq<Transfer>): set<nat> {
    set t <- ts :: t.id
  }

  /** The ledger after all of `ts` were posted, in closed form. */
  ghost function After(s: Ledger, ts: seq<Transfer>): Ledger {
    s.(accounts := map id <- s.accounts ::
         s.accounts[id].(debits := s.accounts[id].debits + Debits(ts, id),
                         credits := s.accounts[id].credits + Credits(ts, id)),
       posted := s.posted + ts,
       lastTransferTimestamp := if ts == [] then s.lastTransferTimestamp else ts[|ts| - 1].timestamp)
  }

  lemma AfterAt(s: Ledger, ts: seq<Transfer>, id: nat)
    requires id in s.accounts
    ensures id in After(s, ts).accounts
    ensures After(s, ts).accounts[id] == s.accounts[id].(debits := s.accounts[id].debits + Debits(ts, id),
                                                         credits := s.accounts[id].credits + Credits(ts, id))
  {
  }

  lemma AfterScalars(s: Ledger, ts: seq<Transfer>)
    ensures After(s, ts).clock == s.clock && After(s, ts).accounts.Keys == s.accounts.Keys
    ensures After(s, ts).posted == s.posted + ts && After(s, ts).UsedIds() == s.UsedIds() + TransferIds(ts)
    ensures After(s, ts).lastTransferTimestamp == if ts == [] then s.lastTransferTimestamp else ts[|ts| - 1].timestamp
  {
  }

  predicate Accepts(s: Ledger, t: Transfer) {
    CreateTransfer(s, t).Ok?
  }

  /** Every transfer is acceptable in the closed-form state reached by the ones before it. */
  ghost predicate AllAcceptable(s: Ledger, ts: seq<Transfer>) {
    forall k :: 0 <= k < |ts| ==> Accepts(After(s, ts[..k]), ts[k])
  }

  lemma AllAcceptableStep(s: Ledger, ts: seq<Transfer>, t: Transfer)
    ensures AllAcceptable(s, ts + [t]) <==> AllAcceptable(s, ts) && Accepts(After(s, ts), t)
  {
    var us := ts + [t];
    assert us[..|ts|] == ts && us[|ts|] == t;
    assert forall k :: 0 <= k < |ts| ==> us[..k] == ts[..k] && us[k] == ts[k];
  }

  /**
    A run of transfers is accepted exactly when every transfer is acceptable in the closed-form state
    reached by the ones before it, and then the closed form is the final state.
   */
  lemma {:induction false} TransfersAcceptedIff(s: Ledger, ts: seq<Transfer>)
    ensures Run(s, TransferEvents(ts)).Ok? <==> AllAcceptable(s, ts)
    ensures Run(s, TransferEvents(ts)).Ok? ==> Run(s, TransferEvents(ts)).value == After(s, ts)
  {
    hide After, Apply, Accepts;
    if ts == [] {
      AfterNothing(s);
    } else {
      var init, t := ts[..|ts| - 1], ts[|ts| - 1];
      TransfersAcceptedIff(s, init);
      TransfersAcceptedStep(s, init, t);
      assert ts == init + [t];
    }
  }

  lemma AfterNothing(s: Ledger)
    ensures After(s, []) == s
  {
    assert After(s, []).accounts == s.accounts;
  }

  lemma TransfersAcceptedStep(s: Ledger, ts: seq<Transfer>, t: Transfer)
    requires Run(s, TransferEvents(ts)).Ok? <==> AllAcceptable(s, ts)
    requires Run(s, TransferEvents(ts)).Ok? ==> Run(s, TransferEvents(ts)).value == After(s, ts)
    ensures Run(s, TransferEvents(ts + [t])).Ok? <==> AllAcceptable(s, ts + [t])
    ensures Run(s, TransferEvents(ts + [t])).Ok? ==> Run(s, TransferEvents(ts + [t])).value == After(s, ts + [t])
  {
    hide Run, After, AllAcceptable, CreateTransfer;
    RunTransfersStep(s, ts, t);
    AllAcceptableStep(s, ts, t);
    if Run(s, TransferEvents(ts)).Ok? && Accepts(After(s, ts), t) {
      AcceptedIsPosted(After(s, ts), t);
      AfterScalars(s, ts);
      PostedAfter(s, ts, t);
    }
  }

  lemma AcceptedIsPosted(s: Ledger, t: Transfer)
    requires Accepts(s, t)
    ensures t.debitAccountId in s.accounts && t.creditAccountId in s.accounts && t.debitAccountId != t.creditAccountId
    ensures CreateTransfer(s, t).value == Posted(s, t)
  {
  }

  lemma RunTransfersStep(s: Ledger, ts: seq<Transfer>, t: Transfer)
    ensures Run(s, TransferEvents(ts + [t]))
         == match Run(s, TransferEvents(ts)) case Ok(s') => CreateTransfer(s', t) case Err(e) => Err(e)
  {
    var events := TransferEvents(ts + [t]);
    assert events[..|events| - 1] == TransferEvents(ts);
  }

  lemma PostedAfter(s: Ledger, ts: seq<Transfer>, t: Transfer)
    requires t.debitAccountId in s.accounts && t.creditAccountId in s.accounts && t.debitAccountId != t.creditAccountId
    ensures t.debitAccountId in After(s, ts).accounts && t.creditAccountId in After(s, ts).accounts
    ensures Posted(After(s, ts), t) == After(s, ts + [t])
  {
    var us := ts + [t];
    var posted, after := Posted(After(s, ts), t), After(s, us);
    AfterScalars(s, ts);
    AfterScalars(s, us);
    assert TransferIds(us) == TransferIds(ts) + {t.id};
    PostedAccounts(s, ts, t);
  }

  lemma PostedAccounts(s: Ledger, ts: seq<Transfer>, t: Transfer)
    requires t.debitAccountId in s.accounts && t.creditAccountId in s.accounts && t.debitAccountId != t.creditAccountId
    ensures t.debitAccountId in After(s, ts).accounts && t.creditAccountId in After(s, ts).accounts
    ensures Posted(After(s, ts), t).accounts == After(s, ts + [t]).accounts
  {
    assert (ts + [t])[..|ts|] == ts;
    forall id <- s.accounts
      ensures Posted(After(s, ts), t).accounts[id] == After(s, ts + [t]).accounts[id]
    {
      AfterAt(s, ts, id);
      AfterAt(s, ts + [t], id);
    }
  }

  // ---------------------------------------------------------------------------
  // Runs of account events
  // ---------------------------------------------------------------------------

  ghost predicate DistinctIds(accounts: seq<Account>) {
    DistinctBy(AccountId, accounts)
  }

  /** Everything the ledger asks of an account event apart from uniqueness and time. */
  predicate AcceptableShape(a: Account) {
    && AccountImported(a.flags) && !AccountLinked(a.flags)
    && a.id != 0 && a.id != U128_MAX && a.ledger != 0 && a.code != 0
    && !(DebitsMustNotExceedCredits(a.flags) && CreditsMustNotExceedDebits(a.flags))
    && a.debitsPending == 0 && a.debitsPosted == 0 && a.creditsPending == 0 && a.creditsPosted == 0
  }

  predicate TimestampOk(timestamp: nat, clock: nat) {
    timestamp < clock && timestamp < TIMESTAMP_LIMIT
  }

  /** Timestamps strictly increase from `floor` and stay below 2^63 and the clock. */
  predicate TimestampsImportable(accounts: seq<Account>, floor: nat, clock: nat) {
    && (forall i :: 0 <= i < |accounts| ==>
          floor < accounts[i].timestamp < clock && accounts[i].timestamp < TIMESTAMP_LIMIT)
    && (forall i, j :: 0 <= i < j < |accounts| ==> accounts[i].timestamp < accounts[j].timestamp)
  }

  ghost predicate AccountsImportable(s: Ledger, accounts: seq<Account>) {
    && DistinctIds(accounts)
    && (forall i :: 0 <= i < |accounts| ==> AcceptableShape(accounts[i]) && accounts[i].id !in s.accounts)
    && TimestampsImportable(accounts, s.lastAccountTimestamp, s.clock)
  }

  function BalancesOf(accounts: seq<Account>): (m: map<nat, Balance>) {
    if accounts == [] then map[]
    else BalancesOf(accounts[..|accounts| - 1])[accounts[|accounts| - 1].id := NewBalance(accounts[|accounts| - 1])]
  }

  lemma {:induction false} BalancesOfKeys(accounts: seq<Account>)
    ensures BalancesOf(accounts).Keys == set a <- accounts :: a.id
  {
    if accounts != [] {
      var init, a := accounts[..|accounts| - 1], accounts[|accounts| - 1];
      BalancesOfKeys(init);
      assert accounts == init + [a];
    }
  }

  lemma {:induction false} BalancesOfAt(accounts: seq<Account>, i: nat)
    requires DistinctIds(accounts) && i < |accounts|
    ensures accounts[i].id in BalancesOf(accounts) && BalancesOf(accounts)[accounts[i].id] == NewBalance(accounts[i])
  {
    if i < |accounts| - 1 {
      BalancesOfAt(accounts[..|accounts| - 1], i);
    }
  }

  /** The ledger after all of `accounts` were created, in closed form. */
  function AfterAccounts(s: Ledger, accounts: seq<Account>): Ledger {
    s.(accounts := s.accounts + BalancesOf(accounts),
       lastAccountTimestamp := if accounts == [] then s.lastAccountTimestamp else accounts[|accounts| - 1].timestamp)
  }

  /** A run of account events is accepted exactly when the whole list is importable. */
  lemma {:induction false} AccountsAcceptedIff(s: Ledger, accounts: seq<Account>)
    ensures Run(s, AccountEvents(accounts)).Ok? <==> AccountsImportable(s, accounts)
    ensures Run(s, AccountEvents(accounts)).Ok? ==> Run(s, AccountEvents(accounts)).value == AfterAccounts(s, accounts)
  {
    hide CreateAccount, AfterAccounts, AcceptableShape, TimestampsImportable;
    if accounts != [] {
      var init, a := accounts[..|accounts| - 1], accounts[|accounts| - 1];
      AccountsAcceptedIff(s, init);
      assert accounts == init + [a];
      var events := AccountEvents(accounts);
      assert events[..|events| - 1] == AccountEvents(init);
      ImportableStep(s, init, a);
    } else {
      NoAccounts(s);
    }
  }

  lemma NoAccounts(s: Ledger)
    ensures AfterAccounts(s, []) == s && AccountsImportable(s, [])
  {
    assert s.accounts + map[] == s.accounts;
  }

  lemma ImportableStep(s: Ledger, accounts: seq<Account>, a: Account)
    ensures AccountsImportable(s, accounts + [a]) <==>
            AccountsImportable(s, accounts) && CreateAccount(AfterAccounts(s, accounts), a).Ok?
    ensures AccountsImportable(s, accounts + [a]) ==>
            CreateAccount(AfterAccounts(s, accounts), a).value == AfterAccounts(s, accounts + [a])
  {
    hide CreateAccount, AcceptableShape, AccountsImportable, TimestampsImportable;
    CreateAccountIff(AfterAccounts(s, accounts), a);
    ExtendsIff(s, accounts, a);
    if AccountsImportable(s, accounts + [a]) {
      InitImportable(s, accounts, a);
      var all := accounts + [a];
      assert all[..|all| - 1] == accounts;
      assert (s.accounts + BalancesOf(accounts))[a.id := NewBalance(a)] == s.accounts + BalancesOf(all);
    }
    if AccountsImportable(s, accounts) && CreateAccount(AfterAccounts(s, accounts), a).Ok? {
      ExtendImportable(s, accounts, a);
    }
  }

  lemma ExtendsIff(s: Ledger, accounts: seq<Account>, a: Account)
    ensures var after := AfterAccounts(s, accounts);
            Extends(s, accounts, a) <==>
            && AcceptableShape(a) && a.id !in after.accounts
            && after.lastAccountTimestamp < a.timestamp < after.clock && a.timestamp < TIMESTAMP_LIMIT
  {
    hide AcceptableShape;
    BalancesOfKeys(accounts);
    if a.id in BalancesOf(accounts) {
      var b :| b in accounts && b.id == a.id;
      var i :| 0 <= i < |accounts| && accounts[i] == b;
    }
    if i :| 0 <= i < |accounts| && accounts[i].id == a.id {
      assert accounts[i] in accounts;
    }
  }

  /** Room for one more account after `accounts`. */
  predicate Extends(s: Ledger, accounts: seq<Account>, a: Account) {
    && AcceptableShape(a) && a.id !in s.accounts && a.timestamp < s.clock && a.timestamp < TIMESTAMP_LIMIT
    && (forall i :: 0 <= i < |accounts| ==> accounts[i].id != a.id)
    && a.timestamp > (if accounts == [] then s.lastAccountTimestamp else accounts[|accounts| - 1].timestamp)
  }

  lemma InitImportable(s: Ledger, accounts: seq<Account>, a: Account)
    requires AccountsImportable(s, accounts + [a])
    ensures AccountsImportable(s, accounts) && Extends(s, accounts, a)
  {
    var all := accounts + [a];
    assert forall i :: 0 <= i < |accounts| ==> all[i] == accounts[i];
    assert all[|accounts|] == a;
  }

  lemma ExtendImportable(s: Ledger, accounts: seq<Account>, a: Account)
    requires AccountsImportable(s, accounts) && Extends(s, accounts, a)
    ensures AccountsImportable(s, accounts + [a])
  {
    var all := accounts + [a];
    assert forall i :: 0 <= i < |accounts| ==> accounts[i].timestamp < a.timestamp;
    assert forall i :: 0 <= i < |all| ==> all[i] == if i < |accounts| then accounts[i] else a;
  }

  lemma CreateAccountIff(s: Ledger, a: Account)
    ensures CreateAccount(s, a).Ok? <==>
            && AcceptableShape(a) && a.id !in s.accounts
            && s.lastAccountTimestamp < a.timestamp < s.clock && a.timestamp < TIMESTAMP_LIMIT
    ensures CreateAccount(s, a).Ok? ==>
              CreateAccount(s, a).value == s.(accounts := s.accounts[a.id := NewBalance(a)],
                                              lastAccountTimestamp := a.timestamp)
  {
  }
}
