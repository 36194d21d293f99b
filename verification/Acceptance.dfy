/** When a cluster accepts a list of transfers, in terms of what the caller knows before sending it. */
module Acceptance {
  import opened Bits
  import opened Records
  import opened Ledgers
  import opened Importers

  /**
    What is known of a cluster: its accounts as they were planned, their balances by id, that exactly the
    transfer ids `1..idsUsed` are taken, the timestamp of the last transfer, and the clock.
   */
  datatype Cluster = Cluster(
    accounts: seq<Account>, debits: nat -> nat, credits: nat -> nat, idsUsed: nat, lastTimestamp: nat, clock: nat)
  {
    function Stored(a: Account): Balance {
      Balance(a.ledger, ConvertAccountFlags(a.flags), a.timestamp, TagsOf(a), debits(a.id), credits(a.id))
    }

    /** The ledger holds exactly this. */
    ghost predicate Describes(s: Ledger) {
      && s.accounts.Keys == (set a <- accounts :: a.id)
      && (forall a <- accounts :: a.id in s.accounts && s.accounts[a.id] == Stored(a))
      && (forall id: nat :: id in s.UsedIds() <==> 1 <= id <= idsUsed)
      && s.lastTransferTimestamp == lastTimestamp && s.clock == clock
    }
  }

  // ---------------------------------------------------------------------------
  // The rules
  // ---------------------------------------------------------------------------

  /** A posted transfer: not linked, pending, posting, voiding, balancing or closing. */
  predicate PlainFlags(raw: nat) {
    raw % 0x100 == 0
  }

  /** What a transfer must look like by itself. */
  predicate WellFormed(t: Transfer) {
    && PlainFlags(t.flags) && t.pendingId == 0 && t.timeout == 0
    && t.id != 0 && t.id != U128_MAX && t.debitAccountId != t.creditAccountId && t.ledger != 0 && t.code != 0
  }

  /** Its id is new, and its timestamp later than the one before it and in the past. */
  ghost predicate InTurn(c: Cluster, ts: seq<Transfer>, k: nat)
    requires k < |ts|
  {
    && ts[k].id > c.idsUsed && (forall j :: 0 <= j < k ==> ts[j].id != ts[k].id)
    && ts[k].timestamp > (if k == 0 then c.lastTimestamp else ts[k - 1].timestamp)
    && TimestampOk(ts[k].timestamp, c.clock)
  }

  /** Account `a` can be used by `t`. */
  predicate Usable(a: Account, t: Transfer) {
    a.ledger == t.ledger && a.timestamp < t.timestamp && !Closed(a.flags)
  }

  /** The debit side: a usable account whose balance, with the transfers before it, takes the amount. */
  ghost predicate DebitTaken(c: Cluster, ts: seq<Transfer>, k: nat)
    requires k < |ts|
  {
    var t := ts[k];
    var debits := c.debits(t.debitAccountId) + Debits(ts[..k], t.debitAccountId) + t.amount;
    exists a :: a in c.accounts && a.id == t.debitAccountId && Usable(a, t) && debits <= U128_MAX
                && (DebitsMustNotExceedCredits(a.flags) ==> debits <= c.credits(a.id) + Credits(ts[..k], a.id))
  }

  ghost predicate CreditTaken(c: Cluster, ts: seq<Transfer>, k: nat)
    requires k < |ts|
  {
    var t := ts[k];
    var credits := c.credits(t.creditAccountId) + Credits(ts[..k], t.creditAccountId) + t.amount;
    exists a :: a in c.accounts && a.id == t.creditAccountId && Usable(a, t) && credits <= U128_MAX
                && (CreditsMustNotExceedDebits(a.flags) ==> credits <= c.debits(a.id) + Debits(ts[..k], a.id))
  }

  ghost predicate Taken(c: Cluster, ts: seq<Transfer>, k: nat)
    requires k < |ts|
  {
    WellFormed(ts[k]) && InTurn(c, ts, k) && DebitTaken(c, ts, k) && CreditTaken(c, ts, k)
  }

  /** The whole list can be imported. */
  ghost predicate TransfersImportable(c: Cluster, ts: seq<Transfer>) {
    forall k :: 0 <= k < |ts| ==> Taken(c, ts, k)
  }

  // ---------------------------------------------------------------------------
  // They are exactly what the ledger checks
  // ---------------------------------------------------------------------------

  /** Conversion gives the bare `imported` flag exactly for plain flags. */
  lemma PlainFlagsIff(raw: nat)
    ensures ConvertWindowedFlags(raw) == TRANSFER_IMPORTED <==> PlainFlags(raw)
  {
    LowBits(raw);
  }

  /** The ledger's checks, spelled out. */
  lemma AcceptsIff(s: Ledger, t: Transfer)
    ensures Accepts(s, t) <==>
            && t.flags == TRANSFER_IMPORTED && t.pendingId == 0 && t.timeout == 0
            && t.id != 0 && t.id != U128_MAX && t.debitAccountId != t.creditAccountId && t.ledger != 0 && t.code != 0
            && t.id !in s.UsedIds() && t.timestamp > s.lastTransferTimestamp && TimestampOk(t.timestamp, s.clock)
            && t.debitAccountId in s.accounts && t.creditAccountId in s.accounts
            && DebitPasses(s.accounts[t.debitAccountId], t) && CreditPasses(s.accounts[t.creditAccountId], t)
  {
  }

  predicate DebitPasses(b: Balance, t: Transfer) {
    && b.ledger == t.ledger && b.timestamp < t.timestamp && !Closed(b.flags) && b.debits + t.amount <= U128_MAX
    && (DebitsMustNotExceedCredits(b.flags) ==> b.debits + t.amount <= b.credits)
  }

  predicate CreditPasses(b: Balance, t: Transfer) {
    && b.ledger == t.ledger && b.timestamp < t.timestamp && !Closed(b.flags) && b.credits + t.amount <= U128_MAX
    && (CreditsMustNotExceedDebits(b.flags) ==> b.credits + t.amount <= b.debits)
  }

  lemma PrefixTotals(ts: seq<Transfer>, k: nat, id: nat)
    requires k <= |ts|
    ensures ConvertWindowedTransfers(ts)[..k] == ConvertWindowedTransfers(ts[..k])
    ensures Debits(ConvertWindowedTransfers(ts)[..k], id) == Debits(ts[..k], id)
    ensures Credits(ConvertWindowedTransfers(ts)[..k], id) == Credits(ts[..k], id)
  {
    assert ConvertWindowedTransfers(ts)[..k] == ConvertWindowedTransfers(ts[..k]);
    ConvertedTotals(ts[..k], id);
  }

  /** What the ledger holds before transfer `k`, for an account that is used by it. */
  lemma BeforeTransfer(c: Cluster, s: Ledger, ts: seq<Transfer>, k: nat, a: Account)
    requires c.Describes(s) && k < |ts| && a in c.accounts
    ensures var s' := After(s, ConvertWindowedTransfers(ts)[..k]);
            a.id in s'.accounts
            && s'.accounts[a.id] == c.Stored(a).(debits := c.debits(a.id) + Debits(ts[..k], a.id),
                                                 credits := c.credits(a.id) + Credits(ts[..k], a.id))
  {
    PrefixTotals(ts, k, a.id);
    AfterAt(s, ConvertWindowedTransfers(ts)[..k], a.id);
  }

  lemma IdsBefore(ts: seq<Transfer>, k: nat, id: nat)
    requires k <= |ts|
    ensures id in TransferIds(ConvertWindowedTransfers(ts)[..k]) <==> exists j :: 0 <= j < k && ts[j].id == id
  {
    var events := ConvertWindowedTransfers(ts);
    if id in TransferIds(events[..k]) {
      var u :| u in events[..k] && u.id == id;
      var j :| 0 <= j < k && events[j] == u;
      assert ts[j].id == id;
    }
    if j :| 0 <= j < k && ts[j].id == id {
      assert events[..k][j] == events[j] && events[j] in events[..k];
    }
  }

  lemma StateBefore(c: Cluster, s: Ledger, ts: seq<Transfer>, k: nat)
    requires c.Describes(s) && k < |ts|
    ensures var s' := After(s, ConvertWindowedTransfers(ts)[..k]);
            && s'.clock == c.clock
            && s'.lastTransferTimestamp == (if k == 0 then c.lastTimestamp else ts[k - 1].timestamp)
            && s'.accounts.Keys == s.accounts.Keys
            && (ts[k].id > 0 ==>
                  (ts[k].id !in s'.UsedIds() <==>
                   ts[k].id > c.idsUsed && forall j :: 0 <= j < k ==> ts[j].id != ts[k].id))
  {
    hide After, TransferIds;
    AfterScalars(s, ConvertWindowedTransfers(ts)[..k]);
    IdsBefore(ts, k, ts[k].id);
  }

  lemma DebitTakenIff(c: Cluster, s: Ledger, ts: seq<Transfer>, k: nat)
    requires c.Describes(s) && k < |ts|
    ensures var s', t := After(s, ConvertWindowedTransfers(ts)[..k]), ConvertWindowedTransfer(ts[k]);
            DebitTaken(c, ts, k) <==> t.debitAccountId in s'.accounts && DebitPasses(s'.accounts[t.debitAccountId], t)
  {
    hide After, Debits, Credits, ConvertAccountFlags;
    var t := ts[k];
    StateBefore(c, s, ts, k);
    forall a <- c.accounts | a.id == t.debitAccountId
      ensures var s' := After(s, ConvertWindowedTransfers(ts)[..k]);
              a.id in s'.accounts
              && s'.accounts[a.id] == c.Stored(a).(debits := c.debits(a.id) + Debits(ts[..k], a.id),
                                                   credits := c.credits(a.id) + Credits(ts[..k], a.id))
      ensures Closed(ConvertAccountFlags(a.flags)) <==> Closed(a.flags)
      ensures DebitsMustNotExceedCredits(ConvertAccountFlags(a.flags)) <==> DebitsMustNotExceedCredits(a.flags)
    {
      BeforeTransfer(c, s, ts, k, a);
      AccountFlagsPreserved(a.flags);
    }
  }

  lemma CreditTakenIff(c: Cluster, s: Ledger, ts: seq<Transfer>, k: nat)
    requires c.Describes(s) && k < |ts|
    ensures var s', t := After(s, ConvertWindowedTransfers(ts)[..k]), ConvertWindowedTransfer(ts[k]);
            CreditTaken(c, ts, k) <==>
            t.creditAccountId in s'.accounts && CreditPasses(s'.accounts[t.creditAccountId], t)
  {
    hide After, Debits, Credits, ConvertAccountFlags;
    var t := ts[k];
    StateBefore(c, s, ts, k);
    forall a <- c.accounts | a.id == t.creditAccountId
      ensures var s' := After(s, ConvertWindowedTransfers(ts)[..k]);
              a.id in s'.accounts
              && s'.accounts[a.id] == c.Stored(a).(debits := c.debits(a.id) + Debits(ts[..k], a.id),
                                                   credits := c.credits(a.id) + Credits(ts[..k], a.id))
      ensures Closed(ConvertAccountFlags(a.flags)) <==> Closed(a.flags)
      ensures CreditsMustNotExceedDebits(ConvertAccountFlags(a.flags)) <==> CreditsMustNotExceedDebits(a.flags)
    {
      BeforeTransfer(c, s, ts, k, a);
      AccountFlagsPreserved(a.flags);
    }
  }

  lemma TakenIff(c: Cluster, s: Ledger, ts: seq<Transfer>, k: nat)
    requires c.Describes(s) && k < |ts|
    ensures var events := ConvertWindowedTransfers(ts);
            Taken(c, ts, k) <==> Accepts(After(s, events[..k]), events[k])
  {
    hide After, DebitTaken, CreditTaken, DebitPasses, CreditPasses, Accepts, PlainFlags, ConvertWindowedFlags;
    var events := ConvertWindowedTransfers(ts);
    PlainFlagsIff(ts[k].flags);
    StateBefore(c, s, ts, k);
    DebitTakenIff(c, s, ts, k);
    CreditTakenIff(c, s, ts, k);
    AcceptsIff(After(s, events[..k]), events[k]);
  }

  /** A described cluster accepts a list of transfers, as the importer converts them, exactly under these rules. */
  lemma TransfersImportableIff(c: Cluster, s: Ledger, ts: seq<Transfer>)
    requires c.Describes(s)
    ensures Run(s, TransferEvents(ConvertWindowedTransfers(ts))).Ok? <==> TransfersImportable(c, ts)
  {
    hide Run, Taken, Accepts, After;
    var events := ConvertWindowedTransfers(ts);
    TransfersAcceptedIff(s, events);
    forall k | 0 <= k < |ts|
      ensures Taken(c, ts, k) <==> Accepts(After(s, events[..k]), events[k])
    {
      TakenIff(c, s, ts, k);
    }
  }
}
