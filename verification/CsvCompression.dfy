/** Compressing the transfers before a cutoff against replaying all of them one by one. */
module CsvCompression {
  import opened Wrappers
  import opened Records
  import opened Sorting
  import opened Timestamps
  import opened Ledgers
  import opened Importers
  import opened Acceptance
  import opened CsvPlanning
  import opened CsvOrders

  // ---------------------------------------------------------------------------
  // What compression asks beyond verbatim replay
  // ---------------------------------------------------------------------------

  /** The debit account of `t` is older than `base`, and its limit does not need what is credited before the cutoff. */
  ghost predicate DebitsNeedNoCredits(c: Cluster, pre: seq<Transfer>, t: Transfer, base: nat) {
    exists a :: a in c.accounts && a.id == t.debitAccountId && a.timestamp < base
                && (DebitsMustNotExceedCredits(a.flags) ==> c.debits(a.id) + Debits(pre, a.id) <= c.credits(a.id))
  }

  ghost predicate CreditsNeedNoDebits(c: Cluster, pre: seq<Transfer>, t: Transfer, base: nat) {
    exists a :: a in c.accounts && a.id == t.creditAccountId && a.timestamp < base
                && (CreditsMustNotExceedDebits(a.flags) ==> c.credits(a.id) + Credits(pre, a.id) <= c.debits(a.id))
  }

  ghost predicate OlderAccount(c: Cluster, id: nat, timestamp: nat) {
    exists a :: a in c.accounts && a.id == id && a.timestamp < timestamp
  }

  /** Transfer `w` since the cutoff is clear of the `n` compressed ones and postdates its accounts. */
  ghost predicate WindowedClear(c: Cluster, w: Transfer, n: nat) {
    w.id > n && OlderAccount(c, w.debitAccountId, w.timestamp) && OlderAccount(c, w.creditAccountId, w.timestamp)
  }

  /**
    Room for the compressed transfers: their ids are free, their timestamps lie between the cluster's last
    transfer and its clock, the accounts are older and their limits hold without any help from the other side.
   */
  ghost predicate RoomToCompress(c: Cluster, ts: seq<Transfer>, cutoffTs: nat) {
    var pre := Before(ts, cutoffTs);
    var n := |KeySet(pre)|;
    var base := BaseTimestamp(cutoffTs, n);
    && c.idsUsed == 0 && base > c.lastTimestamp && TimestampOk(base + n - 1, c.clock)
    && (forall t <- pre :: DebitsNeedNoCredits(c, pre, t, base) && CreditsNeedNoDebits(c, pre, t, base))
    && (forall w <- WindowedPart(ts, cutoffTs) :: WindowedClear(c, w, n))
  }

  // ---------------------------------------------------------------------------
  // Verbatim replay starts with the transfers before the cutoff
  // ---------------------------------------------------------------------------

  lemma {:induction false} InsertEarly(a: seq<Transfer>, b: seq<Transfer>, t: Transfer)
    requires forall i :: 0 <= i < |b| ==> b[i].timestamp > t.timestamp
    ensures InsertByKey(TransferTimestamp, a + b, t) == InsertByKey(TransferTimestamp, a, t) + b
  {
    if b == [] {
      assert a + b == a;
    } else {
      var init := b[..|b| - 1];
      assert (a + b)[..|a + b| - 1] == a + init && (a + b)[|a + b| - 1] == b[|b| - 1];
      InsertEarly(a, init, t);
      assert b == init + [b[|b| - 1]];
    }
  }

  lemma {:induction false} InsertLate(a: seq<Transfer>, b: seq<Transfer>, t: Transfer)
    requires forall i :: 0 <= i < |a| ==> a[i].timestamp <= t.timestamp
    ensures InsertByKey(TransferTimestamp, a + b, t) == a + InsertByKey(TransferTimestamp, b, t)
  {
    if b == [] {
      assert a + b == a;
    } else {
      var init := b[..|b| - 1];
      assert (a + b)[..|a + b| - 1] == a + init && (a + b)[|a + b| - 1] == b[|b| - 1];
      InsertLate(a, init, t);
    }
  }

  lemma SortKeepsBound(ts: seq<Transfer>)
    ensures forall t <- SortByKey(TransferTimestamp, ts) :: t in ts
    ensures forall t <- ts :: t in SortByKey(TransferTimestamp, ts)
  {
    SortPermutes(TransferTimestamp, ts);
    forall t <- SortByKey(TransferTimestamp, ts)
      ensures t in ts
    {
      assert t in multiset(ts);
    }
    forall t <- ts
      ensures t in SortByKey(TransferTimestamp, ts)
    {
      assert t in multiset(SortByKey(TransferTimestamp, ts));
    }
  }

  lemma SplitSnoc(ts: seq<Transfer>, t: Transfer, cutoffTs: nat)
    ensures Before(ts + [t], cutoffTs)
         == if t.timestamp < cutoffTs then Before(ts, cutoffTs) + [t] else Before(ts, cutoffTs)
    ensures Since(ts + [t], cutoffTs)
         == if t.timestamp < cutoffTs then Since(ts, cutoffTs) else Since(ts, cutoffTs) + [t]
  {
    assert (ts + [t])[..|ts|] == ts;
  }

  lemma SortSnoc(ts: seq<Transfer>, t: Transfer)
    ensures SortByKey(TransferTimestamp, ts + [t])
         == InsertByKey(TransferTimestamp, SortByKey(TransferTimestamp, ts), t)
  {
    assert (ts + [t])[..|ts|] == ts;
  }

  lemma SplitStep(ts: seq<Transfer>, t: Transfer, cutoffTs: nat)
    requires SortByKey(TransferTimestamp, ts)
          == SortByKey(TransferTimestamp, Before(ts, cutoffTs)) + SortByKey(TransferTimestamp, Since(ts, cutoffTs))
    ensures SortByKey(TransferTimestamp, ts + [t])
         == SortByKey(TransferTimestamp, Before(ts + [t], cutoffTs))
            + SortByKey(TransferTimestamp, Since(ts + [t], cutoffTs))
  {
    hide SortByKey, InsertByKey, Before, Since;
    var pre, post := Before(ts, cutoffTs), Since(ts, cutoffTs);
    var a, b := SortByKey(TransferTimestamp, pre), SortByKey(TransferTimestamp, post);
    SplitSnoc(ts, t, cutoffTs);
    SortSnoc(ts, t);
    if t.timestamp < cutoffTs {
      SortKeepsBound(post);
      assert forall i :: 0 <= i < |b| ==> b[i] in post;
      InsertEarly(a, b, t);
      SortSnoc(pre, t);
    } else {
      SortKeepsBound(pre);
      assert forall i :: 0 <= i < |a| ==> a[i] in pre;
      InsertLate(a, b, t);
      SortSnoc(post, t);
    }
  }

  lemma NothingSplits(cutoffTs: nat)
    ensures Before([], cutoffTs) == [] && Since([], cutoffTs) == []
    ensures SortByKey<Transfer>(TransferTimestamp, []) == []
  {
  }

  /** Sorting keeps what lies before a cutoff apart from the rest. */
  lemma {:induction false} SortSplits(ts: seq<Transfer>, cutoffTs: nat)
    ensures SortByKey(TransferTimestamp, ts)
         == SortByKey(TransferTimestamp, Before(ts, cutoffTs)) + SortByKey(TransferTimestamp, Since(ts, cutoffTs))
  {
    hide SortByKey, InsertByKey, Before, Since;
    if ts == [] {
      NothingSplits(cutoffTs);
    } else {
      SortSplits(ts[..|ts| - 1], cutoffTs);
      SplitStep(ts[..|ts| - 1], ts[|ts| - 1], cutoffTs);
      assert ts == ts[..|ts| - 1] + [ts[|ts| - 1]];
    }
  }

  lemma {:induction false} DedupPart(ts: seq<Transfer>, start: nat, k: nat)
    requires k <= |ts|
    ensures DedupTransfers(ts, start)[..k] == DedupTransfers(ts[..k], start)
  {
    if k < |ts| {
      DedupPart(ts[..|ts| - 1], start, k);
      assert ts[..|ts| - 1][..k] == ts[..k];
    } else {
      assert ts[..k] == ts;
    }
  }

  /** Up to windowed transfer `k`, verbatim replay has moved what lies before the cutoff and the window up to `k`. */
  lemma VerbatimTotals(ts: seq<Transfer>, cutoffTs: nat, k: nat, id: nat)
    requires cutoffTs > 0 && k <= |WindowedPart(ts, cutoffTs)|
    ensures |WindowedPart(ts, 0)| == |Before(ts, cutoffTs)| + |WindowedPart(ts, cutoffTs)|
    ensures var soFar := WindowedPart(ts, 0)[..|Before(ts, cutoffTs)| + k];
            && Debits(soFar, id) == Debits(Before(ts, cutoffTs), id) + Debits(WindowedPart(ts, cutoffTs)[..k], id)
            && Credits(soFar, id) == Credits(Before(ts, cutoffTs), id) + Credits(WindowedPart(ts, cutoffTs)[..k], id)
  {
    hide Debits, Credits, SortByKey, DedupTransfers, Before, Since;
    var a := SortByKey(TransferTimestamp, Before(ts, cutoffTs));
    var b := SortByKey(TransferTimestamp, Since(ts, cutoffTs));
    SortSplits(ts, cutoffTs);
    assert (a + b)[..|a| + k] == a + b[..k];
    DedupPart(a + b, 0, |a| + k);
    DedupPart(b, cutoffTs - 1, k);
    DedupKeepsTotals(a + b[..k], 0, id);
    DedupKeepsTotals(b[..k], cutoffTs - 1, id);
    TotalsAppend(a, b[..k], id);
    SortKeepsTotals(Before(ts, cutoffTs), id);
  }

  // ---------------------------------------------------------------------------
  // Windowed transfers are replayed no later than verbatim
  // ---------------------------------------------------------------------------

  lemma SuffixAdmissible(a: seq<nat>, b: seq<nat>, start: nat, r: seq<nat>, later: nat)
    requires Admissible(a + b, start, r) && forall i :: 0 <= i < |b| ==> b[i] > later
    ensures Admissible(b, later, r[|a|..])
  {
    forall i | 0 <= i < |b|
      ensures r[|a|..][i] > later && r[|a|..][i] >= b[i]
    {
      assert (a + b)[|a| + i] == b[i] && r[|a| + i] >= (a + b)[|a| + i];
    }
  }

  lemma DedupNoLater(a: seq<nat>, b: seq<nat>, later: nat, k: nat)
    requires k < |b| && forall i :: 0 <= i < |b| ==> b[i] > later
    ensures DedupAt(b, later, k) <= DedupAt(a + b, 0, |a| + k)
  {
    hide DedupAt;
    var r := Dedup(a + b, 0);
    DedupIsLeast(a + b, 0);
    DedupIsLeast(b, later);
    SuffixAdmissible(a, b, 0, r, later);
    assert Dedup(b, later)[k] <= r[|a|..][k];
  }

  /** Windowed transfer `k` is the same in both, except that verbatim replay may give it a later timestamp. */
  lemma WindowedNoLater(ts: seq<Transfer>, cutoffTs: nat, k: nat)
    requires cutoffTs > 0 && k < |WindowedPart(ts, cutoffTs)|
    ensures |WindowedPart(ts, 0)| == |Before(ts, cutoffTs)| + |WindowedPart(ts, cutoffTs)|
    ensures var v, w := WindowedPart(ts, 0)[|Before(ts, cutoffTs)| + k], WindowedPart(ts, cutoffTs)[k];
            v == w.(timestamp := v.timestamp) && w.timestamp <= v.timestamp
  {
    hide SortByKey, DedupTransfers, Before, Since, DedupAt;
    var a := SortByKey(TransferTimestamp, Before(ts, cutoffTs));
    var b := SortByKey(TransferTimestamp, Since(ts, cutoffTs));
    SortSplits(ts, cutoffTs);
    SortKeepsBound(Since(ts, cutoffTs));
    DedupTransfersAt(a + b, 0, |a| + k);
    DedupTransfersAt(b, cutoffTs - 1, k);
    var x, y := TransferTimestamps(a), TransferTimestamps(b);
    assert TransferTimestamps(a + b) == x + y;
    assert forall i :: 0 <= i < |b| ==> b[i] in Since(ts, cutoffTs) && y[i] == b[i].timestamp;
    DedupNoLater(x, y, cutoffTs - 1, k);
  }

  /** A transfer before the cutoff is replayed verbatim, among the first ones, except for its timestamp. */
  lemma EarlyIndex(ts: seq<Transfer>, cutoffTs: nat, t: Transfer) returns (i: nat)
    requires cutoffTs > 0 && t in Before(ts, cutoffTs)
    ensures |WindowedPart(ts, 0)| == |Before(ts, cutoffTs)| + |WindowedPart(ts, cutoffTs)|
    ensures i < |Before(ts, cutoffTs)|
    ensures WindowedPart(ts, 0)[i] == t.(timestamp := WindowedPart(ts, 0)[i].timestamp)
  {
    hide SortByKey, DedupTransfers, Before, Since, DedupAt;
    var a := SortByKey(TransferTimestamp, Before(ts, cutoffTs));
    var b := SortByKey(TransferTimestamp, Since(ts, cutoffTs));
    SortSplits(ts, cutoffTs);
    SortKeepsBound(Before(ts, cutoffTs));
    assert t in a;
    i :| 0 <= i < |a| && a[i] == t;
    DedupTransfersAt(a + b, 0, i);
  }

  // ---------------------------------------------------------------------------
  // Nothing before the cutoff
  // ---------------------------------------------------------------------------

  lemma {:induction false} DedupSame(ts: seq<nat>, start: nat, i: nat)
    requires i < |ts| && forall j :: 0 <= j < |ts| ==> ts[j] > start
    ensures DedupAt(ts, 0, i) == DedupAt(ts, start, i)
  {
    if i > 0 {
      DedupSame(ts, start, i - 1);
    }
  }

  lemma DedupTransfersSame(ts: seq<Transfer>, start: nat)
    requires forall j :: 0 <= j < |ts| ==> ts[j].timestamp > start
    ensures DedupTransfers(ts, 0) == DedupTransfers(ts, start)
  {
    hide DedupTransfers, DedupAt;
    forall i | 0 <= i < |ts|
      ensures DedupTransfers(ts, 0)[i] == DedupTransfers(ts, start)[i]
    {
      DedupTransfersAt(ts, 0, i);
      DedupTransfersAt(ts, start, i);
      DedupSame(TransferTimestamps(ts), start, i);
    }
  }

  lemma {:induction false} AllSince(ts: seq<Transfer>, cutoffTs: nat)
    requires Before(ts, cutoffTs) == []
    ensures Since(ts, cutoffTs) == ts
  {
    if ts != [] {
      var init, t := ts[..|ts| - 1], ts[|ts| - 1];
      assert ts == init + [t];
      SplitSnoc(init, t, cutoffTs);
      AllSince(init, cutoffTs);
    }
  }

  lemma SortedSince(ts: seq<Transfer>, cutoffTs: nat)
    requires Since(ts, cutoffTs) == ts
    ensures forall t <- SortByKey(TransferTimestamp, ts) :: t.timestamp >= cutoffTs
  {
    hide SortByKey, Since;
    SortKeepsBound(ts);
    forall t <- SortByKey(TransferTimestamp, ts)
      ensures t.timestamp >= cutoffTs
    {
      var i :| 0 <= i < |ts| && ts[i] == t;
      assert Since(ts, cutoffTs)[i].timestamp >= cutoffTs;
    }
  }

  lemma WindowedAllTheSame(ts: seq<Transfer>, cutoffTs: nat)
    requires Before(ts, cutoffTs) == []
    ensures WindowedPart(ts, cutoffTs) == WindowedPart(ts, 0)
  {
    hide SortByKey, DedupTransfers, Before, Since;
    if cutoffTs > 0 {
      AllSince(ts, cutoffTs);
      SortedSince(ts, cutoffTs);
      DedupTransfersSame(SortByKey(TransferTimestamp, ts), cutoffTs - 1);
    }
  }

  lemma NothingToCompress(c: Cluster, ts: seq<Transfer>, cutoffTs: nat)
    requires Before(ts, cutoffTs) == []
    ensures CsvImportable(c, ts, cutoffTs) <==> TransfersImportable(c, WindowedPart(ts, 0))
  {
    hide TransfersImportable, WindowedPart, Before;
    WindowedAllTheSame(ts, cutoffTs);
    assert KeySet([]) == {};
    var d, vs := AfterKeys(c, [], cutoffTs), WindowedPart(ts, cutoffTs);
    assert Continues(c, [], d);
    ImportableInParts(c, [], d, vs);
    assert [] + vs == vs;
    assert TransfersImportable(c, []) by {
      NothingImportable(c);
    }
  }

  lemma NothingImportable(c: Cluster)
    ensures TransfersImportable(c, [])
  {
  }

  // ---------------------------------------------------------------------------
  // Compression of an importable list
  // ---------------------------------------------------------------------------

  /** The last transfer up to `m` that debits `id` is where its debits reach their total. */
  lemma {:induction false} LastDebit(us: seq<Transfer>, m: nat, i: nat, id: nat) returns (j: nat)
    requires i < m <= |us| && us[i].debitAccountId == id
    ensures j < m && us[j].debitAccountId == id && Debits(us[..j], id) + us[j].amount == Debits(us[..m], id)
  {
    assert us[..m][..m - 1] == us[..m - 1];
    if us[m - 1].debitAccountId == id {
      j := m - 1;
    } else {
      j := LastDebit(us, m - 1, i, id);
    }
  }

  lemma {:induction false} LastCredit(us: seq<Transfer>, m: nat, i: nat, id: nat) returns (j: nat)
    requires i < m <= |us| && us[i].creditAccountId == id
    ensures j < m && us[j].creditAccountId == id && Credits(us[..j], id) + us[j].amount == Credits(us[..m], id)
  {
    assert us[..m][..m - 1] == us[..m - 1];
    if us[m - 1].creditAccountId == id {
      j := m - 1;
    } else {
      j := LastCredit(us, m - 1, i, id);
    }
  }

  /** A described cluster gives one id one timestamp and one pair of limits. */
  lemma OneAccount(c: Cluster, s: Ledger, a: Account, b: Account)
    requires c.Describes(s) && a in c.accounts && b in c.accounts && a.id == b.id
    ensures a.timestamp == b.timestamp && a.ledger == b.ledger
    ensures Closed(a.flags) <==> Closed(b.flags)
    ensures DebitsMustNotExceedCredits(a.flags) <==> DebitsMustNotExceedCredits(b.flags)
    ensures CreditsMustNotExceedDebits(a.flags) <==> CreditsMustNotExceedDebits(b.flags)
  {
    assert s.accounts[a.id] == c.Stored(a) == c.Stored(b);
    AccountFlagsPreserved(a.flags);
    AccountFlagsPreserved(b.flags);
  }

  /** What a list that can be imported says of the debit side of one of its transfers. */
  lemma DebitAccount(c: Cluster, us: seq<Transfer>, k: nat) returns (a: Account)
    requires k < |us| && TransfersImportable(c, us)
    ensures a in c.accounts && a.id == us[k].debitAccountId && Usable(a, us[k])
    ensures var debits := c.debits(a.id) + Debits(us[..k], a.id) + us[k].amount;
            && debits <= U128_MAX
            && (DebitsMustNotExceedCredits(a.flags) ==> debits <= c.credits(a.id) + Credits(us[..k], a.id))
    ensures WellFormed(us[k])
  {
    hide Debits, Credits, Closed, DebitsMustNotExceedCredits, WellFormed;
    assert Taken(c, us, k);
    var t := us[k];
    var debits := c.debits(t.debitAccountId) + Debits(us[..k], t.debitAccountId) + t.amount;
    a :| a in c.accounts && a.id == t.debitAccountId && Usable(a, t) && debits <= U128_MAX
         && (DebitsMustNotExceedCredits(a.flags) ==> debits <= c.credits(a.id) + Credits(us[..k], a.id));
  }

  lemma CreditAccount(c: Cluster, us: seq<Transfer>, k: nat) returns (a: Account)
    requires k < |us| && TransfersImportable(c, us)
    ensures a in c.accounts && a.id == us[k].creditAccountId && Usable(a, us[k])
    ensures var credits := c.credits(a.id) + Credits(us[..k], a.id) + us[k].amount;
            && credits <= U128_MAX
            && (CreditsMustNotExceedDebits(a.flags) ==> credits <= c.debits(a.id) + Debits(us[..k], a.id))
    ensures WellFormed(us[k])
  {
    hide Debits, Credits, Closed, CreditsMustNotExceedDebits, WellFormed;
    assert Taken(c, us, k);
    var t := us[k];
    var credits := c.credits(t.creditAccountId) + Credits(us[..k], t.creditAccountId) + t.amount;
    a :| a in c.accounts && a.id == t.creditAccountId && Usable(a, t) && credits <= U128_MAX
         && (CreditsMustNotExceedDebits(a.flags) ==> credits <= c.debits(a.id) + Debits(us[..k], a.id));
  }

  lemma DebitCompressible(c: Cluster, s: Ledger, ts: seq<Transfer>, cutoffTs: nat, t: Transfer, base: nat)
    requires c.Describes(s) && cutoffTs > 0 && t in Before(ts, cutoffTs)
    requires TransfersImportable(c, WindowedPart(ts, 0)) && DebitsNeedNoCredits(c, Before(ts, cutoffTs), t, base)
    ensures t.debitAccountId != t.creditAccountId && t.ledger != 0
    ensures OpeningCoversDebits(c, Before(ts, cutoffTs), t, base)
  {
    hide Debits, Credits, WindowedPart, Before, Closed, DebitsMustNotExceedCredits, TransfersImportable, PlainFlags;
    var pre, vs, id := Before(ts, cutoffTs), WindowedPart(ts, 0), t.debitAccountId;
    var i := EarlyIndex(ts, cutoffTs, t);
    var j := LastDebit(vs, |pre|, i, id);
    VerbatimTotals(ts, cutoffTs, 0, id);
    NoTotals(id);
    var a :| a in c.accounts && a.id == id && a.timestamp < base
             && (DebitsMustNotExceedCredits(a.flags) ==> c.debits(a.id) + Debits(pre, a.id) <= c.credits(a.id));
    var b := DebitAccount(c, vs, i);
    var d := DebitAccount(c, vs, j);
    OneAccount(c, s, a, b);
  }

  lemma CreditCompressible(c: Cluster, s: Ledger, ts: seq<Transfer>, cutoffTs: nat, t: Transfer, base: nat)
    requires c.Describes(s) && cutoffTs > 0 && t in Before(ts, cutoffTs)
    requires TransfersImportable(c, WindowedPart(ts, 0)) && CreditsNeedNoDebits(c, Before(ts, cutoffTs), t, base)
    ensures OpeningCoversCredits(c, Before(ts, cutoffTs), t, base)
  {
    hide Debits, Credits, WindowedPart, Before, Closed, CreditsMustNotExceedDebits, TransfersImportable, PlainFlags;
    var pre, vs, id := Before(ts, cutoffTs), WindowedPart(ts, 0), t.creditAccountId;
    var i := EarlyIndex(ts, cutoffTs, t);
    var j := LastCredit(vs, |pre|, i, id);
    VerbatimTotals(ts, cutoffTs, 0, id);
    NoTotals(id);
    var a :| a in c.accounts && a.id == id && a.timestamp < base
             && (CreditsMustNotExceedDebits(a.flags) ==> c.credits(a.id) + Credits(pre, a.id) <= c.debits(a.id));
    var b := CreditAccount(c, vs, i);
    var d := CreditAccount(c, vs, j);
    OneAccount(c, s, a, b);
  }

  lemma WindowedDebitTaken(c: Cluster, s: Ledger, ts: seq<Transfer>, cutoffTs: nat, k: nat)
    requires c.Describes(s) && cutoffTs > 0 && k < |WindowedPart(ts, cutoffTs)|
    requires TransfersImportable(c, WindowedPart(ts, 0))
    requires OlderAccount(c, WindowedPart(ts, cutoffTs)[k].debitAccountId, WindowedPart(ts, cutoffTs)[k].timestamp)
    ensures DebitTaken(AfterKeys(c, Before(ts, cutoffTs), cutoffTs), WindowedPart(ts, cutoffTs), k)
    ensures WellFormed(WindowedPart(ts, cutoffTs)[k])
  {
    hide Debits, Credits, WindowedPart, Before, Closed, DebitsMustNotExceedCredits, KeySet, PlainFlags,
         TransfersImportable;
    var pre, vs, w := Before(ts, cutoffTs), WindowedPart(ts, 0), WindowedPart(ts, cutoffTs)[k];
    WindowedNoLater(ts, cutoffTs, k);
    VerbatimTotals(ts, cutoffTs, k, w.debitAccountId);
    var b := DebitAccount(c, vs, |pre| + k);
    var a :| a in c.accounts && a.id == w.debitAccountId && a.timestamp < w.timestamp;
    OneAccount(c, s, a, b);
  }

  lemma WindowedCreditTaken(c: Cluster, s: Ledger, ts: seq<Transfer>, cutoffTs: nat, k: nat)
    requires c.Describes(s) && cutoffTs > 0 && k < |WindowedPart(ts, cutoffTs)|
    requires TransfersImportable(c, WindowedPart(ts, 0))
    requires OlderAccount(c, WindowedPart(ts, cutoffTs)[k].creditAccountId, WindowedPart(ts, cutoffTs)[k].timestamp)
    ensures CreditTaken(AfterKeys(c, Before(ts, cutoffTs), cutoffTs), WindowedPart(ts, cutoffTs), k)
  {
    hide Debits, Credits, WindowedPart, Before, Closed, CreditsMustNotExceedDebits, KeySet, PlainFlags,
         TransfersImportable;
    var pre, vs, w := Before(ts, cutoffTs), WindowedPart(ts, 0), WindowedPart(ts, cutoffTs)[k];
    WindowedNoLater(ts, cutoffTs, k);
    VerbatimTotals(ts, cutoffTs, k, w.creditAccountId);
    var b := CreditAccount(c, vs, |pre| + k);
    var a :| a in c.accounts && a.id == w.creditAccountId && a.timestamp < w.timestamp;
    OneAccount(c, s, a, b);
  }

  lemma IdsDiffer(c: Cluster, us: seq<Transfer>, i: nat, j: nat)
    requires TransfersImportable(c, us) && i < j < |us|
    ensures us[i].id != us[j].id && us[j].id > c.idsUsed
  {
    assert Taken(c, us, j);
  }

  lemma InThePast(c: Cluster, us: seq<Transfer>, i: nat)
    requires TransfersImportable(c, us) && i < |us|
    ensures TimestampOk(us[i].timestamp, c.clock)
  {
    assert Taken(c, us, i);
  }

  lemma PartAfterCutoff(ts: seq<Transfer>, cutoffTs: nat)
    ensures var r := WindowedPart(ts, cutoffTs);
            && (forall i :: 0 <= i < |r| ==> r[i].timestamp >= cutoffTs)
            && (forall i, j :: 0 <= i < j < |r| ==> r[i].timestamp < r[j].timestamp)
  {
    WindowedAfterCutoff(ts, cutoffTs, []);
    hide WindowedPart;
    assert CsvPlan(ts, cutoffTs, []).windowedTransfers == WindowedPart(ts, cutoffTs);
  }

  /** With room, the cluster after the compressed transfers is numbered and timed below the window. */
  lemma RoomBounds(c: Cluster, ts: seq<Transfer>, cutoffTs: nat)
    requires cutoffTs > 0 && Before(ts, cutoffTs) != [] && RoomToCompress(c, ts, cutoffTs)
    ensures var d := AfterKeys(c, Before(ts, cutoffTs), cutoffTs);
            && d.lastTimestamp < cutoffTs && d.clock == c.clock
            && forall w <- WindowedPart(ts, cutoffTs) :: w.id > d.idsUsed
  {
    var pre := Before(ts, cutoffTs);
    assert KeyOf(pre[0]) in KeySet(pre);
    hide WindowedPart, Before, KeySet, DebitsNeedNoCredits, CreditsNeedNoDebits, OlderAccount, Debits, Credits;
  }

  lemma WindowedInTurn(c: Cluster, ts: seq<Transfer>, cutoffTs: nat, k: nat)
    requires cutoffTs > 0 && Before(ts, cutoffTs) != [] && k < |WindowedPart(ts, cutoffTs)|
    requires TransfersImportable(c, WindowedPart(ts, 0)) && RoomToCompress(c, ts, cutoffTs)
    ensures InTurn(AfterKeys(c, Before(ts, cutoffTs), cutoffTs), WindowedPart(ts, cutoffTs), k)
  {
    hide WindowedPart, Before, TransfersImportable, AfterKeys, RoomToCompress;
    var pre, vs, ws := Before(ts, cutoffTs), WindowedPart(ts, 0), WindowedPart(ts, cutoffTs);
    RoomBounds(c, ts, cutoffTs);
    PartAfterCutoff(ts, cutoffTs);
    WindowedNoLater(ts, cutoffTs, k);
    InThePast(c, vs, |pre| + k);
    assert ws[k] in ws;
    forall j | 0 <= j < k
      ensures ws[j].id != ws[k].id
    {
      WindowedNoLater(ts, cutoffTs, j);
      IdsDiffer(c, vs, |pre| + j, |pre| + k);
    }
  }

  lemma RoomSuffices(c: Cluster, s: Ledger, ts: seq<Transfer>, cutoffTs: nat)
    requires c.Describes(s) && cutoffTs > 0 && Before(ts, cutoffTs) != []
    requires TransfersImportable(c, WindowedPart(ts, 0)) && RoomToCompress(c, ts, cutoffTs)
    ensures CsvImportable(c, ts, cutoffTs)
  {
    var pre, ws := Before(ts, cutoffTs), WindowedPart(ts, cutoffTs);
    var base := BaseTimestamp(cutoffTs, |KeySet(pre)|);
    hide WindowedPart, Before, KeySet, DebitsNeedNoCredits, CreditsNeedNoDebits, OlderAccount, Taken, AfterKeys,
         OpeningCoversDebits, OpeningCoversCredits, InTurn, BaseTimestamp, TimestampOk;
    forall t <- pre
      ensures Compressible(c, pre, t, base)
    {
      DebitCompressible(c, s, ts, cutoffTs, t, base);
      CreditCompressible(c, s, ts, cutoffTs, t, base);
    }
    forall k | 0 <= k < |ws|
      ensures Taken(AfterKeys(c, pre, cutoffTs), ws, k)
    {
      assert WindowedClear(c, ws[k], |KeySet(pre)|);
      WindowedDebitTaken(c, s, ts, cutoffTs, k);
      WindowedCreditTaken(c, s, ts, cutoffTs, k);
      WindowedInTurn(c, ts, cutoffTs, k);
      TakenIs(AfterKeys(c, pre, cutoffTs), ws, k);
    }
  }

  lemma TakenIs(c: Cluster, ts: seq<Transfer>, k: nat)
    requires k < |ts| && WellFormed(ts[k]) && InTurn(c, ts, k) && DebitTaken(c, ts, k) && CreditTaken(c, ts, k)
    ensures Taken(c, ts, k)
  {
  }

  lemma CompressibleNeedsNothing(c: Cluster, pre: seq<Transfer>, t: Transfer, base: nat)
    requires Compressible(c, pre, t, base)
    ensures DebitsNeedNoCredits(c, pre, t, base) && CreditsNeedNoDebits(c, pre, t, base)
  {
    hide Debits, Credits, Closed, DebitsMustNotExceedCredits, CreditsMustNotExceedDebits;
  }

  lemma TakenIsClear(c: Cluster, ws: seq<Transfer>, k: nat)
    requires k < |ws| && Taken(c, ws, k)
    ensures WindowedClear(c, ws[k], c.idsUsed)
  {
    hide Debits, Credits, Closed, DebitsMustNotExceedCredits, CreditsMustNotExceedDebits, TimestampOk, WellFormed;
  }

  lemma RoomNecessary(c: Cluster, ts: seq<Transfer>, cutoffTs: nat)
    requires Before(ts, cutoffTs) != [] && CsvImportable(c, ts, cutoffTs)
    ensures RoomToCompress(c, ts, cutoffTs)
  {
    var pre, ws := Before(ts, cutoffTs), WindowedPart(ts, cutoffTs);
    var n, d := |KeySet(pre)|, AfterKeys(c, pre, cutoffTs);
    var base := BaseTimestamp(cutoffTs, n);
    assert KeyOf(pre[0]) in KeySet(pre);
    hide WindowedPart, Before, KeySet, DebitsNeedNoCredits, CreditsNeedNoDebits, OlderAccount, Compressible, Taken,
         TimestampOk, BaseTimestamp;
    forall t <- pre
      ensures DebitsNeedNoCredits(c, pre, t, base) && CreditsNeedNoDebits(c, pre, t, base)
    {
      CompressibleNeedsNothing(c, pre, t, base);
    }
    forall w <- ws
      ensures WindowedClear(c, w, n)
    {
      var k :| 0 <= k < |ws| && ws[k] == w;
      TakenIsClear(d, ws, k);
      SameAccountsClear(d, c, w, n);
    }
  }

  lemma SameAccountsClear(c: Cluster, d: Cluster, w: Transfer, n: nat)
    requires d.accounts == c.accounts && WindowedClear(c, w, n)
    ensures WindowedClear(d, w, n)
  {
  }

  /** A list that can be imported one by one can be imported compressed, in every order, exactly when there is room. */
  lemma CompressibleIff(c: Cluster, s: Ledger, ts: seq<Transfer>, cutoffTs: nat)
    requires c.Describes(s) && TransfersImportable(c, WindowedPart(ts, 0))
    ensures CsvImportable(c, ts, cutoffTs) <==> (Before(ts, cutoffTs) != [] ==> RoomToCompress(c, ts, cutoffTs))
  {
    hide CsvImportable, RoomToCompress, TransfersImportable, WindowedPart, Before;
    if Before(ts, cutoffTs) == [] {
      NothingToCompress(c, ts, cutoffTs);
    } else {
      NothingBeforeZero(ts);
      if CsvImportable(c, ts, cutoffTs) {
        RoomNecessary(c, ts, cutoffTs);
      }
      if RoomToCompress(c, ts, cutoffTs) {
        RoomSuffices(c, s, ts, cutoffTs);
      }
    }
  }

  /** Importing the CSV transfers into a ledger, for one order of the hash map. */
  function CsvRun(s: Ledger, ts: seq<Transfer>, cutoffTs: nat, order: seq<Key>): Result<Ledger, Rejection> {
    Run(s, TransferEvents(PlanTransfers(CsvPlan(ts, cutoffTs, order))))
  }

  /**
    Compression preserves the meaning of a CSV import. If all transfers can be imported one by one, they can
    be imported compressed, in every order, exactly when there is room; and whenever both imports are accepted
    every account ends with the same balances.
   */
  lemma CompressionPreservesBalances(s: Ledger, c: Cluster, ts: seq<Transfer>, cutoffTs: nat)
    requires c.Describes(s)
    ensures CsvRun(s, ts, 0, []).Ok? <==> TransfersImportable(c, WindowedPart(ts, 0))
    ensures CsvRun(s, ts, 0, []).Ok? ==>
              ((forall order :: PossibleOrder(ts, cutoffTs, order) ==> CsvRun(s, ts, cutoffTs, order).Ok?)
               <==> (Before(ts, cutoffTs) != [] ==> RoomToCompress(c, ts, cutoffTs)))
    ensures CsvRun(s, ts, 0, []).Ok? ==>
              forall order :: PossibleOrder(ts, cutoffTs, order) && CsvRun(s, ts, cutoffTs, order).Ok? ==>
                CsvRun(s, ts, cutoffTs, order).value.accounts == CsvRun(s, ts, 0, []).value.accounts
  {
    hide *;
    CsvRunIs(s, ts, 0, []);
    VerbatimPlanned(ts);
    CsvPlanAcceptedIff(s, c, ts, 0, []);
    if CsvRun(s, ts, 0, []).Ok? {
      CompressibleIff(c, s, ts, cutoffTs);
    }
    AcceptedInEveryOrderIff(s, c, ts, cutoffTs);
    forall order | PossibleOrder(ts, cutoffTs, order)
      ensures CsvRun(s, ts, cutoffTs, order) == Run(s, TransferEvents(PlanTransfers(CsvPlan(ts, cutoffTs, order))))
      ensures CsvRun(s, ts, cutoffTs, order).Ok? ==> CsvRun(s, ts, cutoffTs, order).value.accounts == WithTotals(s, ts)
    {
      CsvRunIs(s, ts, cutoffTs, order);
      CsvPlanAcceptedIff(s, c, ts, cutoffTs, order);
    }
  }

  lemma CsvRunIs(s: Ledger, ts: seq<Transfer>, cutoffTs: nat, order: seq<Key>)
    ensures CsvRun(s, ts, cutoffTs, order) == Run(s, TransferEvents(PlanTransfers(CsvPlan(ts, cutoffTs, order))))
  {
  }

  lemma VerbatimPlanned(ts: seq<Transfer>)
    ensures PossibleOrder(ts, 0, []) && PlannedTransfers(CsvPlan(ts, 0, [])) == WindowedPart(ts, 0)
  {
    NothingBeforeZero(ts);
    hide WindowedPart, Before;
    assert ConvertTransfers([]) + WindowedPart(ts, 0) == WindowedPart(ts, 0);
  }
}
